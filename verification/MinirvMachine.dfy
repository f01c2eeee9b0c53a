/** The base machine of the lowering: 32-bit registers, a word-organised memory with byte
    lanes, and the eight base instructions. */
module MinirvMachine {
  import opened Bits

  type Word = x: int | 0 <= x < 0x1_0000_0000
  type Byte = x: int | 0 <= x < 0x100
  type Reg = r: int | 0 <= r < 32

  const RA: Reg := 1
  const SP: Reg := 2
  const GP: Reg := 3
  const TP: Reg := 4
  const S0: Reg := 8
  const S1: Reg := 9

  // Register x0 always reads as zero.
  type Regs = s: seq<Word> | |s| == 32 && s[0] == 0 witness seq(32, _ => 0)

  function Wrap(x: int): Word {
    x % 0x1_0000_0000
  }

  function Plus(x: int, y: int): Word {
    Wrap(x + y)
  }

  function Minus(x: int, y: int): Word {
    Wrap(x - y)
  }

  lemma NoWrap(x: int)
    requires 0 <= x < 0x1_0000_0000
    ensures Wrap(x) == x
  {
  }

  /** A halfword from its two bytes. */
  function Pair(lo: int, hi: int): int {
    lo + 0x100 * hi
  }

  // ---------- memory words as four byte lanes, least significant first ----------

  datatype Cell = Cell(b0: Byte, b1: Byte, b2: Byte, b3: Byte)

  function Join(c: Cell): Word {
    c.b0 + 0x100 * c.b1 + 0x1_0000 * c.b2 + 0x100_0000 * c.b3
  }

  function Split(x: Word): (c: Cell)
    ensures Join(c) == x
  {
    var h1 := x / 0x100;
    var h2 := h1 / 0x100;
    Cell(x % 0x100, h1 % 0x100, h2 % 0x100, h2 / 0x100)
  }

  const ZERO := Cell(0, 0, 0, 0)

  lemma ZeroSplit(x: Word)
    requires x == 0
    ensures Split(x) == ZERO
  {
    hide Split;
    assert Join(Split(x)) == 0;
  }

  function Lane(c: Cell, k: int): Byte {
    if k == 0 then c.b0 else if k == 1 then c.b1 else if k == 2 then c.b2 else c.b3
  }

  function SetLane(c: Cell, k: int, b: Byte): Cell {
    if k == 0 then c.(b0 := b) else if k == 1 then c.(b1 := b) else if k == 2 then c.(b2 := b) else c.(b3 := b)
  }

  // ---------- instructions ----------

  datatype Base =
    | Add(rd: Reg, rs1: Reg, rs2: Reg)
    | Addi(rd: Reg, rs1: Reg, imm: int)
    | Lui(rd: Reg, imm: int)
    | Lw(rd: Reg, rs1: Reg, imm: int)
    | Lbu(rd: Reg, rs1: Reg, imm: int)
    | Sw(rs2: Reg, rs1: Reg, imm: int)
    | Sb(rs2: Reg, rs1: Reg, imm: int)

  /** The eighth instruction, jalr, ends a stretch of straight-line code. */
  datatype Instruction = Data(b: Base) | Jalr(rd: Reg, rs1: Reg, imm: int)

  /** The immediate fits the instruction's encoding. */
  predicate Encodable(b: Base) {
    match b
    case Add(_, _, _) => true
    case Lui(_, imm) => 0 <= imm < 0x10_0000
    case _ => -2048 <= b.imm < 2048
  }

  /** ok records that no access so far was misaligned, hit an unmapped word, or stored outside RAM. */
  datatype Machine = Machine(pc: Word, regs: Regs, ram: map<int, Cell>, ok: bool)

  function Put(regs: Regs, rd: Reg, v: Word): Regs {
    if rd == 0 then regs else regs[rd := v]
  }

  function Fetch(rom: map<int, Cell>, m: Machine, k: int): Cell {
    if k in m.ram then m.ram[k] else if k in rom then rom[k] else Cell(0, 0, 0, 0)
  }

  predicate Mapped(rom: map<int, Cell>, m: Machine, k: int) {
    k in m.ram || k in rom
  }

  function Exec1(rom: map<int, Cell>, b: Base, m: Machine): Machine {
    var next := Wrap(m.pc + 4);
    match b
    case Add(rd, rs1, rs2) => m.(pc := next, regs := Put(m.regs, rd, Plus(m.regs[rs1], m.regs[rs2])))
    case Addi(rd, rs1, imm) => m.(pc := next, regs := Put(m.regs, rd, Plus(m.regs[rs1], imm)))
    case Lui(rd, imm) => m.(pc := next, regs := Put(m.regs, rd, Wrap(imm * 4096)))
    case Lw(rd, rs1, imm) =>
      var a := Plus(m.regs[rs1], imm);
      m.(pc := next, regs := Put(m.regs, rd, Join(Fetch(rom, m, a / 4))),
         ok := m.ok && a % 4 == 0 && Mapped(rom, m, a / 4))
    case Lbu(rd, rs1, imm) =>
      var a := Plus(m.regs[rs1], imm);
      m.(pc := next, regs := Put(m.regs, rd, Lane(Fetch(rom, m, a / 4), a % 4)),
         ok := m.ok && Mapped(rom, m, a / 4))
    case Sw(rs2, rs1, imm) =>
      var a := Plus(m.regs[rs1], imm);
      if a % 4 == 0 && a / 4 in m.ram
      then m.(pc := next, ram := m.ram[a / 4 := Split(m.regs[rs2])])
      else m.(pc := next, ok := false)
    case Sb(rs2, rs1, imm) =>
      var a := Plus(m.regs[rs1], imm);
      if a / 4 in m.ram
      then m.(pc := next, ram := m.ram[a / 4 := SetLane(m.ram[a / 4], a % 4, m.regs[rs2] % 0x100)])
      else m.(pc := next, ok := false)
  }

  function ExecJump(rd: Reg, rs1: Reg, imm: int, m: Machine): Machine {
    var a := Plus(m.regs[rs1], imm);
    m.(pc := a - a % 2, regs := Put(m.regs, rd, Wrap(m.pc + 4)))
  }

  function ExecAny(rom: map<int, Cell>, i: Instruction, m: Machine): Machine {
    match i
    case Data(b) => Exec1(rom, b, m)
    case Jalr(rd, rs1, imm) => ExecJump(rd, rs1, imm, m)
  }

  // ---------- code ----------

  /** A macro body: instructions other than jumps, put one after the other. */
  datatype Code = Nop | Op(b: Base) | Cat(c1: Code, c2: Code)

  function Flatten(c: Code): seq<Instruction> {
    match c
    case Nop => []
    case Op(b) => [Data(b)]
    case Cat(c1, c2) => Flatten(c1) + Flatten(c2)
  }

  function Size(c: Code): nat {
    match c
    case Nop => 0
    case Op(_) => 1
    case Cat(c1, c2) => Size(c1) + Size(c2)
  }

  lemma {:induction false} SizeIsLength(c: Code)
    ensures |Flatten(c)| == Size(c)
  {
    if c.Cat? {
      SizeIsLength(c.c1);
      SizeIsLength(c.c2);
    }
  }

  function Exec(rom: map<int, Cell>, c: Code, m: Machine): Machine {
    match c
    case Nop => m
    case Op(b) => Exec1(rom, b, m)
    case Cat(c1, c2) => Exec(rom, c2, Exec(rom, c1, m))
  }

  lemma OneAdvances(rom: map<int, Cell>, b: Base, m: Machine)
    ensures Exec1(rom, b, m).pc == Wrap(m.pc + 4)
  {
  }

  lemma WrapTwice(p: int, a: int, b: int)
    ensures Wrap(Wrap(p + a) + b) == Wrap(p + a + b)
  {
  }

  lemma {:induction false} StraightAdvances(rom: map<int, Cell>, c: Code, m: Machine)
    ensures Exec(rom, c, m).pc == Wrap(m.pc + 4 * Size(c))
  {
    hide Exec1;
    match c
    case Nop =>
    case Op(b) => OneAdvances(rom, b, m);
    case Cat(c1, c2) =>
      StraightAdvances(rom, c1, m);
      StraightAdvances(rom, c2, Exec(rom, c1, m));
      WrapTwice(m.pc, 4 * Size(c1), 4 * Size(c2));
  }

  // ---------- the running machine ----------

  /** The loaded program: instruction k sits at base + 4 * k. */
  datatype Image = Image(base: Word, code: seq<Instruction>)

  predicate Fits(im: Image) {
    im.base % 4 == 0 && im.base + 4 * |im.code| < 0x1_0000_0000
  }

  predicate InImage(im: Image, pc: Word) {
    im.base <= pc < im.base + 4 * |im.code| && pc % 4 == 0
  }

  /** One fetch and execute; outside the image nothing is defined, so the machine faults. */
  function Step(rom: map<int, Cell>, im: Image, m: Machine): Machine
    requires Fits(im)
  {
    if InImage(im, m.pc) then ExecAny(rom, im.code[(m.pc - im.base) / 4], m) else m.(ok := false)
  }

  function Run(rom: map<int, Cell>, im: Image, m: Machine, n: nat): Machine
    requires Fits(im)
    decreases n
  {
    if n == 0 then m else Run(rom, im, Step(rom, im, m), n - 1)
  }

  lemma {:induction false} RunAdd(rom: map<int, Cell>, im: Image, m: Machine, a: nat, b: nat)
    requires Fits(im)
    ensures Run(rom, im, m, a + b) == Run(rom, im, Run(rom, im, m, a), b)
    decreases a
  {
    if a > 0 {
      RunAdd(rom, im, Step(rom, im, m), a - 1, b);
    }
  }

  /** The instructions of c sit at index k of the image. */
  predicate Placed(im: Image, k: nat, c: Code) {
    k + Size(c) <= |im.code| && im.code[k..k + Size(c)] == Flatten(c)
  }

  lemma SliceParts<T>(s: seq<T>, k: nat, a: seq<T>, b: seq<T>)
    requires k + |a| + |b| <= |s| && s[k..k + |a| + |b|] == a + b
    ensures s[k..k + |a|] == a && s[k + |a|..k + |a| + |b|] == b
  {
    var all := s[k..k + |a| + |b|];
    assert s[k..k + |a|] == all[..|a|];
    assert s[k + |a|..k + |a| + |b|] == all[|a|..];
  }

  lemma PlacedParts(im: Image, k: nat, c: Code)
    requires c.Cat? && Placed(im, k, c)
    ensures Placed(im, k, c.c1) && Placed(im, k + Size(c.c1), c.c2)
  {
    SizeIsLength(c.c1);
    SizeIsLength(c.c2);
    SliceParts(im.code, k, Flatten(c.c1), Flatten(c.c2));
  }

  lemma RunNone(rom: map<int, Cell>, im: Image, m: Machine)
    requires Fits(im)
    ensures Run(rom, im, m, 0) == m
  {
  }

  lemma RunOne(rom: map<int, Cell>, im: Image, k: nat, b: Instruction, m: Machine)
    requires Fits(im) && k < |im.code| && im.code[k] == b
    requires m.pc == im.base + 4 * k
    ensures Run(rom, im, m, 1) == ExecAny(rom, b, m)
  {
    assert InImage(im, m.pc);
    var m1 := Step(rom, im, m);
    assert Run(rom, im, m1, 0) == m1;
  }

  /** Running placed code instruction by instruction is executing it. */
  lemma {:induction false} RunIsExec(rom: map<int, Cell>, im: Image, k: nat, c: Code, m: Machine)
    requires Fits(im) && Placed(im, k, c)
    requires m.pc == im.base + 4 * k
    ensures Run(rom, im, m, Size(c)) == Exec(rom, c, m)
    decreases c
  {
    hide Exec1, Wrap, Run;
    match c
    case Nop => RunNone(rom, im, m);
    case Op(b) =>
      assert im.code[k..k + 1][0] == im.code[k];
      RunOne(rom, im, k, Data(b), m);
    case Cat(c1, c2) =>
      var m1 := Exec(rom, c1, m);
      PlacedParts(im, k, c);
      RunIsExec(rom, im, k, c1, m);
      StraightAdvances(rom, c1, m);
      NoWrap(m.pc + 4 * Size(c1));
      RunIsExec(rom, im, k + Size(c1), c2, m1);
      RunAdd(rom, im, m, Size(c1), Size(c2));
  }

  // ---------- blocks ----------

  /** How an expansion ends: by falling through, or by a jump that leaves the rest unreached. */
  datatype Exit = FallThrough | JumpBy(rd: Reg, rs1: Reg, imm: int, unreached: seq<Instruction>)

  datatype Block = Block(body: Code, exit: Exit)

  function BlockCode(b: Block): seq<Instruction> {
    Flatten(b.body) +
    match b.exit
    case FallThrough => []
    case JumpBy(rd, rs1, imm, rest) => [Jalr(rd, rs1, imm)] + rest
  }

  function BlockSize(b: Block): nat {
    Size(b.body) + if b.exit.FallThrough? then 0 else 1 + |b.exit.unreached|
  }

  lemma BlockSizeIsLength(b: Block)
    ensures |BlockCode(b)| == BlockSize(b)
  {
    SizeIsLength(b.body);
  }

  /** Instructions actually executed. */
  function BlockSteps(b: Block): nat {
    Size(b.body) + if b.exit.FallThrough? then 0 else 1
  }

  function ExecBlock(rom: map<int, Cell>, b: Block, m: Machine): Machine {
    var m1 := Exec(rom, b.body, m);
    if b.exit.FallThrough? then m1 else ExecJump(b.exit.rd, b.exit.rs1, b.exit.imm, m1)
  }

  lemma SliceTake<T>(s: seq<T>, k: nat, m: nat, n: nat)
    requires n <= m && k + m <= |s|
    ensures s[k..k + n] == s[k..k + m][..n]
  {
  }

  /** Running a block from its first instruction is executing it. */
  lemma RunBlock(rom: map<int, Cell>, im: Image, k: nat, b: Block, m: Machine)
    requires Fits(im) && k + BlockSize(b) <= |im.code| && im.code[k..k + BlockSize(b)] == BlockCode(b)
    requires m.pc == im.base + 4 * k
    ensures Run(rom, im, m, BlockSteps(b)) == ExecBlock(rom, b, m)
  {
    hide Exec1, ExecJump, Wrap, Run, Exec;
    BlockSizeIsLength(b);
    SizeIsLength(b.body);
    var n := Size(b.body);
    SliceTake(im.code, k, BlockSize(b), n);
    RunIsExec(rom, im, k, b.body, m);
    if b.exit.JumpBy? {
      var m1 := Exec(rom, b.body, m);
      StraightAdvances(rom, b.body, m);
      NoWrap(m.pc + 4 * n);
      assert im.code[k + n] == im.code[k..k + BlockSize(b)][n] == Jalr(b.exit.rd, b.exit.rs1, b.exit.imm);
      RunOne(rom, im, k + n, Jalr(b.exit.rd, b.exit.rs1, b.exit.imm), m1);
      RunAdd(rom, im, m, n, 1);
    }
  }
}
