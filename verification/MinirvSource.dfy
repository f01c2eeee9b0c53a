/** RV32I meaning of the lowered instructions, over a program listing whose instructions sit at
    the addresses their expansions get. */
module MinirvSource {
  import opened Bits
  import opened MinirvMachine
  import opened MinirvTables
  import opened MinirvMacros
  import opened MinirvShifts
  import opened MinirvEffects
  import opened MinirvShiftEffects

  datatype Option<T> = None | Some(value: T)

  // ---------- programs and their layout ----------

  datatype Program = Program(env: Env, base: Word, instrs: seq<Instr>)

  predicate TargetOk(p: Program, i: Instr) {
    match i
    case BranchIf(_, _, _, target) => target <= |p.instrs|
    case JumpLink(_, target) => target <= |p.instrs|
    case TailCall(target) => target <= |p.instrs|
    case _ => true
  }

  predicate Legal(p: Program) {
    forall i | i in p.instrs :: OperandsOk(i) && TargetOk(p, i)
  }

  /** Number of base instructions the first k instructions expand to. */
  function Offset(p: Program, k: nat): nat
    requires Legal(p) && k <= |p.instrs|
  {
    if k == 0 then 0 else Offset(p, k - 1) + BlockSize(Expand(p.env, p.instrs[k - 1], 0, 0))
  }

  lemma {:induction false} OffsetMonotone(p: Program, j: nat, k: nat)
    requires Legal(p) && j <= k <= |p.instrs|
    ensures Offset(p, j) <= Offset(p, k)
  {
    if j < k {
      OffsetMonotone(p, j, k - 1);
    }
  }

  /** The expanded program fits the address space. */
  ghost predicate Loadable(p: Program) {
    && EnvOk(p.env) && Legal(p)
    && p.base % 4 == 0 && p.base + 4 * Offset(p, |p.instrs|) < 0x1_0000_0000
  }

  function Addr(p: Program, k: nat): Word
    requires Legal(p) && k <= |p.instrs|
  {
    Wrap(p.base + 4 * Offset(p, k))
  }

  function TargetIndex(i: Instr): nat {
    match i
    case BranchIf(_, _, _, target) => target
    case JumpLink(_, target) => target
    case TailCall(target) => target
    case _ => 0
  }

  function ExpandAt(p: Program, k: nat): Block
    requires Legal(p) && k < |p.instrs|
  {
    assert OperandsOk(p.instrs[k]) && TargetOk(p, p.instrs[k]);
    Expand(p.env, p.instrs[k], Addr(p, TargetIndex(p.instrs[k])), Addr(p, k + 1))
  }

  /** The base instructions of the first k expansions. */
  function Listing(p: Program, k: nat): seq<Instruction>
    requires Legal(p) && k <= |p.instrs|
  {
    if k == 0 then [] else Listing(p, k - 1) + BlockCode(ExpandAt(p, k - 1))
  }

  function Lowered(p: Program): Image
    requires Legal(p)
  {
    Image(p.base, Listing(p, |p.instrs|))
  }

  /** Smallest index whose address is a. */
  function FindAddr(p: Program, a: Word, k: nat): Option<nat>
    requires Legal(p) && k <= |p.instrs|
    decreases |p.instrs| - k
  {
    if Addr(p, k) == a then Some(k)
    else if k == |p.instrs| then None
    else FindAddr(p, a, k + 1)
  }

  // ---------- values ----------

  function AluValue(op: AluOp, x: Word, y: Word): Word {
    match op
    case SubOp => Minus(x, y)
    case SltOp => if Signed(x) < Signed(y) then 1 else 0
    case SltuOp => if x < y then 1 else 0
    case LogicOp(b) => Bitwise32(b, x, y)
    case ShiftOp(kind) => if kind == Sll then Shl(x, y % 32) else Shr(kind == Sra, x, y % 32)
  }

  predicate Taken(cmp: Cmp, x: Word, y: Word) {
    match cmp
    case Eq => x == y
    case Ne => x != y
    case Lt => Signed(x) < Signed(y)
    case Ge => Signed(x) >= Signed(y)
    case Ltu => x < y
    case Geu => x >= y
  }

  function SignExtend8(b: Byte): Word {
    if b < 0x80 then b else 0x1_0000_0000 - 0x100 + b
  }

  function SignExtend16(h: int): Word
    requires 0 <= h < 0x1_0000
  {
    if h < 0x8000 then h else 0x1_0000_0000 - 0x1_0000 + h
  }

  // ---------- machine state ----------

  /** pc is an index into the listing. Memory holds the bytes that have a value: what lies below sp
      may be overwritten at any time, so it has none. */
  datatype Source = Source(pc: nat, regs: Regs, mem: map<int, Byte>)

  predicate InRed(sp: Word, a: int) {
    1 <= sp / 4 - a / 4 <= 7
  }

  function Live(mem: map<int, Byte>, sp: Word): map<int, Byte> {
    map a | a in mem && !InRed(sp, a) :: mem[a]
  }

  /** RAM a program may use: everything writable but the scratch array. */
  predicate UserWord(env: Env, k: int) {
    k in env.ramKeys && !InArray(env, k)
  }

  predicate StoreOk(env: Env, sp: Word, a: int) {
    UserWord(env, a / 4) && !InRed(sp, a)
  }

  function Next(s: Source, rd: Reg, v: Word): Source {
    Source(s.pc + 1, Put(s.regs, rd, v), Live(s.mem, s.regs[SP]))
  }

  function Stored(s: Source, mem: map<int, Byte>): Source {
    Source(s.pc + 1, s.regs, mem)
  }

  function WordAt(mem: map<int, Byte>, a: int): Option<Word> {
    if a % 4 == 0 && a in mem && a + 1 in mem && a + 2 in mem && a + 3 in mem
    then Some(Join(Cell(mem[a], mem[a + 1], mem[a + 2], mem[a + 3])))
    else None
  }

  function PutWord(mem: map<int, Byte>, a: int, x: Word): map<int, Byte> {
    var c := Split(x);
    mem[a := c.b0][a + 1 := c.b1][a + 2 := c.b2][a + 3 := c.b3]
  }

  /** The instructions that are kept as they are. */
  function StepBase(env: Env, s: Source, b: Base): Option<Source> {
    var sp := s.regs[SP];
    var mem := Live(s.mem, sp);
    match b
    case Add(rd, rs1, rs2) => Some(Next(s, rd, Plus(s.regs[rs1], s.regs[rs2])))
    case Addi(rd, rs1, imm) => Some(Next(s, rd, Plus(s.regs[rs1], imm)))
    case Lui(rd, imm) => Some(Next(s, rd, Wrap(imm * 4096)))
    case Lw(rd, rs1, imm) =>
      var v := WordAt(mem, Plus(s.regs[rs1], imm));
      if v.Some? then Some(Next(s, rd, v.value)) else None
    case Lbu(rd, rs1, imm) =>
      var a := Plus(s.regs[rs1], imm);
      if a in mem then Some(Next(s, rd, mem[a])) else None
    case Sw(rs2, rs1, imm) =>
      var a := Plus(s.regs[rs1], imm);
      if a % 4 == 0 && StoreOk(env, sp, a) then Some(Stored(s, PutWord(mem, a, s.regs[rs2]))) else None
    case Sb(rs2, rs1, imm) =>
      var a := Plus(s.regs[rs1], imm);
      if StoreOk(env, sp, a) then Some(Stored(s, mem[a := s.regs[rs2] % 0x100])) else None
  }

  /** One source instruction; None when its behaviour is not defined: sp is out of order, a load reads
      a byte without value, a store or a jump goes where the program may not go. */
  ghost function StepSource(p: Program, s: Source): Option<Source>
    requires Loadable(p)
  {
    var sp := s.regs[SP];
    if s.pc >= |p.instrs| || !StackOk(p.env, sp) then None
    else
      var mem := Live(s.mem, sp);
      assert TargetOk(p, p.instrs[s.pc]);
      match p.instrs[s.pc]
      case Native(b) => StepBase(p.env, s, b)
      case JumpReg(rd, rs1, off) =>
        var a := Plus(s.regs[rs1], off);
        var t := FindAddr(p, a - a % 2, 0);
        if t.Some? then Some(Source(t.value, Put(s.regs, rd, Addr(p, s.pc + 1)), mem)) else None
      case Alu(op, rd, rs1, rs2) => Some(Next(s, rd, AluValue(op, s.regs[rs1], s.regs[rs2])))
      case AluImm(op, rd, rs1, imm) => Some(Next(s, rd, AluValue(op, s.regs[rs1], Wrap(imm))))
      case Lb(rd, rs1, off) =>
        var a := Plus(s.regs[rs1], off);
        if a in mem then Some(Next(s, rd, SignExtend8(mem[a]))) else None
      case Lh(rd, rs1, off) =>
        var a, a1 := Plus(s.regs[rs1], off), Plus(s.regs[rs1], off + 1);
        if a in mem && a1 in mem then Some(Next(s, rd, SignExtend16(Pair(mem[a], mem[a1])))) else None
      case Lhu(rd, rs1, off) =>
        var a, a1 := Plus(s.regs[rs1], off), Plus(s.regs[rs1], off + 1);
        if a in mem && a1 in mem then Some(Next(s, rd, Pair(mem[a], mem[a1]))) else None
      case StoreHalf(rs2, rs1, off) =>
        var a, a1 := Plus(s.regs[rs1], off), Plus(s.regs[rs1], off + 1);
        var c := Split(s.regs[rs2]);
        if StoreOk(p.env, sp, a) && StoreOk(p.env, sp, a1) then Some(Stored(s, mem[a := c.b0][a1 := c.b1])) else None
      case BranchIf(cmp, rs1, rs2, target) =>
        Some(Source(if Taken(cmp, s.regs[rs1], s.regs[rs2]) then target else s.pc + 1, s.regs, mem))
      case JumpLink(rd, target) => Some(Source(target, Put(s.regs, rd, Addr(p, s.pc + 1)), mem))
      case TailCall(target) => Some(Source(target, s.regs, mem))
      case LoadAddress(rd, addr) => Some(Next(s, rd, addr))
      case Seqz(rd, rs1) => Some(Next(s, rd, if s.regs[rs1] == 0 then 1 else 0))
      case Complement(rd, rs1) => Some(Next(s, rd, 0x1_0000_0000 - 1 - s.regs[rs1]))
      case Sltz(rd, rs1) => Some(Next(s, rd, if Signed(s.regs[rs1]) < 0 then 1 else 0))
  }

  ghost function RunSource(p: Program, s: Source, n: nat): Option<Source>
    requires Loadable(p)
  {
    if n == 0 then Some(s)
    else
      var s1 := RunSource(p, s, n - 1);
      if s1.None? then None else StepSource(p, s1.value)
  }
}
