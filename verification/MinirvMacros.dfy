/** The macros: every lowered instruction as code over the base instructions. */
module MinirvMacros {
  import opened Bits
  import opened MinirvMachine
  import opened MinirvTables

  // ---------- placement of tables and scratch memory ----------

  /** Where the linker put things: the lookup-table file and the small tables in read-only
      memory, the 256-byte scratch array and all other writable words in RAM. */
  datatype Env = Env(
    rom: map<int, Cell>, ramKeys: set<int>,
    lutFile: seq<Byte>, lut: Word,
    same: Word, zero8: Word, slt1: Word, sltu1: Word, or1: Word,
    arr: Word)

  const SAME_RESULT: seq<Byte> := [1, 0, 0, 0, 0, 0, 0, 0]
  const SLT1: seq<Byte> := [0, 1, 0, 0, 1, 1, 0, 1]
  const SLTU1: seq<Byte> := [0, 1, 1, 1, 0, 0, 0, 1]
  const OR1: seq<Byte> := [0, 1, 1, 1]

  function NonZero(n: Byte): Byte {
    if n == 0 then 0 else 1
  }

  predicate RomByte(env: Env, a: int, b: Byte) {
    a / 4 in env.rom && a / 4 !in env.ramKeys && Lane(env.rom[a / 4], a % 4) == b
  }

  ghost predicate BytesAt(env: Env, a: Word, bytes: seq<Byte>) {
    && a + |bytes| <= 0x1_0000_0000
    && forall n | 0 <= n < |bytes| :: RomByte(env, a + n, bytes[n])
  }

  /** Memory words the 256-byte scratch array overlaps. */
  predicate InArray(env: Env, k: int) {
    env.arr / 4 <= k <= (env.arr + 255) / 4
  }

  ghost predicate EnvOk(env: Env) {
    && LutFile(env.lutFile) && env.lut % 256 == 0 && BytesAt(env, env.lut, env.lutFile)
    && BytesAt(env, env.same, SAME_RESULT)
    && env.zero8 + 256 <= 0x1_0000_0000
    && (forall n: Byte :: RomByte(env, env.zero8 + n, NonZero(n)))
    && BytesAt(env, env.slt1, SLT1)
    && BytesAt(env, env.sltu1, SLTU1)
    && BytesAt(env, env.or1, OR1)
    && env.arr + 256 <= 0x1_0000_0000
    && (forall k | InArray(env, k) :: k in env.ramKeys)
  }

  function LogicAddr(env: Env, op: BitOp): int {
    env.lut + LogicBase(op)
  }

  function ShiftAddr(env: Env, kind: Shift): int {
    env.lut + ShiftBase(kind)
  }

  // ---------- sequences of code ----------

  function Do3(a: Code, b: Code, c: Code): Code { Cat(a, Cat(b, c)) }
  function Do4(a: Code, b: Code, c: Code, d: Code): Code { Cat(a, Do3(b, c, d)) }
  function Do5(a: Code, b: Code, c: Code, d: Code, e: Code): Code { Cat(a, Do4(b, c, d, e)) }
  function Do6(a: Code, b: Code, c: Code, d: Code, e: Code, f: Code): Code { Cat(a, Do5(b, c, d, e, f)) }
  function Do7(a: Code, b: Code, c: Code, d: Code, e: Code, f: Code, g: Code): Code { Cat(a, Do6(b, c, d, e, f, g)) }

  // ---------- assembler pseudo-instructions ----------

  function Hi(a: int): int { (a + 0x800) / 0x1000 % 0x10_0000 }
  function Lo(a: int): int { (a + 0x800) % 0x1000 - 0x800 }

  function La(r: Reg, a: int): Code { Cat(Op(Lui(r, Hi(a))), Op(Addi(r, r, Lo(a)))) }
  function Li(r: Reg, imm: int): Code { Op(Addi(r, 0, imm)) }
  function Mv(rd: Reg, rs: Reg): Code { Op(Addi(rd, rs, 0)) }

  // ---------- stack slots below sp ----------

  const VAR_A := 4
  const VAR_B := 5
  const VAR_C := 6
  const VAR_D := 7

  function SlotOff(n: int, k: int): int { -4 * n + k }

  function SaveWord(r: Reg, n: int): Code { Op(Sw(r, SP, SlotOff(n, 0))) }
  function LoadWord(r: Reg, n: int): Code { Op(Lw(r, SP, SlotOff(n, 0))) }
  function SaveByte(r: Reg, n: int, k: int): Code { Op(Sb(r, SP, SlotOff(n, k))) }
  function LoadByte(r: Reg, n: int, k: int): Code { Op(Lbu(r, SP, SlotOff(n, k))) }

  // ---------- byte access, constant left shift ----------

  function GetByte(rd: Reg, rs1: Reg, k: int): Code {
    Cat(SaveWord(rs1, VAR_C), LoadByte(rd, VAR_C, k))
  }

  function Sh(rs: Reg, base: Reg, off: int): Code {
    Do3(Op(Sb(rs, base, off)), GetByte(TP, rs, 1), Op(Sb(TP, base, off + 1)))
  }

  function Doubles(r: Reg, n: nat): Code {
    if n == 0 then Nop else Cat(Op(Add(r, r, r)), Doubles(r, n - 1))
  }

  function Slli(rd: Reg, rs1: Reg, imm: nat): Code
    decreases imm
  {
    if imm == 0 then
      if rd != rs1 then Mv(rd, rs1) else Nop
    else if imm >= 24 then
      Do4(SaveWord(0, VAR_A), SaveByte(rs1, VAR_A, 3), LoadWord(rd, VAR_A), Slli(rd, rd, imm - 24))
    else if imm >= 16 then
      Do4(SaveWord(0, VAR_A), Sh(rs1, SP, SlotOff(VAR_A, 2)), LoadWord(rd, VAR_A), Slli(rd, rd, imm - 16))
    else
      Cat(Op(Add(rd, rs1, rs1)), Doubles(rd, imm - 1))
  }

  /** Sign bit of rs1. */
  function Msb(rd: Reg, rs1: Reg): Code {
    Do3(GetByte(rd, rs1, 3), Slli(rd, rd, 1), GetByte(rd, rd, 1))
  }

  // ---------- complement, subtraction, comparison ----------

  function NotByte(k: int): Code {
    Do4(LoadByte(GP, VAR_C, k), Op(Add(GP, GP, TP)), Op(Lbu(GP, GP, 0)), SaveByte(GP, VAR_D, k))
  }

  function Not(env: Env, rd: Reg, rs1: Reg): Code {
    Do3(
      Do3(SaveWord(GP, 3), SaveWord(rs1, VAR_C), La(TP, LogicAddr(env, Xor) + 0xff * 256)),
      Do4(NotByte(3), NotByte(2), NotByte(1), NotByte(0)),
      Cat(LoadWord(GP, 3), LoadWord(rd, VAR_D)))
  }

  function Sub(env: Env, rd: Reg, rs1: Reg, rs2: Reg): Code {
    Do3(Not(env, TP, rs2), Op(Add(rd, rs1, TP)), Op(Addi(rd, rd, 1)))
  }

  function SltOperands(rs1: Reg, rs2: Reg): Code {
    Do5(SaveWord(S0, 1), SaveWord(S1, 2), SaveWord(rs2, VAR_A), Mv(S0, rs1), LoadWord(S1, VAR_A))
  }

  function SltSigns(env: Env): Code {
    Cat(
      Do5(Msb(GP, S0), Slli(GP, GP, 1), Msb(TP, S1), Op(Add(GP, GP, TP)), Slli(GP, GP, 1)),
      Do3(Sub(env, TP, S0, S1), Msb(TP, TP), Op(Add(GP, GP, TP))))
  }

  function SltTemplate(env: Env, table: Word, rd: Reg, rs1: Reg, rs2: Reg): Code {
    Do6(SltOperands(rs1, rs2), SltSigns(env),
        La(TP, table), Op(Add(TP, TP, GP)),
        Cat(LoadWord(S1, 2), LoadWord(S0, 1)),
        Op(Lbu(rd, TP, 0)))
  }

  // ---------- bitwise logic ----------

  function LogicByte(lut: Reg, k: int): Code {
    Cat(
      Do4(LoadByte(TP, VAR_A, k), SaveByte(TP, VAR_D, 1), LoadByte(TP, VAR_B, k), SaveByte(TP, VAR_D, 0)),
      Do4(LoadWord(TP, VAR_D), Op(Add(TP, lut, TP)), Op(Lbu(TP, TP, 0)), SaveByte(TP, VAR_C, k)))
  }

  /** A zero destination expands to nothing. */
  function Logic(env: Env, op: BitOp, rd: Reg, rs1: Reg, rs2: Reg): Code {
    if rd == 0 then Nop
    else
      Do3(
        Do4(SaveWord(rs1, VAR_A), SaveWord(rs2, VAR_B), La(rd, LogicAddr(env, op)), SaveWord(0, VAR_D)),
        Do4(LogicByte(rd, 3), LogicByte(rd, 2), LogicByte(rd, 1), LogicByte(rd, 0)),
        LoadWord(rd, VAR_C))
  }

  // ---------- equality ----------

  /** rd is 0 when byte k of the two operands is the same: mark one entry of the array, clear the other, look again. */
  function SameByte(table: Reg, rd: Reg, k: int): Code {
    Cat(
      Do4(LoadByte(rd, VAR_A, k), Op(Add(TP, table, rd)), Op(Addi(rd, 0, 1)), Op(Sb(rd, TP, 0))),
      Do4(LoadByte(rd, VAR_B, k), Op(Add(rd, table, rd)), Op(Sb(0, rd, 0)), Op(Lbu(rd, TP, 0))))
  }

  function SetEqual(env: Env, rd: Reg, rs1: Reg, rs2: Reg): Code {
    Do4(
      Do5(SaveWord(rs1, VAR_A), SaveWord(rs2, VAR_B), SaveWord(S0, 1), SaveWord(S1, 2), La(S0, env.arr)),
      Do4(SameByte(S0, GP, 0),
          Cat(SameByte(S0, S1, 1), Op(Add(GP, GP, S1))),
          Cat(SameByte(S0, S1, 2), Op(Add(GP, GP, S1))),
          Cat(SameByte(S0, S1, 3), Op(Add(GP, GP, S1)))),
      Do3(La(TP, env.same), Op(Add(TP, TP, GP)), Op(Lbu(rd, TP, 0))),
      Cat(LoadWord(S1, 2), LoadWord(S0, 1)))
  }

  function ZeroByte(table: Reg, rd: Reg, k: int): Code {
    Do3(LoadByte(rd, VAR_A, k), Op(Add(rd, table, rd)), Op(Lbu(rd, rd, 0)))
  }

  /** Restores s0 after writing rd. */
  function SetZero(env: Env, rd: Reg, rs1: Reg): Code {
    Do4(
      Do3(SaveWord(rs1, VAR_A), SaveWord(S0, 1), La(S0, env.zero8)),
      Do4(ZeroByte(S0, GP, 0),
          Cat(ZeroByte(S0, TP, 1), Op(Add(GP, GP, TP))),
          Cat(ZeroByte(S0, TP, 2), Op(Add(GP, GP, TP))),
          Cat(ZeroByte(S0, TP, 3), Op(Add(GP, GP, TP)))),
      Do3(La(TP, env.same), Op(Add(TP, TP, GP)), Op(Lbu(rd, TP, 0))),
      LoadWord(S0, 1))
  }

  // ---------- variable shifts ----------

  function GetShamt(env: Env, rd: Reg, rs1: Reg): Code {
    Do5(SaveByte(rs1, VAR_B, 0), LoadByte(rd, VAR_B, 0),
        La(TP, LogicAddr(env, And) + 0x1f * 256), Op(Add(rd, rd, TP)), Op(Lbu(rd, rd, 0)))
  }

  function ShiftByte(base: Reg, k: int): Code {
    Do4(LoadByte(TP, VAR_A, k), Slli(TP, TP, 2), Op(Add(TP, base, TP)), Op(Lw(TP, TP, 0)))
  }

  /** Saves s0 and the operand, and points s0 at the table row of the shift amount in rs2. */
  function ShiftRow(env: Env, kind: Shift, rs1: Reg, rs2: Reg): Code {
    Cat(
      Do6(SaveWord(S0, 1), SaveWord(rs1, VAR_A), GetShamt(env, S0, rs2),
          SaveWord(0, VAR_B), SaveByte(S0, VAR_B, 1), LoadWord(S0, VAR_B)),
      Do3(Slli(S0, S0, 2), La(TP, ShiftAddr(env, kind)), Op(Add(S0, S0, TP))))
  }

  function LeftBytes(): Code {
    Do4(
      Do4(SaveWord(0, VAR_B), ShiftByte(S0, 3), SaveByte(TP, VAR_B, 3), LoadWord(GP, VAR_B)),
      Do4(ShiftByte(S0, 2), Sh(TP, SP, SlotOff(VAR_B, 2)), LoadWord(TP, VAR_B), Op(Add(GP, GP, TP))),
      Do3(ShiftByte(S0, 1), Slli(TP, TP, 8), Op(Add(GP, GP, TP))),
      ShiftByte(S0, 0))
  }

  function ShiftLeft(env: Env, rd: Reg, rs1: Reg, rs2: Reg): Code {
    Do3(ShiftRow(env, Sll, rs1, rs2), LeftBytes(), Cat(LoadWord(S0, 1), Op(Add(rd, GP, TP))))
  }

  /** Table words of the three low operand bytes, saved to B, C and D. */
  function ShiftLowBytes(): Code {
    Do6(ShiftByte(S0, 2), SaveWord(TP, VAR_B),
        ShiftByte(S0, 1), SaveWord(TP, VAR_C),
        ShiftByte(S0, 0), SaveWord(TP, VAR_D))
  }

  function CombineByte0(): Code {
    Do6(LoadByte(GP, VAR_B, 1), LoadByte(TP, VAR_C, 2), Op(Add(GP, GP, TP)),
        LoadByte(TP, VAR_D, 3), Op(Add(GP, GP, TP)), SaveWord(GP, VAR_D))
  }

  function CombineByte1(): Code {
    Do4(LoadByte(GP, VAR_B, 2), LoadByte(TP, VAR_C, 3), Op(Add(GP, GP, TP)), SaveByte(GP, VAR_D, 1))
  }

  function CombineByte2(): Code {
    Do3(LoadByte(GP, VAR_B, 3), SaveByte(GP, VAR_D, 2), LoadWord(GP, VAR_D))
  }

  function ToSraTable(env: Env): Code {
    Cat(La(TP, ShiftAddr(env, Sra) - ShiftAddr(env, Srl)), Op(Add(S0, S0, TP)))
  }

  /** From the row pointer in s0 to the shifted value in rd. */
  function ShiftRightBody(env: Env, arith: bool, rd: Reg): Code {
    Do5(
      ShiftLowBytes(),
      Do3(CombineByte0(), CombineByte1(), CombineByte2()),
      if arith then ToSraTable(env) else Nop,
      ShiftByte(S0, 3),
      Cat(LoadWord(S0, 1), Op(Add(rd, GP, TP))))
  }

  function ShiftRight(env: Env, arith: bool, rd: Reg, rs1: Reg, rs2: Reg): Code {
    Cat(ShiftRow(env, Srl, rs1, rs2), ShiftRightBody(env, arith, rd))
  }

  /** Shift by 24: only the top byte matters. */
  function ShiftRight24(env: Env, arith: bool, rd: Reg, rs1: Reg): Code {
    if arith then
      Do6(SaveWord(rs1, VAR_A), La(TP, ShiftAddr(env, Sra) + 24 * 1024), LoadByte(rd, VAR_A, 3),
          Slli(rd, rd, 2), Op(Add(TP, TP, rd)), Op(Lw(rd, TP, 0)))
    else GetByte(rd, rs1, 3)
  }

  function ShiftRightImm(env: Env, arith: bool, rd: Reg, rs1: Reg, imm: int): Code {
    if imm == 24 then ShiftRight24(env, arith, rd, rs1)
    else
      Cat(
        Do3(SaveWord(S0, 1), SaveWord(rs1, VAR_A), La(S0, ShiftAddr(env, Srl) + imm * 1024)),
        ShiftRightBody(env, arith, rd))
  }

  // ---------- narrow loads ----------

  function LoadSigned8(env: Env, rd: Reg, base: Reg, off: int): Code {
    Do5(SaveWord(0, VAR_A), Op(Lbu(rd, base, off)), SaveByte(rd, VAR_A, 3), LoadWord(rd, VAR_A),
        ShiftRightImm(env, true, rd, rd, 24))
  }

  function LoadUnsigned16(rd: Reg, base: Reg, off: int): Code {
    Do6(SaveWord(0, VAR_A), Op(Lbu(TP, base, off + 1)), SaveByte(TP, VAR_A, 1), LoadWord(TP, VAR_A),
        Op(Lbu(rd, base, off)), Op(Add(rd, rd, TP)))
  }

  function LoadSigned16(env: Env, rd: Reg, base: Reg, off: int): Code {
    Do7(SaveWord(0, VAR_A), Op(Lbu(GP, base, off + 1)), SaveByte(GP, VAR_A, 3), LoadWord(GP, VAR_A),
        ShiftRightImm(env, true, GP, GP, 16), Op(Lbu(rd, base, off)), Op(Add(rd, rd, GP)))
  }

  // ---------- branches and jumps ----------

  datatype Cmp = Eq | Ne | Lt | Ge | Ltu | Geu

  /** tp holds 0 or 1; leaves in tp the address stored in slot A for 1 and in slot B for 0. */
  function BranchResolve(high: Word, low: Word): Code {
    Do7(Slli(TP, TP, 2), Op(Add(TP, SP, TP)),
        La(GP, high), SaveWord(GP, VAR_A),
        La(GP, low), SaveWord(GP, VAR_B),
        Op(Lw(TP, TP, SlotOff(VAR_B, 0))))
  }

  /** tp is 1 exactly when rs is zero or negative. */
  function NotPositive(env: Env, rs: Reg): Code {
    Do7(Msb(GP, rs), Op(Addi(TP, rs, -1)), Msb(TP, TP), Op(Add(GP, GP, TP)),
        La(TP, env.or1), Op(Add(TP, GP, TP)), Op(Lbu(TP, TP, 0)))
  }

  function EqualFlag(env: Env, rs1: Reg, rs2: Reg): Code {
    if rs2 == 0 then SetZero(env, TP, rs1)
    else if rs1 == 0 then SetZero(env, TP, rs2)
    else SetEqual(env, TP, rs1, rs2)
  }

  /** Code that leaves in tp the address to continue at. */
  function Select(env: Env, cmp: Cmp, rs1: Reg, rs2: Reg, target: Word, next: Word): Code {
    match cmp
    case Eq => Cat(EqualFlag(env, rs1, rs2), BranchResolve(target, next))
    case Ne => Cat(EqualFlag(env, rs1, rs2), BranchResolve(next, target))
    case Lt =>
      if rs2 == 0 then Cat(Msb(TP, rs1), BranchResolve(target, next))
      else if rs1 == 0 then Cat(NotPositive(env, rs2), BranchResolve(next, target))
      else Cat(SltTemplate(env, env.slt1, TP, rs1, rs2), BranchResolve(target, next))
    case Ge =>
      if rs1 == 0 then Cat(NotPositive(env, rs2), BranchResolve(target, next))
      else Cat(SltTemplate(env, env.slt1, TP, rs1, rs2), BranchResolve(next, target))
    case Ltu => Cat(SltTemplate(env, env.sltu1, TP, rs1, rs2), BranchResolve(target, next))
    case Geu => Cat(SltTemplate(env, env.sltu1, TP, rs1, rs2), BranchResolve(next, target))
  }

  function Branch(env: Env, cmp: Cmp, rs1: Reg, rs2: Reg, target: Word, next: Word): Block {
    Block(Select(env, cmp, rs1, rs2, target, next), JumpBy(0, TP, 0, []))
  }

  function CallTemplate(r: Reg, target: Word): Block { Block(La(r, target), JumpBy(r, r, 0, [])) }

  function Jal(rd: Reg, target: Word): Block {
    if rd == 0 then Block(La(TP, target), JumpBy(0, TP, 0, [])) else CallTemplate(rd, target)
  }

  /** The macro goes on with a call of the same address, which the jump leaves unreached. */
  function Tail(target: Word): Block {
    Block(La(TP, target), JumpBy(0, TP, 0, Flatten(La(RA, target)) + [Jalr(RA, RA, 0)]))
  }

  // ---------- the lowered instruction set ----------

  datatype AluOp = SubOp | SltOp | SltuOp | LogicOp(op: BitOp) | ShiftOp(kind: Shift)

  datatype Instr =
    | Native(b: Base)
    | JumpReg(rd: Reg, rs1: Reg, off: int)
    | Alu(op: AluOp, rd: Reg, rs1: Reg, rs2: Reg)
    | AluImm(op: AluOp, rd: Reg, rs1: Reg, imm: int)
    | Lb(rd: Reg, rs1: Reg, off: int)
    | Lh(rd: Reg, rs1: Reg, off: int)
    | Lhu(rd: Reg, rs1: Reg, off: int)
    | StoreHalf(rs2: Reg, rs1: Reg, off: int)
    | BranchIf(cmp: Cmp, rs1: Reg, rs2: Reg, target: nat)
    | JumpLink(rd: Reg, target: nat)
    | TailCall(target: nat)
    | LoadAddress(rd: Reg, addr: Word)
    | Seqz(rd: Reg, rs1: Reg)
    | Complement(rd: Reg, rs1: Reg)
    | Sltz(rd: Reg, rs1: Reg)

  predicate Usable(r: Reg) {
    r != GP && r != TP
  }

  predicate ImmOk(imm: int) {
    -2048 <= imm < 2048
  }

  /** The operand rules of the macros: gp and tp are reserved, the logic macros abort on sp, a few
      macros need sp after writing their destination, halfword accesses also use offset + 1. */
  predicate OperandsOk(i: Instr) {
    match i
    case Native(b) => Encodable(b) && BaseOperandsOk(b)
    case JumpReg(rd, rs1, off) => Usable(rd) && Usable(rs1) && ImmOk(off)
    case Alu(op, rd, rs1, rs2) =>
      && Usable(rd) && Usable(rs1) && Usable(rs2)
      && (op.LogicOp? && rd != 0 ==> rd != SP && rs1 != SP && rs2 != SP)
    case AluImm(op, rd, rs1, imm) =>
      && Usable(rd) && Usable(rs1) && op != SubOp
      && (if op.ShiftOp? then 0 <= imm < 32 else ImmOk(imm))
      && (op.LogicOp? && rd != 0 ==> rd != SP && rs1 != SP)
    case Lb(rd, rs1, off) => Usable(rd) && Usable(rs1) && ImmOk(off) && rd != SP
    case Lh(rd, rs1, off) => Usable(rd) && Usable(rs1) && ImmOk(off) && ImmOk(off + 1)
    case Lhu(rd, rs1, off) => Usable(rd) && Usable(rs1) && ImmOk(off) && ImmOk(off + 1)
    case StoreHalf(rs2, rs1, off) => Usable(rs2) && Usable(rs1) && ImmOk(off) && ImmOk(off + 1)
    case BranchIf(_, rs1, rs2, _) => Usable(rs1) && Usable(rs2)
    case JumpLink(rd, _) => Usable(rd)
    case TailCall(_) => true
    case LoadAddress(rd, _) => Usable(rd)
    case Seqz(rd, rs1) => Usable(rd) && Usable(rs1) && rd != SP && rd != S0
    case Complement(rd, rs1) => Usable(rd) && Usable(rs1)
    case Sltz(rd, rs1) => Usable(rd) && Usable(rs1) && rd != SP
  }

  predicate BaseOperandsOk(b: Base) {
    match b
    case Add(rd, rs1, rs2) => Usable(rd) && Usable(rs1) && Usable(rs2)
    case Addi(rd, rs1, _) => Usable(rd) && Usable(rs1)
    case Lui(rd, _) => Usable(rd)
    case Lw(rd, rs1, _) => Usable(rd) && Usable(rs1)
    case Lbu(rd, rs1, _) => Usable(rd) && Usable(rs1)
    case Sw(rs2, rs1, _) => Usable(rs2) && Usable(rs1)
    case Sb(rs2, rs1, _) => Usable(rs2) && Usable(rs1)
  }

  function ExpandAlu(env: Env, op: AluOp, rd: Reg, rs1: Reg, rs2: Reg): Code {
    match op
    case SubOp => Sub(env, rd, rs1, rs2)
    case SltOp => SltTemplate(env, env.slt1, rd, rs1, rs2)
    case SltuOp => SltTemplate(env, env.sltu1, rd, rs1, rs2)
    case LogicOp(b) => Logic(env, b, rd, rs1, rs2)
    case ShiftOp(kind) =>
      if kind == Sll then ShiftLeft(env, rd, rs1, rs2) else ShiftRight(env, kind == Sra, rd, rs1, rs2)
  }

  function ExpandAluImm(env: Env, op: AluOp, rd: Reg, rs1: Reg, imm: int): Code
    requires if op.ShiftOp? then 0 <= imm < 32 else ImmOk(imm)
  {
    if op.ShiftOp? then
      if op.kind == Sll then Slli(rd, rs1, imm) else ShiftRightImm(env, op.kind == Sra, rd, rs1, imm)
    else Cat(Li(TP, imm), ExpandAlu(env, op, rd, rs1, TP))
  }

  /** target and next are the addresses of the branch target and of the following instruction. */
  function Expand(env: Env, i: Instr, target: Word, next: Word): Block
    requires OperandsOk(i)
  {
    match i
    case Native(b) => Block(Op(b), FallThrough)
    case JumpReg(rd, rs1, off) => Block(Nop, JumpBy(rd, rs1, off, []))
    case Alu(op, rd, rs1, rs2) => Block(ExpandAlu(env, op, rd, rs1, rs2), FallThrough)
    case AluImm(op, rd, rs1, imm) => Block(ExpandAluImm(env, op, rd, rs1, imm), FallThrough)
    case Lb(rd, rs1, off) => Block(LoadSigned8(env, rd, rs1, off), FallThrough)
    case Lh(rd, rs1, off) => Block(LoadSigned16(env, rd, rs1, off), FallThrough)
    case Lhu(rd, rs1, off) => Block(LoadUnsigned16(rd, rs1, off), FallThrough)
    case StoreHalf(rs2, rs1, off) => Block(Sh(rs2, rs1, off), FallThrough)
    case BranchIf(cmp, rs1, rs2, _) => Branch(env, cmp, rs1, rs2, target, next)
    case JumpLink(rd, _) => Jal(rd, target)
    case TailCall(_) => Tail(target)
    case LoadAddress(rd, addr) => Block(La(rd, addr), FallThrough)
    case Seqz(rd, rs1) => Block(SetZero(env, rd, rs1), FallThrough)
    case Complement(rd, rs1) => Block(Not(env, rd, rs1), FallThrough)
    case Sltz(rd, rs1) => Block(Msb(rd, rs1), FallThrough)
  }

  lemma LaSize(r: Reg, a: int)
    ensures Size(La(r, a)) == 2
  {
  }

  lemma ResolveSize(high: Word, low: Word)
    ensures Size(BranchResolve(high, low)) == 10
  {
    var c := BranchResolve(high, low);
    LaSize(GP, high);
    LaSize(GP, low);
    assert Size(Doubles(TP, 1)) == 1 + Size(Doubles(TP, 0));
    assert Size(c.c2.c2.c2.c2) == 4;
    assert Size(c.c2.c2.c2) == 5;
    assert Size(c.c2.c2) == 7;
    assert Size(c.c2) == 8;
    assert Size(Slli(TP, TP, 2)) == 2;
  }

  lemma SelectSize(env: Env, cmp: Cmp, rs1: Reg, rs2: Reg, target: Word, next: Word)
    ensures Size(Select(env, cmp, rs1, rs2, target, next)) == Size(Select(env, cmp, rs1, rs2, 0, 0))
  {
    hide BranchResolve, SltTemplate, EqualFlag, Msb, NotPositive;
    ResolveSize(target, next);
    ResolveSize(next, target);
    ResolveSize(0, 0);
  }

  /** How many instructions an expansion has does not depend on the addresses put into it. */
  lemma SizeFixed(env: Env, i: Instr, target: Word, next: Word)
    requires OperandsOk(i)
    ensures BlockSize(Expand(env, i, target, next)) == BlockSize(Expand(env, i, 0, 0))
  {
    hide Select, La;
    match i
    case BranchIf(cmp, rs1, rs2, _) => SelectSize(env, cmp, rs1, rs2, target, next);
    case JumpLink(rd, _) =>
      LaSize(rd, target);
      LaSize(rd, 0);
      LaSize(TP, target);
      LaSize(TP, 0);
    case TailCall(_) =>
      LaSize(TP, target);
      LaSize(TP, 0);
      LaSize(RA, target);
      LaSize(RA, 0);
      SizeIsLength(La(RA, target));
      SizeIsLength(La(RA, 0));
    case _ =>
  }
}
