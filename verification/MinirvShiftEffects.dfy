/** Effects of the shift macros and of the narrow loads built on them. */
module MinirvShiftEffects {
  import opened Bits
  import opened MinirvMachine
  import opened MinirvTables
  import opened MinirvMacros
  import opened MinirvShifts
  import opened MinirvEffects

  // ---------- constant left shift ----------

  lemma {:induction false} DoDoubles(env: Env, r: Reg, n: nat, m: Machine) returns (m': Machine)
    requires m.ok
    ensures m' == Exec(env.rom, Doubles(r, n), m) && m'.ok && m'.ram == m.ram
    ensures m'.regs == Put(m.regs, r, Shl(m.regs[r], n))
    decreases n
  {
    hide Exec1, Plus, Wrap, Minus, WordIndex;
    DoubleIsShl(m.regs[r], 0);
    if n == 0 {
      m' := m;
    } else {
      var m1 := DoAdd(env, r, r, r, m);
      m' := DoDoubles(env, r, n - 1, m1);
      Exec2(env, Doubles(r, n), m);
      DoubleIsShl(m.regs[r], n - 1);
    }
  }

  lemma DoubleIsShl(x: Word, n: nat)
    ensures Shl(x, 0) == x
    ensures Shl(Plus(x, x), n) == Shl(x, n + 1)
  {
    hide Pow2;
    Pow2Small();
    assert Plus(x, x) == Shl(x, 1);
    ShlAdd(x, 1, n);
  }

  lemma DoSlliShort(env: Env, rd: Reg, rs1: Reg, imm: nat, m: Machine) returns (m': Machine)
    requires m.ok && imm < 16
    ensures m' == Exec(env.rom, Slli(rd, rs1, imm), m) && m'.ok && m'.ram == m.ram
    ensures m'.regs == Put(m.regs, rd, Shl(m.regs[rs1], imm))
    ensures rd != SP && Ready(env, m) ==> Ready(env, m')
  {
    hide Exec1, Plus, Wrap, Minus, WordIndex, Shl;
    var x := m.regs[rs1];
    DoubleIsShl(x, if imm == 0 then 0 else imm - 1);
    if imm == 0 {
      if rd == rs1 {
        m' := m;
        assert Put(m.regs, rd, x) == m.regs;
      } else {
        m' := DoAddi(env, rd, rs1, 0, m);
      }
    } else {
      var m1 := DoAdd(env, rd, rs1, rs1, m);
      m' := DoDoubles(env, rd, imm - 1, m1);
      Exec2(env, Slli(rd, rs1, imm), m);
      ShlZero(imm - 1);
    }
  }

  lemma ShlZero(n: nat)
    ensures Shl(0, n) == 0
  {
  }

  /** sh into a slot: bytes 2 and 3 of the slot become bytes 0 and 1 of the register. */
  lemma DoShSlot(env: Env, rs: Reg, n: int, m: Machine) returns (m': Machine)
    requires Ready(env, m) && 1 <= n <= 7 && n != VAR_C
    ensures Key(m, n) in m.ram && Key(m, n) in m'.ram
    ensures m' == Exec(env.rom, Sh(rs, SP, SlotOff(n, 2)), m) && Ready(env, m')
    ensures OnlyRegs(m, m', {TP}) && OnlySlots(m, m', {n, VAR_C})
    ensures var c := m.ram[Key(m, n)];
            m'.ram[Key(m, n)] == Cell(c.b0, c.b1, ByteOf(m.regs[rs], 0), ByteOf(m.regs[rs], 1))
  {
    hide Exec1, Plus, Wrap, Minus, WordIndex;
    SlotAddress(env, m, n, 0);
    var m1 := DoSaveByte(env, rs, n, 2, m);
    var m2 := DoGetByte(env, TP, rs, 1, m1);
    m' := DoSaveByte(env, TP, n, 3, m2);
    Exec3(env, Sh(rs, SP, SlotOff(n, 2)), m);
  }

  lemma TopLaneShift(x: Word)
    ensures Join(Cell(0, 0, 0, x % 0x100)) == Shl(x, 24) == Wrap(x * 0x100_0000)
  {
    hide Pow2;
    Pow2Values();
    var low: int := x % 0x100;
    MulMod(x, 0x100_0000, 0x100);
    assert Wrap(x * 0x100_0000) == low * 0x100_0000;
  }

  lemma HalfShift(x: Word)
    ensures Join(Cell(0, 0, ByteOf(x, 0), ByteOf(x, 1))) == Shl(x, 16) == Wrap(x * 0x1_0000)
  {
    hide Pow2;
    Pow2Values();
    var low: int := x % 0x1_0000;
    MulMod(x, 0x1_0000, 0x1_0000);
    assert Wrap(x * 0x1_0000) == low * 0x1_0000;
    LowHalf(x);
  }

  lemma LowHalf(x: Word)
    ensures x % 0x1_0000 == Pair(ByteOf(x, 0), ByteOf(x, 1))
  {
    SixteenBits(x);
  }

  /** The low byte or halfword moved to the top of an otherwise zero word. */
  lemma DoLift(env: Env, rs1: Reg, imm: nat, m: Machine) returns (m': Machine)
    requires Ready(env, m) && 16 <= imm < 32 && rs1 != TP
    ensures Key(m, VAR_A) in m'.ram
    ensures m' == Exec(env.rom, if imm >= 24 then SaveByte(rs1, VAR_A, 3) else Sh(rs1, SP, SlotOff(VAR_A, 2)),
                       Exec(env.rom, SaveWord(0, VAR_A), m))
    ensures Ready(env, m') && OnlyRegs(m, m', {TP}) && OnlySlots(m, m', {VAR_A, VAR_C})
    ensures Join(m'.ram[Key(m, VAR_A)]) == Shl(m.regs[rs1], if imm >= 24 then 24 else 16)
  {
    hide Exec, Plus, Wrap, Minus, WordIndex, Shl, Split, Join, StackOk;
    var m1 := DoClear(env, VAR_A, m);
    if imm >= 24 {
      TopLaneShift(m.regs[rs1]);
      m' := DoSaveByte(env, rs1, VAR_A, 3, m1);
    } else {
      HalfShift(m.regs[rs1]);
      m' := DoShSlot(env, rs1, VAR_A, m1);
    }
  }

  lemma DoSlli(env: Env, rd: Reg, rs1: Reg, imm: nat, m: Machine) returns (m': Machine)
    requires Ready(env, m) && imm < 32 && rs1 != TP
    ensures m' == Exec(env.rom, Slli(rd, rs1, imm), m) && m'.ok
    ensures Sets(m, m', rd, Shl(m.regs[rs1], imm), {TP}) && OnlySlots(m, m', {VAR_A, VAR_C})
    ensures rd != SP ==> Ready(env, m')
  {
    hide Exec1, Plus, Wrap, Minus, WordIndex, Shl, Split, Join, StackOk;
    if imm < 16 {
      m' := DoSlliShort(env, rd, rs1, imm, m);
      return;
    }
    var done := if imm >= 24 then 24 else 16;
    ShlAdd(m.regs[rs1], done, imm - done);
    var m2 := DoLift(env, rs1, imm, m);
    var m3 := DoLoadWord(env, rd, VAR_A, m2);
    m' := DoSlliShort(env, rd, rd, imm - done, m3);
    Exec4(env, Slli(rd, rs1, imm), m);
  }

  lemma ShlTwo(x: Word)
    requires x < 0x4000_0000
    ensures Shl(x, 2) == 4 * x
  {
    Pow2Small();
  }

  lemma DoTimes4(env: Env, r: Reg, m: Machine) returns (m': Machine)
    requires m.ok && m.regs[r] < 0x4000_0000
    ensures m' == Exec(env.rom, Slli(r, r, 2), m) && m'.ok && m'.ram == m.ram
    ensures m'.regs == Put(m.regs, r, 4 * m.regs[r])
    ensures r != SP && Ready(env, m) ==> Ready(env, m')
  {
    hide Exec, Plus, Wrap, Minus, WordIndex, Shl;
    m' := DoSlliShort(env, r, r, 2, m);
    ShlTwo(m.regs[r]);
  }

  // ---------- shift amount and table rows ----------

  lemma LowFive(b: Byte)
    ensures LogicEntry(And, 0x1f, b) == b % 32
  {
    hide Bitwise, Pow2;
    Pow2Values();
    BitwiseSymmetric(And, 8, 0x1f, b);
    AndLowMask(8, 5, b);
  }

  lemma LowByteLowFive(x: Word)
    ensures x % 0x100 % 32 == x % 32
  {
  }

  lemma DoGetShamt(env: Env, rd: Reg, rs1: Reg, m: Machine) returns (m': Machine)
    requires EnvOk(env) && Ready(env, m) && rd != 0 && rd != TP && rd != SP
    ensures m' == Exec(env.rom, GetShamt(env, rd, rs1), m) && Ready(env, m')
    ensures Sets(m, m', rd, m.regs[rs1] % 32, {TP}) && OnlySlots(m, m', {VAR_B})
  {
    hide Exec1, Plus, Wrap, Minus, WordIndex, EnvOk, LogicEntry;
    var b: Byte := m.regs[rs1] % 0x100;
    LogicLookup(env, And, 0x1f, b);
    LogicLookup(env, And, 0x1f, 0);
    LowFive(b);
    LowByteLowFive(m.regs[rs1]);
    var m1 := DoSaveByte(env, rs1, VAR_B, 0, m);
    var m2 := DoLoadByte(env, rd, VAR_B, 0, m1);
    var m3 := DoLa(env, TP, LogicAddr(env, And) + 0x1f * 256, m2);
    var m4 := DoAdd(env, rd, rd, TP, m3);
    m' := DoLoadRom(env, rd, rd, b % 32, m4);
    Exec5(env, GetShamt(env, rd, rs1), m);
  }

  function EntryAddr(env: Env, kind: Shift, j: nat, i: Byte): int {
    ShiftAddr(env, kind) + 1024 * j + 4 * i
  }

  lemma ShiftLookup(env: Env, kind: Shift, j: nat, i: Byte)
    requires EnvOk(env) && j < 32
    ensures var a := EntryAddr(env, kind, j, i);
            && 0 <= a < 0x1_0000_0000 && a % 4 == 0 && a / 4 in env.rom && a / 4 !in env.ramKeys
            && Join(env.rom[a / 4]) == ShiftEntry(kind, j, i)
  {
    hide ShiftEntry, Split;
    assert ShiftTableIn(env.lutFile, kind);
    ShiftByteAt(env, kind, j, i, 0);
    ShiftByteAt(env, kind, j, i, 1);
    ShiftByteAt(env, kind, j, i, 2);
    ShiftByteAt(env, kind, j, i, 3);
    assert env.rom[EntryAddr(env, kind, j, i) / 4] == Split(ShiftEntry(kind, j, i));
  }

  lemma WordLane(w: int, k: int)
    requires 0 <= k < 4
    ensures (4 * w + k) / 4 == w && (4 * w + k) % 4 == k && 4 * w / 4 == w && 4 * w % 4 == 0
  {
  }

  lemma ShiftByteAt(env: Env, kind: Shift, j: nat, i: Byte, k: nat)
    requires EnvOk(env) && j < 32 && k < 4
    ensures var a := EntryAddr(env, kind, j, i);
            && 0 <= a < 0x1_0000_0000 && a % 4 == 0 && a / 4 in env.rom && a / 4 !in env.ramKeys
            && Lane(env.rom[a / 4], k) == Lane(Split(ShiftEntry(kind, j, i)), k)
  {
    hide ShiftEntry, Split;
    assert ShiftTableIn(env.lutFile, kind);
    var n := ShiftBase(kind) + 1024 * j + 4 * i + k;
    assert RomByte(env, env.lut + n, env.lutFile[n]);
    WordLane(64 * (env.lut / 256) + ShiftBase(kind) / 4 + 256 * j + i, k);
  }

  /** tp becomes the table word for byte k of the operand in A. */
  lemma DoShiftByte(env: Env, kind: Shift, a: nat, x: Word, k: int, m: Machine) returns (m': Machine)
    requires EnvOk(env) && Ready(env, m) && 0 <= k < 4 && a < 32
    requires m.regs[S0] == ShiftAddr(env, kind) + 1024 * a
    requires Key(m, VAR_A) in m.ram && m.ram[Key(m, VAR_A)] == Split(x)
    ensures m' == Exec(env.rom, ShiftByte(S0, k), m) && Ready(env, m') && m'.ram == m.ram
    ensures m'.regs == Put(m.regs, TP, ShiftEntry(kind, a, ByteOf(x, k)))
  {
    hide Exec1, Plus, Wrap, Minus, WordIndex, EnvOk, ShiftEntry, Split;
    ShiftLookup(env, kind, a, ByteOf(x, k));
    var m1 := DoLoadByte(env, TP, VAR_A, k, m);
    var m2 := DoTimes4(env, TP, m1);
    var m3 := DoAdd(env, TP, S0, TP, m2);
    m' := DoLoadRomWord(env, TP, TP, m3);
    Exec4(env, ShiftByte(S0, k), m);
  }

  lemma PlusZero(x: Word)
    ensures Plus(x, 0) == x
  {
  }

  lemma DoLoadRomWord(env: Env, rd: Reg, rs1: Reg, m: Machine) returns (m': Machine)
    requires m.ok && m.ram.Keys == env.ramKeys
    requires m.regs[rs1] % 4 == 0 && m.regs[rs1] / 4 in env.rom && m.regs[rs1] / 4 !in env.ramKeys
    ensures m' == Exec(env.rom, Op(Lw(rd, rs1, 0)), m) && m'.ok && m'.ram == m.ram
    ensures m'.regs == Put(m.regs, rd, Join(env.rom[m.regs[rs1] / 4]))
    ensures rd != SP && Ready(env, m) ==> Ready(env, m')
  {
    PlusZero(m.regs[rs1]);
    hide Plus, Wrap, Join;
    m' := Exec(env.rom, Op(Lw(rd, rs1, 0)), m);
  }

  lemma ShiftAddrRange(env: Env, kind: Shift)
    requires EnvOk(env)
    ensures 0 <= ShiftAddr(env, kind) && ShiftAddr(env, kind) + SHIFT_BYTES <= 0x1_0000_0000
  {
    assert ShiftTableIn(env.lutFile, kind);
  }

  /** The amount moved to byte 1 of a cleared slot. */
  lemma DoTimes256(env: Env, m: Machine) returns (m': Machine)
    requires Ready(env, m) && m.regs[S0] < 256
    ensures m' == Exec(env.rom, Do3(SaveWord(0, VAR_B), SaveByte(S0, VAR_B, 1), LoadWord(S0, VAR_B)), m)
    ensures Ready(env, m') && m'.regs == Put(m.regs, S0, 256 * m.regs[S0]) && OnlySlots(m, m', {VAR_B})
  {
    hide Exec1, Plus, Wrap, Minus, WordIndex, Split, StackOk;
    var m1 := DoClear(env, VAR_B, m);
    var m2 := DoSaveByte(env, S0, VAR_B, 1, m1);
    assert m2.ram[Key(m, VAR_B)] == Cell(0, m.regs[S0], 0, 0);
    m' := DoLoadWord(env, S0, VAR_B, m2);
    Exec3(env, Do3(SaveWord(0, VAR_B), SaveByte(S0, VAR_B, 1), LoadWord(S0, VAR_B)), m);
  }

  lemma DoRowSaves(env: Env, rs1: Reg, rs2: Reg, m: Machine) returns (m': Machine)
    requires EnvOk(env) && Ready(env, m) && rs2 != TP
    ensures m' == Exec(env.rom, Do6(SaveWord(S0, 1), SaveWord(rs1, VAR_A), GetShamt(env, S0, rs2),
                                    SaveWord(0, VAR_B), SaveByte(S0, VAR_B, 1), LoadWord(S0, VAR_B)), m)
    ensures Ready(env, m') && Sets(m, m', S0, 256 * (m.regs[rs2] % 32), {TP}) && OnlySlots(m, m', {1, VAR_A, VAR_B})
    ensures Key(m, 1) in m'.ram && m'.ram[Key(m, 1)] == Split(m.regs[S0])
    ensures Key(m, VAR_A) in m'.ram && m'.ram[Key(m, VAR_A)] == Split(m.regs[rs1])
  {
    hide Exec1, Plus, Wrap, Minus, WordIndex, EnvOk, Split, StackOk;
    var m1 := DoSaveWord(env, S0, 1, m);
    var m2 := DoSaveWord(env, rs1, VAR_A, m1);
    var m3 := DoGetShamt(env, S0, rs2, m2);
    m' := DoTimes256(env, m3);
    Exec4(env, Do6(SaveWord(S0, 1), SaveWord(rs1, VAR_A), GetShamt(env, S0, rs2),
                   SaveWord(0, VAR_B), SaveByte(S0, VAR_B, 1), LoadWord(S0, VAR_B)), m);
  }

  lemma DoShiftRow(env: Env, kind: Shift, rs1: Reg, rs2: Reg, m: Machine) returns (m': Machine)
    requires EnvOk(env) && Ready(env, m) && rs2 != TP
    ensures m' == Exec(env.rom, ShiftRow(env, kind, rs1, rs2), m) && Ready(env, m')
    ensures OnlyRegs(m, m', {S0, TP}) && OnlySlots(m, m', {1, VAR_A, VAR_B})
    ensures m'.regs[S0] == ShiftAddr(env, kind) + 1024 * (m.regs[rs2] % 32)
    ensures Key(m, 1) in m'.ram && m'.ram[Key(m, 1)] == Split(m.regs[S0])
    ensures Key(m, VAR_A) in m'.ram && m'.ram[Key(m, VAR_A)] == Split(m.regs[rs1])
  {
    hide Exec1, Plus, Wrap, Minus, WordIndex, EnvOk, Split;
    ShiftAddrRange(env, kind);
    var c := ShiftRow(env, kind, rs1, rs2);
    var m1 := DoRowSaves(env, rs1, rs2, m);
    var m2 := DoTimes4(env, S0, m1);
    var m3 := DoLa(env, TP, ShiftAddr(env, kind), m2);
    m' := DoAdd(env, S0, S0, TP, m3);
    Exec2(env, c, m);
    Exec3(env, c.c2, m1);
  }

  // ---------- variable left shift ----------

  /** The row pointer, the operand and the saved s0 are in place for a shift by a. */
  ghost predicate RowReady(env: Env, kind: Shift, a: nat, x: Word, s0: Word, m: Machine) {
    && Ready(env, m) && a < 32
    && m.regs[S0] == ShiftAddr(env, kind) + 1024 * a
    && Key(m, VAR_A) in m.ram && m.ram[Key(m, VAR_A)] == Split(x)
    && Key(m, 1) in m.ram && m.ram[Key(m, 1)] == Split(s0)
  }

  lemma DoLeft3(env: Env, a: nat, x: Word, s0: Word, m: Machine) returns (m': Machine)
    requires EnvOk(env) && RowReady(env, Sll, a, x, s0, m)
    ensures m' == Exec(env.rom, Do4(SaveWord(0, VAR_B), ShiftByte(S0, 3), SaveByte(TP, VAR_B, 3), LoadWord(GP, VAR_B)), m)
    ensures RowReady(env, Sll, a, x, s0, m') && OnlySlots(m, m', {VAR_B}) && OnlyRegs(m, m', {GP, TP})
    ensures m'.regs[GP] == Wrap(ShiftEntry(Sll, a, ByteOf(x, 3)) * 0x100_0000)
    ensures Key(m, VAR_B) in m'.ram && m'.ram[Key(m, VAR_B)].b0 == 0 && m'.ram[Key(m, VAR_B)].b1 == 0
  {
    hide Exec1, Plus, Wrap, Minus, WordIndex, EnvOk, Split, ShiftEntry;
    var m1 := DoClear(env, VAR_B, m);
    var m2 := DoShiftByte(env, Sll, a, x, 3, m1);
    TopLaneShift(m2.regs[TP]);
    var m3 := DoSaveByte(env, TP, VAR_B, 3, m2);
    m' := DoLoadWord(env, GP, VAR_B, m3);
    Exec4(env, Do4(SaveWord(0, VAR_B), ShiftByte(S0, 3), SaveByte(TP, VAR_B, 3), LoadWord(GP, VAR_B)), m);
  }

  lemma DoLeft2(env: Env, a: nat, x: Word, s0: Word, m: Machine) returns (m': Machine)
    requires EnvOk(env) && RowReady(env, Sll, a, x, s0, m)
    requires Key(m, VAR_B) in m.ram && m.ram[Key(m, VAR_B)].b0 == 0 && m.ram[Key(m, VAR_B)].b1 == 0
    ensures m' == Exec(env.rom, Do4(ShiftByte(S0, 2), Sh(TP, SP, SlotOff(VAR_B, 2)), LoadWord(TP, VAR_B),
                                    Op(Add(GP, GP, TP))), m)
    ensures RowReady(env, Sll, a, x, s0, m') && OnlySlots(m, m', {VAR_B, VAR_C}) && OnlyRegs(m, m', {GP, TP})
    ensures m'.regs[GP] == Plus(m.regs[GP], Wrap(ShiftEntry(Sll, a, ByteOf(x, 2)) * 0x1_0000))
  {
    hide Exec1, Plus, Wrap, Minus, WordIndex, EnvOk, StackOk, Split, ShiftEntry, ByteOf;
    var m1 := DoShiftByte(env, Sll, a, x, 2, m);
    HalfShift(m1.regs[TP]);
    var m2 := DoShSlot(env, TP, VAR_B, m1);
    var m3 := DoLoadWord(env, TP, VAR_B, m2);
    m' := DoAdd(env, GP, GP, TP, m3);
    Exec4(env, Do4(ShiftByte(S0, 2), Sh(TP, SP, SlotOff(VAR_B, 2)), LoadWord(TP, VAR_B), Op(Add(GP, GP, TP))), m);
  }

  lemma DoLeft1(env: Env, a: nat, x: Word, s0: Word, m: Machine) returns (m': Machine)
    requires EnvOk(env) && RowReady(env, Sll, a, x, s0, m)
    ensures m' == Exec(env.rom, Do3(ShiftByte(S0, 1), Slli(TP, TP, 8), Op(Add(GP, GP, TP))), m)
    ensures RowReady(env, Sll, a, x, s0, m') && m'.ram == m.ram && OnlyRegs(m, m', {GP, TP})
    ensures m'.regs[GP] == Plus(m.regs[GP], Wrap(ShiftEntry(Sll, a, ByteOf(x, 1)) * 0x100))
  {
    hide Exec1, Plus, Wrap, Minus, WordIndex, EnvOk, Split, ShiftEntry, Pow2;
    Pow2Values();
    var m1 := DoShiftByte(env, Sll, a, x, 1, m);
    var m2 := DoSlliShort(env, TP, TP, 8, m1);
    m' := DoAdd(env, GP, GP, TP, m2);
    Exec3(env, Do3(ShiftByte(S0, 1), Slli(TP, TP, 8), Op(Add(GP, GP, TP))), m);
  }

  lemma DoLeftBytes(env: Env, a: nat, x: Word, s0: Word, m: Machine) returns (m': Machine)
    requires EnvOk(env) && RowReady(env, Sll, a, x, s0, m)
    ensures m' == Exec(env.rom, LeftBytes(), m)
    ensures RowReady(env, Sll, a, x, s0, m') && OnlySlots(m, m', {VAR_B, VAR_C}) && OnlyRegs(m, m', {GP, TP})
    ensures Plus(m'.regs[GP], m'.regs[TP]) == Shl(x, a)
  {
    hide Exec1, Plus, Wrap, Minus, WordIndex, EnvOk, Split, StackOk, ShiftEntry, Shl;
    var m1 := DoLeft3(env, a, x, s0, m);
    var m2 := DoLeft2(env, a, x, s0, m1);
    var m3 := DoLeft1(env, a, x, s0, m2);
    m' := DoShiftByte(env, Sll, a, x, 0, m3);
    Exec4(env, LeftBytes(), m);
    ShiftLeftBytes(x, a);
  }

  /** Restores s0 and adds the two parts of the result. */
  lemma DoFinish(env: Env, rd: Reg, s0: Word, m: Machine) returns (m': Machine)
    requires Ready(env, m) && Key(m, 1) in m.ram && m.ram[Key(m, 1)] == Split(s0)
    ensures m' == Exec(env.rom, Cat(LoadWord(S0, 1), Op(Add(rd, GP, TP))), m) && m'.ok && m'.ram == m.ram
    ensures m'.regs == Put(Put(m.regs, S0, s0), rd, Plus(m.regs[GP], m.regs[TP]))
    ensures rd != SP ==> Ready(env, m')
  {
    hide Exec1, Plus, Wrap, Minus, WordIndex, Split, StackOk;
    var m1 := DoLoadWord(env, S0, 1, m);
    m' := DoAdd(env, rd, GP, TP, m1);
    Exec2(env, Cat(LoadWord(S0, 1), Op(Add(rd, GP, TP))), m);
  }

  lemma DoShiftLeft(env: Env, rd: Reg, rs1: Reg, rs2: Reg, m: Machine) returns (m': Machine)
    requires EnvOk(env) && Ready(env, m) && rs1 != TP && rs2 != TP && rs1 != GP && rs2 != GP
    ensures m' == Exec(env.rom, ShiftLeft(env, rd, rs1, rs2), m) && m'.ok
    ensures Sets(m, m', rd, Shl(m.regs[rs1], m.regs[rs2] % 32), {GP, TP})
    ensures OnlySlots(m, m', {1, VAR_A, VAR_B, VAR_C})
    ensures rd != SP ==> Ready(env, m')
  {
    hide Exec1, Plus, Wrap, Minus, WordIndex, EnvOk, Split, StackOk, ShiftEntry, Shl;
    var x, a, s0 := m.regs[rs1], m.regs[rs2] % 32, m.regs[S0];
    var m1 := DoShiftRow(env, Sll, rs1, rs2, m);
    var m2 := DoLeftBytes(env, a, x, s0, m1);
    m' := DoFinish(env, rd, s0, m2);
    Exec3(env, ShiftLeft(env, rd, rs1, rs2), m);
  }

  // ---------- right shifts ----------

  /** The table words of the three low operand bytes are in B, C and D. */
  ghost predicate LowWords(a: nat, x: Word, m: Machine) {
    && Key(m, VAR_B) in m.ram && m.ram[Key(m, VAR_B)] == Split(ShiftEntry(Srl, a, ByteOf(x, 2)))
    && Key(m, VAR_C) in m.ram && m.ram[Key(m, VAR_C)] == Split(ShiftEntry(Srl, a, ByteOf(x, 1)))
    && Key(m, VAR_D) in m.ram && m.ram[Key(m, VAR_D)] == Split(ShiftEntry(Srl, a, ByteOf(x, 0)))
  }

  lemma DoLowBytes(env: Env, a: nat, x: Word, s0: Word, m: Machine) returns (m': Machine)
    requires EnvOk(env) && RowReady(env, Srl, a, x, s0, m)
    ensures m' == Exec(env.rom, ShiftLowBytes(), m)
    ensures RowReady(env, Srl, a, x, s0, m') && LowWords(a, x, m')
    ensures OnlySlots(m, m', {VAR_B, VAR_C, VAR_D}) && OnlyRegs(m, m', {TP})
  {
    hide Exec1, Plus, Wrap, Minus, WordIndex, EnvOk, Split, StackOk, ShiftEntry;
    var m1 := DoShiftByte(env, Srl, a, x, 2, m);
    var m2 := DoSaveWord(env, TP, VAR_B, m1);
    var m3 := DoShiftByte(env, Srl, a, x, 1, m2);
    var m4 := DoSaveWord(env, TP, VAR_C, m3);
    var m5 := DoShiftByte(env, Srl, a, x, 0, m4);
    m' := DoSaveWord(env, TP, VAR_D, m5);
    Exec6(env, ShiftLowBytes(), m);
  }

  /** Byte 0 of the low part goes to D: three table bytes that add up without a carry. */
  lemma DoByte0(env: Env, c: Cell, d: Cell, e: Cell, m: Machine) returns (m': Machine)
    requires Ready(env, m)
    requires Key(m, VAR_B) in m.ram && m.ram[Key(m, VAR_B)] == c
    requires Key(m, VAR_C) in m.ram && m.ram[Key(m, VAR_C)] == d
    requires Key(m, VAR_D) in m.ram && m.ram[Key(m, VAR_D)] == e
    requires c.b1 + d.b2 + e.b3 < 0x100
    ensures m' == Exec(env.rom, CombineByte0(), m) && Ready(env, m')
    ensures OnlyRegs(m, m', {GP, TP})
    ensures m'.ram == m.ram[Key(m, VAR_D) := Cell(c.b1 + d.b2 + e.b3, 0, 0, 0)]
  {
    hide Exec1, Plus, Wrap, Minus, WordIndex, Split, StackOk;
    var m1 := DoSumBytes(env, c, d, e, m);
    SmallSplit(m1.regs[GP]);
    m' := DoSaveWord(env, GP, VAR_D, m1);
    Exec6(env, CombineByte0(), m);
    Exec5(env, Do5(LoadByte(GP, VAR_B, 1), LoadByte(TP, VAR_C, 2), Op(Add(GP, GP, TP)),
                   LoadByte(TP, VAR_D, 3), Op(Add(GP, GP, TP))), m);
  }

  lemma DoSumBytes(env: Env, c: Cell, d: Cell, e: Cell, m: Machine) returns (m': Machine)
    requires Ready(env, m)
    requires Key(m, VAR_B) in m.ram && m.ram[Key(m, VAR_B)] == c
    requires Key(m, VAR_C) in m.ram && m.ram[Key(m, VAR_C)] == d
    requires Key(m, VAR_D) in m.ram && m.ram[Key(m, VAR_D)] == e
    ensures m' == Exec(env.rom, Do5(LoadByte(GP, VAR_B, 1), LoadByte(TP, VAR_C, 2), Op(Add(GP, GP, TP)),
                                    LoadByte(TP, VAR_D, 3), Op(Add(GP, GP, TP))), m)
    ensures Ready(env, m') && OnlyRegs(m, m', {GP, TP}) && m'.ram == m.ram
    ensures m'.regs[GP] == c.b1 + d.b2 + e.b3
  {
    hide Exec1, Plus, Wrap, Minus, WordIndex, Split, StackOk;
    var m1 := DoLoadByte(env, GP, VAR_B, 1, m);
    var m2 := DoLoadByte(env, TP, VAR_C, 2, m1);
    var m3 := DoAdd(env, GP, GP, TP, m2);
    var m4 := DoLoadByte(env, TP, VAR_D, 3, m3);
    m' := DoAdd(env, GP, GP, TP, m4);
    Exec5(env, Do5(LoadByte(GP, VAR_B, 1), LoadByte(TP, VAR_C, 2), Op(Add(GP, GP, TP)),
                   LoadByte(TP, VAR_D, 3), Op(Add(GP, GP, TP))), m);
  }

  lemma SmallSplit(x: Word)
    requires x < 0x100
    ensures Split(x) == Cell(x, 0, 0, 0)
  {
  }

  lemma DoByte1(env: Env, c: Cell, d: Cell, e: Cell, m: Machine) returns (m': Machine)
    requires Ready(env, m)
    requires Key(m, VAR_B) in m.ram && m.ram[Key(m, VAR_B)] == c
    requires Key(m, VAR_C) in m.ram && m.ram[Key(m, VAR_C)] == d
    requires Key(m, VAR_D) in m.ram && m.ram[Key(m, VAR_D)] == e
    requires c.b2 + d.b3 < 0x100
    ensures m' == Exec(env.rom, CombineByte1(), m) && Ready(env, m')
    ensures OnlyRegs(m, m', {GP, TP})
    ensures m'.ram == m.ram[Key(m, VAR_D) := e.(b1 := c.b2 + d.b3)]
  {
    hide Exec1, Plus, Wrap, Minus, WordIndex, Split, StackOk;
    var m1 := DoLoadByte(env, GP, VAR_B, 2, m);
    var m2 := DoLoadByte(env, TP, VAR_C, 3, m1);
    var m3 := DoAdd(env, GP, GP, TP, m2);
    m' := DoSaveByte(env, GP, VAR_D, 1, m3);
    Exec4(env, CombineByte1(), m);
  }

  lemma DoByte2(env: Env, c: Cell, e: Cell, m: Machine) returns (m': Machine)
    requires Ready(env, m)
    requires Key(m, VAR_B) in m.ram && m.ram[Key(m, VAR_B)] == c
    requires Key(m, VAR_D) in m.ram && m.ram[Key(m, VAR_D)] == e
    ensures m' == Exec(env.rom, CombineByte2(), m) && Ready(env, m')
    ensures m'.regs == Put(m.regs, GP, Join(e.(b2 := c.b3)))
    ensures m'.ram == m.ram[Key(m, VAR_D) := e.(b2 := c.b3)]
  {
    hide Exec1, Plus, Wrap, Minus, WordIndex, Split, StackOk;
    var m1 := DoLoadByte(env, GP, VAR_B, 3, m);
    var m2 := DoSaveByte(env, GP, VAR_D, 2, m1);
    m' := DoLoadWord(env, GP, VAR_D, m2);
    Exec3(env, CombineByte2(), m);
  }

  lemma DoCombine(env: Env, a: nat, x: Word, s0: Word, m: Machine) returns (m': Machine)
    requires EnvOk(env) && RowReady(env, Srl, a, x, s0, m) && LowWords(a, x, m)
    ensures m' == Exec(env.rom, Do3(CombineByte0(), CombineByte1(), CombineByte2()), m)
    ensures RowReady(env, Srl, a, x, s0, m') && OnlySlots(m, m', {VAR_D}) && OnlyRegs(m, m', {GP, TP})
    ensures m'.regs[GP] == x % 0x100_0000 / Pow2(a)
  {
    hide Exec1, Plus, Wrap, Minus, WordIndex, EnvOk, Split, StackOk, ShiftEntry, Pow2;
    NoCarry(x, a);
    var c, d, e := m.ram[Key(m, VAR_B)], m.ram[Key(m, VAR_C)], m.ram[Key(m, VAR_D)];
    var m1 := DoByte0(env, c, d, e, m);
    var m2 := DoByte1(env, c, d, m1.ram[Key(m, VAR_D)], m1);
    m' := DoByte2(env, c, m2.ram[Key(m, VAR_D)], m2);
    Exec3(env, Do3(CombineByte0(), CombineByte1(), CombineByte2()), m);
  }

  lemma DoSelectTable(env: Env, arith: bool, a: nat, x: Word, s0: Word, m: Machine) returns (m': Machine)
    requires EnvOk(env) && RowReady(env, Srl, a, x, s0, m)
    ensures m' == Exec(env.rom, if arith then ToSraTable(env) else Nop, m)
    ensures RowReady(env, if arith then Sra else Srl, a, x, s0, m') && m'.ram == m.ram && OnlyRegs(m, m', {S0, TP})
  {
    hide Exec1, Plus, Wrap, Minus, WordIndex, EnvOk, Split, StackOk;
    if arith {
      ShiftAddrRange(env, Sra);
      var m1 := DoLa(env, TP, ShiftAddr(env, Sra) - ShiftAddr(env, Srl), m);
      m' := DoAdd(env, S0, S0, TP, m1);
      Exec2(env, ToSraTable(env), m);
    } else {
      m' := m;
    }
  }

  /** x shifted right by a, filled with zeros or with the sign. */
  function Shr(arith: bool, x: Word, a: nat): Word {
    DivAtMost(x, Pow2(a));
    if arith then Wrap(Signed(x) / Pow2(a)) else x / Pow2(a)
  }

  lemma ShrParts(arith: bool, x: Word, a: nat)
    ensures Plus(x % 0x100_0000 / Pow2(a), ShiftEntry(if arith then Sra else Srl, a, ByteOf(x, 3))) == Shr(arith, x, a)
  {
    hide ShiftEntry, Pow2, Split, Signed;
    ShiftRightTop(x, a);
  }

  lemma DoRightBody(env: Env, arith: bool, rd: Reg, a: nat, x: Word, s0: Word, m: Machine) returns (m': Machine)
    requires EnvOk(env) && RowReady(env, Srl, a, x, s0, m)
    ensures m' == Exec(env.rom, ShiftRightBody(env, arith, rd), m) && m'.ok
    ensures OnlySlots(m, m', {VAR_B, VAR_C, VAR_D})
    ensures forall r: Reg | r != rd && r != S0 && r != GP && r != TP :: m'.regs[r] == m.regs[r]
    ensures rd != S0 ==> m'.regs[S0] == s0
    ensures rd != 0 ==> m'.regs[rd] == Shr(arith, x, a)
    ensures rd != SP ==> Ready(env, m')
  {
    hide Exec1, Plus, Wrap, Minus, WordIndex, EnvOk, Split, StackOk, ShiftEntry, Pow2, Shr, Plus;
    var c := ShiftRightBody(env, arith, rd);
    var m1 := DoLowBytes(env, a, x, s0, m);
    var m2 := DoCombine(env, a, x, s0, m1);
    var m3 := DoSelectTable(env, arith, a, x, s0, m2);
    var m4 := DoShiftByte(env, if arith then Sra else Srl, a, x, 3, m3);
    m' := DoFinish(env, rd, s0, m4);
    Exec5(env, c, m);
    ShrParts(arith, x, a);
  }

  lemma DoShiftRight(env: Env, arith: bool, rd: Reg, rs1: Reg, rs2: Reg, m: Machine) returns (m': Machine)
    requires EnvOk(env) && Ready(env, m) && rs2 != TP
    ensures m' == Exec(env.rom, ShiftRight(env, arith, rd, rs1, rs2), m) && m'.ok
    ensures Sets(m, m', rd, Shr(arith, m.regs[rs1], m.regs[rs2] % 32), {GP, TP})
    ensures OnlySlots(m, m', {1, VAR_A, VAR_B, VAR_C, VAR_D})
    ensures rd != SP ==> Ready(env, m')
  {
    hide Exec1, Plus, Wrap, Minus, WordIndex, EnvOk, Split, StackOk, Shr;
    var m1 := DoShiftRow(env, Srl, rs1, rs2, m);
    m' := DoRightBody(env, arith, rd, m.regs[rs2] % 32, m.regs[rs1], m.regs[S0], m1);
    Exec2(env, ShiftRight(env, arith, rd, rs1, rs2), m);
  }

  // ---------- constant right shifts ----------

  lemma TopByteShift(x: Word)
    ensures ByteOf(x, 3) == Shr(false, x, 24)
    ensures ShiftEntry(Sra, 24, ByteOf(x, 3)) == Shr(true, x, 24)
  {
    hide Pow2, Split;
    Pow2Values();
    ShiftRightTop(x, 24);
    BytesOf(x);
    assert x % 0x100_0000 / 0x100_0000 == 0;
  }

  lemma DoSra24(env: Env, rd: Reg, rs1: Reg, m: Machine) returns (m': Machine)
    requires EnvOk(env) && Ready(env, m) && rs1 != TP && rd != TP
    ensures m' == Exec(env.rom, ShiftRight24(env, true, rd, rs1), m) && m'.ok
    ensures Sets(m, m', rd, Shr(true, m.regs[rs1], 24), {TP}) && OnlySlots(m, m', {VAR_A})
    ensures rd != SP ==> Ready(env, m')
  {
    hide Exec1, Plus, Wrap, Minus, WordIndex, EnvOk, Split, StackOk, Shr, ShiftEntry;
    var x := m.regs[rs1];
    TopByteShift(x);
    ShiftAddrRange(env, Sra);
    ShiftLookup(env, Sra, 24, ByteOf(x, 3));
    ShiftLookup(env, Sra, 24, 0);
    var m1 := DoSaveWord(env, rs1, VAR_A, m);
    var m2 := DoLa(env, TP, ShiftAddr(env, Sra) + 24 * 1024, m1);
    var m3 := DoLoadByte(env, rd, VAR_A, 3, m2);
    var m4 := DoTimes4(env, rd, m3);
    var m5 := DoAdd(env, TP, TP, rd, m4);
    m' := DoLoadRomWord(env, rd, TP, m5);
    Exec6(env, ShiftRight24(env, true, rd, rs1), m);
  }

  lemma DoShiftRight24(env: Env, arith: bool, rd: Reg, rs1: Reg, m: Machine) returns (m': Machine)
    requires EnvOk(env) && Ready(env, m) && rs1 != TP && rd != TP
    ensures m' == Exec(env.rom, ShiftRight24(env, arith, rd, rs1), m) && m'.ok
    ensures Sets(m, m', rd, Shr(arith, m.regs[rs1], 24), {TP})
    ensures OnlySlots(m, m', {VAR_A, VAR_C})
    ensures rd != SP ==> Ready(env, m')
  {
    hide Exec1, Plus, Wrap, Minus, WordIndex, EnvOk, Split, StackOk, Shr;
    if arith {
      m' := DoSra24(env, rd, rs1, m);
    } else {
      TopByteShift(m.regs[rs1]);
      m' := DoGetByte(env, rd, rs1, 3, m);
    }
  }

  lemma DoShiftRightImm(env: Env, arith: bool, rd: Reg, rs1: Reg, imm: int, m: Machine) returns (m': Machine)
    requires EnvOk(env) && Ready(env, m) && rs1 != TP && rd != TP && 0 <= imm < 32
    ensures m' == Exec(env.rom, ShiftRightImm(env, arith, rd, rs1, imm), m) && m'.ok
    ensures Sets(m, m', rd, Shr(arith, m.regs[rs1], imm), {GP, TP})
    ensures OnlySlots(m, m', {1, VAR_A, VAR_B, VAR_C, VAR_D})
    ensures rd != SP ==> Ready(env, m')
  {
    hide Exec1, Plus, Wrap, Minus, WordIndex, EnvOk, Split, StackOk, Shr, ShiftEntry;
    if imm == 24 {
      m' := DoShiftRight24(env, arith, rd, rs1, m);
      return;
    }
    var c := ShiftRightImm(env, arith, rd, rs1, imm);
    ShiftAddrRange(env, Srl);
    var m1 := DoSaveWord(env, S0, 1, m);
    var m2 := DoSaveWord(env, rs1, VAR_A, m1);
    var m3 := DoLa(env, S0, ShiftAddr(env, Srl) + imm * 1024, m2);
    m' := DoRightBody(env, arith, rd, imm, m.regs[rs1], m.regs[S0], m3);
    Exec2(env, c, m);
    Exec3(env, c.c1, m);
  }
}
