/** What each macro does to registers and memory, one lemma per macro. The lemmas return the
    state after the macro. */
module MinirvEffects {
  import opened Bits
  import opened MinirvMachine
  import opened MinirvTables
  import opened MinirvMacros
  import opened MinirvShifts

  // ---------- the stack discipline the macros rely on ----------

  ghost predicate SlotFree(env: Env, sp: Word, n: int) {
    WordIndex(sp) - n in env.ramKeys && !InArray(env, WordIndex(sp) - n)
  }

  /** sp is word aligned and the seven words below it are free RAM. */
  ghost predicate StackOk(env: Env, sp: Word) {
    sp % 4 == 0 && sp >= 28 && forall n | 1 <= n <= 7 :: SlotFree(env, sp, n)
  }

  ghost predicate Ready(env: Env, m: Machine) {
    m.ok && m.ram.Keys == env.ramKeys && StackOk(env, m.regs[SP])
  }

  function WordIndex(a: Word): int {
    a / 4
  }

  function Key(m: Machine, n: int): int {
    WordIndex(m.regs[SP]) - n
  }

  /** Memory changed at most in the listed slots. */
  ghost predicate OnlySlots(m: Machine, m': Machine, ns: set<int>) {
    && m'.ram.Keys == m.ram.Keys
    && forall k | k in m.ram && Key(m, 0) - k !in ns :: m'.ram[k] == m.ram[k]
  }

  ghost predicate OnlyRegs(m: Machine, m': Machine, rs: set<int>) {
    forall r: Reg | r !in rs :: m'.regs[r] == m.regs[r]
  }

  // ---------- executing sequences ----------

  lemma Exec2(env: Env, c: Code, m: Machine)
    requires c.Cat?
    ensures Exec(env.rom, c, m) == Exec(env.rom, c.c2, Exec(env.rom, c.c1, m))
  {
  }

  lemma Exec3(env: Env, c: Code, m: Machine)
    requires c.Cat? && c.c2.Cat?
    ensures Exec(env.rom, c, m) == Exec(env.rom, c.c2.c2, Exec(env.rom, c.c2.c1, Exec(env.rom, c.c1, m)))
  {
  }

  lemma Exec4(env: Env, c: Code, m: Machine)
    requires c.Cat? && c.c2.Cat? && c.c2.c2.Cat?
    ensures Exec(env.rom, c, m)
         == Exec(env.rom, c.c2.c2.c2, Exec(env.rom, c.c2.c2.c1, Exec(env.rom, c.c2.c1, Exec(env.rom, c.c1, m))))
  {
    Exec3(env, c.c2, Exec(env.rom, c.c1, m));
  }

  lemma Exec5(env: Env, c: Code, m: Machine)
    requires c.Cat? && c.c2.Cat? && c.c2.c2.Cat? && c.c2.c2.c2.Cat?
    ensures Exec(env.rom, c, m)
         == Exec(env.rom, c.c2.c2.c2.c2, Exec(env.rom, c.c2.c2.c2.c1, Exec(env.rom, c.c2.c2.c1, Exec(env.rom, c.c2.c1, Exec(env.rom, c.c1, m)))))
  {
    Exec4(env, c.c2, Exec(env.rom, c.c1, m));
  }

  lemma Exec6(env: Env, c: Code, m: Machine)
    requires c.Cat? && c.c2.Cat? && c.c2.c2.Cat? && c.c2.c2.c2.Cat? && c.c2.c2.c2.c2.Cat?
    ensures Exec(env.rom, c, m)
         == Exec(env.rom, c.c2.c2.c2.c2.c2, Exec(env.rom, c.c2.c2.c2.c2.c1, Exec(env.rom, c.c2.c2.c2.c1, Exec(env.rom, c.c2.c2.c1, Exec(env.rom, c.c2.c1, Exec(env.rom, c.c1, m))))))
  {
    Exec5(env, c.c2, Exec(env.rom, c.c1, m));
  }

  lemma Exec7(env: Env, c: Code, m: Machine)
    requires c.Cat? && c.c2.Cat? && c.c2.c2.Cat? && c.c2.c2.c2.Cat? && c.c2.c2.c2.c2.Cat? && c.c2.c2.c2.c2.c2.Cat?
    ensures Exec(env.rom, c, m)
         == Exec(env.rom, c.c2.c2.c2.c2.c2.c2, Exec(env.rom, c.c2.c2.c2.c2.c2.c1, Exec(env.rom, c.c2.c2.c2.c2.c1, Exec(env.rom, c.c2.c2.c2.c1, Exec(env.rom, c.c2.c2.c1, Exec(env.rom, c.c2.c1, Exec(env.rom, c.c1, m)))))))
  {
    Exec6(env, c.c2, Exec(env.rom, c.c1, m));
  }

  // ---------- single instructions ----------

  lemma SlotAddress(env: Env, m: Machine, n: int, k: int)
    requires Ready(env, m) && 1 <= n <= 7 && 0 <= k < 4
    ensures Plus(m.regs[SP], SlotOff(n, k)) / 4 == Key(m, n)
    ensures Plus(m.regs[SP], SlotOff(n, k)) % 4 == k
    ensures Key(m, n) in m.ram
  {
    assert SlotFree(env, m.regs[SP], n);
  }

  lemma DoSaveWord(env: Env, r: Reg, n: int, m: Machine) returns (m': Machine)
    requires Ready(env, m) && 1 <= n <= 7
    ensures m' == Exec(env.rom, SaveWord(r, n), m) && Ready(env, m')
    ensures m'.regs == m.regs && m'.ram == m.ram[Key(m, n) := Split(m.regs[r])]
  {
    SlotAddress(env, m, n, 0);
    m' := Exec(env.rom, SaveWord(r, n), m);
  }

  lemma DoClear(env: Env, n: int, m: Machine) returns (m': Machine)
    requires Ready(env, m) && 1 <= n <= 7
    ensures m' == Exec(env.rom, SaveWord(0, n), m) && Ready(env, m')
    ensures m'.regs == m.regs && m'.ram == m.ram[Key(m, n) := ZERO]
  {
    hide *;
    ZeroSplit(m.regs[0]);
    m' := DoSaveWord(env, 0, n, m);
  }

  lemma DoLoadWord(env: Env, r: Reg, n: int, m: Machine) returns (m': Machine)
    requires Ready(env, m) && 1 <= n <= 7
    ensures Key(m, n) in m.ram
    ensures m' == Exec(env.rom, LoadWord(r, n), m) && m'.ok
    ensures m'.regs == Put(m.regs, r, Join(m.ram[Key(m, n)])) && m'.ram == m.ram
    ensures r != SP ==> Ready(env, m')
  {
    SlotAddress(env, m, n, 0);
    m' := Exec(env.rom, LoadWord(r, n), m);
  }

  lemma DoSaveByte(env: Env, r: Reg, n: int, k: int, m: Machine) returns (m': Machine)
    requires Ready(env, m) && 1 <= n <= 7 && 0 <= k < 4
    ensures Key(m, n) in m.ram
    ensures m' == Exec(env.rom, SaveByte(r, n, k), m) && Ready(env, m')
    ensures m'.regs == m.regs
    ensures m'.ram == m.ram[Key(m, n) := SetLane(m.ram[Key(m, n)], k, m.regs[r] % 0x100)]
  {
    SlotAddress(env, m, n, k);
    m' := Exec(env.rom, SaveByte(r, n, k), m);
  }

  lemma DoLoadByte(env: Env, r: Reg, n: int, k: int, m: Machine) returns (m': Machine)
    requires Ready(env, m) && 1 <= n <= 7 && 0 <= k < 4
    ensures Key(m, n) in m.ram
    ensures m' == Exec(env.rom, LoadByte(r, n, k), m) && m'.ok
    ensures m'.regs == Put(m.regs, r, Lane(m.ram[Key(m, n)], k)) && m'.ram == m.ram
    ensures r != SP ==> Ready(env, m')
  {
    SlotAddress(env, m, n, k);
    m' := Exec(env.rom, LoadByte(r, n, k), m);
  }

  /** A sum within range does not wrap. */
  predicate Exact(x: int, y: int) {
    0 <= x + y < 0x1_0000_0000 ==> Plus(x, y) == x + y
  }

  lemma DoAdd(env: Env, rd: Reg, rs1: Reg, rs2: Reg, m: Machine) returns (m': Machine)
    requires m.ok
    ensures m' == Exec(env.rom, Op(Add(rd, rs1, rs2)), m) && m'.ok
    ensures m'.regs == Put(m.regs, rd, Plus(m.regs[rs1], m.regs[rs2])) && m'.ram == m.ram
    ensures Exact(m.regs[rs1], m.regs[rs2])
    ensures rd != SP && Ready(env, m) ==> Ready(env, m')
  {
    m' := Exec(env.rom, Op(Add(rd, rs1, rs2)), m);
  }

  lemma DoAddi(env: Env, rd: Reg, rs1: Reg, imm: int, m: Machine) returns (m': Machine)
    requires m.ok
    ensures m' == Exec(env.rom, Op(Addi(rd, rs1, imm)), m) && m'.ok
    ensures m'.regs == Put(m.regs, rd, Plus(m.regs[rs1], imm)) && m'.ram == m.ram
    ensures Exact(m.regs[rs1], imm)
    ensures rd != SP && Ready(env, m) ==> Ready(env, m')
  {
    m' := Exec(env.rom, Op(Addi(rd, rs1, imm)), m);
  }

  /** lui and addi rebuild the address from its two parts. */
  lemma HiLo(a: Word)
    ensures Plus(Wrap(Hi(a) * 4096), Lo(a)) == a
  {
    var t := a + 0x800;
    assert t == t / 0x1000 * 0x1000 + t % 0x1000;
    if t / 0x1000 < 0x10_0000 {
      assert Hi(a) == t / 0x1000;
    } else {
      assert Hi(a) == 0;
    }
  }

  lemma DoLa(env: Env, r: Reg, a: Word, m: Machine) returns (m': Machine)
    requires m.ok
    ensures m' == Exec(env.rom, La(r, a), m) && m'.ok
    ensures m'.regs == Put(m.regs, r, a) && m'.ram == m.ram
    ensures r != SP && Ready(env, m) ==> Ready(env, m')
  {
    HiLo(a);
    var m1 := Exec(env.rom, Op(Lui(r, Hi(a))), m);
    m' := Exec(env.rom, Op(Addi(r, r, Lo(a))), m1);
    assert Exec(env.rom, La(r, a), m) == m';
  }

  lemma DoLoadRom(env: Env, rd: Reg, rs1: Reg, b: Byte, m: Machine) returns (m': Machine)
    requires m.ok && m.ram.Keys == env.ramKeys && RomByte(env, m.regs[rs1], b)
    ensures m' == Exec(env.rom, Op(Lbu(rd, rs1, 0)), m) && m'.ok
    ensures m'.regs == Put(m.regs, rd, b) && m'.ram == m.ram
    ensures rd != SP && Ready(env, m) ==> Ready(env, m')
  {
    m' := Exec(env.rom, Op(Lbu(rd, rs1, 0)), m);
  }

  // ---------- byte access ----------

  lemma DoGetByte(env: Env, rd: Reg, rs1: Reg, k: int, m: Machine) returns (m': Machine)
    requires Ready(env, m) && 0 <= k < 4
    ensures m' == Exec(env.rom, GetByte(rd, rs1, k), m) && m'.ok
    ensures m'.regs == Put(m.regs, rd, ByteOf(m.regs[rs1], k))
    ensures m'.ram == m.ram[Key(m, VAR_C) := Split(m.regs[rs1])]
    ensures m'.ram.Keys == env.ramKeys
    ensures rd != SP ==> Ready(env, m')
  {
    var m1 := DoSaveWord(env, rs1, VAR_C, m);
    m' := DoLoadByte(env, rd, VAR_C, k, m1);
    assert Exec(env.rom, GetByte(rd, rs1, k), m) == m';
  }

  lemma DoDouble(env: Env, r: Reg, m: Machine) returns (m': Machine)
    requires Ready(env, m) && r != SP && m.regs[r] < 0x8000_0000
    ensures m' == Exec(env.rom, Slli(r, r, 1), m) && Ready(env, m')
    ensures m'.regs == Put(m.regs, r, 2 * m.regs[r]) && m'.ram == m.ram
  {
    m' := DoAdd(env, r, r, r, m);
    assert Exec(env.rom, Slli(r, r, 1), m) == Exec(env.rom, Doubles(r, 0), m');
  }

  function SignBit(x: Word): (r: nat)
    ensures r <= 1
  {
    if x < 0x8000_0000 then 0 else 1
  }

  lemma SecondByte(x: Word)
    requires x < 0x200
    ensures ByteOf(x, 1) == if x < 0x100 then 0 else 1
  {
    hide Join;
    assert x / 0x100 == if x < 0x100 then 0 else 1;
  }

  lemma TopByteSign(x: Word)
    ensures ByteOf(2 * ByteOf(x, 3), 1) == SignBit(x)
  {
    var top := ByteOf(x, 3);
    assert 0x100_0000 * top <= x < 0x100_0000 * top + 0x100_0000;
    SecondByte(2 * top);
  }

  lemma DoMsb(env: Env, rd: Reg, rs1: Reg, m: Machine) returns (m': Machine)
    requires Ready(env, m) && rd != SP
    ensures m' == Exec(env.rom, Msb(rd, rs1), m) && Ready(env, m')
    ensures m'.regs == Put(m.regs, rd, SignBit(m.regs[rs1])) && OnlySlots(m, m', {VAR_C})
  {
    hide Exec1, Plus, Wrap, Minus, WordIndex, EnvOk, StackOk, Split, Join;
    var m1 := DoGetByte(env, rd, rs1, 3, m);
    var m2 := DoDouble(env, rd, m1);
    m' := DoGetByte(env, rd, rd, 1, m2);
    Exec3(env, Msb(rd, rs1), m);
    TopByteSign(m.regs[rs1]);
  }

  /** The result register gets v, the scratch registers in clob get anything, no other register changes. */
  ghost predicate Sets(m: Machine, m': Machine, rd: Reg, v: Word, clob: set<int>) {
    && (forall r: Reg | r != rd && r !in clob :: m'.regs[r] == m.regs[r])
    && (rd != 0 ==> m'.regs[rd] == v)
  }

  // ---------- table lookups ----------

  lemma LogicLookup(env: Env, op: BitOp, j: Byte, i: Byte)
    requires EnvOk(env)
    ensures LogicAddr(env, op) + 256 * j + i < 0x1_0000_0000
    ensures RomByte(env, LogicAddr(env, op) + 256 * j + i, LogicEntry(op, j, i))
  {
    assert LogicTableIn(env.lutFile, op);
    var n := LogicBase(op) + 256 * j + i;
    assert RomByte(env, env.lut + n, env.lutFile[n]);
  }

  lemma EnvTables(env: Env)
    requires EnvOk(env)
    ensures BytesAt(env, env.slt1, SLT1) && BytesAt(env, env.sltu1, SLTU1) && BytesAt(env, env.or1, OR1)
    ensures BytesAt(env, env.same, SAME_RESULT)
  {
  }

  lemma SmallLookup(env: Env, a: Word, bytes: seq<Byte>, n: nat)
    requires BytesAt(env, a, bytes) && n < |bytes|
    ensures a + n < 0x1_0000_0000 && RomByte(env, a + n, bytes[n])
  {
  }

  // ---------- complement and subtraction ----------

  lemma XorAllOnes(b: Byte)
    ensures LogicEntry(Xor, 0xff, b) == 255 - b
  {
    hide Bitwise, Pow2;
    Pow2Values();
    BitwiseSymmetric(Xor, 8, 0xff, b);
    BitwiseOnes(Xor, 8, b);
  }

  lemma DoNotByte(env: Env, k: int, m: Machine) returns (m': Machine)
    requires EnvOk(env) && Ready(env, m) && 0 <= k < 4
    requires m.regs[TP] == LogicAddr(env, Xor) + 0xff * 256
    ensures Key(m, VAR_C) in m.ram && Key(m, VAR_D) in m.ram
    ensures m' == Exec(env.rom, NotByte(k), m) && Ready(env, m')
    ensures OnlyRegs(m, m', {GP})
    ensures m'.ram == m.ram[Key(m, VAR_D) :=
                       SetLane(m.ram[Key(m, VAR_D)], k, 255 - Lane(m.ram[Key(m, VAR_C)], k))]
  {
    hide Exec1, Plus, Wrap, Minus, WordIndex, EnvOk, StackOk, Split, Join, SetLane, Bitwise, LogicEntry;
    SlotAddress(env, m, VAR_C, 0);
    var b := Lane(m.ram[Key(m, VAR_C)], k);
    LogicLookup(env, Xor, 0xff, b);
    XorAllOnes(b);
    var m1 := DoLoadByte(env, GP, VAR_C, k, m);
    var m2 := DoAdd(env, GP, GP, TP, m1);
    var m3 := DoLoadRom(env, GP, GP, 255 - b, m2);
    assert m3.ram == m.ram && m3.regs[GP] == 255 - b && m3.regs[SP] == m.regs[SP];
    m' := DoSaveByte(env, GP, VAR_D, k, m3);
    Exec4(env, NotByte(k), m);
  }

  lemma ComplementBytes(c: Cell)
    ensures Join(Cell(255 - c.b0, 255 - c.b1, 255 - c.b2, 255 - c.b3)) == 0x1_0000_0000 - 1 - Join(c)
  {
  }

  lemma DoNotBytes(env: Env, m: Machine) returns (m': Machine)
    requires EnvOk(env) && Ready(env, m)
    requires m.regs[TP] == LogicAddr(env, Xor) + 0xff * 256
    ensures Key(m, VAR_C) in m.ram && Key(m, VAR_D) in m'.ram
    ensures m' == Exec(env.rom, Do4(NotByte(3), NotByte(2), NotByte(1), NotByte(0)), m) && Ready(env, m')
    ensures OnlyRegs(m, m', {GP}) && OnlySlots(m, m', {VAR_D})
    ensures Join(m'.ram[Key(m, VAR_D)]) == 0x1_0000_0000 - 1 - Join(m.ram[Key(m, VAR_C)])
  {
    hide Exec1, Plus, Wrap, Minus, WordIndex, EnvOk, StackOk, Split, Join;
    var m1 := DoNotByte(env, 3, m);
    var m2 := DoNotByte(env, 2, m1);
    var m3 := DoNotByte(env, 1, m2);
    m' := DoNotByte(env, 0, m3);
    var c := m.ram[Key(m, VAR_C)];
    ComplementBytes(c);
    assert m'.ram[Key(m, VAR_D)] == Cell(255 - c.b0, 255 - c.b1, 255 - c.b2, 255 - c.b3);
    Exec4(env, Do4(NotByte(3), NotByte(2), NotByte(1), NotByte(0)), m);
  }

  lemma DoNot(env: Env, rd: Reg, rs1: Reg, m: Machine) returns (m': Machine)
    requires EnvOk(env) && Ready(env, m) && rs1 != TP
    ensures m' == Exec(env.rom, Not(env, rd, rs1), m) && m'.ok
    ensures Sets(m, m', rd, 0x1_0000_0000 - 1 - m.regs[rs1], {TP}) && OnlySlots(m, m', {3, VAR_C, VAR_D})
    ensures rd != SP ==> Ready(env, m')
  {
    hide Exec1, Plus, Wrap, Minus, WordIndex, EnvOk, StackOk, Split, Join;
    var x := m.regs[rs1];
    var m1 := DoSaveWord(env, GP, 3, m);
    var m2 := DoSaveWord(env, rs1, VAR_C, m1);
    LogicLookup(env, Xor, 0xff, 0);
    var m3 := DoLa(env, TP, LogicAddr(env, Xor) + 0xff * 256, m2);
    var m4 := DoNotBytes(env, m3);
    var m5 := DoLoadWord(env, GP, 3, m4);
    m' := DoLoadWord(env, rd, VAR_D, m5);
    Exec3(env, Not(env, rd, rs1), m);
    Exec3(env, Not(env, rd, rs1).c1, m);
    Exec2(env, Not(env, rd, rs1).c2.c2, m4);
  }

  lemma SubByComplement(x: Word, y: Word)
    ensures Plus(Plus(x, 0x1_0000_0000 - 1 - y), 1) == Minus(x, y)
  {
  }

  lemma DoSub(env: Env, rd: Reg, rs1: Reg, rs2: Reg, m: Machine) returns (m': Machine)
    requires EnvOk(env) && Ready(env, m) && rs1 != TP && rs2 != TP
    ensures m' == Exec(env.rom, Sub(env, rd, rs1, rs2), m) && m'.ok
    ensures Sets(m, m', rd, Minus(m.regs[rs1], m.regs[rs2]), {TP}) && OnlySlots(m, m', {3, VAR_C, VAR_D})
    ensures rd != SP ==> Ready(env, m')
  {
    hide Exec1, Plus, Wrap, Minus, WordIndex, EnvOk, StackOk, Split, Join;
    SubByComplement(m.regs[rs1], m.regs[rs2]);
    var m1 := DoNot(env, TP, rs2, m);
    var m2 := DoAdd(env, rd, rs1, TP, m1);
    m' := DoAddi(env, rd, rd, 1, m2);
    Exec3(env, Sub(env, rd, rs1, rs2), m);
  }

  // ---------- comparison ----------

  lemma DoSltOperands(env: Env, rs1: Reg, rs2: Reg, m: Machine) returns (m': Machine)
    requires Ready(env, m)
    ensures m' == Exec(env.rom, SltOperands(rs1, rs2), m) && Ready(env, m')
    ensures OnlyRegs(m, m', {S0, S1}) && OnlySlots(m, m', {1, 2, VAR_A})
    ensures m'.regs[S0] == m.regs[rs1] && m'.regs[S1] == m.regs[rs2]
    ensures Key(m, 1) in m'.ram && Key(m, 2) in m'.ram
    ensures m'.ram[Key(m, 1)] == Split(m.regs[S0]) && m'.ram[Key(m, 2)] == Split(m.regs[S1])
  {
    hide Exec1, Plus, Wrap, Minus, WordIndex, EnvOk, StackOk, Split, Join;
    var m1 := DoSaveWord(env, S0, 1, m);
    var m2 := DoSaveWord(env, S1, 2, m1);
    var m3 := DoSaveWord(env, rs2, VAR_A, m2);
    var m4 := DoAddi(env, S0, rs1, 0, m3);
    m' := DoLoadWord(env, S1, VAR_A, m4);
    Exec5(env, SltOperands(rs1, rs2), m);
  }

  lemma DoOperandSigns(env: Env, m: Machine) returns (m': Machine)
    requires Ready(env, m)
    ensures m' == Exec(env.rom, SltSigns(env).c1, m) && Ready(env, m')
    ensures OnlyRegs(m, m', {GP, TP}) && OnlySlots(m, m', {VAR_C})
    ensures m'.regs[GP] == 4 * SignBit(m.regs[S0]) + 2 * SignBit(m.regs[S1])
  {
    hide Exec1, Plus, Wrap, Minus, WordIndex, EnvOk, StackOk, Split, Join, SignBit;
    var m1 := DoMsb(env, GP, S0, m);
    var m2 := DoDouble(env, GP, m1);
    var m3 := DoMsb(env, TP, S1, m2);
    var m4 := DoAdd(env, GP, GP, TP, m3);
    m' := DoDouble(env, GP, m4);
    Exec5(env, SltSigns(env).c1, m);
  }

  /** gp = 4 * sign(s0) + 2 * sign(s1) + sign(s0 - s1). */
  lemma DoSltSigns(env: Env, m: Machine) returns (m': Machine)
    requires EnvOk(env) && Ready(env, m)
    ensures m' == Exec(env.rom, SltSigns(env), m) && Ready(env, m')
    ensures OnlyRegs(m, m', {GP, TP}) && OnlySlots(m, m', {3, VAR_C, VAR_D})
    ensures m'.regs[GP] == 4 * SignBit(m.regs[S0]) + 2 * SignBit(m.regs[S1])
                         + SignBit(Minus(m.regs[S0], m.regs[S1]))
  {
    hide Exec1, Plus, Wrap, Minus, WordIndex, EnvOk, StackOk, Split, Join, SignBit;
    var m5 := DoOperandSigns(env, m);
    var m6 := DoSub(env, TP, S0, S1, m5);
    var m7 := DoMsb(env, TP, TP, m6);
    m' := DoAdd(env, GP, GP, TP, m7);
    Exec2(env, SltSigns(env), m);
    Exec3(env, SltSigns(env).c2, m5);
  }

  /** The overflow-aware truth tables: index 4 * sign(a) + 2 * sign(b) + sign(a - b). */
  lemma SltTables(a: Word, b: Word)
    ensures var n := 4 * SignBit(a) + 2 * SignBit(b) + SignBit(Minus(a, b));
            && n < 8
            && SLT1[n] == (if Signed(a) < Signed(b) then 1 else 0)
            && SLTU1[n] == (if a < b then 1 else 0)
  {
    if a < b {
      assert Minus(a, b) == a - b + 0x1_0000_0000;
    } else {
      assert Minus(a, b) == a - b;
    }
  }

  /** Restores s1 and s0 from their slots. */
  lemma DoRestore(env: Env, s0: Word, s1: Word, m: Machine) returns (m': Machine)
    requires Ready(env, m)
    requires Key(m, 1) in m.ram && m.ram[Key(m, 1)] == Split(s0)
    requires Key(m, 2) in m.ram && m.ram[Key(m, 2)] == Split(s1)
    ensures m' == Exec(env.rom, Cat(LoadWord(S1, 2), LoadWord(S0, 1)), m) && Ready(env, m')
    ensures m'.regs == m.regs[S1 := s1][S0 := s0] && m'.ram == m.ram
  {
    hide Exec1, Plus, Wrap, Minus, WordIndex, EnvOk, Split, Join, StackOk;
    var m1 := DoLoadWord(env, S1, 2, m);
    m' := DoLoadWord(env, S0, 1, m1);
    Exec2(env, Cat(LoadWord(S1, 2), LoadWord(S0, 1)), m);
  }

  lemma DoSlt(env: Env, table: Word, bytes: seq<Byte>, rd: Reg, rs1: Reg, rs2: Reg, m: Machine)
    returns (m': Machine)
    requires EnvOk(env) && Ready(env, m) && BytesAt(env, table, bytes) && |bytes| == 8
    ensures m' == Exec(env.rom, SltTemplate(env, table, rd, rs1, rs2), m) && m'.ok
    ensures var n := 4 * SignBit(m.regs[rs1]) + 2 * SignBit(m.regs[rs2])
                   + SignBit(Minus(m.regs[rs1], m.regs[rs2]));
            Sets(m, m', rd, bytes[n], {GP, TP})
    ensures OnlySlots(m, m', {1, 2, 3, VAR_A, VAR_C, VAR_D})
    ensures rd != SP ==> Ready(env, m')
  {
    hide Exec1, Plus, Wrap, Minus, WordIndex, EnvOk, StackOk, Split, Join, SignBit, BytesAt;
    var m1 := DoSltOperands(env, rs1, rs2, m);
    var m2 := DoSltSigns(env, m1);
    SmallLookup(env, table, bytes, m2.regs[GP]);
    var m3 := DoLa(env, TP, table, m2);
    var m4 := DoAdd(env, TP, TP, GP, m3);
    var m5 := DoRestore(env, m.regs[S0], m.regs[S1], m4);
    m' := DoLoadRom(env, rd, TP, bytes[m2.regs[GP]], m5);
    Exec6(env, SltTemplate(env, table, rd, rs1, rs2), m);
  }

  // ---------- bitwise logic ----------

  /** One table lookup on byte k of the operands in A and B; the result byte goes to C. */
  lemma DoLogicByte(env: Env, op: BitOp, lut: Reg, k: int, a: Byte, b: Byte, m: Machine) returns (m': Machine)
    requires EnvOk(env) && Ready(env, m) && 0 <= k < 4 && lut != TP
    requires m.regs[lut] == LogicAddr(env, op)
    requires Key(m, VAR_A) in m.ram && a == Lane(m.ram[Key(m, VAR_A)], k)
    requires Key(m, VAR_B) in m.ram && b == Lane(m.ram[Key(m, VAR_B)], k)
    requires Key(m, VAR_D) in m.ram && m.ram[Key(m, VAR_D)].b2 == 0 && m.ram[Key(m, VAR_D)].b3 == 0
    ensures Key(m, VAR_C) in m.ram && Key(m, VAR_D) in m.ram
    ensures m' == Exec(env.rom, LogicByte(lut, k), m) && Ready(env, m')
    ensures OnlyRegs(m, m', {TP})
    ensures m'.ram == m.ram[Key(m, VAR_D) := Cell(b, a, 0, 0)]
                           [Key(m, VAR_C) := SetLane(m.ram[Key(m, VAR_C)], k, LogicEntry(op, a, b))]
  {
    hide Exec1, Plus, Wrap, Minus, WordIndex, EnvOk, Bitwise, Bitwise32, LogicEntry;
    SlotAddress(env, m, VAR_C, 0);
    LogicLookup(env, op, a, b);
    var c := LogicByte(lut, k);
    var m1 := DoLoadByte(env, TP, VAR_A, k, m);
    var m2 := DoSaveByte(env, TP, VAR_D, 1, m1);
    var m3 := DoLoadByte(env, TP, VAR_B, k, m2);
    var m4 := DoSaveByte(env, TP, VAR_D, 0, m3);
    assert m4.ram == m.ram[Key(m, VAR_D) := Cell(b, a, 0, 0)];
    var m5 := DoLoadWord(env, TP, VAR_D, m4);
    var m6 := DoAdd(env, TP, lut, TP, m5);
    var m7 := DoLoadRom(env, TP, TP, LogicEntry(op, a, b), m6);
    m' := DoSaveByte(env, TP, VAR_C, k, m7);
    Exec2(env, c, m);
    Exec4(env, c.c1, m);
    Exec4(env, c.c2, m4);
  }

  function Bitwise32(op: BitOp, x: Word, y: Word): Word {
    Pow2Values();
    Bitwise(op, 32, x, y)
  }

  /** Joining per-byte results gives the 32-bit operation. */
  lemma LogicByBytes(op: BitOp, x: Word, y: Word)
    ensures Join(Cell(LogicEntry(op, ByteOf(x, 0), ByteOf(y, 0)), LogicEntry(op, ByteOf(x, 1), ByteOf(y, 1)),
                      LogicEntry(op, ByteOf(x, 2), ByteOf(y, 2)), LogicEntry(op, ByteOf(x, 3), ByteOf(y, 3))))
         == Bitwise32(op, x, y)
  {
    hide Bitwise, Pow2;
    PeelByte(op, 24, x, y);
    PeelByte(op, 16, x / 0x100, y / 0x100);
    PeelByte(op, 8, x / 0x100 / 0x100, y / 0x100 / 0x100);
  }

  lemma PeelByte(op: BitOp, m: nat, x: Word, y: Word)
    ensures Bitwise(op, 8 + m, x, y) == LogicEntry(op, x % 0x100, y % 0x100) + 0x100 * Bitwise(op, m, x / 0x100, y / 0x100)
  {
    hide Bitwise, Pow2;
    Pow2Values();
    BitwiseSplit(op, 8, m, x, y);
    BitwiseLow(op, 8, x, y, x % 0x100, y % 0x100);
  }

  lemma DoLogicBytes(env: Env, op: BitOp, lut: Reg, x: Word, y: Word, m: Machine) returns (m': Machine)
    requires EnvOk(env) && Ready(env, m) && lut != TP
    requires m.regs[lut] == LogicAddr(env, op)
    requires Key(m, VAR_A) in m.ram && m.ram[Key(m, VAR_A)] == Split(x)
    requires Key(m, VAR_B) in m.ram && m.ram[Key(m, VAR_B)] == Split(y)
    requires Key(m, VAR_D) in m.ram && m.ram[Key(m, VAR_D)] == ZERO
    ensures m' == Exec(env.rom, Do4(LogicByte(lut, 3), LogicByte(lut, 2), LogicByte(lut, 1), LogicByte(lut, 0)), m)
    ensures Ready(env, m') && OnlyRegs(m, m', {TP}) && OnlySlots(m, m', {VAR_C, VAR_D})
    ensures Key(m, VAR_C) in m'.ram
    ensures Join(m'.ram[Key(m, VAR_C)]) == Bitwise32(op, x, y)
  {
    hide Exec1, Plus, Wrap, Minus, WordIndex, EnvOk, Bitwise, Bitwise32, LogicEntry;
    SlotAddress(env, m, VAR_C, 0);
    var m1 := DoLogicByte(env, op, lut, 3, ByteOf(x, 3), ByteOf(y, 3), m);
    var m2 := DoLogicByte(env, op, lut, 2, ByteOf(x, 2), ByteOf(y, 2), m1);
    var m3 := DoLogicByte(env, op, lut, 1, ByteOf(x, 1), ByteOf(y, 1), m2);
    m' := DoLogicByte(env, op, lut, 0, ByteOf(x, 0), ByteOf(y, 0), m3);
    Exec4(env, Do4(LogicByte(lut, 3), LogicByte(lut, 2), LogicByte(lut, 1), LogicByte(lut, 0)), m);
    LogicByBytes(op, x, y);
  }

  lemma DoLogic(env: Env, op: BitOp, rd: Reg, rs1: Reg, rs2: Reg, m: Machine) returns (m': Machine)
    requires EnvOk(env) && Ready(env, m)
    requires rd != 0 ==> rd != SP && rd != TP && rd != GP
    ensures m' == Exec(env.rom, Logic(env, op, rd, rs1, rs2), m) && Ready(env, m') && m'.ok
    ensures Sets(m, m', rd, Bitwise32(op, m.regs[rs1], m.regs[rs2]), {TP})
    ensures OnlySlots(m, m', {VAR_A, VAR_B, VAR_C, VAR_D})
  {
    hide Exec1, Plus, Wrap, Minus, WordIndex, EnvOk, StackOk, Split, Join, LogicByte, La, Bitwise, Bitwise32;
    if rd == 0 {
      m' := m;
      return;
    }
    LogicAddrFits(env, op);
    var m4 := DoLogicSaves(env, op, rd, rs1, rs2, m);
    var m5 := DoLogicBytes(env, op, rd, m.regs[rs1], m.regs[rs2], m4);
    m' := DoLoadWord(env, rd, VAR_C, m5);
    Exec3(env, Logic(env, op, rd, rs1, rs2), m);
  }

  lemma LogicAddrFits(env: Env, op: BitOp)
    requires EnvOk(env)
    ensures 0 <= LogicAddr(env, op) < 0x1_0000_0000
  {
    LogicLookup(env, op, 0, 0);
  }

  lemma DoLogicSaves(env: Env, op: BitOp, rd: Reg, rs1: Reg, rs2: Reg, m: Machine) returns (m': Machine)
    requires EnvOk(env) && Ready(env, m) && rd != 0 && rd != SP && 0 <= LogicAddr(env, op) < 0x1_0000_0000
    ensures m' == Exec(env.rom, Do4(SaveWord(rs1, VAR_A), SaveWord(rs2, VAR_B), La(rd, LogicAddr(env, op)),
                                    SaveWord(0, VAR_D)), m)
    ensures Ready(env, m') && m'.regs == Put(m.regs, rd, LogicAddr(env, op)) && OnlySlots(m, m', {VAR_A, VAR_B, VAR_D})
    ensures Key(m, VAR_A) in m'.ram && m'.ram[Key(m, VAR_A)] == Split(m.regs[rs1])
    ensures Key(m, VAR_B) in m'.ram && m'.ram[Key(m, VAR_B)] == Split(m.regs[rs2])
    ensures Key(m, VAR_D) in m'.ram && m'.ram[Key(m, VAR_D)] == ZERO
  {
    hide Exec1, Plus, Wrap, Minus, WordIndex, EnvOk, StackOk, Split, Join, La, Bitwise;
    var m1 := DoSaveWord(env, rs1, VAR_A, m);
    var m2 := DoSaveWord(env, rs2, VAR_B, m1);
    var m3 := DoLa(env, rd, LogicAddr(env, op), m2);
    m' := DoClear(env, VAR_D, m3);
    Exec4(env, Do4(SaveWord(rs1, VAR_A), SaveWord(rs2, VAR_B), La(rd, LogicAddr(env, op)), SaveWord(0, VAR_D)), m);
  }

  // ---------- equality ----------

  /** Memory changed at most in the listed slots and in the scratch array. */
  ghost predicate OnlyScratch(env: Env, m: Machine, m': Machine, ns: set<int>) {
    && m'.ram.Keys == m.ram.Keys
    && forall k | k in m.ram && Key(m, 0) - k !in ns && !InArray(env, k) :: m'.ram[k] == m.ram[k]
  }

  lemma SlotsStay(env: Env, m: Machine, m': Machine)
    requires Ready(env, m) && OnlyScratch(env, m, m', {}) && m.regs[SP] == m'.regs[SP]
    ensures forall n | 1 <= n <= 7 :: Key(m, n) in m.ram && m'.ram[Key(m, n)] == m.ram[Key(m, n)]
  {
    forall n | 1 <= n <= 7
      ensures Key(m, n) in m.ram && m'.ram[Key(m, n)] == m.ram[Key(m, n)]
    {
      assert SlotFree(env, m.regs[SP], n);
    }
  }

  lemma ArrayAddress(env: Env, m: Machine, r: Reg, i: Byte)
    requires EnvOk(env) && m.ram.Keys == env.ramKeys && m.regs[r] == env.arr + i
    ensures Plus(m.regs[r], 0) == env.arr + i
    ensures InArray(env, (env.arr + i) / 4) && (env.arr + i) / 4 in m.ram
  {
  }

  lemma DoMark(env: Env, v: Reg, r: Reg, i: Byte, m: Machine) returns (m': Machine)
    requires EnvOk(env) && Ready(env, m) && m.regs[r] == env.arr + i
    ensures (env.arr + i) / 4 in m.ram && InArray(env, (env.arr + i) / 4)
    ensures m' == Exec(env.rom, Op(Sb(v, r, 0)), m) && Ready(env, m')
    ensures m'.regs == m.regs
    ensures var k := (env.arr + i) / 4;
            m'.ram == m.ram[k := SetLane(m.ram[k], (env.arr + i) % 4, m.regs[v] % 0x100)]
  {
    ArrayAddress(env, m, r, i);
    m' := Exec(env.rom, Op(Sb(v, r, 0)), m);
  }

  lemma DoLookAt(env: Env, rd: Reg, r: Reg, i: Byte, m: Machine) returns (m': Machine)
    requires EnvOk(env) && Ready(env, m) && m.regs[r] == env.arr + i && rd != SP
    ensures (env.arr + i) / 4 in m.ram
    ensures m' == Exec(env.rom, Op(Lbu(rd, r, 0)), m) && Ready(env, m')
    ensures m'.regs == Put(m.regs, rd, Lane(m.ram[(env.arr + i) / 4], (env.arr + i) % 4)) && m'.ram == m.ram
  {
    ArrayAddress(env, m, r, i);
    m' := Exec(env.rom, Op(Lbu(rd, r, 0)), m);
  }

  /** Entry i of the scratch array set to v. */
  function Marked(env: Env, ram: map<int, Cell>, i: Byte, v: Byte): map<int, Cell>
    requires (env.arr + i) / 4 in ram
  {
    var k := (env.arr + i) / 4;
    ram[k := SetLane(ram[k], (env.arr + i) % 4, v)]
  }

  /** Marking entry a, clearing entry b and reading entry a again tells whether a and b differ. */
  lemma MarkThenClear(env: Env, ram: map<int, Cell>, a: Byte, b: Byte)
    requires (env.arr + a) / 4 in ram && (env.arr + b) / 4 in ram
    ensures Lane(Marked(env, Marked(env, ram, a, 1), b, 0)[(env.arr + a) / 4], (env.arr + a) % 4)
         == if a == b then 0 else 1
  {
  }

  lemma DoMarkA(env: Env, rd: Reg, k: int, m: Machine) returns (m': Machine)
    requires EnvOk(env) && Ready(env, m) && 0 <= k < 4
    requires rd != 0 && rd != SP && rd != TP && rd != S0 && m.regs[S0] == env.arr
    ensures Key(m, VAR_A) in m.ram
    ensures var a := Lane(m.ram[Key(m, VAR_A)], k);
            && m' == Exec(env.rom, SameByte(S0, rd, k).c1, m) && Ready(env, m')
            && OnlyRegs(m, m', {TP, rd}) && m'.regs[TP] == env.arr + a
            && (env.arr + a) / 4 in m.ram && InArray(env, (env.arr + a) / 4)
            && m'.ram == Marked(env, m.ram, a, 1)
  {
    hide Exec1, Plus, Wrap, Minus, WordIndex, EnvOk;
    SlotAddress(env, m, VAR_A, 0);
    ArrayInRange(env);
    var a := Lane(m.ram[Key(m, VAR_A)], k);
    var m1 := DoLoadByte(env, rd, VAR_A, k, m);
    var m2 := DoAdd(env, TP, S0, rd, m1);
    var m3 := DoAddi(env, rd, 0, 1, m2);
    m' := DoMark(env, rd, TP, a, m3);
    Exec4(env, SameByte(S0, rd, k).c1, m);
  }

  lemma DoClearB(env: Env, rd: Reg, k: int, a: Byte, m: Machine) returns (m': Machine)
    requires EnvOk(env) && Ready(env, m) && 0 <= k < 4
    requires rd != 0 && rd != SP && rd != TP && rd != S0 && m.regs[S0] == env.arr
    requires m.regs[TP] == env.arr + a
    ensures Key(m, VAR_B) in m.ram
    ensures var b := Lane(m.ram[Key(m, VAR_B)], k);
            && m' == Exec(env.rom, SameByte(S0, rd, k).c2, m) && Ready(env, m')
            && OnlyRegs(m, m', {rd})
            && (env.arr + b) / 4 in m.ram && InArray(env, (env.arr + b) / 4)
            && m'.ram == Marked(env, m.ram, b, 0)
            && (env.arr + a) / 4 in m'.ram
            && m'.regs[rd] == Lane(m'.ram[(env.arr + a) / 4], (env.arr + a) % 4)
  {
    hide Exec1, Plus, Wrap, Minus, WordIndex, EnvOk;
    SlotAddress(env, m, VAR_B, 0);
    ArrayInRange(env);
    var b := Lane(m.ram[Key(m, VAR_B)], k);
    var m1 := DoLoadByte(env, rd, VAR_B, k, m);
    var m2 := DoAdd(env, rd, S0, rd, m1);
    var m3 := DoMark(env, 0, rd, b, m2);
    m' := DoLookAt(env, rd, TP, a, m3);
    Exec4(env, SameByte(S0, rd, k).c2, m);
  }

  lemma DoSameByte(env: Env, rd: Reg, k: int, m: Machine) returns (m': Machine)
    requires EnvOk(env) && Ready(env, m) && 0 <= k < 4
    requires rd != 0 && rd != SP && rd != TP && rd != S0 && m.regs[S0] == env.arr
    ensures Key(m, VAR_A) in m.ram && Key(m, VAR_B) in m.ram
    ensures m' == Exec(env.rom, SameByte(S0, rd, k), m) && Ready(env, m')
    ensures OnlyRegs(m, m', {TP, rd}) && OnlyScratch(env, m, m', {})
    ensures m'.regs[rd] == if Lane(m.ram[Key(m, VAR_A)], k) == Lane(m.ram[Key(m, VAR_B)], k) then 0 else 1
  {
    hide Exec1, Plus, Wrap, Minus, WordIndex, EnvOk, StackOk;
    SlotAddress(env, m, VAR_A, 0);
    SlotAddress(env, m, VAR_B, 0);
    var a, b := Lane(m.ram[Key(m, VAR_A)], k), Lane(m.ram[Key(m, VAR_B)], k);
    var m1 := DoMarkA(env, rd, k, m);
    SlotsStay(env, m, m1);
    m' := DoClearB(env, rd, k, a, m1);
    MarkThenClear(env, m.ram, a, b);
    Exec2(env, SameByte(S0, rd, k), m);
  }

  lemma ArrayInRange(env: Env)
    requires EnvOk(env)
    ensures env.arr + 256 <= 0x1_0000_0000
  {
  }

  /** Adds the flag of one more byte to gp. */
  lemma DoSameNext(env: Env, k: int, m: Machine) returns (m': Machine)
    requires EnvOk(env) && Ready(env, m) && 0 <= k < 4
    requires m.regs[S0] == env.arr && m.regs[GP] <= 3
    ensures Key(m, VAR_A) in m.ram && Key(m, VAR_B) in m.ram
    ensures m' == Exec(env.rom, Cat(SameByte(S0, S1, k), Op(Add(GP, GP, S1))), m) && Ready(env, m')
    ensures OnlyRegs(m, m', {TP, GP, S1}) && OnlyScratch(env, m, m', {})
    ensures m'.regs[GP] == m.regs[GP]
          + if Lane(m.ram[Key(m, VAR_A)], k) == Lane(m.ram[Key(m, VAR_B)], k) then 0 else 1
  {
    hide Exec1, Plus, Wrap, Minus, WordIndex, EnvOk;
    var m1 := DoSameByte(env, S1, k, m);
    m' := DoAdd(env, GP, GP, S1, m1);
    Exec2(env, Cat(SameByte(S0, S1, k), Op(Add(GP, GP, S1))), m);
  }

  function Differ(x: Word, y: Word): nat {
    (if ByteOf(x, 0) == ByteOf(y, 0) then 0 else 1) + (if ByteOf(x, 1) == ByteOf(y, 1) then 0 else 1)
    + (if ByteOf(x, 2) == ByteOf(y, 2) then 0 else 1) + (if ByteOf(x, 3) == ByteOf(y, 3) then 0 else 1)
  }

  lemma DifferZero(x: Word, y: Word)
    ensures Differ(x, y) <= 4 && (Differ(x, y) == 0 <==> x == y)
  {
    assert x == Join(Split(x)) && y == Join(Split(y));
  }

  lemma DoCompareBytes(env: Env, x: Word, y: Word, m: Machine) returns (m': Machine)
    requires EnvOk(env) && Ready(env, m) && m.regs[S0] == env.arr
    requires Key(m, VAR_A) in m.ram && m.ram[Key(m, VAR_A)] == Split(x)
    requires Key(m, VAR_B) in m.ram && m.ram[Key(m, VAR_B)] == Split(y)
    ensures m' == Exec(env.rom, Do4(SameByte(S0, GP, 0),
                                    Cat(SameByte(S0, S1, 1), Op(Add(GP, GP, S1))),
                                    Cat(SameByte(S0, S1, 2), Op(Add(GP, GP, S1))),
                                    Cat(SameByte(S0, S1, 3), Op(Add(GP, GP, S1)))), m)
    ensures Ready(env, m') && OnlyRegs(m, m', {TP, GP, S1}) && OnlyScratch(env, m, m', {})
    ensures m'.regs[GP] == Differ(x, y)
  {
    hide Exec1, Plus, Wrap, Minus, WordIndex, EnvOk, Split, StackOk;
    var m1 := DoSameByte(env, GP, 0, m);
    SlotsStay(env, m, m1);
    var m2 := DoSameNext(env, 1, m1);
    SlotsStay(env, m1, m2);
    var m3 := DoSameNext(env, 2, m2);
    SlotsStay(env, m2, m3);
    m' := DoSameNext(env, 3, m3);
    Exec4(env, Do4(SameByte(S0, GP, 0),
                   Cat(SameByte(S0, S1, 1), Op(Add(GP, GP, S1))),
                   Cat(SameByte(S0, S1, 2), Op(Add(GP, GP, S1))),
                   Cat(SameByte(S0, S1, 3), Op(Add(GP, GP, S1)))), m);
  }

  /** Reads the answer for n differing bytes. */
  lemma DoSameResult(env: Env, rd: Reg, m: Machine) returns (m': Machine)
    requires EnvOk(env) && Ready(env, m) && m.regs[GP] <= 4
    ensures m' == Exec(env.rom, Do3(La(TP, env.same), Op(Add(TP, TP, GP)), Op(Lbu(rd, TP, 0))), m)
    ensures m'.ok && (rd != SP ==> Ready(env, m'))
    ensures Sets(m, m', rd, if m.regs[GP] == 0 then 1 else 0, {TP}) && m'.ram == m.ram
  {
    hide Exec1, Plus, Wrap, Minus, WordIndex, EnvOk, StackOk, Split, Join;
    EnvTables(env);
    SmallLookup(env, env.same, SAME_RESULT, m.regs[GP]);
    var m1 := DoLa(env, TP, env.same, m);
    var m2 := DoAdd(env, TP, TP, GP, m1);
    m' := DoLoadRom(env, rd, TP, SAME_RESULT[m.regs[GP]], m2);
    Exec3(env, Do3(La(TP, env.same), Op(Add(TP, TP, GP)), Op(Lbu(rd, TP, 0))), m);
  }

  lemma DoEqualSaves(env: Env, rs1: Reg, rs2: Reg, m: Machine) returns (m': Machine)
    requires EnvOk(env) && Ready(env, m)
    ensures m' == Exec(env.rom, Do5(SaveWord(rs1, VAR_A), SaveWord(rs2, VAR_B), SaveWord(S0, 1), SaveWord(S1, 2),
                                    La(S0, env.arr)), m)
    ensures Ready(env, m') && m'.regs == Put(m.regs, S0, env.arr) && OnlySlots(m, m', {1, 2, VAR_A, VAR_B})
    ensures Key(m, VAR_A) in m'.ram && m'.ram[Key(m, VAR_A)] == Split(m.regs[rs1])
    ensures Key(m, VAR_B) in m'.ram && m'.ram[Key(m, VAR_B)] == Split(m.regs[rs2])
    ensures Key(m, 1) in m'.ram && m'.ram[Key(m, 1)] == Split(m.regs[S0])
    ensures Key(m, 2) in m'.ram && m'.ram[Key(m, 2)] == Split(m.regs[S1])
  {
    hide Exec1, Plus, Wrap, Minus, WordIndex, EnvOk, Split, StackOk;
    var m1 := DoSaveWord(env, rs1, VAR_A, m);
    var m2 := DoSaveWord(env, rs2, VAR_B, m1);
    var m3 := DoSaveWord(env, S0, 1, m2);
    var m4 := DoSaveWord(env, S1, 2, m3);
    m' := DoLa(env, S0, env.arr, m4);
    Exec5(env, Do5(SaveWord(rs1, VAR_A), SaveWord(rs2, VAR_B), SaveWord(S0, 1), SaveWord(S1, 2), La(S0, env.arr)), m);
  }

  lemma DoSetEqual(env: Env, rd: Reg, rs1: Reg, rs2: Reg, m: Machine) returns (m': Machine)
    requires EnvOk(env) && Ready(env, m) && rd != SP && rd != S0 && rd != S1
    ensures m' == Exec(env.rom, SetEqual(env, rd, rs1, rs2), m) && Ready(env, m')
    ensures Sets(m, m', rd, if m.regs[rs1] == m.regs[rs2] then 1 else 0, {TP, GP})
    ensures OnlyScratch(env, m, m', {1, 2, VAR_A, VAR_B})
  {
    hide Exec1, Plus, Wrap, Minus, WordIndex, EnvOk, Split, StackOk;
    var x, y := m.regs[rs1], m.regs[rs2];
    var m1 := DoEqualSaves(env, rs1, rs2, m);
    var m2 := DoCompareBytes(env, x, y, m1);
    SlotsStay(env, m1, m2);
    assert m2.ram[Key(m1, 1)] == m1.ram[Key(m1, 1)] && m2.ram[Key(m1, 2)] == m1.ram[Key(m1, 2)];
    DifferZero(x, y);
    var m3 := DoSameResult(env, rd, m2);
    m' := DoRestore(env, m.regs[S0], m.regs[S1], m3);
    Exec4(env, SetEqual(env, rd, rs1, rs2), m);
  }

  // ---------- test for zero ----------

  lemma ZeroLookup(env: Env, n: Byte)
    requires EnvOk(env)
    ensures env.zero8 + n < 0x1_0000_0000 && RomByte(env, env.zero8 + n, NonZero(n))
  {
  }

  lemma DoZeroByte(env: Env, rd: Reg, k: int, m: Machine) returns (m': Machine)
    requires EnvOk(env) && Ready(env, m) && 0 <= k < 4
    requires rd != 0 && rd != SP && rd != S0 && m.regs[S0] == env.zero8
    ensures Key(m, VAR_A) in m.ram
    ensures m' == Exec(env.rom, ZeroByte(S0, rd, k), m) && Ready(env, m')
    ensures m'.regs == Put(m.regs, rd, NonZero(Lane(m.ram[Key(m, VAR_A)], k))) && m'.ram == m.ram
  {
    hide Exec1, Plus, Wrap, Minus, WordIndex, EnvOk;
    SlotAddress(env, m, VAR_A, 0);
    var b := Lane(m.ram[Key(m, VAR_A)], k);
    ZeroLookup(env, b);
    var m1 := DoLoadByte(env, rd, VAR_A, k, m);
    var m2 := DoAdd(env, rd, S0, rd, m1);
    m' := DoLoadRom(env, rd, rd, NonZero(b), m2);
    Exec3(env, ZeroByte(S0, rd, k), m);
  }

  lemma DoZeroNext(env: Env, k: int, m: Machine) returns (m': Machine)
    requires EnvOk(env) && Ready(env, m) && 0 <= k < 4
    requires m.regs[S0] == env.zero8 && m.regs[GP] <= 3
    ensures Key(m, VAR_A) in m.ram
    ensures m' == Exec(env.rom, Cat(ZeroByte(S0, TP, k), Op(Add(GP, GP, TP))), m) && Ready(env, m')
    ensures OnlyRegs(m, m', {TP, GP}) && m'.ram == m.ram
    ensures m'.regs[GP] == m.regs[GP] + NonZero(Lane(m.ram[Key(m, VAR_A)], k))
  {
    hide Exec1, Plus, Wrap, Minus, WordIndex, EnvOk;
    var m1 := DoZeroByte(env, TP, k, m);
    m' := DoAdd(env, GP, GP, TP, m1);
    Exec2(env, Cat(ZeroByte(S0, TP, k), Op(Add(GP, GP, TP))), m);
  }

  function NonZeros(x: Word): nat {
    NonZero(ByteOf(x, 0)) + NonZero(ByteOf(x, 1)) + NonZero(ByteOf(x, 2)) + NonZero(ByteOf(x, 3))
  }

  lemma NonZerosZero(x: Word)
    ensures NonZeros(x) <= 4 && (NonZeros(x) == 0 <==> x == 0)
  {
    hide Split, Join;
    JoinZero(Split(x));
  }

  lemma JoinZero(c: Cell)
    ensures Join(c) == 0 <==> c == ZERO
  {
  }

  lemma DoZeroBytes(env: Env, x: Word, m: Machine) returns (m': Machine)
    requires EnvOk(env) && Ready(env, m) && m.regs[S0] == env.zero8
    requires Key(m, VAR_A) in m.ram && m.ram[Key(m, VAR_A)] == Split(x)
    ensures m' == Exec(env.rom, Do4(ZeroByte(S0, GP, 0),
                                    Cat(ZeroByte(S0, TP, 1), Op(Add(GP, GP, TP))),
                                    Cat(ZeroByte(S0, TP, 2), Op(Add(GP, GP, TP))),
                                    Cat(ZeroByte(S0, TP, 3), Op(Add(GP, GP, TP)))), m)
    ensures Ready(env, m') && OnlyRegs(m, m', {TP, GP}) && m'.ram == m.ram
    ensures m'.regs[GP] == NonZeros(x)
  {
    hide Exec1, Plus, Wrap, Minus, WordIndex, EnvOk, StackOk, Lane;
    var m1 := DoZeroByte(env, GP, 0, m);
    var m2 := DoZeroNext(env, 1, m1);
    var m3 := DoZeroNext(env, 2, m2);
    m' := DoZeroNext(env, 3, m3);
    Exec4(env, Do4(ZeroByte(S0, GP, 0),
                   Cat(ZeroByte(S0, TP, 1), Op(Add(GP, GP, TP))),
                   Cat(ZeroByte(S0, TP, 2), Op(Add(GP, GP, TP))),
                   Cat(ZeroByte(S0, TP, 3), Op(Add(GP, GP, TP)))), m);
  }

  /** With s0 as destination the answer is overwritten by the restored s0. */
  lemma DoSetZero(env: Env, rd: Reg, rs1: Reg, m: Machine) returns (m': Machine)
    requires EnvOk(env) && Ready(env, m) && rd != SP
    ensures m' == Exec(env.rom, SetZero(env, rd, rs1), m) && Ready(env, m')
    ensures rd != S0 ==> Sets(m, m', rd, if m.regs[rs1] == 0 then 1 else 0, {TP, GP})
    ensures rd == S0 ==> OnlyRegs(m, m', {TP, GP})
    ensures OnlySlots(m, m', {1, VAR_A})
  {
    hide Exec1, Plus, Wrap, Minus, WordIndex, EnvOk, Split, StackOk;
    var c := SetZero(env, rd, rs1);
    var x := m.regs[rs1];
    var m1 := DoSaveWord(env, rs1, VAR_A, m);
    var m2 := DoSaveWord(env, S0, 1, m1);
    var m3 := DoLa(env, S0, env.zero8, m2);
    var m4 := DoZeroBytes(env, x, m3);
    NonZerosZero(x);
    var m5 := DoSameResult(env, rd, m4);
    m' := DoLoadWord(env, S0, 1, m5);
    Exec4(env, c, m);
    Exec3(env, c.c1, m);
  }
}
