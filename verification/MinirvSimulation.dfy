/** The lowering preserves meaning: the expanded program simulates the source program. */
module MinirvSimulation {
  import opened Bits
  import opened MinirvMachine
  import opened MinirvTables
  import opened MinirvMacros
  import opened MinirvShifts
  import opened MinirvEffects
  import opened MinirvShiftEffects
  import opened MinirvSource

  // ---------- the simulation relation ----------

  predicate AgreeRegs(rs: Regs, rt: Regs) {
    forall r: Reg | Usable(r) :: rs[r] == rt[r]
  }

  /** Every byte with a value in the source has that value in the base machine. */
  predicate AgreeMem(env: Env, mem: map<int, Byte>, ram: map<int, Cell>) {
    forall a | a in mem :: UserWord(env, a / 4) && a / 4 in ram && Lane(ram[a / 4], a % 4) == mem[a]
  }

  ghost predicate AgreeData(env: Env, regs: Regs, mem: map<int, Byte>, t: Machine) {
    t.ok && t.ram.Keys == env.ramKeys && AgreeRegs(regs, t.regs) && AgreeMem(env, mem, t.ram)
  }

  ghost predicate Related(p: Program, s: Source, t: Machine)
    requires Loadable(p)
  {
    && s.pc <= |p.instrs| && t.pc == Addr(p, s.pc)
    && AgreeData(p.env, s.regs, s.mem, t)
  }

  const SLOTS: set<int> := {1, 2, 3, 4, 5, 6, 7}

  /** Macros with scratch effects only leave every live byte alone. */
  lemma LiveAgree(env: Env, s: Source, t: Machine, t': Machine)
    requires AgreeData(env, s.regs, s.mem, t) && OnlyScratch(env, t, t', SLOTS)
    ensures AgreeMem(env, Live(s.mem, s.regs[SP]), t'.ram)
  {
    var mem := Live(s.mem, s.regs[SP]);
    forall a | a in mem
      ensures UserWord(env, a / 4) && a / 4 in t'.ram && Lane(t'.ram[a / 4], a % 4) == mem[a]
    {
      assert Key(t, 0) - a / 4 !in SLOTS;
    }
  }

  lemma AgreeReady(env: Env, s: Source, t: Machine)
    requires AgreeData(env, s.regs, s.mem, t) && StackOk(env, s.regs[SP])
    ensures Ready(env, t)
  {
    assert s.regs[SP] == t.regs[SP] by {
      assert Usable(SP);
    }
  }

  /** A macro that computes v into rd does what an instruction computing v into rd does. */
  lemma Computes(env: Env, s: Source, t: Machine, t': Machine, rd: Reg, v: Word)
    requires AgreeData(env, s.regs, s.mem, t) && t'.ok
    requires Sets(t, t', rd, v, {GP, TP}) && OnlyScratch(env, t, t', SLOTS)
    ensures AgreeData(env, Put(s.regs, rd, v), Live(s.mem, s.regs[SP]), t')
  {
    LiveAgree(env, s, t, t');
  }

  // ---------- instructions kept as they are ----------

  lemma Put4(mem: map<int, Byte>, ram: map<int, Cell>, env: Env, a: int, x: Word)
    requires AgreeMem(env, mem, ram) && a % 4 == 0 && UserWord(env, a / 4) && a / 4 in ram
    ensures AgreeMem(env, PutWord(mem, a, x), ram[a / 4 := Split(x)])
  {
    hide Split, UserWord;
    var mem', ram' := PutWord(mem, a, x), ram[a / 4 := Split(x)];
    forall b | b in mem'
      ensures UserWord(env, b / 4) && b / 4 in ram' && Lane(ram'[b / 4], b % 4) == mem'[b]
    {
      if b / 4 == a / 4 {
        assert b == a + b % 4;
      } else {
        assert b in mem && mem'[b] == mem[b];
      }
    }
  }

  lemma Put1(mem: map<int, Byte>, ram: map<int, Cell>, env: Env, a: int, v: Byte)
    requires AgreeMem(env, mem, ram) && UserWord(env, a / 4) && a / 4 in ram
    ensures AgreeMem(env, mem[a := v], ram[a / 4 := SetLane(ram[a / 4], a % 4, v)])
  {
    hide UserWord;
    var mem', ram' := mem[a := v], ram[a / 4 := SetLane(ram[a / 4], a % 4, v)];
    forall b | b in mem'
      ensures UserWord(env, b / 4) && b / 4 in ram' && Lane(ram'[b / 4], b % 4) == mem'[b]
    {
      if b / 4 == a / 4 && b % 4 == a % 4 {
        assert b == a;
      }
    }
  }

  lemma WordAgrees(env: Env, mem: map<int, Byte>, ram: map<int, Cell>, a: int)
    requires AgreeMem(env, mem, ram) && WordAt(mem, a).Some?
    ensures a / 4 in ram && Join(ram[a / 4]) == WordAt(mem, a).value
  {
    hide UserWord;
    assert (a + 1) / 4 == a / 4 && (a + 2) / 4 == a / 4 && (a + 3) / 4 == a / 4;
    assert a % 4 == 0 && (a + 1) % 4 == 1 && (a + 2) % 4 == 2 && (a + 3) % 4 == 3;
    var c := ram[a / 4];
    assert c == Cell(mem[a], mem[a + 1], mem[a + 2], mem[a + 3]);
  }

  lemma SimBase(env: Env, s: Source, t: Machine, b: Base)
    requires AgreeData(env, s.regs, s.mem, t) && BaseOperandsOk(b) && StepBase(env, s, b).Some?
    ensures var s', t' := StepBase(env, s, b).value, Exec(env.rom, Op(b), t);
            s'.pc == s.pc + 1 && AgreeData(env, s'.regs, s'.mem, t')
  {
    hide Join, Split, Lane, SetLane, UserWord;
    LiveAgree(env, s, t, t);
    var mem := Live(s.mem, s.regs[SP]);
    match b
    case Add(rd, rs1, rs2) =>
    case Addi(rd, rs1, imm) =>
    case Lui(rd, imm) =>
    case Lw(rd, rs1, imm) => WordAgrees(env, mem, t.ram, Plus(s.regs[rs1], imm));
    case Lbu(rd, rs1, imm) =>
    case Sw(rs2, rs1, imm) => SimStore(env, s, t, b);
    case Sb(rs2, rs1, imm) => SimStore(env, s, t, b);
  }

  lemma SimStore(env: Env, s: Source, t: Machine, b: Base)
    requires b.Sw? || b.Sb?
    requires AgreeData(env, s.regs, s.mem, t) && BaseOperandsOk(b) && StepBase(env, s, b).Some?
    ensures var s', t' := StepBase(env, s, b).value, Exec(env.rom, Op(b), t);
            s'.pc == s.pc + 1 && AgreeData(env, s'.regs, s'.mem, t')
  {
    hide Join, Split, Lane, SetLane;
    LiveAgree(env, s, t, t);
    var mem := Live(s.mem, s.regs[SP]);
    var a := Plus(s.regs[b.rs1], b.imm);
    assert Usable(b.rs1) && Usable(b.rs2);
    if b.Sw? {
      Put4(mem, t.ram, env, a, s.regs[b.rs2]);
    } else {
      Put1(mem, t.ram, env, a, s.regs[b.rs2] % 0x100);
    }
  }

  // ---------- arithmetic ----------

  lemma DoAlu(env: Env, op: AluOp, rd: Reg, rs1: Reg, rs2: Reg, m: Machine) returns (m': Machine)
    requires EnvOk(env) && Ready(env, m) && Usable(rd) && Usable(rs1)
    requires rs2 != GP && (op.SubOp? || op.ShiftOp? ==> rs2 != TP)
    requires op.LogicOp? && rd != 0 ==> rd != SP
    ensures m' == Exec(env.rom, ExpandAlu(env, op, rd, rs1, rs2), m) && m'.ok
    ensures Sets(m, m', rd, AluValue(op, m.regs[rs1], m.regs[rs2]), {GP, TP})
    ensures OnlySlots(m, m', SLOTS)
  {
    hide Exec, Plus, Wrap, Minus, WordIndex, EnvOk, Ready, SltTemplate, ShiftLeft, ShiftRight, Logic, Sub, Shl, Shr, Bitwise32;
    match op
    case SubOp => m' := DoSub(env, rd, rs1, rs2, m);
    case SltOp =>
      EnvTables(env);
      SltTables(m.regs[rs1], m.regs[rs2]);
      m' := DoSlt(env, env.slt1, SLT1, rd, rs1, rs2, m);
    case SltuOp =>
      EnvTables(env);
      SltTables(m.regs[rs1], m.regs[rs2]);
      m' := DoSlt(env, env.sltu1, SLTU1, rd, rs1, rs2, m);
    case LogicOp(b) => m' := DoLogic(env, b, rd, rs1, rs2, m);
    case ShiftOp(kind) =>
      if kind == Sll {
        m' := DoShiftLeft(env, rd, rs1, rs2, m);
      } else {
        m' := DoShiftRight(env, kind == Sra, rd, rs1, rs2, m);
      }
  }

  lemma ShiftAmount(imm: int)
    requires 0 <= imm < 32
    ensures Wrap(imm) % 32 == imm
  {
  }

  lemma DoAluImm(env: Env, op: AluOp, rd: Reg, rs1: Reg, imm: int, m: Machine) returns (m': Machine)
    requires EnvOk(env) && Ready(env, m) && OperandsOk(AluImm(op, rd, rs1, imm))
    ensures m' == Exec(env.rom, ExpandAluImm(env, op, rd, rs1, imm), m) && m'.ok
    ensures Sets(m, m', rd, AluValue(op, m.regs[rs1], Wrap(imm)), {GP, TP})
    ensures OnlySlots(m, m', SLOTS)
  {
    hide Exec1, Wrap, Minus, WordIndex, EnvOk, StackOk, ExpandAlu, ShiftRightImm, Slli, Shl, Shr, Bitwise32;
    if op.ShiftOp? {
      ShiftAmount(imm);
      if op.kind == Sll {
        m' := DoSlli(env, rd, rs1, imm, m);
      } else {
        m' := DoShiftRightImm(env, op.kind == Sra, rd, rs1, imm, m);
      }
    } else {
      var m1 := DoAddi(env, TP, 0, imm, m);
      m' := DoAlu(env, op, rd, rs1, TP, m1);
      Exec2(env, ExpandAluImm(env, op, rd, rs1, imm), m);
    }
  }

  // ---------- narrow memory accesses ----------

  /** Byte a of user memory is b, and the macros' scratch slots do not touch it. */
  ghost predicate UserByte(env: Env, m: Machine, a: int, b: Byte) {
    a / 4 in m.ram && UserWord(env, a / 4) && !InRed(m.regs[SP], a) && Lane(m.ram[a / 4], a % 4) == b
  }

  lemma UserByteStays(env: Env, m: Machine, m': Machine, a: int, b: Byte)
    requires UserByte(env, m, a, b) && OnlySlots(m, m', SLOTS) && m'.regs[SP] == m.regs[SP]
    ensures UserByte(env, m', a, b)
  {
    assert Key(m, 0) - a / 4 !in SLOTS;
  }

  lemma DoUserByte(env: Env, rd: Reg, rs1: Reg, off: int, b: Byte, m: Machine) returns (m': Machine)
    requires m.ok && UserByte(env, m, Plus(m.regs[rs1], off), b)
    ensures m' == Exec(env.rom, Op(Lbu(rd, rs1, off)), m) && m'.ok && m'.ram == m.ram
    ensures m'.regs == Put(m.regs, rd, b)
    ensures rd != SP && Ready(env, m) ==> Ready(env, m')
  {
    m' := Exec(env.rom, Op(Lbu(rd, rs1, off)), m);
  }

  lemma SignedTop8(b: Byte)
    ensures Shr(true, Join(Cell(0, 0, 0, b)), 24) == SignExtend8(b)
  {
    hide Pow2;
    Pow2Values();
  }

  /** Sign extension of a halfword is sign extension of its upper byte, plus the lower byte. */
  lemma Extend16(b: Byte, b1: Byte, t: Word)
    requires t == if b1 < 0x80 then Pair(0, b1) else 0x1_0000_0000 - 0x1_0000 + Pair(0, b1)
    ensures 0 <= b + t < 0x1_0000_0000 && b + t == SignExtend16(Pair(b, b1))
  {
  }

  lemma SignedTop16(b1: Byte)
    ensures Shr(true, Join(Cell(0, 0, 0, b1)), 16)
         == if b1 < 0x80 then Pair(0, b1) else 0x1_0000_0000 - 0x1_0000 + Pair(0, b1)
  {
    hide Pow2;
    Pow2Values();
  }

  function OneLane(k: int, b: Byte): Cell {
    SetLane(ZERO, k, b)
  }

  /** Brings the byte at offset off into lane k of an otherwise zero word. */
  lemma DoLiftByte(env: Env, r: Reg, k: int, rs1: Reg, off: int, b: Byte, m: Machine) returns (m': Machine)
    requires Ready(env, m) && (r == GP || r == TP) && Usable(rs1) && 0 <= k < 4
    requires UserByte(env, m, Plus(m.regs[rs1], off), b)
    ensures m' == Exec(env.rom, Do4(SaveWord(0, VAR_A), Op(Lbu(r, rs1, off)), SaveByte(r, VAR_A, k),
                                    LoadWord(r, VAR_A)), m)
    ensures Ready(env, m') && OnlySlots(m, m', {VAR_A}) && m'.regs == Put(m.regs, r, Join(OneLane(k, b)))
  {
    hide Exec1, Plus, Wrap, Minus, WordIndex, StackOk, Split, Join, OneLane, Lane, UserByte;
    var m1 := DoClear(env, VAR_A, m);
    UserByteStays(env, m, m1, Plus(m.regs[rs1], off), b);
    var m2 := DoUserByte(env, r, rs1, off, b, m1);
    m' := DoPlaceByte(env, r, k, b, m2);
    Exec2(env, Cat(SaveByte(r, VAR_A, k), LoadWord(r, VAR_A)), m2);
    Exec3(env, Do4(SaveWord(0, VAR_A), Op(Lbu(r, rs1, off)), SaveByte(r, VAR_A, k), LoadWord(r, VAR_A)), m);
  }

  lemma DoPlaceByte(env: Env, r: Reg, k: int, b: Byte, m: Machine) returns (m': Machine)
    requires Ready(env, m) && r != SP && 0 <= k < 4 && m.regs[r] == b
    requires Key(m, VAR_A) in m.ram && m.ram[Key(m, VAR_A)] == ZERO
    ensures m' == Exec(env.rom, Cat(SaveByte(r, VAR_A, k), LoadWord(r, VAR_A)), m)
    ensures Ready(env, m') && OnlySlots(m, m', {VAR_A}) && m'.regs == Put(m.regs, r, Join(OneLane(k, b)))
  {
    hide Exec1, Plus, Wrap, Minus, WordIndex, StackOk, Split, Join, SetLane, Lane;
    var m3 := DoSaveByte(env, r, VAR_A, k, m);
    m' := DoLoadWord(env, r, VAR_A, m3);
    Exec2(env, Cat(SaveByte(r, VAR_A, k), LoadWord(r, VAR_A)), m);
  }

  lemma DoLb(env: Env, rd: Reg, rs1: Reg, off: int, b: Byte, m: Machine) returns (m': Machine)
    requires EnvOk(env) && Ready(env, m) && Usable(rd) && Usable(rs1) && rd != SP
    requires UserByte(env, m, Plus(m.regs[rs1], off), b)
    ensures m' == Exec(env.rom, LoadSigned8(env, rd, rs1, off), m) && m'.ok
    ensures Sets(m, m', rd, SignExtend8(b), {GP, TP}) && OnlySlots(m, m', SLOTS)
  {
    hide Exec1, Plus, Wrap, Minus, WordIndex, EnvOk, StackOk, ShiftRightImm, Shr, Split, Join, UserByte, SignExtend8, SetLane, Lane;
    SignedTop8(b);
    var m1 := DoClear(env, VAR_A, m);
    UserByteStays(env, m, m1, Plus(m.regs[rs1], off), b);
    var m2 := DoUserByte(env, rd, rs1, off, b, m1);
    var m4 := DoPlaceByte(env, rd, 3, if rd == 0 then 0 else b, m2);
    m' := DoShiftRightImm(env, true, rd, rd, 24, m4);
    var c := LoadSigned8(env, rd, rs1, off);
    Exec2(env, Cat(SaveByte(rd, VAR_A, 3), LoadWord(rd, VAR_A)), m2);
    Exec5(env, c, m);
    assert OneLane(3, b) == Cell(0, 0, 0, b) by {
      TopLane(b);
    }
  }

  lemma TopLane(b: Byte)
    ensures OneLane(3, b) == Cell(0, 0, 0, b)
  {
  }

  lemma DoLhu(env: Env, rd: Reg, rs1: Reg, off: int, b: Byte, b1: Byte, m: Machine) returns (m': Machine)
    requires EnvOk(env) && Ready(env, m) && Usable(rd) && Usable(rs1)
    requires UserByte(env, m, Plus(m.regs[rs1], off), b) && UserByte(env, m, Plus(m.regs[rs1], off + 1), b1)
    ensures m' == Exec(env.rom, LoadUnsigned16(rd, rs1, off), m) && m'.ok
    ensures Sets(m, m', rd, Pair(b, b1), {GP, TP}) && OnlySlots(m, m', SLOTS)
  {
    hide Exec1, Plus, Wrap, Minus, WordIndex, EnvOk, StackOk, UserByte;
    var m4 := DoLiftByte(env, TP, 1, rs1, off + 1, b1, m);
    UserByteStays(env, m, m4, Plus(m.regs[rs1], off), b);
    var m5 := DoUserByte(env, rd, rs1, off, b, m4);
    m' := DoAdd(env, rd, rd, TP, m5);
    var c := LoadUnsigned16(rd, rs1, off);
    Exec6(env, c, m);
    Exec4(env, Do4(c.c1, c.c2.c1, c.c2.c2.c1, c.c2.c2.c2.c1), m);
  }

  lemma DoLh(env: Env, rd: Reg, rs1: Reg, off: int, b: Byte, b1: Byte, m: Machine) returns (m': Machine)
    requires EnvOk(env) && Ready(env, m) && Usable(rd) && Usable(rs1)
    requires UserByte(env, m, Plus(m.regs[rs1], off), b) && UserByte(env, m, Plus(m.regs[rs1], off + 1), b1)
    ensures m' == Exec(env.rom, LoadSigned16(env, rd, rs1, off), m) && m'.ok
    ensures Sets(m, m', rd, SignExtend16(Pair(b, b1)), {GP, TP}) && OnlySlots(m, m', SLOTS)
  {
    hide Exec1, Plus, Wrap, Minus, WordIndex, EnvOk, StackOk, UserByte, ShiftRightImm, Shr, Join, SignExtend16, Pair, Split;
    SignedTop16(b1);
    Extend16(b, b1, Shr(true, Join(Cell(0, 0, 0, b1)), 16));
    TopLane(b1);
    var m4 := DoLiftByte(env, GP, 3, rs1, off + 1, b1, m);
    var m5 := DoShiftRightImm(env, true, GP, GP, 16, m4);
    UserByteStays(env, m, m5, Plus(m.regs[rs1], off), b);
    var m6 := DoUserByte(env, rd, rs1, off, b, m5);
    m' := DoAdd(env, rd, rd, GP, m6);
    var c := LoadSigned16(env, rd, rs1, off);
    Exec7(env, c, m);
    Exec4(env, Do4(c.c1, c.c2.c1, c.c2.c2.c1, c.c2.c2.c2.c1), m);
  }

  // ---------- storing a halfword ----------

  lemma DoUserStore(env: Env, r: Reg, rs1: Reg, off: int, m: Machine) returns (m': Machine)
    requires m.ok && Plus(m.regs[rs1], off) / 4 in m.ram
    ensures m' == Exec(env.rom, Op(Sb(r, rs1, off)), m) && m'.ok && m'.regs == m.regs
    ensures var a := Plus(m.regs[rs1], off);
            m'.ram == m.ram[a / 4 := SetLane(m.ram[a / 4], a % 4, m.regs[r] % 0x100)]
    ensures Ready(env, m) ==> Ready(env, m')
  {
    m' := Exec(env.rom, Op(Sb(r, rs1, off)), m);
  }

  lemma SlotsKeep(env: Env, sp: Word, mem: map<int, Byte>, m: Machine, m': Machine)
    requires AgreeMem(env, mem, m.ram) && OnlySlots(m, m', SLOTS) && m.regs[SP] == sp
    requires forall a | a in mem :: !InRed(sp, a)
    ensures AgreeMem(env, mem, m'.ram)
  {
    forall a | a in mem
      ensures UserWord(env, a / 4) && a / 4 in m'.ram && Lane(m'.ram[a / 4], a % 4) == mem[a]
    {
      assert Key(m, 0) - a / 4 !in SLOTS;
    }
  }

  lemma SimStoreHalf(env: Env, s: Source, t: Machine, rs2: Reg, rs1: Reg, off: int)
    requires AgreeData(env, s.regs, s.mem, t) && Usable(rs1) && Usable(rs2) && StackOk(env, s.regs[SP])
    requires StoreOk(env, s.regs[SP], Plus(s.regs[rs1], off)) && StoreOk(env, s.regs[SP], Plus(s.regs[rs1], off + 1))
    ensures var a, a1, c := Plus(s.regs[rs1], off), Plus(s.regs[rs1], off + 1), Split(s.regs[rs2]);
            AgreeData(env, s.regs, Live(s.mem, s.regs[SP])[a := c.b0][a1 := c.b1], Exec(env.rom, Sh(rs2, rs1, off), t))
  {
    hide Exec1, Plus, Wrap, Minus, WordIndex, StackOk, SetLane;
    AgreeReady(env, s, t);
    LiveAgree(env, s, t, t);
    var sp := s.regs[SP];
    var a, a1, c := Plus(s.regs[rs1], off), Plus(s.regs[rs1], off + 1), Split(s.regs[rs2]);
    var mem := Live(s.mem, sp);
    var t1 := DoUserStore(env, rs2, rs1, off, t);
    Put1(mem, t.ram, env, a, c.b0);
    var t2 := DoGetByte(env, TP, rs2, 1, t1);
    SlotsKeep(env, sp, mem[a := c.b0], t1, t2);
    var t3 := DoUserStore(env, TP, rs1, off + 1, t2);
    Put1(mem[a := c.b0], t2.ram, env, a1, c.b1);
    Exec3(env, Sh(rs2, rs1, off), t);
  }

  // ---------- branches ----------

  /** tp = 1 selects the upper slot, tp = 0 the lower one. */
  lemma DoResolve(env: Env, high: Word, low: Word, m: Machine) returns (m': Machine)
    requires Ready(env, m) && m.regs[TP] <= 1
    ensures m' == Exec(env.rom, BranchResolve(high, low), m) && Ready(env, m')
    ensures OnlyRegs(m, m', {GP, TP}) && OnlySlots(m, m', SLOTS)
    ensures m'.regs[TP] == if m.regs[TP] == 1 then high else low
  {
    hide Exec1, Plus, Wrap, Minus, WordIndex, Split, Join;
    var c := BranchResolve(high, low);
    var m1 := DoTimes4(env, TP, m);
    assert SlotFree(env, m.regs[SP], VAR_A) && SlotFree(env, m.regs[SP], VAR_B);
    var m2 := DoAdd(env, TP, SP, TP, m1);
    var m3 := DoLa(env, GP, high, m2);
    var m4 := DoSaveWord(env, GP, VAR_A, m3);
    var m5 := DoLa(env, GP, low, m4);
    var m6 := DoSaveWord(env, GP, VAR_B, m5);
    m' := DoPick(env, m.regs[TP], m6);
    Exec7(env, c, m);
  }

  lemma DoPick(env: Env, flag: Word, m: Machine) returns (m': Machine)
    requires Ready(env, m) && flag <= 1 && m.regs[TP] == Plus(m.regs[SP], 4 * flag)
    ensures Key(m, VAR_A) in m.ram && Key(m, VAR_B) in m.ram
    ensures m' == Exec(env.rom, Op(Lw(TP, TP, SlotOff(VAR_B, 0))), m) && Ready(env, m') && m'.ram == m.ram
    ensures m'.regs == Put(m.regs, TP, Join(m.ram[if flag == 1 then Key(m, VAR_A) else Key(m, VAR_B)]))
  {
    hide Plus, Wrap, WordIndex, Join, Split;
    SlotAddress(env, m, VAR_A, 0);
    SlotAddress(env, m, VAR_B, 0);
    PickAddress(m.regs[SP], flag);
    m' := Exec(env.rom, Op(Lw(TP, TP, SlotOff(VAR_B, 0))), m);
  }

  lemma PickAddress(sp: Word, flag: int)
    requires sp % 4 == 0 && sp >= 28 && 0 <= flag <= 1
    ensures Plus(Plus(sp, 4 * flag), -20) / 4 == WordIndex(sp) - 5 + flag
    ensures Plus(Plus(sp, 4 * flag), -20) % 4 == 0
  {
    var w := sp / 4;
    assert sp == 4 * w;
    assert Plus(Plus(sp, 4 * flag), -20) == 4 * (w + flag - 5);
  }

  lemma OrBits(x: Word)
    ensures OR1[SignBit(x) + SignBit(Plus(x, -1))] == if Signed(x) > 0 then 0 else 1
  {
  }

  lemma DoNotPositive(env: Env, rs: Reg, m: Machine) returns (m': Machine)
    requires EnvOk(env) && Ready(env, m) && Usable(rs)
    ensures m' == Exec(env.rom, NotPositive(env, rs), m) && Ready(env, m')
    ensures OnlyRegs(m, m', {GP, TP}) && OnlySlots(m, m', {VAR_C})
    ensures m'.regs[TP] == if Signed(m.regs[rs]) > 0 then 0 else 1
  {
    hide Exec1, Plus, Wrap, Minus, WordIndex, EnvOk, StackOk, SignBit, Signed, Split, BytesAt;
    var x := m.regs[rs];
    OrBits(x);
    EnvTables(env);
    SmallLookup(env, env.or1, OR1, SignBit(x) + SignBit(Plus(x, -1)));
    var m1 := DoMsb(env, GP, rs, m);
    var m2 := DoAddi(env, TP, rs, -1, m1);
    var m3 := DoMsb(env, TP, TP, m2);
    var m4 := DoAdd(env, GP, GP, TP, m3);
    var m5 := DoLa(env, TP, env.or1, m4);
    var m6 := DoAdd(env, TP, GP, TP, m5);
    m' := DoLoadRom(env, TP, TP, OR1[SignBit(x) + SignBit(Plus(x, -1))], m6);
    Exec7(env, NotPositive(env, rs), m);
  }

  lemma DoEqualFlag(env: Env, rs1: Reg, rs2: Reg, m: Machine) returns (m': Machine)
    requires EnvOk(env) && Ready(env, m) && Usable(rs1) && Usable(rs2)
    ensures m' == Exec(env.rom, EqualFlag(env, rs1, rs2), m) && Ready(env, m')
    ensures Sets(m, m', TP, if m.regs[rs1] == m.regs[rs2] then 1 else 0, {GP}) && OnlyScratch(env, m, m', SLOTS)
  {
    hide Exec, Plus, Wrap, Minus, WordIndex, EnvOk, StackOk, SetZero, SetEqual;
    if rs2 == 0 {
      m' := DoSetZero(env, TP, rs1, m);
    } else if rs1 == 0 {
      m' := DoSetZero(env, TP, rs2, m);
    } else {
      m' := DoSetEqual(env, TP, rs1, rs2, m);
    }
  }

  /** The flag code of a branch and whether its 1 means the branch is taken. */
  function FlagCode(env: Env, cmp: Cmp, rs1: Reg, rs2: Reg): (Code, bool) {
    match cmp
    case Eq => (EqualFlag(env, rs1, rs2), true)
    case Ne => (EqualFlag(env, rs1, rs2), false)
    case Lt =>
      if rs2 == 0 then (Msb(TP, rs1), true)
      else if rs1 == 0 then (NotPositive(env, rs2), false)
      else (SltTemplate(env, env.slt1, TP, rs1, rs2), true)
    case Ge =>
      if rs1 == 0 then (NotPositive(env, rs2), true)
      else (SltTemplate(env, env.slt1, TP, rs1, rs2), false)
    case Ltu => (SltTemplate(env, env.sltu1, TP, rs1, rs2), true)
    case Geu => (SltTemplate(env, env.sltu1, TP, rs1, rs2), false)
  }

  lemma DoFlag(env: Env, cmp: Cmp, rs1: Reg, rs2: Reg, m: Machine) returns (m': Machine)
    requires EnvOk(env) && Ready(env, m) && Usable(rs1) && Usable(rs2)
    ensures var (code, yes) := FlagCode(env, cmp, rs1, rs2);
            && m' == Exec(env.rom, code, m) && Ready(env, m')
            && OnlyRegs(m, m', {GP, TP}) && OnlyScratch(env, m, m', SLOTS)
            && m'.regs[TP] == if Taken(cmp, m.regs[rs1], m.regs[rs2]) == yes then 1 else 0
  {
    hide Exec, Plus, Wrap, Minus, WordIndex, EnvOk, StackOk, SltTemplate, EqualFlag, Msb, NotPositive;
    var x, y := m.regs[rs1], m.regs[rs2];
    if cmp == Eq || cmp == Ne {
      m' := DoEqualFlag(env, rs1, rs2, m);
    } else if cmp == Lt && rs2 == 0 {
      m' := DoMsb(env, TP, rs1, m);
    } else if (cmp == Lt || cmp == Ge) && rs1 == 0 {
      m' := DoNotPositive(env, rs2, m);
    } else {
      EnvTables(env);
      SltTables(x, y);
      if cmp == Lt || cmp == Ge {
        m' := DoSlt(env, env.slt1, SLT1, TP, rs1, rs2, m);
      } else {
        m' := DoSlt(env, env.sltu1, SLTU1, TP, rs1, rs2, m);
      }
    }
  }

  lemma DoSelect(env: Env, cmp: Cmp, rs1: Reg, rs2: Reg, target: Word, next: Word, m: Machine) returns (m': Machine)
    requires EnvOk(env) && Ready(env, m) && Usable(rs1) && Usable(rs2)
    ensures m' == Exec(env.rom, Select(env, cmp, rs1, rs2, target, next), m) && Ready(env, m')
    ensures OnlyRegs(m, m', {GP, TP}) && OnlyScratch(env, m, m', SLOTS)
    ensures m'.regs[TP] == if Taken(cmp, m.regs[rs1], m.regs[rs2]) then target else next
  {
    hide Exec, Plus, Wrap, Minus, WordIndex, EnvOk, StackOk, SltTemplate, EqualFlag, Msb, NotPositive, BranchResolve, Taken;
    var (code, yes) := FlagCode(env, cmp, rs1, rs2);
    var m1 := DoFlag(env, cmp, rs1, rs2, m);
    if yes {
      m' := DoResolve(env, target, next, m1);
    } else {
      m' := DoResolve(env, next, target, m1);
    }
    Exec2(env, Select(env, cmp, rs1, rs2, target, next), m);
  }
}
