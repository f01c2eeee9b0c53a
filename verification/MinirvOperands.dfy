/** The operand rules the macros do not check: three of them still need sp after writing their
    destination, and seqz also restores s0 after that. */
module MinirvOperands {
  import opened Bits
  import opened MinirvMachine
  import opened MinirvTables
  import opened MinirvMacros
  import opened MinirvShifts
  import opened MinirvEffects
  import opened MinirvShiftEffects
  import opened MinirvSource
  import opened MinirvSimulation

  /** The macro ends well, with `v` in its destination and no other register changed but gp and tp. */
  ghost predicate Right(rom: map<int, Cell>, c: Code, rd: Reg, v: Word, m: Machine) {
    var m' := Exec(rom, c, m);
    m'.ok && forall r: Reg | r != GP && r != TP :: m'.regs[r] == Put(m.regs, rd, v)[r]
  }

  /** A fault is never forgotten. */
  lemma {:induction false} FaultStays(rom: map<int, Cell>, c: Code, m: Machine)
    requires !m.ok
    ensures !Exec(rom, c, m).ok
  {
    match c
    case Nop =>
    case Op(b) =>
    case Cat(c1, c2) =>
      FaultStays(rom, c1, m);
      FaultStays(rom, c2, Exec(rom, c1, m));
  }

  lemma FaultInFirst(rom: map<int, Cell>, c1: Code, c2: Code, m: Machine)
    requires !Exec(rom, c1, m).ok
    ensures !Exec(rom, Cat(c1, c2), m).ok
  {
    FaultStays(rom, c2, Exec(rom, c1, m));
  }

  lemma UnevenSlot(x: Word, n: int)
    requires x % 4 != 0 && 0 <= n < 8
    ensures Plus(x, SlotOff(n, 0)) % 4 != 0
  {
    var a := x - 4 * n;
    assert a % 4 == x % 4;
    if a < 0 {
      DivUnique(a, 0x1_0000_0000, -1, a + 0x1_0000_0000);
    } else {
      DivUnique(a, 0x1_0000_0000, 0, a);
    }
  }

  /** An access to a slot faults if sp is not a multiple of four. */
  lemma SlotFaults(rom: map<int, Cell>, r: Reg, n: int, m: Machine)
    requires m.regs[SP] % 4 != 0 && 0 <= n < 8
    ensures !Exec(rom, LoadWord(r, n), m).ok && !Exec(rom, SaveWord(r, n), m).ok
  {
    UnevenSlot(m.regs[SP], n);
    hide Plus;
  }

  // ---------- seqz ----------

  function Zeroness(x: Word): Word {
    if x == 0 then 1 else 0
  }

  /** seqz writes its result before it restores s0, so with s0 as destination the old s0 stays. */
  lemma SeqzIntoS0(env: Env, rs1: Reg, m: Machine)
    requires EnvOk(env) && Ready(env, m) && Usable(rs1)
    ensures Exec(env.rom, SetZero(env, S0, rs1), m).regs[S0] == m.regs[S0]
  {
    var m' := DoSetZero(env, S0, rs1, m);
  }

  /** With sp as destination and a zero operand s0 is looked for below the address 1. */
  lemma SeqzIntoSp(env: Env, rs1: Reg, m: Machine)
    requires EnvOk(env) && Ready(env, m) && m.regs[rs1] == 0
    ensures !Exec(env.rom, SetZero(env, SP, rs1), m).ok
  {
    hide Exec1, Plus, Wrap, Minus, WordIndex, EnvOk, Split, StackOk;
    var c := SetZero(env, SP, rs1);
    var m1 := DoSaveWord(env, rs1, VAR_A, m);
    var m2 := DoSaveWord(env, S0, 1, m1);
    var m3 := DoLa(env, S0, env.zero8, m2);
    var m4 := DoZeroBytes(env, m.regs[rs1], m3);
    NonZerosZero(m.regs[rs1]);
    var m5 := DoSameResult(env, SP, m4);
    SlotFaults(env.rom, S0, 1, m5);
    Exec4(env, c, m);
    Exec3(env, c.c1, m);
  }

  /** seqz is right in every state exactly when its destination is neither s0 nor sp. */
  lemma SeqzRightIff(env: Env, rd: Reg, rs1: Reg, m: Machine)
    requires EnvOk(env) && Ready(env, m) && Usable(rd) && Usable(rs1) && rs1 != SP
    ensures rd != S0 && rd != SP <==> forall v: Word, w: Word ::
              var m1 := m.(regs := Put(Put(m.regs, S0, w), rs1, v));
              Right(env.rom, SetZero(env, rd, rs1), rd, Zeroness(m1.regs[rs1]), m1)
  {
    hide Exec, Plus, Wrap, Minus, WordIndex, EnvOk, SetZero, StackOk;
    if rd == S0 {
      var m1 := m.(regs := Put(Put(m.regs, S0, 2), rs1, 2));
      SeqzIntoS0(env, rs1, m1);
      assert !Right(env.rom, SetZero(env, rd, rs1), rd, Zeroness(m1.regs[rs1]), m1);
    } else if rd == SP {
      var m1 := m.(regs := Put(Put(m.regs, S0, 0), rs1, 0));
      SeqzIntoSp(env, rs1, m1);
      assert !Right(env.rom, SetZero(env, rd, rs1), rd, Zeroness(m1.regs[rs1]), m1);
    } else {
      forall v: Word, w: Word
        ensures var m1 := m.(regs := Put(Put(m.regs, S0, w), rs1, v));
                Right(env.rom, SetZero(env, rd, rs1), rd, Zeroness(m1.regs[rs1]), m1)
      {
        var m1 := m.(regs := Put(Put(m.regs, S0, w), rs1, v));
        var m' := DoSetZero(env, rd, rs1, m1);
      }
    }
  }

  // ---------- sltz and lb ----------

  /** sltz into sp: an odd top byte makes sp odd or half a word before its last access. */
  lemma SltzIntoSp(env: Env, rs1: Reg, m: Machine)
    requires Ready(env, m) && ByteOf(m.regs[rs1], 3) % 2 == 1
    ensures !Exec(env.rom, Msb(SP, rs1), m).ok
  {
    hide Exec1, Plus, Wrap, Minus, WordIndex, StackOk, Split, Join;
    var m1 := DoGetByte(env, SP, rs1, 3, m);
    var m2 := Exec(env.rom, Slli(SP, SP, 1), m1);
    assert m2.regs[SP] == 2 * m1.regs[SP] && m2.regs[SP] % 4 != 0 by {
      TwiceOdd(env, m1);
    }
    SlotFaults(env.rom, SP, VAR_C, m2);
    FaultInFirst(env.rom, SaveWord(SP, VAR_C), LoadByte(SP, VAR_C, 1), m2);
    Exec3(env, Msb(SP, rs1), m);
  }

  lemma TwiceOdd(env: Env, m: Machine)
    requires m.regs[SP] < 0x100 && m.regs[SP] % 2 == 1
    ensures var x := Exec(env.rom, Slli(SP, SP, 1), m).regs[SP]; x == 2 * m.regs[SP] && x % 4 != 0
  {
    var m1 := Exec(env.rom, Op(Add(SP, SP, SP)), m);
    assert Exec(env.rom, Slli(SP, SP, 1), m) == Exec(env.rom, Doubles(SP, 0), m1);
    assert m.regs[SP] == 2 * (m.regs[SP] / 2) + 1;
  }

  lemma SltzRightIff(env: Env, rd: Reg, rs1: Reg, m: Machine)
    requires EnvOk(env) && Ready(env, m) && Usable(rd) && Usable(rs1) && rs1 != SP && rs1 != 0
    ensures rd != SP <==> forall v: Word ::
              var m1 := m.(regs := m.regs[rs1 := v]); Right(env.rom, Msb(rd, rs1), rd, SignBit(v), m1)
  {
    hide Exec, Plus, Wrap, Minus, WordIndex, EnvOk, Msb, StackOk;
    if rd == SP {
      var v: Word := 0x100_0000;
      var m1 := m.(regs := m.regs[rs1 := v]);
      assert ByteOf(v, 3) % 2 == 1;
      SltzIntoSp(env, rs1, m1);
      assert !Right(env.rom, Msb(rd, rs1), rd, SignBit(v), m1);
    } else {
      forall v: Word
        ensures var m1 := m.(regs := m.regs[rs1 := v]); Right(env.rom, Msb(rd, rs1), rd, SignBit(v), m1)
      {
        var m' := DoMsb(env, rd, rs1, m.(regs := m.regs[rs1 := v]));
      }
    }
  }

  /** lb into sp: the byte becomes the stack pointer before the slot is read back. */
  lemma LbIntoSp(env: Env, rs1: Reg, off: int, b: Byte, m: Machine)
    requires EnvOk(env) && Ready(env, m) && Usable(rs1) && UserByte(env, m, Plus(m.regs[rs1], off), b) && b % 4 != 0
    ensures !Exec(env.rom, LoadSigned8(env, SP, rs1, off), m).ok
  {
    hide Exec1, Plus, Wrap, Minus, WordIndex, EnvOk, StackOk, ShiftRightImm, Split, Join, UserByte, SetLane, Lane;
    var m1 := DoClear(env, VAR_A, m);
    UserByteStays(env, m, m1, Plus(m.regs[rs1], off), b);
    var m2 := DoUserByte(env, SP, rs1, off, b, m1);
    var m3 := Exec(env.rom, SaveByte(SP, VAR_A, 3), m2);
    StoreKeepsRegs(env.rom, SP, SP, SlotOff(VAR_A, 3), m2);
    SlotFaults(env.rom, SP, VAR_A, m3);
    FaultStays(env.rom, ShiftRightImm(env, true, SP, SP, 24), Exec(env.rom, LoadWord(SP, VAR_A), m3));
    Exec5(env, LoadSigned8(env, SP, rs1, off), m);
  }

  lemma StoreKeepsRegs(rom: map<int, Cell>, r: Reg, base: Reg, off: int, m: Machine)
    ensures Exec(rom, Op(Sb(r, base, off)), m).regs == m.regs
  {
  }
}
