/** The simulation theorem, instruction by instruction and over whole runs. */
module MinirvTheorem {
  import opened Bits
  import opened MinirvMachine
  import opened MinirvTables
  import opened MinirvMacros
  import opened MinirvShifts
  import opened MinirvEffects
  import opened MinirvShiftEffects
  import opened MinirvSource
  import opened MinirvSimulation

  // ---------- where the expansions sit ----------

  lemma AddrNoWrap(p: Program, k: nat)
    requires Loadable(p) && k <= |p.instrs|
    ensures Addr(p, k) == p.base + 4 * Offset(p, k) && Addr(p, k) % 4 == 0
  {
    OffsetMonotone(p, k, |p.instrs|);
    hide Offset, Legal, EnvOk, Wrap;
    NoWrap(p.base + 4 * Offset(p, k));
    FourMore(p.base, Offset(p, k));
  }

  lemma FourMore(x: int, k: int)
    ensures (x + 4 * k) % 4 == x % 4
  {
    DivAddMultiple(x, 4, k);
  }

  lemma OffsetNext(p: Program, k: nat)
    requires Legal(p) && k < |p.instrs|
    ensures Offset(p, k + 1) == Offset(p, k) + BlockSize(ExpandAt(p, k))
  {
    hide Expand;
    var i := p.instrs[k];
    assert OperandsOk(i) && TargetOk(p, i);
    SizeFixed(p.env, i, Addr(p, TargetIndex(i)), Addr(p, k + 1));
  }

  lemma {:induction false} ListingLength(p: Program, k: nat)
    requires Legal(p) && k <= |p.instrs|
    ensures |Listing(p, k)| == Offset(p, k)
  {
    hide ExpandAt, BlockCode, BlockSize;
    if k > 0 {
      ListingLength(p, k - 1);
      OffsetNext(p, k - 1);
      BlockSizeIsLength(ExpandAt(p, k - 1));
    }
  }

  /** The code of instruction k starts at its offset. */
  lemma {:induction false} ListingAt(p: Program, k: nat, n: nat)
    requires Legal(p) && k < n <= |p.instrs|
    ensures var o := Offset(p, k);
            && o + BlockSize(ExpandAt(p, k)) <= |Listing(p, n)|
            && Listing(p, n)[o..o + BlockSize(ExpandAt(p, k))] == BlockCode(ExpandAt(p, k))
    decreases n
  {
    hide ExpandAt, BlockCode, BlockSize, Offset;
    var o, size := Offset(p, k), BlockSize(ExpandAt(p, k));
    ListingLength(p, n - 1);
    BlockSizeIsLength(ExpandAt(p, k));
    if k == n - 1 {
      assert Listing(p, n)[o..o + size] == BlockCode(ExpandAt(p, k));
    } else {
      ListingAt(p, k, n - 1);
      assert Listing(p, n)[o..o + size] == Listing(p, n - 1)[o..o + size];
    }
  }

  lemma LoweredFits(p: Program)
    requires Loadable(p)
    ensures Fits(Lowered(p)) && |Lowered(p).code| == Offset(p, |p.instrs|)
  {
    ListingLength(p, |p.instrs|);
  }

  // ---------- one instruction ----------

  predicate IsJump(i: Instr) {
    i.JumpReg? || i.BranchIf? || i.JumpLink? || i.TailCall?
  }

  lemma SimLoad(env: Env, i: Instr, s: Source, t: Machine) returns (t': Machine)
    requires EnvOk(env) && OperandsOk(i) && (i.Lb? || i.Lh? || i.Lhu?)
    requires AgreeData(env, s.regs, s.mem, t) && StackOk(env, s.regs[SP])
    requires Plus(s.regs[i.rs1], i.off) in Live(s.mem, s.regs[SP])
    requires !i.Lb? ==> Plus(s.regs[i.rs1], i.off + 1) in Live(s.mem, s.regs[SP])
    ensures t' == Exec(env.rom, Expand(env, i, 0, 0).body, t)
    ensures var b := s.mem[Plus(s.regs[i.rs1], i.off)];
            var v := if i.Lb? then SignExtend8(b)
                     else var b1 := s.mem[Plus(s.regs[i.rs1], i.off + 1)];
                          var h := Pair(b, b1);
                          if i.Lh? then SignExtend16(h) else h;
            AgreeData(env, Put(s.regs, i.rd, v), Live(s.mem, s.regs[SP]), t')
  {
    hide Exec, Plus, Wrap, Minus, WordIndex, EnvOk, StackOk, LoadSigned8, LoadSigned16, LoadUnsigned16, SignExtend8, SignExtend16;
    AgreeReady(env, s, t);
    assert Usable(i.rs1) && Usable(SP);
    var a, a1 := Plus(s.regs[i.rs1], i.off), Plus(s.regs[i.rs1], i.off + 1);
    var b := s.mem[a];
    assert UserByte(env, t, a, b);
    if i.Lb? {
      t' := DoLb(env, i.rd, i.rs1, i.off, b, t);
      Computes(env, s, t, t', i.rd, SignExtend8(b));
    } else {
      var b1 := s.mem[a1];
      assert UserByte(env, t, a1, b1);
      if i.Lh? {
        t' := DoLh(env, i.rd, i.rs1, i.off, b, b1, t);
        Computes(env, s, t, t', i.rd, SignExtend16(Pair(b, b1)));
      } else {
        t' := DoLhu(env, i.rd, i.rs1, i.off, b, b1, t);
        Computes(env, s, t, t', i.rd, Pair(b, b1));
      }
    }
  }

  lemma SimAlu(env: Env, i: Instr, s: Source, t: Machine) returns (t': Machine)
    requires EnvOk(env) && OperandsOk(i) && (i.Alu? || i.AluImm?)
    requires AgreeData(env, s.regs, s.mem, t) && StackOk(env, s.regs[SP])
    ensures t' == Exec(env.rom, Expand(env, i, 0, 0).body, t)
    ensures var v := AluValue(i.op, s.regs[i.rs1], if i.Alu? then s.regs[i.rs2] else Wrap(i.imm));
            AgreeData(env, Put(s.regs, i.rd, v), Live(s.mem, s.regs[SP]), t')
  {
    hide Exec, Plus, Wrap, Minus, WordIndex, EnvOk, StackOk, ExpandAlu, ExpandAluImm, AluValue;
    AgreeReady(env, s, t);
    assert Usable(i.rs1);
    if i.Alu? {
      assert Usable(i.rs2);
      t' := DoAlu(env, i.op, i.rd, i.rs1, i.rs2, t);
      Computes(env, s, t, t', i.rd, AluValue(i.op, s.regs[i.rs1], s.regs[i.rs2]));
    } else {
      t' := DoAluImm(env, i.op, i.rd, i.rs1, i.imm, t);
      Computes(env, s, t, t', i.rd, AluValue(i.op, s.regs[i.rs1], Wrap(i.imm)));
    }
  }

  lemma SimUnary(env: Env, i: Instr, s: Source, t: Machine) returns (t': Machine)
    requires EnvOk(env) && OperandsOk(i) && (i.LoadAddress? || i.Seqz? || i.Complement? || i.Sltz?)
    requires AgreeData(env, s.regs, s.mem, t) && StackOk(env, s.regs[SP])
    ensures t' == Exec(env.rom, Expand(env, i, 0, 0).body, t)
    ensures var v := match i
                     case LoadAddress(_, addr) => addr
                     case Seqz(_, rs1) => if s.regs[rs1] == 0 then 1 else 0
                     case Complement(_, rs1) => 0x1_0000_0000 - 1 - s.regs[rs1]
                     case Sltz(_, rs1) => if Signed(s.regs[rs1]) < 0 then 1 else 0
                     case _ => 0;
            AgreeData(env, Put(s.regs, i.rd, v), Live(s.mem, s.regs[SP]), t')
  {
    hide Exec, Plus, Wrap, Minus, WordIndex, EnvOk, StackOk, La, SetZero, Not, Msb;
    AgreeReady(env, s, t);
    match i
    case LoadAddress(rd, addr) =>
      t' := DoLa(env, rd, addr, t);
      Computes(env, s, t, t', rd, addr);
    case Seqz(rd, rs1) =>
      t' := DoSetZero(env, rd, rs1, t);
      Computes(env, s, t, t', rd, if s.regs[rs1] == 0 then 1 else 0);
    case Complement(rd, rs1) =>
      t' := DoNot(env, rd, rs1, t);
      Computes(env, s, t, t', rd, 0x1_0000_0000 - 1 - s.regs[rs1]);
    case Sltz(rd, rs1) =>
      t' := DoMsb(env, rd, rs1, t);
      Computes(env, s, t, t', rd, if Signed(s.regs[rs1]) < 0 then 1 else 0);
  }

  /** Registers and memory after an instruction that does not jump. */
  lemma SimData(p: Program, s: Source, t: Machine)
    requires Loadable(p) && AgreeData(p.env, s.regs, s.mem, t)
    requires StepSource(p, s).Some? && !IsJump(p.instrs[s.pc])
    ensures var s' := StepSource(p, s).value;
            && s'.pc == s.pc + 1
            && AgreeData(p.env, s'.regs, s'.mem, Exec(p.env.rom, ExpandAt(p, s.pc).body, t))
  {
    hide Exec, Plus, Wrap, Minus, WordIndex, EnvOk, StackOk, Offset, BlockSize, StepBase, Sh,
         AluValue, SignExtend8, SignExtend16, AgreeData, ExpandAlu, ExpandAluImm, Live;
    var i := p.instrs[s.pc];
    assert OperandsOk(i) && TargetOk(p, i);
    match i
    case Native(b) => SimBase(p.env, s, t, b);
    case Alu(op, rd, rs1, rs2) => var t' := SimAlu(p.env, i, s, t);
    case AluImm(op, rd, rs1, imm) => var t' := SimAlu(p.env, i, s, t);
    case Lb(rd, rs1, off) => LiveSame(s); var t' := SimLoad(p.env, i, s, t);
    case Lh(rd, rs1, off) => LiveSame(s); var t' := SimLoad(p.env, i, s, t);
    case Lhu(rd, rs1, off) => LiveSame(s); var t' := SimLoad(p.env, i, s, t);
    case StoreHalf(rs2, rs1, off) => SimStoreHalf(p.env, s, t, rs2, rs1, off);
    case LoadAddress(rd, addr) => var t' := SimUnary(p.env, i, s, t);
    case Seqz(rd, rs1) => var t' := SimUnary(p.env, i, s, t);
    case Complement(rd, rs1) => var t' := SimUnary(p.env, i, s, t);
    case Sltz(rd, rs1) => var t' := SimUnary(p.env, i, s, t);
  }

  lemma LiveSame(s: Source)
    ensures forall a | a in Live(s.mem, s.regs[SP]) :: a in s.mem && Live(s.mem, s.regs[SP])[a] == s.mem[a]
  {
  }

  lemma SimPlain(p: Program, s: Source, t: Machine)
    requires Loadable(p) && Related(p, s, t)
    requires StepSource(p, s).Some? && !IsJump(p.instrs[s.pc])
    ensures Related(p, StepSource(p, s).value, ExecBlock(p.env.rom, ExpandAt(p, s.pc), t))
  {
    SimData(p, s, t);
    PlainEnd(p, s, t);
    hide Exec, ExecBlock, Plus, Wrap, Minus, WordIndex, StepSource, AgreeData, Offset, EnvOk, ExpandAt;
  }

  lemma PlainEnd(p: Program, s: Source, t: Machine)
    requires Loadable(p) && s.pc < |p.instrs| && !IsJump(p.instrs[s.pc]) && t.pc == Addr(p, s.pc)
    ensures ExecBlock(p.env.rom, ExpandAt(p, s.pc), t) == Exec(p.env.rom, ExpandAt(p, s.pc).body, t)
    ensures Exec(p.env.rom, ExpandAt(p, s.pc).body, t).pc == Addr(p, s.pc + 1)
  {
    hide Exec, Plus, Wrap, Minus, WordIndex, Offset, EnvOk;
    var b := ExpandAt(p, s.pc);
    assert b.exit.FallThrough?;
    StraightAdvances(p.env.rom, b.body, t);
    OffsetNext(p, s.pc);
    AddrNoWrap(p, s.pc);
    AddrNoWrap(p, s.pc + 1);
    NoWrap(t.pc + 4 * Size(b.body));
  }

  lemma {:induction false} FindAddrFinds(p: Program, a: Word, k: nat)
    requires Legal(p) && k <= |p.instrs| && FindAddr(p, a, k).Some?
    ensures FindAddr(p, a, k).value <= |p.instrs| && Addr(p, FindAddr(p, a, k).value) == a
    decreases |p.instrs| - k
  {
    hide Offset;
    if Addr(p, k) != a && k < |p.instrs| {
      FindAddrFinds(p, a, k + 1);
    }
  }

  /** A jump: rd may receive the address after the block, only scratch memory changes. */
  lemma Lands(p: Program, s: Source, t: Machine, t1: Machine, t': Machine, rd: Reg, target: nat)
    requires Loadable(p) && s.pc < |p.instrs| && target <= |p.instrs|
    requires AgreeData(p.env, s.regs, s.mem, t) && t1.ok && Usable(rd)
    requires OnlyScratch(p.env, t, t1, SLOTS)
    requires forall r: Reg | r != rd && r != GP && r != TP :: t1.regs[r] == t.regs[r]
    requires t'.ram == t1.ram && t'.ok == t1.ok
    requires t'.regs == Put(t1.regs, rd, Addr(p, s.pc + 1)) && t'.pc == Addr(p, target)
    ensures Related(p, Source(target, Put(s.regs, rd, Addr(p, s.pc + 1)), Live(s.mem, s.regs[SP])), t')
  {
    hide Offset, EnvOk;
    LiveAgree(p.env, s, t, t1);
  }

  lemma BlockEnd(p: Program, s: Source, t: Machine, body: Code)
    requires Loadable(p) && s.pc < |p.instrs| && t.pc == Addr(p, s.pc)
    requires BlockSize(ExpandAt(p, s.pc)) == Size(body) + 1
    ensures Wrap(Exec(p.env.rom, body, t).pc + 4) == Addr(p, s.pc + 1)
  {
    hide Exec, Plus, Wrap, Minus, WordIndex, Offset, ExpandAt, EnvOk;
    StraightAdvances(p.env.rom, body, t);
    OffsetNext(p, s.pc);
    AddrNoWrap(p, s.pc);
    AddrNoWrap(p, s.pc + 1);
    NoWrap(t.pc + 4 * Size(body));
    NoWrap(t.pc + 4 * Size(body) + 4);
  }

  lemma AlignedWord(x: Word)
    requires x % 4 == 0
    ensures Plus(x, 0) == x && x - x % 2 == x
  {
    EvenAligned(x);
    PlusZero(x);
    hide Plus, Wrap;
  }

  lemma EvenAligned(x: int)
    requires x % 4 == 0
    ensures x % 2 == 0
  {
    assert x == 4 * (x / 4);
    assert x == 2 * (2 * (x / 4));
  }

  lemma JumpTo(rd: Reg, r: Reg, m: Machine)
    requires m.regs[r] % 4 == 0
    ensures ExecJump(rd, r, 0, m) == m.(pc := m.regs[r], regs := Put(m.regs, rd, Wrap(m.pc + 4)))
  {
    hide Plus, Wrap;
    AlignedWord(m.regs[r]);
  }

  /** What the branch block does: continue at the target or at the next instruction. */
  lemma DoBranch(env: Env, cmp: Cmp, rs1: Reg, rs2: Reg, target: Word, next: Word, t: Machine) returns (t': Machine)
    requires EnvOk(env) && Ready(env, t) && Usable(rs1) && Usable(rs2) && target % 4 == 0 && next % 4 == 0
    ensures t' == ExecBlock(env.rom, Branch(env, cmp, rs1, rs2, target, next), t)
    ensures t'.ok && OnlyScratch(env, t, t', SLOTS) && OnlyRegs(t, t', {GP, TP})
    ensures t'.pc == if Taken(cmp, t.regs[rs1], t.regs[rs2]) then target else next
  {
    hide Exec, Plus, Wrap, Minus, WordIndex, ExecJump, EnvOk, StackOk, Select, Taken, OnlyScratch;
    var t1 := DoSelect(env, cmp, rs1, rs2, target, next, t);
    t' := ExecJump(0, TP, 0, t1);
    JumpTo(0, TP, t1);
    SameMemory(env, t, t1, t');
  }

  lemma SameMemory(env: Env, t: Machine, t1: Machine, t': Machine)
    requires OnlyScratch(env, t, t1, SLOTS) && t'.ram == t1.ram
    ensures OnlyScratch(env, t, t', SLOTS)
  {
  }

  lemma SimBranch(p: Program, s: Source, t: Machine)
    requires Loadable(p) && Related(p, s, t)
    requires StepSource(p, s).Some? && p.instrs[s.pc].BranchIf?
    ensures Related(p, StepSource(p, s).value, ExecBlock(p.env.rom, ExpandAt(p, s.pc), t))
  {
    hide Branch, ExecBlock, Offset, EnvOk, StackOk, Taken, AgreeMem, Live;
    var i := p.instrs[s.pc];
    assert OperandsOk(i) && TargetOk(p, i);
    assert Usable(i.rs1) && Usable(i.rs2);
    AgreeReady(p.env, s, t);
    AddrNoWrap(p, i.target);
    AddrNoWrap(p, s.pc + 1);
    var t' := DoBranch(p.env, i.cmp, i.rs1, i.rs2, Addr(p, i.target), Addr(p, s.pc + 1), t);
    LiveAgree(p.env, s, t, t');
  }

  lemma SimJumpReg(p: Program, s: Source, t: Machine)
    requires Loadable(p) && Related(p, s, t)
    requires StepSource(p, s).Some? && p.instrs[s.pc].JumpReg?
    ensures Related(p, StepSource(p, s).value, ExecBlock(p.env.rom, ExpandAt(p, s.pc), t))
  {
    hide Plus, Wrap, Minus, WordIndex, Offset, EnvOk, StackOk, AgreeMem, Live;
    var i := p.instrs[s.pc];
    assert OperandsOk(i) && TargetOk(p, i);
    assert Usable(i.rs1);
    var a := Plus(s.regs[i.rs1], i.off);
    FindAddrFinds(p, a - a % 2, 0);
    var target := FindAddr(p, a - a % 2, 0).value;
    BlockEnd(p, s, t, Nop);
    Lands(p, s, t, t, ExecBlock(p.env.rom, ExpandAt(p, s.pc), t), i.rd, target);
  }

  lemma SimCall(p: Program, s: Source, t: Machine)
    requires Loadable(p) && Related(p, s, t)
    requires StepSource(p, s).Some? && (p.instrs[s.pc].JumpLink? || p.instrs[s.pc].TailCall?)
    ensures Related(p, StepSource(p, s).value, ExecBlock(p.env.rom, ExpandAt(p, s.pc), t))
  {
    hide Exec, Plus, Wrap, Minus, WordIndex, ExecJump, Offset, EnvOk, StackOk, La, AgreeMem, Live, Size;
    var i := p.instrs[s.pc];
    assert OperandsOk(i) && TargetOk(p, i);
    AddrNoWrap(p, i.target);
    var rd: Reg := if i.JumpLink? then i.rd else 0;
    var r := if rd == 0 then TP else rd;
    var t1 := DoLa(p.env, r, Addr(p, i.target), t);
    if i.JumpLink? {
      BlockEnd(p, s, t, La(r, Addr(p, i.target)));
    }
    var t' := ExecBlock(p.env.rom, ExpandAt(p, s.pc), t);
    assert t' == ExecJump(rd, r, 0, t1);
    JumpTo(rd, r, t1);
    Lands(p, s, t, t1, t', rd, i.target);
    assert Put(s.regs, 0, Addr(p, s.pc + 1)) == s.regs;
  }

  /** Executing the expansion of an instruction does what the instruction does. */
  lemma SimStep(p: Program, s: Source, t: Machine)
    requires Loadable(p) && Related(p, s, t) && StepSource(p, s).Some?
    ensures Related(p, StepSource(p, s).value, ExecBlock(p.env.rom, ExpandAt(p, s.pc), t))
  {
    var i := p.instrs[s.pc];
    hide StepSource, ExecBlock, ExpandAt, Related;
    if i.BranchIf? {
      SimBranch(p, s, t);
    } else if i.JumpReg? {
      SimJumpReg(p, s, t);
    } else if IsJump(i) {
      SimCall(p, s, t);
    } else {
      SimPlain(p, s, t);
    }
  }

  // ---------- whole runs ----------

  /** One source step is matched by as many base-machine steps as the expansion executes. */
  lemma SimMachineStep(p: Program, s: Source, t: Machine)
    requires Loadable(p) && Related(p, s, t) && StepSource(p, s).Some?
    ensures Fits(Lowered(p))
    ensures Related(p, StepSource(p, s).value,
                    Run(p.env.rom, Lowered(p), t, BlockSteps(ExpandAt(p, s.pc))))
  {
    LoweredFits(p);
    assert s.pc < |p.instrs|;
    SimStep(p, s, t);
    hide StepSource, ExecBlock, ExpandAt, Offset, EnvOk, AgreeData, BlockCode, BlockSize, BlockSteps;
    ListingAt(p, s.pc, |p.instrs|);
    AddrNoWrap(p, s.pc);
    RunBlock(p.env.rom, Lowered(p), Offset(p, s.pc), ExpandAt(p, s.pc), t);
  }

  lemma StepInside(p: Program, s: Source)
    requires Loadable(p) && StepSource(p, s).Some?
    ensures s.pc < |p.instrs|
  {
  }

  /** Number of base-machine steps for n source steps. */
  ghost function Cost(p: Program, s: Source, n: nat): nat
    requires Loadable(p) && RunSource(p, s, n).Some?
  {
    if n == 0 then 0
    else
      var s1 := RunSource(p, s, n - 1).value;
      Cost(p, s, n - 1) + BlockSteps(ExpandAt(p, s1.pc))
  }

  /** The main theorem: whatever n steps of a source program lead to, the expanded program leads to a
      related state. It agrees on the pc, on every register but tp and gp and on every byte that has a
      value, and no access of it was misaligned, unmapped or outside RAM. */
  lemma {:induction false} LoweringSimulates(p: Program, s: Source, t: Machine, n: nat)
    requires Loadable(p) && Related(p, s, t) && RunSource(p, s, n).Some?
    ensures Fits(Lowered(p))
    ensures Related(p, RunSource(p, s, n).value, Run(p.env.rom, Lowered(p), t, Cost(p, s, n)))
  {
    hide StepSource, ExpandAt, Related, Lowered, Fits, EnvOk, Offset;
    LoweredFits(p);
    if n > 0 {
      LoweringSimulates(p, s, t, n - 1);
      var s1 := RunSource(p, s, n - 1).value;
      StepInside(p, s1);
      var t1 := Run(p.env.rom, Lowered(p), t, Cost(p, s, n - 1));
      SimMachineStep(p, s1, t1);
      RunAdd(p.env.rom, Lowered(p), t, Cost(p, s, n - 1), BlockSteps(ExpandAt(p, s1.pc)));
    }
  }
}
