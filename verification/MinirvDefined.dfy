/** When a source instruction has a meaning: which loads, stores and jumps are defined, told from the
    memory map alone, and what a step leaves in memory. */
module MinirvDefined {
  import opened Bits
  import opened MinirvMachine
  import opened MinirvTables
  import opened MinirvMacros
  import opened MinirvShifts
  import opened MinirvEffects
  import opened MinirvSource

  // ---------- which programs are legal ----------

  /** All registers an instruction names. */
  function Registers(i: Instr): set<Reg> {
    match i
    case Native(Add(rd, rs1, rs2)) => {rd, rs1, rs2}
    case Native(Addi(rd, rs1, _)) => {rd, rs1}
    case Native(Lui(rd, _)) => {rd}
    case Native(Lw(rd, rs1, _)) => {rd, rs1}
    case Native(Lbu(rd, rs1, _)) => {rd, rs1}
    case Native(Sw(rs2, rs1, _)) => {rs2, rs1}
    case Native(Sb(rs2, rs1, _)) => {rs2, rs1}
    case JumpReg(rd, rs1, _) => {rd, rs1}
    case Alu(_, rd, rs1, rs2) => {rd, rs1, rs2}
    case AluImm(_, rd, rs1, _) => {rd, rs1}
    case Lb(rd, rs1, _) => {rd, rs1}
    case Lh(rd, rs1, _) => {rd, rs1}
    case Lhu(rd, rs1, _) => {rd, rs1}
    case StoreHalf(rs2, rs1, _) => {rs2, rs1}
    case BranchIf(_, rs1, rs2, _) => {rs1, rs2}
    case JumpLink(rd, _) => {rd}
    case TailCall(_) => {}
    case LoadAddress(rd, _) => {rd}
    case Seqz(rd, rs1) => {rd, rs1}
    case Complement(rd, rs1) => {rd, rs1}
    case Sltz(rd, rs1) => {rd, rs1}
  }

  /** The immediate is one the instruction has room for; halfword accesses also use the one after it. */
  predicate ImmediateFits(i: Instr) {
    match i
    case Native(Lui(_, imm)) => 0 <= imm < 0x10_0000
    case Native(Add(_, _, _)) => true
    case Native(b) => -2048 <= b.imm <= 2047
    case JumpReg(_, _, off) => -2048 <= off <= 2047
    case AluImm(op, _, _, imm) => if op.ShiftOp? then 0 <= imm <= 31 else -2048 <= imm <= 2047
    case Lb(_, _, off) => -2048 <= off <= 2047
    case Lh(_, _, off) => -2048 <= off <= 2046
    case Lhu(_, _, off) => -2048 <= off <= 2046
    case StoreHalf(_, _, off) => -2048 <= off <= 2046
    case _ => true
  }

  /** sp, and s0 for seqz, where the macro aborts or could not restore its registers. */
  predicate BadOperand(i: Instr) {
    || (i.Lb? && i.rd == SP) || (i.Sltz? && i.rd == SP) || (i.Seqz? && (i.rd == SP || i.rd == S0))
    || ((i.Alu? || i.AluImm?) && i.op.LogicOp? && i.rd != 0 && SP in Registers(i))
  }

  /** An instruction may be in a program exactly if it leaves gp and tp alone, its immediate fits, its macro can
      handle its operands, and its target, if it has one, is an index; subtraction has no immediate form. */
  lemma LegalExactly(p: Program, i: Instr)
    ensures OperandsOk(i) <==> GP !in Registers(i) && TP !in Registers(i) && ImmediateFits(i) && !BadOperand(i)
                               && (i.AluImm? ==> i.op != SubOp)
    ensures TargetOk(p, i) <==> (i.BranchIf? || i.JumpLink? || i.TailCall? ==> i.target <= |p.instrs|)
  {
  }

  // ---------- jumps ----------

  /** The search finds the first index with the address from `k` on, and fails only if there is none. */
  lemma {:induction false} FindAddrExact(p: Program, a: Word, k: nat)
    requires Legal(p) && k <= |p.instrs|
    ensures FindAddr(p, a, k).None? <==> forall j | k <= j <= |p.instrs| :: Addr(p, j) != a
    ensures FindAddr(p, a, k).Some? ==>
              var i := FindAddr(p, a, k).value;
              k <= i <= |p.instrs| && Addr(p, i) == a && forall j | k <= j < i :: Addr(p, j) != a
    decreases |p.instrs| - k
  {
    hide Addr;
    if Addr(p, k) != a && k < |p.instrs| {
      FindAddrExact(p, a, k + 1);
    }
  }

  /** Every address of the listing can be jumped to. */
  lemma AddressFound(p: Program, k: nat)
    requires Legal(p) && k <= |p.instrs|
    ensures var i := FindAddr(p, Addr(p, k), 0); i.Some? && i.value <= |p.instrs| && Addr(p, i.value) == Addr(p, k)
  {
    FindAddrExact(p, Addr(p, k), 0);
    hide Addr;
  }

  // ---------- loads and stores ----------

  /** The byte has a value that lasts: it is none of the 28 below sp. */
  predicate HasValue(s: Source, a: int) {
    a in s.mem && !(s.regs[SP] - 28 <= a < s.regs[SP])
  }

  /** The word of the byte is writable, holds no byte of the scratch array, and the byte is none of the
      28 below sp. */
  predicate MayStore(env: Env, s: Source, a: int) {
    && a / 4 in env.ramKeys && !(s.regs[SP] - 28 <= a < s.regs[SP])
    && forall b | env.arr <= b < env.arr + 256 :: b / 4 != a / 4
  }

  /** Where an instruction loads or stores, and how many bytes; a halfword at the end of the address
      space goes on at its beginning. */
  function Address(s: Source, rs1: Reg, off: int): int {
    (s.regs[rs1] + off) % 0x1_0000_0000
  }

  /** The instruction at the pc has a meaning. */
  ghost predicate Defined(p: Program, s: Source)
    requires Loadable(p)
  {
    s.pc < |p.instrs| && StackOk(p.env, s.regs[SP]) &&
    match p.instrs[s.pc]
    case Native(Lw(_, rs1, off)) =>
      var a := Address(s, rs1, off);
      a % 4 == 0 && HasValue(s, a) && HasValue(s, a + 1) && HasValue(s, a + 2) && HasValue(s, a + 3)
    case Native(Lbu(_, rs1, off)) => HasValue(s, Address(s, rs1, off))
    case Native(Sw(_, rs1, off)) => Address(s, rs1, off) % 4 == 0 && MayStore(p.env, s, Address(s, rs1, off))
    case Native(Sb(_, rs1, off)) => MayStore(p.env, s, Address(s, rs1, off))
    case Lb(_, rs1, off) => HasValue(s, Address(s, rs1, off))
    case Lh(_, rs1, off) => HasValue(s, Address(s, rs1, off)) && HasValue(s, Address(s, rs1, off + 1))
    case Lhu(_, rs1, off) => HasValue(s, Address(s, rs1, off)) && HasValue(s, Address(s, rs1, off + 1))
    case StoreHalf(_, rs1, off) => MayStore(p.env, s, Address(s, rs1, off)) && MayStore(p.env, s, Address(s, rs1, off + 1))
    case JumpReg(_, rs1, off) =>
      var a := Address(s, rs1, off);
      exists k :: 0 <= k <= |p.instrs| && Addr(p, k) == a - a % 2
    case _ => true
  }

  lemma RedZone(sp: Word, a: int)
    requires sp % 4 == 0
    ensures InRed(sp, a) <==> sp - 28 <= a < sp
  {
    var q, k := sp / 4, a / 4;
    assert sp == 4 * q && 4 * k <= a < 4 * k + 4;
  }

  lemma LiveIs(s: Source, a: int)
    requires s.regs[SP] % 4 == 0
    ensures a in Live(s.mem, s.regs[SP]) <==> HasValue(s, a)
    ensures HasValue(s, a) ==> Live(s.mem, s.regs[SP])[a] == s.mem[a]
  {
    RedZone(s.regs[SP], a);
    hide InRed;
  }

  lemma ArrayWords(env: Env, k: int)
    ensures InArray(env, k) <==> exists b :: env.arr <= b < env.arr + 256 && b / 4 == k
  {
    if InArray(env, k) {
      var b := if 4 * k < env.arr then env.arr else 4 * k;
      assert b / 4 == k;
    }
  }

  lemma StoreOkIs(env: Env, s: Source, a: int)
    requires s.regs[SP] % 4 == 0
    ensures StoreOk(env, s.regs[SP], a) <==> MayStore(env, s, a)
  {
    RedZone(s.regs[SP], a);
    ArrayWords(env, a / 4);
    hide InRed, InArray;
  }

  lemma BaseDefined(p: Program, s: Source, b: Base)
    requires Loadable(p) && s.pc < |p.instrs| && p.instrs[s.pc] == Native(b) && StackOk(p.env, s.regs[SP])
    ensures StepBase(p.env, s, b).Some? <==> Defined(p, s)
  {
    assert s.regs[SP] % 4 == 0;
    hide StackOk, EnvOk, Legal, Offset, Live, StoreOk, HasValue, MayStore;
    match b
    case Add(_, _, _) =>
    case Addi(_, _, _) =>
    case Lui(_, _) =>
    case Lw(_, rs1, off) =>
      var a: int := Plus(s.regs[rs1], off);
      LiveIs(s, a);
      LiveIs(s, a + 1);
      LiveIs(s, a + 2);
      LiveIs(s, a + 3);
    case Lbu(_, rs1, off) => LiveIs(s, Plus(s.regs[rs1], off));
    case Sw(_, rs1, off) => StoreOkIs(p.env, s, Plus(s.regs[rs1], off));
    case Sb(_, rs1, off) => StoreOkIs(p.env, s, Plus(s.regs[rs1], off));
  }

  /** A step exists exactly where the instruction is defined; so a jump through a register goes on exactly
      if its even target is the address of an instruction, or of the end of the listing. */
  lemma StepDefined(p: Program, s: Source)
    requires Loadable(p)
    ensures StepSource(p, s).Some? <==> Defined(p, s)
  {
    if s.pc < |p.instrs| && StackOk(p.env, s.regs[SP]) {
      var i := p.instrs[s.pc];
      LegalAt(p, s.pc);
      assert s.regs[SP] % 4 == 0;
      hide Live, StoreOk, HasValue, MayStore, StackOk, EnvOk, Legal, FindAddr, Addr, StepBase;
      match i
      case Native(b) => BaseDefined(p, s, b);
      case Lb(_, rs1, off) => OneByte(p, s, rs1, off);
      case Lh(_, rs1, off) => TwoBytes(p, s, rs1, off);
      case Lhu(_, rs1, off) => TwoBytes(p, s, rs1, off);
      case StoreHalf(_, rs1, off) => TwoBytes(p, s, rs1, off);
      case JumpReg(_, _, _) => JumpDefined(p, s);
      case _ =>
    }
  }

  lemma LegalAt(p: Program, k: nat)
    requires Legal(p) && k < |p.instrs|
    ensures OperandsOk(p.instrs[k]) && TargetOk(p, p.instrs[k])
  {
  }

  lemma PlusIs(s: Source, rs1: Reg, off: int)
    ensures Plus(s.regs[rs1], off) == Address(s, rs1, off)
  {
  }

  /** A jump through a register is a search for the even target. */
  lemma StepJump(p: Program, s: Source)
    requires Loadable(p) && s.pc < |p.instrs| && StackOk(p.env, s.regs[SP]) && p.instrs[s.pc].JumpReg?
    ensures var i := p.instrs[s.pc];
            var a := Address(s, i.rs1, i.off);
            var t := FindAddr(p, a - a % 2, 0);
            StepSource(p, s) == if t.Some? then Some(Source(t.value, Put(s.regs, i.rd, Addr(p, s.pc + 1)), Live(s.mem, s.regs[SP])))
                                else None
  {
    hide Live, StackOk, EnvOk, Legal, FindAddr, Addr, Put, Plus, Address, StepBase, Next, Stored, StoreOk;
    var i := p.instrs[s.pc];
    LegalAt(p, s.pc);
    PlusIs(s, i.rs1, i.off);
  }

  lemma JumpDefined(p: Program, s: Source)
    requires Loadable(p) && s.pc < |p.instrs| && StackOk(p.env, s.regs[SP]) && p.instrs[s.pc].JumpReg?
    ensures StepSource(p, s).Some? <==> Defined(p, s)
  {
    hide Live, StackOk, EnvOk, Legal, FindAddr, Addr, StepSource, Put;
    var i := p.instrs[s.pc];
    StepJump(p, s);
    var a := Address(s, i.rs1, i.off);
    FindAddrExact(p, a - a % 2, 0);
  }

  lemma OneByte(p: Program, s: Source, rs1: Reg, off: int)
    requires s.regs[SP] % 4 == 0
    ensures Plus(s.regs[rs1], off) == Address(s, rs1, off)
    ensures Plus(s.regs[rs1], off) in Live(s.mem, s.regs[SP]) <==> HasValue(s, Address(s, rs1, off))
    ensures StoreOk(p.env, s.regs[SP], Plus(s.regs[rs1], off)) <==> MayStore(p.env, s, Address(s, rs1, off))
  {
    LiveIs(s, Plus(s.regs[rs1], off));
    StoreOkIs(p.env, s, Plus(s.regs[rs1], off));
    hide Live, StoreOk, HasValue, MayStore;
  }

  lemma TwoBytes(p: Program, s: Source, rs1: Reg, off: int)
    requires s.regs[SP] % 4 == 0
    ensures Plus(s.regs[rs1], off) == Address(s, rs1, off) && Plus(s.regs[rs1], off + 1) == Address(s, rs1, off + 1)
    ensures Plus(s.regs[rs1], off) in Live(s.mem, s.regs[SP]) <==> HasValue(s, Address(s, rs1, off))
    ensures Plus(s.regs[rs1], off + 1) in Live(s.mem, s.regs[SP]) <==> HasValue(s, Address(s, rs1, off + 1))
    ensures StoreOk(p.env, s.regs[SP], Plus(s.regs[rs1], off)) <==> MayStore(p.env, s, Address(s, rs1, off))
    ensures StoreOk(p.env, s.regs[SP], Plus(s.regs[rs1], off + 1)) <==> MayStore(p.env, s, Address(s, rs1, off + 1))
  {
    OneByte(p, s, rs1, off);
    OneByte(p, s, rs1, off + 1);
  }

  /** A jump through a register continues at an index that has the even target as its address. */
  lemma JumpRegGoes(p: Program, s: Source)
    requires Loadable(p) && StepSource(p, s).Some? && p.instrs[s.pc].JumpReg?
    ensures var i, s' := p.instrs[s.pc], StepSource(p, s).value;
            var a := Address(s, i.rs1, i.off);
            && s'.pc <= |p.instrs| && Addr(p, s'.pc) == a - a % 2
            && s'.regs == Put(s.regs, i.rd, Addr(p, s.pc + 1))
  {
    assert s.pc < |p.instrs| && StackOk(p.env, s.regs[SP]);
    StepJump(p, s);
    hide Live, StackOk, EnvOk, Legal, FindAddr, Addr, Address, StepSource, Put;
    var i := p.instrs[s.pc];
    var a := Address(s, i.rs1, i.off);
    FindAddrExact(p, a - a % 2, 0);
  }

  // ---------- what a step leaves ----------

  /** The instruction at the pc stores into byte `a`. */
  predicate Writes(p: Program, s: Source, a: int)
    requires s.pc < |p.instrs|
  {
    match p.instrs[s.pc]
    case Native(Sw(_, rs1, off)) => Address(s, rs1, off) <= a < Address(s, rs1, off) + 4
    case Native(Sb(_, rs1, off)) => a == Address(s, rs1, off)
    case StoreHalf(_, rs1, off) => a == Address(s, rs1, off) || a == Address(s, rs1, off + 1)
    case _ => false
  }

  /** A step loses no byte but those below sp and changes none but those it stores into. */
  lemma StepMemory(p: Program, s: Source, a: int)
    requires Loadable(p) && StepSource(p, s).Some?
    ensures var mem := StepSource(p, s).value.mem;
            if Writes(p, s, a) then a in mem
            else (a in mem <==> HasValue(s, a)) && (HasValue(s, a) ==> mem[a] == s.mem[a])
  {
    var i := p.instrs[s.pc];
    LegalAt(p, s.pc);
    assert s.regs[SP] % 4 == 0;
    hide Live, HasValue, EnvOk, StackOk, Legal, FindAddr, Addr, Split, StepBase;
    LiveIs(s, a);
    if i.Native? {
      BaseMemory(p, s, i.b, a);
    }
  }

  /** A word is four bytes; the others stay. */
  lemma WordBytes(mem: map<int, Byte>, at: int, x: Word, a: int)
    ensures var mem' := PutWord(mem, at, x);
            if at <= a < at + 4 then a in mem' else (a in mem' <==> a in mem) && (a in mem ==> mem'[a] == mem[a])
  {
    hide Split;
  }

  lemma BaseMemory(p: Program, s: Source, b: Base, a: int)
    requires s.pc < |p.instrs| && p.instrs[s.pc] == Native(b) && StepBase(p.env, s, b).Some? && s.regs[SP] % 4 == 0
    ensures var mem := StepBase(p.env, s, b).value.mem;
            if Writes(p, s, a) then a in mem
            else (a in mem <==> HasValue(s, a)) && (HasValue(s, a) ==> mem[a] == s.mem[a])
  {
    LiveIs(s, a);
    if b.Sw? || b.Sb? {
      var at := Plus(s.regs[b.rs1], b.imm);
      assert at == Address(s, b.rs1, b.imm);
      WordBytes(Live(s.mem, s.regs[SP]), at, s.regs[b.rs2], a);
      hide Live, HasValue, StoreOk, PutWord, Plus, Address;
    } else {
      hide Live, HasValue, WordAt, Put, Plus, Wrap;
    }
  }

  /** A run goes on as long as its instructions are defined. */
  lemma RunDefined(p: Program, s: Source, n: nat)
    requires Loadable(p)
    ensures RunSource(p, s, 0) == Some(s)
    ensures RunSource(p, s, n + 1).Some? <==> RunSource(p, s, n).Some? && Defined(p, RunSource(p, s, n).value)
  {
    if RunSource(p, s, n).Some? {
      StepDefined(p, RunSource(p, s, n).value);
    }
    hide StepSource, Defined;
  }
}
