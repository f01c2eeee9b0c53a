/** Every instruction an expansion consists of is one of the eight base instructions with an
    immediate that fits its encoding. */
module MinirvEncoding {
  import opened Bits
  import opened MinirvMachine
  import opened MinirvTables
  import opened MinirvMacros

  predicate Encodes(c: Code) {
    match c
    case Nop => true
    case Op(b) => Encodable(b)
    case Cat(c1, c2) => Encodes(c1) && Encodes(c2)
  }

  /** The code of a block, the unreached part included. */
  predicate BlockEncodes(b: Block) {
    && Encodes(b.body)
    && (b.exit.JumpBy? ==> ImmOk(b.exit.imm) && forall k | 0 <= k < |b.exit.unreached| :: InstructionEncodes(b.exit.unreached[k]))
  }

  predicate InstructionEncodes(i: Instruction) {
    match i
    case Data(b) => Encodable(b)
    case Jalr(_, _, imm) => ImmOk(imm)
  }

  /** The definition, for code of any depth. */
  lemma Unfold()
    ensures forall c1, c2 :: Encodes(Cat(c1, c2)) <==> Encodes(c1) && Encodes(c2)
    ensures forall b :: Encodes(Op(b)) <==> Encodable(b)
    ensures Encodes(Nop)
  {
  }

  // ---------- addresses, bytes, halfwords ----------

  /** Both halves of any address fit, and so does the carry between them. */
  lemma LaEncodes()
    ensures forall r: Reg, a: int :: Encodes(La(r, a))
  {
  }

  /** A halfword store needs room for the offset of its second byte. */
  lemma ShEncodes(rs: Reg, base: Reg, off: int)
    requires ImmOk(off) && ImmOk(off + 1)
    ensures Encodes(Sh(rs, base, off))
  {
    Unfold();
    hide Encodes;
  }

  lemma {:induction false} DoublesEncode(r: Reg, n: nat)
    ensures Encodes(Doubles(r, n))
  {
    if n > 0 {
      DoublesEncode(r, n - 1);
    }
  }

  lemma {:induction false} SlliEncodes(rd: Reg, rs1: Reg, imm: nat)
    requires imm < 32
    ensures Encodes(Slli(rd, rs1, imm))
    decreases imm
  {
    Unfold();
    hide Encodes, Sh;
    if imm >= 16 {
      SlliEncodes(rd, rd, if imm >= 24 then imm - 24 else imm - 16);
      ShEncodes(rs1, SP, SlotOff(VAR_A, 2));
    } else if imm > 0 {
      DoublesEncode(rd, imm - 1);
    }
  }

  lemma ShortSlli()
    ensures forall r: Reg :: Encodes(Slli(r, r, 1)) && Encodes(Slli(r, r, 2)) && Encodes(Slli(r, r, 8))
  {
    forall r: Reg
      ensures Encodes(Slli(r, r, 1)) && Encodes(Slli(r, r, 2)) && Encodes(Slli(r, r, 8))
    {
      SlliEncodes(r, r, 1);
      SlliEncodes(r, r, 2);
      SlliEncodes(r, r, 8);
    }
  }

  // ---------- arithmetic, comparison, logic ----------

  lemma MsbEncodes()
    ensures forall rd: Reg, rs1: Reg :: Encodes(Msb(rd, rs1))
  {
    Unfold();
    ShortSlli();
    hide Encodes, Slli;
  }

  lemma NotEncodes(env: Env)
    ensures forall rd: Reg, rs1: Reg :: Encodes(Not(env, rd, rs1))
  {
    Unfold();
    LaEncodes();
    hide Encodes, La;
  }

  lemma SltEncodes(env: Env)
    ensures forall table: Word, rd: Reg, rs1: Reg, rs2: Reg :: Encodes(SltTemplate(env, table, rd, rs1, rs2))
  {
    Unfold();
    LaEncodes();
    ShortSlli();
    MsbEncodes();
    NotEncodes(env);
    hide Encodes, La, Slli, Msb, Not;
  }

  lemma LogicEncodes(env: Env, op: BitOp)
    ensures forall rd: Reg, rs1: Reg, rs2: Reg :: Encodes(Logic(env, op, rd, rs1, rs2))
  {
    Unfold();
    LaEncodes();
    hide Encodes, La;
  }

  lemma EqualEncodes(env: Env)
    ensures forall rd: Reg, rs1: Reg, rs2: Reg :: Encodes(SetEqual(env, rd, rs1, rs2))
  {
    Unfold();
    LaEncodes();
    hide Encodes, La;
  }

  lemma ZeroEncodes(env: Env)
    ensures forall rd: Reg, rs1: Reg :: Encodes(SetZero(env, rd, rs1))
  {
    Unfold();
    LaEncodes();
    hide Encodes, La;
  }

  // ---------- shifts ----------

  lemma ShiftRowEncodes(env: Env, kind: Shift)
    ensures forall rs1: Reg, rs2: Reg :: Encodes(ShiftRow(env, kind, rs1, rs2))
  {
    Unfold();
    LaEncodes();
    ShortSlli();
    hide Encodes, La, Slli;
  }

  lemma ShiftLeftEncodes(env: Env)
    ensures forall rd: Reg, rs1: Reg, rs2: Reg :: Encodes(ShiftLeft(env, rd, rs1, rs2))
  {
    Unfold();
    ShortSlli();
    ShiftRowEncodes(env, Sll);
    ShEncodes(TP, SP, SlotOff(VAR_B, 2));
    hide Encodes, Sh, Slli, ShiftRow;
  }

  lemma RightBodyEncodes(env: Env, arith: bool)
    ensures forall rd: Reg :: Encodes(ShiftRightBody(env, arith, rd))
  {
    Unfold();
    LaEncodes();
    ShortSlli();
    hide Encodes, La, Slli;
  }

  lemma ShiftRightEncodes(env: Env, arith: bool)
    ensures forall rd: Reg, rs1: Reg, rs2: Reg :: Encodes(ShiftRight(env, arith, rd, rs1, rs2))
    ensures forall rd: Reg, rs1: Reg, imm: int :: Encodes(ShiftRightImm(env, arith, rd, rs1, imm))
  {
    Unfold();
    LaEncodes();
    ShortSlli();
    ShiftRowEncodes(env, Srl);
    RightBodyEncodes(env, arith);
    hide Encodes, La, Slli, ShiftRow, ShiftRightBody;
  }

  // ---------- loads, branches ----------

  lemma LoadsEncode(env: Env, rd: Reg, base: Reg, off: int)
    requires ImmOk(off)
    ensures Encodes(LoadSigned8(env, rd, base, off))
    ensures ImmOk(off + 1) ==> Encodes(LoadUnsigned16(rd, base, off)) && Encodes(LoadSigned16(env, rd, base, off))
  {
    Unfold();
    ShiftRightEncodes(env, true);
    hide Encodes, ShiftRightImm;
  }

  lemma ResolveEncodes()
    ensures forall high: Word, low: Word :: Encodes(BranchResolve(high, low))
  {
    Unfold();
    LaEncodes();
    ShortSlli();
    hide Encodes, La, Slli;
  }

  lemma SelectEncodes(env: Env, cmp: Cmp, rs1: Reg, rs2: Reg, target: Word, next: Word)
    ensures Encodes(Select(env, cmp, rs1, rs2, target, next))
  {
    Unfold();
    LaEncodes();
    ResolveEncodes();
    SltEncodes(env);
    ZeroEncodes(env);
    EqualEncodes(env);
    MsbEncodes();
    hide Encodes, La, BranchResolve, SltTemplate, SetZero, SetEqual, Msb;
  }

  lemma AluEncodes(env: Env, op: AluOp, rd: Reg, rs1: Reg, rs2: Reg)
    ensures Encodes(ExpandAlu(env, op, rd, rs1, rs2))
  {
    Unfold();
    match op
    case SubOp => NotEncodes(env); hide Encodes, Not;
    case SltOp => SltEncodes(env); hide Encodes, SltTemplate;
    case SltuOp => SltEncodes(env); hide Encodes, SltTemplate;
    case LogicOp(b) => LogicEncodes(env, b); hide Encodes, Logic;
    case ShiftOp(kind) =>
      ShiftLeftEncodes(env);
      ShiftRightEncodes(env, kind == Sra);
      hide Encodes, ShiftLeft, ShiftRight;
  }

  /** Whatever the operands and the addresses, an expansion can be assembled. */
  lemma ExpansionEncodes(env: Env, i: Instr, target: Word, next: Word)
    requires OperandsOk(i)
    ensures BlockEncodes(Expand(env, i, target, next))
  {
    Unfold();
    LaEncodes();
    hide Encodes, ExpandAlu, Slli, ShiftRightImm, LoadSigned8, LoadSigned16, LoadUnsigned16, Sh, Select, La, SetZero, Not, Msb;
    match i
    case Alu(op, rd, rs1, rs2) => AluEncodes(env, op, rd, rs1, rs2);
    case AluImm(op, rd, rs1, imm) =>
      if op.ShiftOp? {
        SlliEncodes(rd, rs1, imm);
        ShiftRightEncodes(env, op.kind == Sra);
      } else {
        AluEncodes(env, op, rd, rs1, TP);
      }
    case Lb(rd, rs1, off) => LoadsEncode(env, rd, rs1, off);
    case Lh(rd, rs1, off) => LoadsEncode(env, rd, rs1, off);
    case Lhu(rd, rs1, off) => LoadsEncode(env, rd, rs1, off);
    case StoreHalf(rs2, rs1, off) => ShEncodes(rs2, rs1, off);
    case BranchIf(cmp, rs1, rs2, _) => SelectEncodes(env, cmp, rs1, rs2, target, next);
    case TailCall(_) => TailEncodes(target);
    case Seqz(rd, rs1) => ZeroEncodes(env);
    case Complement(rd, rs1) => NotEncodes(env);
    case Sltz(rd, rs1) => MsbEncodes();
    case Native(b) =>
    case LoadAddress(rd, addr) =>
    case JumpLink(rd, _) =>
    case JumpReg(_, _, _) =>
  }

  lemma TailEncodes(target: Word)
    ensures forall k | 0 <= k < |Flatten(La(RA, target)) + [Jalr(RA, RA, 0)]| ::
              InstructionEncodes((Flatten(La(RA, target)) + [Jalr(RA, RA, 0)])[k])
  {
    assert Flatten(La(RA, target)) == [Data(Lui(RA, Hi(target))), Data(Addi(RA, RA, Lo(target)))];
  }
}
