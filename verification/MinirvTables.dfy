/** The lookup tables the macros index, the program that writes them, and where they are loaded. */
module MinirvTables {
  import opened Bits
  import opened MinirvMachine

  // ---------- signed view ----------

  function Signed(x: Word): int {
    if x < 0x8000_0000 then x else x - 0x1_0000_0000
  }

  // ---------- table contents ----------

  datatype Shift = Sll | Srl | Sra

  /** What a word entry of a shift table means: a byte shifted by j, from bit 0 for sll and from bit 24 otherwise. */
  function ShiftEntry(kind: Shift, j: nat, i: Byte): Word {
    match kind
    case Sll => Wrap(i * Pow2(j))
    case Srl =>
      DivAtMost(i * 0x100_0000, Pow2(j));
      i * 0x100_0000 / Pow2(j)
    case Sra => Wrap(Signed(i * 0x100_0000) / Pow2(j))
  }

  const LOGIC_BYTES := 256 * 256
  const SHIFT_BYTES := 32 * 256 * 4

  function LogicBase(op: BitOp): nat {
    match op
    case And => 0
    case Or => LOGIC_BYTES
    case Xor => 2 * LOGIC_BYTES
  }

  function ShiftBase(kind: Shift): nat {
    match kind
    case Sll => 3 * LOGIC_BYTES
    case Srl => 3 * LOGIC_BYTES + SHIFT_BYTES
    case Sra => 3 * LOGIC_BYTES + 2 * SHIFT_BYTES
  }

  function LogicEntry(op: BitOp, j: Byte, i: Byte): Byte {
    Pow2Values();
    Bitwise(op, 8, j, i)
  }

  predicate LogicTableIn(file: seq<Byte>, op: BitOp) {
    && LogicBase(op) + LOGIC_BYTES <= |file|
    && forall j: Byte, i: Byte :: file[LogicBase(op) + 256 * j + i] == LogicEntry(op, j, i)
  }

  /** Entries are words in memory order, four bytes each. */
  predicate ShiftTableIn(file: seq<Byte>, kind: Shift) {
    && ShiftBase(kind) + SHIFT_BYTES <= |file|
    && forall j: nat, i: Byte, k: nat | j < 32 && k < 4 ::
         file[ShiftBase(kind) + 1024 * j + 4 * i + k] == Lane(Split(ShiftEntry(kind, j, i)), k)
  }

  predicate LutFile(file: seq<Byte>) {
    && (forall op: BitOp :: LogicTableIn(file, op))
    && (forall kind: Shift :: ShiftTableIn(file, kind))
  }

  // ---------- the generator ----------

  /** The 1-byte entries of a logic table, row by row, appended to the file. */
  method GenLogicTable(file: seq<Byte>, op: BitOp) returns (out: seq<Byte>)
    ensures |out| == |file| + LOGIC_BYTES && out[..|file|] == file
    ensures forall j: Byte, i: Byte :: out[|file| + 256 * j + i] == LogicEntry(op, j, i)
    ensures |file| == LogicBase(op) ==> LogicTableIn(out, op)
  {
    hide LogicEntry;
    out := file;
    for j := 0 to 256
      invariant |out| == |file| + 256 * j && out[..|file|] == file
      invariant forall j': Byte, i: Byte | j' < j :: out[|file| + 256 * j' + i] == LogicEntry(op, j', i)
    {
      ghost var before := out;
      for i := 0 to 256
        invariant |out| == |before| + i && out[..|before|] == before
        invariant forall i': Byte | i' < i :: out[|before| + i'] == LogicEntry(op, j, i')
      {
        out := out + [LogicEntry(op, j, i)];
      }
      forall j': Byte, i: Byte | j' < j
        ensures out[|file| + 256 * j' + i] == LogicEntry(op, j', i)
      {
        assert out[..|before|][|file| + 256 * j' + i] == before[|file| + 256 * j' + i];
      }
      assert out[..|file|] == before[..|file|];
    }
  }

  /** The 4-byte entries of a shift table, row by row, appended to the file. */
  method GenShiftTable(file: seq<Byte>, kind: Shift) returns (out: seq<Byte>)
    ensures |out| == |file| + SHIFT_BYTES && out[..|file|] == file
    ensures forall j: nat, i: Byte, k: nat | j < 32 && k < 4 ::
              out[|file| + 1024 * j + 4 * i + k] == Lane(Split(ShiftEntry(kind, j, i)), k)
    ensures |file| == ShiftBase(kind) ==> ShiftTableIn(out, kind)
  {
    hide ShiftEntry, Split;
    out := file;
    for j := 0 to 32
      invariant |out| == |file| + 1024 * j && out[..|file|] == file
      invariant forall j': nat, i: Byte, k: nat | j' < j && k < 4 ::
                  out[|file| + 1024 * j' + 4 * i + k] == Lane(Split(ShiftEntry(kind, j', i)), k)
    {
      ghost var before := out;
      for i := 0 to 256
        invariant |out| == |before| + 4 * i && out[..|before|] == before
        invariant forall i': Byte, k: nat | i' < i && k < 4 ::
                    out[|before| + 4 * i' + k] == Lane(Split(ShiftEntry(kind, j, i')), k)
      {
        var c := Split(ShiftEntry(kind, j, i));
        out := out + [c.b0, c.b1, c.b2, c.b3];
      }
      forall j': nat, i: Byte, k: nat | j' < j && k < 4
        ensures out[|file| + 1024 * j' + 4 * i + k] == Lane(Split(ShiftEntry(kind, j', i)), k)
      {
        assert out[..|before|][|file| + 1024 * j' + 4 * i + k] == before[|file| + 1024 * j' + 4 * i + k];
      }
      assert out[..|file|] == before[..|file|];
    }
  }

  /** gen-lut: the six tables one after the other, in the order the macros address them. */
  method GenLut() returns (file: seq<Byte>)
    ensures |file| == 3 * LOGIC_BYTES + 3 * SHIFT_BYTES
    ensures LutFile(file)
  {
    hide LogicTableIn, ShiftTableIn;
    var f1 := GenLogicTable([], And);
    var f2 := GenLogicTable(f1, Or);
    var f3 := GenLogicTable(f2, Xor);
    var f4 := GenShiftTable(f3, Sll);
    var f5 := GenShiftTable(f4, Srl);
    file := GenShiftTable(f5, Sra);
    LogicStays(f1, f2, And);
    LogicStays(f2, f3, And);
    LogicStays(f2, f3, Or);
    forall op: BitOp
      ensures LogicTableIn(f3, op)
    {
      match op
      case And =>
      case Or =>
      case Xor =>
    }
    LogicsStay(f3, f4);
    LogicsStay(f4, f5);
    LogicsStay(f5, file);
    ShiftStays(f4, f5, Sll);
    ShiftStays(f5, file, Sll);
    ShiftStays(f5, file, Srl);
    forall kind: Shift
      ensures ShiftTableIn(file, kind)
    {
      match kind
      case Sll =>
      case Srl =>
      case Sra =>
    }
  }

  lemma LogicStays(f: seq<Byte>, g: seq<Byte>, op: BitOp)
    requires LogicTableIn(f, op) && |f| <= |g| && g[..|f|] == f
    ensures LogicTableIn(g, op)
  {
    forall j: Byte, i: Byte
      ensures g[LogicBase(op) + 256 * j + i] == LogicEntry(op, j, i)
    {
      assert g[..|f|][LogicBase(op) + 256 * j + i] == f[LogicBase(op) + 256 * j + i];
    }
  }

  lemma LogicsStay(f: seq<Byte>, g: seq<Byte>)
    requires (forall op: BitOp :: LogicTableIn(f, op)) && |f| <= |g| && g[..|f|] == f
    ensures forall op: BitOp :: LogicTableIn(g, op)
  {
    forall op: BitOp
      ensures LogicTableIn(g, op)
    {
      LogicStays(f, g, op);
    }
  }

  lemma ShiftStays(f: seq<Byte>, g: seq<Byte>, kind: Shift)
    requires ShiftTableIn(f, kind) && |f| <= |g| && g[..|f|] == f
    ensures ShiftTableIn(g, kind)
  {
    forall j: nat, i: Byte, k: nat | j < 32 && k < 4
      ensures g[ShiftBase(kind) + 1024 * j + 4 * i + k] == Lane(Split(ShiftEntry(kind, j, i)), k)
    {
      assert g[..|f|][ShiftBase(kind) + 1024 * j + 4 * i + k] == f[ShiftBase(kind) + 1024 * j + 4 * i + k];
    }
  }
}
