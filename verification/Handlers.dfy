/** The table of memory handlers: four-bit indices, two to a byte, into a list of at most sixteen
    functions, in place of a plain table of 64K functions. */
module Handlers {
  import opened Bits

  type Byte = x: int | 0 <= x < 0x100

  /** Functions by number; 0 is the null pointer. */
  type Func = nat

  const FUNC_IDX_MAX := 16

  // ---------- nibbles ----------

  function Nibble(b: Byte, odd: bool): nat {
    if odd then b / 16 else b % 16
  }

  function And8(x: int, y: int): Byte {
    Pow2Values();
    Bitwise(And, 8, x, y)
  }

  function Or8(x: int, y: int): Byte {
    Pow2Values();
    Bitwise(Or, 8, x, y)
  }

  /** What GetIdx does to the byte. */
  function TakeNibble(b: Byte, odd: bool): int {
    if odd then b / 16 else And8(b, 0xF)
  }

  /** What SetIdx does to the byte. */
  function PutNibble(b: Byte, odd: bool, i: int): Byte {
    var mask, v := if odd then 0xF0 else 0xF, if odd then i * 16 else i;
    Or8(And8(b, 0xFF - mask), v)
  }

  lemma Pow2Of4()
    ensures Pow2(4) == 16
  {
    Pow2Small();
    hide Pow2;
    Pow2Add(2, 2);
  }

  lemma TakeNibbleIs(b: Byte, odd: bool)
    ensures TakeNibble(b, odd) == Nibble(b, odd)
  {
    hide Bitwise, Pow2;
    Pow2Of4();
    AndLowMask(8, 4, b);
  }

  /** A nibble write sets its own nibble and never disturbs the other one. */
  lemma PutNibbleIs(b: Byte, odd: bool, i: nat)
    requires i < 16
    ensures Nibble(PutNibble(b, odd, i), odd) == i && Nibble(PutNibble(b, odd, i), !odd) == Nibble(b, !odd)
  {
    hide And8, Or8;
    if odd {
      OddNibble(b, i);
    } else {
      EvenNibble(b, i);
    }
  }

  lemma OddNibble(b: Byte, i: nat)
    requires i < 16
    ensures Or8(And8(b, 0xF), i * 16) == i * 16 + b % 16
  {
    hide Bitwise, Pow2;
    Pow2Of4();
    Pow2Values();
    AndLowMask(8, 4, b);
    OrDisjoint(8, 4, i * 16, b % 16);
    BitwiseSymmetric(Or, 8, i * 16, b % 16);
  }

  lemma EvenNibble(b: Byte, i: nat)
    requires i < 16
    ensures Or8(And8(b, 0xF0), i) == b - b % 16 + i
  {
    hide Bitwise, Pow2;
    Pow2Of4();
    Pow2Values();
    AndHighMask(8, 4, b);
    OrDisjoint(8, 4, b - b % 16, i);
  }

  // ---------- lists of functions ----------

  predicate NoDuplicates(s: seq<Func>) {
    forall i, j :: 0 <= i < j < |s| ==> s[i] != s[j]
  }

  function Elements(s: seq<Func>): set<Func> {
    set k | 0 <= k < |s| :: s[k]
  }

  lemma {:induction false} ElementCount(s: seq<Func>)
    requires NoDuplicates(s)
    ensures |Elements(s)| == |s|
  {
    if s != [] {
      var t, x := s[..|s| - 1], s[|s| - 1];
      ElementCount(t);
      assert Elements(s) == Elements(t) + {x};
      assert x !in Elements(t);
    }
  }

  lemma Subset(a: set<Func>, b: set<Func>)
    requires a <= b
    ensures |a| <= |b|
  {
    assert b == a + (b - a);
  }

  /** One call of a Set...Handler function. */
  datatype Call = Call(start: nat, end: int, func: Func)

  class Table {
    /** ANull or BNull. */
    const default: Func
    const idx: array<Byte>
    const funcs: array<Func>
    /** How many functions are registered, and the plain table: null where nothing has been set. */
    ghost var count: nat
    ghost var plain: seq<Func>

    ghost predicate Shape()
      reads this
    {
      default != 0 && idx.Length == 0x8000 && funcs.Length == FUNC_IDX_MAX && |plain| == 0x1_0000 && count <= FUNC_IDX_MAX
    }

    /** The registered functions are a prefix of the list without nulls or duplicates. */
    ghost predicate Listed()
      requires Shape()
      reads this, funcs
    {
      && (forall i | 0 <= i < FUNC_IDX_MAX :: funcs[i] != 0 <==> i < count)
      && NoDuplicates(funcs[..count])
    }

    ghost function Index(a: nat): nat
      requires Shape() && a < 0x1_0000
      reads this, idx
    {
      Nibble(idx[a / 2], a % 2 == 1)
    }

    ghost predicate Refines()
      requires Shape()
      reads this, idx, funcs
    {
      forall a: nat | a < 0x1_0000 ::
        && Index(a) < FUNC_IDX_MAX
        && (if plain[a] != 0 then Index(a) < count && funcs[Index(a)] == plain[a] else Index(a) == 0)
    }

    ghost predicate Valid()
      reads this, idx, funcs
    {
      Shape() && Listed() && Refines()
    }

    constructor (default: Func)
      requires default != 0
      ensures Valid() && fresh(idx) && fresh(funcs) && this.default == default && count == 0
      ensures forall a | 0 <= a < 0x1_0000 :: plain[a] == 0
    {
      this.default := default;
      idx := new Byte[0x8000](_ => 0);
      funcs := new Func[FUNC_IDX_MAX](_ => 0);
      count := 0;
      plain := seq(0x1_0000, _ => 0);
    }

    /** RegisterARead: the index of the function, which joins the list if it is new. The original's
        assertion fails exactly if the list is full of others. */
    method Register(func: Func) returns (i: int)
      requires Valid() && func != 0
      modifies this`count, funcs
      ensures Valid() && (i == -1 <==> func !in old(funcs[..count]) && old(count) == FUNC_IDX_MAX)
      ensures i != -1 ==> 0 <= i < count && funcs[i] == func
      ensures funcs[..count] == old(funcs[..count]) + if i == -1 || func in old(funcs[..count]) then [] else [func]
    {
      i := 0;
      while i < FUNC_IDX_MAX
        invariant 0 <= i <= FUNC_IDX_MAX && i <= count == old(count) && funcs[..] == old(funcs[..])
        invariant func !in funcs[..i]
      {
        if funcs[i] == 0 {
          ghost var before := funcs[..count];
          funcs[i] := func;
          count := count + 1;
          assert funcs[..count] == before + [func];
        }
        if funcs[i] == func {
          return;
        }
        i := i + 1;
      }
      i := -1;
    }

    method SetIdx(a: nat, i: nat)
      requires Shape() && a < 0x1_0000 && i < FUNC_IDX_MAX
      modifies idx
      ensures Index(a) == i && forall b: nat | b < 0x1_0000 && b != a :: Index(b) == old(Index(b))
    {
      hide PutNibble, Nibble;
      PutNibbleIs(idx[a / 2], a % 2 == 1, i);
      idx[a / 2] := PutNibble(idx[a / 2], a % 2 == 1, i);
    }

    /** GetReadHandler: the function last set for the address; where none has been, the one registered first. */
    method Get(a: nat) returns (func: Func)
      requires Valid() && a < 0x1_0000
      ensures func == if plain[a] != 0 then plain[a] else if count > 0 then funcs[0] else 0
      ensures func == plain[a] <==> plain[a] != 0 || count == 0
    {
      hide TakeNibble;
      TakeNibbleIs(idx[a / 2], a % 2 == 1);
      func := funcs[TakeNibble(idx[a / 2], a % 2 == 1)];
      assert Index(a) < FUNC_IDX_MAX;
    }

    /** SetReadHandler. */
    method Set(start: nat, end: int, func: Func) returns (ok: bool)
      requires Valid() && end < 0x1_0000
      modifies this`count, this`plain, idx, funcs
      ensures Valid()
      ensures var f := if func == 0 then default else func;
              && (ok <==> f in old(funcs[..count]) || old(count) < FUNC_IDX_MAX)
              && plain == (if ok then PlainSet(old(plain), start, end, f) else old(plain))
              && funcs[..count] == old(funcs[..count]) + if !ok || f in old(funcs[..count]) then [] else [f]
    {
      hide Nibble;
      var f := if func == 0 then default else func;
      var i := Register(f);
      if i == -1 {
        return false;
      }
      ok := true;
      var x := end;
      ghost var before := plain;
      PlainSetNone(plain, end + 1, end, f);
      while x >= start
        invariant x <= end && (x >= start - 1 || x == end)
        invariant Valid() && count > i && funcs[i] == f && funcs[..count] == old(funcs[..count]) + if f in old(funcs[..count]) then [] else [f]
        invariant plain == PlainSet(before, x + 1, end, f)
      {
        PlainSetOne(before, x, end, f);
        SetIdx(x, i);
        plain := plain[x := f];
        x := x - 1;
      }
    }

    /** Any run of registrations with at most sixteen different functions, those already registered
        included: none fails, and the table stands for the plain table after the same run. */
    method Run(cs: seq<Call>) returns (ok: bool)
      requires Valid() && forall k | 0 <= k < |cs| :: cs[k].end < 0x1_0000
      requires |Elements(funcs[..count]) + Wanted(default, cs)| <= FUNC_IDX_MAX
      modifies this`count, this`plain, idx, funcs
      ensures Valid() && ok && plain == PlainRun(old(plain), default, cs)
    {
      ok := true;
      ghost var most := Elements(funcs[..count]) + Wanted(default, cs);
      hide PlainSet, Refines;
      for i := 0 to |cs|
        invariant Valid() && ok && plain == PlainRun(old(plain), default, cs[..i])
        invariant Elements(funcs[..count]) <= most
      {
        var f := if cs[i].func == 0 then default else cs[i].func;
        ghost var had := funcs[..count];
        RoomLeft(had, f, most);
        var done := Set(cs[i].start, cs[i].end, cs[i].func);
        ok := ok && done;
        ElementsMore(had, f);
        assert cs[..i + 1][..i] == cs[..i];
      }
      assert cs[..|cs|] == cs;
    }
  }

  /** An address nobody has set: as soon as some function is set for another, it reads as that function. */
  method UnsetReads(default: Func, f: Func, a: nat) returns (t: Table, got: Func)
    requires default != 0 && f != 0 && 0 < a < 0x1_0000
    ensures t.Valid() && t.plain[0] == f && t.plain[a] == 0 && got == f
  {
    t := new Table(default);
    var ok := t.Set(0, 0, f);
    assert t.funcs[0] == t.funcs[..t.count][0];
    got := t.Get(a);
  }

  /** The functions a run of calls registers. */
  function Wanted(default: Func, cs: seq<Call>): set<Func> {
    set k | 0 <= k < |cs| :: if cs[k].func == 0 then default else cs[k].func
  }

  function PlainRun(plain: seq<Func>, default: Func, cs: seq<Call>): seq<Func> {
    if cs == [] then plain
    else
      var c := cs[|cs| - 1];
      PlainSet(PlainRun(plain, default, cs[..|cs| - 1]), c.start, c.end, if c.func == 0 then default else c.func)
  }

  lemma RoomLeft(had: seq<Func>, f: Func, most: set<Func>)
    requires NoDuplicates(had) && Elements(had) <= most && f in most && |most| <= FUNC_IDX_MAX
    ensures f in had || |had| < FUNC_IDX_MAX
  {
    ElementCount(had);
    if f !in had {
      assert f !in Elements(had);
      Subset(Elements(had) + {f}, most);
    }
  }

  lemma ElementsMore(had: seq<Func>, f: Func)
    ensures Elements(had + [f]) == Elements(had) + {f}
  {
    assert (had + [f])[|had|] == f;
    assert forall k | 0 <= k < |had| :: (had + [f])[k] == had[k];
  }

  /** The plain table after the same call. */
  function PlainSet(plain: seq<Func>, start: int, end: int, f: Func): (p: seq<Func>)
    ensures |p| == |plain|
  {
    seq(|plain|, a requires 0 <= a < |plain| => if start <= a <= end then f else plain[a])
  }

  lemma PlainSetNone(plain: seq<Func>, start: int, end: int, f: Func)
    requires start > end
    ensures PlainSet(plain, start, end, f) == plain
  {
  }

  lemma PlainSetOne(plain: seq<Func>, x: nat, end: int, f: Func)
    requires x <= end < |plain|
    ensures PlainSet(plain, x, end, f) == PlainSet(plain, x + 1, end, f)[x := f]
  {
  }
}
