/** The two scroll registers of the PPU: the packed address of the old renderer and the five
    daisy-chained counters of the new one, kept side by side. */
module PpuScroll {
  import opened Bits

  type Byte = x: int | 0 <= x < 0x100

  // ---------- fields of a packed address ----------

  /** Fine row (3 bits), vertical and horizontal nametable (1 bit each), tile row and column (5 bits each). */
  datatype Counters = Counters(fv: nat, v: nat, h: nat, vt: nat, ht: nat)

  predicate InRange(c: Counters) {
    c.fv < 8 && c.v < 2 && c.h < 2 && c.vt < 32 && c.ht < 32
  }

  /** The counters chained into one 15-bit number. */
  function Pack(c: Counters): int {
    0x1000 * c.fv + 0x800 * c.v + 0x400 * c.h + 0x20 * c.vt + c.ht
  }

  /** The counters a number packs; bits from 15 up are ignored. */
  function Unpack(x: nat): (c: Counters)
    ensures InRange(c)
  {
    Counters(x / 0x1000 % 8, x / 0x800 % 2, x / 0x400 % 2, x / 0x20 % 32, x % 32)
  }

  lemma PackRange(c: Counters)
    requires InRange(c)
    ensures 0 <= Pack(c) < 0x8000
  {
  }

  // The number without its lowest one, two and three fields.
  function Rest3(up: nat, c: Counters): nat { 2 * (8 * up + c.fv) + c.v }
  function Rest2(up: nat, c: Counters): nat { 2 * Rest3(up, c) + c.h }
  function Rest1(up: nat, c: Counters): nat { 32 * Rest2(up, c) + c.vt }

  lemma UnpackPack(c: Counters, up: nat)
    requires InRange(c)
    ensures Unpack(0x8000 * up + Pack(c)) == c
  {
    var x := 0x8000 * up + Pack(c);
    hide Unpack;
    DivUnique(x, 0x20, Rest1(up, c), c.ht);
    DivUnique(Rest1(up, c), 0x20, Rest2(up, c), c.vt);
    DivUnique(Rest2(up, c), 2, Rest3(up, c), c.h);
    DivUnique(Rest3(up, c), 2, 8 * up + c.fv, c.v);
    DivUnique(8 * up + c.fv, 8, up, c.fv);
    PackUnpackDivisions(x, Rest1(up, c), Rest2(up, c), Rest3(up, c), 8 * up + c.fv);
    UnpackIs(x, Rest1(up, c), Rest2(up, c), Rest3(up, c), 8 * up + c.fv);
  }

  lemma UnpackIs(x: nat, a: nat, b: nat, d: nat, e: nat)
    requires a == x / 0x20 && b == x / 0x400 && d == x / 0x800 && e == x / 0x1000
    ensures Unpack(x) == Counters(e % 8, d % 2, b % 2, a % 32, x % 32)
  {
  }

  lemma PackUnpack(x: nat)
    ensures x == 0x8000 * (x / 0x8000) + Pack(Unpack(x))
    ensures x % 0x8000 == Pack(Unpack(x))
  {
    hide Unpack;
    var a := x / 0x20;
    var b := a / 0x20;
    var d := b / 2;
    var e := d / 2;
    var f := e / 8;
    assert x == 0x20 * a + x % 0x20 && a == 0x20 * b + a % 0x20 && b == 2 * d + b % 2;
    assert d == 2 * e + d % 2 && e == 8 * f + e % 8;
    assert x == 0x8000 * f + (0x1000 * (e % 8) + 0x800 * (d % 2) + 0x400 * (b % 2) + 0x20 * (a % 0x20) + x % 0x20);
    PackUnpackDivisions(x, a, b, d, e);
    UnpackIs(x, a, b, d, e);
    PackRange(Unpack(x));
    DivUnique(x, 0x8000, f, Pack(Unpack(x)));
  }

  lemma PackUnpackDivisions(x: nat, a: nat, b: nat, d: nat, e: nat)
    requires a == x / 0x20 && b == a / 0x20 && d == b / 2 && e == d / 2
    ensures b == x / 0x400 && d == x / 0x800 && e == x / 0x1000
  {
    DivDiv(x, 0x20, 0x20);
    DivDiv(x, 0x400, 2);
    DivDiv(x, 0x800, 2);
  }

  // ---------- masks act on each field ----------

  function Full(up: nat, c: Counters): int {
    0x8000 * up + Pack(c)
  }

  /** A bitwise operation on packed numbers is the same operation on each field. */
  lemma FieldWise(op: BitOp, up: nat, c: Counters, up': nat, c': Counters)
    requires InRange(c) && InRange(c')
    ensures Bitwise(op, 32, Full(up, c), Full(up', c'))
         == 0x8000 * Bitwise(op, 17, up, up') + 0x1000 * Bitwise(op, 3, c.fv, c'.fv)
          + 0x800 * Bitwise(op, 1, c.v, c'.v) + 0x400 * Bitwise(op, 1, c.h, c'.h)
          + 0x20 * Bitwise(op, 5, c.vt, c'.vt) + Bitwise(op, 5, c.ht, c'.ht)
  {
    hide Bitwise, Pow2;
    SmallPowers();
    Peel(op, 5, 27, Rest1(up, c), c.ht, Rest1(up', c'), c'.ht);
    Peel(op, 5, 22, Rest2(up, c), c.vt, Rest2(up', c'), c'.vt);
    Peel(op, 1, 21, Rest3(up, c), c.h, Rest3(up', c'), c'.h);
    Peel(op, 1, 20, 8 * up + c.fv, c.v, 8 * up' + c'.fv, c'.v);
    Peel(op, 3, 17, up, c.fv, up', c'.fv);
  }

  lemma SmallPowers()
    ensures Pow2(1) == 2 && Pow2(3) == 8 && Pow2(5) == 32
  {
    Pow2Values();
    Pow2Small();
  }

  lemma Peel(op: BitOp, k: nat, m: nat, a: nat, low: nat, a': nat, low': nat)
    requires low < Pow2(k) && low' < Pow2(k)
    ensures Bitwise(op, k + m, a * Pow2(k) + low, a' * Pow2(k) + low')
         == Bitwise(op, k, low, low') + Pow2(k) * Bitwise(op, m, a, a')
  {
    hide Bitwise, Pow2;
    var x, y := a * Pow2(k) + low, a' * Pow2(k) + low';
    DivUnique(x, Pow2(k), a, low);
    DivUnique(y, Pow2(k), a', low');
    DivUnique(low, Pow2(k), 0, low);
    DivUnique(low', Pow2(k), 0, low');
    BitwiseSplit(op, k, m, x, y);
    BitwiseLow(op, k, x, y, low, low');
  }

  /** `and` keeps a field under ones and clears it under zeros; `or` with zeros keeps it; `or` into zeros copies. */
  lemma FieldMasks(n: nat, x: nat)
    requires x < Pow2(n)
    ensures Bitwise(BitOp.And, n, x, Pow2(n) - 1) == x && Bitwise(BitOp.And, n, x, 0) == 0
    ensures Bitwise(BitOp.Or, n, x, 0) == x && Bitwise(BitOp.Or, n, 0, x) == x
    ensures Bitwise(BitOp.Xor, n, x, 0) == x && Bitwise(BitOp.Xor, n, x, Pow2(n) - 1) == Pow2(n) - 1 - x
  {
    hide Bitwise, Pow2;
    AndOnes(n, x);
    BitwiseZero(BitOp.And, n, x);
    BitwiseZero(BitOp.Xor, n, x);
    BitwiseOnes(BitOp.Xor, n, x);
    OrZero(n, x);
    BitwiseSymmetric(BitOp.Or, n, 0, x);
    DivUnique(x, Pow2(n), 0, x);
  }

  lemma AllFieldMasks(c: Counters)
    requires InRange(c)
    ensures Bitwise(BitOp.And, 3, c.fv, 7) == c.fv && Bitwise(BitOp.And, 3, c.fv, 0) == 0
    ensures Bitwise(BitOp.And, 1, c.v, 1) == c.v && Bitwise(BitOp.And, 1, c.v, 0) == 0
    ensures Bitwise(BitOp.And, 1, c.h, 1) == c.h && Bitwise(BitOp.And, 1, c.h, 0) == 0
    ensures Bitwise(BitOp.And, 5, c.vt, 31) == c.vt && Bitwise(BitOp.And, 5, c.vt, 0) == 0
    ensures Bitwise(BitOp.And, 5, c.ht, 31) == c.ht && Bitwise(BitOp.And, 5, c.ht, 0) == 0
  {
    hide Bitwise, Pow2;
    SmallPowers();
    FieldMasks(3, c.fv);
    FieldMasks(1, c.v);
    FieldMasks(1, c.h);
    FieldMasks(5, c.vt);
    FieldMasks(5, c.ht);
  }

  /** `or` of addresses whose fields do not meet. */
  lemma OrFields(up: nat, c: Counters, d: Counters)
    requires InRange(c) && InRange(d) && up < 0x20000
    requires (c.fv == 0 || d.fv == 0) && (c.v == 0 || d.v == 0) && (c.h == 0 || d.h == 0)
    requires (c.vt == 0 || d.vt == 0) && (c.ht == 0 || d.ht == 0)
    ensures Or32(Full(up, c), Pack(d))
         == Full(up, Counters(c.fv + d.fv, c.v + d.v, c.h + d.h, c.vt + d.vt, c.ht + d.ht))
  {
    hide Bitwise, Pow2;
    SmallPowers();
    FieldWise(BitOp.Or, up, c, 0, d);
    OrWith(3, c.fv, d.fv);
    OrWith(1, c.v, d.v);
    OrWith(1, c.h, d.h);
    OrWith(5, c.vt, d.vt);
    OrWith(5, c.ht, d.ht);
    UpPower();
    FieldMasks(17, up);
  }

  lemma UpPower()
    ensures Pow2(17) == 0x20000
  {
    hide Pow2;
    Pow2Values();
    Pow2Small();
    Pow2Add(1, 16);
  }

  lemma OrWith(n: nat, x: nat, y: nat)
    requires x < Pow2(n) && y < Pow2(n) && (x == 0 || y == 0)
    ensures Bitwise(BitOp.Or, n, x, y) == x + y
  {
    hide Bitwise, Pow2;
    FieldMasks(n, x);
    FieldMasks(n, y);
  }

  lemma AndWith(n: nat, x: nat, keep: nat)
    requires x < Pow2(n) && (keep == 0 || keep == Pow2(n) - 1)
    ensures Bitwise(BitOp.And, n, x, keep) == if keep == 0 then 0 else x
  {
    hide Bitwise, Pow2;
    FieldMasks(n, x);
  }

  function Kept(keep: int, x: nat): nat {
    if keep == 0 then 0 else x
  }

  /** `and` with a mask made of whole fields. */
  lemma AndFields(up: nat, c: Counters, keepUp: nat, keep: Counters)
    requires InRange(c) && InRange(keep)
    requires keep.fv == 0 || keep.fv == 7
    requires (keep.vt == 0 || keep.vt == 31) && (keep.ht == 0 || keep.ht == 31)
    requires keepUp == 0 || up == 0
    ensures And32(Full(up, c), Full(keepUp, keep))
         == Pack(Counters(Kept(keep.fv, c.fv), Kept(keep.v, c.v), Kept(keep.h, c.h), Kept(keep.vt, c.vt), Kept(keep.ht, c.ht)))
  {
    hide Bitwise, Pow2, Full;
    SmallPowers();
    FieldWise(BitOp.And, up, c, keepUp, keep);
    AndWith(3, c.fv, keep.fv);
    AndWith(1, c.v, keep.v);
    AndWith(1, c.h, keep.h);
    AndWith(5, c.vt, keep.vt);
    AndWith(5, c.ht, keep.ht);
    BitwiseZero(BitOp.And, 17, up);
    BitwiseZero(BitOp.And, 17, keepUp);
    BitwiseSymmetric(BitOp.And, 17, 0, keepUp);
  }

  // ---------- one scan line down ----------

  /** After line 239 of a nametable comes line 0 of the other one; the two tile rows below the
      picture wrap to row 0 of the same nametable. */
  function NextLine(c: Counters): Counters {
    if c.fv < 7 then c.(fv := c.fv + 1)
    else if c.vt == 29 then c.(fv := 0, vt := 0, v := if c.v == 0 then 1 else 0)
    else if c.vt == 31 then c.(fv := 0, vt := 0)
    else c.(fv := 0, vt := c.vt + 1)
  }

  /** The line number in the two stacked 240-line pictures. */
  function Line(c: Counters): int {
    240 * c.v + 8 * c.vt + c.fv
  }

  lemma NextLineIsNext(c: Counters)
    requires InRange(c) && c.vt < 30
    ensures InRange(NextLine(c)) && NextLine(c).vt < 30
    ensures Line(NextLine(c)) == (Line(c) + 1) % 480
  {
  }

  /** The old renderer's way: masks and additions on the packed address. */
  method DownOne(address: U32) returns (rad: U32)
    ensures Unpack(rad) == NextLine(Unpack(address)) && rad / 0x8000 == address / 0x8000
  {
    hide Bitwise, Pow2, And32, Xor32, Unpack;
    var up, c := address / 0x8000, Unpack(address);
    PackUnpack(address);
    FixMasks(up, c);
    rad := address;
    if And32(rad, 0x7000) == 0x7000 {
      rad := Xor32(rad, 0x7000);
      FixMasks(up, c.(fv := 0));
      if And32(rad, 0x3E0) == 0x3A0 {
        rad := Xor32(rad, 0xBA0);
      } else if And32(rad, 0x3E0) == 0x3E0 {
        rad := Xor32(rad, 0x3E0);
      } else {
        rad := rad + 0x20;
      }
    } else {
      rad := rad + 0x1000;
    }
    FullParts(up, NextLine(c));
    assert rad == Full(up, NextLine(c));
  }

  lemma FullParts(up: nat, c: Counters)
    requires InRange(c)
    ensures Unpack(Full(up, c)) == c && Full(up, c) / 0x8000 == up
  {
    UnpackPack(c, up);
    PackRange(c);
  }

  lemma FixMasks(up: nat, c: Counters)
    requires InRange(c) && up < 0x20000
    ensures And32(Full(up, c), 0x7000) == 0x1000 * c.fv
    ensures And32(Full(up, c), 0x3E0) == 0x20 * c.vt
    ensures c.fv == 7 ==> Xor32(Full(up, c), 0x7000) == Full(up, c.(fv := 0))
    ensures c.vt == 29 ==> Xor32(Full(up, c), 0xBA0) == Full(up, c.(vt := 0, v := if c.v == 0 then 1 else 0))
    ensures c.vt == 31 ==> Xor32(Full(up, c), 0x3E0) == Full(up, c.(vt := 0))
  {
    FixAnds(up, c);
    FixConstants();
    Cleared(up, c, Counters(7, 0, 0, 0, 0));
    Cleared(up, c, Counters(0, 1, 0, 29, 0));
    Cleared(up, c, Counters(0, 0, 0, 31, 0));
    hide And32, Xor32, Full;
  }

  lemma FixAnds(up: nat, c: Counters)
    requires InRange(c) && up < 0x20000
    ensures And32(Full(up, c), 0x7000) == 0x1000 * c.fv && And32(Full(up, c), 0x3E0) == 0x20 * c.vt
  {
    FixConstants();
    hide Bitwise, Pow2, And32, Full;
    AndFields(up, c, 0, Counters(7, 0, 0, 0, 0));
    AndFields(up, c, 0, Counters(0, 0, 0, 31, 0));
  }

  lemma FixConstants()
    ensures Full(0, Counters(7, 0, 0, 0, 0)) == 0x7000 && Full(0, Counters(0, 1, 0, 29, 0)) == 0xBA0
    ensures Full(0, Counters(0, 0, 0, 31, 0)) == 0x3E0
  {
  }

  /** `xor` with fields that the counters have clears those, and a set nametable bit flips. */
  lemma Cleared(up: nat, c: Counters, d: Counters)
    requires InRange(c) && InRange(d) && up < 0x20000 && d.h == 0 && d.ht == 0
    ensures Clears(c, d) ==> Xor32(Full(up, c), Full(0, d)) == Full(up, ClearedOf(c, d))
  {
    if Clears(c, d) {
      XorFields(up, c, d);
      hide Xor32, Full;
    }
  }

  function ClearedOf(c: Counters, d: Counters): Counters
    requires InRange(c)
  {
    Counters(if d.fv == 0 then c.fv else 0, if d.v == 0 then c.v else 1 - c.v, c.h, if d.vt == 0 then c.vt else 0, c.ht)
  }

  function Xored(x: nat, y: nat): nat {
    if x >= y then x - y else 1
  }

  /** `xor` of a field with nothing keeps it, of a field with itself clears it, of one bit with one flips it. */
  lemma XorWith(n: nat, x: nat, y: nat)
    requires x < Pow2(n) && y < Pow2(n)
    ensures y == 0 || y == x || n == 1 ==> Bitwise(BitOp.Xor, n, x, y) == Xored(x, y)
  {
    hide Bitwise, Pow2;
    FieldMasks(n, x);
    XorSelf(n, x);
    SmallPowers();
  }

  /** In each field `d` has nothing, what `c` has, or a single bit. */
  predicate Clears(c: Counters, d: Counters) {
    (d.fv == 0 || d.fv == c.fv) && (d.vt == 0 || d.vt == c.vt) && (d.ht == 0 || d.ht == c.ht)
  }

  function XoredFields(c: Counters, d: Counters): Counters {
    Counters(Xored(c.fv, d.fv), Xored(c.v, d.v), Xored(c.h, d.h), Xored(c.vt, d.vt), Xored(c.ht, d.ht))
  }

  lemma XorEach(up: nat, c: Counters, d: Counters)
    requires InRange(c) && InRange(d) && up < 0x20000 && Clears(c, d)
    ensures Bitwise(BitOp.Xor, 17, up, 0) == up
    ensures Bitwise(BitOp.Xor, 3, c.fv, d.fv) == Xored(c.fv, d.fv)
    ensures Bitwise(BitOp.Xor, 1, c.v, d.v) == Xored(c.v, d.v) && Bitwise(BitOp.Xor, 1, c.h, d.h) == Xored(c.h, d.h)
    ensures Bitwise(BitOp.Xor, 5, c.vt, d.vt) == Xored(c.vt, d.vt) && Bitwise(BitOp.Xor, 5, c.ht, d.ht) == Xored(c.ht, d.ht)
  {
    hide Bitwise, Pow2, Xored;
    SmallPowers();
    UpPower();
    XorWith(17, up, 0);
    XorWith(3, c.fv, d.fv);
    XorWith(1, c.v, d.v);
    XorWith(1, c.h, d.h);
    XorWith(5, c.vt, d.vt);
    XorWith(5, c.ht, d.ht);
    XoredNothing(up);
  }

  lemma XorFields(up: nat, c: Counters, d: Counters)
    requires InRange(c) && InRange(d) && up < 0x20000 && Clears(c, d)
    ensures Xor32(Full(up, c), Full(0, d)) == Full(up, XoredFields(c, d))
  {
    XorEach(up, c, d);
    FieldWise(BitOp.Xor, up, c, 0, d);
    assert Xor32(Full(up, c), Full(0, d)) == Bitwise(BitOp.Xor, 32, Full(up, c), Full(0, d)) by {
      hide Bitwise;
    }
    hide Bitwise, Pow2, Xored, Xor32, Clears;
  }

  lemma XoredNothing(x: nat)
    ensures Xored(x, 0) == x
  {
  }

  lemma {:induction false} XorSelf(n: nat, x: nat)
    ensures Bitwise(BitOp.Xor, n, x, x) == 0
  {
    if n > 0 {
      XorSelf(n - 1, x / 2);
    }
  }

  // ---------- register writes on the packed address ----------

  /** $2000 replaces the two nametable bits. */
  function Temp2000(temp: int, value: int): U32 {
    Or32(And32(temp, 0xF3FF), And32(value, 3) * 0x400)
  }

  /** $2005, first write, replaces the tile column. */
  function Temp2005X(temp: int, value: int): U32 {
    Or32(And32(temp, 0xFFE0), value / 8)
  }

  /** $2005, second write, replaces tile row and fine row. */
  function Temp2005Y(temp: int, value: int): U32 {
    Or32(Or32(And32(temp, 0x8C1F), And32(value, 0xFFFF_FFF8) * 4), And32(value, 7) * 0x1000)
  }

  /** $2006, first write, replaces bits 8 to 13 and clears bit 14. */
  function Temp2006High(temp: int, value: int): U32 {
    Or32(And32(temp, 0x00FF), And32(value, 0x3F) * 0x100)
  }

  /** $2006, second write, replaces the lower eight bits. */
  function Temp2006Low(temp: int, value: int): U32 {
    Or32(And32(temp, 0xFF00), value)
  }

  /** Nametable bit and column of refresh taken from temp. */
  function Reload(refresh: int, temp: int): U32 {
    Or32(And32(refresh, 0xFBE0), And32(temp, 0x041F))
  }

  lemma ValueMasks(value: Byte)
    ensures And32(value, 1) == value % 2 && And32(value, 3) == value % 4 && And32(value, 7) == value % 8
    ensures And32(value, 31) == value % 32 && And32(value, 0x3F) == value % 64
    ensures And32(value, 0xFFFF_FFF8) == value - value % 8
  {
    hide Bitwise, Pow2;
    Pow2Values();
    Pow2Small();
    SmallPowers();
    Pow2Add(1, 5);
    AndLowMask(32, 1, value);
    AndLowMask(32, 2, value);
    AndLowMask(32, 3, value);
    AndLowMask(32, 5, value);
    AndLowMask(32, 6, value);
    AndHighMask(32, 3, value);
  }

  lemma TwoBits(value: nat)
    ensures value % 4 == 2 * (value / 2 % 2) + value % 2
  {
    var a := value / 2;
    assert value == 2 * a + value % 2 && a == 2 * (a / 2) + a % 2;
    DivUnique(value, 4, a / 2, 2 * (a % 2) + value % 2);
  }

  lemma Write2000(c: Counters, value: Byte)
    requires InRange(c)
    ensures Temp2000(Pack(c), value) == Pack(c.(h := value % 2, v := value / 2 % 2))
  {
    hide Bitwise, Pow2, And32, Or32;
    ValueMasks(value);
    TwoBits(value);
    AndFields(0, c, 1, Counters(7, 0, 0, 31, 31));
    OrFields(0, c.(h := 0, v := 0), Counters(0, value / 2 % 2, value % 2, 0, 0));
  }

  lemma Write2005X(c: Counters, value: Byte)
    requires InRange(c)
    ensures Temp2005X(Pack(c), value) == Pack(c.(ht := value / 8))
  {
    hide Bitwise, Pow2, And32, Or32;
    AndFields(0, c, 1, Counters(7, 1, 1, 31, 0));
    OrFields(0, c.(ht := 0), Counters(0, 0, 0, 0, value / 8));
  }

  lemma Write2005Y(c: Counters, value: Byte)
    requires InRange(c)
    ensures Temp2005Y(Pack(c), value) == Pack(c.(vt := value / 8, fv := value % 8))
  {
    hide Bitwise, Pow2, And32, Or32;
    ValueMasks(value);
    AndFields(0, c, 1, Counters(0, 1, 1, 0, 31));
    var bare := c.(vt := 0, fv := 0);
    OrFields(0, bare, Counters(0, 0, 0, value / 8, 0));
    OrFields(0, bare.(vt := value / 8), Counters(value % 8, 0, 0, 0, 0));
  }

  lemma OrHighSix(x: int, y: int, c: Counters, d: Counters, row: nat)
    requires c.vt < 8 && c.ht < 32 && InRange(d) && d.vt == 0 && d.ht == 0 && row < 4
    requires x == 0x20 * c.vt + c.ht && y == 0x100 * (16 * d.fv + 8 * d.v + 4 * d.h + row)
    ensures Or32(x, y) == Pack(d.(vt := c.vt + 8 * row, ht := c.ht))
  {
    hide Or32;
    var low := Counters(0, 0, 0, c.vt, c.ht);
    assert x == Pack(low) && y == Pack(d) + 0x100 * row;
    RowBits(low, d, row);
  }

  /** The upper six bits: two row bits, both nametable bits, two fine row bits. */
  lemma Write2006High(c: Counters, value: Byte)
    requires InRange(c)
    ensures var d := Counters(value / 16 % 4, value / 8 % 2, value / 4 % 2, c.vt % 8 + 8 * (value % 4), c.ht);
            InRange(d) && Temp2006High(Pack(c), value) == Pack(d)
  {
    ValueMasks(value);
    LowEight(c);
    HighSix(value);
    hide Bitwise, Pow2, And32, Or32, Pack;
    OrHighSix(And32(Pack(c), 0xFF), And32(value, 0x3F) * 0x100, c.(vt := c.vt % 8),
              Counters(value / 16 % 4, value / 8 % 2, value / 4 % 2, 0, 0), value % 4);
  }

  lemma HighSix(value: Byte)
    ensures value % 64 == 16 * (value / 16 % 4) + 8 * (value / 8 % 2) + 4 * (value / 4 % 2) + value % 4
  {
    var a := value / 4;
    var b := a / 2;
    var d := b / 2;
    assert value == 4 * a + value % 4 && a == 2 * b + a % 2 && b == 2 * d + b % 2 && d == 4 * (d / 4) + d % 4;
    DivDiv(value, 4, 2);
    DivDiv(value, 8, 2);
    DivUnique(value, 64, d / 4, 16 * (d % 4) + 8 * (b % 2) + 4 * (a % 2) + value % 4);
  }

  lemma LowEight(c: Counters)
    requires InRange(c)
    ensures And32(Pack(c), 0xFF) == 0x20 * (c.vt % 8) + c.ht
    ensures And32(Pack(c), 0xFF00) == Pack(c) - (0x20 * (c.vt % 8) + c.ht)
  {
    hide Bitwise, Pow2;
    Pow2Values();
    PackRange(c);
    AndLowMask(32, 8, Pack(c));
    AndMiddle(Pack(c));
    EightBits(c);
  }

  lemma EightBits(c: Counters)
    requires InRange(c)
    ensures Pack(c) % 0x100 == 0x20 * (c.vt % 8) + c.ht
  {
    var q := 16 * c.fv + 8 * c.v + 4 * c.h + c.vt / 8;
    DivUnique(Pack(c), 0x100, q, 0x20 * (c.vt % 8) + c.ht);
  }

  lemma AndMiddle(x: nat)
    requires x < 0x1_0000
    ensures And32(x, 0xFF00) == x - x % 0x100
  {
    hide Bitwise, Pow2;
    Pow2Values();
    BitwiseSplit(BitOp.And, 16, 16, x, 0xFF00);
    DivUnique(x, 0x1_0000, 0, x);
    BitwiseZero(BitOp.And, 16, 0);
    AndHighMask(16, 8, x);
  }

  /** `or` at a byte boundary inside the row field. */
  lemma RowBits(low: Counters, d: Counters, row: nat)
    requires InRange(low) && low.fv == 0 && low.v == 0 && low.h == 0 && low.vt < 8
    requires InRange(d) && d.vt == 0 && d.ht == 0 && row < 4
    ensures Or32(Pack(low), Pack(d) + 0x100 * row) == Pack(d.(vt := low.vt + 8 * row, ht := low.ht))
  {
    hide Bitwise, Pow2;
    Pow2Values();
    var x := Pack(d) + 0x100 * row;
    assert x % 0x100 == 0 by {
      DivUnique(x, 0x100, 16 * d.fv + 8 * d.v + 4 * d.h + row, 0);
    }
    OrDisjoint(32, 8, x, Pack(low));
    BitwiseSymmetric(BitOp.Or, 32, Pack(low), x);
  }

  /** The lower eight bits: three row bits and the column. */
  lemma Write2006Low(c: Counters, value: Byte)
    requires InRange(c)
    ensures var d := c.(vt := c.vt - c.vt % 8 + value / 32, ht := value % 32);
            InRange(d) && Temp2006Low(Pack(c), value) == Pack(d)
  {
    hide Bitwise, Pow2, And32;
    Pow2Values();
    LowEight(c);
    hide Pack;
    EightBits(c);
    var x := Pack(c) - Pack(c) % 0x100;
    PackRange(c);
    OrDisjoint(32, 8, x, value);
    LowByteReplaced(c, value);
  }

  lemma LowByteReplaced(c: Counters, value: Byte)
    requires InRange(c)
    ensures Pack(c) - Pack(c) % 0x100 + value == Pack(c.(vt := c.vt - c.vt % 8 + value / 32, ht := value % 32))
  {
    EightBits(c);
  }

  lemma ReloadFields(up: nat, c: Counters, l: Counters)
    requires InRange(c) && InRange(l) && up < 0x20000
    ensures Unpack(Reload(Full(up, c), Pack(l))) == c.(h := l.h, ht := l.ht)
  {
    hide Bitwise, Pow2, Or32, And32, Unpack;
    AndFields(0, l, 0, Counters(0, 0, 1, 0, 31));
    KeepVertical(up, c);
    OrFields(up % 2, c.(h := 0, ht := 0), Counters(0, 0, l.h, 0, l.ht));
    UnpackPack(c.(h := l.h, ht := l.ht), up % 2);
  }

  /** 0xFBE0 keeps bit 15 besides the three vertical fields. */
  lemma KeepVertical(up: nat, c: Counters)
    requires InRange(c) && up < 0x20000
    ensures And32(Full(up, c), 0xFBE0) == Full(up % 2, c.(h := 0, ht := 0))
  {
    hide Bitwise, Pow2;
    SmallPowers();
    FieldWise(BitOp.And, up, c, 1, Counters(7, 1, 0, 31, 0));
    AllFieldMasks(c);
    AndLowMask(17, 1, up);
  }

  // ---------- the PPU ----------

  datatype Event =
    | W2000(value: Byte)
    | W2005(value: Byte)
    | W2006(value: Byte)
    | Access2007(rendering: bool, by32: bool)
    | LineEnd(on: bool)
    | HBlank(on: bool)
    | FrameStart(on: bool)

  /** Address after a $2007 access outside rendering. */
  function Ahead(c: Counters, by32: bool): Counters
    requires InRange(c)
  {
    Unpack(Pack(c) + if by32 then 32 else 1)
  }

  /** All five counters as one: the carry of each clocks the next. */
  method ClockChain(fv0: nat, v0: nat, h0: nat, vt0: nat, ht0: nat, by32: bool)
    returns (fv: nat, v: nat, h: nat, vt: nat, ht: nat)
    requires InRange(Counters(fv0, v0, h0, vt0, ht0))
    ensures InRange(Counters(fv, v, h, vt, ht))
    ensures Counters(fv, v, h, vt, ht) == Ahead(Counters(fv0, v0, h0, vt0, ht0), by32)
  {
    hide Unpack;
    fv, v, h, vt, ht := fv0, v0, h0, vt0, ht0;
    if by32 {
      vt := vt + 1;
    } else {
      ht := ht + 1;
      vt := vt + ht / 32 % 2;
    }
    h := h + vt / 32;
    v := v + h / 2;
    fv := fv + v / 2;
    ghost var tiles := 32 * (vt % 32) + ht % 32;
    assert 32 * vt0 + ht0 + (if by32 then 32 else 1) == 1024 * (vt / 32) + tiles;
    ghost var names := 2 * (v % 2) + h % 2;
    assert 2 * v0 + h0 + vt / 32 == 4 * (v / 2) + names;
    ghost var up := fv / 8;
    ht := ht % 32;
    vt := vt % 32;
    h := h % 2;
    v := v % 2;
    fv := fv % 8;
    AheadIs(Counters(fv0, v0, h0, vt0, ht0), by32, Counters(fv, v, h, vt, ht), up);
  }

  lemma AheadIs(c: Counters, by32: bool, d: Counters, up: nat)
    requires InRange(c) && InRange(d) && Pack(c) + (if by32 then 32 else 1) == 0x8000 * up + Pack(d)
    ensures Ahead(c, by32) == d
  {
    hide Unpack;
    UnpackPack(d, up);
  }

  /** An access moves the address differently while rendering, from every position. */
  lemma RenderingMatters(c: Counters, by32: bool)
    requires InRange(c)
    ensures NextLine(c) != Ahead(c, by32)
  {
    var m := Pack(c) + if by32 then 32 else 1;
    PackUnpack(m);
    hide Unpack;
    if m >= 0x8000 {
      DivUnique(m, 0x8000, 1, m - 0x8000);
    } else {
      DivUnique(m, 0x8000, 0, m);
    }
  }

  class Ppu {
    // old renderer
    var tempAddr: U32
    var refreshAddr: U32
    var xOffset: int
    // shared write toggle
    var vtoggle: bool
    // new renderer: clocked counters, their latches, fine horizontal scroll, pattern table select
    var fv: nat
    var v: nat
    var h: nat
    var vt: nat
    var ht: nat
    var latchFv: nat
    var latchV: nat
    var latchH: nat
    var latchVt: nat
    var latchHt: nat
    var fh: int
    var s: int

    function Clocked(): Counters
      reads this
    {
      Counters(fv, v, h, vt, ht)
    }

    function Latched(): Counters
      reads this
    {
      Counters(latchFv, latchV, latchH, latchVt, latchHt)
    }

    ghost predicate Valid()
      reads this
    {
      InRange(Clocked()) && InRange(Latched())
    }

    /** Both renderers describe the same scroll position. */
    ghost predicate Agree()
      reads this
    {
      && Valid()
      && tempAddr == Pack(Latched()) && xOffset == fh
      && Unpack(refreshAddr) == Clocked()
    }

    constructor ()
      ensures Agree() && !vtoggle && Pack(Clocked()) == 0 && Pack(Latched()) == 0
    {
      hide Unpack, Pack;
      tempAddr, refreshAddr, xOffset, vtoggle := 0, 0, 0, false;
      fv, v, h, vt, ht := 0, 0, 0, 0, 0;
      latchFv, latchV, latchH, latchVt, latchHt := 0, 0, 0, 0, 0;
      fh, s := 0, 0;
      new;
      ZeroAddress(refreshAddr, Clocked());
    }

    // ---------- new renderer ----------

    method InstallLatches()
      modifies this`fv, this`v, this`h, this`vt, this`ht
      ensures Clocked() == Latched()
    {
      fv, v, h, vt, ht := latchFv, latchV, latchH, latchVt, latchHt;
    }

    method InstallHLatches()
      modifies this`h, this`ht
      ensures Clocked() == old(Clocked()).(h := latchH, ht := latchHt)
    {
      ht := latchHt;
      h := latchH;
    }

    /** One tile to the right: 64 columns over both nametables. */
    method IncrementHsc()
      requires InRange(Clocked())
      modifies this`ht, this`h
      ensures InRange(Clocked()) && 32 * h + ht == (32 * old(h) + old(ht) + 1) % 64
    {
      ht := ht + 1;
      h := h + ht / 32;
      ht := ht % 32;
      h := h % 2;
    }

    method IncrementVs()
      requires InRange(Clocked())
      modifies this`fv, this`v, this`vt
      ensures InRange(Clocked()) && Clocked() == NextLine(old(Clocked()))
    {
      fv := fv + 1;
      var overflow := fv / 8;
      vt := vt + overflow;
      vt := vt % 32;
      if vt == 30 && overflow == 1 {
        v := v + 1;
        vt := 0;
      }
      fv := fv % 8;
      v := v % 2;
    }

    /** While rendering one line down, even when moving by 32; otherwise the counters act as one 15-bit number. */
    method Increment2007(rendering: bool, by32: bool)
      requires InRange(Clocked())
      modifies this`fv, this`v, this`h, this`vt, this`ht
      ensures InRange(Clocked())
      ensures Clocked() == if rendering then NextLine(old(Clocked())) else Ahead(old(Clocked()), by32)
    {
      if rendering {
        IncrementVs();
        return;
      }
      fv, v, h, vt, ht := ClockChain(fv, v, h, vt, ht, by32);
    }

    // ---------- old renderer ----------

    method Fixit1(on: bool)
      modifies this`refreshAddr
      ensures Unpack(refreshAddr) == if on then NextLine(Unpack(old(refreshAddr))) else Unpack(old(refreshAddr))
    {
      if on {
        refreshAddr := DownOne(refreshAddr);
      }
    }

    method Fixit2(on: bool)
      requires InRange(Latched()) && tempAddr == Pack(Latched())
      modifies this`refreshAddr
      ensures var c := Unpack(old(refreshAddr));
              Unpack(refreshAddr) == if on then c.(h := latchH, ht := latchHt) else c
    {
      hide Unpack, Reload;
      if on {
        PackUnpack(refreshAddr);
        ReloadFields(refreshAddr / 0x8000, Unpack(refreshAddr), Latched());
        refreshAddr := Reload(refreshAddr, tempAddr);
      }
    }

    /** Address step of a $2007 access; the 32-bit variable wraps. */
    method OldIncrement2007(rendering: bool, by32: bool)
      modifies this`refreshAddr
      ensures var c := Unpack(old(refreshAddr));
              Unpack(refreshAddr) == if rendering then NextLine(c) else Ahead(c, by32)
    {
      hide Unpack;
      if rendering {
        Fixit1(true);
        return;
      }
      AheadWraps(refreshAddr, by32);
      if by32 {
        refreshAddr := (refreshAddr + 32) % 0x1_0000_0000;
      } else {
        refreshAddr := (refreshAddr + 1) % 0x1_0000_0000;
      }
    }

    /** A $2007 access in both: they go on in agreement exactly if both take it as one while rendering,
        or neither does. The old renderer leaves the line before the picture out. */
    method Access2007(oldRendering: bool, newRendering: bool, by32: bool)
      requires Agree()
      modifies this`refreshAddr, this`fv, this`v, this`h, this`vt, this`ht
      ensures Agree() <==> oldRendering == newRendering
      ensures InRange(Clocked())
      ensures Clocked() == if newRendering then NextLine(old(Clocked())) else Ahead(old(Clocked()), by32)
    {
      hide Unpack, NextLine, Ahead;
      RenderingMatters(Clocked(), by32);
      OldIncrement2007(oldRendering, by32);
      Increment2007(newRendering, by32);
    }

    // ---------- register writes, which update both ----------

    method B2000(value: Byte)
      requires Agree()
      modifies this
      ensures Agree() && vtoggle == old(vtoggle) && Clocked() == old(Clocked()) && fh == old(fh)
      ensures Latched() == old(Latched()).(h := value % 2, v := value / 2 % 2) && s == value / 16 % 2
    {
      hide Temp2000, Unpack;
      Write2000(Latched(), value);
      tempAddr := Temp2000(tempAddr, value);
      latchH := value % 2;
      latchV := value / 2 % 2;
      s := value / 16 % 2;
    }

    method B2005(value: Byte)
      requires Agree()
      modifies this
      ensures Agree() && vtoggle == !old(vtoggle) && Clocked() == old(Clocked()) && s == old(s)
      ensures if old(vtoggle)
              then Latched() == old(Latched()).(vt := value / 8, fv := value % 8) && fh == old(fh)
              else Latched() == old(Latched()).(ht := value / 8) && fh == value % 8
    {
      hide Temp2005X, Temp2005Y, Unpack;
      Write2005X(Latched(), value);
      Write2005Y(Latched(), value);
      if !vtoggle {
        tempAddr := Temp2005X(tempAddr, value);
        xOffset := value % 8;
        latchHt := value / 8;
        fh := value % 8;
      } else {
        tempAddr := Temp2005Y(tempAddr, value);
        latchVt := value / 8;
        latchFv := value % 8;
      }
      vtoggle := !vtoggle;
    }

    method B2006High(value: Byte)
      requires Agree()
      modifies this`tempAddr, this`latchVt, this`latchH, this`latchV, this`latchFv
      ensures Agree() && Pack(Latched()) == Pack(old(Latched())) % 0x100 + 0x100 * (value % 64)
    {
      hide Temp2006High, Unpack, Pack;
      Write2006High(Latched(), value);
      Address2006(Latched(), value);
      tempAddr := Temp2006High(tempAddr, value);
      latchVt := latchVt % 8;
      latchVt := latchVt + 8 * (value % 4);
      latchH := value / 4 % 2;
      latchV := value / 8 % 2;
      latchFv := value / 16 % 4;
    }

    method LatchLow(value: Byte)
      modifies this`latchVt, this`latchHt
      ensures Latched() == LowWritten(old(Latched()), value)
    {
      latchVt := latchVt - latchVt % 8;
      latchVt := latchVt + value / 32;
      latchHt := value % 32;
    }

    method B2006Low(value: Byte)
      requires Agree()
      modifies this
      ensures Agree() && fh == old(fh) && s == old(s) && vtoggle == old(vtoggle)
      ensures Pack(Latched()) == Pack(old(Latched())) / 0x100 * 0x100 + value && Clocked() == Latched()
    {
      hide Temp2006Low, Unpack, Pack, LowWritten;
      ghost var c := Latched();
      LowWrittenIs(c, value);
      tempAddr := Temp2006Low(tempAddr, value);
      refreshAddr := tempAddr;
      LatchLow(value);
      InstallLatches();
    }

    /** Two writes set a 14-bit address; the second one makes it current. */
    method B2006(value: Byte)
      requires Agree()
      modifies this
      ensures Agree() && vtoggle == !old(vtoggle) && fh == old(fh) && s == old(s)
      ensures if old(vtoggle)
              then Pack(Latched()) == Pack(old(Latched())) / 0x100 * 0x100 + value && Clocked() == Latched()
              else Pack(Latched()) == Pack(old(Latched())) % 0x100 + 0x100 * (value % 64)
                   && Clocked() == old(Clocked())
    {
      hide Unpack, Pack;
      if !vtoggle {
        B2006High(value);
      } else {
        B2006Low(value);
      }
      vtoggle := !vtoggle;
    }

    // ---------- runs ----------

    ghost function Position(): (q: Position)
      requires Valid()
      reads this
      ensures PositionOk(q)
    {
      At(Clocked(), Latched(), fh, vtoggle, s)
    }

    /** One event, handled by both renderers. */
    method Handle(e: Event)
      requires Agree()
      modifies this
      ensures Agree() && Position() == Moved(old(Position()), e)
    {
      hide Unpack, NextLine, Ahead;
      match e
      case W2000(value) => B2000(value);
      case W2005(value) => B2005(value);
      case W2006(value) => Write2006(value);
      case Access2007(rendering, by32) => Access2007(rendering, rendering, by32);
      case LineEnd(on) =>
        Fixit1(on);
        if on {
          IncrementVs();
        }
      case HBlank(on) =>
        Fixit2(on);
        if on {
          InstallHLatches();
        }
      case FrameStart(on) => StartFrame(on);
    }

    /** Before the first line both addresses are the temporary one, if rendering is on. */
    method StartFrame(on: bool)
      requires Agree()
      modifies this`refreshAddr, this`fv, this`v, this`h, this`vt, this`ht
      ensures Agree() && Clocked() == if on then Latched() else old(Clocked())
    {
      hide Unpack;
      UnpackPack(Latched(), 0);
      if on {
        refreshAddr := tempAddr;
        InstallLatches();
      }
    }

    method Write2006(value: Byte)
      requires Agree()
      modifies this
      ensures Agree() && Position() == Moved(old(Position()), W2006(value))
    {
      hide Unpack, Pack, NextLine, Ahead;
      B2006(value);
      UnpackPack(Latched(), 0);
    }

    /** Whatever happens in whatever order, the two renderers stay in agreement, at the position the events
        lead to one after the other. */
    method HandleAll(es: seq<Event>)
      requires Agree()
      modifies this
      ensures Agree() && Position() == MovedAll(old(Position()), es)
    {
      hide Moved, Unpack;
      for i := 0 to |es|
        invariant Agree() && Position() == MovedAll(old(Position()), es[..i])
      {
        assert es[..i + 1][..i] == es[..i];
        Handle(es[i]);
      }
      assert es[..|es|] == es;
    }
  }

  // ---------- what the events do to the position ----------

  /** The current and the temporary address, the fine scroll, whether the next write is a second one, and the
      background pattern table. */
  datatype Position = At(now: Counters, temp: Counters, fine: int, second: bool, table: int)

  predicate PositionOk(q: Position) {
    InRange(q.now) && InRange(q.temp)
  }

  /** The address with its upper six bits, or its lower byte, replaced. */
  function HighReplaced(c: Counters, value: Byte): (x: nat)
    requires InRange(c)
    ensures x < 0x8000
  {
    PackRange(c);
    Pack(c) % 0x100 + 0x100 * (value % 64)
  }

  function LowReplaced(c: Counters, value: Byte): (x: nat)
    requires InRange(c)
    ensures x < 0x8000
  {
    PackRange(c);
    Pack(c) / 0x100 * 0x100 + value
  }

  function Moved(q: Position, e: Event): (q': Position)
    requires PositionOk(q)
    ensures PositionOk(q')
  {
    match e
    case W2000(value) => q.(temp := q.temp.(h := value % 2, v := value / 2 % 2), table := value / 16 % 2)
    case W2005(value) =>
      if q.second then q.(temp := q.temp.(vt := value / 8, fv := value % 8), second := false)
      else q.(temp := q.temp.(ht := value / 8), fine := value % 8, second := true)
    case W2006(value) =>
      if q.second then var c := Unpack(LowReplaced(q.temp, value)); q.(now := c, temp := c, second := false)
      else q.(temp := Unpack(HighReplaced(q.temp, value)), second := true)
    case Access2007(rendering, by32) => q.(now := if rendering then NextLine(q.now) else Ahead(q.now, by32))
    case LineEnd(on) => if on then q.(now := NextLine(q.now)) else q
    case HBlank(on) => if on then q.(now := q.now.(h := q.temp.h, ht := q.temp.ht)) else q
    case FrameStart(on) => if on then q.(now := q.temp) else q
  }

  function MovedAll(q: Position, es: seq<Event>): (q': Position)
    requires PositionOk(q)
    ensures PositionOk(q')
  {
    if es == [] then q else Moved(MovedAll(q, es[..|es| - 1]), es[|es| - 1])
  }

  /** Two writes to $2006 set the 14-bit address of their bytes, wherever it was before. */
  lemma AddressSet(q: Position, high: Byte, low: Byte)
    requires PositionOk(q) && !q.second
    ensures var q' := MovedAll(q, [W2006(high), W2006(low)]);
            Pack(q'.now) == 0x100 * (high % 64) + low && q'.temp == q'.now && !q'.second && q'.fine == q.fine
  {
    MovedTwice(q, W2006(high), W2006(low));
    FirstByte(q, high);
    var q1 := Moved(q, W2006(high));
    SecondByte(q1, low);
    TopByte(Pack(q.temp), high % 64, Pack(q1.temp), low);
    hide Moved, MovedAll, Pack, Unpack;
  }

  lemma TopByte(a: int, b: nat, x: int, low: int)
    requires x == a % 0x100 + 0x100 * b
    ensures x / 0x100 * 0x100 + low == 0x100 * b + low
  {
    DivUnique(x, 0x100, b, a % 0x100);
  }

  lemma PackBack(x: int)
    requires 0 <= x < 0x8000
    ensures Pack(Unpack(x)) == x
  {
    hide Unpack, Pack;
    PackUnpack(x);
    DivUnique(x, 0x8000, 0, x);
  }

  lemma MovedTwice(q: Position, e1: Event, e2: Event)
    requires PositionOk(q)
    ensures MovedAll(q, [e1, e2]) == Moved(Moved(q, e1), e2)
  {
    hide Moved;
    assert [e1, e2][..1] == [e1] && [e1][..0] == [];
    assert MovedAll(q, [e1]) == Moved(MovedAll(q, []), e1);
  }

  lemma FirstByte(q: Position, high: Byte)
    requires PositionOk(q) && !q.second
    ensures var q' := Moved(q, W2006(high));
            Pack(q'.temp) == HighReplaced(q.temp, high) && q'.second && q'.fine == q.fine
  {
    hide Unpack, Pack, NextLine, Ahead, HighReplaced;
    PackBack(HighReplaced(q.temp, high));
  }

  lemma SecondByte(q: Position, low: Byte)
    requires PositionOk(q) && q.second
    ensures var q' := Moved(q, W2006(low));
            Pack(q'.now) == LowReplaced(q.temp, low) && q'.temp == q'.now && !q'.second && q'.fine == q.fine
  {
    hide Unpack, Pack, NextLine, Ahead, LowReplaced;
    PackBack(LowReplaced(q.temp, low));
  }

  /** Two writes to $2005 set the scroll in pixels, horizontally and vertically, inside the nametable chosen. */
  lemma ScrollSet(q: Position, x: Byte, y: Byte)
    requires PositionOk(q) && !q.second
    ensures var q' := MovedAll(q, [W2005(x), W2005(y)]);
            && 8 * q'.temp.ht + q'.fine == x && 8 * q'.temp.vt + q'.temp.fv == y && !q'.second
            && q'.temp.h == q.temp.h && q'.temp.v == q.temp.v && q'.now == q.now
  {
    MovedTwice(q, W2005(x), W2005(y));
    hide Unpack, Pack;
  }

  lemma ZeroAddress(x: nat, c: Counters)
    requires x == 0 && c == Counters(0, 0, 0, 0, 0)
    ensures Unpack(x) == c && Pack(c) == 0
  {
    hide Unpack;
    UnpackPack(c, 0);
  }

  lemma AheadWraps(x: U32, by32: bool)
    ensures Unpack((x + if by32 then 32 else 1) % 0x1_0000_0000) == Ahead(Unpack(x), by32)
  {
    hide Unpack;
    var step := if by32 then 32 else 1;
    PackUnpack(x);
    var y := (x + step) % 0x1_0000_0000;
    var p := Pack(Unpack(x)) + step;
    SameLow(y, p);
    assert y % 0x8000 == p % 0x8000 by {
      LowOfSum(x, step);
    }
  }

  lemma LowOfSum(x: U32, step: nat)
    requires step <= 32
    ensures (x + step) % 0x1_0000_0000 % 0x8000 == (x % 0x8000 + step) % 0x8000
  {
    var t := x + step;
    var q := t / 0x1_0000_0000;
    assert t == q * 0x1_0000_0000 + t % 0x1_0000_0000;
    DivAddMultiple(t % 0x1_0000_0000, 0x8000, q * 0x20000);
    DivAddMultiple(x % 0x8000 + step, 0x8000, x / 0x8000);
    assert x == x / 0x8000 * 0x8000 + x % 0x8000;
  }

  /** Only the low 15 bits are unpacked. */
  lemma SameLow(x: nat, y: nat)
    ensures x % 0x8000 == y % 0x8000 ==> Unpack(x) == Unpack(y)
  {
    hide Unpack;
    PackUnpack(x);
    PackUnpack(y);
    if x % 0x8000 == y % 0x8000 {
      UnpackPack(Unpack(x), 0);
      UnpackPack(Unpack(y), 0);
    }
  }

  function LowWritten(c: Counters, value: Byte): Counters {
    c.(vt := c.vt - c.vt % 8 + value / 32, ht := value % 32)
  }

  lemma LowWrittenIs(c: Counters, value: Byte)
    requires InRange(c)
    ensures var d := LowWritten(c, value);
            && InRange(d) && Temp2006Low(Pack(c), value) == Pack(d) && Unpack(Pack(d)) == d
            && Pack(d) == Pack(c) / 0x100 * 0x100 + value
  {
    Write2006Low(c, value);
    Address2006(c, value);
    UnpackPack(LowWritten(c, value), 0);
    hide Pack, Unpack, Temp2006Low;
  }

  lemma Address2006(c: Counters, value: Byte)
    requires InRange(c)
    ensures Pack(Counters(value / 16 % 4, value / 8 % 2, value / 4 % 2, c.vt % 8 + 8 * (value % 4), c.ht))
         == Pack(c) % 0x100 + 0x100 * (value % 64)
    ensures Pack(c.(vt := c.vt - c.vt % 8 + value / 32, ht := value % 32)) == Pack(c) / 0x100 * 0x100 + value
  {
    EightBits(c);
    HighSix(value);
  }
}
