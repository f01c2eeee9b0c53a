/** Arithmetic behind the byte-table shifts: shifting a word is shifting its bytes, and putting
    the shifted bytes together never produces a carry. */
module MinirvShifts {
  import opened Bits
  import opened MinirvMachine
  import opened MinirvTables

  function ByteOf(x: Word, k: int): Byte {
    Lane(Split(x), k)
  }

  // ---------- modular arithmetic ----------

  lemma WrapAdd(a: int, b: int)
    ensures Plus(Wrap(a), Wrap(b)) == Wrap(a + b)
  {
  }

  lemma WrapMul(y: int, c: int)
    ensures Wrap(Wrap(y) * c) == Wrap(y * c)
  {
    var q := y / 0x1_0000_0000;
    assert y * c == Wrap(y) * c + q * c * 0x1_0000_0000 by {
      assert y == Wrap(y) + q * 0x1_0000_0000;
      assert (Wrap(y) + q * 0x1_0000_0000) * c == Wrap(y) * c + q * 0x1_0000_0000 * c;
      assert q * 0x1_0000_0000 * c == q * c * 0x1_0000_0000;
    }
    DivAddMultiple(Wrap(y) * c, 0x1_0000_0000, q * c);
  }

  function Shl(x: Word, n: nat): Word {
    Wrap(x * Pow2(n))
  }

  lemma ShlAdd(x: Word, a: nat, b: nat)
    ensures Shl(Shl(x, a), b) == Shl(x, a + b)
  {
    hide Pow2;
    WrapMul(x * Pow2(a), Pow2(b));
    Pow2Add(a, b);
    TimesProduct(x, Pow2(a), Pow2(b));
  }

  // ---------- bytes ----------

  lemma BytesOf(x: Word)
    ensures x == ByteOf(x, 0) + 0x100 * ByteOf(x, 1) + 0x1_0000 * ByteOf(x, 2) + 0x100_0000 * ByteOf(x, 3)
    ensures x % 0x100_0000 == ByteOf(x, 0) + 0x100 * ByteOf(x, 1) + 0x1_0000 * ByteOf(x, 2)
    ensures x / 0x100_0000 == ByteOf(x, 3)
  {
  }

  /** Byte k of x is byte 0 of x shifted right by 8 * k. */
  lemma BytesByDivision(x: Word)
    ensures ByteOf(x, 1) == x / 0x100 % 0x100
    ensures ByteOf(x, 2) == x / 0x1_0000 % 0x100
    ensures ByteOf(x, 3) == x / 0x100_0000
  {
    DivDiv(x, 0x100, 0x100);
    DivDiv(x, 0x1_0000, 0x100);
  }

  // ---------- left shift ----------

  lemma MulByteSum(b0: int, b1: int, b2: int, b3: int, p: int)
    ensures b0 * p + b1 * p * 0x100 + b2 * p * 0x1_0000 + b3 * p * 0x100_0000 == (b0 + 0x100 * b1 + 0x1_0000 * b2 + 0x100_0000 * b3) * p
  {
    assert b1 * p * 0x100 == (0x100 * b1) * p;
    assert b2 * p * 0x1_0000 == (0x1_0000 * b2) * p;
    assert b3 * p * 0x100_0000 == (0x100_0000 * b3) * p;
  }

  /** The four table words, moved to their byte positions and added modulo 2^32, are the shifted word. */
  lemma ShiftLeftBytes(x: Word, a: nat)
    ensures var e0, e1, e2, e3 := ShiftEntry(Sll, a, ByteOf(x, 0)), ShiftEntry(Sll, a, ByteOf(x, 1)),
                                  ShiftEntry(Sll, a, ByteOf(x, 2)), ShiftEntry(Sll, a, ByteOf(x, 3));
            Plus(Plus(Plus(Wrap(e3 * 0x100_0000), Wrap(e2 * 0x1_0000)), Wrap(e1 * 0x100)), e0) == Shl(x, a)
  {
    hide Pow2, Split;
    BytesOf(x);
    var p := Pow2(a);
    var b0, b1, b2, b3 := ByteOf(x, 0), ByteOf(x, 1), ByteOf(x, 2), ByteOf(x, 3);
    SumShifted(b0 * p, b1 * p, b2 * p, b3 * p);
    MulByteSum(b0, b1, b2, b3, p);
  }

  lemma SumShifted(y0: int, y1: int, y2: int, y3: int)
    ensures Plus(Plus(Plus(Wrap(Wrap(y3) * 0x100_0000), Wrap(Wrap(y2) * 0x1_0000)), Wrap(Wrap(y1) * 0x100)), Wrap(y0))
         == Wrap(y0 + y1 * 0x100 + y2 * 0x1_0000 + y3 * 0x100_0000)
  {
    WrapMul(y3, 0x100_0000);
    WrapMul(y2, 0x1_0000);
    WrapMul(y1, 0x100);
    hide Wrap, Plus;
    WrapAdd(y3 * 0x100_0000, y2 * 0x1_0000);
    WrapAdd(y3 * 0x100_0000 + y2 * 0x1_0000, y1 * 0x100);
    WrapAdd(y3 * 0x100_0000 + y2 * 0x1_0000 + y1 * 0x100, y0);
  }

  // ---------- right shift ----------

  /** How many low bits of a value with h low zero bits are still zero after shifting right by a. */
  function Rest(h: nat, a: nat): nat {
    if a < h then h - a else 0
  }

  lemma ShiftedMultiple(b: nat, h: nat, a: nat)
    ensures b * Pow2(h) / Pow2(a) % Pow2(Rest(h, a)) == 0
  {
    hide Pow2;
    if a < h {
      Pow2Add(h - a, a);
      TimesProduct(b, Pow2(h - a), Pow2(a));
      DivAddMultiple(0, Pow2(a), b * Pow2(h - a));
      DivAddMultiple(0, Pow2(h - a), b);
    } else {
      Pow2Small();
    }
  }

  lemma ShiftedBelow(y: nat, h: nat, a: nat)
    requires y < Pow2(h)
    ensures 0 <= y / Pow2(a) < Pow2(Rest(h, a))
  {
    hide Pow2;
    if a < h {
      Pow2Add(h - a, a);
      DivBelow(y, Pow2(a), Pow2(h - a));
    } else {
      Pow2Small();
      Pow2Monotone(h, a);
      DivUnique(y, Pow2(a), 0, y);
    }
  }

  /** The three low bytes, each shifted on its own, and their sum. */
  lemma ShiftedParts(b0: Byte, b1: Byte, b2: Byte, a: nat)
    ensures var a0, a1, a2 := b0 / Pow2(a), b1 * 0x100 / Pow2(a), b2 * 0x1_0000 / Pow2(a);
            && a2 + (a1 + a0) == (b0 + 0x100 * b1 + 0x1_0000 * b2) / Pow2(a)
            && 0 <= a0 < Pow2(Rest(8, a)) && a1 % Pow2(Rest(8, a)) == 0
            && 0 <= a1 + a0 < Pow2(Rest(16, a)) && a2 % Pow2(Rest(16, a)) == 0
            && 0 <= a0 <= b0 && 0 <= a1 && 0 <= a2 && a1 + a0 < 0x1_0000
  {
    hide Pow2;
    Pow2Values();
    var p := Pow2(a);
    DivAddMultiple(0, Pow2(8), b1);
    DivAddMultiple(0, Pow2(16), b2);
    ShiftDisjoint(b1 * 0x100, b0, 8, a);
    ShiftDisjoint(b2 * 0x1_0000, b1 * 0x100 + b0, 16, a);
    ShiftedBelow(b0, 8, a);
    ShiftedMultiple(b1, 8, a);
    ShiftedBelow(b1 * 0x100 + b0, 16, a);
    ShiftedMultiple(b2, 16, a);
    DivAtMost(b0, p);
    DivAtMost(b1 * 0x100, p);
    DivAtMost(b2 * 0x1_0000, p);
    DivAtMost(b1 * 0x100 + b0, p);
  }

  /** A byte field of two sums with disjoint bits. */
  lemma AddFields(a2: nat, a1: nat, a0: nat, k: nat, j: nat)
    requires a2 % Pow2(k) == 0 && a1 + a0 < Pow2(k)
    requires a1 % Pow2(j) == 0 && a0 < Pow2(j) && a0 < 0x100 && a1 + a0 < 0x1_0000
    ensures a2 % 0x100 + a1 % 0x100 + a0 < 0x100
    ensures a2 / 0x100 % 0x100 + a1 / 0x100 < 0x100
    ensures a2 + (a1 + a0)
         == (a2 % 0x100 + a1 % 0x100 + a0) + 0x100 * (a2 / 0x100 % 0x100 + a1 / 0x100) + 0x1_0000 * (a2 / 0x1_0000)
  {
    hide Pow2;
    Pow2Values();
    ModDisjoint(a2, a1 + a0, k, 8);
    ModDisjoint(a1, a0, j, 8);
    ModDisjoint(a2, a1 + a0, k, 16);
    ShiftDisjoint(a1, a0, j, 8);
    SixteenBits(a2);
    SixteenBits(a1 + a0);
    SmallByte(a0);
    SmallHalf(a1 + a0);
  }

  lemma SmallByte(x: nat)
    requires x < 0x100
    ensures x % 0x100 == x && x / 0x100 == 0
  {
  }

  lemma SmallHalf(x: nat)
    requires x < 0x1_0000
    ensures x % 0x1_0000 == x && x / 0x1_0000 == 0 && x / 0x100 % 0x100 == x / 0x100
  {
  }

  lemma SixteenBits(x: nat)
    ensures x % 0x1_0000 == x % 0x100 + 0x100 * (x / 0x100 % 0x100)
    ensures x == x % 0x1_0000 + 0x1_0000 * (x / 0x1_0000)
  {
    assert x / 0x1_0000 == x / 0x100 / 0x100 by {
      DivDiv(x, 0x100, 0x100);
    }
  }

  /** Table words for the low bytes: moved right by one, two and three bytes they are the parts. */
  lemma EntryParts(b0: Byte, b1: Byte, b2: Byte, a: nat)
    ensures var e0, e1, e2 := ShiftEntry(Srl, a, b0), ShiftEntry(Srl, a, b1), ShiftEntry(Srl, a, b2);
            e0 / 0x100_0000 == b0 / Pow2(a) && e1 / 0x1_0000 == b1 * 0x100 / Pow2(a) && e2 / 0x100 == b2 * 0x1_0000 / Pow2(a)
  {
    hide Pow2;
    MoveDown(b0 * 0x100_0000, b0, 0x100_0000, Pow2(a));
    MoveDown(b1 * 0x100_0000, b1 * 0x100, 0x1_0000, Pow2(a));
    MoveDown(b2 * 0x100_0000, b2 * 0x1_0000, 0x100, Pow2(a));
  }

  lemma MoveDown(y: nat, z: nat, w: int, p: int)
    requires w > 0 && p > 0 && y == z * w
    ensures y / p / w == z / p
  {
    DivDiv(y, p, w);
    DivDiv(y, w, p);
    TimesCommutes(p, w);
    DivAddMultiple(0, w, z);
    DivUnique(0, w, 0, 0);
  }

  /** No sum of table bytes carries, and the three sums are the bytes of the shifted low part. */
  lemma NoCarry(x: Word, a: nat)
    ensures var e0, e1, e2 := ShiftEntry(Srl, a, ByteOf(x, 0)), ShiftEntry(Srl, a, ByteOf(x, 1)),
                              ShiftEntry(Srl, a, ByteOf(x, 2));
            var s0 := ByteOf(e2, 1) + ByteOf(e1, 2) + ByteOf(e0, 3);
            var s1 := ByteOf(e2, 2) + ByteOf(e1, 3);
            && s0 < 0x100 && s1 < 0x100
            && s0 + 0x100 * s1 + 0x1_0000 * ByteOf(e2, 3) == x % 0x100_0000 / Pow2(a)
  {
    hide Pow2, Split, Rest;
    var b0, b1, b2 := ByteOf(x, 0), ByteOf(x, 1), ByteOf(x, 2);
    var e0, e1, e2 := ShiftEntry(Srl, a, b0), ShiftEntry(Srl, a, b1), ShiftEntry(Srl, a, b2);
    BytesOf(x);
    EntryParts(b0, b1, b2, a);
    ShiftedParts(b0, b1, b2, a);
    AddFields(e2 / 0x100, e1 / 0x1_0000, e0 / 0x100_0000, Rest(16, a), Rest(8, a));
    BytesByDivision(e2);
    BytesByDivision(e1);
    BytesByDivision(e0);
    DivDiv(e2, 0x100, 0x100);
    DivDiv(e2, 0x100, 0x1_0000);
    DivDiv(e1, 0x1_0000, 0x100);
  }

  lemma SplitTop(x: Word)
    ensures var b: int, low := ByteOf(x, 3), x % 0x100_0000;
            && x == b * 0x100_0000 + low && Signed(x) == Signed(b * 0x100_0000) + low
            && b * 0x100_0000 % 0x100_0000 == 0 && Signed(b * 0x100_0000) % 0x100_0000 == 0
            && Signed(b * 0x100_0000) == Signed(b * 0x100_0000) / 0x100_0000 * 0x100_0000
  {
    hide Split;
    BytesOf(x);
  }

  /** Sign- or zero-filled top byte plus the shifted low part is the shifted word. */
  lemma ShiftRightTop(x: Word, a: nat)
    ensures x / Pow2(a) == ShiftEntry(Srl, a, ByteOf(x, 3)) + x % 0x100_0000 / Pow2(a)
    ensures 0 <= x % 0x100_0000 / Pow2(a)
    ensures Wrap(Signed(x) / Pow2(a)) == Plus(ShiftEntry(Sra, a, ByteOf(x, 3)), x % 0x100_0000 / Pow2(a))
  {
    hide Pow2, ByteOf, Signed;
    Pow2Values();
    SplitTop(x);
    var b: int, low := ByteOf(x, 3), x % 0x100_0000;
    ShiftDisjoint(b * 0x100_0000, low, 24, a);
    ShiftDisjoint(Signed(b * 0x100_0000), low, 24, a);
    DivAtMost(low, Pow2(a));
    PlusWrap(Signed(b * 0x100_0000) / Pow2(a), low / Pow2(a));
  }

  lemma PlusWrap(a: int, b: int)
    ensures Plus(Wrap(a), b) == Wrap(a + b)
  {
  }

  /** The filled top byte and the low part have no bit in common: even the sign-filled sum stays below 2^32. */
  lemma TopDisjoint(x: Word, a: nat)
    ensures ShiftEntry(Sra, a, ByteOf(x, 3)) + x % 0x100_0000 / Pow2(a) < 0x1_0000_0000
  {
    hide Pow2, ByteOf, Signed, Rest;
    Pow2Values();
    SplitTop(x);
    var low := x % 0x100_0000;
    var b: int := ByteOf(x, 3);
    var top := Signed(b * 0x100_0000);
    SignedShiftRest(top / 0x100_0000, a);
    ShiftedBelow(low, 24, a);
    ModDisjoint(top / Pow2(a), low / Pow2(a), Rest(24, a), 32);
    SmallMod(low / Pow2(a), low, Pow2(a));
  }

  lemma SmallMod(q: int, low: nat, p: int)
    requires p > 0 && low < 0x1_0000_0000 && q == low / p
    ensures q % 0x1_0000_0000 == q
  {
    DivAtMost(low, p);
  }

  lemma SignedShiftRest(b: int, a: nat)
    ensures b * 0x100_0000 / Pow2(a) % Pow2(Rest(24, a)) == 0
  {
    hide Pow2;
    Pow2Values();
    if a < 24 {
      Pow2Add(24 - a, a);
      TimesProduct(b, Pow2(24 - a), Pow2(a));
      DivAddMultiple(0, Pow2(a), b * Pow2(24 - a));
      DivAddMultiple(0, Pow2(24 - a), b);
    } else {
      Pow2Small();
    }
  }
}
