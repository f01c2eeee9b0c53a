/** 64-bit division, remainder and bit counting as the runtime library computes them on two
    32-bit halves. */
module Int64 {
  import opened Bits

  type U64 = x: int | 0 <= x < 0x1_0000_0000_0000_0000
  type S64 = x: int | -0x8000_0000_0000_0000 <= x < 0x8000_0000_0000_0000

  function High(x: U64): U32 { x / 0x1_0000_0000 }
  function Low(x: U64): U32 { x % 0x1_0000_0000 }

  function Wide(high: U32, low: U32): U64 {
    high * 0x1_0000_0000 + low
  }

  function Wrap32(x: int): U32 { x % 0x1_0000_0000 }
  function Minus32(x: int, y: int): U32 { Wrap32(x - y) }
  function Minus64(x: int, y: int): U64 { Wrap64(x - y) }
  function Wrap64(x: int): U64 { x % 0x1_0000_0000_0000_0000 }

  /** x << k and x >> k on an unsigned 32-bit word. */
  function Shl32(x: U32, k: nat): U32 {
    Wrap32(x * Pow2(k))
  }

  function Shr32(x: U32, k: nat): U32 {
    DivAtMost(x, Pow2(k));
    x / Pow2(k)
  }

  // ---------- bit counting: definitions ----------

  /** Number of bits up to the highest one. */
  function BitLength(x: nat): nat {
    if x == 0 then 0 else 1 + BitLength(x / 2)
  }

  /** Position of the lowest one. */
  function TrailingZeros(x: nat): nat
    requires x > 0
  {
    if x % 2 == 1 then 0 else 1 + TrailingZeros(x / 2)
  }

  lemma {:induction false} BitLengthBounds(x: nat)
    requires x > 0
    ensures BitLength(x) > 0 && Pow2(BitLength(x) - 1) <= x < Pow2(BitLength(x))
  {
    if x > 1 {
      BitLengthBounds(x / 2);
    } else {
      assert BitLength(x) == 1 + BitLength(0);
      Pow2Small();
    }
  }

  lemma BitLengthAtMost(x: nat, n: nat)
    requires x < Pow2(n)
    ensures BitLength(x) <= n
  {
    if x > 0 {
      BitLengthBounds(x);
      if BitLength(x) > n {
        Pow2Monotone(n, BitLength(x) - 1);
      }
    }
  }

  lemma {:induction false} BitLengthShift(x: nat, k: nat)
    requires x >= Pow2(k)
    ensures x / Pow2(k) >= 0 && BitLength(x) == k + BitLength(x / Pow2(k))
  {
    if k > 0 {
      BitLengthShift(x / 2, k - 1);
      DivDiv(x, 2, Pow2(k - 1));
    }
  }

  lemma {:induction false} TrailingZerosMeaning(x: nat)
    requires x > 0
    ensures x % Pow2(TrailingZeros(x)) == 0 && x / Pow2(TrailingZeros(x)) % 2 == 1
  {
    if x % 2 == 0 {
      var c := TrailingZeros(x / 2);
      TrailingZerosMeaning(x / 2);
      DivDiv(x, 2, Pow2(c));
      HalfMod(x, c + 1);
    }
  }

  lemma {:induction false} TrailingZerosShift(x: nat, k: nat)
    requires x > 0 && x % Pow2(k) == 0
    ensures x / Pow2(k) > 0 && TrailingZeros(x) == k + TrailingZeros(x / Pow2(k))
  {
    if k > 0 {
      HalfMod(x, k);
      TrailingZerosShift(x / 2, k - 1);
      DivDiv(x, 2, Pow2(k - 1));
    }
  }

  function Clz32(x: U32): nat
    requires x > 0
  {
    Pow2Values();
    BitLengthAtMost(x, 32);
    32 - BitLength(x)
  }

  // ---------- counting leading zeros ----------

  /** One halving step: if the upper half of a 2k-bit value is empty, keep the value, else take the upper half. */
  lemma ClzStage(x: U32, k: nat)
    requires k <= 16 && 0 < x < Pow2(2 * k)
    ensures And32(x, HighMask(k)) == 0 <==> x < Pow2(k)
    ensures x < Pow2(k) ==> Shr32(x, 0) == x
    ensures x >= Pow2(k) ==> 0 < Shr32(x, k) < Pow2(k) && BitLength(x) == k + BitLength(Shr32(x, k))
  {
    hide Bitwise, Pow2;
    Pow2Values();
    Pow2Small();
    MaskedBits(x, k);
    if x >= Pow2(k) {
      BitLengthShift(x, k);
      Pow2Add(k, k);
      DivBelow(x, Pow2(k), Pow2(k));
      DivMonotone(Pow2(k), x, Pow2(k));
      DivUnique(Pow2(k), Pow2(k), 1, 0);
    } else {
      DivUnique(x, 1, x, 0);
    }
  }

  /** Ones at positions k to 2k - 1. */
  function HighMask(k: nat): U32
    requires k <= 16
  {
    Pow2Values();
    Pow2Add(k, k);
    Pow2Monotone(2 * k, 32);
    Pow2Monotone(k, 2 * k);
    Pow2(2 * k) - Pow2(k)
  }

  lemma MaskedBits(x: U32, k: nat)
    requires k <= 16 && x < Pow2(2 * k)
    ensures And32(x, HighMask(k)) == x - x % Pow2(k)
    ensures And32(x, HighMask(k)) == 0 <==> x < Pow2(k)
  {
    hide Bitwise, Pow2;
    var n := 2 * k;
    Pow2Values();
    BitwiseSplit(And, n, 32 - n, x, HighMask(k));
    DivUnique(x, Pow2(n), 0, x);
    Pow2Monotone(k, n);
    BitwiseSymmetric(And, 32 - n, 0, HighMask(k) / Pow2(n));
    BitwiseZero(And, 32 - n, HighMask(k) / Pow2(n));
    AndHighMask(n, k, x);
    if x < Pow2(k) {
      DivUnique(x, Pow2(k), 0, x);
    }
  }

  lemma Masks()
    ensures HighMask(16) == 0xFFFF_0000 && HighMask(8) == 0xFF00 && HighMask(4) == 0xF0 && HighMask(2) == 0xC
  {
    hide Pow2;
    Pow2Values();
    Pow2Small();
    Pow2Add(2, 2);
  }

  function Flag(b: bool): int {
    if b then 1 else 0
  }

  lemma AndTwo(x: U32)
    ensures And32(x, 2) == x / 2 % 2 * 2
  {
    hide Bitwise, Pow2;
    BitwiseStep(And, 32, x, 2);
    BitwiseStep(And, 31, x / 2, 1);
    BitwiseZero(And, 30, x / 2 / 2);
  }

  lemma AndMasks(x: U32)
    ensures And32(x, 0xFFFF_FFFF) == x && And32(x, 0) == 0
  {
    hide Bitwise, Pow2;
    Pow2Values();
    AndOnes(32, x);
    BitwiseZero(And, 32, x);
  }

  /** The branch-free last step: 1 for x = 1, otherwise 0. */
  lemma LastBit(x: U32)
    requires 0 < x < 4
    ensures And32(Minus32(2, x), Wrap32(-Flag(And32(x, 2) == 0))) == 2 - BitLength(x)
  {
    hide And32;
    AndTwo(x);
    AndMasks(Minus32(2, x));
    if x == 1 {
      assert BitLength(1) == 1 + BitLength(0);
    } else {
      assert BitLength(x) == 1 + BitLength(1) == 2 + BitLength(0);
    }
  }

  /** Binary search for the highest one bit. */
  method ClzSi2(a: U32) returns (count: nat)
    requires a != 0
    ensures count == Clz32(a)
  {
    hide Bitwise, Pow2, And32, Shr32, HighMask;
    Masks();
    Pow2Values();
    Pow2Small();
    Pow2Add(2, 2);
    var x := a;
    ClzStage(x, 16);
    var t := if And32(x, 0xFFFF_0000) == 0 then 16 else 0;
    x := Shr32(x, 16 - t);
    var r := t;
    assert BitLength(a) == 16 - r + BitLength(x) && 0 < x < 0x1_0000;
    ClzStage(x, 8);
    t := if And32(x, 0xFF00) == 0 then 8 else 0;
    x := Shr32(x, 8 - t);
    r := r + t;
    assert BitLength(a) == 24 - r + BitLength(x) && 0 < x < 0x100;
    ClzStage(x, 4);
    t := if And32(x, 0xF0) == 0 then 4 else 0;
    x := Shr32(x, 4 - t);
    r := r + t;
    assert BitLength(a) == 28 - r + BitLength(x) && 0 < x < 16;
    ClzStage(x, 2);
    t := if And32(x, 0xC) == 0 then 2 else 0;
    x := Shr32(x, 2 - t);
    r := r + t;
    assert BitLength(a) == 30 - r + BitLength(x) && 0 < x < 4;
    LastBit(x);
    count := r + And32(Minus32(2, x), Wrap32(-Flag(And32(x, 2) == 0)));
  }

  // ---------- counting trailing zeros ----------

  function Ctz32(x: U32): nat
    requires x > 0
  {
    TrailingZeros(x)
  }

  function LowMask(k: nat): U32
    requires k <= 16
  {
    Pow2Values();
    Pow2Monotone(k, 16);
    Pow2(k) - 1
  }

  lemma AndLow(x: U32, k: nat)
    requires k <= 16
    ensures And32(x, LowMask(k)) == x % Pow2(k)
  {
    hide Bitwise, Pow2;
    Pow2Values();
    Pow2Monotone(k, 16);
    AndLowMask(32, k, x);
  }

  /** One halving step on a value whose low 2k bits are not all zero: skip k empty low bits. */
  lemma CtzStage(x: U32, k: nat)
    requires 0 < k <= 16 && x % Pow2(2 * k) != 0
    ensures x > 0
    ensures var t := if And32(x, LowMask(k)) == 0 then k else 0;
            var y := Shr32(x, t);
            y > 0 && y % Pow2(k) != 0 && TrailingZeros(x) == t + TrailingZeros(y)
  {
    hide Bitwise, Pow2, And32;
    Pow2Small();
    if x == 0 {
      DivUnique(0, Pow2(2 * k), 0, 0);
    }
    AndLow(x, k);
    if x % Pow2(k) == 0 {
      TrailingZerosShift(x, k);
      StageLeaves(x, k);
    } else {
      DivUnique(x, 1, x, 0);
    }
  }

  /** After a stage the low k bits are not all zero. */
  lemma StageLeaves(x: U32, k: nat)
    requires x % Pow2(2 * k) != 0 && x % Pow2(k) == 0
    ensures x / Pow2(k) % Pow2(k) != 0
  {
    hide Pow2;
    if x / Pow2(k) % Pow2(k) == 0 {
      var p := Pow2(k);
      var y := x / p / p;
      assert x == x / p * p && x / p == y * p;
      TimesProduct(y, p, p);
      Pow2Add(k, k);
      DivUnique(x, p * p, y, 0);
    }
  }

  /** The branch-free last step: 1 for x = 2, otherwise 0. */
  lemma LastTwo(x: U32)
    requires 0 < x < 4
    ensures And32(Minus32(2, Shr32(x, 1)), Wrap32(-Flag(And32(x, 1) == 0))) == TrailingZeros(x)
  {
    hide And32, Bitwise, Pow2, LowMask;
    Pow2Small();
    LowMasks();
    AndLow(x, 1);
    AndMasks(Minus32(2, Shr32(x, 1)));
    if x == 2 {
      assert TrailingZeros(2) == 1 + TrailingZeros(1);
    }
  }

  lemma TrailingLow(x: U32)
    requires x % 4 != 0
    ensures x > 0 && TrailingZeros(x) == TrailingZeros(x % 4)
  {
    var h := x / 4;
    assert x == 4 * h + x % 4;
    if x % 4 == 2 {
      assert x / 2 == 2 * h + 1;
      assert TrailingZeros(x) == 1 + TrailingZeros(x / 2);
      assert TrailingZeros(2) == 1 + TrailingZeros(1);
    } else {
      assert x % 2 == 1;
    }
  }

  lemma LowMasks()
    ensures LowMask(16) == 0xFFFF && LowMask(8) == 0xFF && LowMask(4) == 0xF && LowMask(2) == 3 && LowMask(1) == 1
    ensures Pow2(4) == 16
  {
    hide Pow2;
    Pow2Values();
    Pow2Small();
    Pow2Add(2, 2);
  }

  /** Binary search for the lowest one bit. */
  method CtzSi2(a: U32) returns (count: nat)
    requires a != 0
    ensures count == Ctz32(a)
  {
    hide Bitwise, Pow2, And32, Shr32, TrailingZeros, LowMask;
    Pow2Values();
    Pow2Small();
    LowMasks();
    CtzStage(a, 16);
    var x := a;
    var t := if And32(x, 0xFFFF) == 0 then 16 else 0;
    x := Shr32(x, t);
    var r := t;
    CtzStage(x, 8);
    t := if And32(x, 0xFF) == 0 then 8 else 0;
    x := Shr32(x, t);
    r := r + t;
    CtzStage(x, 4);
    t := if And32(x, 0xF) == 0 then 4 else 0;
    x := Shr32(x, t);
    r := r + t;
    CtzStage(x, 2);
    t := if And32(x, 3) == 0 then 2 else 0;
    x := Shr32(x, t);
    AndLow(x, 2);
    TrailingLow(x);
    x := And32(x, 3);
    LastTwo(x);
    r := r + t;
    count := r + And32(Minus32(2, Shr32(x, 1)), Wrap32(-Flag(And32(x, 1) == 0)));
  }

  // ---------- shifting a 64-bit value held in two words ----------

  lemma Shl32Value(x: U32, k: nat)
    requires k <= 32
    ensures Shl32(x, k) == x % Pow2(32 - k) * Pow2(k)
  {
    hide Pow2;
    Pow2Values();
    Pow2Add(k, 32 - k);
    MulMod(x, Pow2(k), Pow2(32 - k));
  }

  /** A word shifted up and bits below it do not meet. */
  lemma JoinShifted(x: U32, k: nat, y: nat)
    requires k <= 32 && y < Pow2(k)
    ensures y < 0x1_0000_0000
    ensures Or32(Shl32(x, k), y) == x % Pow2(32 - k) * Pow2(k) + y
  {
    hide Bitwise, Pow2, Shl32;
    Pow2Values();
    Pow2Monotone(k, 32);
    Shl32Value(x, k);
    DivAddMultiple(0, Pow2(k), x % Pow2(32 - k));
    DivUnique(0, Pow2(k), 0, 0);
    OrDisjoint(32, k, Shl32(x, k), y);
  }

  /** How n splits at bit sr when sr lies in the low word. */
  lemma SplitLow(high: U32, low: U32, sr: nat)
    requires sr <= 32
    ensures var n, p := Wide(high, low), Pow2(sr);
            && n / p == high * Pow2(32 - sr) + low / p
            && n % p == low % p
            && low / p < Pow2(32 - sr)
  {
    hide Pow2;
    Pow2Values();
    Pow2Add(32 - sr, sr);
    TimesProduct(high, Pow2(32 - sr), Pow2(sr));
    DivAddMultiple(low, Pow2(sr), high * Pow2(32 - sr));
    DivBelow(low, Pow2(sr), Pow2(32 - sr));
  }

  lemma SplitProduct(x: U32, sr: nat)
    requires sr <= 32
    ensures x * Pow2(32 - sr) == x / Pow2(sr) * 0x1_0000_0000 + x % Pow2(sr) * Pow2(32 - sr)
  {
    hide Pow2;
    Pow2Values();
    var p, q := Pow2(sr), Pow2(32 - sr);
    Pow2Add(sr, 32 - sr);
    assert x == x / p * p + x % p;
    TimesSum(x / p * p, x % p, q);
    TimesProduct(x / p, p, q);
  }

  /** The pair after shifting right by less than a word. */
  lemma ShiftRightWide(high: U32, low: U32, sr: nat)
    requires 1 <= sr <= 31
    ensures Shr32(low, sr) < Pow2(32 - sr)
    ensures Wide(Shr32(high, sr), Or32(Shl32(high, 32 - sr), Shr32(low, sr))) == Wide(high, low) / Pow2(sr)
  {
    hide Bitwise, Pow2, Or32, Shl32;
    SplitLow(high, low, sr);
    JoinShifted(high, 32 - sr, Shr32(low, sr));
    SplitProduct(high, sr);
  }

  /** How n splits at bit 32 + s. */
  lemma SplitHigh(high: U32, low: U32, s: nat)
    requires s <= 32
    ensures Wide(high, low) / Pow2(32 + s) == high / Pow2(s)
    ensures Wide(high, low) % Pow2(32 + s) == high % Pow2(s) * 0x1_0000_0000 + low
  {
    hide Pow2;
    Pow2Values();
    Pow2Add(32, s);
    var p := Pow2(s);
    var n := Wide(high, low);
    assert high == high / p * p + high % p;
    var rest := high % p * 0x1_0000_0000 + low;
    TimesSum(high / p * p, high % p, 0x1_0000_0000);
    TimesProduct(high / p, p, 0x1_0000_0000);
    TimesCommutes(p, 0x1_0000_0000);
    assert n == high / p * Pow2(32 + s) + rest;
    assert rest < Pow2(32 + s) by {
      MulBelow(high % p, p, 0x1_0000_0000);
      TimesSum(p, -(high % p) - 1, 0x1_0000_0000);
      MulAtLeast(p - high % p, 0x1_0000_0000);
    }
    DivUnique(n, Pow2(32 + s), high / p, rest);
  }

  // ---------- the state the division loop starts from ----------

  /** r holds the sr-shifted dividend, q the bits shifted out, pushed to the top. */
  predicate Started(n: U64, sr: nat, q: int, r: int)
    requires sr <= 64
  {
    r == n / Pow2(sr) && q == n % Pow2(sr) * Pow2(64 - sr)
  }

  lemma StartShort(high: U32, low: U32, sr: nat)
    requires 1 <= sr <= 31
    ensures Shr32(low, sr) < Pow2(32 - sr)
    ensures Started(Wide(high, low), sr, Wide(Shl32(low, 32 - sr), 0),
                    Wide(Shr32(high, sr), Or32(Shl32(high, 32 - sr), Shr32(low, sr))))
  {
    hide Bitwise, Pow2, Or32, Shl32;
    Pow2Values();
    ShiftRightWide(high, low, sr);
    SplitLow(high, low, sr);
    Shl32Value(low, 32 - sr);
    Pow2Add(32 - sr, 32);
    TimesProduct(low % Pow2(sr), Pow2(32 - sr), 0x1_0000_0000);
  }

  lemma StartWord(high: U32, low: U32)
    ensures Started(Wide(high, low), 32, Wide(low, 0), Wide(0, high))
  {
    hide Pow2;
    Pow2Values();
  }

  lemma StartLong(high: U32, low: U32, sr: nat)
    requires 33 <= sr <= 63
    ensures Shr32(low, sr - 32) < Pow2(64 - sr)
    ensures Started(Wide(high, low), sr,
                    Wide(Or32(Shl32(high, 64 - sr), Shr32(low, sr - 32)), Shl32(low, 64 - sr)),
                    Wide(0, Shr32(high, sr - 32)))
  {
    hide Bitwise, Pow2, Or32, Shl32;
    var s := sr - 32;
    var p, m := Pow2(s), Pow2(64 - sr);
    Pow2Values();
    SplitHigh(high, low, s);
    Pow2Add(64 - sr, s);
    DivBelow(low, p, m);
    JoinShifted(high, 64 - sr, low / p);
    Shl32Value(low, 64 - sr);
    SplitProduct(low, s);
    TimesSum(high % p * 0x1_0000_0000, low, m);
    TimesProduct(high % p, 0x1_0000_0000, m);
    TimesProduct(high % p, m, 0x1_0000_0000);
    TimesCommutes(m, 0x1_0000_0000);
  }

  // ---------- one step of the division loop ----------

  /** (x << 1) | bit */
  function Push(x: U32, bit: U32): U32 {
    Or32(Shl32(x, 1), bit)
  }

  function TopBit(x: U32): U32 {
    Shr32(x, 31)
  }

  lemma PushValue(x: U32, bit: U32)
    requires bit <= 1
    ensures Push(x, bit) == 2 * x + bit - TopBit(x) * 0x1_0000_0000
    ensures TopBit(x) <= 1
  {
    hide Bitwise, Pow2, Or32, Shl32;
    Pow2Values();
    Pow2Small();
    JoinShifted(x, 1, bit);
    assert x == x / 0x8000_0000 * 0x8000_0000 + x % 0x8000_0000;
  }

  /** Shifting r:q left by one, as two pairs of words. */
  lemma PushWide(r: U64, q: U64, carry: U32)
    requires carry <= 1 && r < 0x8000_0000_0000_0000
    ensures Wide(Push(High(r), TopBit(Low(r))), Push(Low(r), TopBit(High(q))))
         == 2 * r + q / 0x8000_0000_0000_0000
    ensures Wide(Push(High(q), TopBit(Low(q))), Push(Low(q), carry))
         == 2 * (q % 0x8000_0000_0000_0000) + carry
  {
    hide Push, Pow2;
    Pow2Values();
    PushValue(High(r), TopBit(Low(r)));
    PushValue(Low(r), TopBit(High(q)));
    PushValue(High(q), TopBit(Low(q)));
    PushValue(Low(q), carry);
    TopOfWide(r);
    TopOfWide(q);
  }

  lemma TopOfWide(x: U64)
    ensures TopBit(High(x)) == x / 0x8000_0000_0000_0000
    ensures x == High(x) * 0x1_0000_0000 + Low(x)
  {
    hide Pow2;
    Pow2Values();
    DivDiv(x, 0x1_0000_0000, 0x8000_0000);
  }

  /** (di_int)x >> 63: all ones for a negative pattern, zero otherwise. */
  function SignMask(x: U64): U64 {
    if x >= 0x8000_0000_0000_0000 then 0xFFFF_FFFF_FFFF_FFFF else 0
  }

  function And64(x: U64, y: U64): U64 {
    Pow2Values();
    Bitwise(And, 64, x, y)
  }

  lemma And64Mask(x: U64, m: U64)
    requires m == 0 || m == 0xFFFF_FFFF_FFFF_FFFF
    ensures And64(x, m) == if m == 0 then 0 else x
  {
    hide Bitwise, Pow2;
    Pow2Values();
    BitwiseZero(And, 64, x);
    AndOnes(64, x);
  }

  lemma MaskBit(m: U64)
    requires m == 0 || m == 0xFFFF_FFFF_FFFF_FFFF
    ensures And64(m, 1) == if m == 0 then 0 else 1
  {
    hide Bitwise, Pow2;
    BitwiseStep(And, 64, m, 1);
    BitwiseZero(And, 63, m / 2);
  }

  /** The remainder may not be compared as a plain difference: the sign of the wrapped d - r - 1 decides
      r >= d only because r stays below 2 * d, below 2^64, and within 2^63 of d. */
  lemma WrappedTest(d: U64, r: U64)
    requires r < 2 * d
    requires d > 0x8000_0000_0000_0000 ==> r >= 0x8000_0000_0000_0000
    ensures SignMask(Minus64(Minus64(d, r), 1)) == if r >= d then 0xFFFF_FFFF_FFFF_FFFF else 0
  {
    if r >= d {
      assert Minus64(Minus64(d, r), 1) == d - r - 1 + 0x1_0000_0000_0000_0000;
    } else {
      assert Minus64(Minus64(d, r), 1) == d - r - 1;
    }
  }

  /** The bits of n from position k up are twice those from k + 1 up, plus bit k. */
  lemma NextBit(n: U64, k: nat)
    requires k < 64
    ensures n / Pow2(k) == 2 * (n / Pow2(k + 1)) + n % Pow2(k + 1) / Pow2(k)
    ensures n % Pow2(k + 1) % Pow2(k) == n % Pow2(k)
    ensures 0 <= n % Pow2(k + 1) / Pow2(k) <= 1
  {
    hide Pow2;
    Pow2Add(1, k);
    Pow2Small();
    SplitTwice(n, Pow2(k), Pow2(k + 1));
  }

  lemma SplitTwice(n: nat, p: nat, q: nat)
    requires p > 0 && q == 2 * p
    ensures n / p == 2 * (n / q) + n % q / p && n % q % p == n % p && 0 <= n % q / p <= 1
  {
    var y, r := n / p, n % p;
    DivDiv(n, p, 2);
    TimesCommutes(p, 2);
    assert n == y * p + r && y == 2 * (y / 2) + y % 2;
    var b := y % 2;
    TimesSum(2 * (y / 2), b, p);
    TimesProduct(2, y / 2, p);
    TimesProduct(y / 2, 2, p);
    MulBelow(b, 2, p);
    TwoCases(b, p, r);
    DivUnique(n, q, y / 2, b * p + r);
    DivUnique(b * p + r, p, b, r);
  }

  lemma TwoCases(b: int, p: int, r: int)
    requires 0 <= b <= 1 && 0 <= r < p
    ensures 0 <= b * p + r < 2 * p
  {
    if b == 0 {
    } else {
      assert b == 1;
    }
  }

  /** What the loop keeps with sr steps to go: the part of n consumed so far is quotient * d + r, and q
      holds the rest of n above the quotient bits, of which the last is still in carry. */
  ghost predicate Dividing(n: U64, d: U64, sr: nat, q: U64, r: U64, carry: U32, bits: nat) {
    && sr <= 63 && carry <= 1 && r < d
    && (d > 0x8000_0000_0000_0000 ==> sr <= 1 && n >= 0x8000_0000_0000_0000)
    && n / Pow2(sr) == (2 * bits + carry) * d + r
    && q == n % Pow2(sr) * Pow2(64 - sr) + bits
    && bits < Pow2(64 - sr)
  }

  lemma QuotientSmall(n: U64, d: U64, sr: nat, quotient: nat, r: nat)
    requires d > 0 && sr <= 64 && n / Pow2(sr) == quotient * d + r
    ensures quotient < Pow2(64 - sr) && r <= n / Pow2(sr)
  {
    hide Pow2;
    Pow2Values();
    Pow2Add(64 - sr, sr);
    DivBelow(n, Pow2(sr), Pow2(64 - sr));
    MulGrows(quotient, d);
    MulGrows(d, quotient + 1);
    TimesCommutes(quotient, d);
  }

  lemma TopOfQ(a: nat, bits: nat, k: nat)
    requires k < 64 && bits < Pow2(63 - k) && a < Pow2(k + 1)
    ensures var q := a * Pow2(63 - k) + bits;
            && q / 0x8000_0000_0000_0000 == a / Pow2(k)
            && q % 0x8000_0000_0000_0000 == a % Pow2(k) * Pow2(63 - k) + bits
  {
    hide Pow2;
    Pow2Values();
    Pow2Add(k, 63 - k);
    var p, m := Pow2(k), Pow2(63 - k);
    assert a == a / p * p + a % p;
    TimesSum(a / p * p, a % p, m);
    TimesProduct(a / p, p, m);
    var rest := a % p * m + bits;
    TimesSum(p - a % p - 1, 1, m);
    TimesSum(p - a % p, a % p, m);
    MulAtLeast(p - a % p, m);
    assert 0 <= rest < p * m;
    DivUnique(a * m + bits, p * m, a / p, rest);
  }

  /** After the shift of a step, before the conditional subtraction. */
  ghost predicate Shifted(n: U64, d: U64, sr: nat, q2: int, r2: int, bits: nat) {
    && 0 < sr <= 63
    && (d > 0x8000_0000_0000_0000 ==> sr == 1 && n >= 0x8000_0000_0000_0000)
    && n / Pow2(sr - 1) == 2 * bits * d + r2
    && q2 == n % Pow2(sr - 1) * Pow2(65 - sr) + bits
    && bits < Pow2(65 - sr)
  }

  lemma StepValues(n: U64, d: U64, sr: nat, q: U64, r: U64, carry: U32, bits: nat)
    requires Dividing(n, d, sr, q, r, carry, bits) && sr > 0
    ensures r < 0x8000_0000_0000_0000 && carry <= 1
    ensures var r2, q2 := 2 * r + q / 0x8000_0000_0000_0000, 2 * (q % 0x8000_0000_0000_0000) + carry;
            && r2 < 0x1_0000_0000_0000_0000 && r2 < 2 * d
            && (d > 0x8000_0000_0000_0000 ==> r2 >= 0x8000_0000_0000_0000)
            && Shifted(n, d, sr, q2, r2, 2 * bits + carry)
  {
    hide Pow2;
    Pow2Values();
    Pow2Small();
    var k := sr - 1;
    var quotient := 2 * bits + carry;
    NextBit(n, k);
    QuotientSmall(n, d, sr, quotient, r);
    DivUnique(n % Pow2(sr), Pow2(sr), 0, n % Pow2(sr));
    TopOfQ(n % Pow2(sr), bits, k);
    Pow2Add(1, 64 - sr);
    TimesProduct(n % Pow2(k), 2, Pow2(64 - sr));
    TimesProduct(2, quotient, d);
    DivAtMost(n, Pow2(k));
    TimesDouble(n % Pow2(k), Pow2(63 - k), bits, carry);
    QuotientSmall(n, d, k, 2 * quotient, 2 * r + n % Pow2(sr) / Pow2(k));
    if d > 0x8000_0000_0000_0000 {
      DivUnique(n, 1, n, 0);
      WholeDividend(n, d, quotient, r);
    }
  }

  lemma TimesDouble(a: nat, m: nat, bits: nat, carry: nat)
    ensures 2 * (a * m + bits) + carry == a * (2 * m) + (2 * bits + carry)
  {
    TimesProduct(a, 2, m);
    TimesProduct(a, m, 2);
    TimesCommutes(m, 2);
  }

  /** With a divisor above 2^63 the only step sees the whole dividend: its half has quotient zero. */
  lemma WholeDividend(n: U64, d: U64, quotient: nat, r: nat)
    requires d > 0x8000_0000_0000_0000 && n / 2 == quotient * d + r
    ensures quotient == 0 && r == n / 2
  {
    MulAtLeast(quotient, d);
  }

  lemma StepDone(n: U64, d: U64, sr: nat, q2: U64, r2: U64, bits: nat)
    requires Shifted(n, d, sr, q2, r2, bits) && r2 < 2 * d
    ensures Dividing(n, d, sr - 1, q2, if r2 >= d then r2 - d else r2, if r2 >= d then 1 else 0, bits)
  {
    hide Pow2;
    TimesSum(2 * bits, 1, d);
  }

  lemma MinusExact(x: int, y: int)
    requires 0 <= x - y < 0x1_0000_0000_0000_0000
    ensures Minus64(x, y) == x - y
  {
  }

  /** The compare and subtract without a branch. */
  lemma SubtractIf(d: U64, r2: U64)
    requires r2 < 2 * d && (d > 0x8000_0000_0000_0000 ==> r2 >= 0x8000_0000_0000_0000)
    ensures var s := SignMask(Minus64(Minus64(d, r2), 1));
            And64(s, 1) == (if r2 >= d then 1 else 0) && Minus64(r2, And64(d, s)) == if r2 >= d then r2 - d else r2
  {
    hide And64, SignMask, Minus64;
    WrappedTest(d, r2);
    var s := SignMask(Minus64(Minus64(d, r2), 1));
    And64Mask(d, s);
    MaskBit(s);
    MinusExact(r2, And64(d, s));
  }

  /** Both words of r and q one place to the left, the top bit of q into r and the carry into q. */
  method ShiftIn(q: U64, r: U64, carry: U32) returns (r': U64, q': U64)
    requires carry <= 1 && r < 0x8000_0000_0000_0000
    ensures r' == 2 * r + q / 0x8000_0000_0000_0000 && q' == 2 * (q % 0x8000_0000_0000_0000) + carry
  {
    PushWide(r, q, carry);
    hide Push, Wide, High, Low, TopBit;
    r' := Wide(Push(High(r), TopBit(Low(r))), Push(Low(r), TopBit(High(q))));
    q' := Wide(Push(High(q), TopBit(Low(q))), Push(Low(q), carry));
  }

  /** One iteration on the word level: the next bit of the dividend comes in, the divisor is taken away
      if it fits, and the loop's relation goes on holding. */
  method DivStep(n: U64, d: U64, sr: nat, q: U64, r: U64, carry: U32, ghost bits: nat)
    returns (q': U64, r': U64, carry': U32, ghost bits': nat)
    requires Dividing(n, d, sr, q, r, carry, bits) && sr > 0
    ensures var r2 := 2 * r + q / 0x8000_0000_0000_0000;
            if r2 >= d then r' == r2 - d && carry' == 1 else r' == r2 && carry' == 0
    ensures Dividing(n, d, sr - 1, q', r', carry', bits')
  {
    StepValues(n, d, sr, q, r, carry, bits);
    hide *;
    r', q' := ShiftIn(q, r, carry);
    SubtractIf(d, r');
    var s := SignMask(Minus64(Minus64(d, r'), 1));
    carry' := And64(s, 1);
    bits' := 2 * bits + carry;
    StepDone(n, d, sr, q', r', bits');
    r' := Minus64(r', And64(d, s));
  }

  // ---------- powers of two ----------

  lemma {:induction false} AndSelf(n: nat, x: nat)
    requires x < Pow2(n)
    ensures Bitwise(And, n, x, x) == x
  {
    if n > 0 {
      AndSelf(n - 1, x / 2);
    }
  }

  lemma OddParts(x: U32, c: nat, m: nat)
    requires c < 32 && x == (2 * m + 1) * Pow2(c)
    ensures x / Pow2(c) == 2 * m + 1 && x % Pow2(c) == 0
    ensures x > 0 && (x - 1) / Pow2(c) == 2 * m
    ensures m < Pow2(31 - c)
  {
    hide Pow2;
    Pow2Values();
    var p := Pow2(c);
    DivUnique(x, p, 2 * m + 1, 0);
    MulGrows(p, 2 * m + 1);
    TimesCommutes(p, 2 * m + 1);
    TimesSum(2 * m, 1, p);
    DivUnique(x - 1, p, 2 * m, p - 1);
    Pow2Add(32 - c, c);
    DivBelow(x, p, Pow2(32 - c));
    Pow2Add(1, 31 - c);
    Pow2Small();
  }

  /** x & (x - 1) clears the lowest one. */
  lemma ClearLowest(x: U32, c: nat, m: nat)
    requires c < 32 && x == (2 * m + 1) * Pow2(c)
    ensures x > 0 && And32(x, x - 1) == Pow2(c) * (2 * m)
  {
    hide Bitwise, Pow2;
    OddParts(x, c, m);
    var y: U32 := x - 1;
    BitwiseSplit(And, c, 32 - c, x, y);
    LowOfMultiple(And, c, x, y);
    BitwiseZero(And, c, y);
    BitwiseStep(And, 32 - c, 2 * m + 1, 2 * m);
    AndSelf(31 - c, m);
    assert (2 * m + 1) / 2 == m;
  }

  lemma OddPart(x: U32)
    requires x > 0
    ensures var c := TrailingZeros(x);
            c < 32 && x == (2 * (x / Pow2(c) / 2) + 1) * Pow2(c)
  {
    hide Pow2;
    var c := TrailingZeros(x);
    TrailingZerosMeaning(x);
    assert x == x / Pow2(c) * Pow2(c);
    if c >= 32 {
      Pow2Values();
      Pow2Monotone(32, c);
      DivUnique(x, Pow2(c), 0, x);
    }
  }

  /** The test for a power of two. */
  lemma PowerTest(x: U32)
    requires x > 0
    ensures And32(x, x - 1) == 0 <==> x == Pow2(TrailingZeros(x))
    ensures TrailingZeros(x) < 32
    ensures And32(x, x - 1) != 0 ==> BitLength(x) >= 2
  {
    hide Bitwise, Pow2, And32;
    var c := TrailingZeros(x);
    OddPart(x);
    var m := x / Pow2(c) / 2;
    ClearLowest(x, c, m);
    if m > 0 {
      MulGrows(Pow2(c), 2 * m);
      MulGrows(2 * m, Pow2(c));
      TimesCommutes(2 * m, Pow2(c));
      TimesSum(2 * m, 1, Pow2(c));
    }
    if BitLength(x) < 2 {
      BitLengthBounds(x);
      Pow2Small();
      assert x == 1;
      assert TrailingZeros(1) == 0;
    }
  }

  // ---------- how far to shift ----------

  /** Aligning the highest ones leaves a remainder below the divisor. */
  lemma Aligned(n: nat, d: nat, a: nat, sr: nat)
    requires n < Pow2(a + sr) && Pow2(a) <= d
    ensures n / Pow2(sr) < d
  {
    hide Pow2;
    Pow2Add(a, sr);
    DivBelow(n, Pow2(sr), Pow2(a));
  }

  lemma WideLength(high: U32, low: U32)
    requires high > 0
    ensures 1 <= BitLength(high) <= 32
    ensures Pow2(31 + BitLength(high)) <= Wide(high, low) < Pow2(32 + BitLength(high))
  {
    hide Pow2;
    Pow2Values();
    BitLengthBounds(high);
    BitLengthAtMost(high, 32);
    Pow2Add(BitLength(high) - 1, 32);
    Pow2Add(BitLength(high), 32);
  }

  lemma ShorterIsLess(n: U64, d: U64)
    requires High(n) > 0 && High(d) > 0 && BitLength(High(n)) < BitLength(High(d))
    ensures n < d
  {
    hide Pow2, BitLength;
    WideLength(High(n), Low(n));
    WideLength(High(d), Low(d));
    Pow2Monotone(32 + BitLength(High(n)), 31 + BitLength(High(d)));
  }

  lemma AlignHigh(n: U64, d: U64, sr: nat)
    requires High(n) > 0 && High(d) > 0 && sr == BitLength(High(n)) - BitLength(High(d)) + 1
    ensures n / Pow2(sr) < d
    ensures d > 0x8000_0000_0000_0000 && sr >= 1 ==> sr == 1 && n >= 0x8000_0000_0000_0000
  {
    hide Pow2;
    Pow2Values();
    WideLength(High(n), Low(n));
    WideLength(High(d), Low(d));
    Aligned(n, d, 31 + BitLength(High(d)), sr);
    if d > 0x8000_0000_0000_0000 && BitLength(High(d)) < 32 {
      Pow2Monotone(32 + BitLength(High(d)), 63);
    }
  }

  lemma AlignLow(n: U64, d: U32, sr: nat)
    requires High(n) > 0 && d > 0 && BitLength(d) >= 2 && sr == 33 + BitLength(High(n)) - BitLength(d)
    ensures 2 <= sr <= 63 && n / Pow2(sr) < d
  {
    hide Pow2;
    Pow2Values();
    WideLength(High(n), Low(n));
    BitLengthBounds(d);
    BitLengthAtMost(d, 32);
    Aligned(n, d, BitLength(d) - 1, sr);
  }

  // ---------- unsigned division ----------

  /** The shift-subtract loop. */
  method DivLoop(n: U64, d: U64, sr0: nat, q0: U64, r0: U64) returns (quotient: U64, rem: U64)
    requires 1 <= sr0 <= 63 && d > 0 && Started(n, sr0, q0, r0) && r0 < d
    requires d > 0x8000_0000_0000_0000 ==> sr0 == 1 && n >= 0x8000_0000_0000_0000
    ensures n == quotient * d + rem && rem < d
  {
    var sr, q, r, carry: U32 := sr0, q0, r0, 0;
    ghost var bits := 0;
    while sr > 0
      invariant 0 <= sr <= sr0
      invariant Dividing(n, d, sr, q, r, carry, bits)
    {
      q, r, carry, bits := DivStep(n, d, sr, q, r, carry, bits);
      sr := sr - 1;
    }
    LoopEnd(n, d, q, r, carry, bits);
    quotient := PushWhole(q, carry);
    rem := r;
  }

  /** (q << 1) | carry on 64 bits */
  function PushWhole(q: U64, carry: U32): U64 {
    Pow2Values();
    Bitwise(Or, 64, Wrap64(q * 2), carry)
  }

  lemma LoopEnd(n: U64, d: U64, q: U64, r: U64, carry: U32, bits: nat)
    requires d > 0 && Dividing(n, d, 0, q, r, carry, bits)
    ensures n == PushWhole(q, carry) * d + r && r < d
  {
    hide Bitwise, Pow2;
    Pow2Values();
    Pow2Small();
    DivUnique(n, 1, n, 0);
    QuotientSmall(n, d, 0, 2 * bits + carry, r);
    assert q == bits;
    assert Wrap64(q * 2) == 2 * bits;
    OrDisjoint(64, 1, 2 * bits, carry);
  }

  /** The quotient and the remainder of n by d. */
  ghost predicate IsDivision(n: int, d: int, quotient: int, rem: int) {
    n == quotient * d + rem && 0 <= rem < d
  }

  /** A dividend and a divisor that are both multiples of 2^32 up to the low dividend word. */
  lemma ScaledDivision(high: U32, low: U32, dh: U32)
    requires dh > 0
    ensures high / dh <= high && IsDivision(Wide(high, low), Wide(dh, 0), high / dh, Wide(high % dh, low))
  {
    var q := high / dh;
    assert high == q * dh + high % dh;
    TimesProduct(q, dh, 0x1_0000_0000);
    DivAtMost(high, dh);
  }

  method DivByHighWord(n: U64, dh: U32) returns (quotient: U64, rem: U64)
    requires High(n) != 0 && dh != 0
    ensures IsDivision(n, Wide(dh, 0), quotient, rem)
  {
    hide Bitwise, Pow2, And32, BitLength, TrailingZeros, IsDivision, Wide, Shr32;
    var nh, nl := High(n), Low(n);
    WordsOf(n);
    ScaledDivision(nh, nl, dh);
    if nl == 0 {
      return nh / dh, Wide(nh % dh, 0);
    }
    if And32(dh, dh - 1) == 0 {
      var c := CtzSi2(dh);
      PowerQuotientAndRest(nh, dh);
      return Shr32(nh, c), Wide(And32(nh, dh - 1), nl);
    }
    quotient, rem := DivByHighWordLong(n, dh);
  }

  lemma WordsOf(n: U64)
    ensures Wide(High(n), Low(n)) == n
  {
  }

  lemma PowerQuotientAndRest(x: U32, d: U32)
    requires d > 0 && And32(d, d - 1) == 0
    ensures Shr32(x, TrailingZeros(d)) == x / d && And32(x, d - 1) == x % d
  {
    hide Bitwise, And32, TrailingZeros;
    PowerTest(d);
    hide Pow2;
    AndPower(x, TrailingZeros(d));
  }

  /** The case that needs the loop. */
  method DivByHighWordLong(n: U64, dh: U32) returns (quotient: U64, rem: U64)
    requires High(n) != 0 && dh != 0 && And32(dh, dh - 1) != 0
    ensures IsDivision(n, Wide(dh, 0), quotient, rem)
  {
    hide Bitwise, Pow2, And32, BitLength, TrailingZeros;
    var nh, nl := High(n), Low(n);
    var d := Wide(dh, 0);
    assert High(d) == dh && Low(d) == 0;
    PowerTest(dh);
    var cd := ClzSi2(dh);
    var cn := ClzSi2(nh);
    WideLength(nh, nl);
    WideLength(dh, 0);
    var sr := Minus32(cd, cn);
    if sr > 30 {
      ShorterIsLess(n, d);
      return 0, n;
    }
    sr := sr + 1;
    AlignHigh(n, d, sr);
    StartShort(nh, nl, sr);
    quotient, rem := DivLoop(n, d, sr, Wide(Shl32(nl, 32 - sr), 0),
                             Wide(Shr32(nh, sr), Or32(Shl32(nh, 32 - sr), Shr32(nl, sr))));
  }

  lemma AndPower(x: U32, c: nat)
    requires c < 32
    ensures 0 < Pow2(c) < 0x1_0000_0000 && And32(x, Pow2(c) - 1) == x % Pow2(c)
  {
    hide Bitwise, Pow2;
    Pow2Values();
    Pow2Monotone(c, 32);
    AndLowMask(32, c, x);
  }

  lemma LowPower(n: U64, dl: U32)
    requires dl != 0 && And32(dl, dl - 1) == 0
    ensures dl == Pow2(TrailingZeros(dl)) && TrailingZeros(dl) < 32 && (dl != 1 ==> TrailingZeros(dl) >= 1)
    ensures And32(Low(n), dl - 1) == n % dl
  {
    hide Bitwise, And32, TrailingZeros;
    PowerTest(dl);
    hide Pow2;
    var c := TrailingZeros(dl);
    AndPower(Low(n), c);
    SplitLow(High(n), Low(n), c);
    Pow2Small();
  }

  lemma HighBits(n: U64, sr: nat)
    requires 1 <= sr <= 31
    ensures Wide(Shr32(High(n), sr), Or32(Shl32(High(n), 32 - sr), Shr32(Low(n), sr))) == n / Pow2(sr)
  {
    hide Or32, Shl32, Shr32, Pow2;
    ShiftRightWide(High(n), Low(n), sr);
  }

  method DivByLowPower(n: U64, dl: U32) returns (quotient: U64, rem: U64)
    requires High(n) != 0 && dl != 0 && And32(dl, dl - 1) == 0
    ensures IsDivision(n, dl, quotient, rem)
  {
    hide Bitwise, Pow2, And32, TrailingZeros, Shl32, Or32, Shr32, High, Low, Wide;
    LowPower(n, dl);
    DivMod(n, dl);
    rem := And32(Low(n), dl - 1);
    if dl == 1 {
      return n, rem;
    }
    var sr := CtzSi2(dl);
    HighBits(n, sr);
    quotient := Wide(Shr32(High(n), sr), Or32(Shl32(High(n), 32 - sr), Shr32(Low(n), sr)));
  }

  method DivByLowWord(n: U64, dl: U32) returns (quotient: U64, rem: U64)
    requires High(n) != 0 && dl != 0
    ensures IsDivision(n, dl, quotient, rem)
  {
    hide Bitwise, Pow2, And32, BitLength, TrailingZeros, Shl32, Or32, Shr32;
    if And32(dl, dl - 1) == 0 {
      quotient, rem := DivByLowPower(n, dl);
      return;
    }
    PowerTest(dl);
    var nh, nl := High(n), Low(n);
    var cd := ClzSi2(dl);
    var cn := ClzSi2(nh);
    WideLength(nh, nl);
    var sr := 1 + 32 + cd - cn;
    AlignLow(n, dl, sr);
    if sr == 32 {
      StartWord(nh, nl);
      quotient, rem := DivLoop(n, dl, 32, Wide(nl, 0), Wide(0, nh));
    } else if sr < 32 {
      StartShort(nh, nl, sr);
      quotient, rem := DivLoop(n, dl, sr, Wide(Shl32(nl, 32 - sr), 0),
                               Wide(Shr32(nh, sr), Or32(Shl32(nh, 32 - sr), Shr32(nl, sr))));
    } else {
      StartLong(nh, nl, sr);
      quotient, rem := DivLoop(n, dl, sr, Wide(Or32(Shl32(nh, 64 - sr), Shr32(nl, sr - 32)), Shl32(nl, 64 - sr)),
                               Wide(0, Shr32(nh, sr - 32)));
    }
  }

  method DivByBothWords(n: U64, d: U64) returns (quotient: U64, rem: U64)
    requires High(n) != 0 && High(d) != 0
    ensures IsDivision(n, d, quotient, rem)
  {
    hide Bitwise, Pow2, And32, BitLength, TrailingZeros;
    var nh, nl := High(n), Low(n);
    var cd := ClzSi2(High(d));
    var cn := ClzSi2(nh);
    WideLength(nh, nl);
    WideLength(High(d), Low(d));
    var sr := Minus32(cd, cn);
    if sr > 31 {
      ShorterIsLess(n, d);
      return 0, n;
    }
    sr := sr + 1;
    AlignHigh(n, d, sr);
    if sr == 32 {
      StartWord(nh, nl);
      quotient, rem := DivLoop(n, d, 32, Wide(nl, 0), Wide(0, nh));
    } else {
      StartShort(nh, nl, sr);
      quotient, rem := DivLoop(n, d, sr, Wide(Shl32(nl, 32 - sr), 0),
                               Wide(Shr32(nh, sr), Or32(Shl32(nh, 32 - sr), Shr32(nl, sr))));
    }
  }

  lemma Halves(x: U64)
    ensures High(x) == 0 ==> x == Low(x)
    ensures Low(x) == 0 ==> x == Wide(High(x), 0)
    ensures High(x) != 0 ==> x >= 0x1_0000_0000
  {
  }

  method DivLowWords(n: U32, d: U32) returns (quotient: U64, rem: U64)
    requires d != 0
    ensures IsDivision(n, d, quotient, rem)
  {
    DivMod(n, d);
    return n / d, n % d;
  }

  lemma DivMod(x: nat, y: nat)
    requires y > 0
    ensures IsDivision(x, y, x / y, x % y) && x / y <= x
  {
    DivAtMost(x, y);
  }

  lemma ShorterDivision(x: nat, y: nat)
    requires x < y
    ensures IsDivision(x, y, 0, x)
  {
  }

  /** __udivmoddi4: the quotient and the remainder, for every dividend and every nonzero divisor. */
  method UDivMod(n: U64, d: U64) returns (quotient: U64, rem: U64)
    requires d != 0
    ensures IsDivision(n, d, quotient, rem)
  {
    hide *;
    Halves(n);
    Halves(d);
    if High(n) == 0 {
      if High(d) == 0 {
        quotient, rem := DivLowWords(Low(n), Low(d));
      } else {
        ShorterDivision(n, d);
        quotient, rem := 0, Low(n);
      }
    } else if Low(d) == 0 {
      quotient, rem := DivByHighWord(n, High(d));
    } else if High(d) == 0 {
      quotient, rem := DivByLowWord(n, Low(d));
    } else {
      quotient, rem := DivByBothWords(n, d);
    }
  }

  // ---------- signed division ----------

  /** The bit pattern of a signed value, and the signed value of a bit pattern. */
  function Pattern(x: int): U64 { Wrap64(x) }

  function ToSigned(u: U64): S64 {
    if u < 0x8000_0000_0000_0000 then u else u - 0x1_0000_0000_0000_0000
  }

  function Xor64(x: U64, y: U64): U64 {
    Pow2Values();
    Bitwise(Xor, 64, x, y)
  }

  /** (x ^ s) - s */
  function NegateIf(x: U64, s: U64): U64 {
    Minus64(Xor64(x, s), s)
  }

  lemma NegateIfValue(x: U64, s: U64)
    requires s == 0 || s == 0xFFFF_FFFF_FFFF_FFFF
    ensures NegateIf(x, s) == if s == 0 then x else Minus64(0, x)
  {
    hide Bitwise, Pow2;
    Pow2Values();
    BitwiseZero(Xor, 64, x);
    BitwiseOnes(Xor, 64, x);
    DivUnique(x, 0x1_0000_0000_0000_0000, 0, x);
  }

  function Abs(x: int): nat { if x < 0 then -x else x }

  /** Quotient rounded toward zero, and the remainder that goes with it. */
  function TruncDiv(a: int, b: int): int
    requires b != 0
  {
    if (a < 0) == (b < 0) then Abs(a) / Abs(b) else -(Abs(a) / Abs(b))
  }

  function TruncMod(a: int, b: int): int
    requires b != 0
  {
    if a < 0 then -(Abs(a) % Abs(b)) else Abs(a) % Abs(b)
  }

  /** What truncating division means. */
  lemma TruncMeaning(a: int, b: int)
    requires b != 0
    ensures a == TruncDiv(a, b) * b + TruncMod(a, b)
    ensures Abs(TruncMod(a, b)) < Abs(b)
    ensures TruncMod(a, b) != 0 ==> (TruncMod(a, b) < 0 <==> a < 0)
  {
    var x: int, y: int := Abs(a), Abs(b);
    var q, r := x / y, x % y;
    assert x == q * y + r;
    TimesNegated(q, y);
    hide Abs;
    SignedCases(a, b, x, y);
  }

  lemma SignedCases(a: int, b: int, x: int, y: int)
    requires x == Abs(a) && y == Abs(b)
    ensures a == (if a < 0 then -x else x) && b == if b < 0 then -y else y
    ensures forall r: int :: Abs(-r) == Abs(r) && (r >= 0 ==> Abs(r) == r)
  {
  }

  lemma TimesNegated(x: int, y: int)
    ensures -x * y == -(x * y) && x * -y == -(x * y) && -x * -y == x * y
  {
  }

  lemma AbsPattern(a: S64)
    ensures SignMask(Pattern(a)) == if a < 0 then 0xFFFF_FFFF_FFFF_FFFF else 0
    ensures NegateIf(Pattern(a), SignMask(Pattern(a))) == Abs(a)
  {
    hide Xor64, NegateIf;
    var u := Pattern(a);
    NegateIfValue(u, SignMask(u));
    if a < 0 {
      assert u == a + 0x1_0000_0000_0000_0000;
      assert Minus64(0, u) + a == 0;
    } else {
      assert u == a;
    }
  }

  lemma SignsDiffer(s: U64, t: U64)
    requires (s == 0 || s == 0xFFFF_FFFF_FFFF_FFFF) && (t == 0 || t == 0xFFFF_FFFF_FFFF_FFFF)
    ensures Xor64(s, t) == if s == t then 0 else 0xFFFF_FFFF_FFFF_FFFF
  {
    hide Bitwise, Pow2;
    Pow2Values();
    BitwiseZero(Xor, 64, s);
    BitwiseOnes(Xor, 64, s);
    DivUnique(s, 0x1_0000_0000_0000_0000, 0, s);
  }

  lemma QuotientUnique(n: nat, d: nat, q: nat, r: nat)
    requires d > 0 && n == q * d + r && r < d
    ensures q == n / d && r == n % d
  {
    DivUnique(n, d, q, r);
  }

  /** __divdi3: the truncated quotient, wrapped to 64 bits. */
  method DivDi3(a: S64, b: S64) returns (quotient: S64)
    requires b != 0
    ensures quotient == ToSigned(Pattern(TruncDiv(a, b)))
  {
    hide Xor64, SignMask, NegateIf;
    AbsPattern(a);
    AbsPattern(b);
    var sa := SignMask(Pattern(a));
    var sb := SignMask(Pattern(b));
    var ua := NegateIf(Pattern(a), sa);
    var ub := NegateIf(Pattern(b), sb);
    SignsDiffer(sa, sb);
    sa := Xor64(sa, sb);
    var q, r := UDivMod(ua, ub);
    QuotientUnique(ua, ub, q, r);
    NegateIfValue(q, sa);
    quotient := ToSigned(NegateIf(q, sa));
    PatternOf(q);
  }

  lemma PatternOf(q: U64)
    ensures Pattern(q) == q
  {
  }

  /** __moddi3: the remainder of truncating division, for every pair. */
  method ModDi3(a: S64, b: S64) returns (rem: S64)
    requires b != 0
    ensures rem == TruncMod(a, b)
  {
    hide Xor64, SignMask, NegateIf;
    AbsPattern(a);
    AbsPattern(b);
    var ub := NegateIf(Pattern(b), SignMask(Pattern(b)));
    var s := SignMask(Pattern(a));
    var ua := NegateIf(Pattern(a), s);
    var q, r := UDivMod(ua, ub);
    QuotientUnique(ua, ub, q, r);
    NegateIfValue(r, s);
    rem := ToSigned(NegateIf(r, s));
    RemainderSigned(r, s);
  }

  lemma RemainderSigned(r: U64, s: U64)
    requires r < 0x8000_0000_0000_0000
    ensures ToSigned(r) == r && ToSigned(Minus64(0, r)) + r == 0
  {
    if r == 0 {
    } else {
      assert Minus64(0, r) == 0x1_0000_0000_0000_0000 - r;
    }
  }

  /** __divmoddi4: quotient as above, remainder as the wrapped difference a - d * b. */
  method DivModDi4(a: S64, b: S64) returns (quotient: S64, rem: S64)
    requires b != 0
    ensures quotient == ToSigned(Pattern(TruncDiv(a, b)))
    ensures rem == TruncMod(a, b)
  {
    hide Pattern, ToSigned, TruncDiv, TruncMod;
    quotient := DivDi3(a, b);
    rem := ToSigned(Pattern(a - quotient * b));
    WrappedRemainder(a, b, quotient);
  }

  lemma SignedPattern(x: S64)
    ensures ToSigned(Pattern(x)) == x
  {
  }

  lemma WrappedRemainder(a: S64, b: S64, quotient: S64)
    requires b != 0 && quotient == ToSigned(Pattern(TruncDiv(a, b)))
    ensures ToSigned(Pattern(a - quotient * b)) == TruncMod(a, b)
  {
    hide TruncDiv, TruncMod;
    TruncMeaning(a, b);
    DivideExactIff(a, b);
    if a == -0x8000_0000_0000_0000 && b == -1 {
      OverflowQuotient();
    } else {
      assert a - quotient * b == TruncMod(a, b);
      SignedPattern(TruncMod(a, b));
    }
  }

  lemma OverflowQuotient()
    ensures TruncDiv(-0x8000_0000_0000_0000, -1) == 0x8000_0000_0000_0000
    ensures TruncMod(-0x8000_0000_0000_0000, -1) == 0
    ensures ToSigned(Pattern(0x8000_0000_0000_0000)) == -0x8000_0000_0000_0000
    ensures ToSigned(Pattern(-0x8000_0000_0000_0000 - -0x8000_0000_0000_0000 * -1)) == 0
  {
  }

  /** The wrapped quotient is the truncated quotient for every pair but the overflowing one. */
  lemma DivideExactIff(a: S64, b: S64)
    requires b != 0
    ensures ToSigned(Pattern(TruncDiv(a, b))) == TruncDiv(a, b)
        <==> !(a == -0x8000_0000_0000_0000 && b == -1)
  {
    var x, y := Abs(a), Abs(b);
    DivAtMost(x, y);
    if x / y <= 0x7FFF_FFFF_FFFF_FFFF || (a < 0) != (b < 0) {
      hide Pattern, ToSigned;
      SignedPattern(TruncDiv(a, b));
    } else {
      HalfOrLess(x, y);
    }
    if a == -0x8000_0000_0000_0000 && b == -1 {
      OverflowQuotient();
    }
  }

  lemma HalfOrLess(x: nat, y: int)
    requires y > 0
    ensures y >= 2 ==> x / y <= x / 2
  {
    if y >= 2 {
      HalfOf(x, y);
    }
  }

  lemma HalfOf(x: nat, y: int)
    requires y >= 2
    ensures x / y <= x / 2
  {
    assert x == x / y * y + x % y;
    TimesSum(y - 2, 2, x / y);
    TimesCommutes(x / y, y);
    DivMonotone(0, x, y);
    MulGrows(x / y, y);
    if y > 2 {
      MulGrows(x / y, y - 2);
      TimesCommutes(y - 2, x / y);
    }
  }

  // ---------- counting bits of a 64-bit value ----------

  /** __clzdi2: picks the word that holds the highest one without branching. */
  method ClzDi2(a: U64) returns (count: nat)
    requires a != 0
    ensures count == 64 - BitLength(a)
  {
    hide Bitwise, Pow2, And32, Or32, BitLength;
    var f := Wrap32(-Flag(High(a) == 0));
    AndMasks(High(a));
    AndMasks(Low(a));
    OrZeros(High(a));
    OrZeros(Low(a));
    AndMasks(32);
    AndThirtyTwo();
    LengthByWords(a);
    var c := ClzSi2(Or32(And32(High(a), 0xFFFF_FFFF - f), And32(Low(a), f)));
    count := c + And32(f, 32);
  }

  lemma OrZeros(x: U32)
    ensures Or32(x, 0) == x && Or32(0, x) == x
  {
    hide Bitwise, Pow2;
    Pow2Values();
    BitwiseSymmetric(Or, 32, x, 0);
    OrZero(32, x);
  }

  lemma AndThirtyTwo()
    ensures And32(0xFFFF_FFFF, 32) == 32 && And32(0, 32) == 0
  {
    hide Bitwise, Pow2;
    Pow2Values();
    BitwiseSymmetric(And, 32, 0xFFFF_FFFF, 32);
    BitwiseSymmetric(And, 32, 0, 32);
    AndMasks(32);
  }

  lemma LengthByWords(a: U64)
    requires a > 0
    ensures High(a) == 0 ==> a == Low(a) && Low(a) > 0
    ensures High(a) > 0 ==> BitLength(a) == 32 + BitLength(High(a))
  {
    hide Pow2, BitLength;
    Pow2Values();
    if High(a) > 0 {
      BitLengthShift(a, 32);
    }
  }

  /** __ctzdi2 */
  method CtzDi2(a: U64) returns (count: nat)
    requires a != 0
    ensures count == TrailingZeros(a)
  {
    hide Bitwise, Pow2, And32, Or32, TrailingZeros;
    var f := Wrap32(-Flag(Low(a) == 0));
    AndMasks(High(a));
    AndMasks(Low(a));
    OrZeros(High(a));
    OrZeros(Low(a));
    AndThirtyTwo();
    TrailingByWords(a);
    var c := CtzSi2(Or32(And32(High(a), f), And32(Low(a), 0xFFFF_FFFF - f)));
    count := c + And32(f, 32);
  }

  lemma {:induction false} TrailingOfLow(x: nat, n: nat)
    requires x % Pow2(n) != 0
    ensures x > 0 && TrailingZeros(x) == TrailingZeros(x % Pow2(n))
  {
    hide Pow2;
    Pow2Small();
    if n > 0 {
      HalfMod(x, n);
      var low, half := x % Pow2(n), x / 2 % Pow2(n - 1);
      assert low % 2 == x % 2 && low / 2 == half;
      if x % 2 == 0 {
        TrailingOfLow(x / 2, n - 1);
      }
    }
  }

  lemma TrailingByWords(a: U64)
    requires a > 0
    ensures Low(a) > 0 ==> TrailingZeros(a) == TrailingZeros(Low(a))
    ensures Low(a) == 0 ==> High(a) > 0 && TrailingZeros(a) == 32 + TrailingZeros(High(a))
  {
    hide Pow2, TrailingZeros;
    Pow2Values();
    if Low(a) > 0 {
      TrailingOfLow(a, 32);
    } else {
      TrailingZerosShift(a, 32);
    }
  }
}
