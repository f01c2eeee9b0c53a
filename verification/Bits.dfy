/** Fixed-width arithmetic on mathematical integers: powers of two, exact division
    facts, and the bitwise operators defined bit by bit. */
module Bits {

  // ---------- division ----------

  lemma MulAtLeast(k: int, d: int)
    requires d > 0
    ensures k >= 1 ==> k * d >= d
    ensures k <= -1 ==> k * d <= -d
  {
  }

  lemma MulGrows(k: int, d: int)
    requires d > 0
    ensures k >= 0 ==> k * d >= k
  {
  }

  /** Quotient and remainder are determined by the usual equation. */
  lemma DivUnique(x: int, d: int, q: int, r: int)
    requires 0 <= r < d && x == q * d + r
    ensures x / d == q && x % d == r
  {
    var k := x / d - q;
    assert k * d == (x / d) * d - q * d;
    assert x == (x / d) * d + x % d;
    MulAtLeast(k, d);
  }

  lemma Regroup(a: int, b: int, u: int, v: int, m: int)
    requires a > 0 && 0 <= v < b && 0 <= m < a
    ensures (u * b + v) * a + m == u * (a * b) + (v * a + m)
    ensures 0 <= v * a + m < a * b
  {
    assert (u * b + v) * a == u * b * a + v * a;
    assert u * b * a == u * (a * b);
    assert (b - 1 - v) * a >= 0;
    assert (b - 1 - v) * a == a * b - a - v * a;
  }

  lemma DivDiv(x: int, a: int, b: int)
    requires a > 0 && b > 0
    ensures a * b > 0
    ensures x / a / b == x / (a * b)
  {
    var q, m := x / a, x % a;
    var u, v := q / b, q % b;
    Regroup(a, b, u, v, m);
    DivUnique(x, a * b, u, v * a + m);
  }

  /** A multiple of the divisor passes through division and remainder. */
  lemma DivAddMultiple(x: int, d: int, k: int)
    requires d > 0
    ensures (x + k * d) / d == x / d + k
    ensures (x + k * d) % d == x % d
  {
    assert (x / d + k) * d == (x / d) * d + k * d;
    DivUnique(x + k * d, d, x / d + k, x % d);
  }

  lemma DivMonotone(x: int, y: int, d: int)
    requires d > 0 && x <= y
    ensures x / d <= y / d
  {
    var k := y / d - x / d;
    assert k * d == (y / d) * d - (x / d) * d;
    assert x == (x / d) * d + x % d && y == (y / d) * d + y % d;
    MulAtLeast(k, d);
  }

  lemma DivAtMost(x: int, d: int)
    requires x >= 0 && d > 0
    ensures 0 <= x / d <= x
  {
    assert x == (x / d) * d + x % d;
    MulAtLeast(x / d, d);
    MulGrows(x / d, d);
  }

  /** x below n * d has its quotient below n. */
  lemma DivBelow(x: int, d: int, n: int)
    requires d > 0 && 0 <= x < n * d
    ensures 0 <= x / d < n
  {
    assert n * d / d == n by {
      DivAddMultiple(0, d, n);
    }
    DivMonotone(0, x, d);
    assert (n - x / d) * d == n * d - (x / d) * d;
    assert x == (x / d) * d + x % d;
    MulAtLeast(n - x / d, d);
  }

  lemma NotNegative(x: nat, y: nat)
    ensures x * y >= 0
  {
  }

  /** Quotient and remainder of the next number, and of a number below the divisor. */
  lemma NextDivMod(x: nat, m: nat)
    requires m > 0
    ensures (x + 1) / m == x / m + (if x % m == m - 1 then 1 else 0)
    ensures (x + 1) % m == if x % m == m - 1 then 0 else x % m + 1
  {
    var q, r := x / m, x % m;
    assert x == q * m + r;
    if r == m - 1 {
      TimesSum(q, 1, m);
      DivUnique(x + 1, m, q + 1, 0);
    } else {
      DivUnique(x + 1, m, q, r + 1);
    }
  }

  lemma SmallDivMod(x: nat, m: nat)
    requires x < m
    ensures x / m == 0 && x % m == x
  {
    DivUnique(x, m, 0, x);
  }

  lemma TimesProduct(x: int, y: int, z: int)
    ensures x * y * z == x * (y * z)
  {
  }

  lemma TimesCommutes(x: int, y: int)
    ensures x * y == y * x
  {
  }

  lemma TimesSum(x: int, y: int, z: int)
    ensures (x + y) * z == x * z + y * z
  {
  }

  /** Multiplying by p modulo p * q only keeps the low part of x. */
  lemma MulMod(x: int, p: int, q: int)
    requires p > 0 && q > 0
    ensures p * q > 0 && x * p % (p * q) == x % q * p
  {
    var a, low := x / q, x % q;
    assert x == a * q + low;
    TimesSum(a * q, low, p);
    TimesProduct(a, q, p);
    TimesCommutes(p, q);
    MulGrows(p, q);
    MulBelow(low, q, p);
    DivUnique(x * p, p * q, a, low * p);
  }

  lemma MulBelow(x: int, y: int, p: int)
    requires 0 <= x < y && p > 0
    ensures 0 <= x * p < y * p
  {
    TimesSum(x, y - x, p);
    MulGrows(y - x, p);
    MulGrows(x, p);
  }

  // ---------- powers of two ----------

  function Pow2(n: nat): (p: nat)
    ensures p >= 1
  {
    if n == 0 then 1 else 2 * Pow2(n - 1)
  }

  lemma {:induction false} Pow2Add(a: nat, b: nat)
    ensures Pow2(a + b) == Pow2(a) * Pow2(b)
  {
    if a == 0 {
    } else {
      Pow2Add(a - 1, b);
      assert Pow2(a) * Pow2(b) == 2 * (Pow2(a - 1) * Pow2(b));
    }
  }

  lemma {:induction false} Pow2Monotone(a: nat, b: nat)
    requires a <= b
    ensures Pow2(a) <= Pow2(b)
    ensures a < b ==> 2 * Pow2(a) <= Pow2(b)
    decreases b
  {
    if a < b {
      Pow2Monotone(a, b - 1);
    }
  }

  lemma Pow2Small()
    ensures Pow2(0) == 1 && Pow2(1) == 2 && Pow2(2) == 4
  {
  }

  lemma Pow2Values()
    ensures Pow2(5) == 32 && Pow2(8) == 0x100 && Pow2(16) == 0x1_0000 && Pow2(24) == 0x100_0000
    ensures Pow2(31) == 0x8000_0000 && Pow2(32) == 0x1_0000_0000
    ensures Pow2(63) == 0x8000_0000_0000_0000 && Pow2(64) == 0x1_0000_0000_0000_0000
  {
    hide Pow2;
    Pow2Small();
    Pow2Add(2, 2);
    Pow2Add(1, 4);
    Pow2Add(4, 4);
    Pow2Add(8, 8);
    Pow2Add(16, 8);
    Pow2Add(16, 16);
    Pow2Add(1, 31);
    Pow2Add(32, 32);
    Pow2Add(1, 63);
  }

  /** Dividing a sum whose first part is a multiple of p and whose second part is below p,
      by a divisor q that divides p ... */
  lemma DivFiner(a: int, b: int, p: int, q: int, m: int)
    requires p > 0 && q > 0 && m > 0 && a % p == 0 && 0 <= b < p && p == m * q
    ensures (a + b) / q == a / q + b / q
  {
    var c := a / p;
    assert a == c * p;
    TimesProduct(c, m, q);
    DivAddMultiple(b, q, c * m);
    DivAddMultiple(0, q, c * m);
    DivUnique(0, q, 0, 0);
  }

  /** ... or that p divides. */
  lemma DivCoarser(a: int, b: int, p: int, q: int, m: int)
    requires p > 0 && q > 0 && m > 0 && a % p == 0 && 0 <= b < p && q == p * m
    ensures (a + b) / q == a / q + b / q
  {
    var c := a / p;
    assert a == c * p;
    DivDiv(a + b, p, m);
    DivDiv(a, p, m);
    DivDiv(b, p, m);
    DivAddMultiple(b, p, c);
    DivUnique(b, p, 0, b);
    DivUnique(0, m, 0, 0);
  }

  /** Adding below the lowest set bit commutes with a right shift: the bits do not meet. */
  lemma ShiftDisjoint(a: int, b: int, k: nat, s: nat)
    requires a % Pow2(k) == 0 && 0 <= b < Pow2(k)
    ensures (a + b) / Pow2(s) == a / Pow2(s) + b / Pow2(s)
  {
    hide Pow2;
    if s <= k {
      Pow2Add(k - s, s);
      DivFiner(a, b, Pow2(k), Pow2(s), Pow2(k - s));
    } else {
      Pow2Add(k, s - k);
      DivCoarser(a, b, Pow2(k), Pow2(s), Pow2(s - k));
    }
  }

  lemma ModOfDiv(a: int, b: int, q: int)
    requires q > 0 && (a + b) / q == a / q + b / q
    ensures (a + b) % q == a % q + b % q
    ensures a % q + b % q < q
  {
    assert (a / q + b / q) * q == a / q * q + b / q * q;
    assert a == a / q * q + a % q;
    assert b == b / q * q + b % q;
    assert a + b == (a + b) / q * q + (a + b) % q;
  }

  /** A multiple of 2^k and a number below 2^k have no bit in common, so no field boundary sees a carry. */
  lemma ModDisjoint(a: int, b: int, k: nat, s: nat)
    requires a % Pow2(k) == 0 && 0 <= b < Pow2(k)
    ensures (a + b) % Pow2(s) == a % Pow2(s) + b % Pow2(s)
    ensures a % Pow2(s) + b % Pow2(s) < Pow2(s)
  {
    ShiftDisjoint(a, b, k, s);
    ModOfDiv(a, b, Pow2(s));
  }

  // ---------- bitwise operators ----------

  datatype BitOp = And | Or | Xor

  function OnBit(op: BitOp, x: int, y: int): (r: nat)
    ensures r <= 1
  {
    match op
    case And => if x % 2 == 1 && y % 2 == 1 then 1 else 0
    case Or => if x % 2 == 1 || y % 2 == 1 then 1 else 0
    case Xor => if x % 2 != y % 2 then 1 else 0
  }

  /** op applied to the low n bits of x and y. */
  function Bitwise(op: BitOp, n: nat, x: int, y: int): (r: nat)
    ensures r < Pow2(n)
  {
    if n == 0 then 0 else OnBit(op, x, y) + 2 * Bitwise(op, n - 1, x / 2, y / 2)
  }

  lemma TwiceTimes(p: int, h: int)
    ensures 2 * p * h == 2 * (p * h)
  {
  }

  lemma BitwiseStep(op: BitOp, n: nat, x: int, y: int)
    requires n > 0
    ensures Bitwise(op, n, x, y) == OnBit(op, x, y) + 2 * Bitwise(op, n - 1, x / 2, y / 2)
    ensures Pow2(n) == 2 * Pow2(n - 1)
  {
  }

  lemma BitwiseNone(op: BitOp, x: int, y: int)
    ensures Bitwise(op, 0, x, y) == 0 && Pow2(0) == 1
  {
  }

  /** A bitwise operation works on the low k bits and on the rest separately. */
  lemma {:induction false} BitwiseSplit(op: BitOp, k: nat, m: nat, x: int, y: int)
    ensures Bitwise(op, k + m, x, y)
         == Bitwise(op, k, x, y) + Pow2(k) * Bitwise(op, m, x / Pow2(k), y / Pow2(k))
  {
    hide Bitwise, Pow2, OnBit;
    if k == 0 {
      BitwiseNone(op, x, y);
    } else {
      BitwiseStep(op, k + m, x, y);
      BitwiseStep(op, k, x, y);
      BitwiseSplit(op, k - 1, m, x / 2, y / 2);
      DivDiv(x, 2, Pow2(k - 1));
      DivDiv(y, 2, Pow2(k - 1));
      TwiceTimes(Pow2(k - 1), Bitwise(op, m, x / Pow2(k), y / Pow2(k)));
    }
  }

  /** Only the low n bits matter. */
  lemma {:induction false} BitwiseLow(op: BitOp, n: nat, x: int, y: int, x': int, y': int)
    requires x % Pow2(n) == x' % Pow2(n) && y % Pow2(n) == y' % Pow2(n)
    ensures Bitwise(op, n, x, y) == Bitwise(op, n, x', y')
  {
    if n > 0 {
      HalfMod(x, n);
      HalfMod(x', n);
      HalfMod(y, n);
      HalfMod(y', n);
      BitwiseLow(op, n - 1, x / 2, y / 2, x' / 2, y' / 2);
    }
  }

  lemma HalfMod(x: int, n: nat)
    requires n > 0
    ensures x % Pow2(n) == x % 2 + 2 * (x / 2 % Pow2(n - 1))
  {
    var p := Pow2(n - 1);
    var h := x / 2;
    assert x == h / p * (2 * p) + (x % 2 + 2 * (h % p)) by {
      assert h == h / p * p + h % p;
      assert 2 * (h / p * p) == h / p * (2 * p);
    }
    DivUnique(x, 2 * p, h / p, x % 2 + 2 * (h % p));
  }

  lemma {:induction false} BitwiseSymmetric(op: BitOp, n: nat, x: int, y: int)
    ensures Bitwise(op, n, x, y) == Bitwise(op, n, y, x)
  {
    if n > 0 {
      BitwiseSymmetric(op, n - 1, x / 2, y / 2);
    }
  }

  /** With a zero operand, `and` gives zero and the other two give back the other operand. */
  lemma {:induction false} BitwiseZero(op: BitOp, n: nat, x: int)
    ensures Bitwise(op, n, x, 0) == if op == And then 0 else x % Pow2(n)
  {
    if n > 0 {
      BitwiseZero(op, n - 1, x / 2);
      HalfMod(x, n);
    }
  }

  lemma OddHalf(p: int)
    ensures (2 * p - 1) / 2 == p - 1 && (2 * p - 1) % 2 == 1
  {
  }

  /** With an all-ones operand, `and` gives back x, `or` all ones, `xor` the complement. */
  lemma {:induction false} BitwiseOnes(op: BitOp, n: nat, x: int)
    ensures Bitwise(op, n, x, Pow2(n) - 1) ==
            match op
            case And => x % Pow2(n)
            case Or => Pow2(n) - 1
            case Xor => Pow2(n) - 1 - x % Pow2(n)
  {
    hide Bitwise, Pow2;
    if n == 0 {
      BitwiseNone(op, x, 0);
    } else {
      BitwiseOnes(op, n - 1, x / 2);
      BitwiseStep(op, n, x, Pow2(n) - 1);
      HalfMod(x, n);
      OddHalf(Pow2(n - 1));
    }
  }

  lemma QuotientBelow(n: nat, k: nat, x: nat)
    requires k <= n && x < Pow2(n)
    ensures 0 <= x / Pow2(k) < Pow2(n - k)
    ensures Pow2(k) * (x / Pow2(k)) == x - x % Pow2(k)
  {
    Pow2Add(n - k, k);
    DivBelow(x, Pow2(k), Pow2(n - k));
  }

  lemma LowOfMultiple(op: BitOp, k: nat, x: int, y: int)
    requires x % Pow2(k) == 0
    ensures Bitwise(op, k, x, y) == Bitwise(op, k, y, 0)
  {
    DivUnique(0, Pow2(k), 0, 0);
    BitwiseLow(op, k, x, y, 0, y);
    BitwiseSymmetric(op, k, 0, y);
  }

  /** `or` of operands without common bits is addition. */
  lemma OrDisjoint(n: nat, k: nat, x: nat, y: nat)
    requires k <= n && x % Pow2(k) == 0 && x < Pow2(n) && y < Pow2(k)
    ensures Bitwise(Or, n, x, y) == x + y
  {
    hide Bitwise, Pow2;
    BitwiseSplit(Or, k, n - k, x, y);
    OrLow(k, x, y);
    OrHigh(n, k, x, y);
  }

  lemma OrLow(k: nat, x: nat, y: nat)
    requires x % Pow2(k) == 0 && y < Pow2(k)
    ensures Bitwise(Or, k, x, y) == y
  {
    LowOfMultiple(Or, k, x, y);
    OrZero(k, y);
  }

  lemma OrHigh(n: nat, k: nat, x: nat, y: nat)
    requires k <= n && x % Pow2(k) == 0 && x < Pow2(n) && y < Pow2(k)
    ensures Pow2(k) * Bitwise(Or, n - k, x / Pow2(k), y / Pow2(k)) == x
  {
    DivUnique(y, Pow2(k), 0, y);
    QuotientBelow(n, k, x);
    OrZero(n - k, x / Pow2(k));
  }

  lemma OrZero(n: nat, x: nat)
    requires x < Pow2(n)
    ensures Bitwise(Or, n, x, 0) == x
  {
    BitwiseZero(Or, n, x);
    DivUnique(x, Pow2(n), 0, x);
  }

  /** `and` with 2^k - 1 keeps the low k bits. */
  lemma AndLowMask(n: nat, k: nat, x: int)
    requires k <= n
    ensures Bitwise(And, n, x, Pow2(k) - 1) == x % Pow2(k)
  {
    var p := Pow2(k);
    BitwiseSplit(And, k, n - k, x, p - 1);
    DivUnique(p - 1, p, 0, p - 1);
    BitwiseZero(And, n - k, x / p);
    BitwiseOnes(And, k, x);
  }

  lemma HighMaskParts(n: nat, k: nat)
    requires k <= n
    ensures (Pow2(n) - Pow2(k)) % Pow2(k) == 0
    ensures (Pow2(n) - Pow2(k)) / Pow2(k) == Pow2(n - k) - 1
  {
    hide Pow2;
    Pow2Add(n - k, k);
    TimesSum(Pow2(n - k), -1, Pow2(k));
    DivUnique(Pow2(n) - Pow2(k), Pow2(k), Pow2(n - k) - 1, 0);
  }

  lemma AndOnes(n: nat, x: nat)
    requires x < Pow2(n)
    ensures Bitwise(And, n, x, Pow2(n) - 1) == x
  {
    BitwiseOnes(And, n, x);
    DivUnique(x, Pow2(n), 0, x);
  }

  /** `and` with 2^n - 2^k clears the low k bits. */
  lemma AndHighMask(n: nat, k: nat, x: nat)
    requires k <= n && x < Pow2(n)
    ensures Bitwise(And, n, x, Pow2(n) - Pow2(k)) == x - x % Pow2(k)
  {
    var y, p := Pow2(n) - Pow2(k), Pow2(k);
    HighMaskParts(n, k);
    BitwiseSplit(And, k, n - k, x, y);
    LowOfMultiple(And, k, y, x);
    BitwiseSymmetric(And, k, x, y);
    BitwiseZero(And, k, x);
    QuotientBelow(n, k, x);
    AndOnes(n - k, x / p);
    assert Bitwise(And, n, x, y) == p * (x / p);
  }

  // ---------- 32-bit words ----------

  type U32 = x: int | 0 <= x < 0x1_0000_0000

  function And32(x: int, y: int): U32 {
    Pow2Values();
    Bitwise(And, 32, x, y)
  }

  function Or32(x: int, y: int): U32 {
    Pow2Values();
    Bitwise(Or, 32, x, y)
  }

  function Xor32(x: int, y: int): U32 {
    Pow2Values();
    Bitwise(Xor, 32, x, y)
  }
}
