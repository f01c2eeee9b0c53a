/** The output stage of the sound: a resampler that is fed the mixed samples in chunks, and the volume
    filter behind it, both with state carried from chunk to chunk. */
module Filter {
  import Bits

  // ---------- one output sample ----------

  /** Sum of the products of the coefficients with the samples at `i` and before. */
  function Fir(s: seq<int>, i: nat, coeffs: seq<int>, n: nat): int
    requires n <= |coeffs| && i < |s| && n <= i + 1
  {
    if n == 0 then 0 else Fir(s, i, coeffs, n - 1) + s[i - (n - 1)] * coeffs[n - 1] / 64
  }

  /** Interpolates between two neighbouring sums. */
  function Blend(acc: int, acc2: int, fraction: nat): int {
    (acc * (0x1_0000 - fraction) + acc2 * fraction) / 0x800_0000
  }

  /** The sample at a position given in 65536ths. */
  function Tap(s: seq<int>, pos: nat, coeffs: seq<int>): int
    requires |coeffs| <= pos / 0x1_0000 && pos / 0x1_0000 + 1 < |s|
  {
    Blend(Fir(s, pos / 0x1_0000, coeffs, |coeffs|), Fir(s, pos / 0x1_0000 + 1, coeffs, |coeffs|), pos % 0x1_0000)
  }

  /** The sum looks only at the samples in its window, wherever that lies. */
  lemma {:induction false} FirElsewhere(s: seq<int>, i: nat, s': seq<int>, i': nat, coeffs: seq<int>, n: nat)
    requires n <= |coeffs| && i < |s| && n <= i + 1 && i' < |s'| && n <= i' + 1
    requires forall k | i' - n < k <= i' :: s'[k] == s[k + (i - i')]
    ensures Fir(s, i, coeffs, n) == Fir(s', i', coeffs, n)
  {
    if n > 0 {
      FirElsewhere(s, i, s', i', coeffs, n - 1);
      assert s'[i' - (n - 1)] == s[i - (n - 1)];
    }
  }

  /** A stretch of a stream gives the same sample as the stream itself. */
  lemma TapInStretch(s: seq<int>, off: nat, stretch: seq<int>, pos: nat, coeffs: seq<int>)
    requires off + |stretch| <= |s| && s[off..off + |stretch|] == stretch
    requires |coeffs| <= pos / 0x1_0000 && pos / 0x1_0000 + 1 < |stretch|
    ensures var there := pos + off * 0x1_0000;
            && |coeffs| <= there / 0x1_0000 && there / 0x1_0000 + 1 < |s|
            && Tap(s, there, coeffs) == Tap(stretch, pos, coeffs)
  {
    hide Fir, Blend;
    var i := pos / 0x1_0000;
    forall k | 0 <= k < |stretch|
      ensures stretch[k] == s[k + off]
    {
      assert stretch[k] == s[off..off + |stretch|][k];
    }
    FirElsewhere(s, off + i, stretch, i, coeffs, |coeffs|);
    FirElsewhere(s, off + i + 1, stretch, i + 1, coeffs, |coeffs|);
    var there := pos + off * 0x1_0000;
    assert there / 0x1_0000 == off + i && there % 0x1_0000 == pos % 0x1_0000 by {
      Bits.DivAddMultiple(pos, 0x1_0000, off);
    }
  }

  // ---------- what a sample means ----------

  /** At a whole position the sample is the window sum there, in units of 2048. */
  lemma TapWhole(s: seq<int>, i: nat, coeffs: seq<int>)
    requires |coeffs| <= i && i + 1 < |s|
    ensures i * 0x1_0000 / 0x1_0000 == i && Tap(s, i * 0x1_0000, coeffs) == Fir(s, i, coeffs, |coeffs|) / 2048
  {
    hide Fir;
    Bits.DivUnique(i * 0x1_0000, 0x1_0000, i, 0);
    var acc := Fir(s, i, coeffs, |coeffs|);
    Quotients(acc * 0x1_0000, acc);
  }

  lemma Quotients(x: int, acc: int)
    requires x == acc * 0x1_0000
    ensures x / 0x800_0000 == acc / 2048
  {
    var q, r := acc / 2048, acc % 2048;
    assert acc == q * 2048 + r;
    Bits.DivUnique(x, 0x800_0000, q, r * 0x1_0000);
  }

  /** Between two whole positions it is as far on the way from the one sum to the other as the position. */
  lemma TapBetween(s: seq<int>, pos: nat, coeffs: seq<int>)
    requires |coeffs| <= pos / 0x1_0000 && pos / 0x1_0000 + 1 < |s|
    ensures var a, b := Fir(s, pos / 0x1_0000, coeffs, |coeffs|), Fir(s, pos / 0x1_0000 + 1, coeffs, |coeffs|);
            && Tap(s, pos, coeffs) == (a + (b - a) * (pos % 0x1_0000) / 0x1_0000) / 2048
            && (a <= b ==> a / 2048 <= Tap(s, pos, coeffs) <= b / 2048)
            && (b <= a ==> b / 2048 <= Tap(s, pos, coeffs) <= a / 2048)
  {
    hide Fir;
    var a, b := Fir(s, pos / 0x1_0000, coeffs, |coeffs|), Fir(s, pos / 0x1_0000 + 1, coeffs, |coeffs|);
    BlendIs(a, b, pos % 0x1_0000);
    BlendInside(a, b, pos % 0x1_0000);
  }

  lemma BlendIs(a: int, b: int, f: nat)
    requires f < 0x1_0000
    ensures Blend(a, b, f) == (a + (b - a) * f / 0x1_0000) / 2048
  {
    var x := (b - a) * f;
    var q, r := x / 0x1_0000, x % 0x1_0000;
    assert x == q * 0x1_0000 + r;
    Bits.TimesSum(b, -a, f);
    Bits.TimesSum(0x1_0000 - f, f, a);
    Bits.TimesCommutes(a, 0x1_0000 - f);
    Bits.TimesCommutes(a, f);
    var y := a * (0x1_0000 - f) + b * f;
    assert y == (a + q) * 0x1_0000 + r;
    var k, t := (a + q) / 2048, (a + q) % 2048;
    assert a + q == k * 2048 + t;
    Bits.DivUnique(y, 0x800_0000, k, t * 0x1_0000 + r);
  }

  /** A later position between the same two samples is nearer to the second. */
  lemma BlendGrows(a: int, b: int, f: nat, g: nat)
    requires f <= g < 0x1_0000
    ensures a <= b ==> Blend(a, b, f) <= Blend(a, b, g)
    ensures b <= a ==> Blend(a, b, g) <= Blend(a, b, f)
  {
    BlendIs(a, b, f);
    BlendIs(a, b, g);
    Bits.TimesSum(f, g - f, b - a);
    Bits.TimesCommutes(f, b - a);
    Bits.TimesCommutes(g, b - a);
    if a <= b {
      Bits.NotNegative(g - f, b - a);
      Ordered((b - a) * f, (b - a) * g, a);
    }
    if b <= a {
      Bits.NotNegative(g - f, a - b);
      Bits.TimesSum(a - b, b - a, g - f);
      Bits.TimesCommutes(g - f, a - b);
      Bits.TimesCommutes(g - f, b - a);
      Ordered((b - a) * g, (b - a) * f, a);
    }
  }

  lemma Ordered(x: int, y: int, a: int)
    requires x <= y
    ensures (a + x / 0x1_0000) / 2048 <= (a + y / 0x1_0000) / 2048
  {
    Bits.DivMonotone(x, y, 0x1_0000);
    Bits.DivMonotone(a + x / 0x1_0000, a + y / 0x1_0000, 2048);
  }

  lemma BlendInside(a: int, b: int, f: nat)
    requires f < 0x1_0000
    ensures a <= b ==> a / 2048 <= Blend(a, b, f) <= b / 2048
    ensures b <= a ==> b / 2048 <= Blend(a, b, f) <= a / 2048
  {
    BlendGrows(a, b, 0, f);
    BlendGrows(b, a, 0, 0x1_0000 - f - 1);
    BlendIs(a, b, f);
    BlendIs(a, b, 0);
    var x := (b - a) * f;
    Bits.TimesSum(f, 0x1_0000 - f, b - a);
    Bits.TimesCommutes(f, b - a);
    Bits.TimesCommutes(0x1_0000 - f, b - a);
    if a <= b {
      Bits.NotNegative(0x1_0000 - f, b - a);
      Ordered(x, (b - a) * 0x1_0000, a);
    }
    if b <= a {
      Bits.NotNegative(0x1_0000 - f, a - b);
      Bits.TimesSum(a - b, b - a, 0x1_0000 - f);
      Bits.TimesCommutes(0x1_0000 - f, a - b);
      Ordered((b - a) * 0x1_0000, x, a);
    }
    Bits.DivUnique((b - a) * 0x1_0000, 0x1_0000, b - a, 0);
  }

  /** The response to a constant stream: the sum of the coefficients, each product cut to whole units. */
  function Gain(c: int, coeffs: seq<int>, n: nat): int
    requires n <= |coeffs|
  {
    if n == 0 then 0 else Gain(c, coeffs, n - 1) + c * coeffs[n - 1] / 64
  }

  lemma {:induction false} FirOfConstant(s: seq<int>, i: nat, c: int, coeffs: seq<int>, n: nat)
    requires n <= |coeffs| && i < |s| && n <= i + 1 && forall k | 0 <= k < |s| :: s[k] == c
    ensures Fir(s, i, coeffs, n) == Gain(c, coeffs, n)
  {
    if n > 0 {
      FirOfConstant(s, i, c, coeffs, n - 1);
    }
  }

  /** A constant stream gives its gain at every position. */
  lemma TapOfConstant(s: seq<int>, pos: nat, c: int, coeffs: seq<int>)
    requires |coeffs| <= pos / 0x1_0000 && pos / 0x1_0000 + 1 < |s| && forall k | 0 <= k < |s| :: s[k] == c
    ensures Tap(s, pos, coeffs) == Gain(c, coeffs, |coeffs|) / 2048
  {
    hide Fir, Gain, Blend;
    FirOfConstant(s, pos / 0x1_0000, c, coeffs, |coeffs|);
    FirOfConstant(s, pos / 0x1_0000 + 1, c, coeffs, |coeffs|);
    TapBetween(s, pos, coeffs);
  }

  /** An impulse comes out as the coefficients in order, one a sample. */
  lemma {:induction false} FirOfImpulse(s: seq<int>, i: nat, at: nat, coeffs: seq<int>, n: nat)
    requires n <= |coeffs| && i < |s| && n <= i + 1 && at <= i
    requires forall k | 0 <= k < |s| :: s[k] == if k == at then 64 else 0
    ensures Fir(s, i, coeffs, n) == if i - at < n then coeffs[i - at] else 0
  {
    if n > 0 {
      FirOfImpulse(s, i, at, coeffs, n - 1);
      var j := i - (n - 1);
      assert j != at ==> s[j] * coeffs[n - 1] == 0;
      assert j == at ==> s[j] * coeffs[n - 1] == coeffs[n - 1] * 64;
    }
  }

  // ---------- resampling a whole stream at once ----------

  /** Position of output `k`. */
  function Pos(start: nat, ratio: nat, k: nat): nat {
    start + k * ratio
  }

  lemma PosNext(start: nat, ratio: nat, k: nat)
    ensures Pos(start, ratio, k + 1) == Pos(start, ratio, k) + ratio && Pos(start, ratio, 0) == start
    ensures Pos(start, ratio, k) >= start
  {
    Bits.TimesSum(k, 1, ratio);
    Bits.NotNegative(k, ratio);
  }

  /** Every sample of `out` is the stream's at its position, which has a following sample. */
  ghost predicate Sampled(s: seq<int>, start: nat, ratio: nat, coeffs: seq<int>, out: seq<int>) {
    forall k: nat | k < |out| ::
      && Pos(start, ratio, k) < (|s| - 1) * 0x1_0000 && |coeffs| <= Pos(start, ratio, k) / 0x1_0000
      && out[k] == Tap(s, Pos(start, ratio, k), coeffs)
  }

  /** `out` is the stream resampled: a sample for every position that has a following sample, and for no other. */
  ghost predicate Resampled(s: seq<int>, start: nat, ratio: nat, coeffs: seq<int>, out: seq<int>) {
    Sampled(s, start, ratio, coeffs, out) && Pos(start, ratio, |out|) >= (|s| - 1) * 0x1_0000
  }

  /** A stream has only one resampling. */
  lemma ResampledOnce(s: seq<int>, start: nat, ratio: nat, coeffs: seq<int>, out: seq<int>, out': seq<int>)
    requires Resampled(s, start, ratio, coeffs, out) && Resampled(s, start, ratio, coeffs, out')
    ensures out == out'
  {
    hide Tap, Pos;
    NoLonger(s, start, ratio, coeffs, out, out');
    NoLonger(s, start, ratio, coeffs, out', out);
  }

  lemma NoLonger(s: seq<int>, start: nat, ratio: nat, coeffs: seq<int>, out: seq<int>, out': seq<int>)
    requires Resampled(s, start, ratio, coeffs, out) && Resampled(s, start, ratio, coeffs, out')
    ensures |out| <= |out'|
  {
    hide Tap, Pos;
  }

  // ---------- the volume filter ----------

  datatype Volume = Volume(acc1: int, acc2: int)

  datatype Gains = Gains(mul1: int, mul2: int, vmul: int)

  function VolumeStep(g: Gains, f: Volume, x: int): Volume {
    var ino := x * g.vmul;
    var acc1 := f.acc1 + (ino - f.acc1) * g.mul1 / 0x1_0000;
    Volume(acc1, f.acc2 + (ino - acc1 - f.acc2) * g.mul2 / 0x1_0000)
  }

  function VolumeOut(g: Gains, f: Volume, x: int): int {
    var f' := VolumeStep(g, f, x);
    var t := (f'.acc1 - x * g.vmul + f'.acc2) / 0x1_0000;
    if t > 32767 then 32767 else if t < -32768 then -32768 else t
  }

  /** A follower that closes the part mul / 65536 of its distance to the target, rounded down, never overshoots it. */
  lemma Follows(acc: int, target: int, mul: nat)
    requires mul <= 0x1_0000
    ensures var acc' := acc + (target - acc) * mul / 0x1_0000;
            && (acc <= target ==> acc <= acc' <= target) && (target <= acc ==> target <= acc' <= acc)
            && 0x1_0000 * (acc' - acc) <= (target - acc) * mul < 0x1_0000 * (acc' - acc) + 0x1_0000
  {
    var d := target - acc;
    Bits.TimesSum(mul, 0x1_0000 - mul, d);
    Bits.TimesCommutes(d, mul);
    Bits.DivUnique(0x1_0000 * d, 0x1_0000, d, 0);
    if d >= 0 {
      Bits.NotNegative(mul, d);
      Bits.NotNegative(0x1_0000 - mul, d);
      Bits.DivMonotone(0, d * mul, 0x1_0000);
      Bits.DivMonotone(d * mul, 0x1_0000 * d, 0x1_0000);
    } else {
      Bits.NotNegative(mul, -d);
      Bits.NotNegative(0x1_0000 - mul, -d);
      Bits.TimesSum(d, -d, mul);
      Bits.TimesCommutes(-d, mul);
      Bits.TimesSum(d, -d, 0x1_0000 - mul);
      Bits.TimesCommutes(0x1_0000 - mul, d);
      Bits.TimesCommutes(0x1_0000 - mul, -d);
      Bits.DivMonotone(d * mul, 0, 0x1_0000);
      Bits.DivMonotone(0x1_0000 * d, d * mul, 0x1_0000);
    }
    assert d * mul == d * mul / 0x1_0000 * 0x1_0000 + d * mul % 0x1_0000;
  }

  /** The first follower goes after the input at full volume, the second after what the first has left. */
  lemma VolumeFollows(g: Gains, f: Volume, x: int)
    requires 0 <= g.mul1 <= 0x1_0000 && 0 <= g.mul2 <= 0x1_0000
    ensures var (f', left) := (VolumeStep(g, f, x), x * g.vmul - VolumeStep(g, f, x).acc1);
            && (f.acc1 <= x * g.vmul ==> f.acc1 <= f'.acc1 <= x * g.vmul)
            && (x * g.vmul <= f.acc1 ==> x * g.vmul <= f'.acc1 <= f.acc1)
            && (f.acc2 <= left ==> f.acc2 <= f'.acc2 <= left) && (left <= f.acc2 ==> left <= f'.acc2 <= f.acc2)
            && 0x1_0000 * (f'.acc1 - f.acc1) <= (x * g.vmul - f.acc1) * g.mul1 < 0x1_0000 * (f'.acc1 - f.acc1) + 0x1_0000
            && 0x1_0000 * (f'.acc2 - f.acc2) <= (left - f.acc2) * g.mul2 < 0x1_0000 * (f'.acc2 - f.acc2) + 0x1_0000
  {
    Follows(f.acc1, x * g.vmul, g.mul1);
    Follows(f.acc2, x * g.vmul - VolumeStep(g, f, x).acc1, g.mul2);
  }

  /** What comes out is the part of the input neither has followed, inverted, in units of 65536 and held
      inside 16 bits. */
  lemma VolumeOutIs(g: Gains, f: Volume, x: int)
    ensures var (f', y) := (VolumeStep(g, f, x), VolumeOut(g, f, x));
            var rest := x * g.vmul - f'.acc1 - f'.acc2;
            && -32768 <= y <= 32767
            && (y < 32767 ==> -rest < (y + 1) * 0x1_0000) && (y > -32768 ==> y * 0x1_0000 <= -rest)
  {
    hide VolumeStep;
  }

  /** An input that both have caught up with is silent and leaves the filter alone; so is silence at rest. */
  lemma SteadyIsSilent(g: Gains, x: int)
    ensures VolumeStep(g, Volume(x * g.vmul, 0), x) == Volume(x * g.vmul, 0)
    ensures VolumeOut(g, Volume(x * g.vmul, 0), x) == 0
  {
    assert (x * g.vmul - x * g.vmul) * g.mul1 == 0;
  }

  function VolumeAfter(g: Gains, f: Volume, xs: seq<int>): Volume {
    if xs == [] then f else VolumeStep(g, VolumeAfter(g, f, xs[..|xs| - 1]), xs[|xs| - 1])
  }

  function Filtered(g: Gains, f: Volume, xs: seq<int>): (ys: seq<int>)
    ensures |ys| == |xs|
  {
    if xs == [] then []
    else Filtered(g, f, xs[..|xs| - 1]) + [VolumeOut(g, VolumeAfter(g, f, xs[..|xs| - 1]), xs[|xs| - 1])]
  }

  lemma FilteredNone(g: Gains, f: Volume)
    ensures VolumeAfter(g, f, []) == f && Filtered(g, f, []) == []
  {
  }

  lemma FilteredMore(g: Gains, f: Volume, xs: seq<int>, x: int)
    ensures VolumeAfter(g, f, xs + [x]) == VolumeStep(g, VolumeAfter(g, f, xs), x)
    ensures Filtered(g, f, xs + [x]) == Filtered(g, f, xs) + [VolumeOut(g, VolumeAfter(g, f, xs), x)]
  {
    hide VolumeStep, VolumeOut;
    assert (xs + [x])[..|xs|] == xs;
  }

  /** Filtering two chunks one after the other is filtering them together. */
  lemma {:induction false} FilteredTogether(g: Gains, f: Volume, xs: seq<int>, ys: seq<int>)
    ensures VolumeAfter(g, f, xs + ys) == VolumeAfter(g, VolumeAfter(g, f, xs), ys)
    ensures Filtered(g, f, xs + ys) == Filtered(g, f, xs) + Filtered(g, VolumeAfter(g, f, xs), ys)
  {
    hide VolumeStep, VolumeOut, VolumeAfter, Filtered;
    if ys == [] {
      assert xs + ys == xs;
      FilteredNone(g, VolumeAfter(g, f, xs));
    } else {
      var zs, y := ys[..|ys| - 1], ys[|ys| - 1];
      FilteredTogether(g, f, xs, zs);
      FilteredMore(g, f, xs + zs, y);
      FilteredMore(g, VolumeAfter(g, f, xs), zs, y);
      assert xs + zs + [y] == xs + ys && zs + [y] == ys;
    }
  }

  /** SexyFilter, in place. */
  method VolumeFilter(g: Gains, f: Volume, data: array<int>) returns (f': Volume)
    modifies data
    ensures f' == VolumeAfter(g, f, old(data[..])) && data[..] == Filtered(g, f, old(data[..]))
  {
    hide VolumeStep, VolumeOut;
    ghost var xs := data[..];
    FilteredNone(g, f);
    hide VolumeAfter, Filtered;
    f' := f;
    var k := 0;
    while k < data.Length
      invariant 0 <= k <= data.Length && f' == VolumeAfter(g, f, xs[..k])
      invariant data[..k] == Filtered(g, f, xs[..k]) && data[k..] == xs[k..]
    {
      assert data[k] == data[k..][0] == xs[k];
      var x := data[k];
      FilteredMore(g, f, xs[..k], x);
      assert xs[..k + 1] == xs[..k] + [x];
      data[k] := VolumeOut(g, f', x);
      f' := VolumeStep(g, f', x);
      k := k + 1;
    }
    assert xs[..k] == xs;
  }

  // ---------- resampling chunk by chunk ----------

  class Resampler {
    const coeffs: seq<int>
    /** Distance between two output samples in 65536ths of an input sample, and the first position. */
    const ratio: nat
    const start: nat
    const gains: Gains
    /** Position of the next output in the next chunk. */
    var mrindex: nat
    var volume: Volume
    /** All that has been fed in, and all that has come out of the resampler and of the volume filter. */
    ghost var fed: seq<int>
    ghost var made: seq<int>
    ghost var played: seq<int>

    /** The samples that have to be in front of the next chunk. */
    ghost function Kept(): seq<int>
      reads this
      requires |fed| == 0 || |fed| > |coeffs|
    {
      if |fed| == 0 then [] else fed[|fed| - (|coeffs| + 1)..]
    }

    /** What has come out of the resampler is right, and the next position is the one that follows. */
    ghost predicate Placed()
      reads this
    {
      && 0 < ratio < 0x4000_0000 && start == (|coeffs| + 1) * 0x1_0000 && 0 < |coeffs| <= 1024
      && |coeffs| * 0x1_0000 <= mrindex <= ratio + start
      && (|fed| == 0 || |fed| > |coeffs|)
      && Resampled(fed, start, ratio, coeffs, made)
      && mrindex + (|fed| - |Kept()|) * 0x1_0000 == Pos(start, ratio, |made|)
    }

    ghost predicate Valid()
      reads this
    {
      && Placed()
      && volume == VolumeAfter(gains, Volume(0, 0), made) && played == Filtered(gains, Volume(0, 0), made)
    }

    lemma Facts()
      requires Valid()
      ensures |fed| == 0 || |fed| > |coeffs|
    {
    }

    /** MakeFilters. */
    constructor (coeffs: seq<int>, ratio: nat, gains: Gains)
      requires 0 < |coeffs| <= 1024 && 0 < ratio < 0x4000_0000
      ensures Valid() && fed == [] && made == [] && played == []
      ensures this.coeffs == coeffs && this.ratio == ratio && this.gains == gains
    {
      this.coeffs, this.ratio, this.gains := coeffs, ratio, gains;
      start, mrindex := (|coeffs| + 1) * 0x1_0000, (|coeffs| + 1) * 0x1_0000;
      volume := Volume(0, 0);
      fed, made, played := [], [], [];
      new;
      PosNext(start, ratio, 0);
    }

    /** The inner loop: both sums of one output. */
    method Sums(input: array<int>, inlen: nat, i: nat) returns (acc: int, acc2: int)
      requires |coeffs| <= i && i + 1 < inlen <= input.Length
      ensures acc == Fir(input[..inlen], i, coeffs, |coeffs|) && acc2 == Fir(input[..inlen], i + 1, coeffs, |coeffs|)
    {
      acc, acc2 := 0, 0;
      var s, c, d := i - |coeffs|, |coeffs|, 0;
      while c > 0
        invariant 0 <= c == |coeffs| - d
        invariant acc == Fir(input[..inlen], i, coeffs, d) && acc2 == Fir(input[..inlen], i + 1, coeffs, d)
      {
        acc := acc + input[s + c] * coeffs[d] / 64;
        acc2 := acc2 + input[s + 1 + c] * coeffs[d] / 64;
        c := c - 1;
        d := d + 1;
      }
    }

    /** The outputs of one chunk; `off` is where the chunk begins in the whole stream `s`. */
    method Outputs(input: array<int>, inlen: nat, ghost s: seq<int>, ghost off: nat, ghost before: seq<int>)
      returns (out: seq<int>, next: nat)
      requires 0 < ratio < 0x4000_0000 && 0 < |coeffs| <= 1024 && |coeffs| < inlen <= 40000 && inlen <= input.Length
      requires |coeffs| * 0x1_0000 <= mrindex <= ratio + (|coeffs| + 1) * 0x1_0000
      requires off + inlen == |s| && s[off..] == input[..inlen]
      requires mrindex + off * 0x1_0000 == Pos(start, ratio, |before|)
      requires Sampled(s, start, ratio, coeffs, before)
      ensures Sampled(s, start, ratio, coeffs, before + out)
      ensures next + off * 0x1_0000 == Pos(start, ratio, |before + out|)
      ensures (inlen - 1) * 0x1_0000 <= next && (next < (inlen - 1) * 0x1_0000 + ratio || next == mrindex)
    {
      hide Fir, Tap, Pos, Blend, Sampled;
      out := [];
      assert before + out == before;
      var max := (inlen - 1) * 0x1_0000;
      var x := mrindex;
      while x < max
        invariant |coeffs| * 0x1_0000 <= x && (x < max + ratio || x == mrindex)
        invariant x + off * 0x1_0000 == Pos(start, ratio, |before + out|)
        invariant Sampled(s, start, ratio, coeffs, before + out)
        decreases max + ratio - x
      {
        var i, fraction := x / 0x1_0000, x % 0x1_0000;
        var acc, acc2 := Sums(input, inlen, i);
        var sample := Blend(acc, acc2, fraction);
        NextSample(s, start, ratio, coeffs, before + out, off, input[..inlen], x);
        assert before + out + [sample] == before + (out + [sample]);
        out := out + [sample];
        x := (x + ratio) % 0x1_0000_0000;
      }
      next := x;
    }

    /** One chunk: the samples kept from before, then the `news`. What has come out by now is what
        resampling and filtering the whole stream in one go gives, and the kept samples and the
        position are all that the next chunk needs. */
    method NeoFilterSound(input: array<int>, inlen: nat, ghost news: seq<int>) returns (out: array<int>, leftover: nat)
      requires Valid() && |coeffs| < inlen <= 40000 && inlen <= input.Length && input[..inlen] == Kept() + news
      modifies this`mrindex, this`volume, this`fed, this`made, this`played
      ensures Valid() && fed == old(fed) + news && |fed| > 0 && leftover == |Kept()| && fresh(out)
      ensures played == old(played) + out[..] && old(made) <= made
    {
      hide Resampled, Pos, VolumeAfter, Filtered;
      var samples := Resample(input, inlen, news);
      leftover := |coeffs| + 1;
      out := new int[|samples|](i requires 0 <= i < |samples| => samples[i]);
      assert out[..] == samples;
      FilteredTogether(gains, Volume(0, 0), old(made), samples);
      volume := VolumeFilter(gains, volume, out);
      played := played + out[..];
    }

    method Resample(input: array<int>, inlen: nat, ghost news: seq<int>) returns (samples: seq<int>)
      requires Placed() && |coeffs| < inlen <= 40000 && inlen <= input.Length && input[..inlen] == Kept() + news
      modifies this`mrindex, this`fed, this`made
      ensures Placed() && fed == old(fed) + news && |fed| > |coeffs| && made == old(made) + samples
    {
      hide Sampled, Pos;
      ghost var s, off := fed + news, |fed| - |Kept()|;
      KeepSampling(fed, news, start, ratio, coeffs, made);
      assert s[off..] == Kept() + news;
      var next;
      samples, next := Outputs(input, inlen, s, off, made);
      mrindex := (next - (inlen - 1) * 0x1_0000 + |coeffs| * 0x1_0000) % 0x1_0000_0000;
      fed, made := s, made + samples;
    }
  }

  /** What has been resampled stays right as the stream goes on. */
  lemma KeepSampling(s: seq<int>, more: seq<int>, start: nat, ratio: nat, coeffs: seq<int>, out: seq<int>)
    requires Sampled(s, start, ratio, coeffs, out)
    ensures Sampled(s + more, start, ratio, coeffs, out)
  {
    hide Pos, Tap;
    forall k: nat | k < |out|
      ensures Pos(start, ratio, k) < (|s + more| - 1) * 0x1_0000
      ensures out[k] == Tap(s + more, Pos(start, ratio, k), coeffs)
    {
      assert (s + more)[0..0 + |s|] == s;
      TapInStretch(s + more, 0, s, Pos(start, ratio, k), coeffs);
    }
  }

  /** One turn of the loop. */
  lemma NextSample(s: seq<int>, start: nat, ratio: nat, coeffs: seq<int>, out: seq<int>, off: nat, w: seq<int>, x: nat)
    requires off + |w| == |s| && s[off..] == w && |coeffs| * 0x1_0000 <= x < (|w| - 1) * 0x1_0000
    requires x + off * 0x1_0000 == Pos(start, ratio, |out|) && Sampled(s, start, ratio, coeffs, out)
    ensures |coeffs| <= x / 0x1_0000 && x / 0x1_0000 + 1 < |w|
    ensures Sampled(s, start, ratio, coeffs, out + [Blend(Fir(w, x / 0x1_0000, coeffs, |coeffs|),
                                                          Fir(w, x / 0x1_0000 + 1, coeffs, |coeffs|), x % 0x1_0000)])
    ensures Pos(start, ratio, |out| + 1) == x + off * 0x1_0000 + ratio
  {
    hide Pos, Tap, Fir, Blend, Sampled;
    TapIs(w, x, coeffs);
    assert s[off..off + |w|] == w;
    TapInStretch(s, off, w, x, coeffs);
    SampledMore(s, start, ratio, coeffs, out, Tap(w, x, coeffs));
    PosNext(start, ratio, |out|);
  }

  lemma TapIs(s: seq<int>, pos: nat, coeffs: seq<int>)
    requires |coeffs| <= pos / 0x1_0000 && pos / 0x1_0000 + 1 < |s|
    ensures Tap(s, pos, coeffs) == Blend(Fir(s, pos / 0x1_0000, coeffs, |coeffs|),
                                         Fir(s, pos / 0x1_0000 + 1, coeffs, |coeffs|), pos % 0x1_0000)
  {
  }

  lemma SampledMore(s: seq<int>, start: nat, ratio: nat, coeffs: seq<int>, out: seq<int>, x: int)
    requires Sampled(s, start, ratio, coeffs, out) && Pos(start, ratio, |out|) < (|s| - 1) * 0x1_0000
    requires |coeffs| <= Pos(start, ratio, |out|) / 0x1_0000 && x == Tap(s, Pos(start, ratio, |out|), coeffs)
    ensures Sampled(s, start, ratio, coeffs, out + [x])
  {
    hide Tap, Pos;
  }

  /** However a stream was cut into chunks, the output is the same and so is the state carried on. */
  lemma ChunksDoNotMatter(a: Resampler, b: Resampler)
    requires a.Valid() && b.Valid() && a.coeffs == b.coeffs && a.ratio == b.ratio && a.gains == b.gains && a.fed == b.fed
    ensures a.played == b.played && a.mrindex == b.mrindex && a.volume == b.volume
  {
    hide Resampled, Pos, VolumeAfter, Filtered;
    ResampledOnce(a.fed, a.start, a.ratio, a.coeffs, a.made, b.made);
  }
}
