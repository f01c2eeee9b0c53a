/** What the registers of the sound channels mean for the ear: how long a note lasts and how it fades, which
    wave a channel puts out, and how the channels are mixed. */
module SoundMeaning {
  import opened Bits
  import opened Sound

  // ---------- ticks of the sequencer, over time ----------

  function FrameTicks(r: Regs, n: nat): (r': Regs)
    requires RegsOk(r)
    ensures RegsOk(r')
  {
    if n == 0 then r else FrameRegs(FrameTicks(r, n - 1))
  }

  /** The even ones among `n` ticks. */
  function HalfTicks(fcnt: nat, n: nat): nat {
    if fcnt % 2 == 0 then (n + 1) / 2 else n / 2
  }

  /** A length counter loaded with L reaches 0 after exactly L even ticks; a halted one stays. */
  lemma {:induction false} LengthRunsOut(r: Regs, c: nat, n: nat)
    requires RegsOk(r) && r.fcnt < 4 && c < 4
    ensures var r' := FrameTicks(r, n);
            && r'.psg == r.psg && r'.fcnt == (r.fcnt + n) % 4
            && r'.length[c] == if Halted(r, c) then r.length[c]
                               else if r.length[c] > HalfTicks(r.fcnt, n) then r.length[c] - HalfTicks(r.fcnt, n) else 0
  {
    hide HalfTicks, Halted, FrameRegs;
    if n == 0 {
      SmallDivMod(r.fcnt, 4);
      NoHalfTicks(r.fcnt, n);
    } else {
      LengthRunsOut(r, c, n - 1);
      LengthOnce(FrameTicks(r, n - 1), c);
      SameHalt(r, FrameTicks(r, n - 1), c);
      OneMoreTick(r.fcnt, n);
    }
  }

  lemma LengthOnce(r: Regs, c: nat)
    requires RegsOk(r) && c < 4
    ensures var r' := FrameRegs(r);
            && r'.psg == r.psg && r'.fcnt == (r.fcnt + 1) % 4
            && r'.length[c] == r.length[c] - if r.fcnt % 2 == 0 && !Halted(r, c) && r.length[c] > 0 then 1 else 0
  {
    FrameIs(r);
    hide FrameRegs, SweepTicked, EnvelopeTicked, LinearTicked, Halted;
  }

  lemma SameHalt(r: Regs, r': Regs, c: nat)
    requires RegsOk(r) && RegsOk(r') && r.psg == r'.psg && c < 4
    ensures Halted(r, c) <==> Halted(r', c)
  {
  }

  lemma NoHalfTicks(fcnt: nat, n: nat)
    requires n == 0
    ensures HalfTicks(fcnt, n) == 0
  {
  }

  lemma OneMoreTick(fcnt: nat, n: nat)
    requires n > 0
    ensures HalfTicks(fcnt, n) == HalfTicks(fcnt, n - 1) + if (fcnt + (n - 1)) % 4 % 2 == 0 then 1 else 0
    ensures ((fcnt + (n - 1)) % 4 + 1) % 4 == (fcnt + n) % 4
  {
    var k := fcnt + (n - 1);
    NextDivMod(k, 4);
    NextDivMod(n, 2);
    NextDivMod(n - 1, 2);
    QuarterParity(k);
    Parity(fcnt, n - 1);
  }

  lemma QuarterParity(k: nat)
    ensures k % 4 % 2 == k % 2
  {
    DivUnique(k, 2, 2 * (k / 4) + k % 4 / 2, k % 4 % 2);
  }

  lemma Parity(a: nat, b: nat)
    ensures (a + b) % 2 == if a % 2 == b % 2 then 0 else 1
  {
  }

  /** So the noise is heard for exactly L even ticks, and the others for no longer. */
  lemma HeardFor(s: Settings, r: Regs, c: nat, n: nat)
    requires RegsOk(r) && r.fcnt < 4 && c < 4 && !Halted(r, c)
    ensures ViewOf(s, FrameTicks(r, n), c).on ==> HalfTicks(r.fcnt, n) < r.length[c]
    ensures c == 3 ==> (ViewOf(s, FrameTicks(r, n), c).on <==> HalfTicks(r.fcnt, n) < r.length[c])
  {
    LengthRunsOut(r, c, n);
    hide FrameTicks, Halted, HalfTicks;
  }

  /** The linear counter, once loaded with the control bit clear, runs for as many ticks as it was loaded with. */
  lemma {:induction false} LinearRunsOut(r: Regs, n: nat)
    requires RegsOk(r) && r.triMode && r.psg[8] < 128
    ensures var r' := FrameTicks(r, n + 1);
            r'.psg == r.psg && !r'.triMode && r'.triCount == if r.psg[8] > n then r.psg[8] - n else 0
  {
    if n == 0 {
      assert FrameTicks(r, 1) == FrameRegs(FrameTicks(r, 0));
      FrameIs(r);
    } else {
      LinearRunsOut(r, n - 1);
      FrameIs(FrameTicks(r, n));
    }
    hide FrameRegs, SweepTicked, EnvelopeTicked, LengthsTicked;
  }

  function EnvTicks(env: Env, n: nat): (env': Env)
    requires env.decVolume < 16
    ensures env'.decVolume < 16
  {
    if n == 0 then env else EnvTick(EnvTicks(env, n - 1))
  }

  /** After a restart the envelope falls from 15 by one every speed + 1 ticks, to stay at 0 or, looping, to begin again. */
  lemma {:induction false} EnvelopeFades(env: Env, n: nat)
    requires env.reload && env.decVolume < 16
    ensures var q, e := n / (env.speed + 1), EnvTicks(env, n + 1);
            && e.speed == env.speed && e.mode == env.mode && !e.reload
            && e.decCount == env.speed + 1 - n % (env.speed + 1)
            && e.decVolume == if env.mode / 2 % 2 == 1 then 15 - q % 16 else if q < 15 then 15 - q else 0
  {
    var period := env.speed + 1;
    if n == 0 {
      assert EnvTicks(env, 1) == EnvTick(EnvTicks(env, 0));
      EnvelopeIs(env);
      SmallDivMod(0, period);
    } else {
      EnvelopeFades(env, n - 1);
      EnvelopeIs(EnvTicks(env, n));
      NextDivMod(n - 1, period);
      hide EnvTick;
      DivMonotone(0, n - 1, period);
      DivUnique(0, period, 0, 0);
      NextDivMod((n - 1) / period, 16);
    }
  }

  // ---------- wave forms ----------

  /** The step of the wave a running channel is at after `n` cycles: one further every `period` cycles. */
  lemma {:induction false} StepAt(v: View, p: nat, k: nat, j: nat, n: nat)
    requires v.Square? || v.Triangle?
    requires v.on && v.period > 0 && j < v.period && n == k * v.period + j
    ensures Ticks(v, Osc(p, v.period), n) == Osc(if v.Square? && k > 0 then (p + k) % 8 else p + k, v.period - j)
    decreases n
  {
    hide Ticks, Next;
    if j > 0 {
      StepAt(v, p, k, j - 1, n - 1);
      OneTick(v, Osc(p, v.period), n);
      NextCounts(v, Ticks(v, Osc(p, v.period), n - 1));
    } else if k > 0 {
      TimesSum(k - 1, 1, v.period);
      NotNegative(k - 1, v.period);
      StepAt(v, p, k - 1, v.period - 1, n - 1);
      OneTick(v, Osc(p, v.period), n);
      NextCounts(v, Ticks(v, Osc(p, v.period), n - 1));
      NextDivMod(p + (k - 1), 8);
      assert p + (k - 1) + 1 == p + k;
    } else {
      NoTick(v, Osc(p, v.period), n);
    }
  }

  lemma NextCounts(v: View, o: Osc)
    requires (v.Square? || v.Triangle?) && v.on && o.count > 0
    ensures o.count > 1 ==> Next(v, o) == Osc(o.phase, o.count - 1)
    ensures o.count == 1 ==> Next(v, o) == Osc(if v.Square? then (o.phase + 1) % 8 else o.phase + 1, v.period)
  {
  }

  lemma OneTick(v: View, o: Osc, n: nat)
    requires o.count > 0 && v.period > 0 && n > 0
    ensures Ticks(v, o, n) == Next(v, Ticks(v, o, n - 1))
  {
  }

  lemma NoTick(v: View, o: Osc, n: nat)
    requires o.count > 0 && v.period > 0 && n == 0
    ensures Ticks(v, o, n) == o
  {
  }

  /** While a noise channel runs, heard or not, its register shifts every `period` cycles; a square channel that
      is off, and a triangle, stand still. */
  lemma OthersCount(v: View, o: Osc)
    requires o.count > 0
    ensures v.Noise? && o.count > 1 ==> Next(v, o) == Osc(o.phase, o.count - 1)
    ensures v.Noise? && o.count == 1 ==> Next(v, o) == Osc(NextNoise(o.phase, v.short), v.period)
    ensures !v.Noise? && !v.on ==> Next(v, o) == o
  {
    hide NextNoise;
  }

  /** The volume of a channel is its constant volume or its envelope, scaled by the setting in 256ths. */
  lemma VolumeIs(env: Env, volume: Volume)
    requires env.speed < 16 && env.decVolume < 16
    ensures var full := if env.mode % 2 == 1 then env.speed else env.decVolume;
            && Amplitude(env, 256) == full && Amplitude(env, 0) == 0 && 0 <= Amplitude(env, volume) <= full
            && 256 * Amplitude(env, volume) <= full * volume < 256 * Amplitude(env, volume) + 256
  {
    var full := if env.mode % 2 == 1 then env.speed else env.decVolume;
    Scaled(full, volume, full);
    var x := full * volume;
    assert x == x / 256 * 256 + x % 256;
  }

  /** What each channel reads of the registers. */
  lemma ViewsAre(s: Settings, r: Regs, x: nat)
    requires RegsOk(r) && x < 2
    ensures var v := ViewOf(s, r, x);
            && v.Square? && v.amp == 0x100_0000 * Amplitude(r.env[x], if x == 0 then s.square1 else s.square2)
            && (v.on <==> r.length[x] > 0 && r.freq[x] >= 8 && CheckFreq(r.freq[x], r.psg[4 * x + 1]))
    ensures var v := ViewOf(s, r, 2);
            && v.Triangle? && v.volume == s.triangle && (v.on <==> r.length[2] > 0 && r.triCount > 0)
            && v.period == (r.psg[10] as int) + 0x100 * ((r.psg[11] % 8) as int) + 1
    ensures var v := ViewOf(s, r, 3);
            && v.Noise? && v.amp == 0x2_0000 * Amplitude(r.env[2], s.noise) && (v.on <==> r.length[3] > 0)
            && (v.short <==> r.psg[14] >= 0x80)
            && v.period == (if s.pal then NOISE_FREQ_PAL else NOISE_FREQ_NTSC)[r.psg[14] % 16]
  {
    hide Amplitude, CheckFreq;
  }

  /** The noise periods rise with the register, and a PAL console has none longer. */
  lemma NoisePeriods(i: nat, j: nat)
    requires i < j < 16
    ensures 4 <= NOISE_FREQ_NTSC[i] < NOISE_FREQ_NTSC[j] && 4 <= NOISE_FREQ_PAL[i] < NOISE_FREQ_PAL[j]
    ensures NOISE_FREQ_PAL[j] < NOISE_FREQ_NTSC[j]
  {
  }

  /** A square channel is at its amplitude for the first `threshold` of every eight steps: an eighth, a
      quarter, a half or three quarters of the time, as the two top bits of its first register say. */
  lemma SquareIs(s: Settings, r: Regs, x: nat, k: nat, j: nat)
    requires RegsOk(r) && x < 2
    requires var v := SquareView(s, r, x); v.on && j < v.period
    ensures var v, d := SquareView(s, r, x), r.psg[4 * x] / 64;
            && Out(v, Ticks(v, Osc(0, v.period), k * v.period + j)) == (if k % 8 < v.threshold then v.amp else 0)
            && (d == 0 ==> v.threshold * 8 == 8) && (d == 1 ==> v.threshold * 4 == 8)
            && (d == 2 ==> v.threshold * 2 == 8) && (d == 3 ==> v.threshold * 4 == 3 * 8)
            && v.period == 2 * (r.freq[x] + 1)
  {
    var v := SquareView(s, r, x);
    NotNegative(k, v.period);
    StepAt(v, 0, k, j, k * v.period + j);
    SmallDivMod(0, 8);
    hide Ticks, CheckFreq, Amplitude;
  }

  /** The sweep silences a square channel exactly if it would take the period past eleven bits. */
  lemma SweepSilences(freq: nat, sweep: Byte)
    requires freq < 0x800
    ensures CheckFreq(freq, sweep) <==> sweep / 8 % 2 == 1 || freq + freq / Pow2(sweep % 8) < 0x800
  {
    ShiftedIs(freq, sweep % 8);
    ShiftedAtMost(freq, sweep % 8);
    hide Shifted, Pow2;
  }

  /** The triangle goes down from 15 to 0 and up again in 32 steps, each level held twice at the turns; at full
      volume a level counts three units. */
  lemma TriangleIs(step: nat, volume: Volume)
    ensures TriangleLevel(step + 32, volume) == TriangleLevel(step, volume)
    ensures step < 32 ==> TriangleLevel(31 - step, volume) == TriangleLevel(step, volume)
    ensures step < 15 ==> TriangleLevel(step, 256) == TriangleLevel(step + 1, 256) + 3 * 0x1_0000
    ensures step % 32 == 15 ==> TriangleLevel(step, volume) == 0
    ensures step == 0 ==> TriangleLevel(step, 256) == 15 * 3 * 0x1_0000
  {
    DigitIs(step);
    FullVolume(TriangleDigit(step));
    FullVolume(TriangleDigit(step + 1));
    hide TriangleDigit;
  }

  lemma DigitIs(step: nat)
    ensures TriangleDigit(step + 32) == TriangleDigit(step)
    ensures step < 32 ==> TriangleDigit(31 - step) == TriangleDigit(step)
    ensures step < 15 ==> TriangleDigit(step) == TriangleDigit(step + 1) + 1
    ensures step % 32 == 15 ==> TriangleDigit(step) == 0
    ensures step == 0 ==> TriangleDigit(step) == 15
  {
    DivAddMultiple(step, 16, 2);
    DivAddMultiple(step / 16, 2, 1);
    if step < 32 {
      SmallStep(step);
      SmallStep(31 - step);
      if step < 15 {
        SmallStep(step + 1);
      }
    }
    if step % 32 == 15 {
      DivUnique(step, 16, 2 * (step / 32), 15);
      DivUnique(2 * (step / 32), 2, step / 32, 0);
    }
  }

  lemma SmallStep(step: nat)
    requires step < 32
    ensures TriangleDigit(step) == if step < 16 then 15 - step else step - 16
  {
    if step < 16 {
      DivUnique(step, 16, 0, step);
    } else {
      DivUnique(step, 16, 1, step - 16);
    }
  }

  lemma FullVolume(d: nat)
    ensures d * 3 * 0x1_0000 / 256 * 256 / 0x1_0000 * 0x1_0000 == d * 3 * 0x1_0000
  {
    DivUnique(d * 3 * 0x1_0000, 256, 768 * d, 0);
    DivUnique(768 * d * 256, 0x1_0000, 3 * d, 0);
  }

  /** The noise register is a shift register of 15 bits, fed with the exclusive or of its top bit and the next
      one, or bit 8 in the short mode; its top bit silences the output. */
  lemma NoiseIs(reg: nat, short: bool)
    requires reg < 0x8000
    ensures var n := NextNoise(reg, short);
            && n < 0x8000 && n / 2 == reg % 0x4000
            && (n % 2 == 1 <==> (reg / 0x4000 == 1) != ((if short then reg / 0x100 else reg / 0x2000) % 2 == 1))
  {
    var feedback := NextNoise(reg, short) % 2;
    assert reg == reg / 0x4000 * 0x4000 + reg % 0x4000;
  }

  // ---------- register writes ----------

  /** Bits 6 and 7 trade places and the others stay. */
  lemma SwapDutyIs(v: Byte)
    ensures SwapDuty(v) % 64 == v % 64 && SwapDuty(v) / 128 == v / 64 % 2 && SwapDuty(v) / 64 % 2 == v / 128
    ensures SwapDuty(SwapDuty(v)) == v
  {
  }

  /** The two frequency registers are the low eight and the high three bits of the period. */
  lemma FrequencyWritten(s: Settings, r: Regs, x: nat, low: Byte, high: Byte)
    requires RegsOk(r) && x < 2
    ensures PsgRegs(s, PsgRegs(s, r, 4 * x + 2, low), 4 * x + 3, high).freq == r.freq[x := 0x100 * (high % 8) + low]
  {
    var r1 := PsgRegs(s, r, 4 * x + 2, low);
    assert r1.freq[x] % 0x100 == low && |r1.freq| == 2;
  }

  /** The last register of a channel loads its length counter, if the channel is enabled, and restarts
      envelope and wave. */
  lemma LengthWritten(s: Settings, r: Regs, c: nat, v: Byte)
    requires RegsOk(r) && c < 4
    ensures var r' := PsgRegs(s, r, 4 * c + 3, v);
            && (forall d: nat | d < 4 && d != c :: r'.length[d] == r.length[d])
            && r'.length[c] == (if r.enabled / Pow2(c) % 2 == 1 then LENGTH_TABLE[v / 8] else r.length[c])
            && (c == 2 ==> r'.triMode) && (c < 2 ==> r'.env[c].reload) && (c == 3 ==> r'.env[2].reload)
            && r'.psg == r.psg[4 * c + 3 := v]
  {
    ShiftedIs(r.enabled, c);
    hide Shifted, Pow2, FreqHigh;
  }

  /** Odd entries of the table are one less than their number, but for the longest; the first five even ones of
      each half double a note. */
  lemma LengthsAre(e: nat)
    requires e < 32
    ensures e % 2 == 1 ==> LENGTH_TABLE[e] == if e == 1 then 254 else e - 1
    ensures e % 2 == 0 && e % 16 < 10 ==> LENGTH_TABLE[e] == (if e < 16 then 10 else 12) * Pow2(e % 16 / 2)
  {
    SmallPowersOfTwo();
    hide Pow2;
  }

  lemma SmallPowersOfTwo()
    ensures Pow2(0) == 1 && Pow2(1) == 2 && Pow2(2) == 4 && Pow2(3) == 8 && Pow2(4) == 16
  {
    Pow2Small();
    hide Pow2;
    Pow2Add(1, 2);
    Pow2Add(2, 2);
  }

  /** The first register of a channel sets its envelope: halt and loop, constant volume, and speed or volume. */
  lemma EnvelopeWritten(s: Settings, r: Regs, k: nat, v: Byte)
    requires RegsOk(r) && k < 3
    ensures var a := if k == 2 then 12 else 4 * k;
            var r' := PsgRegs(s, r, a, v);
            && r'.env[k].speed == v % 16 && r'.env[k].mode % 2 == v / 16 % 2 && r'.env[k].mode / 2 == v / 32 % 2
            && r'.env[k].decVolume == r.env[k].decVolume && r'.env[k].reload == r.env[k].reload
            && (forall j: nat | j < 3 && j != k :: r'.env[j] == r.env[j])
            && r'.length == r.length && r'.freq == r.freq
            && r'.psg == r.psg[a := if s.swapDuty && k < 2 then SwapDuty(v) else v]
  {
    hide SwapDuty;
  }

  /** It makes the step after the present one the first of a square wave, and no write touches the other channels' waves
      or when a step ends. */
  lemma WaveRestarted(osc: seq<Osc>, a: nat)
    requires |osc| == 4 && a < 16
    ensures forall c: nat | c < 4 :: PsgOsc(osc, a)[c].count == osc[c].count
    ensures forall c: nat | c < 4 :: if c < 2 && a == 4 * c + 3 then (PsgOsc(osc, a)[c].phase + 1) % 8 == 0
                                     else PsgOsc(osc, a)[c] == osc[c]
  {
  }

  /** The second register of a square channel sets its sweep. */
  lemma SweepWritten(s: Settings, r: Regs, x: nat, v: Byte)
    requires RegsOk(r) && x < 2
    ensures PsgRegs(s, r, 4 * x + 1, v) ==
              r.(psg := r.psg[4 * x + 1 := v], sweepOn := r.sweepOn[x := v >= 128], sweepReload := r.sweepReload[x := true])
  {
  }

  /** The other registers are only stored. */
  lemma OnlyStored(s: Settings, r: Regs, a: nat, v: Byte)
    requires RegsOk(r) && a in {8, 9, 10, 13, 14}
    ensures PsgRegs(s, r, a, v) == r.(psg := r.psg[a := v])
  {
  }

  /** At power-up every register is zero, and every channel is off until it is enabled and written to. */
  lemma SilentAtFirst(s: Settings, duty1: nat, duty2: nat, c: nat)
    requires c < 4
    ensures var e := PowerUp(duty1, duty2);
            && !ViewOf(s, e.regs, c).on && e.regs.length[c] == 0 && e.regs.enabled == 0 && e.regs.fcnt == 0
            && (forall a | 0 <= a < 16 :: e.regs.psg[a] == 0) && (forall x | 0 <= x < 2 :: e.regs.freq[x] == 0)
            && !e.regs.triMode && e.regs.triCount == 0
            && (forall k | 0 <= k < 3 :: e.regs.env[k] == Env(0, 0, 0, 0, false))
            && e.osc[0].phase == duty1 && e.osc[1].phase == duty2
  {
    hide CheckFreq, Amplitude;
  }

  // ---------- mixing ----------

  lemma AtLeast(q: int, n: int, d: int)
    requires d > 0 && q * d <= n
    ensures q <= n / d
  {
    DivUnique(q * d, d, q, 0);
    DivMonotone(q * d, n, d);
  }

  /** A quotient top * x / (base + 100 * x) stays below top / 100 and grows with x. */
  lemma QuotientGrows(top: nat, base: nat, x: nat, y: nat)
    requires x <= y && base > 0
    ensures top * x / (base + 100 * x) <= top * y / (base + 100 * y)
  {
    var q := top * x / (base + 100 * x);
    QuotientBelow(top, base, x, q);
    assert q * (base + 100 * y) <= top * y by {
      assert q * (base + 100 * x) <= top * x;
      assert q * (base + 100 * y) == q * (base + 100 * x) + 100 * q * (y - x);
      assert top * y == top * x + top * (y - x);
      MoreOf(100 * q, top, y - x);
    }
    AtLeast(q, top * y, base + 100 * y);
  }

  lemma MoreOf(x: int, y: int, n: nat)
    requires x <= y
    ensures x * n <= y * n
  {
  }

  lemma QuotientBelow(top: nat, base: nat, x: nat, q: int)
    requires base > 0 && q == top * x / (base + 100 * x)
    ensures q >= 0 && 100 * q <= top && q * (base + 100 * x) <= top * x
  {
    var d := base + 100 * x;
    assert top * x == q * d + top * x % d;
    NotNegative(top, x);
    DivMonotone(0, top * x, d);
    DivUnique(0, d, 0, 0);
    if 100 * q > top {
      assert q * d == q * base + 100 * q * x;
      MoreOf(top + 1, 100 * q, x);
      assert (top + 1) * x == top * x + x;
      NotNegative(q, base);
      if x == 0 {
        DivUnique(top * x, d, 0, 0);
      }
      assert false;
    }
  }

  /** Silence is mixed to 0. */
  lemma SilenceIsZero(b: int)
    requires b == 0
    ensures MixWord(b) == 0
  {
    DivUnique(0, 8128, 0, 0);
    DivUnique(0, 24329, 0, 0);
  }

  /** A louder sum of squares, or of the other channels, is never mixed to less. */
  lemma MixGrows(squares: nat, rest: nat, squares': nat, rest': nat)
    requires squares <= squares' < 32 && rest <= rest' < 203
    ensures MixWord(0x100_0000 * squares + 0x1_0000 * rest) == Lookup1(squares) + Lookup2(rest)
    ensures Lookup1(squares) <= Lookup1(squares') && Lookup2(rest) <= Lookup2(rest')
    ensures MixWord(0x100_0000 * squares + 0x1_0000 * rest) <= MixWord(0x100_0000 * squares' + 0x1_0000 * rest')
  {
    MixIs(squares, rest);
    MixIs(squares', rest');
    LookupsGrow(squares, rest, squares', rest');
    hide Lookup1, Lookup2, MixWord;
  }

  lemma MixIs(squares: nat, rest: nat)
    requires rest < 256
    ensures MixWord(0x100_0000 * squares + 0x1_0000 * rest) == Lookup1(squares) + Lookup2(rest)
  {
    Fields(squares, rest);
    hide Lookup1, Lookup2;
  }

  lemma LookupsGrow(squares: nat, rest: nat, squares': nat, rest': nat)
    requires squares <= squares' && rest <= rest'
    ensures Lookup1(squares) <= Lookup1(squares') && Lookup2(rest) <= Lookup2(rest') && Lookup1(0) == 0 && Lookup2(0) == 0
  {
    QuotientGrows(1565000, 8128, squares, squares');
    QuotientGrows(2681569, 24329, rest, rest');
  }

  lemma Fields(squares: nat, rest: nat)
    requires rest < 256
    ensures var b := 0x100_0000 * squares + 0x1_0000 * rest;
            b % 0x1_0000 == 0 && b / 0x1_0000 % 256 == rest && b / 0x100_0000 == squares
  {
    var b := 0x100_0000 * squares + 0x1_0000 * rest;
    DivUnique(b, 0x100_0000, squares, 0x1_0000 * rest);
    DivUnique(b, 0x1_0000, 256 * squares + rest, 0);
    DivUnique(256 * squares + rest, 256, squares, rest);
  }
}
