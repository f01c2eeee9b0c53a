/** The high-quality sound channels: square waves, triangle and noise are only rendered when a register
    they depend on is about to change, yet sound as if rendered cycle by cycle. */
module Sound {
  import Bits

  type Byte = x: int | 0 <= x < 0x100
  type Word = x: int | 0 <= x < 0x1_0000_0000
  type Volume = x: int | 0 <= x <= 256

  datatype Settings = Settings(square1: Volume, square2: Volume, triangle: Volume, noise: Volume, pal: bool, swapDuty: bool)

  datatype Env = Env(speed: nat, mode: nat, decCount: nat, decVolume: nat, reload: bool)

  datatype Regs = Regs(psg: seq<Byte>, env: seq<Env>, length: seq<nat>, freq: seq<nat>, sweepOn: seq<bool>,
                       sweepCount: seq<nat>, sweepReload: seq<bool>, triCount: nat, triMode: bool, enabled: nat, fcnt: nat)

  predicate RegsOk(r: Regs) {
    && |r.psg| == 16 && |r.env| == 3 && |r.length| == 4
    && |r.freq| == |r.sweepOn| == |r.sweepCount| == |r.sweepReload| == 2
    && (forall k | 0 <= k < 3 :: r.env[k].speed < 16 && r.env[k].decVolume < 16)
    && (forall x | 0 <= x < 2 :: r.freq[x] < 0x800)
  }

  // ---------- one channel ----------

  /** Position in the wave form (duty step, triangle step or shift register) and cycles until the next one. */
  datatype Osc = Osc(phase: nat, count: nat)

  /** All a channel reads of the registers while it runs. */
  datatype View =
    | Square(on: bool, amp: int, threshold: int, period: nat)
    | Triangle(on: bool, volume: Volume, period: nat)
    | Noise(on: bool, amp: int, short: bool, period: nat)

  const RECT_DUTIES: seq<int> := [1, 2, 4, 6]

  const NOISE_FREQ_NTSC: seq<nat> := [4, 8, 16, 32, 64, 96, 128, 160, 202, 254, 380, 508, 762, 1016, 2034, 4068]

  const NOISE_FREQ_PAL: seq<nat> := [4, 7, 14, 30, 60, 88, 118, 148, 188, 236, 354, 472, 708, 944, 1890, 3778]

  const LENGTH_TABLE: seq<nat> :=
    [10, 254, 20, 2, 40, 4, 80, 6, 160, 8, 60, 10, 14, 12, 26, 14,
     12, 16, 24, 18, 48, 20, 96, 22, 192, 24, 72, 26, 16, 28, 32, 30]

  function Shifted(x: nat, k: nat): nat {
    if k == 0 then x else Shifted(x / 2, k - 1)
  }

  /** The sweep unit does not silence the channel. */
  predicate CheckFreq(freq: nat, sweep: Byte) {
    sweep / 8 % 2 == 1 || (Shifted(freq, sweep % 8) + freq) / 0x800 % 2 == 0
  }

  function Amplitude(env: Env, volume: Volume): int {
    var amp := if env.mode % 2 == 1 then env.speed else env.decVolume;
    if volume != 256 then amp * volume / 256 else amp
  }

  function SquareView(s: Settings, r: Regs, x: nat): View
    requires RegsOk(r) && x < 2
  {
    Square(8 <= r.freq[x] <= 0x7FF && CheckFreq(r.freq[x], r.psg[4 * x + 1]) && r.length[x] != 0,
           Amplitude(r.env[x], if x == 1 then s.square2 else s.square1) * 0x100_0000,
           RECT_DUTIES[r.psg[4 * x] / 64], (r.freq[x] + 1) * 2)
  }

  function TriangleView(s: Settings, r: Regs): View
    requires RegsOk(r)
  {
    var low: int, high: int := r.psg[10], r.psg[11] % 8;
    Triangle(r.length[2] != 0 && r.triCount != 0, s.triangle, low + high * 256 + 1)
  }

  function NoiseView(s: Settings, r: Regs): View
    requires RegsOk(r)
  {
    Noise(r.length[3] != 0, Amplitude(r.env[2], s.noise) * 0x2_0000, r.psg[14] / 128 == 1,
          if s.pal then NOISE_FREQ_PAL[r.psg[14] % 16] else NOISE_FREQ_NTSC[r.psg[14] % 16])
  }

  function ViewOf(s: Settings, r: Regs, c: nat): View
    requires RegsOk(r) && c < 4
  {
    if c < 2 then SquareView(s, r, c) else if c == 2 then TriangleView(s, r) else NoiseView(s, r)
  }

  /** Triangle level, scaled by the volume and cut to whole units. */
  function TriangleDigit(step: nat): nat {
    if step / 16 % 2 == 0 then 15 - step % 16 else step % 16
  }

  function TriangleLevel(step: nat, volume: Volume): int {
    var d := TriangleDigit(step);
    d * 3 * 0x1_0000 / 256 * volume / 0x1_0000 * 0x1_0000
  }

  function NextNoise(reg: nat, short: bool): nat {
    var tap := if short then reg / 0x100 % 2 else reg / 0x2000 % 2;
    var feedback := if tap != reg / 0x4000 % 2 then 1 else 0;
    (2 * reg + feedback) % 0x8000
  }

  /** What the channel puts out in one cycle. */
  function Out(v: View, o: Osc): int {
    match v
    case Square(on, amp, threshold, _) => if on && o.phase < threshold then amp else 0
    case Triangle(_, volume, _) => TriangleLevel(o.phase, volume)
    case Noise(on, amp, _, _) => if on && o.phase / 0x4000 % 2 == 0 then amp else 0
  }

  /** The channel after one cycle. */
  function Next(v: View, o: Osc): Osc
    requires o.count > 0
  {
    if (v.Square? || v.Triangle?) && !v.on then o
    else if o.count > 1 then o.(count := o.count - 1)
    else Osc(match v
             case Square(_, _, _, _) => (o.phase + 1) % 8
             case Triangle(_, _, _) => o.phase + 1
             case Noise(_, _, short, _) => NextNoise(o.phase, short),
             v.period)
  }

  function Ticks(v: View, o: Osc, n: nat): (o': Osc)
    requires o.count > 0 && v.period > 0
    ensures o'.count > 0
  {
    if n == 0 then o else Next(v, Ticks(v, o, n - 1))
  }

  function Outs(v: View, o: Osc, n: nat): (xs: seq<int>)
    requires o.count > 0 && v.period > 0
    ensures |xs| == n
  {
    if n == 0 then [] else Outs(v, o, n - 1) + [Out(v, Ticks(v, o, n - 1))]
  }

  /** Rendering in two stretches is rendering in one. */
  lemma {:induction false} StretchesJoin(v: View, o: Osc, a: nat, b: nat)
    requires o.count > 0 && v.period > 0
    ensures Ticks(v, o, a + b) == Ticks(v, Ticks(v, o, a), b)
    ensures Outs(v, o, a + b) == Outs(v, o, a) + Outs(v, Ticks(v, o, a), b)
  {
    if b > 0 {
      StretchesJoin(v, o, a, b - 1);
      hide Next, Out;
      assert Ticks(v, o, a + b) == Next(v, Ticks(v, o, a + (b - 1)));
    }
  }

  lemma {:induction false} MutedTicks(v: View, o: Osc, n: nat)
    requires o.count > 0 && v.period > 0 && v.Square? && !v.on
    ensures Ticks(v, o, n) == o && forall k | 0 <= k < n :: Outs(v, o, n)[k] == 0
  {
    if n > 0 {
      MutedTicks(v, o, n - 1);
    }
  }

  lemma {:induction false} HaltedTicks(v: View, o: Osc, n: nat)
    requires o.count > 0 && v.period > 0 && v.Triangle? && !v.on
    ensures Ticks(v, o, n) == o
  {
    if n > 0 {
      HaltedTicks(v, o, n - 1);
    }
  }

  // ---------- rendering every cycle ----------

  /** The reference: all four channels run every cycle and each keeps what it has put out. */
  datatype Eager = Eager(regs: Regs, osc: seq<Osc>, outs: seq<seq<int>>)

  predicate EagerOk(s: Settings, e: Eager) {
    && RegsOk(e.regs) && |e.osc| == 4 && |e.outs| == 4
    && (forall c | 0 <= c < 4 :: e.osc[c].count > 0)
  }

  lemma PeriodPositive(s: Settings, r: Regs, c: nat)
    requires RegsOk(r) && c < 4
    ensures ViewOf(s, r, c).period > 0
  {
  }

  function EagerCycle(s: Settings, e: Eager): (e': Eager)
    requires EagerOk(s, e)
    ensures EagerOk(s, e') && e'.regs == e.regs
  {
    PeriodPositive(s, e.regs, 0);
    PeriodPositive(s, e.regs, 1);
    PeriodPositive(s, e.regs, 2);
    PeriodPositive(s, e.regs, 3);
    var v := seq(4, c requires 0 <= c < 4 => ViewOf(s, e.regs, c));
    Eager(e.regs, seq(4, c requires 0 <= c < 4 => Next(v[c], e.osc[c])),
          seq(4, c requires 0 <= c < 4 => e.outs[c] + [Out(v[c], e.osc[c])]))
  }

  function EagerPass(s: Settings, e: Eager, n: nat): (e': Eager)
    requires EagerOk(s, e)
    ensures EagerOk(s, e') && e'.regs == e.regs
  {
    if n == 0 then e else EagerCycle(s, EagerPass(s, e, n - 1))
  }

  /** Cycle by cycle, each channel runs on its own. */
  lemma {:induction false} EagerPassIs(s: Settings, e: Eager, n: nat, c: nat)
    requires EagerOk(s, e) && c < 4
    ensures var v := ViewOf(s, e.regs, c);
            && v.period > 0
            && EagerPass(s, e, n).osc[c] == Ticks(v, e.osc[c], n)
            && EagerPass(s, e, n).outs[c] == e.outs[c] + Outs(v, e.osc[c], n)
  {
    PeriodPositive(s, e.regs, c);
    if n > 0 {
      EagerPassIs(s, e, n - 1, c);
      hide ViewOf, Next, Out;
    }
  }

  // ---------- register writes ----------

  function EnvWritten(env: Env, v: Byte): Env {
    env.(mode := v / 16 % 4, speed := v % 16)
  }

  /** The duty bits trade places if the setting asks for it. */
  function SwapDuty(v: Byte): Byte {
    v % 64 + v / 128 * 64 + v / 64 % 2 * 128
  }

  function LengthLoaded(r: Regs, c: nat, v: Byte): seq<nat>
    requires RegsOk(r) && c < 4
  {
    if Shifted(r.enabled, c) % 2 == 1 then r.length[c := LENGTH_TABLE[v / 8]] else r.length
  }

  /** The last two registers of a square channel. */
  function FreqLow(freq: nat, v: Byte): nat {
    freq / 0x100 * 0x100 + v
  }

  function FreqHigh(freq: nat, v: Byte): nat {
    freq % 0x100 + v % 8 * 0x100
  }

  /** Write_PSG: what register `a` does apart from being stored. */
  function PsgEffect(r: Regs, a: nat, v: Byte): (r': Regs)
    requires RegsOk(r) && a < 16
    ensures RegsOk(r')
  {
    var x := a / 4;
    if a == 0 || a == 4 || a == 12 then
      var k := if a == 12 then 2 else x;
      r.(env := r.env[k := EnvWritten(r.env[k], v)])
    else if a == 1 || a == 5 then r.(sweepOn := r.sweepOn[x := v / 128 == 1], sweepReload := r.sweepReload[x := true])
    else if a == 2 || a == 6 then r.(freq := r.freq[x := FreqLow(r.freq[x], v)])
    else if a == 3 || a == 7 then
      r.(length := LengthLoaded(r, x, v), freq := r.freq[x := FreqHigh(r.freq[x], v)],
         env := r.env[x := r.env[x].(reload := true)])
    else if a == 11 then r.(length := LengthLoaded(r, 2, v), triMode := true)
    else if a == 15 then r.(length := LengthLoaded(r, 3, v), env := r.env[2 := r.env[2].(reload := true)])
    else r
  }

  function PsgRegs(s: Settings, r: Regs, a: nat, v: Byte): (r': Regs)
    requires RegsOk(r) && a < 16
    ensures RegsOk(r')
  {
    var stored := if s.swapDuty && (a == 0 || a == 4) then SwapDuty(v) else v;
    var r1 := PsgEffect(r, a, v);
    r1.(psg := r1.psg[a := stored])
  }

  /** Writing the high frequency register also resets the duty step. */
  function PsgOsc(osc: seq<Osc>, a: nat): seq<Osc>
    requires |osc| == 4 && a < 16
  {
    if a == 3 then osc[0 := osc[0].(phase := 7)] else if a == 7 then osc[1 := osc[1].(phase := 7)] else osc
  }

  /** StatusWrite: a cleared bit silences its channel. */
  function StatusRegs(r: Regs, v: Byte): (r': Regs)
    requires RegsOk(r)
    ensures RegsOk(r')
  {
    r.(length := seq(4, c requires 0 <= c < 4 => if Shifted(v, c) % 2 == 0 then 0 else r.length[c]), enabled := v % 32)
  }

  // ---------- the frame sequencer ----------

  function LengthTick(length: nat, halt: bool): nat {
    if !halt && length > 0 then length - 1 else length
  }

  /** New frequency and sweep count of square channel `x`. */
  function Sweep(r: Regs, x: nat): (nat, nat)
    requires RegsOk(r) && x < 2
  {
    var reg, freq := r.psg[4 * x + 1], r.freq[x];
    var count := if r.sweepCount[x] > 0 then r.sweepCount[x] - 1 else r.sweepCount[x];
    var period := reg / 16 % 8 + 1;
    var mod := Shifted(freq, reg % 8);
    ShiftedAtMost(freq, reg % 8);
    var swept := if r.sweepOn[x] && reg % 8 != 0 && freq >= 8 then
                   (if reg / 8 % 2 == 1 then freq - (mod + (1 - x)) else if mod + freq < 0x800 then freq + mod else freq)
                 else freq;
    (if count == 0 then swept else freq, if count == 0 || r.sweepReload[x] then period else count)
  }

  lemma {:induction false} ShiftedAtMost(x: nat, k: nat)
    ensures Shifted(x, k) <= x && (k > 0 ==> Shifted(x, k) <= x / 2)
  {
    if k > 0 {
      ShiftedAtMost(x / 2, k - 1);
    }
  }

  lemma SweepInRange(r: Regs, x: nat)
    requires RegsOk(r) && x < 2
    ensures Sweep(r, x).0 < 0x800
  {
    ShiftedAtMost(r.freq[x], r.psg[4 * x + 1] % 8);
  }

  /** Length counters and sweeps, on every second tick. */
  function HalfFrame(r: Regs): (r': Regs)
    requires RegsOk(r)
    ensures RegsOk(r') && r'.psg == r.psg && r'.env == r.env
  {
    SweepInRange(r, 0);
    SweepInRange(r, 1);
    var length := [LengthTick(r.length[0], r.psg[0] / 32 % 2 == 1), LengthTick(r.length[1], r.psg[4] / 32 % 2 == 1),
                   LengthTick(r.length[2], r.psg[8] / 128 == 1), LengthTick(r.length[3], r.psg[12] / 32 % 2 == 1)];
    r.(length := length, freq := [Sweep(r, 0).0, Sweep(r, 1).0], sweepCount := [Sweep(r, 0).1, Sweep(r, 1).1],
       sweepReload := [false, false])
  }

  function EnvTick(env: Env): Env {
    if env.reload then env.(decVolume := 15, decCount := env.speed + 1, reload := false)
    else
      var count := if env.decCount > 0 then env.decCount - 1 else 0;
      if count > 0 then env.(decCount := count)
      else env.(decCount := env.speed + 1,
                decVolume := if env.decVolume > 0 || env.mode / 2 % 2 == 1 then (env.decVolume + 15) % 16 else env.decVolume)
  }

  /** FrameSoundStuff and the step of the sequencer. */
  function FrameRegs(r: Regs): (r': Regs)
    requires RegsOk(r)
    ensures RegsOk(r')
  {
    var r1 := if r.fcnt % 2 == 0 then HalfFrame(r) else r;
    r1.(triCount := if r.triMode then r.psg[8] % 128 else if r.triCount > 0 then r.triCount - 1 else 0,
        triMode := r.triMode && r.psg[8] / 128 == 1,
        env := [EnvTick(r.env[0]), EnvTick(r.env[1]), EnvTick(r.env[2])],
        fcnt := (r.fcnt + 1) % 4)
  }

  // ---------- what a tick does, counter by counter ----------

  /** The halt bit of a length counter. */
  predicate Halted(r: Regs, c: nat)
    requires RegsOk(r) && c < 4
  {
    if c == 2 then r.psg[8] / 128 == 1 else r.psg[4 * c] / 32 % 2 == 1
  }

  /** On even ticks a length counter that is not halted goes down to 0; otherwise it stays. */
  predicate LengthsTicked(r: Regs, r': Regs)
    requires RegsOk(r) && RegsOk(r')
  {
    forall c: nat | c < 4 :: r'.length[c] == r.length[c] - if r.fcnt % 2 == 0 && !Halted(r, c) && r.length[c] > 0 then 1 else 0
  }

  /** The linear counter is loaded or goes down to 0; loading ends unless the control bit is set. */
  predicate LinearTicked(r: Regs, r': Regs)
    requires RegsOk(r) && RegsOk(r')
  {
    && (r.triMode ==> r'.triCount == r.psg[8] % 128)
    && (!r.triMode ==> r'.triCount == if r.triCount > 0 then r.triCount - 1 else 0)
    && (r'.triMode <==> r.triMode && r.psg[8] >= 128)
  }

  /** On even ticks the sweep counter goes down, and when it runs out the period moves by its 2^shift-th part,
      down by one more for the first channel, or up if that fits into eleven bits. */
  predicate SweepTicked(r: Regs, r': Regs, x: nat)
    requires RegsOk(r) && RegsOk(r') && x < 2
  {
    var reg, freq := r.psg[4 * x + 1], r.freq[x];
    var part := freq / Bits.Pow2(reg % 8);
    var due := r.fcnt % 2 == 0 && r.sweepCount[x] <= 1;
    && (if due && r.sweepOn[x] && reg % 8 != 0 && freq >= 8 then
          (if reg / 8 % 2 == 1 then r'.freq[x] == freq - part - (if x == 0 then 1 else 0)
           else r'.freq[x] == if freq + part < 0x800 then freq + part else freq)
        else r'.freq[x] == freq)
    && (if r.fcnt % 2 != 0 then r'.sweepCount[x] == r.sweepCount[x] && r'.sweepReload[x] == r.sweepReload[x]
        else !r'.sweepReload[x]
             && r'.sweepCount[x] == if due || r.sweepReload[x] then reg / 16 % 8 + 1 else r.sweepCount[x] - 1)
  }

  /** A restarted envelope is at full volume; another one steps down every speed + 1 ticks, and from 0 back to
      15 if it loops. */
  predicate EnvelopeTicked(env: Env, env': Env) {
    && env'.speed == env.speed && env'.mode == env.mode && !env'.reload
    && (env.reload ==> env'.decVolume == 15 && env'.decCount == env.speed + 1)
    && (!env.reload && env.decCount > 1 ==> env'.decVolume == env.decVolume && env'.decCount == env.decCount - 1)
    && (!env.reload && env.decCount <= 1 ==>
          && env'.decCount == env.speed + 1
          && env'.decVolume == if env.decVolume > 0 then env.decVolume - 1 else if env.mode / 2 % 2 == 1 then 15 else 0)
  }

  predicate Ticked(r: Regs, r': Regs)
    requires RegsOk(r) && RegsOk(r')
  {
    && LengthsTicked(r, r') && LinearTicked(r, r') && SweepTicked(r, r', 0) && SweepTicked(r, r', 1)
    && (forall k: nat | k < 3 :: EnvelopeTicked(r.env[k], r'.env[k]))
    && r'.fcnt == (r.fcnt + 1) % 4 && r'.psg == r.psg && r'.enabled == r.enabled && r'.sweepOn == r.sweepOn
  }

  lemma {:induction false} ShiftedIs(x: nat, k: nat)
    ensures Shifted(x, k) == x / Bits.Pow2(k)
  {
    if k > 0 {
      ShiftedIs(x / 2, k - 1);
      Bits.DivDiv(x, 2, Bits.Pow2(k - 1));
    }
  }

  /** A status write silences the channels whose bit is clear and notes the bits. */
  predicate StatusWritten(r: Regs, r': Regs, v: Byte)
    requires RegsOk(r) && RegsOk(r')
  {
    && (forall c: nat | c < 4 :: r'.length[c] == if v / Bits.Pow2(c) % 2 == 0 then 0 else r.length[c])
    && r' == r.(length := r'.length, enabled := v % 32)
  }

  lemma StatusIs(r: Regs, v: Byte)
    requires RegsOk(r)
    ensures StatusWritten(r, StatusRegs(r, v), v)
  {
    forall c: nat | c < 4
      ensures Shifted(v, c) == v / Bits.Pow2(c)
    {
      ShiftedIs(v, c);
    }
    hide Shifted, Bits.Pow2;
  }

  lemma SweepIs(r: Regs, x: nat)
    requires RegsOk(r) && x < 2
    ensures SweepTicked(r, FrameRegs(r), x)
  {
    ShiftedIs(r.freq[x], r.psg[4 * x + 1] % 8);
    ShiftedAtMost(r.freq[x], r.psg[4 * x + 1] % 8);
    hide Shifted, EnvTick, LengthTick;
  }

  lemma EnvelopeIs(env: Env)
    requires env.decVolume < 16
    ensures EnvelopeTicked(env, EnvTick(env))
  {
  }

  lemma FrameIs(r: Regs)
    requires RegsOk(r)
    ensures Ticked(r, FrameRegs(r))
  {
    SweepIs(r, 0);
    SweepIs(r, 1);
    EnvelopeIs(r.env[0]);
    EnvelopeIs(r.env[1]);
    EnvelopeIs(r.env[2]);
    hide SweepTicked, Sweep, EnvTick, EnvelopeTicked;
  }

  /** Write_IRQFM: restarts the sequencer, with an immediate tick in the five-step mode. */
  function FrameModeRegs(r: Regs, v: Byte): (r': Regs)
    requires RegsOk(r)
    ensures RegsOk(r')
  {
    var r0 := r.(fcnt := 0);
    (if v / 128 == 1 then FrameRegs(r0) else r0).(fcnt := 1)
  }

  // ---------- which channel hears what ----------

  /** The channel that reads register `a`, if any: 4 stands for none. */
  function Listener(a: nat): nat {
    if a < 4 then 0 else if a < 8 then 1 else if a == 10 || a == 11 then 2
    else if a == 12 || a == 14 || a == 15 then 3 else 4
  }

  /** All that a channel's view is made from. */
  predicate SameFor(r: Regs, r': Regs, c: nat)
    requires RegsOk(r) && RegsOk(r') && c < 4
  {
    && r.length[c] == r'.length[c]
    && (c < 2 ==> r.freq[c] == r'.freq[c] && r.psg[4 * c] == r'.psg[4 * c] && r.psg[4 * c + 1] == r'.psg[4 * c + 1]
                  && r.env[c] == r'.env[c])
    && (c == 2 ==> r.triCount == r'.triCount && r.psg[10] == r'.psg[10] && r.psg[11] == r'.psg[11])
    && (c == 3 ==> r.psg[14] == r'.psg[14] && r.env[2] == r'.env[2])
  }

  lemma SameView(s: Settings, r: Regs, r': Regs, c: nat)
    requires RegsOk(r) && RegsOk(r') && c < 4 && SameFor(r, r', c)
    ensures ViewOf(s, r, c) == ViewOf(s, r', c)
  {
  }

  /** A register write leaves every other channel's view and oscillator alone. */
  lemma OthersUnheard(s: Settings, r: Regs, osc: seq<Osc>, a: nat, v: Byte, c: nat)
    requires RegsOk(r) && |osc| == 4 && a < 16 && c < 4 && c != Listener(a)
    ensures ViewOf(s, PsgRegs(s, r, a, v), c) == ViewOf(s, r, c) && PsgOsc(osc, a)[c] == osc[c]
  {
    hide ViewOf, FreqLow, FreqHigh, SwapDuty, EnvWritten, LengthLoaded;
    LengthLoadedElsewhere(r, 2, v, c);
    LengthLoadedElsewhere(r, 3, v, c);
    LengthLoadedElsewhere(r, 0, v, c);
    LengthLoadedElsewhere(r, 1, v, c);
    SameView(s, r, PsgRegs(s, r, a, v), c);
  }

  lemma LengthLoadedElsewhere(r: Regs, k: nat, v: Byte, c: nat)
    requires RegsOk(r) && k < 4 && c < 4
    ensures |LengthLoaded(r, k, v)| == 4 && (c != k ==> LengthLoaded(r, k, v)[c] == r.length[c])
  {
  }

  // ---------- the wave buffer ----------

  /** Adds a stretch of samples to the buffer, as 32-bit numbers. */
  function Added(w: seq<int>, at: nat, xs: seq<int>): (w': seq<int>)
    ensures |w'| == |w|
  {
    seq(|w|, k requires 0 <= k < |w| => if at <= k < at + |xs| then (w[k] + xs[k - at]) % 0x1_0000_0000 else w[k])
  }

  lemma AddedNone(w: seq<int>, at: nat)
    ensures Added(w, at, []) == w
  {
  }

  lemma AddedOne(w: seq<int>, at: nat, xs: seq<int>, x: int)
    requires at + |xs| < |w|
    ensures Added(w, at, xs + [x]) == Added(w, at, xs)[at + |xs| := (w[at + |xs|] + x) % 0x1_0000_0000]
    ensures Added(w, at, xs)[at + |xs|] == w[at + |xs|]
  {
  }

  /** The buffer holds 32-bit words from there on. */
  predicate Words(w: seq<int>, from: nat) {
    forall k | from <= k < |w| :: 0 <= w[k] < 0x1_0000_0000
  }

  lemma AddedZeros(w: seq<int>, at: nat, xs: seq<int>)
    requires Words(w, at) && forall k | 0 <= k < |xs| :: xs[k] == 0
    ensures Added(w, at, xs) == w
  {
  }

  /** The loop of RDoSQ over the cycles from `at` to `upTo`. */
  method RenderSquare(waveHi: array<int>, at: nat, upTo: nat, o: Osc, v: View) returns (o': Osc)
    requires v.Square? && v.on && v.period > 0 && o.count > 0 && at <= upTo <= waveHi.Length && Words(waveHi[..], at)
    modifies waveHi
    ensures o' == Ticks(v, o, upTo - at) && waveHi[..] == Added(old(waveHi[..]), at, Outs(v, o, upTo - at))
  {
    hide Added;
    ghost var w := waveHi[..];
    var d, left := at, upTo - at;
    var duty: nat, rc: nat := o.phase, o.count;
    AddedNone(w, at);
    while left > 0
      invariant 0 <= left == upTo - d <= upTo - at && rc > 0
      invariant Osc(duty, rc) == Ticks(v, o, d - at)
      invariant waveHi[..] == Added(w, at, Outs(v, o, d - at))
    {
      AddedOne(w, at, Outs(v, o, d - at), Out(v, Osc(duty, rc)));
      if duty < v.threshold {
        waveHi[d] := (waveHi[d] + v.amp) % 0x1_0000_0000;
      }
      rc := rc - 1;
      if rc == 0 {
        rc := v.period;
        duty := (duty + 1) % 8;
      }
      left := left - 1;
      d := d + 1;
    }
    o' := Osc(duty, rc);
  }

  /** The two loops of RDoTriangle; a halted triangle keeps its level. */
  method RenderTriangle(waveHi: array<int>, at: nat, upTo: nat, o: Osc, v: View) returns (o': Osc)
    requires v.Triangle? && v.period > 0 && o.count > 0 && at <= upTo <= waveHi.Length
    modifies waveHi
    ensures o' == Ticks(v, o, upTo - at) && waveHi[..] == Added(old(waveHi[..]), at, Outs(v, o, upTo - at))
  {
    hide Added, TriangleLevel;
    ghost var w := waveHi[..];
    AddedNone(w, at);
    var level := TriangleLevel(o.phase, v.volume);
    var k := at;
    if !v.on {
      while k < upTo
        invariant at <= k <= upTo
        invariant waveHi[..] == Added(w, at, Outs(v, o, k - at))
      {
        HaltedTicks(v, o, k - at);
        AddedOne(w, at, Outs(v, o, k - at), level);
        waveHi[k] := (waveHi[k] + level) % 0x1_0000_0000;
        k := k + 1;
      }
      HaltedTicks(v, o, upTo - at);
      return o;
    }
    var step: nat, rc: nat := o.phase, o.count;
    while k < upTo
      invariant at <= k <= upTo && rc > 0 && level == TriangleLevel(step, v.volume)
      invariant Osc(step, rc) == Ticks(v, o, k - at)
      invariant waveHi[..] == Added(w, at, Outs(v, o, k - at))
    {
      AddedOne(w, at, Outs(v, o, k - at), level);
      waveHi[k] := (waveHi[k] + level) % 0x1_0000_0000;
      rc := rc - 1;
      if rc == 0 {
        rc := v.period;
        step := step + 1;
        level := TriangleLevel(step, v.volume);
      }
      k := k + 1;
    }
    o' := Osc(step, rc);
  }

  /** The loop of RDoNoise; a silenced channel keeps shifting. */
  method RenderNoise(waveHi: array<int>, at: nat, upTo: nat, o: Osc, v: View) returns (o': Osc)
    requires v.Noise? && v.period > 0 && o.count > 0 && at <= upTo <= waveHi.Length
    modifies waveHi
    ensures o' == Ticks(v, o, upTo - at) && waveHi[..] == Added(old(waveHi[..]), at, Outs(v, o, upTo - at))
  {
    hide Added, NextNoise;
    ghost var w := waveHi[..];
    AddedNone(w, at);
    var amp := if v.on then v.amp else 0;
    var reg: nat, rc: nat := o.phase, o.count;
    var out := if reg / 0x4000 % 2 == 1 then 0 else amp;
    var k := at;
    while k < upTo
      invariant at <= k <= upTo && rc > 0 && out == if reg / 0x4000 % 2 == 1 then 0 else amp
      invariant Osc(reg, rc) == Ticks(v, o, k - at)
      invariant waveHi[..] == Added(w, at, Outs(v, o, k - at))
    {
      AddedOne(w, at, Outs(v, o, k - at), out);
      waveHi[k] := (waveHi[k] + out) % 0x1_0000_0000;
      rc := rc - 1;
      if rc == 0 {
        rc := v.period;
        reg := NextNoise(reg, v.short);
        out := if reg / 0x4000 % 2 == 1 then 0 else amp;
      }
      k := k + 1;
    }
    o' := Osc(reg, rc);
  }

  // ---------- events ----------

  datatype Event =
    | Pass(n: nat)
    | Psg(a: nat, v: Byte)
    | Status(v: Byte)
    | Tick
    | FrameMode(v: Byte)
    | Flush(left: nat)

  predicate EventOk(ev: Event) {
    ev.Psg? ==> ev.a < 16
  }

  /** The twin that runs every cycle; handing samples on is no concern of its. */
  function EagerStep(s: Settings, e: Eager, ev: Event): (e': Eager)
    requires EagerOk(s, e) && EventOk(ev)
    ensures EagerOk(s, e')
  {
    match ev
    case Pass(n) => EagerPass(s, e, n)
    case Psg(a, v) => e.(regs := PsgRegs(s, e.regs, a, v), osc := PsgOsc(e.osc, a))
    case Status(v) => e.(regs := StatusRegs(e.regs, v))
    case Tick => e.(regs := FrameRegs(e.regs))
    case FrameMode(v) => e.(regs := FrameModeRegs(e.regs, v))
    case Flush(_) => e
  }

  function EagerRun(s: Settings, e: Eager, es: seq<Event>): (e': Eager)
    requires EagerOk(s, e) && forall k | 0 <= k < |es| :: EventOk(es[k])
    ensures EagerOk(s, e')
  {
    if es == [] then e else EagerStep(s, EagerRun(s, e, es[..|es| - 1]), es[|es| - 1])
  }

  // ---------- how far behind a lazily rendered channel is ----------

  /** With `n` more cycles under the present view the channel reaches its eagerly run twin, whose
      output from `from` on is what those cycles would put out. */
  ghost predicate Behind(v: View, o: Osc, from: nat, n: nat, twin: Osc, out: seq<int>) {
    && v.period > 0 && o.count > 0 && |out| == from + n
    && twin == Ticks(v, o, n) && out[from..] == Outs(v, o, n)
  }

  lemma CaughtUp(v: View, o: Osc, from: nat, n: nat, twin: Osc, out: seq<int>)
    requires Behind(v, o, from, n, twin, out)
    ensures Behind(v, Ticks(v, o, n), from + n, 0, twin, out)
  {
  }

  lemma FurtherBehind(v: View, o: Osc, from: nat, n: nat, twin: Osc, out: seq<int>, m: nat)
    requires Behind(v, o, from, n, twin, out)
    ensures Behind(v, o, from, n + m, Ticks(v, twin, m), out + Outs(v, twin, m))
  {
    StretchesJoin(v, o, n, m);
    assert (out + Outs(v, twin, m))[from..] == out[from..] + Outs(v, twin, m);
  }

  /** A channel that is not behind may change in any way its twin does. */
  lemma ChangedTogether(v: View, o: Osc, from: nat, twin: Osc, out: seq<int>, v': View, o': Osc)
    requires Behind(v, o, from, 0, twin, out) && v'.period > 0 && o'.count > 0
    ensures o == twin && Behind(v', o', from, 0, o', out)
  {
  }

  // ---------- what has been heard ----------

  function Part(out: seq<int>, base: nat, upTo: nat, k: nat): int {
    if k < upTo && base + k < |out| then out[base + k] else 0
  }

  function Heard(outs: seq<seq<int>>, base: nat, bc: seq<nat>, k: nat): int
    requires |outs| == |bc| == 4
  {
    Part(outs[0], base, bc[0], k) + Part(outs[1], base, bc[1], k)
    + Part(outs[2], base, bc[2], k) + Part(outs[3], base, bc[3], k)
  }

  lemma WaveWords(w: seq<int>, offs: nat, base: nat, bc: seq<nat>, outs: seq<seq<int>>, at: nat)
    requires |outs| == |bc| == 4 && WaveOk(w, offs, base, bc, outs) && offs <= at
    ensures Words(w, at)
  {
    hide Heard;
  }

  ghost predicate WaveOk(w: seq<int>, offs: nat, base: nat, bc: seq<nat>, outs: seq<seq<int>>)
    requires |outs| == |bc| == 4
  {
    forall k | offs <= k < |w| :: w[k] == Heard(outs, base, bc, k) % 0x1_0000_0000
  }

  lemma ModSum(a: int, x: int)
    ensures (a % 0x1_0000_0000 + x) % 0x1_0000_0000 == (a + x) % 0x1_0000_0000
  {
    Bits.DivAddMultiple(a % 0x1_0000_0000 + x, 0x1_0000_0000, a / 0x1_0000_0000);
    assert a == a / 0x1_0000_0000 * 0x1_0000_0000 + a % 0x1_0000_0000;
  }

  lemma HeardMore(outs: seq<seq<int>>, base: nat, bc: seq<nat>, c: nat, now: nat, k: nat)
    requires |outs| == |bc| == 4 && c < 4 && bc[c] <= now && |outs[c]| == base + now
    ensures Heard(outs, base, bc[c := now], k)
         == Heard(outs, base, bc, k) + if bc[c] <= k < now then outs[c][base + k] else 0
  {
  }

  /** Adding the missing stretch of one channel. */
  lemma StretchHeard(w: seq<int>, offs: nat, base: nat, bc: seq<nat>, outs: seq<seq<int>>, c: nat, now: nat)
    requires |outs| == |bc| == 4 && c < 4 && offs <= bc[c] <= now <= |w| && |outs[c]| == base + now
    requires WaveOk(w, offs, base, bc, outs)
    ensures WaveOk(Added(w, bc[c], outs[c][base + bc[c]..]), offs, base, bc[c := now], outs)
  {
    hide Heard;
    var xs := outs[c][base + bc[c]..];
    var w' := Added(w, bc[c], xs);
    forall k | offs <= k < |w'|
      ensures w'[k] == Heard(outs, base, bc[c := now], k) % 0x1_0000_0000
    {
      HeardMore(outs, base, bc, c, now, k);
      if bc[c] <= k < now {
        assert xs[k - bc[c]] == outs[c][base + k];
        ModSum(Heard(outs, base, bc, k), xs[k - bc[c]]);
      }
    }
  }

  /** More output that has not been rendered changes nothing. */
  lemma UnrenderedUnheard(w: seq<int>, offs: nat, base: nat, bc: seq<nat>, outs: seq<seq<int>>, outs': seq<seq<int>>)
    requires |outs| == |bc| == |outs'| == 4 && WaveOk(w, offs, base, bc, outs)
    requires forall c | 0 <= c < 4 :: base + bc[c] <= |outs[c]| && outs[c] <= outs'[c]
    ensures WaveOk(w, offs, base, bc, outs')
  {
    forall k | offs <= k < |w|
      ensures Heard(outs', base, bc, k) == Heard(outs, base, bc, k)
    {
    }
  }

  // ---------- mixing ----------

  /** What a channel can put out: squares in bits 24 and up, triangle and noise in bits 16 to 23. */
  predicate Sample(c: nat, x: int) {
    if c < 2 then x % 0x100_0000 == 0 && 0 <= x <= 15 * 0x100_0000
    else x % 0x1_0000 == 0 && 0 <= x <= (if c == 2 then 45 else 30) * 0x1_0000
  }

  lemma AmplitudeRange(env: Env, volume: Volume)
    requires env.speed < 16 && env.decVolume < 16
    ensures 0 <= Amplitude(env, volume) <= 15
  {
    var amp := if env.mode % 2 == 1 then env.speed else env.decVolume;
    Scaled(amp, volume, 15);
  }

  lemma Scaled(x: nat, volume: Volume, most: nat)
    requires x <= most
    ensures 0 <= x * volume / 256 <= most && 0 <= x * volume <= most * 256
  {
    Bits.TimesSum(x, most - x, volume);
    Bits.TimesSum(volume, 256 - volume, most);
    Bits.TimesCommutes(volume, most);
    assert x * volume <= most * volume by {
      Bits.TimesCommutes(most - x, volume);
      Bits.NotNegative(most - x, volume);
    }
    Bits.NotNegative(256 - volume, most);
    Bits.NotNegative(x, volume);
  }

  lemma TriangleRange(step: nat, volume: Volume)
    ensures Sample(2, TriangleLevel(step, volume))
  {
    var d := TriangleDigit(step);
    assert d * 3 * 0x1_0000 / 256 == 768 * d;
    Scaled(768 * d, volume, 768 * 15);
  }

  lemma SampleRange(s: Settings, r: Regs, c: nat, o: Osc)
    requires RegsOk(r) && c < 4
    ensures Sample(c, Out(ViewOf(s, r, c), o))
  {
    hide Amplitude, TriangleLevel, CheckFreq;
    if c == 2 {
      TriangleRange(o.phase, s.triangle);
    } else if c == 3 {
      AmplitudeRange(r.env[2], s.noise);
      NoiseSample(Amplitude(r.env[2], s.noise));
    } else {
      AmplitudeRange(r.env[c], if c == 1 then s.square2 else s.square1);
    }
  }

  lemma NoiseSample(amp: int)
    requires 0 <= amp <= 15
    ensures Sample(3, amp * 0x2_0000) && Sample(3, 0)
  {
    Bits.DivUnique(amp * 0x2_0000, 0x1_0000, 2 * amp, 0);
  }

  ghost predicate SamplesOk(outs: seq<seq<int>>)
    requires |outs| == 4
  {
    forall c: nat, k | c < 4 && 0 <= k < |outs[c]| :: Sample(c, outs[c][k])
  }

  lemma {:induction false} EagerSamples(s: Settings, e: Eager, n: nat)
    requires EagerOk(s, e) && SamplesOk(e.outs)
    ensures SamplesOk(EagerPass(s, e, n).outs)
  {
    if n > 0 {
      EagerSamples(s, e, n - 1);
      var e1 := EagerPass(s, e, n - 1);
      SampleRange(s, e.regs, 0, e1.osc[0]);
      SampleRange(s, e.regs, 1, e1.osc[1]);
      SampleRange(s, e.regs, 2, e1.osc[2]);
      SampleRange(s, e.regs, 3, e1.osc[3]);
      hide Sample, Out, ViewOf, Next;
    }
  }

  /** Mixing tables for the sum of the squares and for triangle, noise and the sample channel. */
  function Lookup1(x: int): int {
    1565000 * x / (8128 + 100 * x)
  }

  function Lookup2(x: int): int {
    2681569 * x / (24329 + 100 * x)
  }

  /** The three fields of a packed sum are mixed separately. */
  function MixWord(b: int): int {
    b % 0x1_0000 + Lookup2(b / 0x1_0000 % 256) + Lookup1(b / 0x100_0000)
  }

  /** Sums of samples never carry from one field into the next, even with seven bits of the sample
      channel added, and stay inside the two tables of 32 and 203 entries. */
  lemma NoCarry(square1: int, square2: int, triangle: int, noise: int, pcm: int)
    requires Sample(0, square1) && Sample(1, square2) && Sample(2, triangle) && Sample(3, noise) && 0 <= pcm < 128
    ensures var b := square1 + square2 + triangle + noise + pcm * 0x1_0000;
            && 0 <= b < 0x1_0000_0000
            && b / 0x100_0000 == square1 / 0x100_0000 + square2 / 0x100_0000 < 32
            && b / 0x1_0000 % 256 == triangle / 0x1_0000 + noise / 0x1_0000 + pcm < 203
            && b % 0x1_0000 == 0
  {
    var squares := square1 / 0x100_0000 + square2 / 0x100_0000;
    var rest := triangle / 0x1_0000 + noise / 0x1_0000 + pcm;
    var b := square1 + square2 + triangle + noise + pcm * 0x1_0000;
    assert b == 0x100_0000 * squares + 0x1_0000 * rest;
    Bits.DivUnique(b, 0x100_0000, squares, 0x1_0000 * rest);
    Bits.DivUnique(b, 0x1_0000, 256 * squares + rest, 0);
    Bits.DivUnique(256 * squares + rest, 256, squares, rest);
  }

  /** The mixed sample of one cycle. */
  function Mixed(outs: seq<seq<int>>, t: nat): int
    requires |outs| == 4
  {
    MixWord(Heard(outs, t, [1, 1, 1, 1], 0))
  }

  function MixedFrom(outs: seq<seq<int>>, from: nat, to: nat): seq<int>
    requires |outs| == 4 && from <= to
  {
    seq(to - from, i requires 0 <= i < to - from => Mixed(outs, from + i))
  }

  class Apu {
    const s: Settings
    var regs: Regs
    /** RectDutyCount, tristep or nreg, and wlcount, of each channel. */
    var osc: seq<Osc>
    /** ChannelBC: how far each channel has been rendered. */
    var bc: seq<nat>
    /** SOUNDTS, and the place in the buffer where the samples not yet handed on begin. */
    var now: nat
    var offs: nat
    const waveHi: array<int>
    /** The number of cycles before the start of the buffer, and the twin that runs every cycle. */
    ghost var base: nat
    ghost var eager: Eager

    ghost predicate Valid()
      reads this, waveHi
    {
      && RegsOk(regs) && |osc| == |bc| == 4 && EagerOk(s, eager) && eager.regs == regs
      && offs <= now <= waveHi.Length
      && (forall c | 0 <= c < 4 ::
            && offs <= bc[c] <= now
            && Behind(ViewOf(s, regs, c), osc[c], base + bc[c], now - bc[c], eager.osc[c], eager.outs[c]))
      && WaveOk(waveHi[..], offs, base, bc, eager.outs) && SamplesOk(eager.outs)
    }

    lemma Facts()
      requires Valid()
      ensures EagerOk(s, eager) && |eager.outs| == 4 && offs <= now <= waveHi.Length
      ensures forall c | 0 <= c < 4 :: base + offs <= |eager.outs[c]|
    {
      OutputReaches(s, eager, osc, regs, base, bc, now, offs);
    }

    /** RDoSQ, RDoTriangle and RDoNoise: brings channel `c` up to now. */
    method CatchUp(c: nat)
      requires Valid() && c < 4
      modifies this`osc, this`bc, waveHi
      ensures Valid() && bc == old(bc)[c := now] && osc == old(osc)[c := eager.osc[c]]
      ensures waveHi[..offs] == old(waveHi[..offs])
    {
      hide Ticks, Outs, WaveOk, SamplesOk, ViewOf, Words;
      ghost var w, xs := waveHi[..], eager.outs[c][base + bc[c]..];
      WaveWords(waveHi[..], offs, base, bc, eager.outs, bc[c]);
      var o := Render(c);
      StretchHeard(w, offs, base, bc, eager.outs, c, now);
      CaughtUp(ViewOf(s, regs, c), osc[c], base + bc[c], now - bc[c], eager.osc[c], eager.outs[c]);
      osc := osc[c := o];
      bc := bc[c := now];
      assert waveHi[..offs] == w[..offs];
    }

    /** The rendering itself, chosen by channel. */
    method Render(c: nat) returns (o: Osc)
      requires Valid() && c < 4 && Words(waveHi[..], bc[c])
      modifies waveHi
      ensures o == eager.osc[c] && waveHi[..] == Added(old(waveHi[..]), bc[c], eager.outs[c][base + bc[c]..])
    {
      hide WaveOk, SamplesOk, Ticks, Outs, Added, Words;
      var v := ViewOf(s, regs, c);
      ViewKind(s, regs, c);
      hide ViewOf;
      if c < 2 {
        if !v.on {
          MutedTicks(v, osc[c], now - bc[c]);
          AddedZeros(waveHi[..], bc[c], Outs(v, osc[c], now - bc[c]));
          return osc[c];
        }
        o := RenderSquare(waveHi, bc[c], now, osc[c], v);
      } else if c == 2 {
        o := RenderTriangle(waveHi, bc[c], now, osc[c], v);
      } else {
        o := RenderNoise(waveHi, bc[c], now, osc[c], v);
      }
    }

    /** Power-up; RectDutyCount is whatever it was. */
    constructor (s: Settings, length: nat, duty1: nat, duty2: nat)
      ensures Valid() && fresh(waveHi) && waveHi.Length == length && now == 0 && offs == 0 && base == 0
      ensures eager == PowerUp(duty1, duty2) && this.s == s
    {
      this.s := s;
      regs := PowerUp(duty1, duty2).regs;
      osc := PowerUp(duty1, duty2).osc;
      bc, now, offs, base := [0, 0, 0, 0], 0, 0, 0;
      eager := PowerUp(duty1, duty2);
      waveHi := new int[length](_ => 0);
      new;
      NothingBehind(s, eager, 0);
      assert forall k | 0 <= k < |waveHi[..]| :: waveHi[..][k] == 0;
      NothingHeard(waveHi[..], 0, 0, bc, eager.outs);
    }

    /** Time goes by; nothing is rendered. */
    method Pass(n: nat)
      requires Valid() && now + n <= waveHi.Length
      modifies this`now, this`eager
      ensures Valid() && now == old(now) + n && eager == EagerPass(s, old(eager), n)
    {
      hide Behind, WaveOk, SamplesOk, EagerPass, ViewOf;
      forall c: nat | c < 4
        ensures var e := EagerPass(s, eager, n);
                && |e.outs| == 4 && eager.outs[c] <= e.outs[c] && base + bc[c] <= |eager.outs[c]|
                && Behind(ViewOf(s, regs, c), osc[c], base + bc[c], now - bc[c] + n, e.osc[c], e.outs[c])
      {
        PassBehind(s, eager, n, c, osc[c], base + bc[c], now - bc[c]);
      }
      EagerSamples(s, eager, n);
      UnrenderedUnheard(waveHi[..], offs, base, bc, eager.outs, EagerPass(s, eager, n).outs);
      now := now + n;
      eager := EagerPass(s, eager, n);
    }

    method CatchUpAll()
      requires Valid()
      modifies this`osc, this`bc, waveHi
      ensures Valid() && bc == [now, now, now, now] && osc == eager.osc
      ensures waveHi[..offs] == old(waveHi[..offs])
    {
      hide Behind, WaveOk, SamplesOk, ViewOf;
      CatchUp(0);
      CatchUp(1);
      CatchUp(2);
      CatchUp(3);
      assert |eager.osc| == 4;
    }

    /** Write_PSG: the channel that hears the register is brought up to now before it changes. */
    method WritePsg(a: nat, v: Byte)
      requires Valid() && a < 16
      modifies this`regs, this`osc, this`bc, this`eager, waveHi
      ensures Valid() && eager == EagerStep(s, old(eager), Psg(a, v)) && waveHi[..offs] == old(waveHi[..offs])
    {
      hide Behind, WaveOk, SamplesOk, ViewOf, PsgRegs, PsgOsc;
      CatchUpListener(a);
      PsgBehindAll(s, eager, a, v, osc, bc, base, now);
      regs := PsgRegs(s, regs, a, v);
      osc := PsgOsc(osc, a);
      eager := eager.(regs := regs, osc := PsgOsc(eager.osc, a));
    }

    method CatchUpListener(a: nat)
      requires Valid() && a < 16
      modifies this`osc, this`bc, waveHi
      ensures Valid() && waveHi[..offs] == old(waveHi[..offs])
      ensures Listener(a) < 4 ==> bc[Listener(a)] == now && osc[Listener(a)] == eager.osc[Listener(a)]
    {
      hide Behind, WaveOk, SamplesOk, ViewOf;
      if a < 4 {
        CatchUp(0);
      } else if a < 8 {
        CatchUp(1);
      } else if a == 10 || a == 11 {
        CatchUp(2);
      } else if a == 12 || a == 14 || a == 15 {
        CatchUp(3);
      }
    }

    /** StatusWrite, and the ticks of the frame sequencer: every channel is brought up to now. */
    method StatusWrite(v: Byte)
      requires Valid()
      modifies this`regs, this`osc, this`bc, this`eager, waveHi
      ensures Valid() && eager == EagerStep(s, old(eager), Status(v)) && waveHi[..offs] == old(waveHi[..offs])
      ensures StatusWritten(old(regs), regs, v)
    {
      StatusIs(regs, v);
      hide Behind, WaveOk, SamplesOk, ViewOf, StatusRegs, StatusWritten;
      CatchUpAll();
      AllBehind(s, eager, StatusRegs(regs, v), base + now);
      regs := StatusRegs(regs, v);
      eager := eager.(regs := regs);
    }

    method FrameSoundUpdate()
      requires Valid()
      modifies this`regs, this`osc, this`bc, this`eager, waveHi
      ensures Valid() && eager == EagerStep(s, old(eager), Tick) && waveHi[..offs] == old(waveHi[..offs])
      ensures Ticked(old(regs), regs)
    {
      FrameIs(regs);
      hide Behind, WaveOk, SamplesOk, ViewOf, FrameRegs, Ticked;
      CatchUpAll();
      AllBehind(s, eager, FrameRegs(regs), base + now);
      regs := FrameRegs(regs);
      eager := eager.(regs := regs);
    }

    /** Write_IRQFM; the restart of the sequencer alone needs no catching up. */
    method WriteIrqFm(v: Byte)
      requires Valid()
      modifies this`regs, this`osc, this`bc, this`eager, waveHi
      ensures Valid() && eager == EagerStep(s, old(eager), FrameMode(v)) && waveHi[..offs] == old(waveHi[..offs])
    {
      hide Behind, WaveOk, SamplesOk, ViewOf, FrameRegs;
      SetFcnt(0);
      if v / 128 == 1 {
        FrameSoundUpdate();
      }
      SetFcnt(1);
    }

    method SetFcnt(n: nat)
      requires Valid()
      modifies this`regs, this`eager
      ensures Valid() && eager == old(eager).(regs := old(eager).regs.(fcnt := n))
    {
      hide Behind, WaveOk, SamplesOk, ViewOf;
      forall c: nat | c < 4
        ensures ViewOf(s, regs.(fcnt := n), c) == ViewOf(s, regs, c)
      {
        SameView(s, regs, regs.(fcnt := n), c);
      }
      regs := regs.(fcnt := n);
      eager := eager.(regs := regs);
    }

    /** FlushEmulateSound: everything is brought up to now and mixed; the last `left` samples move to the
        front of the buffer for the resampler. Without any time gone by nothing happens. */
    method Flush(left: nat) returns (mixed: seq<int>)
      requires Valid() && left <= now
      modifies this`osc, this`bc, this`now, this`offs, this`base, waveHi
      ensures Valid() && now == offs && base + offs == old(base) + old(now)
      ensures mixed == MixedFrom(eager.outs, old(base) + old(offs), base + offs)
      ensures old(now) == old(offs) ==> now == old(now)
      ensures old(now) > old(offs) ==> now == left && forall k | 0 <= k < left ::
                waveHi[k] == (old(waveHi[..offs]) + mixed)[old(now) - left + k]
    {
      hide Behind, WaveOk, SamplesOk, ViewOf, MixedFrom;
      MixedNone(eager.outs, base + offs);
      if now == offs {
        return [];
      }
      mixed := Finish();
      Restart(left);
    }

    /** Brings everything up to now and mixes it in place. */
    method Finish() returns (mixed: seq<int>)
      requires Valid()
      modifies this`osc, this`bc, waveHi
      ensures RegsOk(regs) && EagerOk(s, eager) && eager.regs == regs && osc == eager.osc && SamplesOk(eager.outs)
      ensures offs <= now <= waveHi.Length && forall c | 0 <= c < 4 :: |eager.outs[c]| == base + now
      ensures mixed == MixedFrom(eager.outs, base + offs, base + now)
      ensures waveHi[..now] == old(waveHi[..offs]) + mixed
    {
      hide Behind, WaveOk, SamplesOk, ViewOf, MixedFrom;
      CatchUpAll();
      LengthsAre(s, eager, osc, regs, base, now);
      mixed := MixBuffer(waveHi, offs, now, base, eager.outs);
    }

    /** Everything has been rendered and mixed: the buffer starts afresh behind the samples kept. */
    method Restart(left: nat)
      requires RegsOk(regs) && EagerOk(s, eager) && eager.regs == regs && osc == eager.osc && SamplesOk(eager.outs)
      requires left <= now <= waveHi.Length && forall c | 0 <= c < 4 :: |eager.outs[c]| == base + now
      modifies this`bc, this`now, this`offs, this`base, waveHi
      ensures Valid() && now == offs == left && base + left == old(base) + old(now)
      ensures forall k | 0 <= k < left :: waveHi[k] == old(waveHi[..now])[old(now) - left + k]
    {
      hide Behind, WaveOk, SamplesOk, ViewOf;
      ShiftDown(waveHi, now, left);
      NothingBehind(s, eager, base + now);
      base := base + now - left;
      now := left;
      offs := left;
      bc := [left, left, left, left];
      NothingHeard(waveHi[..], left, base, bc, eager.outs);
    }

    /** One event; returns the samples handed on. */
    method Handle(ev: Event) returns (mixed: seq<int>)
      requires Valid() && Fits(now, offs, [ev], waveHi.Length)
      modifies this`regs, this`osc, this`bc, this`now, this`offs, this`base, this`eager, waveHi
      ensures Valid() && eager == EagerStep(s, old(eager), ev)
      ensures (now, offs) == TimesAfter(old(now), old(offs), ev)
      ensures base + offs >= old(base) + old(offs)
      ensures !ev.Flush? ==> base == old(base) && waveHi[..offs] == old(waveHi[..offs])
      ensures mixed == MixedFrom(eager.outs, old(base) + old(offs), base + offs)
    {
      hide Behind, WaveOk, SamplesOk, ViewOf, MixedFrom;
      MixedNone(eager.outs, base + offs);
      mixed := [];
      match ev {
        case Pass(n) => Pass(n);
        case Psg(a, v) => WritePsg(a, v);
        case Status(v) => StatusWrite(v);
        case Tick => FrameSoundUpdate();
        case FrameMode(v) => WriteIrqFm(v);
        case Flush(left) => mixed := Flush(left);
      }
      MixedNone(eager.outs, base + offs);
    }

    /** Any sequence of events: the lazily rendered channels are always a catch-up away from the twin
        that runs every cycle, and the samples handed on are exactly the mix of the twin's output. */
    method Run(es: seq<Event>) returns (mixed: seq<int>)
      requires Valid() && Fits(now, offs, es, waveHi.Length)
      modifies this`regs, this`osc, this`bc, this`now, this`offs, this`base, this`eager, waveHi
      ensures Valid() && FitsOk(es) && eager == EagerRun(s, old(eager), es)
      ensures base + offs >= old(base) + old(offs)
      ensures mixed == MixedFrom(eager.outs, old(base) + old(offs), base + offs)
    {
      hide Behind, WaveOk, SamplesOk, ViewOf, MixedFrom, EagerStep, TimesAfter, Fits;
      FitsEvents(now, offs, es, waveHi.Length);
      ghost var start := base + offs;
      MixedNone(eager.outs, start);
      mixed := [];
      assert es[..0] == [] && es[0..] == es;
      for i := 0 to |es|
        invariant Valid() && Fits(now, offs, es[i..], waveHi.Length) && base + offs >= start
        invariant eager == EagerRun(s, old(eager), es[..i])
        invariant mixed == MixedFrom(eager.outs, start, base + offs)
      {
        ghost var e, mid := eager, base + offs;
        OutputReaches(s, e, osc, regs, base, bc, now, offs);
        FitsFirst(now, offs, es[i..], waveHi.Length);
        var more := Handle(es[i]);
        assert es[i..][0] == es[i] && es[i..][1..] == es[i + 1..];
        EagerGrows(s, e, es[i]);
        MixedMore(e.outs, eager.outs, start, mid, base + offs);
        mixed := mixed + more;
        assert es[..i + 1][..i] == es[..i];
      }
      assert es[..|es|] == es;
    }
  }

  predicate FitsOk(es: seq<Event>) {
    forall k | 0 <= k < |es| :: EventOk(es[k])
  }

  /** Time and start of the unmixed samples after an event. */
  function TimesAfter(now: nat, offs: nat, ev: Event): (nat, nat) {
    match ev
    case Pass(n) => (now + n, offs)
    case Flush(left) => if now == offs then (now, offs) else (left, left)
    case _ => (now, offs)
  }

  /** The samples between two hand-overs fit into the buffer, and there are always enough of them to keep. */
  predicate Fits(now: nat, offs: nat, es: seq<Event>, length: nat)
    decreases |es|
  {
    es == [] ||
    (&& EventOk(es[0]) && (es[0].Pass? ==> now + es[0].n <= length) && (es[0].Flush? ==> es[0].left <= now)
     && var (now', offs') := TimesAfter(now, offs, es[0]); Fits(now', offs', es[1..], length))
  }

  lemma {:induction false} FitsEvents(now: nat, offs: nat, es: seq<Event>, length: nat)
    requires Fits(now, offs, es, length)
    ensures FitsOk(es)
    decreases |es|
  {
    if es != [] {
      var (now', offs') := TimesAfter(now, offs, es[0]);
      FitsEvents(now', offs', es[1..], length);
      assert forall k | 1 <= k < |es| :: es[k] == es[1..][k - 1];
    }
  }

  lemma FitsFirst(now: nat, offs: nat, es: seq<Event>, length: nat)
    requires es != [] && Fits(now, offs, es, length)
    ensures Fits(now, offs, [es[0]], length)
    ensures var (now', offs') := TimesAfter(now, offs, es[0]); Fits(now', offs', es[1..], length)
  {
    assert [es[0]][1..] == [];
  }

  lemma EagerGrows(s: Settings, e: Eager, ev: Event)
    requires EagerOk(s, e) && EventOk(ev)
    ensures forall c | 0 <= c < 4 :: e.outs[c] <= EagerStep(s, e, ev).outs[c]
  {
    hide ViewOf;
    if ev.Pass? {
      EagerPassIs(s, e, ev.n, 0);
      EagerPassIs(s, e, ev.n, 1);
      EagerPassIs(s, e, ev.n, 2);
      EagerPassIs(s, e, ev.n, 3);
    }
  }

  lemma OutputReaches(s: Settings, e: Eager, osc: seq<Osc>, r: Regs, base: nat, bc: seq<nat>, now: nat, offs: nat)
    requires RegsOk(r) && EagerOk(s, e) && |osc| == |bc| == 4 && offs <= now
    requires forall c: nat | c < 4 ::
               bc[c] <= now && Behind(ViewOf(s, r, c), osc[c], base + bc[c], now - bc[c], e.osc[c], e.outs[c])
    ensures forall c | 0 <= c < 4 :: base + offs <= |e.outs[c]|
  {
    hide ViewOf;
  }

  /** Samples already handed on stay what they were, and the next ones follow. */
  lemma MixedMore(outs: seq<seq<int>>, outs': seq<seq<int>>, from: nat, mid: nat, to: nat)
    requires |outs| == |outs'| == 4 && from <= mid <= to
    requires forall c | 0 <= c < 4 :: outs[c] <= outs'[c] && mid <= |outs[c]|
    ensures MixedFrom(outs, from, mid) + MixedFrom(outs', mid, to) == MixedFrom(outs', from, to)
  {
    hide MixWord;
    forall t: nat | from <= t < mid
      ensures Mixed(outs, t) == Mixed(outs', t)
    {
      assert forall c | 0 <= c < 4 :: outs[c][t] == outs'[c][t];
    }
  }

  lemma MixedNone(outs: seq<seq<int>>, from: nat)
    requires |outs| == 4
    ensures MixedFrom(outs, from, from) == []
  {
  }

  lemma LengthsAre(s: Settings, e: Eager, osc: seq<Osc>, r: Regs, base: nat, now: nat)
    requires RegsOk(r) && EagerOk(s, e) && |osc| == 4
    requires forall c: nat | c < 4 :: Behind(ViewOf(s, r, c), osc[c], base + now, 0, e.osc[c], e.outs[c])
    ensures forall c | 0 <= c < 4 :: |e.outs[c]| == base + now
  {
    hide ViewOf;
  }

  method MixBuffer(waveHi: array<int>, offs: nat, now: nat, ghost base: nat, ghost outs: seq<seq<int>>) returns (mixed: seq<int>)
    requires offs <= now <= waveHi.Length && |outs| == 4 && SamplesOk(outs)
    requires forall c | 0 <= c < 4 :: |outs[c]| == base + now
    requires WaveOk(waveHi[..], offs, base, [now, now, now, now], outs)
    modifies waveHi
    ensures mixed == MixedFrom(outs, base + offs, base + now)
    ensures waveHi[..now] == old(waveHi[..offs]) + mixed
  {
    hide SamplesOk, WaveOk, MixWord, Mixed;
    ghost var w := waveHi[..];
    mixed := [];
    var k := offs;
    while k < now
      invariant offs <= k <= now && mixed == MixedFrom(outs, base + offs, base + k)
      invariant waveHi[..k] == w[..offs] + mixed && waveHi[k..] == w[k..]
    {
      assert waveHi[k] == waveHi[k..][0] == w[k];
      MixedSample(w, offs, now, base, outs, k);
      waveHi[k] := MixWord(waveHi[k]);
      mixed := mixed + [waveHi[k]];
      k := k + 1;
    }
  }

  lemma MixedSample(w: seq<int>, offs: nat, now: nat, base: nat, outs: seq<seq<int>>, k: nat)
    requires offs <= k < now <= |w| && |outs| == 4 && SamplesOk(outs) && forall c | 0 <= c < 4 :: |outs[c]| == base + now
    requires WaveOk(w, offs, base, [now, now, now, now], outs)
    ensures 0 <= MixWord(w[k]) < 0x1_0000_0000 && MixWord(w[k]) == Mixed(outs, base + k)
  {
    var t := base + k;
    NoCarry(outs[0][t], outs[1][t], outs[2][t], outs[3][t], 0);
    hide Sample;
    assert w[k] == outs[0][t] + outs[1][t] + outs[2][t] + outs[3][t];
    MixRange(w[k]);
  }

  lemma MixRange(b: Word)
    requires b / 0x100_0000 < 32 && b / 0x1_0000 % 256 < 203
    ensures 0 <= MixWord(b) < 0x1_0000_0000
  {
    var x, y := b / 0x100_0000, b / 0x1_0000 % 256;
    Bits.DivMonotone(0, 1565000 * x, 8128 + 100 * x);
    Bits.DivAtMost(1565000 * x, 8128 + 100 * x);
    Bits.DivMonotone(0, 2681569 * y, 24329 + 100 * y);
    Bits.DivAtMost(2681569 * y, 24329 + 100 * y);
  }

  /** The last `left` samples go to the front and the rest of the buffer is cleared. */
  method ShiftDown(waveHi: array<int>, now: nat, left: nat)
    requires left <= now <= waveHi.Length
    modifies waveHi
    ensures forall k | 0 <= k < left :: waveHi[k] == old(waveHi[now - left + k])
    ensures forall k | left <= k < waveHi.Length :: waveHi[k] == 0
  {
    for k := 0 to left
      invariant forall j | 0 <= j < k :: waveHi[j] == old(waveHi[now - left + j])
      invariant forall j | k <= j < waveHi.Length :: waveHi[j] == old(waveHi[j])
    {
      waveHi[k] := waveHi[now - left + k];
    }
    for k := left to waveHi.Length
      invariant forall j | 0 <= j < left :: waveHi[j] == old(waveHi[now - left + j])
      invariant forall j | left <= j < k :: waveHi[j] == 0
    {
      waveHi[k] := 0;
    }
  }

  function PowerUp(duty1: nat, duty2: nat): (e: Eager)
    ensures |e.osc| == 4 && |e.outs| == 4 && forall c | 0 <= c < 4 :: e.osc[c].count > 0 && e.outs[c] == []
    ensures RegsOk(e.regs)
  {
    var env := Env(0, 0, 0, 0, false);
    Eager(Regs(seq(16, _ => 0), [env, env, env], [0, 0, 0, 0], [0, 0], [false, false], [0, 0], [false, false],
               0, false, 0, 0),
          [Osc(duty1, 2048), Osc(duty2, 2048), Osc(0, 1), Osc(1, 2048)], [[], [], [], []])
  }

  lemma NothingBehind(s: Settings, e: Eager, from: nat)
    requires EagerOk(s, e) && forall c | 0 <= c < 4 :: |e.outs[c]| == from
    ensures forall c: nat | c < 4 :: Behind(ViewOf(s, e.regs, c), e.osc[c], from, 0, e.osc[c], e.outs[c])
  {
    forall c: nat | c < 4
      ensures ViewOf(s, e.regs, c).period > 0
    {
      PeriodPositive(s, e.regs, c);
    }
    hide ViewOf;
  }

  /** Where every channel is up to date the registers may change. */
  lemma AllBehind(s: Settings, e: Eager, r: Regs, from: nat)
    requires EagerOk(s, e) && RegsOk(r) && forall c | 0 <= c < 4 :: Behind(ViewOf(s, e.regs, c), e.osc[c], from, 0, e.osc[c], e.outs[c])
    ensures forall c: nat | c < 4 :: Behind(ViewOf(s, r, c), e.osc[c], from, 0, e.osc[c], e.outs[c])
  {
    NothingBehind(s, e.(regs := r), from);
  }

  lemma NothingHeard(w: seq<int>, offs: nat, base: nat, bc: seq<nat>, outs: seq<seq<int>>)
    requires |outs| == |bc| == 4 && forall k | offs <= k < |w| :: w[k] == 0
    requires forall c | 0 <= c < 4 :: bc[c] <= offs
    ensures WaveOk(w, offs, base, bc, outs)
  {
  }

  lemma PassBehind(s: Settings, e: Eager, n: nat, c: nat, o: Osc, from: nat, k: nat)
    requires EagerOk(s, e) && c < 4 && Behind(ViewOf(s, e.regs, c), o, from, k, e.osc[c], e.outs[c])
    ensures var e' := EagerPass(s, e, n);
            && e.outs[c] <= e'.outs[c] && from <= |e.outs[c]|
            && Behind(ViewOf(s, e.regs, c), o, from, k + n, e'.osc[c], e'.outs[c])
  {
    EagerPassIs(s, e, n, c);
    FurtherBehind(ViewOf(s, e.regs, c), o, from, k, e.osc[c], e.outs[c], n);
  }

  lemma PsgBehind(s: Settings, e: Eager, a: nat, v: Byte, c: nat, osc: seq<Osc>, from: nat, k: nat)
    requires EagerOk(s, e) && a < 16 && c < 4 && |osc| == 4 && (c == Listener(a) ==> k == 0 && osc[c] == e.osc[c])
    requires Behind(ViewOf(s, e.regs, c), osc[c], from, k, e.osc[c], e.outs[c])
    ensures |PsgOsc(osc, a)| == |PsgOsc(e.osc, a)| == 4 && PsgOsc(e.osc, a)[c].count > 0
    ensures Behind(ViewOf(s, PsgRegs(s, e.regs, a, v), c), PsgOsc(osc, a)[c], from, k, PsgOsc(e.osc, a)[c], e.outs[c])
  {
    hide ViewOf, PsgRegs;
    if c == Listener(a) {
      PeriodPositive(s, PsgRegs(s, e.regs, a, v), c);
      ChangedTogether(ViewOf(s, e.regs, c), osc[c], from, e.osc[c], e.outs[c],
                      ViewOf(s, PsgRegs(s, e.regs, a, v), c), PsgOsc(osc, a)[c]);
    } else {
      OthersUnheard(s, e.regs, osc, a, v, c);
      OthersUnheard(s, e.regs, e.osc, a, v, c);
    }
  }

  lemma PsgBehindAll(s: Settings, e: Eager, a: nat, v: Byte, osc: seq<Osc>, bc: seq<nat>, base: nat, now: nat)
    requires EagerOk(s, e) && a < 16 && |osc| == |bc| == 4
    requires Listener(a) < 4 ==> bc[Listener(a)] == now && osc[Listener(a)] == e.osc[Listener(a)]
    requires forall c: nat | c < 4 ::
               bc[c] <= now && Behind(ViewOf(s, e.regs, c), osc[c], base + bc[c], now - bc[c], e.osc[c], e.outs[c])
    ensures |PsgOsc(osc, a)| == |PsgOsc(e.osc, a)| == 4
    ensures forall c: nat | c < 4 ::
              && PsgOsc(e.osc, a)[c].count > 0
              && Behind(ViewOf(s, PsgRegs(s, e.regs, a, v), c), PsgOsc(osc, a)[c], base + bc[c], now - bc[c],
                        PsgOsc(e.osc, a)[c], e.outs[c])
  {
    hide ViewOf, PsgRegs, PsgOsc, Behind, Listener;
    PsgBehind(s, e, a, v, 0, osc, base + bc[0], now - bc[0]);
    PsgBehind(s, e, a, v, 1, osc, base + bc[1], now - bc[1]);
    PsgBehind(s, e, a, v, 2, osc, base + bc[2], now - bc[2]);
    PsgBehind(s, e, a, v, 3, osc, base + bc[3], now - bc[3]);
  }

  lemma ViewKind(s: Settings, r: Regs, c: nat)
    requires RegsOk(r) && c < 4
    ensures var v := ViewOf(s, r, c); if c < 2 then v.Square? else if c == 2 then v.Triangle? else v.Noise?
  {
  }
}
