/** The sound from register writes to what is played: the channels, the mixing and the resampler share
    one buffer, whose kept samples the resampler expects in front of the next ones. */
module Playback {
  import opened Filter
  import opened Sound

  /** The cycles gone by in a run, and those before its last hand-over. */
  function Cycles(es: seq<Event>): nat {
    if es == [] then 0 else Cycles(es[..|es| - 1]) + if es[|es| - 1].Pass? then es[|es| - 1].n else 0
  }

  function Flushed(es: seq<Event>): nat {
    if es == [] then 0 else if es[|es| - 1].Flush? then Cycles(es) else Flushed(es[..|es| - 1])
  }

  /** Hand-overs keep what the resampler needs. */
  predicate KeepsTaps(es: seq<Event>, taps: nat) {
    forall k | 0 <= k < |es| :: es[k].Flush? ==> es[k].left == taps + 1
  }

  /** The end of the buffer is the end of the whole stream. */
  lemma KeptAfter(fed: seq<int>, kept: nat, news: seq<int>, w: seq<int>, left: nat)
    requires kept <= |fed| && w == fed[|fed| - kept..] + news && left <= |w|
    ensures w[|w| - left..] == (fed + news)[|fed + news| - left..]
  {
    assert fed + news == fed[..|fed| - kept] + w;
  }

  lemma HandOver(now: nat, offs: nat, ev: Event, length: nat, taps: nat)
    requires Fits(now, offs, [ev], length) && KeepsTaps([ev], taps)
    ensures EventOk(ev) && (ev.Flush? ==> ev == Event.Flush(taps + 1) && taps < now)
    ensures TimesAfter(now, offs, ev).0 == if ev.Pass? then now + ev.n else if ev.Flush? && now != offs then taps + 1 else now
    ensures TimesAfter(now, offs, ev).1 == if ev.Flush? && now != offs then taps + 1 else offs
  {
    assert [ev][0] == ev;
  }

  lemma RunNone(s: Settings, e: Eager, es: seq<Event>)
    requires EagerOk(s, e)
    ensures FitsOk(es[..0]) && EagerRun(s, e, es[..0]) == e && Cycles(es[..0]) == 0 && Flushed(es[..0]) == 0 && es[0..] == es
  {
  }

  lemma RunMore(s: Settings, e: Eager, es: seq<Event>, i: nat, taps: nat)
    requires EagerOk(s, e) && FitsOk(es) && KeepsTaps(es, taps) && i < |es|
    ensures FitsOk(es[..i]) && FitsOk(es[..i + 1]) && KeepsTaps([es[i]], taps) && EventOk(es[i])
    ensures EagerRun(s, e, es[..i + 1]) == EagerStep(s, EagerRun(s, e, es[..i]), es[i])
    ensures Cycles(es[..i + 1]) == Cycles(es[..i]) + if es[i].Pass? then es[i].n else 0
    ensures Flushed(es[..i + 1]) == if es[i].Flush? then Cycles(es[..i + 1]) else Flushed(es[..i])
    ensures es[i..][0] == es[i] && es[i..][1..] == es[i + 1..]
  {
    hide EagerStep, EventOk, EagerOk;
    assert es[..i + 1][..i] == es[..i];
  }

  lemma SameEager(s: Settings, e: Eager, ev: Event)
    requires EagerOk(s, e) && ev.Flush?
    ensures EagerStep(s, e, ev) == e
  {
  }

  lemma StillMixed(s: Settings, e: Eager, ev: Event, upTo: nat)
    requires EagerOk(s, e) && EventOk(ev) && forall c | 0 <= c < 4 :: upTo <= |e.outs[c]|
    ensures MixedFrom(EagerStep(s, e, ev).outs, 0, upTo) == MixedFrom(e.outs, 0, upTo)
  {
    EagerGrows(s, e, ev);
    hide EagerStep, MixedFrom;
    var outs := EagerStep(s, e, ev).outs;
    MixedMore(e.outs, outs, 0, upTo, upTo);
    MixedNone(outs, upTo);
  }

  class Player {
    const apu: Apu
    const resampler: Resampler

    /** The resampler has been fed the mix of what the twins have put out up to the last hand-over, and
        the buffer begins with the samples it has to see again. */
    ghost predicate Valid()
      reads this, apu, apu.waveHi, resampler
    {
      && apu.Valid() && resampler.Valid() && apu.waveHi.Length <= 40000
      && resampler.fed == MixedFrom(apu.eager.outs, 0, apu.base + apu.offs)
      && apu.waveHi[..apu.offs] == resampler.Kept()
    }

    constructor (s: Settings, length: nat, duty1: nat, duty2: nat, coeffs: seq<int>, ratio: nat, gains: Gains)
      requires length <= 40000 && 0 < |coeffs| <= 1024 && 0 < ratio < 0x4000_0000
      ensures Valid() && fresh(apu) && fresh(apu.waveHi) && fresh(resampler)
      ensures apu.s == s && apu.waveHi.Length == length && apu.eager == PowerUp(duty1, duty2)
      ensures apu.now == 0 && apu.offs == 0 && apu.base == 0
      ensures resampler.coeffs == coeffs && resampler.ratio == ratio && resampler.gains == gains && resampler.played == []
    {
      hide Apu.Valid, Resampler.Valid;
      apu := new Apu(s, length, duty1, duty2);
      resampler := new Resampler(coeffs, ratio, gains);
      new;
      MixedNone(apu.eager.outs, 0);
    }

    /** FlushEmulateSound: what has been mixed in place goes through the resampler, which says how many
        samples to keep. */
    method Flush() returns (out: seq<int>)
      requires Valid() && |resampler.coeffs| < apu.now
      modifies apu, apu.waveHi, resampler
      ensures Valid() && resampler.played == old(resampler.played) + out
      ensures apu.base + apu.offs == old(apu.base) + old(apu.now) && apu.now == apu.offs && apu.eager == old(apu.eager)
      ensures apu.now == if old(apu.now) == old(apu.offs) then old(apu.now) else |resampler.coeffs| + 1
    {
      hide Apu.Valid, Resampler.Valid, SamplesOk, MixedFrom, EagerOk, RegsOk;
      apu.Facts();
      if apu.now == apu.offs {
        return [];
      }
      out := Finish();
    }

    method Finish() returns (out: seq<int>)
      requires Valid() && |resampler.coeffs| < apu.now && apu.offs < apu.now
      modifies apu, apu.waveHi, resampler
      ensures Valid() && resampler.played == old(resampler.played) + out && apu.eager == old(apu.eager)
      ensures apu.base + apu.offs == old(apu.base) + old(apu.now) && apu.now == apu.offs == |resampler.coeffs| + 1
    {
      hide Apu.Valid, Resampler.Valid, Resampler.Kept, SamplesOk, MixedFrom, EagerOk, RegsOk;
      var mixed := Mix();
      var left;
      out, left := Resample(mixed);
      apu.Restart(left);
    }

    /** The samples are mixed behind those kept. */
    method Mix() returns (mixed: seq<int>)
      requires Valid()
      modifies apu`osc, apu`bc, apu.waveHi
      ensures MixedIn(mixed) && apu.now == old(apu.now)
    {
      hide Apu.Valid, Resampler.Valid, SamplesOk, MixedFrom, EagerOk, RegsOk;
      apu.Facts();
      resampler.Facts();
      ghost var from := apu.base + apu.offs;
      mixed := apu.Finish();
      MixedMore(apu.eager.outs, apu.eager.outs, 0, from, apu.base + apu.now);
    }

    ghost predicate MixedIn(mixed: seq<int>)
      reads apu, apu.waveHi, resampler
    {
      && RegsOk(apu.regs) && EagerOk(apu.s, apu.eager) && apu.eager.regs == apu.regs && apu.osc == apu.eager.osc
      && SamplesOk(apu.eager.outs) && apu.offs <= apu.now <= apu.waveHi.Length <= 40000
      && (forall c | 0 <= c < 4 :: |apu.eager.outs[c]| == apu.base + apu.now)
      && resampler.Valid() && (|resampler.fed| == 0 || |resampler.fed| > |resampler.coeffs|)
      && apu.waveHi[..apu.now] == resampler.Kept() + mixed
      && MixedFrom(apu.eager.outs, 0, apu.base + apu.now) == resampler.fed + mixed
    }

    /** What the resampler has to see again is at the end of the buffer. */
    method Resample(mixed: seq<int>) returns (out: seq<int>, left: nat)
      requires MixedIn(mixed) && |resampler.coeffs| < apu.now
      modifies resampler
      ensures resampler.Valid() && resampler.played == old(resampler.played) + out
      ensures resampler.fed == MixedFrom(apu.eager.outs, 0, apu.base + apu.now)
      ensures |resampler.fed| > |resampler.coeffs| && left == |resampler.coeffs| + 1
      ensures resampler.Kept() == apu.waveHi[..apu.now][apu.now - left..]
    {
      hide Resampler.Valid, SamplesOk, MixedFrom, EagerOk, RegsOk;
      ghost var fed, kept := resampler.fed, |resampler.Kept()|;
      var data;
      data, left := resampler.NeoFilterSound(apu.waveHi, apu.now, mixed);
      resampler.Facts();
      KeptAfter(fed, kept, mixed, apu.waveHi[..apu.now], left);
      out := data[..];
    }

    /** Between hand-overs nothing is played, and what has been fed stays the mix. */
    method Silent(ev: Event)
      requires Valid() && !ev.Flush? && Fits(apu.now, apu.offs, [ev], apu.waveHi.Length)
      modifies apu, apu.waveHi
      ensures Valid() && apu.eager == EagerStep(apu.s, old(apu.eager), ev)
      ensures (apu.now, apu.offs) == TimesAfter(old(apu.now), old(apu.offs), ev) && apu.base == old(apu.base)
    {
      hide Apu.Valid, Resampler.Valid, Resampler.Kept, MixedFrom, EagerStep, EagerOk;
      ghost var e, upTo := apu.eager, apu.base + apu.offs;
      apu.Facts();
      var mixed := apu.Handle(ev);
      StillMixed(apu.s, e, ev, upTo);
    }

    method Handle(ev: Event) returns (out: seq<int>)
      requires Valid() && Fits(apu.now, apu.offs, [ev], apu.waveHi.Length) && KeepsTaps([ev], |resampler.coeffs|)
      modifies apu, apu.waveHi, resampler
      ensures Valid() && resampler.played == old(resampler.played) + out
      ensures apu.eager == EagerStep(apu.s, old(apu.eager), ev)
      ensures (apu.now, apu.offs) == TimesAfter(old(apu.now), old(apu.offs), ev)
      ensures apu.base + apu.now == old(apu.base) + old(apu.now) + if ev.Pass? then ev.n else 0
      ensures apu.base + apu.offs == old(apu.base) + if ev.Flush? then old(apu.now) else old(apu.offs)
    {
      HandOver(apu.now, apu.offs, ev, apu.waveHi.Length, |resampler.coeffs|);
      hide *;
      if ev.Flush? {
        SameEager(apu.s, apu.eager, ev);
        out := Flush();
      } else {
        Silent(ev);
        out := [];
      }
    }

    /** Over any timed sequence of register writes, ticks and hand-overs. */
    method Run(es: seq<Event>) returns (out: seq<int>)
      requires Valid() && Fits(apu.now, apu.offs, es, apu.waveHi.Length) && KeepsTaps(es, |resampler.coeffs|)
      requires apu.base == apu.now == apu.offs == 0
      modifies apu, apu.waveHi, resampler
      ensures Valid() && FitsOk(es) && apu.eager == EagerRun(apu.s, old(apu.eager), es)
      ensures resampler.played == old(resampler.played) + out && apu.base + apu.offs == Flushed(es)
    {
      hide *;
      ghost var e := apu.eager;
      out := [];
      Beginning(es);
      for i := 0 to |es|
        invariant Reached(es, i, e) && resampler.played == old(resampler.played) + out
      {
        var more := Next(es, i, e);
        out := out + more;
      }
      Ending(es, e);
    }

    lemma Beginning(es: seq<Event>)
      requires Valid() && Fits(apu.now, apu.offs, es, apu.waveHi.Length) && KeepsTaps(es, |resampler.coeffs|)
      requires apu.base == apu.now == apu.offs == 0
      ensures Reached(es, 0, apu.eager)
    {
      apu.Facts();
      FitsEvents(apu.now, apu.offs, es, apu.waveHi.Length);
      RunNone(apu.s, apu.eager, es);
      hide Valid, Apu.Valid, EagerRun, Fits, KeepsTaps, EagerOk;
    }

    lemma Ending(es: seq<Event>, e: Eager)
      requires Reached(es, |es|, e)
      ensures Valid() && FitsOk(es) && EagerOk(apu.s, e) && apu.eager == EagerRun(apu.s, e, es)
      ensures apu.base + apu.offs == Flushed(es)
    {
      assert es[..|es|] == es;
      hide Valid, EagerRun, Fits, KeepsTaps, EagerOk;
    }

    /** The player after the first `i` events of a run that began with the twin in state `e`. */
    ghost predicate Reached(es: seq<Event>, i: nat, e: Eager)
      requires i <= |es|
      reads this, apu, apu.waveHi, resampler
    {
      && Valid() && EagerOk(apu.s, e) && FitsOk(es) && FitsOk(es[..i]) && KeepsTaps(es, |resampler.coeffs|)
      && Fits(apu.now, apu.offs, es[i..], apu.waveHi.Length)
      && apu.eager == EagerRun(apu.s, e, es[..i])
      && apu.base + apu.now == Cycles(es[..i]) && apu.base + apu.offs == Flushed(es[..i])
    }

    method Next(es: seq<Event>, i: nat, ghost e: Eager) returns (out: seq<int>)
      requires i < |es| && Reached(es, i, e)
      modifies apu, apu.waveHi, resampler
      ensures Reached(es, i + 1, e) && resampler.played == old(resampler.played) + out
    {
      RunMore(apu.s, e, es, i, |resampler.coeffs|);
      FitsFirst(apu.now, apu.offs, es[i..], apu.waveHi.Length);
      hide Valid, Apu.Valid, Resampler.Valid, EagerStep, EagerRun, EagerOk, TimesAfter, Fits, KeepsTaps, EventOk, Cycles, Flushed;
      out := Handle(es[i]);
    }
  }

  /** What is played from power-up on is the volume-filtered resampling of the mix of what the four
      channels put out cycle by cycle, however the run was cut into hand-overs. */
  method Play(s: Settings, length: nat, duty1: nat, duty2: nat, coeffs: seq<int>, ratio: nat, gains: Gains, es: seq<Event>)
    returns (out: seq<int>, ghost made: seq<int>)
    requires length <= 40000 && 0 < |coeffs| <= 1024 && 0 < ratio < 0x4000_0000
    requires Fits(0, 0, es, length) && KeepsTaps(es, |coeffs|)
    ensures FitsOk(es) && EagerOk(s, PowerUp(duty1, duty2))
    ensures var outs := EagerRun(s, PowerUp(duty1, duty2), es).outs;
            && Resampled(MixedFrom(outs, 0, Flushed(es)), (|coeffs| + 1) * 0x1_0000, ratio, coeffs, made)
            && out == Filtered(gains, Volume(0, 0), made)
  {
    hide MixedFrom, Resampled, Filtered, EagerRun, Fits, Apu.Valid;
    var player := new Player(s, length, duty1, duty2, coeffs, ratio, gains);
    out := player.Run(es);
    made := player.resampler.made;
  }
}
