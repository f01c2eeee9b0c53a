/** Interrupt counters of three mapper boards: batches of cycles count like single ones. */
module Timers {
  import Bits

  type Byte = x: int | 0 <= x < 0x100

  // ---------- board 252: lines of 341 dots, three to a cycle ----------

  /** Counter and requests after `n` lines: a count of 256 requests an interrupt and reloads the latch.
      `count` lies in 256 - wait, so `wait` lines go by until the first request, then one every `period`. */
  function Requests(wait: nat, period: nat, n: nat): nat
    requires period > 0
  {
    if n < wait then 0 else 1 + (n - wait) / period
  }

  function Waiting(wait: nat, period: nat, n: nat): (w: int)
    requires period > 0
  {
    if n < wait then wait - n else period - (n - wait) % period
  }

  lemma NoneYet(wait: nat, period: nat, n: nat)
    requires wait > 0 && period > 0 && n == 0
    ensures Requests(wait, period, n) == 0 && Waiting(wait, period, n) == wait
  {
  }

  lemma OneMore(wait: nat, period: nat, n: nat)
    requires wait > 0 && period > 0
    ensures Waiting(wait, period, n) > 0
    ensures Requests(wait, period, n + 1) == Requests(wait, period, n) + if Waiting(wait, period, n) == 1 then 1 else 0
    ensures Waiting(wait, period, n + 1) == if Waiting(wait, period, n) == 1 then period else Waiting(wait, period, n) - 1
  {
    Bits.SmallDivMod(0, period);
    if n >= wait {
      Bits.NextDivMod(n - wait, period);
    }
  }

  /** After a whole period of waiting the requests are the whole periods gone by. */
  lemma FullPeriods(period: nat, n: nat)
    requires period > 0
    ensures Requests(period, period, n) == n / period
  {
    if n < period {
      Bits.SmallDivMod(n, period);
    } else {
      Bits.DivAddMultiple(n - period, period, 1);
    }
  }

  /** Two stretches are one: the counting from where the first one ended gives the rest. */
  lemma {:induction false} StretchesAdd(wait: nat, period: nat, m: nat, n: nat)
    requires wait > 0 && period > 0
    ensures Waiting(wait, period, m) > 0
    ensures Requests(wait, period, m + n) == Requests(wait, period, m) + Requests(Waiting(wait, period, m), period, n)
    ensures Waiting(wait, period, m + n) == Waiting(Waiting(wait, period, m), period, n)
  {
    OneMore(wait, period, m);
    if n == 0 {
      assert Requests(Waiting(wait, period, m), period, 0) == 0;
    } else {
      StretchesAdd(wait, period, m, n - 1);
      OneMore(wait, period, m + (n - 1));
      OneMore(Waiting(wait, period, m), period, n - 1);
    }
  }

  class Board252 {
    var enabled: bool
    var clock: nat
    var count: nat
    var latch: Byte
    /** Number of interrupt requests. */
    ghost var requests: nat

    ghost predicate Valid()
      reads this
    {
      clock < 341 && count < 256
    }

    /** $F008. */
    method Start(v: Byte)
      modifies this`enabled, this`clock, this`count
      ensures Valid() && enabled == (v / 2 % 2 == 1) && clock == 0 && count == latch
    {
      clock := 0;
      count := latch;
      enabled := v / 2 % 2 == 1;
    }

    /** M252IRQ: every cycle counts for exactly three dots, every 341 dots for a line, and with latch `l` an
        interrupt is requested every 256 - l lines. */
    method Irq(a: nat)
      requires Valid()
      modifies this`clock, this`count, this`requests
      ensures Valid()
      ensures !enabled ==> clock == old(clock) && count == old(count) && requests == old(requests)
      ensures enabled ==>
                var lines := (old(clock) + 3 * a) / 341;
                && 341 * lines + clock == old(clock) + 3 * a
                && requests == old(requests) + Requests(256 - old(count), 256 - latch, lines)
                && 256 - count == Waiting(256 - old(count), 256 - latch, lines)
    {
      hide Requests, Waiting;
      ghost var lines := 0;
      NoneYet(256 - count, 256 - latch, lines);
      if enabled {
        clock := clock + a * 3;
        while clock >= 341
          invariant 341 * lines + clock == old(clock) + 3 * a && count < 256
          invariant requests == old(requests) + Requests(256 - old(count), 256 - latch, lines)
          invariant 256 - count == Waiting(256 - old(count), 256 - latch, lines)
        {
          OneMore(256 - old(count), 256 - latch, lines);
          clock := clock - 341;
          count := count + 1;
          if count / 0x100 % 2 == 1 {
            requests := requests + 1;
            count := latch;
          }
          lines := lines + 1;
        }
        Bits.DivUnique(old(clock) + 3 * a, 341, lines, clock);
      }
    }

    /** From a restart on an interrupt comes at the end of every (256 - latch)th line. */
    method FromStart(v: Byte, a: nat)
      requires v / 2 % 2 == 1
      modifies this`enabled, this`clock, this`count, this`requests
      ensures Valid() && requests == old(requests) + 3 * a / 341 / (256 - latch)
    {
      Start(v);
      hide Requests;
      Irq(a);
      Bits.DivMonotone(0, 3 * a, 341);
      FullPeriods(256 - latch, 3 * a / 341);
    }

    /** A batch of cycles split in two counts like the whole. */
    method IrqTwice(a: nat, b: nat)
      requires Valid() && enabled
      modifies this`clock, this`count, this`requests
      ensures Valid()
      ensures var lines := (old(clock) + 3 * (a + b)) / 341;
              && 341 * lines + clock == old(clock) + 3 * (a + b)
              && requests == old(requests) + Requests(256 - old(count), 256 - latch, lines)
              && 256 - count == Waiting(256 - old(count), 256 - latch, lines)
    {
      Irq(a);
      ghost var first := (old(clock) + 3 * a) / 341;
      ghost var second := (clock + 3 * b) / 341;
      Irq(b);
      Bits.DivUnique(old(clock) + 3 * (a + b), 341, first + second, clock);
      StretchesAdd(256 - old(count), 256 - latch, first, second);
    }
  }

  /** Prescaler and counter as one number. */
  function Composite(count: Byte, pre: Byte, scale: int): int
    requires scale > 0
  {
    var high: int := count;
    high * scale + pre % scale
  }

  function Stepped(n: int, mode: Byte, top: int): int {
    if mode / 64 == 1 then (if n == top - 1 then 0 else n + 1)
    else if mode / 64 == 2 then (if n == 0 then top - 1 else n - 1)
    else n
  }

  predicate Wraps(n: int, mode: Byte, top: int) {
    (mode / 64 == 1 && n == top - 1) || (mode / 64 == 2 && n == 0)
  }

  /** What a step of the prescaler, and of the counter when the prescaler wraps, does to the number. */
  ghost predicate StepFacts(count: Byte, pre: Byte, scale: int)
    requires scale > 0
  {
    var n, up, down := Composite(count, pre, scale), (pre + 1) % 256, (pre + 255) % 256;
    var top := 256 * scale;
    && 0 <= n < top
    && (up % scale != 0 ==> n != top - 1 && Composite(count, up, scale) == n + 1)
    && (up % scale == 0 ==> (count == 255 <==> n == top - 1)
                            && Composite((count + 1) % 256, up, scale) == if n == top - 1 then 0 else n + 1)
    && (down % scale != scale - 1 ==> n != 0 && Composite(count, down, scale) == n - 1)
    && (down % scale == scale - 1 ==> (count == 0 <==> n == 0)
                                      && Composite((count + 255) % 256, down, scale) == if n == 0 then top - 1 else n - 1)
  }

  lemma Steps(count: Byte, pre: Byte, scale: int)
    requires scale == 8 || scale == 256
    ensures StepFacts(count, pre, scale)
  {
    hide StepFacts;
    if scale == 8 {
      Steps8(count, pre);
    } else {
      Steps256(count, pre);
    }
  }

  lemma Steps8(count: Byte, pre: Byte)
    ensures StepFacts(count, pre, 8)
  {
    var q, r := pre / 8, pre % 8;
    assert pre == 8 * q + r;
    var up, down := if r == 7 then 0 else r + 1, if r == 0 then 7 else r - 1;
    assert (pre + 1) % 256 % 8 == up by {
      Bits.DivUnique(pre + 1, 8, if r == 7 then q + 1 else q, up);
    }
    assert (pre + 255) % 256 % 8 == down by {
      if pre > 0 {
        Bits.DivUnique(pre - 1, 8, if r == 0 then q - 1 else q, down);
      }
    }
    FactsFromParts(count, pre, 8, r, up, down);
  }

  lemma Steps256(count: Byte, pre: Byte)
    ensures StepFacts(count, pre, 256)
  {
    FactsFromParts(count, pre, 256, pre, if pre == 255 then 0 else pre + 1, if pre == 0 then 255 else pre - 1);
  }

  lemma FactsFromParts(count: Byte, pre: Byte, scale: int, low: int, up: int, down: int)
    requires scale > 0 && 0 <= low < scale && pre % scale == low
    requires (pre + 1) % 256 % scale == up == if low == scale - 1 then 0 else low + 1
    requires (pre + 255) % 256 % scale == down == if low == 0 then scale - 1 else low - 1
    ensures StepFacts(count, pre, scale)
  {
    var next, last: int := (count + 1) % 256, (count + 255) % 256;
    Products(count, next, last, scale);
    CompositeIs(count, pre, scale);
    CompositeIs(count, (pre + 1) % 256, scale);
    CompositeIs(next, (pre + 1) % 256, scale);
    CompositeIs(count, (pre + 255) % 256, scale);
    CompositeIs(last, (pre + 255) % 256, scale);
    hide Composite, Product;
  }

  lemma Products(n: int, next: int, last: int, scale: int)
    requires 0 <= n < 256 && scale > 0 && next == (if n == 255 then 0 else n + 1) && last == if n == 0 then 255 else n - 1
    ensures Product(next, scale) == if n == 255 then 0 else Product(n, scale) + scale
    ensures Product(last, scale) == if n == 0 then 255 * scale else Product(n, scale) - scale
    ensures 0 <= Product(n, scale) <= 255 * scale && (n == 0 ==> Product(n, scale) == 0) && (n == 255 ==> Product(n, scale) == 255 * scale)
    ensures (n < 255 ==> Product(n, scale) + scale <= 255 * scale) && (n > 0 ==> Product(n, scale) >= scale)
  {
    Bits.TimesSum(n, 255 - n, scale);
    Bits.NotNegative(n, scale);
    Bits.NotNegative(255 - n, scale);
    if n < 255 {
      Bits.TimesSum(n, 1, scale);
      Bits.TimesSum(n + 1, 254 - n, scale);
      Bits.NotNegative(254 - n, scale);
    }
    if n > 0 {
      Bits.TimesSum(n - 1, 1, scale);
      Bits.NotNegative(n - 1, scale);
    }
  }

  lemma CompositeIs(count: Byte, pre: Byte, scale: int)
    requires scale > 0
    ensures Composite(count, pre, scale) == Product(count, scale) + pre % scale
  {
  }

  function Product(x: int, y: int): int {
    x * y
  }

  // ---------- board 90: a prescaler of three or eight bits before an eight-bit counter ----------

  class Board90 {
    var mode: Byte
    var pre: Byte
    var count: Byte
    var enabled: bool
    ghost var requests: nat

    /** Size of the prescaler. */
    function Scale(): int
      reads this`mode
    {
      if mode / 4 % 2 == 1 then 8 else 256
    }

    method Ccl()
      modifies this`count, this`requests
      ensures count == if mode / 64 == 1 then (old(count) + 1) % 256
                       else if mode / 64 == 2 then (old(count) + 255) % 256 else old(count)
      ensures requests == old(requests) + if enabled && ((mode / 64 == 1 && count == 0) || (mode / 64 == 2 && count == 255))
                                          then 1 else 0
    {
      if mode / 64 == 1 {
        count := (count + 1) % 256;
        if count == 0 && enabled {
          requests := requests + 1;
        }
      } else if mode / 64 == 2 {
        count := (count + 255) % 256;
        if count == 255 && enabled {
          requests := requests + 1;
        }
      }
    }

    /** One step of the composite counter, up or down by the mode; an interrupt is requested exactly where it wraps. */
    method ClockCounter()
      modifies this`pre, this`count, this`requests
      ensures var scale := if mode / 4 % 2 == 1 then 8 else 256;
              var top := 256 * scale;
              var was := Composite(old(count), old(pre), scale);
              && 0 <= was < top
              && Composite(count, pre, scale) == Stepped(was, mode, top)
              && requests == old(requests) + if enabled && Wraps(was, mode, top) then 1 else 0
    {
      hide Composite;
      var scale := Scale();
      Steps(count, pre, scale);
      if mode / 64 == 1 {
        pre := (pre + 1) % 256;
        if pre % scale == 0 {
          Ccl();
        }
      } else if mode / 64 == 2 {
        pre := (pre + 255) % 256;
        if pre % scale == scale - 1 {
          Ccl();
        }
      }
    }

    /** CPUWrap: in the mode that counts cycles, a batch of cycles is that many steps. */
    method CpuWrap(a: nat)
      modifies this`pre, this`count, this`requests
      ensures var scale := if mode / 4 % 2 == 1 then 8 else 256;
              var top := 256 * scale;
              var was := Composite(old(count), old(pre), scale);
              var steps := if mode % 4 == 0 then a else 0;
              && Composite(count, pre, scale) == SteppedBy(was, mode, top, steps)
              && requests == old(requests) + if enabled then WrapsIn(was, mode, top, steps) else 0
    {
      hide Composite, Stepped, Wraps;
      if mode % 4 == 0 {
        for x := 0 to a
          invariant Composite(count, pre, Scale()) == SteppedBy(Composite(old(count), old(pre), Scale()), mode, 256 * Scale(), x)
          invariant requests == old(requests) + if enabled
                      then WrapsIn(Composite(old(count), old(pre), Scale()), mode, 256 * Scale(), x) else 0
        {
          ClockCounter();
        }
      }
    }
  }

  function SteppedBy(n: int, mode: Byte, top: int, steps: nat): int {
    if steps == 0 then n else Stepped(SteppedBy(n, mode, top, steps - 1), mode, top)
  }

  function WrapsIn(n: int, mode: Byte, top: int, steps: nat): nat {
    if steps == 0 then 0
    else WrapsIn(n, mode, top, steps - 1) + if Wraps(SteppedBy(n, mode, top, steps - 1), mode, top) then 1 else 0
  }

  /** Counting up, `steps` steps are an addition modulo the size of the counter, and every carry out of it an interrupt. */
  lemma {:induction false} CountsUp(n: nat, mode: Byte, top: nat, steps: nat)
    requires mode / 64 == 1 && n < top
    ensures SteppedBy(n, mode, top, steps) == (n + steps) % top && WrapsIn(n, mode, top, steps) == (n + steps) / top
  {
    if steps == 0 {
      Bits.SmallDivMod(n, top);
    } else {
      CountsUp(n, mode, top, steps - 1);
      Bits.NextDivMod(n + (steps - 1), top);
    }
  }

  /** Counting down, the number from the top counts up. */
  lemma {:induction false} CountsDown(n: nat, mode: Byte, top: nat, steps: nat)
    requires mode / 64 == 2 && n < top
    ensures SteppedBy(n, mode, top, steps) == top - 1 - (top - 1 - n + steps) % top
    ensures WrapsIn(n, mode, top, steps) == (top - 1 - n + steps) / top
  {
    if steps == 0 {
      Bits.SmallDivMod(top - 1 - n, top);
    } else {
      CountsDown(n, mode, top, steps - 1);
      Bits.NextDivMod(top - 1 - n + (steps - 1), top);
    }
  }

  /** Two batches are one. */
  lemma {:induction false} BatchesAdd(n: int, mode: Byte, top: int, a: nat, b: nat)
    ensures SteppedBy(n, mode, top, a + b) == SteppedBy(SteppedBy(n, mode, top, a), mode, top, b)
    ensures WrapsIn(n, mode, top, a + b) == WrapsIn(n, mode, top, a) + WrapsIn(SteppedBy(n, mode, top, a), mode, top, b)
  {
    if b > 0 {
      BatchesAdd(n, mode, top, a, b - 1);
      hide Stepped, Wraps;
      assert a + b - 1 == a + (b - 1);
    }
  }

  // ---------- board 116: one step a line, with a reload ----------

  class Board116 {
    var mode: Byte
    var count: Byte
    var latch: Byte
    var reload: bool
    var enabled: bool
    /** How often the counter has reached zero, and how often an interrupt was requested. */
    ghost var zeros: nat
    ghost var requests: nat

    /** Lines until the counter is next at zero. */
    ghost function UntilZero(): int
      reads this
    {
      if count == 0 || reload then latch + 1 else count
    }

    /** UNLSL12HBIRQ. */
    method HBlank()
      modifies this`count, this`reload, this`zeros, this`requests
      ensures mode % 4 != 1 ==> count == old(count) && reload == old(reload) && zeros == old(zeros) && requests == old(requests)
      ensures mode % 4 == 1 ==>
                && !reload
                && (count == 0 <==> old(UntilZero()) == 1)
                && UntilZero() == (if old(UntilZero()) == 1 then latch + 1 else old(UntilZero()) - 1)
                && zeros == old(zeros) + (if count == 0 then 1 else 0)
                && requests == old(requests) + (if count == 0 && enabled then 1 else 0)
    {
      if mode % 4 == 1 {
        if count == 0 || reload {
          count := latch;
          reload := false;
        } else {
          count := count - 1;
        }
        if count == 0 {
          zeros := zeros + 1;
          if enabled {
            requests := requests + 1;
          }
        }
      }
    }

    /** Over `n` lines with a constant latch the counter is at zero first when the present count has run
        down, and then every latch + 1 lines; each time an interrupt is requested if enabled. */
    method Lines(n: nat)
      requires mode % 4 == 1
      modifies this`count, this`reload, this`zeros, this`requests
      ensures zeros == old(zeros) + Requests(old(UntilZero()), latch + 1, n)
      ensures requests == old(requests) + if enabled then Requests(old(UntilZero()), latch + 1, n) else 0
      ensures UntilZero() == Waiting(old(UntilZero()), latch + 1, n)
    {
      hide Requests, Waiting;
      ghost var lines := 0;
      NoneYet(UntilZero(), latch + 1, lines);
      for k := 0 to n
        invariant lines == k
        invariant zeros == old(zeros) + Requests(old(UntilZero()), latch + 1, lines)
        invariant requests == old(requests) + if enabled then Requests(old(UntilZero()), latch + 1, lines) else 0
        invariant UntilZero() == Waiting(old(UntilZero()), latch + 1, lines)
      {
        OneMore(old(UntilZero()), latch + 1, lines);
        HBlank();
        lines := lines + 1;
      }
    }
  }
}
