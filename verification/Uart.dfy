/** The board's serial port with its lines tied together: what is queued for sending is what arrives. */
module Uart {
  import Bits

  type Byte = x: int | 0 <= x < 0x100

  // ---------- shift registers ----------

  /** What is left to send of `c` after `k` data bits. */
  function Left(c: Byte, k: nat): Byte {
    if k == 0 then c else Left(c, k - 1) / 2
  }

  /** What has been shifted in from the top after `k` data bits. */
  function Arrived(c: Byte, k: nat): (r: int)
    ensures 0 <= r < 256
  {
    if k == 0 then 0 else Left(c, k - 1) % 2 * 128 + Arrived(c, k - 1) / 2
  }

  lemma ArrivedNone(c: Byte, k: nat)
    requires k == 0
    ensures Arrived(c, k) == 0 && Left(c, k) == c
  {
  }

  lemma ArrivedNext(c: Byte, k: nat)
    ensures Arrived(c, k + 1) == Left(c, k) % 2 * 128 + Arrived(c, k) / 2
    ensures Left(c, k + 1) == Left(c, k) / 2
  {
  }

  lemma FourSteps(c: Byte, k: nat)
    ensures var low := Left(c, k) - 16 * Left(c, k + 4);
            0 <= low < 16 && Arrived(c, k + 4) == 16 * low + Arrived(c, k) / 16
  {
    hide Arrived, Left;
    ArrivedNext(c, k);
    ArrivedNext(c, k + 1);
    ArrivedNext(c, k + 2);
    ArrivedNext(c, k + 3);
  }

  /** After eight bits the byte has arrived. */
  lemma AllArrived(c: Byte)
    ensures Arrived(c, 8) == c
  {
    hide Arrived, Left;
    var k := 0;
    ArrivedNone(c, k);
    FourSteps(c, k);
    FourSteps(c, k + 4);
  }

  class Loopback {
    const divisor: int
    var count: int
    var txState: nat
    var txData: Byte
    var rxState: nat
    var rxData: Byte
    var rxIdle: bool
    var sending: seq<Byte>
    /** The wire: the RX pin drives TX. */
    var line: bool
    var delivered: seq<Byte>
    /** All characters given to the port, and the one on the wire. */
    ghost var given: seq<Byte>
    ghost var current: Byte

    predicate OnWire()
      reads this
    {
      rxState > 0 || txState == 9
    }

    /** Ticks since the start bit of the character on the wire. */
    ghost function Age(): int
      reads this
    {
      if rxState > 0 then rxState - 1 else 9
    }

    ghost predicate Valid()
      reads this
    {
      && 0 < divisor <= 0x8000 && count < divisor && rxState <= 9
      && (rxState == 0 ==> line && (txState == 0 || (txState == 9 && txData == current)))
      && (rxState == 1 ==> !line && txState == 0 && rxData == current)
      && (rxState >= 2 ==>
            && txState == rxState - 1 && txData == Arrived(current, rxState - 2)
            && line == (Left(current, rxState - 2) % 2 == 1) && rxData == Left(current, rxState - 1))
      && (rxIdle ==> !OnWire() && (sending == [] || sending[0] == 0))
      && (OnWire() ==> current != 0) && (forall k | 0 <= k < |delivered| :: delivered[k] != 0)
      && given == delivered + (if OnWire() then [current] else []) + sending
    }

    constructor (divisor: int)
      requires 0 < divisor <= 0x8000
      ensures Valid() && given == [] && delivered == [] && sending == [] && this.divisor == divisor
    {
      this.divisor, count := divisor, divisor - 1;
      txState, txData, rxState, rxData, rxIdle := 0, 0, 0, 0, true;
      sending, delivered, line := [], [], true;
      given, current := [], 0;
    }

    /** rx_getchar; what was given before is delivered when it would have been. */
    method GetChar(ch: Byte)
      requires Valid()
      modifies this`sending, this`given, this`rxIdle
      ensures Valid() && given == old(given) + [ch] && sending == old(sending) + [ch]
      ensures forall p: nat | NoZero(old(given), p) :: Wait(p) == old(Wait(p))
    {
      sending := sending + [ch];
      given := given + [ch];
      rxIdle := false;
    }

    /** tx_receive. */
    method TxReceive()
      modifies this`count, this`txState, this`txData, this`delivered
      ensures count == divisor - 1
      ensures (txState, txData) == Received(old(txState), old(txData), line)
      ensures delivered == if old(txState) == 9 && line then old(delivered) + [old(txData)] else old(delivered)
    {
      count := divisor - 1;
      if txState == 0 {
        if !line {
          txData := 0;
          txState := txState + 1;
        }
      } else if 1 <= txState <= 8 {
        txData := (if line then 128 else 0) + txData / 2;
        txState := txState + 1;
      } else if txState == 9 {
        if line {
          txState := 0;
          delivered := delivered + [txData];
        }
      }
    }

    /** What a tick does to the characters and the clock. */
    twostate predicate Ticked()
      reads this
    {
      && given == old(given) && count == divisor - 1
      && if old(OnWire()) && old(Age()) < 9
         then OnWire() && Age() == old(Age()) + 1 && current == old(current) && delivered == old(delivered) && sending == old(sending)
         else delivered == old(delivered) + (if old(OnWire()) then [old(current)] else [])
              && if old(sending) != [] && old(sending)[0] != 0
                 then OnWire() && Age() == 0 && current == old(sending)[0] && sending == old(sending)[1..]
                 else !OnWire() && rxIdle && sending == old(sending)
    }

    /** One divisor tick: the receiving end samples the line, then the sending end drives it. A
        character is delivered ten ticks after its start bit, and the next one starts in that same tick;
        a zero byte ends the sending for good. */
    method Tick()
      requires Valid()
      modifies this
      ensures Valid() && Ticked()
    {
      hide Arrived, Left;
      ArrivedNext(current, if rxState >= 2 then rxState - 2 else 0);
      ArrivedNext(current, if rxState >= 1 then rxState - 1 else 0);
      ghost var none := 0;
      ArrivedNone(current, none);
      AllArrived(current);
      TxReceive();
      if !rxIdle {
        RxSend();
      }
    }

    /** rx_send. */
    method RxSend()
      requires rxState <= 9
      modifies this`rxState, this`rxData, this`rxIdle, this`sending, this`line, this`current
      ensures if old(rxState) > 0 then
                && sending == old(sending) && current == old(current) && rxIdle == old(rxIdle)
                && rxState == (if old(rxState) == 9 then 0 else old(rxState) + 1)
                && line == (old(rxState) == 9 || old(rxData) % 2 == 1)
                && (old(rxState) <= 8 ==> rxData == old(rxData) / 2)
              else if old(sending) == [] || old(sending)[0] == 0 then
                rxIdle && rxState == 0 && sending == old(sending) && current == old(current) && line == old(line)
              else
                && sending == old(sending)[1..] && current == rxData == old(sending)[0] && rxIdle == old(rxIdle)
                && rxState == 1 && !line
    {
      if rxState == 0 {
        rxData := if sending == [] then 0 else sending[0];
        if rxData == 0 {
          rxIdle := true;
          return;
        }
        current := sending[0];
        sending := sending[1..];
        line := false;
        rxState := rxState + 1;
      } else if 1 <= rxState <= 8 {
        line := rxData % 2 == 1;
        rxData := rxData / 2;
        rxState := rxState + 1;
      } else if rxState == 9 {
        line := true;
        rxState := 0;
      }
    }

    /** nvboard_update: a tick in one of `divisor` updates and nothing in the others; each update brings
        every delivery one update nearer. */
    method Update()
      requires Valid()
      modifies this
      ensures Valid()
      ensures if old(count) <= 0 then Ticked() else count == old(count) - 1 && unchanged(this`given, this`delivered,
                this`current, this`sending, this`rxIdle, this`line, this`txState, this`txData, this`rxState, this`rxData)
      ensures forall p: nat | NoZero(given, p) :: Wait(p) == Sooner(old(Wait(p)))
    {
      hide Wait, Until, NoZero, Arrived, Left;
      count := count - 1;
      if count < 0 {
        Tick();
        forall p: nat | NoZero(given, p)
          ensures Wait(p) == Sooner(old(Wait(p)))
        {
          TickWait(p);
        }
      } else {
        forall p: nat
          ensures Wait(p) == Sooner(old(Wait(p)))
        {
          CountWait(p);
        }
      }
    }

    twostate lemma TickWait(p: nat)
      requires old(Valid()) && old(count) <= 0 && 0 < divisor && Ticked() && NoZero(given, p)
      ensures Wait(p) == Sooner(old(Wait(p)))
    {
      TickUntil(p);
      WaitTurns(divisor, old(Until(p)) - 1);
      hide Valid, Until, NoZero;
    }

    twostate lemma CountWait(p: nat)
      requires Valid() && 0 <= count == old(count) - 1
      requires unchanged(this`delivered, this`rxState, this`txState)
      ensures Wait(p) == Sooner(old(Wait(p)))
    {
      WaitOver(p);
      hide Valid;
    }

    twostate lemma TickUntil(p: nat)
      requires old(Valid()) && Ticked() && NoZero(given, p)
      ensures Until(p) == Sooner(old(Until(p))) >= 0
    {
      hide Arrived, Left;
      var done, wire := |old(delivered)|, if old(OnWire()) then 1 else 0;
      if p > done + wire {
        assert old(given)[done + wire] == old(sending)[0];
      }
    }

    /** Ticks until the first `p` characters given have been delivered, if none of them is zero. */
    ghost function Until(p: nat): (ticks: int)
      reads this
    {
      if p <= |delivered| then 0
      else if OnWire() then 10 - Age() + 10 * (p - |delivered| - 1)
      else 1 + 10 * (p - |delivered|)
    }

    /** And in updates: the present tick is `count` updates away and the others `divisor` each. */
    ghost function Wait(p: nat): (updates: int)
      reads this
    {
      if Until(p) == 0 then 0 else (if count > 0 then count else 0) + 1 + divisor * (Until(p) - 1)
    }

    /** Characters given at any times between the updates: they arrive in the order they were given, and
        those given before are delivered exactly when the updates they have to wait for are over,
        whatever is given meanwhile. */
    method Run(es: seq<Event>)
      requires Valid()
      modifies this
      ensures Valid() && given == old(given) + Given(es)
      ensures forall p: nat | NoZero(old(given), p) ::
                |delivered| >= p <==> Updates(es) >= old(Wait(p))
    {
      hide Valid, Wait, NoZero;
      forall p: nat
        ensures old(Wait(p)) >= 0
      {
        WaitOver(p);
      }
      for i := 0 to |es|
        invariant Valid() && given == old(given) + Given(es[..i])
        invariant forall p: nat | NoZero(old(given), p) :: Wait(p) == SoonerBy(old(Wait(p)), Updates(es[..i]))
      {
        assert es[..i + 1][..i] == es[..i];
        forall p: nat | NoZero(old(given), p)
          ensures NoZero(given, p)
        {
          NoZeroMore(old(given), Given(es[..i]), p);
        }
        Handle(es[i]);
      }
      assert es[..|es|] == es;
      forall p: nat
        ensures Wait(p) >= 0 && (Wait(p) == 0 <==> |delivered| >= p)
      {
        WaitOver(p);
      }
    }

    method Handle(e: Event)
      requires Valid()
      modifies this
      ensures Valid() && given == old(given) + Given([e])
      ensures forall p: nat | NoZero(old(given), p) :: Wait(p) == SoonerBy(old(Wait(p)), Updates([e]))
    {
      hide Valid, Wait, NoZero;
      forall p: nat
        ensures Wait(p) >= 0
      {
        WaitOver(p);
      }
      assert [e][..0] == [];
      match e {
        case Give(ch) => GetChar(ch);
        case Update => Update();
      }
    }

    lemma WaitOver(p: nat)
      requires Valid()
      ensures Wait(p) >= 0 && (Wait(p) == 0 <==> |delivered| >= p)
    {
      if Until(p) > 0 {
        Bits.NotNegative(divisor, Until(p) - 1);
      }
    }

    /** Ticks until everything that can be sent has been delivered, if all of it can. */
    ghost function Remaining(): int
      reads this
    {
      (if OnWire() then 10 - Age() else if sending != [] then 1 else 0) + 10 * |sending|
    }

    /** Ticks until the port is idle: what has arrived is what was given, up to the first zero byte if
        there is one; so all of it arrives exactly if there is none, and then in ten ticks a character. */
    method Settle() returns (ghost ticks: nat)
      requires Valid()
      modifies this
      ensures Valid() && given == old(given) && rxIdle && !OnWire()
      ensures given == delivered + sending && (sending == [] || sending[0] == 0)
      ensures delivered == given <==> forall k | 0 <= k < |given| :: given[k] != 0
      ensures delivered == given && !old(rxIdle) && old(Remaining()) > 0 ==> ticks == old(Remaining())
    {
      ticks := 0;
      while !rxIdle || OnWire() || (sending != [] && sending[0] != 0)
        invariant Valid() && given == old(given) && ticks >= 0
        invariant sending == [] && !OnWire() && ticks > 0 ==> rxIdle
        invariant (forall k | 0 <= k < |sending| :: sending[k] != 0) ==>
                    ticks + Remaining() == old(Remaining()) || (ticks <= 1 && old(Remaining()) == 0)
        decreases Remaining(), !rxIdle
      {
        Tick();
        ticks := ticks + 1;
      }
      ZeroFree();
    }

    lemma ZeroFree()
      requires Valid() && !OnWire() && (sending == [] || sending[0] == 0)
      ensures delivered == given <==> forall k | 0 <= k < |given| :: given[k] != 0
    {
      if sending != [] {
        assert given[|delivered|] == 0;
      }
    }
  }

  datatype Event = Give(ch: Byte) | Update

  /** The characters given in a run, and the number of its updates. */
  function Given(es: seq<Event>): seq<Byte> {
    if es == [] then []
    else Given(es[..|es| - 1]) + match es[|es| - 1] case Give(ch) => [ch] case Update => []
  }

  function Updates(es: seq<Event>): nat {
    if es == [] then 0 else Updates(es[..|es| - 1]) + if es[|es| - 1].Update? then 1 else 0
  }

  lemma WaitTurns(divisor: int, turns: int)
    ensures divisor * turns == divisor * (turns - 1) + divisor
  {
  }

  function Sooner(wait: int): int {
    if wait > 0 then wait - 1 else 0
  }

  function SoonerBy(wait: int, k: nat): int {
    if wait > k then wait - k else 0
  }

  lemma NoZeroMore(cs: seq<Byte>, ds: seq<Byte>, p: nat)
    requires NoZero(cs, p)
    ensures NoZero(cs + ds, p)
  {
  }

  /** There are `p` characters at the front that are not zero. */
  predicate NoZero(cs: seq<Byte>, p: nat) {
    p <= |cs| && forall k | 0 <= k < p :: cs[k] != 0
  }

  /** State and shift register of the receiving end after a sample. */
  function Received(state: nat, data: Byte, line: bool): (nat, Byte) {
    if state == 0 then (if line then (state, data) else (1, 0))
    else if state <= 8 then (state + 1, (if line then 128 else 0) + data / 2)
    else if state == 9 && line then (0, data) else (state, data)
  }
}
