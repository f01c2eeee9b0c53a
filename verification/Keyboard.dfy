/** The PS/2 keyboard: queued scan codes go out as clocked eleven-bit frames, and a receiver that
    samples the data line on falling clock edges gets exactly those codes back. */
module Keyboard {
  import opened Bits

  type Byte = x: int | 0 <= x < 0x100

  const NOT_A_KEY := -1
  const CLK_NUM := 10

  // ---------- frames ----------

  /** Bit `k` of a number. */
  function Bit(x: nat, k: nat): bool {
    if k == 0 then x % 2 == 1 else Bit(x / 2, k - 1)
  }

  function Halved(x: nat, k: nat): nat {
    if k == 0 then x else Halved(x, k - 1) / 2
  }

  lemma {:induction false} HalvedBit(x: nat, k: nat)
    ensures Halved(x, k) % 2 == 1 <==> Bit(x, k)
    ensures Halved(x, k + 1) == Halved(x / 2, k)
  {
    if k > 0 {
      HalvedBit(x / 2, k - 1);
      HalvedBit(x, k - 1);
    }
  }

  function Xor8(x: int, y: int): int {
    Bitwise(Xor, 8, x, y)
  }

  /** The parity macros. */
  function Xor2Fold(a: int): int {
    Xor8(a / 2, a % 2)
  }

  function Xor4Fold(a: int): int {
    Xor2Fold(Xor8(a / 4, a % 4))
  }

  function Xor8Fold(a: int): int {
    Xor4Fold(Xor8(a / 16, a % 16))
  }

  /** Number of ones among the low `n` bits. */
  function Ones(n: nat, x: nat): nat {
    if n == 0 then 0 else x % 2 + Ones(n - 1, x / 2)
  }

  lemma {:induction false} OnesOfXor(n: nat, x: nat, y: nat)
    ensures Ones(n, Bitwise(Xor, n, x, y)) % 2 == (Ones(n, x) + Ones(n, y)) % 2
  {
    if n > 0 {
      OnesOfXor(n - 1, x / 2, y / 2);
      BitwiseStep(Xor, n, x, y);
      hide Bitwise;
      var low, rest := OnBit(Xor, x, y), Bitwise(Xor, n - 1, x / 2, y / 2);
      DivUnique(low + 2 * rest, 2, rest, low);
      SumParity(x % 2, y % 2, Ones(n - 1, rest), Ones(n - 1, x / 2), Ones(n - 1, y / 2));
    }
  }

  lemma SumParity(a: nat, b: nat, u: nat, v: nat, w: nat)
    requires a < 2 && b < 2 && u % 2 == (v + w) % 2
    ensures ((if a != b then 1 else 0) + u) % 2 == (a + v + (b + w)) % 2
  {
  }

  lemma {:induction false} OnesSplit(k: nat, m: nat, x: nat, high: nat, low: nat)
    requires high == x / Pow2(k) && low == x % Pow2(k)
    ensures Ones(k + m, x) == Ones(k, low) + Ones(m, high)
  {
    if k == 0 {
    } else {
      HalfMod(x, k);
      DivDiv(x, 2, Pow2(k - 1));
      hide Pow2;
      OnesSplit(k - 1, m, x / 2, high, low / 2);
      assert low % 2 == x % 2 && low / 2 == x / 2 % Pow2(k - 1);
    }
  }

  lemma {:induction false} OnesOfSmall(n: nat, m: nat, x: nat)
    requires x < Pow2(n)
    ensures Ones(n + m, x) == Ones(n, x)
  {
    if n == 0 {
      OnesOfZero(m);
    } else {
      OnesOfSmall(n - 1, m, x / 2);
    }
  }

  lemma {:induction false} OnesOfZero(m: nat)
    ensures Ones(m, 0) == 0
  {
    if m > 0 {
      OnesOfZero(m - 1);
    }
  }

  /** One fold keeps the parity of the number of ones. */
  lemma FoldParity(k: nat, a: nat)
    requires k <= 4 && a < Pow2(2 * k)
    ensures var folded := Xor8(a / Pow2(k), a % Pow2(k));
            0 <= folded < Pow2(k) && Ones(8, folded) % 2 == Ones(8, a) % 2
  {
    var p := Pow2(k);
    Pow2Add(k, k);
    hide Pow2, Ones;
    DivBelow(a, p, p);
    var high, low := a / p, a % p;
    FoldBelow(k, high, low);
    OnesOfXor(8, high, low);
    OnesSplit(k, 8 - k, a, high, low);
    OnesOfSmall(k, 8 - k, low);
    OnesOfSmall(k, 8 - k, high);
    SmallerMask(k, high);
  }

  lemma SmallerMask(k: nat, high: nat)
    requires k <= 4 && high < Pow2(k)
    ensures Ones(8 - k, high) == Ones(k, high)
  {
    OnesOfSmall(k, 8 - k - k, high);
  }

  lemma FoldBelow(k: nat, x: nat, y: nat)
    requires k <= 8 && x < Pow2(k) && y < Pow2(k)
    ensures Xor8(x, y) < Pow2(k)
  {
    hide Pow2, Bitwise;
    BitwiseSplit(Xor, k, 8 - k, x, y);
    DivUnique(x, Pow2(k), 0, x);
    DivUnique(y, Pow2(k), 0, y);
    BitwiseZero(Xor, 8 - k, 0);
    DivUnique(0, Pow2(8 - k), 0, 0);
  }

  /** The macros give the parity of the number of ones, so the frame's parity is odd. */
  lemma ParityIsOdd(a: Byte)
    ensures Xor8Fold(a) == Ones(8, a) % 2
  {
    Pow2Small();
    Pow2Values();
    hide Pow2, Xor8, Ones;
    Pow2Add(2, 2);
    Pow2Add(1, 1);
    FoldParity(4, a);
    var b := Xor8(a / 16, a % 16);
    FoldParity(2, b);
    var c := Xor8(b / 4, b % 4);
    FoldParity(1, c);
    var d := Xor8(c / 2, c % 2);
    OnesOfBit(d);
  }

  lemma OnesOfBit(d: nat)
    requires d < 2
    ensures Ones(8, d) == d
  {
    OnesOfZero(7);
  }

  /** Bit `i` of the frame of a byte: start 0, eight data bits lowest first, odd parity, stop 1. */
  function FrameBit(b: Byte, i: nat): bool {
    if i == 0 then false
    else if i <= 8 then Bit(b, i - 1)
    else if i == 9 then Ones(8, b) % 2 == 0
    else true
  }

  function Frame(b: Byte, n: nat): (f: seq<bool>)
    ensures |f| == n && forall i | 0 <= i < n :: f[i] == FrameBit(b, i)
  {
    seq(n, i requires 0 <= i < n => FrameBit(b, i))
  }

  // ---------- a receiver ----------

  function Value(bits: seq<bool>): nat {
    if bits == [] then 0 else (if bits[0] then 1 else 0) + 2 * Value(bits[1..])
  }

  function CountTrue(bits: seq<bool>): nat {
    if bits == [] then 0 else (if bits[0] then 1 else 0) + CountTrue(bits[1..])
  }

  /** Samples the data line on falling edges of the clock. Eleven samples with a start bit of 0, odd
      parity and a stop bit of 1 make a byte; any others an error. */
  datatype Receiver = Receiver(clk: bool, bits: seq<bool>, bytes: seq<nat>, errors: nat)

  function Watch(r: Receiver, clk: bool, dat: bool): Receiver {
    if !(r.clk && !clk) then r.(clk := clk)
    else
      var bits := r.bits + [dat];
      if |bits| < 11 then Receiver(clk, bits, r.bytes, r.errors)
      else if !bits[0] && bits[10] && CountTrue(bits[1..10]) % 2 == 1
      then Receiver(clk, [], r.bytes + [Value(bits[1..9])], r.errors)
      else Receiver(clk, [], r.bytes, r.errors + 1)
  }

  /** A frame is received as its byte, without an error. */
  lemma FrameReceived(b: Byte)
    ensures var bits := Frame(b, 11);
            !bits[0] && bits[10] && CountTrue(bits[1..10]) % 2 == 1 && Value(bits[1..9]) == b
  {
    var bits := Frame(b, 11);
    BitsOfByte(b, 0);
    var data, all := bits[1..9], bits[1..10];
    assert data == BitsFrom(b, 0);
    assert all == data + [bits[9]];
    CountMore(data, bits[9]);
  }

  /** The data bits from bit `k` on. */
  function BitsFrom(b: Byte, k: nat): (s: seq<bool>)
    requires k <= 8
    ensures |s| == 8 - k
  {
    seq(8 - k, i requires 0 <= i < 8 - k => Bit(b, k + i))
  }

  lemma {:induction false} BitsOfByte(b: Byte, k: nat)
    requires k <= 8
    ensures Value(BitsFrom(b, k)) == Halved(b, k) && CountTrue(BitsFrom(b, k)) == Ones(8 - k, Halved(b, k))
    decreases 8 - k
  {
    HalvedByte(b, k);
    if k < 8 {
      BitsOfByte(b, k + 1);
      HalvedBit(b, k);
      var s := BitsFrom(b, k);
      assert s[0] == Bit(b, k) && s[1..] == BitsFrom(b, k + 1);
      hide Bit;
    }
  }

  lemma {:induction false} HalvedByte(b: Byte, k: nat)
    requires k <= 8
    ensures Halved(b, k) * Pow2(k) <= b && (k == 8 ==> Halved(b, k) == 0)
  {
    if k == 0 {
    } else {
      HalvedByte(b, k - 1);
      var h := Halved(b, k - 1);
      assert h == 2 * (h / 2) + h % 2;
      TimesProduct(h / 2, 2, Pow2(k - 1));
      TimesSum(h / 2 * 2, h % 2, Pow2(k - 1));
      NotNegative(h % 2, Pow2(k - 1));
      if k == 8 {
        Pow2Values();
      }
    }
  }

  lemma {:induction false} CountMore(s: seq<bool>, x: bool)
    ensures CountTrue(s + [x]) == CountTrue(s) + if x then 1 else 0
  {
    if s != [] {
      CountMore(s[1..], x);
      assert (s + [x])[1..] == s[1..] + [x];
    }
  }

  // ---------- the keyboard ----------

  class Device {
    /** Scan codes of each key; a first code of 0xe0 marks a code of two bytes. */
    const map0: seq<Byte>
    const map1: seq<Byte>
    var queue: seq<Byte>
    var dataIdx: nat
    var leftClk: nat
    var curKey: int
    var clk: bool
    var dat: bool
    /** The receiver on the other end of the two lines, all codes ever queued, and the updates since the
        frame on the lines began. */
    ghost var rx: Receiver
    ghost var pushed: seq<Byte>
    ghost var busy: nat

    /** How far the frame is when bit `dataIdx` is next. */
    ghost predicate Sending()
      reads this
    {
      && queue != [] && dataIdx <= 11 && leftClk <= CLK_NUM && (clk ==> dataIdx > 0) && (!clk ==> dataIdx < 11)
      && curKey == Halved(queue[0], if dataIdx <= 1 then 0 else if dataIdx <= 9 then dataIdx - 1 else 8)
      && (clk ==> dat == FrameBit(queue[0], dataIdx - 1))
      && rx.bits == Frame(queue[0], if clk then dataIdx - 1 else dataIdx)
      && busy == 11 * (if clk then 2 * dataIdx - 1 else 2 * dataIdx) + (CLK_NUM - leftClk)
    }

    ghost predicate Valid()
      reads this
    {
      && |map0| == |map1| == 256 && rx.clk == clk && rx.errors == 0
      && pushed == rx.bytes + queue
      && if curKey == NOT_A_KEY then dataIdx == 0 && !clk && rx.bits == [] && busy == 0 else Sending()
    }

    constructor (map0: seq<Byte>, map1: seq<Byte>)
      requires |map0| == |map1| == 256
      ensures Valid() && pushed == [] && rx.bytes == [] && curKey == NOT_A_KEY
    {
      this.map0, this.map1 := map0, map1;
      queue, dataIdx, leftClk, curKey := [], 0, 0, NOT_A_KEY;
      clk, dat := false, false;
      rx, pushed, busy := Receiver(false, [], [], 0), [], 0;
    }

    /** push_key: the codes of a key going down, or with 0xf0 of one coming up. */
    method PushKey(key: Byte, down: bool)
      requires Valid()
      modifies this`queue, this`pushed
      ensures Valid() && pushed == old(pushed) + KeyCodes(map0[key], map1[key], down) && queue == old(queue) + KeyCodes(map0[key], map1[key], down)
    {
      hide Frame, FrameBit;
      var at := map0[key];
      if at == 0xE0 {
        Push(0xE0);
        at := map1[key];
      }
      if !down {
        Push(0xF0);
      }
      Push(at);
    }

    method Push(b: Byte)
      requires Valid()
      modifies this`queue, this`pushed
      ensures Valid() && queue == old(queue) + [b] && pushed == old(pushed) + [b]
    {
      hide Frame, FrameBit;
      queue := queue + [b];
      pushed := pushed + [b];
    }

    /** A rising edge puts the next bit on the data line. */
    method Rise()
      requires |map0| == |map1| == 256 && rx.clk == !clk && rx.errors == 0 && pushed == rx.bytes + queue && curKey != NOT_A_KEY
      requires clk && leftClk == CLK_NUM && queue != [] && dataIdx < 11
      requires curKey == Halved(queue[0], if dataIdx <= 1 then 0 else if dataIdx <= 9 then dataIdx - 1 else 8)
      requires rx.bits == Frame(queue[0], dataIdx) && busy == 22 * dataIdx + 10
      modifies this`dataIdx, this`curKey, this`dat, this`rx, this`busy
      ensures Valid() && curKey != NOT_A_KEY && busy == old(busy) + 1 && rx.bytes == old(rx).bytes
    {
      hide Frame, Value, CountTrue, Ones, Xor8Fold;
      ParityIsOdd(queue[0]);
      HalvedBit(queue[0], if dataIdx <= 1 then 0 else if dataIdx <= 9 then dataIdx - 1 else 8);
      dat := if dataIdx == 9 then Xor8Fold(queue[0]) == 0
             else if dataIdx == 10 then true
             else if 1 <= dataIdx <= 8 then curKey % 2 == 1 else false;
      if 1 <= dataIdx <= 8 {
        curKey := curKey / 2;
      }
      dataIdx := dataIdx + 1;
      busy := busy + 1;
      rx := Watch(rx, clk, dat);
    }

    /** At a falling edge the receiver samples the line; after the last bit the code leaves the queue. */
    method Fall()
      requires |map0| == |map1| == 256 && rx.clk == !clk && rx.errors == 0 && pushed == rx.bytes + queue && curKey != NOT_A_KEY
      requires !clk && leftClk == CLK_NUM && queue != [] && 0 < dataIdx <= 11
      requires curKey == Halved(queue[0], if dataIdx <= 1 then 0 else if dataIdx <= 9 then dataIdx - 1 else 8)
      requires dat == FrameBit(queue[0], dataIdx - 1)
      requires rx.bits == Frame(queue[0], dataIdx - 1) && busy == 22 * dataIdx - 1
      modifies this`queue, this`dataIdx, this`curKey, this`rx, this`busy
      ensures Valid()
      ensures if old(dataIdx) == 11 then busy == 0 && queue == old(queue)[1..] && rx.bytes == old(rx).bytes + [old(queue)[0]]
              else busy == old(busy) + 1 && queue == old(queue) && rx.bytes == old(rx).bytes
    {
      hide FrameBit, Value, CountTrue, Ones, Xor8Fold;
      FrameReceived(queue[0]);
      assert rx.bits + [dat] == Frame(queue[0], dataIdx);
      hide Frame;
      rx := Watch(rx, clk, dat);
      if dataIdx == 11 {
        dataIdx := 0;
        curKey := NOT_A_KEY;
        queue := queue[1..];
        busy := 0;
      } else {
        busy := busy + 1;
      }
    }

    /** update_state. Every code takes 242 updates from the first one that finds it at the head of the
        queue: then it has been received and leaves the queue. */
    method Update()
      requires Valid()
      modifies this`queue, this`dataIdx, this`leftClk, this`curKey, this`clk, this`dat, this`rx, this`busy
      ensures Valid() && pushed == old(pushed)
      ensures if old(queue) == [] then queue == [] && rx == old(rx) && busy == 0
              else if old(busy) == 241 then busy == 0 && queue == old(queue)[1..] && rx.bytes == old(rx).bytes + [old(queue)[0]]
              else busy == old(busy) + 1 && queue == old(queue) && rx.bytes == old(rx).bytes
    {
      hide Frame, FrameBit, Value, CountTrue, Ones, Xor8Fold;
      if curKey == NOT_A_KEY {
        if queue == [] {
          return;
        }
        curKey := queue[0];
        assert dataIdx == 0;
        leftClk := CLK_NUM;
        FrameNone(queue[0], 0);
      }
      if leftClk == 0 {
        clk := !clk;
        leftClk := CLK_NUM;
        if clk {
          Rise();
        } else {
          Fall();
        }
      } else {
        leftClk := leftClk - 1;
        busy := busy + 1;
        rx := Watch(rx, clk, dat);
      }
    }

    /** Any interleaving of key events and updates: the receiver has got the first of the queued codes,
        in order and without an error, and the rest are still in the queue. */
    method Run(inputs: seq<Input>)
      requires Valid()
      modifies this`queue, this`pushed, this`dataIdx, this`leftClk, this`curKey, this`clk, this`dat, this`rx, this`busy
      ensures Valid() && pushed == old(pushed) + AllCodes(map0, map1, inputs)
      ensures rx.bytes + queue == pushed && rx.errors == 0
    {
      hide KeyCodes;
      for i := 0 to |inputs|
        invariant Valid() && pushed == old(pushed) + AllCodes(map0, map1, inputs[..i])
      {
        match inputs[i] {
          case Key(key, down) => PushKey(key, down);
          case Tick => Update();
        }
        assert inputs[..i + 1][..i] == inputs[..i];
      }
      assert inputs[..|inputs|] == inputs;
    }

    /** 242 updates for each queued code, less those already spent on the first, deliver them all. */
    method Drain() returns (ghost updates: nat)
      requires Valid()
      modifies this`queue, this`dataIdx, this`leftClk, this`curKey, this`clk, this`dat, this`rx, this`busy
      ensures Valid() && queue == [] && rx.bytes == pushed && pushed == old(pushed)
      ensures updates == if old(queue) == [] then 0 else 242 * |old(queue)| - old(busy)
    {
      ghost var total := if queue == [] then 0 else 242 * |queue| - busy;
      updates := 0;
      while queue != []
        invariant Valid() && pushed == old(pushed)
        invariant updates == total - if queue == [] then 0 else 242 * |queue| - busy
        decreases 242 * |queue| - busy
      {
        BusyBelow();
        Update();
        updates := updates + 1;
      }
    }

    lemma BusyBelow()
      requires Valid()
      ensures busy < 242
    {
    }
  }

  datatype Input = Key(key: Byte, down: bool) | Tick

  function AllCodes(map0: seq<Byte>, map1: seq<Byte>, inputs: seq<Input>): seq<Byte>
    requires |map0| == |map1| == 256
  {
    if inputs == [] then []
    else
      var last := inputs[|inputs| - 1];
      AllCodes(map0, map1, inputs[..|inputs| - 1]) + if last.Key? then KeyCodes(map0[last.key], map1[last.key], last.down) else []
  }

  lemma FrameNone(b: Byte, n: nat)
    requires n == 0
    ensures Frame(b, n) == []
  {
  }

  /** The bytes a key event queues. */
  function KeyCodes(map0: Byte, map1: Byte, down: bool): seq<Byte> {
    (if map0 == 0xE0 then [0xE0] else []) + (if down then [] else [0xF0]) + [if map0 == 0xE0 then map1 else map0]
  }
}
