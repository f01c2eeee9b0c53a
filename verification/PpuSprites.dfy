/** The two sprite evaluators of the PPU: the one of the old renderer, which finds and fetches in one
    pass, and the one of the new loop, which first copies the sprites it finds and then fetches. */
module PpuSprites {
  import opened Bits
  import opened PpuScroll

  type Oam = s: seq<Byte> | |s| == 256 witness seq(256, i => 0)

  datatype Sprite = Sprite(y: Byte, no: Byte, atr: Byte, x: Byte)

  function SpriteAt(oam: Oam, i: nat): Sprite
    requires i < 64
  {
    Sprite(oam[4 * i], oam[4 * i + 1], oam[4 * i + 2], oam[4 * i + 3])
  }

  // ---------- what the hardware does ----------

  function Height(p0: Byte): int {
    if p0 / 32 % 2 == 1 then 16 else 8
  }

  predicate OnLine(s: Sprite, line: int, height: int) {
    s.y <= line < s.y + height
  }

  /** The sprites among the first `n` that are on the line, in order. */
  function Found(oam: Oam, line: int, height: int, n: nat): (f: seq<nat>)
    requires n <= 64
    ensures |f| <= n && forall k | 0 <= k < |f| :: f[k] < n
  {
    if n == 0 then []
    else if OnLine(SpriteAt(oam, n - 1), line, height) then Found(oam, line, height, n - 1) + [n - 1]
    else Found(oam, line, height, n - 1)
  }

  /** Each sprite on the line is found once, in ascending order, and nothing else is. */
  lemma {:induction false} FoundExactly(oam: Oam, line: int, height: int, n: nat)
    requires n <= 64
    ensures var f := Found(oam, line, height, n);
            && (forall j, k :: 0 <= j < k < |f| ==> f[j] < f[k])
            && forall i: nat :: i in f <==> i < n && OnLine(SpriteAt(oam, i), line, height)
  {
    if n > 0 {
      FoundExactly(oam, line, height, n - 1);
    }
  }

  function AllFound(oam: Oam, line: int, height: int): seq<nat> {
    Found(oam, line, height, |oam| / 4)
  }

  lemma {:induction false} FoundGrows(oam: Oam, line: int, height: int, n: nat)
    requires n <= 64
    ensures Found(oam, line, height, n) <= AllFound(oam, line, height)
    decreases 64 - n
  {
    if n < 64 {
      FoundGrows(oam, line, height, n + 1);
    }
  }

  lemma FoundStep(oam: Oam, line: int, height: int, n: nat)
    requires n < 64
    ensures Found(oam, line, height, n + 1)
         == Found(oam, line, height, n) + if OnLine(SpriteAt(oam, n), line, height) then [n] else []
    ensures Found(oam, line, height, n + 1) <= AllFound(oam, line, height)
  {
    FoundGrows(oam, line, height, n + 1);
  }

  lemma FoundNone(oam: Oam, line: int, height: int, n: nat)
    requires n == 0
    ensures Found(oam, line, height, n) == []
  {
  }

  /** The row of the sprite's picture that falls on the line. */
  function Row(s: Sprite, line: int, height: int): int {
    if s.atr / 128 == 1 then height - 1 - (line - s.y) else line - s.y
  }

  /** Small sprites use the table chosen by bit 3 of $2000; tall ones the table chosen by bit 0 of
      their number, and two consecutive tiles of it. */
  function PatternAddress(s: Sprite, line: int, p0: Byte): int {
    var r := Row(s, line, Height(p0));
    if Height(p0) == 16 then 0x1000 * (s.no % 2) + 0x10 * (s.no - s.no % 2 + r / 8) + r % 8
    else 0x1000 * (p0 / 8 % 2) + 0x10 * s.no + r
  }

  datatype Fetched = Fetched(address: int, x: Byte, atr: Byte)

  function Fetch(oam: Oam, i: nat, line: int, p0: Byte): Fetched
    requires i < 64
  {
    var s := SpriteAt(oam, i);
    Fetched(PatternAddress(s, line, p0), s.x, s.atr)
  }

  // ---------- masks ----------

  lemma {:induction false} SingleBit(n: nat, k: nat, x: nat)
    requires k < n
    ensures Bitwise(BitOp.And, n, x, Pow2(k)) == x / Pow2(k) % 2 * Pow2(k)
  {
    hide Bitwise;
    BitwiseStep(BitOp.And, n, x, Pow2(k));
    if k == 0 {
      BitwiseZero(BitOp.And, n - 1, x / 2);
    } else {
      SingleBit(n - 1, k - 1, x / 2);
      DivDiv(x, 2, Pow2(k - 1));
    }
  }

  lemma SmallBits()
    ensures Pow2(0) == 1 && Pow2(3) == 8 && Pow2(5) == 0x20 && Pow2(7) == 0x80
  {
    SmallPowers();
    Pow2Small();
    hide Pow2;
    Pow2Add(2, 5);
  }

  lemma BitMasks(x: Byte)
    ensures And32(x, 1) == x % 2 && And32(x, 8) == 8 * (x / 8 % 2) && And32(x, 0x20) == 0x20 * (x / 0x20 % 2)
    ensures And32(x, 0x80) == 0x80 * (x / 0x80)
  {
    hide Bitwise, Pow2;
    SmallBits();
    SingleBit(32, 0, x);
    SingleBit(32, 3, x);
    SingleBit(32, 5, x);
    SingleBit(32, 7, x);
  }

  /** Clearing bit 0 of a byte. */
  lemma EvenMask(x: Byte)
    ensures And32(x, 0xFE) == x - x % 2 && And32(x, 0xFFFF_FFFE) == x - x % 2
  {
    hide Bitwise, Pow2;
    Pow2Values();
    Pow2Small();
    AndHighMask(32, 1, x);
    AndHighMask(8, 1, x);
    BitwiseSplit(BitOp.And, 8, 24, x, 0xFE);
    BitwiseZero(BitOp.And, 24, 0);
    DivUnique(x, 0x100, 0, x);
  }

  /** `or` into the low bits that are clear. */
  lemma OrInto(x: U32, k: nat, y: nat)
    requires k <= 32 && x % Pow2(k) == 0 && y < Pow2(k)
    ensures Or32(x, y) == x + y && Or32(y, x) == x + y
  {
    hide Bitwise, Pow2;
    Pow2Values();
    OrDisjoint(32, k, x, y);
    BitwiseSymmetric(BitOp.Or, 32, x, y);
  }

  // ---------- the old evaluator ----------

  function OldHeight(p0: Byte): int {
    8 + And32(p0, 0x20) / 4
  }

  /** Pattern table of small sprites, 0 for tall ones. */
  function OldTable(p0: Byte): int {
    And32(And32(p0, 8), Xor32(And32(p0, 0x20), 0x20) / 4) * 0x200
  }

  function OldAddress(s: Sprite, line: int, p0: Byte): int {
    var t := line - s.y;
    var base := if And32(p0, 0x20) != 0 then And32(s.no, 1) * 0x1000 + And32(s.no, 0xFE) * 0x10
                else s.no * 0x10 + OldTable(p0);
    if And32(s.atr, 0x80) != 0 then base + 7 - t + And32(p0, 0x20) / 2 - And32(t, 8) else base + t + And32(t, 8)
  }

  lemma OldHeightIs(p0: Byte)
    ensures OldHeight(p0) == Height(p0)
  {
    hide And32;
    BitMasks(p0);
  }

  lemma OldTableIs(p0: Byte)
    ensures p0 / 0x20 % 2 == 0 ==> OldTable(p0) == 0x1000 * (p0 / 8 % 2)
  {
    hide And32, Xor32, Bitwise, Pow2;
    BitMasks(p0);
    SmallPowers();
    Pow2Values();
    BitwiseZero(BitOp.Xor, 32, 0x20);
    BitwiseSymmetric(BitOp.Xor, 32, 0, 0x20);
    XorNothing();
    BitMasks(And32(p0, 8));
  }

  lemma XorNothing()
    ensures Xor32(0, 0x20) == 0x20
  {
    hide Bitwise, Pow2;
    Pow2Values();
    BitwiseSymmetric(BitOp.Xor, 32, 0, 0x20);
    BitwiseZero(BitOp.Xor, 32, 0x20);
  }

  /** The old evaluator's sums, which move eight bytes further in the second tile, address the row. */
  lemma OldAddressIs(s: Sprite, line: int, p0: Byte)
    requires OnLine(s, line, Height(p0))
    ensures OldAddress(s, line, p0) == PatternAddress(s, line, p0)
  {
    hide And32, OldTable;
    BitMasks(p0);
    OldTableIs(p0);
    BitMasks(s.no);
    EvenMask(s.no);
    BitMasks(s.atr);
    BitMasks(line - s.y);
  }

  /** One pass over the table, fetching as it goes; `overflow` is bit 5 of the status. */
  method FetchSpriteData(oam: array<Byte>, scanline: nat, p0: Byte, maxSprites: nat, overflow0: bool)
    returns (sprbuf: seq<Fetched>, spriteZero: bool, overflow: bool)
    requires oam.Length == 256 && scanline < 240 && (maxSprites == 8 || maxSprites == 64)
    ensures var f := AllFound(oam[..], scanline, Height(p0));
            && |sprbuf| == (if |f| <= maxSprites then |f| else maxSprites)
            && (forall k | 0 <= k < |sprbuf| :: sprbuf[k] == Fetch(oam[..], f[k], scanline, p0))
            && (spriteZero <==> |f| > 0 && f[0] == 0)
            && (overflow <==> overflow0 || |f| > 8)
  {
    hide OldAddress, PatternAddress, OldHeight, Height, Found, AllFound, SpriteAt;
    sprbuf, spriteZero, overflow := [], false, overflow0;
    OldHeightIs(p0);
    HeightRange(p0);
    var height := OldHeight(p0);
    ghost var table := oam[..];
    var n := 0;
    FoundNone(table, scanline, height, n);
    while n < 64
      invariant 0 <= n <= 64
      invariant var f := Found(table, scanline, height, n);
                && f <= AllFound(table, scanline, height) && |sprbuf| == |f| <= maxSprites
                && (forall k | 0 <= k < |sprbuf| :: sprbuf[k] == Fetch(table, f[k], scanline, p0))
                && (spriteZero <==> |f| > 0 && f[0] == 0)
      invariant n == 64 ==> Found(table, scanline, height, n) == AllFound(table, scanline, height)
      invariant overflow == overflow0
    {
      var s := ReadSprite(oam, n);
      FoundStep(table, scanline, height, n);
      FoundLast(table, scanline, height, n + 1);
      // the difference is compared as an unsigned number
      if (scanline - s.y) % 0x1_0000_0000 < height {
        if |sprbuf| < maxSprites {
          if n == 0 {
            spriteZero := true;
          }
          OldAddressIs(s, scanline, p0);
          sprbuf := sprbuf + [Fetched(OldAddress(s, scanline, p0), s.x, s.atr)];
        } else {
          overflow := true;
          return;
        }
      }
      n := n + 1;
    }
    if |sprbuf| > 8 {
      overflow := true;
    }
  }

  method ReadSprite(oam: array<Byte>, n: nat) returns (s: Sprite)
    requires oam.Length == 256 && n < 64
    ensures s == SpriteAt(oam[..], n)
    ensures s.y == oam[4 * n] && s.no == oam[4 * n + 1] && s.atr == oam[4 * n + 2] && s.x == oam[4 * n + 3]
  {
    s := Sprite(oam[4 * n], oam[4 * n + 1], oam[4 * n + 2], oam[4 * n + 3]);
  }

  lemma FoundLast(oam: Oam, line: int, height: int, n: nat)
    requires n <= 64
    ensures n == 64 ==> Found(oam, line, height, n) == AllFound(oam, line, height)
  {
  }

  lemma HeightRange(p0: Byte)
    ensures Height(p0) == 8 || Height(p0) == 16
  {
  }

  // ---------- the new evaluator ----------

  /** A slot of the internal sprite buffer: the four bytes, the sprite's index, and whether it is filled. */
  datatype Slot = Slot(sprite: Sprite, index: nat, filled: bool)

  /** Copies the sprites on line `yp` into the buffer. With rendering on and the limit in force it stops
      at the ninth; with rendering off neither the flag is set nor the search ends. */
  method FindSprites(oam: array<Byte>, slots: array<Slot>, yp: int, p0: Byte, on: bool, maxSprites: nat, overflow0: bool)
    returns (oamCount: nat, overflow: bool)
    requires oam.Length == 256 && slots.Length == 64 && (maxSprites == 8 || maxSprites == 64)
    modifies slots
    ensures var f := AllFound(oam[..], yp, Height(p0));
            && oamCount == (if on && maxSprites == 8 && |f| > 8 then 8 else |f|)
            && (forall k | 0 <= k < oamCount :: slots[k] == Slot(SpriteAt(oam[..], f[k]), f[k], true))
            && (overflow <==> overflow0 || (on && |f| > 8))
  {
    hide Height, Found, AllFound, SpriteAt;
    oamCount, overflow := 0, overflow0;
    var height := if And32(p0, 0x20) != 0 then 16 else 8;
    NewHeightIs(p0);
    ghost var table := oam[..];
    var i := 0;
    FoundNone(table, yp, height, i);
    while i < 64
      invariant 0 <= i <= 64
      invariant var f := Found(table, yp, height, i);
                && f <= AllFound(table, yp, height) && oamCount == |f| <= i && (on && maxSprites == 8 ==> |f| <= 8)
                && (forall k | 0 <= k < oamCount :: slots[k] == Slot(SpriteAt(table, f[k]), f[k], true))
                && (overflow <==> overflow0 || (on && |f| > 8))
      invariant i == 64 ==> Found(table, yp, height, i) == AllFound(table, yp, height)
    {
      slots[oamCount] := slots[oamCount].(filled := false);
      var s := ReadSprite(oam, i);
      FoundStep(table, yp, height, i);
      FoundLast(table, yp, height, i + 1);
      if yp >= s.y && yp < s.y + height {
        if oamCount >= 8 && on {
          overflow := true;
          if maxSprites == 8 {
            break;
          }
        }
        slots[oamCount] := Slot(s, i, true);
        oamCount := oamCount + 1;
      }
      i := i + 1;
    }
  }

  lemma NewHeightIs(p0: Byte)
    ensures Height(p0) == if And32(p0, 0x20) != 0 then 16 else 8
  {
    hide And32;
    BitMasks(p0);
  }

  /** The row as an unsigned number. */
  function NewLine(s: Sprite, yp: int, p0: Byte): U32 {
    var height := if And32(p0, 0x20) != 0 then 16 else 8;
    var line := (yp - s.y) % 0x1_0000_0000;
    if And32(s.atr, 0x80) != 0 then (height - line - 1) % 0x1_0000_0000 else line
  }

  function TallPattern(no: Byte, line: U32): int {
    Or32(Or32(And32(no, 0xFFFF_FFFE), line / 8) * 0x10, And32(no, 1) * 0x1000)
  }

  function SmallPattern(no: Byte, p0: Byte): int {
    Or32(no * 0x10, And32(p0, 8) * 0x200)
  }

  function NewAddress(s: Sprite, yp: int, p0: Byte): int {
    var line := NewLine(s, yp, p0);
    var pattern := if And32(p0, 0x20) != 0 then TallPattern(s.no, line) else SmallPattern(s.no, p0);
    (pattern + And32(line, 7)) % 0x1_0000_0000
  }

  lemma NewLineIs(s: Sprite, yp: int, p0: Byte)
    requires OnLine(s, yp, Height(p0))
    ensures NewLine(s, yp, p0) == Row(s, yp, Height(p0)) && 0 <= Row(s, yp, Height(p0)) < Height(p0)
  {
    hide And32, Height;
    NewHeightIs(p0);
    BitMasks(s.atr);
  }

  lemma TallPatternIs(no: Byte, line: U32)
    requires line < 16
    ensures TallPattern(no, line) == 0x1000 * (no % 2) + 0x10 * (no - no % 2 + line / 8)
  {
    hide And32, Or32, Bitwise, Pow2;
    BitMasks(no);
    EvenMask(no);
    Pow2Small();
    OrInto(no - no % 2, 1, line / 8);
    TwelveBits();
    OrInto(no % 2 * 0x1000, 12, (no - no % 2 + line / 8) * 0x10);
  }

  lemma SmallPatternIs(no: Byte, p0: Byte)
    ensures SmallPattern(no, p0) == 0x1000 * (p0 / 8 % 2) + 0x10 * no
  {
    hide And32, Or32, Bitwise, Pow2;
    BitMasks(p0);
    TwelveBits();
    OrInto(p0 / 8 % 2 * 0x1000, 12, no * 0x10);
  }

  lemma NewAddressIs(s: Sprite, yp: int, p0: Byte)
    requires OnLine(s, yp, Height(p0))
    ensures NewAddress(s, yp, p0) == PatternAddress(s, yp, p0)
  {
    hide And32, Or32, NewLine, TallPattern, SmallPattern, Height, Row;
    NewLineIs(s, yp, p0);
    NewHeightIs(p0);
    var r := Row(s, yp, Height(p0));
    ValueMasks(r);
    if Height(p0) == 16 {
      TallPatternIs(s.no, r);
    } else {
      SmallPatternIs(s.no, p0);
    }
  }

  lemma TwelveBits()
    ensures Pow2(12) == 0x1000
  {
    SmallBits();
    hide Pow2;
    Pow2Add(5, 7);
  }

  /** Fetches the sprites copied before. */
  method FetchSlots(slots: array<Slot>, oamCount: nat, yp: int, p0: Byte, maxSprites: nat) returns (fetched: seq<Fetched>)
    requires slots.Length == 64 && oamCount <= 64 && (maxSprites == 8 || maxSprites == 64)
    requires forall k | 0 <= k < oamCount :: OnLine(slots[k].sprite, yp, Height(p0))
    ensures |fetched| == if oamCount <= maxSprites then oamCount else maxSprites
    ensures forall k | 0 <= k < |fetched| ::
              var s := slots[k].sprite; fetched[k] == Fetched(PatternAddress(s, yp, p0), s.x, s.atr)
  {
    hide NewAddress, PatternAddress, Height;
    fetched := [];
    var s := 0;
    while s < maxSprites && s < oamCount
      invariant s == |fetched| <= maxSprites && s <= oamCount
      invariant forall k | 0 <= k < |fetched| ::
                  var s := slots[k].sprite; fetched[k] == Fetched(PatternAddress(s, yp, p0), s.x, s.atr)
    {
      var spr := slots[s].sprite;
      NewAddressIs(spr, yp, p0);
      fetched := fetched + [Fetched(NewAddress(spr, yp, p0), spr.x, spr.atr)];
      s := s + 1;
    }
  }

  // ---------- agreement ----------

  /** On every line of the picture and for every sprite table, with rendering on, both evaluators fetch
      the same rows of the same sprites in the same order, agree on sprite 0, and set the overflow flag alike. */
  method Both(oam: array<Byte>, slots: array<Slot>, scanline: nat, p0: Byte, maxSprites: nat, overflow0: bool)
    returns (old0: seq<Fetched>, oldZero: bool, oldOverflow: bool, new0: seq<Fetched>, newOverflow: bool)
    requires oam.Length == 256 && slots.Length == 64 && scanline < 240 && (maxSprites == 8 || maxSprites == 64)
    modifies slots
    ensures old0 == new0 && oldOverflow == newOverflow
    ensures oldZero <==> |new0| > 0 && slots[0].index == 0
  {
    hide Fetch, PatternAddress, Height, SpriteAt;
    old0, oldZero, oldOverflow := FetchSpriteData(oam, scanline, p0, maxSprites, overflow0);
    var oamCount, overflow := FindSprites(oam, slots, scanline, p0, true, maxSprites, overflow0);
    newOverflow := overflow;
    FoundExactly(oam[..], scanline, Height(p0), 64);
    forall k | 0 <= k < |AllFound(oam[..], scanline, Height(p0))|
      ensures var i := AllFound(oam[..], scanline, Height(p0))[k];
              && OnLine(SpriteAt(oam[..], i), scanline, Height(p0))
              && var s := SpriteAt(oam[..], i); Fetch(oam[..], i, scanline, p0) == Fetched(PatternAddress(s, scanline, p0), s.x, s.atr)
    {
      var i := AllFound(oam[..], scanline, Height(p0))[k];
      assert i in AllFound(oam[..], scanline, Height(p0));
      FetchIs(oam[..], i, scanline, p0);
    }
    new0 := FetchSlots(slots, oamCount, scanline, p0, maxSprites);
  }

  lemma FetchIs(oam: Oam, i: nat, line: int, p0: Byte)
    requires i < 64
    ensures var s := SpriteAt(oam, i); Fetch(oam, i, line, p0) == Fetched(PatternAddress(s, line, p0), s.x, s.atr)
  {
  }
}
