/** The dot clock of the new PPU loop: what a scan line costs, when the scroll counters move,
    and which point of the background each pixel of the picture comes from. */
module PpuDots {
  import opened PpuScroll

  type Scroll = c: Counters | InRange(c) witness Counters(0, 0, 0, 0, 0)

  datatype Option<T> = None | Some(value: T)

  type Fine = x: nat | x < 8

  datatype Written = Written(clocked: Scroll, latched: Scroll, fh: Fine)

  /** What the CPU leaves behind when it has run along with one call of `runppu`: whether rendering is
      on, and the scroll registers if it wrote them. A run of the CPU is any sequence of these. */
  datatype CpuStep = CpuStep(on: bool, written: Option<Written>)

  /** Rendering stays on and the scroll registers are left alone during `n` calls. */
  ghost predicate Quiet(cpu: nat -> CpuStep, from: nat, n: nat) {
    forall k :: from <= k < from + n ==> cpu(k) == CpuStep(true, None)
  }

  lemma QuietPart(cpu: nat -> CpuStep, from: nat, n: nat, skip: nat, m: nat)
    requires skip + m <= n
    ensures Quiet(cpu, from, n) ==> Quiet(cpu, from + skip, m)
  {
  }

  lemma QuietSteps(cpu: nat -> CpuStep, from: nat)
    ensures Quiet(cpu, from, 5) ==>
              && cpu(from) == CpuStep(true, None) && cpu(from + 1) == CpuStep(true, None)
              && cpu(from + 2) == CpuStep(true, None) && cpu(from + 3) == CpuStep(true, None)
              && cpu(from + 4) == CpuStep(true, None)
  {
  }

  lemma QuietStart(cpu: nat -> CpuStep, from: nat)
    ensures Quiet(cpu, from, 1) ==> cpu(from) == CpuStep(true, None)
    ensures Quiet(cpu, from, 2) ==> cpu(from) == CpuStep(true, None) && cpu(from + 1) == CpuStep(true, None)
    ensures Quiet(cpu, from, 3) ==>
              && cpu(from) == CpuStep(true, None) && cpu(from + 1) == CpuStep(true, None)
              && cpu(from + 2) == CpuStep(true, None)
  {
  }

  // ---------- columns ----------

  /** The tile column in the two nametables side by side. */
  function Column(c: Counters): int {
    32 * c.h + c.ht
  }

  function Right(c: Scroll): (d: Scroll)
    ensures d.fv == c.fv
  {
    if c.ht + 1 == 32 then c.(ht := 0, h := if c.h == 0 then 1 else 0) else c.(ht := c.ht + 1)
  }

  /** `n` tiles further right, round both nametables. */
  function RightBy(c: Scroll, n: nat): (d: Scroll)
    ensures Column(d) == (Column(c) + n) % 64
    ensures d.fv == c.fv && d.v == c.v && d.vt == c.vt
  {
    var column := (Column(c) + n) % 64;
    c.(h := column / 32, ht := column % 32)
  }

  lemma SameColumn(c: Scroll, d: Scroll)
    requires Column(c) == Column(d) && c.fv == d.fv && c.v == d.v && c.vt == d.vt
    ensures c == d
  {
  }

  lemma RightByNone(c: Scroll)
    ensures RightBy(c, 0) == c && RightBy(c, 64) == c
  {
    SameColumn(RightBy(c, 0), c);
    SameColumn(RightBy(c, 64), c);
  }

  lemma Mod64(a: int, b: int)
    ensures (a % 64 + b) % 64 == (a + b) % 64
  {
    assert a == a / 64 * 64 + a % 64;
    Bits.DivAddMultiple(a % 64 + b, 64, a / 64);
  }

  lemma RightColumn(c: Scroll)
    ensures Column(Right(c)) == (Column(c) + 1) % 64
    ensures Right(c).fv == c.fv && Right(c).v == c.v && Right(c).vt == c.vt
  {
  }

  lemma RightByMore(c: Scroll, n: nat)
    ensures Right(RightBy(c, n)) == RightBy(c, n + 1)
  {
    hide RightBy, Right, Column;
    RightColumn(RightBy(c, n));
    Mod64(Column(c) + n, 1);
    SameColumn(Right(RightBy(c, n)), RightBy(c, n + 1));
  }

  function Below(c: Scroll): Scroll {
    NextLine(c)
  }

  lemma BelowKeepsColumn(c: Scroll, n: nat)
    ensures Below(RightBy(c, n)) == RightBy(Below(c), n)
  {
    hide RightBy;
    SameColumn(Below(RightBy(c, n)), RightBy(Below(c), n));
  }

  /** After the 34 tiles of a line and the step down, the reload of the column leads to the start of the next line. */
  lemma ReloadedColumn(c: Scroll, latched: Scroll)
    ensures Column(c) == Column(latched) ==>
              Below(RightBy(c, 34)).(h := latched.h, ht := latched.ht) == Below(c)
  {
    hide RightBy;
    BelowKeepsColumn(c, 34);
    if Column(c) == Column(latched) {
      SameColumn(Below(RightBy(c, 34)).(h := latched.h, ht := latched.ht), Below(c));
    }
  }

  /** The counters `k` lines further down. */
  function Down(c: Scroll, k: nat): Scroll
    decreases k
  {
    if k == 0 then c else Down(Below(c), k - 1)
  }

  lemma {:induction false} DownOnce(c: Scroll, k: nat)
    ensures Below(Down(c, k)) == Down(c, k + 1)
    decreases k
  {
    if k > 0 {
      DownOnce(Below(c), k - 1);
    }
  }

  lemma LineBelow(c: Scroll)
    requires c.vt < 30
    ensures Below(c).vt < 30 && Line(Below(c)) == (Line(c) + 1) % 480
  {
    NextLineIsNext(c);
  }

  lemma Mod480(a: int, k: nat)
    requires k > 0
    ensures ((a + 1) % 480 + (k - 1)) % 480 == (a + k) % 480
  {
    var b := a + 1;
    assert b == b / 480 * 480 + b % 480;
    Bits.DivAddMultiple(b % 480 + (k - 1), 480, b / 480);
  }

  lemma {:induction false} DownColumn(c: Scroll, k: nat)
    ensures Column(Down(c, k)) == Column(c)
    decreases k
  {
    if k > 0 {
      assert Column(Below(c)) == Column(c);
      DownColumn(Below(c), k - 1);
    }
  }

  /** From a scroll position inside the picture area, going down runs through the 480 lines of the
      two nametables one above the other and keeps the column. */
  lemma {:induction false} DownLines(c: Scroll, k: nat)
    requires c.vt < 30
    ensures Line(Down(c, k)) == (Line(c) + k) % 480 && Down(c, k).vt < 30
    decreases k
  {
    if k > 0 {
      LineBelow(c);
      hide Line, Below;
      DownLines(Below(c), k - 1);
      Mod480(Line(c), k);
    }
  }

  // ---------- tiles and pixels ----------

  /** One fetched background tile: the counters that addressed its nametable entry and the fine row of its pattern. */
  datatype Tile = Tile(at: Counters, row: int)

  /** A point of the four nametables seen as one picture. */
  datatype Point = Point(x: int, y: int)

  function PixelOf(tile: Tile, px: int): Point {
    Point(8 * Column(tile.at) + px, 240 * tile.at.v + 8 * tile.at.vt + tile.row)
  }

  /** Pixel `p` of a line scrolled to `c` and fine offset `fh`. */
  function Scrolled(c: Counters, fh: int, p: int): Point {
    Point((8 * Column(c) + fh + p) % 512, Line(c))
  }

  /** Eight times the column and the pixel inside the tile make the scrolled point. */
  lemma TilePixel(c: Scroll, fh: Fine, p: nat)
    ensures PixelOf(Tile(RightBy(c, (p + fh) / 8), c.fv), (p + fh) % 8) == Scrolled(c, fh, p)
  {
    hide RightBy, Column;
    var q := p + fh;
    var n := Column(c) + q / 8;
    assert 8 * Column(c) + q == 512 * (n / 64) + (8 * (n % 64) + q % 8) by {
      assert q == 8 * (q / 8) + q % 8;
      assert n == 64 * (n / 64) + n % 64;
    }
    Bits.DivUnique(8 * Column(c) + q, 512, n / 64, 8 * (n % 64) + q % 8);
  }

  // ---------- what a run of the CPU means for one line ----------

  /** Rendering is on when the counters may be reloaded: at dot 256, or at dot 304 of the first line. */
  function Reloads(cpu: nat -> CpuStep, from: nat, line: nat): bool {
    if line == 0 then cpu(from + 183).on else line < 241 && cpu(from + 159).on
  }

  /** The dots at which the counters are reloaded; rendering must still be on one dot later. */
  function Reloading(cpu: nat -> CpuStep, from: nat, line: nat): seq<int> {
    if !Reloads(cpu, from, line) then [] else
    if line == 0 then (if cpu(from + 184).on then [305] else []) else if cpu(from + 160).on then [257] else []
  }

  /** The call of `runppu` with which the two tiles for the next line start; a reload costs two more. */
  function TailCall(cpu: nat -> CpuStep, from: nat, line: nat): nat {
    from + 192 + if Reloads(cpu, from, line) then 2 else 0
  }

  /** The first line of every second frame is one dot short, if rendering is on and the console is not PAL. */
  function Skips(cpu: nat -> CpuStep, from: nat, line: nat, idleSynch: bool, pal: bool): bool {
    line == 0 && idleSynch && !pal && cpu(TailCall(cpu, from, line) + 10).on
  }

  /** The two tiles that begin a line scrolled to `c` are in place. */
  predicate Prefetched(c: Scroll, clocked: Scroll, first: Tile, second: Tile) {
    clocked == RightBy(c, 2) && first == Tile(RightBy(c, 0), c.fv) && second == Tile(RightBy(c, 1), c.fv)
  }

  /** Whether the scroll registers are reloaded while the next sprite is fetched. */
  predicate ReloadDue(on: bool, line: int, cycle: int) {
    on && (if line == 0 then cycle == 304 else line < 241 && cycle == 256)
  }

  /** What a reload makes of the clocked counters: all of them on line 0, the column afterwards. */
  function Reloaded(line: int, clocked: Scroll, latched: Scroll): Scroll {
    if line == 0 then latched else clocked.(h := latched.h, ht := latched.ht)
  }

  /** The dot counter after `x` dots. */
  function Advance(cycle: int, x: int, endCycle: int): (r: int)
    requires endCycle > 0
    ensures 0 <= cycle + x < endCycle ==> r == cycle + x
    ensures cycle + x == endCycle ==> r == 0
  {
    (cycle + x) % endCycle
  }

  class Loop {
    const cpu: nat -> CpuStep
    const pal: bool
    // ppur.status
    var sl: int
    var cycle: int
    var endCycle: int
    // idleSynch and PPUON
    var idleSynch: bool
    var on: bool
    // scroll registers
    var clocked: Scroll
    var latched: Scroll
    var fh: Fine
    // bgdata.main and, for each pixel of the picture, the background point drawn
    const main: array<Tile>
    const shown: array2<Point>
    // number of runppu calls and of dots so far; dots at which the counters went down or were reloaded
    var calls: nat
    ghost var dots: nat
    ghost var downs: seq<int>
    ghost var reloads: seq<int>

    ghost predicate Valid()
      reads this
    {
      main.Length == 34 && shown.Length0 == 240 && shown.Length1 == 256 && (endCycle == 340 || endCycle == 341)
    }

    constructor (cpu: nat -> CpuStep, pal: bool)
      ensures Valid() && fresh(main) && fresh(shown) && this.cpu == cpu && this.pal == pal
      ensures cycle == 0 && endCycle == 341 && idleSynch && calls == 0 && dots == 0
    {
      this.cpu, this.pal := cpu, pal;
      sl, cycle, endCycle, idleSynch, on := 241, 0, 341, true, false;
      clocked, latched, fh := Counters(0, 0, 0, 0, 0), Counters(0, 0, 0, 0, 0), 0;
      calls, dots, downs, reloads := 0, 0, [], [];
      main := new Tile[34];
      shown := new Point[240, 256];
    }

    /** Lets the PPU clock and the CPU run for `x` dots. */
    method RunPpu(x: nat)
      requires endCycle > 0
      modifies this`cycle, this`calls, this`dots, this`on, this`clocked, this`latched, this`fh
      ensures cycle == Advance(old(cycle), x, endCycle) && calls == old(calls) + 1 && dots == old(dots) + x
      ensures on == cpu(old(calls)).on
      ensures cpu(old(calls)).written == None ==>
                clocked == old(clocked) && latched == old(latched) && fh == old(fh)
    {
      cycle := Advance(cycle, x, endCycle);
      var step := cpu(calls);
      on := step.on;
      match step.written {
        case None =>
        case Some(w) => clocked, latched, fh := w.clocked, w.latched, w.fh;
      }
      calls := calls + 1;
      dots := dots + x;
    }

    method ClockScroll()
      modifies this`clocked, this`downs
      ensures clocked == if !on then old(clocked) else
                         if cycle == 251 then Below(Right(old(clocked))) else Right(old(clocked))
      ensures downs == old(downs) + if on && cycle == 251 then [251] else []
    {
      if on {
        clocked := Right(clocked);
        if cycle == 251 {
          clocked := Below(clocked);
          downs := downs + [251];
        }
      }
    }

    /** The first four dots of a tile fetch: nametable and attribute. */
    method ReadName()
      requires Valid() && 0 <= cycle && cycle + 8 < endCycle
      modifies this`cycle, this`calls, this`dots, this`on, this`clocked, this`latched, this`fh, this`downs
      ensures cycle == old(cycle) + 4 && calls == old(calls) + 3 && dots == old(dots) + 4
      ensures downs == old(downs) + if old(cycle) == 248 && cpu(old(calls) + 1).on then [251] else []
      ensures cpu(old(calls)) == cpu(old(calls) + 1) == cpu(old(calls) + 2) == CpuStep(true, None) ==>
                && latched == old(latched) && fh == old(fh)
                && clocked == (if old(cycle) == 248 then Below(Right(old(clocked))) else Right(old(clocked)))
    {
      hide Below, Right, Advance;
      RunPpu(2);
      RunPpu(1);
      ClockScroll();
      RunPpu(1);
    }

    /** Fetches one background tile in eight dots; the horizontal counters are clocked at its dot 3,
        and the vertical ones as well if that is dot 251. */
    method Read(i: nat)
      requires Valid() && i < 34 && 0 <= cycle && cycle + 8 < endCycle
      modifies this`cycle, this`calls, this`dots, this`on, this`clocked, this`latched, this`fh, this`downs, main
      ensures Valid() && cycle == old(cycle) + 8 && calls == old(calls) + 5 && dots == old(dots) + 8
      ensures on == cpu(old(calls) + 4).on
      ensures downs == old(downs) + if old(cycle) == 248 && cpu(old(calls) + 1).on then [251] else []
      ensures forall k | 0 <= k < 34 && k != i :: main[k] == old(main[k])
      ensures Quiet(cpu, old(calls), 5) ==>
                && on && latched == old(latched) && fh == old(fh)
                && clocked == (if old(cycle) == 248 then Below(Right(old(clocked))) else Right(old(clocked)))
                && (old(cycle) != 248 ==> main[i] == Tile(old(clocked), old(clocked).fv))
    {
      hide Quiet, Below, Right, Advance;
      QuietSteps(cpu, calls);
      var nt := clocked;
      ReadName();
      main[i] := Tile(nt, clocked.fv);
      RunPpu(2);
      RunPpu(2);
    }

    /** Draws the background of eight pixels: each from the fetched tile it falls into after the fine
        offset. If those are tiles of a line scrolled to `c`, the pixels are that line's. */
    method DrawTile(xt: nat, ghost c: Scroll)
      requires Valid() && 1 <= sl <= 240 && xt < 32
      modifies shown
      ensures forall y, p | 0 <= y < 240 && 0 <= p < 256 ::
                shown[y, p] == if y == sl - 1 && 8 * xt <= p < 8 * xt + 8
                               then PixelOf(main[(p + fh) / 8], (p + fh) % 8) else old(shown[y, p])
      ensures main[xt] == Tile(RightBy(c, xt), c.fv) && main[xt + 1] == Tile(RightBy(c, xt + 1), c.fv) ==>
                forall p: nat | 8 * xt <= p < 8 * xt + 8 :: shown[sl - 1, p] == Scrolled(c, fh, p)
    {
      hide PixelOf, RightBy, Scrolled;
      forall p: nat | p < 256
        ensures PixelOf(Tile(RightBy(c, (p + fh) / 8), c.fv), (p + fh) % 8) == Scrolled(c, fh, p)
      {
        TilePixel(c, fh, p);
      }
      for xp := 0 to 8
        invariant forall y, p | 0 <= y < 240 && 0 <= p < 256 ::
                    shown[y, p] == if y == sl - 1 && 8 * xt <= p < 8 * xt + xp
                                   then PixelOf(main[(p + fh) / 8], (p + fh) % 8) else old(shown[y, p])
      {
        var bgpos := 8 * xt + xp + fh;
        shown[sl - 1, 8 * xt + xp] := PixelOf(main[bgpos / 8], bgpos % 8);
      }
    }

    /** Fetches the second next tile and draws the current one. */
    method RenderTile(xt: nat, ghost c: Scroll)
      requires Valid() && cycle == 8 * xt && xt < 32
      modifies this`cycle, this`calls, this`dots, this`on, this`clocked, this`latched, this`fh, this`downs, main, shown
      ensures Valid() && cycle == 8 * xt + 8 && calls == old(calls) + 5 && dots == old(dots) + 8
      ensures on == cpu(calls - 1).on
      ensures downs == old(downs) + if xt == 31 && cpu(old(calls) + 1).on then [251] else []
      ensures forall y, p | 0 <= y < 240 && 0 <= p < 256 && (y != sl - 1 || p < 8 * xt) :: shown[y, p] == old(shown[y, p])
      ensures Quiet(cpu, old(calls), 5) ==>
                && on && latched == old(latched) && fh == old(fh)
                && (old(clocked) == RightBy(c, xt + 2) ==>
                      && clocked == (if xt == 31 then Below(RightBy(c, 34)) else RightBy(c, xt + 3))
                      && (xt < 31 ==> main[xt + 2] == Tile(RightBy(c, xt + 2), c.fv)))
      ensures forall k | 0 <= k < 34 && k != xt + 2 :: main[k] == old(main[k])
      ensures 1 <= sl < 241 && main[xt] == Tile(RightBy(c, xt), c.fv) && main[xt + 1] == Tile(RightBy(c, xt + 1), c.fv) ==>
                forall p: nat | 8 * xt <= p < 8 * xt + 8 :: shown[sl - 1, p] == Scrolled(c, fh, p)
    {
      hide Quiet, Below, Right, RightBy, Advance, Scrolled, PixelOf, Column;
      RightByMore(c, xt + 2);
      Read(xt + 2);
      if 1 <= sl < 241 {
        DrawTile(xt, c);
      }
    }

    /** The 256 dots in which 32 tiles are fetched and drawn. */
    method RenderTiles(ghost c: Scroll)
      requires Valid() && cycle == 0
      modifies this`cycle, this`calls, this`dots, this`on, this`clocked, this`latched, this`fh, this`downs, main, shown
      ensures Valid() && cycle == 256 && calls == old(calls) + 160 && dots == old(dots) + 256
      ensures on == cpu(old(calls) + 159).on
      ensures downs == old(downs) + if cpu(old(calls) + 156).on then [251] else []
      ensures forall y, p | 0 <= y < 240 && 0 <= p < 256 && y != sl - 1 :: shown[y, p] == old(shown[y, p])
      ensures Quiet(cpu, old(calls), 160) ==> on && latched == old(latched) && fh == old(fh)
      ensures Quiet(cpu, old(calls), 160) && Prefetched(c, old(clocked), old(main[0]), old(main[1])) ==>
                && clocked == Below(RightBy(c, 34))
                && (1 <= sl <= 240 ==> forall p | 0 <= p < 256 :: shown[sl - 1, p] == Scrolled(c, fh, p))
    {
      hide Quiet, Below, Right, RightBy, Advance, Scrolled, PixelOf, Column;
      RightByNone(c);
      ghost var start, quiet := calls, Quiet(cpu, calls, 160);
      ghost var good := quiet && Prefetched(c, clocked, main[0], main[1]);
      for xt := 0 to 32
        invariant Valid() && cycle == 8 * xt && calls == start + 5 * xt && dots == old(dots) + 8 * xt
        invariant xt > 0 ==> on == cpu(calls - 1).on
        invariant downs == old(downs) + if xt == 32 && cpu(start + 156).on then [251] else []
        invariant forall y, p | 0 <= y < 240 && 0 <= p < 256 && y != sl - 1 :: shown[y, p] == old(shown[y, p])
        invariant quiet ==> (xt > 0 ==> on) && latched == old(latched) && fh == old(fh)
        invariant good ==> clocked == if xt == 32 then Below(RightBy(c, 34)) else RightBy(c, xt + 2)
        invariant good ==> forall k | 0 <= k < xt + 2 && k < 33 :: main[k] == Tile(RightBy(c, k), c.fv)
        invariant good && 1 <= sl <= 240 ==> forall p | 0 <= p < 8 * xt :: shown[sl - 1, p] == Scrolled(c, fh, p)
      {
        QuietPart(cpu, start, 160, 5 * xt, 5);
        RenderTile(xt, c);
      }
    }

    /** Two dots; after the first the counters are reloaded if rendering is still on. */
    method Reload()
      requires Valid() && 0 <= sl && 0 <= cycle < 338
      modifies this`cycle, this`calls, this`dots, this`on, this`clocked, this`latched, this`fh, this`reloads
      ensures cycle == old(cycle) + 2 && dots == old(dots) + 2 && calls == old(calls) + 2 && on == cpu(old(calls) + 1).on
      ensures reloads == old(reloads) + if cpu(old(calls)).on then [old(cycle) + 1] else []
      ensures cpu(old(calls)) == CpuStep(true, None) && cpu(old(calls) + 1) == CpuStep(true, None) ==>
                latched == old(latched) && fh == old(fh) && clocked == Reloaded(sl, old(clocked), old(latched))
    {
      hide Advance;
      RunPpu(1);
      if on {
        clocked := Reloaded(sl, clocked, latched);
        reloads := reloads + [cycle];
      }
      RunPpu(1);
    }

    /** The dummy nametable fetches of a sprite: two dots for a real sprite, split in one and one where
        the counters are reloaded. */
    method SpriteNametable(realSprite: bool)
      requires Valid() && sl >= 0 && 0 <= cycle < 338 && (!realSprite ==> cycle == 320)
      modifies this`cycle, this`calls, this`dots, this`on, this`clocked, this`latched, this`fh, this`reloads
      ensures cycle == old(cycle) + (if realSprite then 2 else 0) && dots == old(dots) + (if realSprite then 2 else 0)
      ensures calls == old(calls) + if !realSprite then 0 else if ReloadDue(old(on), sl, old(cycle)) then 3 else 1
      ensures realSprite ==> on == cpu(calls - 1).on
      ensures reloads == old(reloads) + if ReloadDue(old(on), sl, old(cycle)) && cpu(old(calls)).on then [old(cycle) + 1] else []
      ensures !realSprite ==> on == old(on) && clocked == old(clocked) && latched == old(latched) && fh == old(fh)
      ensures Quiet(cpu, old(calls), 3) && old(on) ==>
                && on && latched == old(latched) && fh == old(fh)
                && clocked == if ReloadDue(old(on), sl, old(cycle)) then Reloaded(sl, old(clocked), old(latched)) else old(clocked)
    {
      hide Quiet, Advance, Reloaded;
      QuietStart(cpu, calls);
      var garbage := 2;
      if on {
        if sl == 0 && cycle == 304 {
          Reload();
          garbage := 0;
        }
        if sl != 0 && sl < 241 && cycle == 256 {
          Reload();
          garbage := 0;
        }
      }
      if realSprite {
        RunPpu(garbage);
      }
    }

    /** One sprite: nametable fetches and, for a real sprite, the six remaining dots. */
    method FetchSprite(realSprite: bool)
      requires Valid() && sl >= 0 && 0 <= cycle <= 320 && (!realSprite ==> cycle == 320)
      modifies this`cycle, this`calls, this`dots, this`on, this`clocked, this`latched, this`fh, this`reloads
      ensures cycle == old(cycle) + (if realSprite then 8 else 0) && dots == old(dots) + (if realSprite then 8 else 0)
      ensures calls == old(calls) + if !realSprite then 0 else if ReloadDue(old(on), sl, old(cycle)) then 6 else 4
      ensures realSprite ==> on == cpu(calls - 1).on
      ensures reloads == old(reloads) + if ReloadDue(old(on), sl, old(cycle)) && cpu(old(calls)).on then [old(cycle) + 1] else []
      ensures !realSprite ==> on == old(on) && clocked == old(clocked) && latched == old(latched) && fh == old(fh)
      ensures Quiet(cpu, old(calls), 6) && old(on) ==>
                && on && latched == old(latched) && fh == old(fh)
                && clocked == if ReloadDue(old(on), sl, old(cycle)) then Reloaded(sl, old(clocked), old(latched)) else old(clocked)
    {
      hide Quiet, Advance;
      ghost var start := calls;
      QuietPart(cpu, start, 6, 0, 3);
      SpriteNametable(realSprite);
      if realSprite {
        QuietPart(cpu, start, 6, calls - start, 3);
        QuietStart(cpu, calls);
        RunPpu(2);
        RunPpu(2);
        RunPpu(2);
      }
    }

    /** The 64 dots of the sprite fetches, however many sprites are on the line and whatever the sprite limit. */
    method FetchSprites(oamCount: nat, maxSprites: nat)
      requires Valid() && sl >= 0 && cycle == 256 && calls >= 160 && on == cpu(calls - 1).on
      requires (maxSprites == 8 || maxSprites == 64)
      modifies this`cycle, this`calls, this`dots, this`on, this`clocked, this`latched, this`fh, this`reloads
      ensures cycle == 320 && dots == old(dots) + 64
      ensures calls == TailCall(cpu, old(calls) - 160, sl)
      ensures reloads == old(reloads) + Reloading(cpu, old(calls) - 160, sl)
      ensures Quiet(cpu, old(calls) - 160, 196) ==>
                on && latched == old(latched) && fh == old(fh) && clocked == if sl < 241 then Reloaded(sl, old(clocked), old(latched)) else old(clocked)
    {
      hide Quiet, Advance;
      ghost var start, quiet := calls, Quiet(cpu, calls - 160, 196);
      QuietPart(cpu, start - 160, 196, 159, 1);
      QuietStart(cpu, start - 1);
      var s := 0;
      while s < maxSprites
        invariant s <= maxSprites && cycle == (if s < 8 then 256 + 8 * s else 320) && dots - old(dots) == cycle - 256
        invariant calls == start + (if s < 8 then 4 * s else 32)
                         + if Reloads(cpu, start - 160, sl) && s > (if sl == 0 then 6 else 0) then 2 else 0
        invariant 0 < s ==> on == cpu(calls - 1).on
        invariant s == 0 ==> on == old(on)
        invariant reloads == old(reloads) + if s > (if sl == 0 then 6 else 0) then Reloading(cpu, start - 160, sl) else []
        invariant quiet ==> on && latched == old(latched) && fh == old(fh)
        invariant quiet ==> clocked == if s > (if sl == 0 then 6 else 0) && sl < 241 then Reloaded(sl, old(clocked), old(latched)) else old(clocked)
      {
        if s == oamCount && s >= 8 {
          break;
        }
        if s < 8 {
          QuietPart(cpu, start - 160, 196, calls - (start - 160), 6);
        }
        FetchSprite(s < 8);
        s := s + 1;
      }
    }

    /** The dots that are left after the last tile; the very last one is dropped on the first line of
        every second frame. */
    method IdleDots()
      requires Valid() && sl >= 0 && cycle == 336
      modifies this`cycle, this`endCycle, this`idleSynch, this`calls, this`dots, this`on, this`clocked, this`latched, this`fh
      ensures Valid() && cycle == 0 && dots == old(dots) + endCycle - 336
      ensures endCycle == if sl == 0 && old(idleSynch) && !pal && cpu(old(calls)).on then 340 else 341
      ensures calls == old(calls) + endCycle - 338
      ensures on == cpu(calls - 1).on && idleSynch == if sl == 0 then !old(idleSynch) else old(idleSynch)
      ensures Quiet(cpu, old(calls), endCycle - 338) ==> clocked == old(clocked) && latched == old(latched) && fh == old(fh)
    {
      hide Quiet, Advance;
      QuietStart(cpu, calls);
      RunPpu(2);
      if sl == 0 {
        if idleSynch && on && !pal {
          endCycle := 340;
        } else {
          endCycle := 341;
        }
        idleSynch := !idleSynch;
      } else {
        endCycle := 341;
      }
      RunPpu(2);
      if endCycle == 341 {
        RunPpu(1);
      }
    }

    /** The two tiles of the next line and the rest of the line. */
    method EndLine()
      requires Valid() && sl >= 0 && cycle == 320
      modifies this`cycle, this`endCycle, this`idleSynch, this`calls, this`dots, this`on, this`clocked, this`latched,
               this`fh, this`downs, main
      ensures Valid() && cycle == 0 && dots == old(dots) + endCycle - 320 && downs == old(downs)
      ensures endCycle == if sl == 0 && old(idleSynch) && !pal && cpu(old(calls) + 10).on then 340 else 341
      ensures calls == old(calls) + endCycle - 328
      ensures on == cpu(calls - 1).on && idleSynch == if sl == 0 then !old(idleSynch) else old(idleSynch)
      ensures Quiet(cpu, old(calls), endCycle - 328) ==>
                latched == old(latched) && fh == old(fh) && Prefetched(old(clocked), clocked, main[0], main[1])
    {
      hide Quiet, Advance, Below, Right, RightBy;
      ghost var start, c := calls, clocked;
      RightByNone(c);
      RightByMore(c, 0);
      RightByMore(c, 1);
      Read(0);
      Read(1);
      IdleDots();
      QuietPart(cpu, start, endCycle - 328, 0, 5);
      QuietPart(cpu, start, endCycle - 328, 5, 5);
      QuietPart(cpu, start, endCycle - 328, 10, endCycle - 338);
    }

    /** The first 320 dots of a line. */
    method Fetches(line: nat, oamCount: nat, maxSprites: nat, ghost c: Scroll)
      requires Valid() && cycle == 0 && (maxSprites == 8 || maxSprites == 64)
      modifies this`sl, this`cycle, this`calls, this`dots, this`on, this`clocked, this`latched, this`fh, this`downs,
               this`reloads, main, shown
      ensures Valid() && sl == line && cycle == 320 && dots == old(dots) + 320
      ensures calls == TailCall(cpu, old(calls), line) && 192 <= calls - old(calls) <= 194
      ensures downs == old(downs) + if cpu(old(calls) + 156).on then [251] else []
      ensures reloads == old(reloads) + Reloading(cpu, old(calls), line)
      ensures forall y, p | 0 <= y < 240 && 0 <= p < 256 && y != line - 1 :: shown[y, p] == old(shown[y, p])
      ensures Quiet(cpu, old(calls), 196) ==>
                && latched == old(latched) && fh == old(fh) && (line == 0 ==> clocked == latched)
                && (1 <= line <= 240 && Prefetched(c, old(clocked), old(main[0]), old(main[1])) && Column(c) == Column(latched) ==>
                      && clocked == Below(c)
                      && forall p | 0 <= p < 256 :: shown[line - 1, p] == Scrolled(c, fh, p))
    {
      hide Quiet, Advance, Below, Right, RightBy, Scrolled, Prefetched;
      ghost var start := calls;
      sl := line;
      RenderTiles(c);
      FetchSprites(oamCount, maxSprites);
      QuietPart(cpu, start, 196, 0, 160);
      ReloadedColumn(c, latched);
    }

    /** One scan line, for whatever the CPU does to the registers meanwhile: from dot 0 to dot 0, 341
        dots (340 where the idle dot is skipped), the counters going down at dot 251 exactly if
        rendering is on there, and reloaded at dot 257 (305 on line 0) exactly if it is on there.
        If the CPU leaves the scroll alone, a line whose first two tiles are in place for position `c`
        shows the line scrolled to `c`, and leaves the tiles in place for the line below. */
    method ScanLine(line: nat, oamCount: nat, maxSprites: nat, ghost c: Scroll)
      requires Valid() && cycle == 0 && (maxSprites == 8 || maxSprites == 64)
      modifies this, main, shown
      ensures Valid() && cycle == 0 && dots == old(dots) + endCycle
      ensures endCycle == if Skips(cpu, old(calls), line, old(idleSynch), pal) then 340 else 341
      ensures calls == TailCall(cpu, old(calls), line) + endCycle - 328 && calls > old(calls)
      ensures downs == old(downs) + if cpu(old(calls) + 156).on then [251] else []
      ensures reloads == old(reloads) + Reloading(cpu, old(calls), line)
      ensures idleSynch == if line == 0 then !old(idleSynch) else old(idleSynch)
      ensures forall y, p | 0 <= y < 240 && 0 <= p < 256 && y != line - 1 :: shown[y, p] == old(shown[y, p])
      ensures Quiet(cpu, old(calls), calls - old(calls)) ==>
                && latched == old(latched) && fh == old(fh) && (line == 0 ==> Prefetched(latched, clocked, main[0], main[1]))
                && (1 <= line <= 240 && Prefetched(c, old(clocked), old(main[0]), old(main[1])) && Column(c) == Column(latched) ==>
                      && Prefetched(Below(c), clocked, main[0], main[1])
                      && forall p | 0 <= p < 256 :: shown[line - 1, p] == Scrolled(c, fh, p))
    {
      hide *;
      ghost var start := calls;
      Fetches(line, oamCount, maxSprites, c);
      ghost var tail := calls;
      EndLine();
      QuietPart(cpu, start, calls - start, 0, 196);
      QuietPart(cpu, start, calls - start, tail - start, endCycle - 328);
      SkipsIs(cpu, start, line, old(idleSynch), pal);
    }

    /** The lines of vertical blanking, one dot at a time. */
    method VBlank()
      requires Valid() && cycle == 0 && endCycle == 341
      modifies this`sl, this`cycle, this`calls, this`dots, this`on, this`clocked, this`latched, this`fh
      ensures cycle == 0 && dots == old(dots) + VBlankDots(pal) && calls == old(calls) + VBlankDots(pal)
    {
      hide Advance;
      sl := 241;
      for dot := 0 to 20
        invariant cycle == dot && dots == old(dots) + dot && calls == old(calls) + dot
      {
        RunPpu(1);
      }
      var lines := if pal then 70 else 20;
      for k := 0 to lines
        invariant cycle == (if k == 0 then 20 else 0)
        invariant dots - old(dots) == (if k == 0 then 20 else 341 * k)
        invariant calls - old(calls) == (if k == 0 then 20 else 341 * k)
      {
        ghost var d, n := dots, calls;
        var first := if k == 0 then 20 else 0;
        for dot := first to 341
          invariant cycle == (if dot == 341 then 0 else dot)
          invariant dots == d + dot - first && calls == n + dot - first
        {
          RunPpu(1);
        }
        sl := sl + 1;
      }
    }

    /** A whole frame of 241 lines (291 on a Dendy), with `oamCounts` sprites found on each. It takes
        341 dots a line, less one where the idle dot is skipped. If from the end of vertical blanking
        on rendering is on and the scroll registers are left alone, every pixel of the picture is the
        background point that the latched position gives it. */
    method Frame(lines: nat, oamCounts: nat -> nat, maxSprites: nat) returns (ghost from: nat, ghost skipped: bool)
      requires Valid() && cycle == 0 && endCycle == 341 && lines >= 241
      requires (maxSprites == 8 || maxSprites == 64)
      modifies this, main, shown
      ensures Valid() && cycle == 0 && endCycle == 341 && idleSynch == !old(idleSynch)
      ensures from == old(calls) + VBlankDots(pal) && skipped == Skips(cpu, from, 0, old(idleSynch), pal)
      ensures dots == old(dots) + VBlankDots(pal) + 341 * (lines + 1) - if skipped then 1 else 0
      ensures calls > from && (Quiet(cpu, from, calls - from) ==>
                forall y: nat, p | y < 240 && 0 <= p < 256 :: shown[y, p] == Scrolled(Down(latched, y), fh, p))
    {
      hide Quiet, Advance, Skips, TailCall, Reloading, Down, Scrolled, RightBy, Below;
      VBlank();
      from := calls;
      ghost var d, idle := dots, idleSynch;
      skipped := Skips(cpu, from, 0, idle, pal);
      for line := 0 to lines
        invariant Valid() && cycle == 0 && calls >= from && (line == 0 ==> calls == from)
        invariant endCycle == if line == 1 && skipped then 340 else 341
        invariant idleSynch == if line == 0 then idle else !idle
        invariant dots == d + 341 * line - if line > 0 && skipped then 1 else 0
        invariant Quiet(cpu, from, calls - from) ==> Shown(line)
      {
        ghost var before, c := calls, if line == 0 then latched else Down(latched, line - 1);
        DownColumn(latched, if line == 0 then 0 else line - 1);
        DownOnce(latched, if line == 0 then 0 else line - 1);
        DownNone(latched);
        ScanLine(line, oamCounts(line), maxSprites, c);
        QuietPart(cpu, from, calls - from, 0, before - from);
        QuietPart(cpu, from, calls - from, before - from, calls - before);
        OnlyFirstSkips(cpu, before, line, idle, pal);
      }
      ghost var before := calls;
      RunPpu(341);
      QuietPart(cpu, from, calls - from, 0, before - from);
      QuietPart(cpu, from, calls - from, before - from, 1);
      QuietStart(cpu, before);
    }

    /** A frame while the PPU is still dead after power-up keeps the dot clock at the start of a line. */
    method DeadFrame()
      requires Valid() && cycle == 0 && endCycle == 341
      modifies this`sl, this`cycle, this`calls, this`dots, this`on, this`clocked, this`latched, this`fh
      ensures cycle == 0 && dots == old(dots) + VBlankDots(pal) + 341 * 242
    {
      sl := 241;
      if pal {
        RunPpu(70 * 341);
      } else {
        RunPpu(20 * 341);
      }
      sl := 0;
      RunPpu(242 * 341);
    }

    /** With rendering on, two frames in a row of an NTSC console take one dot less than twice 262 lines. */
    method TwoFrames(oamCounts: nat -> nat, maxSprites: nat)
      requires Valid() && cycle == 0 && endCycle == 341 && !pal && forall k :: cpu(k).on
      requires (maxSprites == 8 || maxSprites == 64)
      modifies this, main, shown
      ensures Valid() && cycle == 0 && dots == old(dots) + 2 * 262 * 341 - 1
    {
      hide Quiet, Down, Scrolled;
      var from, skipped := Frame(241, oamCounts, maxSprites);
      from, skipped := Frame(241, oamCounts, maxSprites);
    }

    /** Before line `line`: the picture lines already drawn, and the tiles in place for the next one. */
    ghost predicate Shown(line: nat)
      requires Valid()
      reads this, main, shown
    {
      && (1 <= line <= 241 ==> Prefetched(Down(latched, line - 1), clocked, main[0], main[1]))
      && forall y: nat, p | y < 240 && y + 1 < line && 0 <= p < 256 :: shown[y, p] == Scrolled(Down(latched, y), fh, p)
    }
  }

  function VBlankDots(pal: bool): int {
    341 * if pal then 70 else 20
  }

  /** What `Frame` shows, for a scroll position inside the picture area: the window of 256 by 240 pixels
      with that corner out of the 512 by 480 pixels of the four nametables, which wraps round. */
  lemma WindowOf(c: Scroll, fh: Fine, x: nat, y: nat)
    requires c.vt < 30 && x < 256 && y < 240
    ensures Scrolled(Down(c, y), fh, x) == Point((8 * Column(c) + fh + x) % 512, (Line(c) + y) % 480)
  {
    hide Line, Down;
    DownColumn(c, y);
    DownLines(c, y);
  }

  lemma DownNone(c: Scroll)
    ensures Down(c, 0) == c
  {
  }

  lemma SkipsIs(cpu: nat -> CpuStep, from: nat, line: nat, idleSynch: bool, pal: bool)
    ensures Skips(cpu, from, line, idleSynch, pal)
        <==> line == 0 && idleSynch && !pal && cpu(TailCall(cpu, from, line) + 10).on
  {
  }

  lemma OnlyFirstSkips(cpu: nat -> CpuStep, from: nat, line: nat, idleSynch: bool, pal: bool)
    ensures line != 0 ==> forall idle :: !Skips(cpu, from, line, idle, pal)
  {
  }
}
