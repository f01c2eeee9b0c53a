/** The board's text terminal: only the cells marked dirty are redrawn, and the screen still shows the text. */
module Terminal {
  type Byte = x: int | 0 <= x < 0x100

  const BLANK: Byte := 32

  /** What a cell of the screen shows. */
  datatype Cell = Ch(code: Byte) | Cursor | FocusCursor

  /** What a full redraw puts into row `y` and column `x`, cursor apart. */
  function Text(lines: seq<seq<Byte>>, top: nat, y: nat, x: nat): Cell {
    if top + y < |lines| && x < |lines[top + y]| then Ch(lines[top + y][x]) else Ch(BLANK)
  }

  /** Of the old cells none but the one in row `y` and column `x` has changed. */
  predicate CellsKept(lines: seq<seq<Byte>>, lines': seq<seq<Byte>>, y: int, x: int) {
    && |lines| <= |lines'|
    && (forall k | 0 <= k < |lines| :: |lines'[k]| == |lines[k]|)
    && forall k, j | 0 <= k < |lines| && 0 <= j < |lines[k]| && !(k == y && j == x) :: lines'[k][j] == lines[k][j]
  }

  function PutAt(lines: seq<seq<Byte>>, y: nat, x: nat, ch: Byte): (lines': seq<seq<Byte>>)
    requires y < |lines| && x < |lines[y]|
    ensures |lines'| == |lines| && forall k | 0 <= k < |lines| :: |lines'[k]| == |lines[k]|
    ensures lines'[y][x] == ch && CellsKept(lines, lines', y, x)
  {
    var line: seq<Byte> := lines[y][..x] + [ch] + lines[y][x + 1..];
    lines[y := line]
  }

  class Term {
    const w: nat
    const h: nat
    var lines: seq<seq<Byte>>
    var cursorX: nat
    var cursorY: nat
    var screenY: nat
    var cursorVisible: bool
    var focus: bool
    var dirtyScreen: bool
    const dirtyLine: array<bool>
    const dirtyChar: array2<bool>
    /** The cells as last drawn. */
    const shown: array2<Cell>

    /** The cursor is on the last line, inside the window and inside its line. */
    ghost predicate Shape()
      reads this
    {
      && w > 0 && h > 0 && |lines| > 0 && cursorY == |lines| - 1 && cursorX < w
      && screenY <= cursorY < screenY + h
      && (forall k | 0 <= k < |lines| :: |lines[k]| == w)
      && dirtyLine.Length == h && dirtyChar.Length0 == h && dirtyChar.Length1 == w
      && shown.Length0 == h && shown.Length1 == w
    }

    /** Dirty cells are found by the redraw. */
    ghost predicate Marked()
      requires Shape()
      reads this, dirtyLine, dirtyChar
    {
      && (forall y, x | 0 <= y < h && 0 <= x < w :: dirtyChar[y, x] ==> dirtyLine[y])
      && (forall y | 0 <= y < h :: dirtyLine[y] ==> dirtyScreen)
    }

    /** Every cell but the dirty ones and the cursor's shows the text; rows below the text are blank. */
    ghost predicate Faithful()
      requires Shape()
      reads this, dirtyChar, shown
    {
      forall y, x | 0 <= y < h && 0 <= x < w && shown[y, x] != Text(lines, screenY, y, x) ::
        screenY + y < |lines| && (dirtyChar[y, x] || (y == cursorY - screenY && x == cursorX))
    }

    /** While nothing is dirty the cursor below the first line is on the screen as it should be. */
    ghost predicate CursorDrawn()
      requires Shape()
      reads this, shown
    {
      !dirtyScreen && cursorY > 0 ==> shown[cursorY - screenY, cursorX] == CursorCell()
    }

    ghost predicate Valid()
      reads this, dirtyLine, dirtyChar, shown
    {
      Shape() && Marked() && Faithful() && CursorDrawn()
    }

    constructor (w: nat, h: nat)
      requires w > 0 && h > 0
      ensures Valid() && fresh(dirtyLine) && fresh(dirtyChar) && fresh(shown)
      ensures this.w == w && this.h == h && lines == [Spaces(w)] && cursorX == cursorY == screenY == 0 && !dirtyScreen
      ensures cursorVisible && !focus && shown[0, 0] == Cursor
    {
      this.w, this.h := w, h;
      lines := [Spaces(w)];
      cursorX, cursorY, screenY := 0, 0, 0;
      cursorVisible, focus, dirtyScreen := true, false, false;
      dirtyLine := new bool[h](_ => false);
      dirtyChar := new bool[h, w]((_, _) => false);
      shown := new Cell[h, w]((_, _) => Ch(BLANK));
      new;
      DrawCursor();
    }

    // ---------- dirty marks and the cursor ----------

    method InitDirty(val: bool)
      requires Shape()
      modifies this`dirtyScreen, dirtyLine, dirtyChar
      ensures dirtyScreen == val
      ensures forall y | 0 <= y < h :: dirtyLine[y] == val
      ensures forall y, x | 0 <= y < h && 0 <= x < w :: dirtyChar[y, x] == val
    {
      dirtyScreen := val;
      forall y | 0 <= y < h {
        dirtyLine[y] := val;
      }
      forall y, x | 0 <= y < h && 0 <= x < w {
        dirtyChar[y, x] := val;
      }
    }

    method SetDirtyChar(y: nat, x: nat)
      requires Shape() && y < h && x < w
      modifies this`dirtyScreen, dirtyLine, dirtyChar
      ensures dirtyScreen
      ensures forall k | 0 <= k < h :: dirtyLine[k] == (k == y || old(dirtyLine[k]))
      ensures forall k, j | 0 <= k < h && 0 <= j < w :: dirtyChar[k, j] == ((k == y && j == x) || old(dirtyChar[k, j]))
    {
      dirtyChar[y, x] := true;
      dirtyLine[y] := true;
      dirtyScreen := true;
    }

    predicate CursorOnScreen()
      reads this
    {
      screenY <= cursorY < screenY + h
    }

    /** The cursor cell becomes dirty. */
    method MarkCursor()
      requires Shape()
      modifies this`dirtyScreen, dirtyLine, dirtyChar
      ensures Shape() && (old(Marked()) ==> Marked()) && dirtyChar[cursorY - screenY, cursorX]
      ensures forall y, x | 0 <= y < h && 0 <= x < w :: old(dirtyChar[y, x]) ==> dirtyChar[y, x]
    {
      if CursorOnScreen() {
        SetDirtyChar(cursorY - screenY, cursorX);
      }
    }

    function CursorCell(): Cell
      reads this
    {
      if !cursorVisible then Ch(BLANK) else if focus then FocusCursor else Cursor
    }

    method DrawCursor()
      requires Shape()
      modifies shown
      ensures forall y, x | 0 <= y < h && 0 <= x < w ::
                shown[y, x] == if y == cursorY - screenY && x == cursorX then CursorCell() else old(shown[y, x])
      ensures shown[cursorY - screenY, cursorX] ==
                if cursorVisible && focus then FocusCursor else if cursorVisible then Cursor else Ch(BLANK)
    {
      if CursorOnScreen() {
        shown[cursorY - screenY, cursorX] := CursorCell();
      }
    }

    method SetCursorVisibility(v: bool)
      requires Valid()
      modifies this`cursorVisible, shown
      ensures Valid() && cursorVisible == v
    {
      var update := cursorVisible != v;
      cursorVisible := v;
      if update {
        DrawCursor();
      }
    }

    method SetFocus(v: bool)
      requires Valid()
      modifies this`focus, shown
      ensures Valid() && focus == v
      ensures old(focus) != v ==> shown[cursorY - screenY, cursorX] == CursorCell()
    {
      var update := focus != v;
      focus := v;
      if update {
        DrawCursor();
      }
    }

    // ---------- text ----------

    /** Empties the text and the screen. */
    method Clear()
      requires Valid()
      modifies this`lines, this`cursorX, this`cursorY, this`screenY, this`dirtyScreen, dirtyLine, dirtyChar, shown
      ensures Valid() && lines == [Spaces(w)] && cursorX == cursorY == screenY == 0 && !dirtyScreen
    {
      while |lines| > 1
        invariant |lines| > 0 && forall k | 0 <= k < |lines| :: |lines[k]| == w
      {
        lines := lines[..|lines| - 1];
      }
      lines := [Spaces(w)];
      cursorX, cursorY, screenY := 0, 0, 0;
      forall y, x | 0 <= y < h && 0 <= x < w {
        shown[y, x] := Ch(BLANK);
      }
      InitDirty(false);
    }

    /** To the start of the next line, which is a new one; the window follows and is then all dirty. */
    method Newline()
      requires Shape() && Marked()
      requires dirtyScreen && FaithfulBut()
      modifies this`lines, this`cursorX, this`cursorY, this`screenY, this`dirtyScreen, dirtyLine, dirtyChar
      ensures Valid() && dirtyScreen && lines == old(lines) + [Spaces(w)] && cursorX == 0 && cursorY == old(cursorY) + 1
      ensures screenY == if old(cursorY) + 1 == old(screenY) + h then old(screenY) + 1 else old(screenY)
    {
      cursorX := 0;
      cursorY := cursorY + 1;
      if cursorY >= |lines| {
        lines := lines + [Spaces(w)];
      }
      if cursorY == screenY + h {
        screenY := screenY + 1;
        InitDirty(true);
      }
    }

    /** Faithful even where the cursor is. */
    ghost predicate FaithfulBut()
      requires Shape()
      reads this, dirtyChar, shown
    {
      forall y, x | 0 <= y < h && 0 <= x < w && shown[y, x] != Text(lines, screenY, y, x) ::
        screenY + y < |lines| && dirtyChar[y, x]
    }

    /** Takes back the last character. With `isInput`, which no caller in the repository sets, it goes on
        over the start of the line: the last line goes away, but not from the screen. So the screen stays
        right exactly if the row looked blank; while nothing is dirty that is if the cursor is hidden
        and the line is blank behind it. */
    method Backspace(isInput: bool)
      requires Valid()
      modifies this`lines, this`cursorX, this`cursorY, this`screenY, this`dirtyScreen, dirtyLine, dirtyChar
      ensures Shape() && Marked() && CursorDrawn() && (Faithful() <==> !(isInput && old(LeavesTrace())))
      ensures !old(dirtyScreen) ==> (Faithful() <==> !(isInput && old(TraceKnown())))
      ensures Page(lines, cursorX) == TakenBack(w, Page(old(lines), old(cursorX)), isInput)
      ensures !isInput ==> screenY == old(screenY)
    {
      hide CellsKept;
      if !dirtyScreen {
        TraceBehind();
      }
      if cursorX == 0 {
        if !isInput || cursorY == 0 {
          return;
        }
        JoinLines();
      } else {
        MarkCursor();
        cursorX := cursorX - 1;
        lines := PutAt(lines, cursorY, cursorX, BLANK);
        MarkCursor();
      }
    }

    /** The cursor is at the start of a line, below the first row of the window, and that row of the
        screen does not look blank. */
    ghost predicate LeavesTrace()
      requires Shape()
      reads this, shown
    {
      cursorX == 0 && cursorY > screenY && !RowBlank(cursorY - screenY)
    }

    /** The same told from the terminal's own fields, while nothing is dirty. */
    predicate TraceKnown()
      requires Shape()
      reads this
    {
      cursorX == 0 && cursorY > screenY && (cursorVisible || lines[cursorY][1..] != Spaces(w - 1))
    }

    ghost predicate RowBlank(y: nat)
      requires Shape() && y < h
      reads this, shown
    {
      forall x | 0 <= x < w :: shown[y, x] == Ch(BLANK)
    }

    /** What the row of the cursor looks like while nothing is dirty. */
    lemma TraceBehind()
      requires Valid() && !dirtyScreen
      ensures LeavesTrace() <==> TraceKnown()
    {
      if cursorX == 0 && cursorY > screenY {
        var y := cursorY - screenY;
        assert forall x | 0 < x < w :: shown[y, x] == Text(lines, screenY, y, x) == Ch(lines[cursorY][x]);
        assert forall x | 0 < x < w :: lines[cursorY][x] == lines[cursorY][1..][x - 1];
        if RowBlank(y) {
          assert shown[y, 0] == CursorCell();
          assert lines[cursorY][1..] == Spaces(w - 1);
        }
      }
    }

    method JoinLines()
      requires Valid() && cursorX == 0 && cursorY > 0
      modifies this`lines, this`cursorX, this`cursorY, this`screenY, this`dirtyScreen, dirtyLine, dirtyChar
      ensures Shape() && Marked() && dirtyScreen && (Faithful() <==> !old(LeavesTrace()))
      ensures cursorX == w - 1 && lines == PutAt(old(lines)[..|old(lines)| - 1], |old(lines)| - 2, w - 1, BLANK)
    {
      hide CellsKept;
      ghost var row := cursorY - screenY;
      lines := lines[..cursorY] + lines[cursorY + 1..];
      assert lines == old(lines)[..|old(lines)| - 1];
      cursorY := cursorY - 1;
      cursorX := w - 1;
      if cursorY < screenY {
        screenY := screenY - 1;
        InitDirty(true);
      }
      lines := PutAt(lines, cursorY, cursorX, BLANK);
      MarkCursor();
      if row > 0 {
        TraceStays(row);
      }
    }

    /** Row `row` has just become the first one below the text. */
    lemma TraceStays(row: nat)
      requires Shape() && 0 < row < h && screenY + row == |lines|
      requires forall y, x | 0 <= y < h && 0 <= x < w && y != row && shown[y, x] != Text(lines, screenY, y, x) ::
                 screenY + y < |lines| && (dirtyChar[y, x] || (y == cursorY - screenY && x == cursorX))
      ensures Faithful() <==> RowBlank(row)
    {
      if Faithful() {
        forall x | 0 <= x < w
          ensures shown[row, x] == Ch(BLANK)
        {
          assert Text(lines, screenY, row, x) == Ch(BLANK);
        }
      }
    }

    /** A printing character; after the last column the next line begins. */
    method PutCh(ch: Byte)
      requires Valid() && dirtyChar[cursorY - screenY, cursorX]
      modifies this`lines, this`cursorX, this`cursorY, this`screenY, this`dirtyScreen, dirtyLine, dirtyChar
      ensures Valid()
      ensures var put := PutAt(old(lines), old(cursorY), old(cursorX), ch);
              && (lines, cursorX) == (if old(cursorX) + 1 == w then (put + [Spaces(w)], 0) else (put, old(cursorX) + 1))
      ensures screenY == if |lines| > old(|lines|) && old(cursorY) + 1 == old(screenY) + h then old(screenY) + 1
                         else old(screenY)
    {
      var y := cursorY;
      lines := PutAt(lines, y, cursorX, ch);
      if cursorX + 1 == w {
        Newline();
      } else {
        cursorX := cursorX + 1;
      }
    }

    /** A character of the text, of the lower half of the code. */
    method FeedCh(ch: Byte)
      requires Valid() && ch < 128
      modifies this`lines, this`cursorX, this`cursorY, this`screenY, this`dirtyScreen, dirtyLine, dirtyChar
      ensures Valid() && Page(lines, cursorX) == Fed(w, Page(old(lines), old(cursorX)), ch)
      ensures Printing(ch) ==>
                && lines[old(cursorY)][old(cursorX)] == ch && CellsKept(old(lines), lines, old(cursorY), old(cursorX))
                && (if old(cursorX) + 1 < w then cursorX == old(cursorX) + 1 && |lines| == old(|lines|)
                    else cursorX == 0 && |lines| == old(|lines|) + 1 && BlankLine(lines[|lines| - 1]))
      ensures ch == 8 && old(cursorX) > 0 ==>
                && cursorX == old(cursorX) - 1 && |lines| == old(|lines|)
                && lines[cursorY][cursorX] == BLANK && CellsKept(old(lines), lines, cursorY, cursorX)
      ensures ch == 8 && old(cursorX) == 0 ==> cursorX == 0 && lines == old(lines)
      ensures ch == 10 ==> cursorX == 0 && |lines| == old(|lines|) + 1 && old(lines) <= lines && BlankLine(lines[|lines| - 1])
      ensures ch == 13 ==> cursorX == 0 && lines == old(lines)
      ensures screenY == if |lines| > old(|lines|) && old(cursorY) + 1 == old(screenY) + h then old(screenY) + 1
                         else old(screenY)
    {
      MarkCursor();
      if ch == 10 {
        Newline();
      } else if ch == 13 {
        cursorX := 0;
      } else if ch == 8 {
        Backspace(false);
      } else {
        PutCh(ch);
      }
    }

    // ---------- redraw ----------

    method RedrawRow(y: nat)
      requires Shape() && y < h && screenY + y < |lines|
      modifies shown
      ensures forall k, x | 0 <= k < h && 0 <= x < w ::
                shown[k, x] == if k == y && dirtyChar[y, x] then Text(lines, screenY, y, x) else old(shown[k, x])
    {
      var l := lines[screenY + y];
      for x := 0 to w
        invariant forall k, j | 0 <= k < h && 0 <= j < w ::
                    shown[k, j] == if k == y && j < x && dirtyChar[y, j] then Text(lines, screenY, y, j) else old(shown[k, j])
      {
        if dirtyChar[y, x] {
          shown[y, x] := Ch(l[x]);
        }
      }
    }

    method RedrawRows()
      requires Shape() && Marked()
      modifies shown
      ensures forall y, x | 0 <= y < h && 0 <= x < w ::
                shown[y, x] == if screenY + y < |lines| && dirtyChar[y, x] then Text(lines, screenY, y, x) else old(shown[y, x])
    {
      hide Text;
      var y := 0;
      while y < h && screenY + y < |lines|
        invariant 0 <= y <= h
        invariant forall k, x | 0 <= k < h && 0 <= x < w ::
                    shown[k, x] == if k < y && screenY + k < |lines| && dirtyChar[k, x] then Text(lines, screenY, k, x)
                                   else old(shown[k, x])
      {
        if dirtyLine[y] {
          RedrawRow(y);
        }
        y := y + 1;
      }
    }

    /** Redraws what is dirty. Afterwards a faithful screen is as after a full redraw, but perhaps for
        the cursor's cell, and for that as well if anything was dirty. */
    method UpdateGui()
      requires Shape() && Marked()
      modifies this`dirtyScreen, dirtyLine, dirtyChar, shown
      ensures Shape() && Marked() && !dirtyScreen
      ensures forall y, x | 0 <= y < h && 0 <= x < w :: shown[y, x] ==
                if !old(dirtyScreen) then old(shown[y, x])
                else if y == cursorY - screenY && x == cursorX then CursorCell()
                else if screenY + y < |lines| && old(dirtyChar[y, x]) then Text(lines, screenY, y, x)
                else old(shown[y, x])
      ensures old(Valid()) ==> Valid() && forall y, x | 0 <= y < h && 0 <= x < w ::
                !(y == cursorY - screenY && x == cursorX) ==> shown[y, x] == Text(lines, screenY, y, x)
    {
      hide Text;
      if !dirtyScreen {
        return;
      }
      RedrawRows();
      DrawCursor();
      InitDirty(false);
    }

    // ---------- runs ----------

    method Handle(c: Command)
      requires Valid() && (c.Feed? ==> c.ch < 128)
      modifies this, dirtyLine, dirtyChar, shown
      ensures Valid() && Page(lines, cursorX) == PageStep(w, Page(old(lines), old(cursorX)), c)
    {
      hide Fed;
      match c {
        case Feed(ch) => FeedCh(ch);
        case Erase => Clear();
        case Update => UpdateGui();
        case Visible(v) => SetCursorVisibility(v);
        case Focused(v) => SetFocus(v);
      }
    }

    /** Whatever is fed, erased and redrawn in whatever order: the text is what the characters make of
        it, and the screen shows it wherever it is not marked dirty, the cursor's cell apart. */
    method Run(cs: seq<Command>)
      requires Valid() && forall k | 0 <= k < |cs| :: cs[k].Feed? ==> cs[k].ch < 128
      modifies this, dirtyLine, dirtyChar, shown
      ensures Valid() && Page(lines, cursorX) == PageAfter(w, Page(old(lines), old(cursorX)), cs)
    {
      hide PageStep;
      for i := 0 to |cs|
        invariant Valid() && Page(lines, cursorX) == PageAfter(w, Page(old(lines), old(cursorX)), cs[..i])
      {
        Handle(cs[i]);
        assert cs[..i + 1][..i] == cs[..i];
      }
      assert cs[..|cs|] == cs;
    }
  }

  /** The smallest run that leaves a trace: a fresh terminal, a line feed, a redraw, and a backspace over
      the start of the line. The next redraw puts the cursor on the first row but leaves the old one. */
  method StaleCursor(w: nat, h: nat) returns (t: Term)
    requires w > 0 && h > 1
    ensures t.Shape() && t.h == h && t.w == w && !t.dirtyScreen && t.cursorX == w - 1 && t.cursorY == t.screenY == 0
    ensures Text(t.lines, t.screenY, 1, 0) == Ch(BLANK) && t.shown[1, 0] == Cursor
  {
    t := new Term(w, h);
    var page := Page(t.lines, 0);
    t.FeedCh(10);
    assert Page(t.lines, t.cursorX) == Fed(w, page, 10);
    assert t.cursorY == 1 && t.cursorX == 0 && t.screenY == 0;
    t.UpdateGui();
    assert t.shown[1, 0] == Cursor;
    t.Backspace(true);
    assert |t.lines| == 1;
    t.UpdateGui();
  }

  datatype Command = Feed(ch: Byte) | Erase | Update | Visible(v: bool) | Focused(v: bool)

  // ---------- the text by itself ----------

  /** The lines so far and the cursor's column on the last one. */
  datatype Page = Page(lines: seq<seq<Byte>>, column: nat)

  predicate PageOk(w: nat, p: Page) {
    w > 0 && |p.lines| > 0 && p.column < w && forall k | 0 <= k < |p.lines| :: |p.lines[k]| == w
  }

  predicate BlankLine(line: seq<Byte>) {
    forall j | 0 <= j < |line| :: line[j] == BLANK
  }

  predicate Printing(ch: Byte) {
    ch != 8 && ch != 10 && ch != 13
  }

  /** Without the last character; with `isInput` also over the start of a line. */
  function TakenBack(w: nat, p: Page, isInput: bool): (p': Page)
    requires PageOk(w, p)
    ensures PageOk(w, p')
  {
    var last := |p.lines| - 1;
    if p.column > 0 then Page(PutAt(p.lines, last, p.column - 1, BLANK), p.column - 1)
    else if !isInput || last == 0 then p
    else Page(PutAt(p.lines[..last], last - 1, w - 1, BLANK), w - 1)
  }

  function Fed(w: nat, p: Page, ch: Byte): (p': Page)
    requires PageOk(w, p)
    ensures PageOk(w, p')
  {
    var last := |p.lines| - 1;
    if ch == 10 then Page(p.lines + [Spaces(w)], 0)
    else if ch == 13 then p.(column := 0)
    else if ch == 8 then
      TakenBack(w, p, false)
    else
      var lines := PutAt(p.lines, last, p.column, ch);
      if p.column + 1 == w then Page(lines + [Spaces(w)], 0) else Page(lines, p.column + 1)
  }

  function PageStep(w: nat, p: Page, c: Command): (p': Page)
    requires PageOk(w, p)
    ensures PageOk(w, p')
  {
    match c
    case Feed(ch) => Fed(w, p, ch)
    case Erase => Page([Spaces(w)], 0)
    case _ => p
  }

  function PageAfter(w: nat, p: Page, cs: seq<Command>): (p': Page)
    requires PageOk(w, p)
    ensures PageOk(w, p')
  {
    if cs == [] then p else PageStep(w, PageAfter(w, p, cs[..|cs| - 1]), cs[|cs| - 1])
  }

  /** Printing characters that fit into the rest of the line appear there one after the other, and nothing
      else changes. */
  lemma {:induction false} TextTyped(w: nat, p: Page, text: seq<Byte>)
    requires PageOk(w, p) && p.column + |text| < w && forall k | 0 <= k < |text| :: Printing(text[k])
    ensures var p' := PageAfter(w, p, Feeds(text));
            && p'.column == p.column + |text| && |p'.lines| == |p.lines|
            && (forall k | 0 <= k < |text| :: p'.lines[|p.lines| - 1][p.column + k] == text[k])
            && forall y, x | 0 <= y < |p.lines| && 0 <= x < w && !(y == |p.lines| - 1 && p.column <= x < p.column + |text|) ::
                 p'.lines[y][x] == p.lines[y][x]
  {
    if text != [] {
      var rest := text[..|text| - 1];
      TextTyped(w, p, rest);
      assert Feeds(text)[..|text| - 1] == Feeds(rest);
    }
  }

  function Feeds(text: seq<Byte>): (cs: seq<Command>)
    ensures |cs| == |text| && forall k | 0 <= k < |text| :: cs[k] == Feed(text[k])
  {
    seq(|text|, k requires 0 <= k < |text| => Feed(text[k]))
  }

  function Spaces(n: nat): (s: seq<Byte>)
    ensures |s| == n && forall k | 0 <= k < n :: s[k] == BLANK
  {
    seq(n, _ => BLANK)
  }
}
