/**
 The text terminal: a window of rows over a pure layout of lines
 (src/code/text/framebuffer.c, src/code/text/terminaltext.c).
 */
module Terminal {
  import opened Bytes

  const WIDTH: nat := 80
  const HEIGHT: nat := 100
  const BOTTOM: nat := 20
  const NEWLINE: int := 10

  type Cell = int
  type Line = seq<Cell>

  // A 7-bit character with its colour, as framebuffer_write stores it.
  datatype Glyph = Glyph(c: int, color: int)

  predicate GlyphOk(g: Glyph) {
    0 <= g.c < 128 && 0 <= g.color < 256
  }

  function CellOf(c: int, fg: int, bg: int): Cell {
    c + 256 * (16 * bg + fg % 16)
  }

  // ---------- The layout ----------

  // Appends to the last line; a full line is left at once.
  function PutCell(lines: seq<Line>, x: Cell): seq<Line>
    requires lines != []
  {
    var n := |lines| - 1;
    var line := lines[n] + [x];
    lines[..n] + [line] + if |line| == WIDTH then [[]] else []
  }

  function BreakLine(lines: seq<Line>): seq<Line> {
    lines + [[]]
  }

  function Typed(lines: seq<Line>, g: Glyph, bg: int): (r: seq<Line>)
    requires lines != []
    ensures r != []
  {
    if g.c == NEWLINE then BreakLine(lines) else PutCell(lines, CellOf(g.c, g.color, bg))
  }

  function Layout(text: seq<Glyph>, bg: int): (lines: seq<Line>)
    ensures lines != []
    decreases |text|
  {
    if text == [] then [[]] else Typed(Layout(text[..|text| - 1], bg), text[|text| - 1], bg)
  }

  // ---------- What the layout shows ----------

  // A text is cells and line breaks.
  datatype Mark = Ink(x: Cell) | Break

  function MarksOf(text: seq<Glyph>, bg: int): seq<Mark> {
    seq(|text|, i requires 0 <= i < |text| =>
      if text[i].c == NEWLINE then Break else Ink(CellOf(text[i].c, text[i].color, bg)))
  }

  function Inks(line: Line): seq<Mark> {
    seq(|line|, i requires 0 <= i < |line| => Ink(line[i]))
  }

  // A line that is left without being full was left by a break.
  function Closed(line: Line): seq<Mark> {
    Inks(line) + if |line| < WIDTH then [Break] else []
  }

  function Ended(lines: seq<Line>): seq<Mark> {
    if lines == [] then [] else Closed(lines[0]) + Ended(lines[1..])
  }

  // The text that lines stand for: all but the last have been left.
  function Marks(lines: seq<Line>): seq<Mark>
    requires lines != []
  {
    Ended(lines[..|lines| - 1]) + Inks(lines[|lines| - 1])
  }

  // No line is too long, and a full one has been left.
  ghost predicate WellLaid(lines: seq<Line>) {
    lines != [] && |lines[|lines| - 1]| < WIDTH && forall l | l in lines :: |l| <= WIDTH
  }

  lemma {:induction false} EndedAppend(lines: seq<Line>, line: Line)
    ensures Ended(lines + [line]) == Ended(lines) + Closed(line)
    decreases |lines|
  {
    hide Closed;
    var all := lines + [line];
    if lines == [] {
      assert all[1..] == [] && Ended(all) == Closed(line) + Ended([]);
    } else {
      EndedAppend(lines[1..], line);
      assert all[1..] == lines[1..] + [line];
    }
  }

  lemma TypedKeeps(lines: seq<Line>, g: Glyph, bg: int)
    requires WellLaid(lines)
    ensures WellLaid(Typed(lines, g, bg))
    ensures Marks(Typed(lines, g, bg)) == Marks(lines) + MarksOf([g], bg)
  {
    hide Ended;
    var n := |lines| - 1;
    assert lines == lines[..n] + [lines[n]];
    if g.c == NEWLINE {
      EndedAppend(lines[..n], lines[n]);
      assert Typed(lines, g, bg)[..n + 1] == lines;
    } else {
      var x := CellOf(g.c, g.color, bg);
      var line := lines[n] + [x];
      assert Inks(line) == Inks(lines[n]) + [Ink(x)];
      EndedAppend(lines[..n], line);
      assert Typed(lines, g, bg)[..n] == lines[..n];
      assert |line| == WIDTH ==> Typed(lines, g, bg)[..n + 1] == lines[..n] + [line];
    }
  }

  // The layout loses and reorders nothing, and breaks lines where the text does, or where
  // they are full, and nowhere else.
  lemma {:induction false} LayoutKeepsText(text: seq<Glyph>, bg: int)
    ensures WellLaid(Layout(text, bg)) && Marks(Layout(text, bg)) == MarksOf(text, bg)
    decreases |text|
  {
    hide Marks, Typed, WellLaid;
    if text == [] {
      BlankLayout();
    } else {
      var init, g := text[..|text| - 1], text[|text| - 1];
      LayoutKeepsText(init, bg);
      TypedKeeps(Layout(init, bg), g, bg);
      assert MarksOf(text, bg) == MarksOf(init, bg) + MarksOf([g], bg);
    }
  }

  // Read back, the layout has a break where the text has one, and everywhere else a cell with
  // the character in its low byte, the colour above that and the background on top.
  lemma LayoutShowsText(text: seq<Glyph>, bg: int)
    requires 0 <= bg < 16 && forall g | g in text :: 0 <= g.c < 128 && 0 <= g.color < 256
    ensures var marks := Marks(Layout(text, bg));
            && |marks| == |text|
            && forall i | 0 <= i < |text| ::
                 if text[i].c == 10 then marks[i] == Break
                 else marks[i].Ink? && marks[i].x % 256 == text[i].c && marks[i].x / 256 % 16 == text[i].color % 16
                      && marks[i].x / 4096 == bg
  {
    hide Marks, Layout, CellOf;
    LayoutKeepsText(text, bg);
    forall i | 0 <= i < |text| && text[i].c != NEWLINE
      ensures var x := CellOf(text[i].c, text[i].color, bg);
              x % 256 == text[i].c && x / 256 % 16 == text[i].color % 16 && x / 4096 == bg
    {
      assert text[i] in text;
      CellParts(text[i].c, text[i].color, bg);
    }
  }

  lemma CellParts(c: int, fg: int, bg: int)
    requires 0 <= c < 256 && 0 <= bg < 16
    ensures var x := CellOf(c, fg, bg); x % 256 == c && x / 256 % 16 == fg % 16 && x / 4096 == bg
  {}

  lemma BlankLayout()
    ensures WellLaid([[]]) && Marks([[]]) == []
  {}

  lemma MarksHead(lines: seq<Line>)
    requires WellLaid(lines)
    ensures |Marks(lines)| >= |lines[0]| && Marks(lines)[..|lines[0]|] == Inks(lines[0])
    ensures |lines| == 1 ==> Marks(lines) == Inks(lines[0])
    ensures |lines| > 1 ==> WellLaid(lines[1..]) && Marks(lines) == Closed(lines[0]) + Marks(lines[1..])
  {
    var n := |lines| - 1;
    if n > 0 {
      assert lines[..n][0] == lines[0] && lines[..n][1..] == lines[1..][..n - 1];
    }
  }

  lemma InkAt(lines: seq<Line>, i: nat)
    requires WellLaid(lines) && i < |lines[0]|
    ensures i < |Marks(lines)| && Marks(lines)[i].Ink?
  {
    hide Marks;
    MarksHead(lines);
    assert Marks(lines)[i] == Marks(lines)[..|lines[0]|][i] == Inks(lines[0])[i];
  }

  lemma BreakAt(lines: seq<Line>)
    requires WellLaid(lines) && |lines[0]| < WIDTH
    ensures |Marks(lines)| == |lines[0]| || (|Marks(lines)| > |lines[0]| && Marks(lines)[|lines[0]|] == Break)
  {
    hide Marks;
    MarksHead(lines);
    assert Closed(lines[0])[|lines[0]|] == Break;
  }

  lemma HeadNoShorter(a: seq<Line>, b: seq<Line>)
    requires WellLaid(a) && WellLaid(b) && Marks(a) == Marks(b)
    ensures |a[0]| >= |b[0]|
  {
    hide Marks, Inks;
    if |a[0]| < |b[0]| {
      InkAt(b, |a[0]|);
      BreakAt(a);
    }
  }

  lemma SameInks(a: Line, b: Line)
    requires Inks(a) == Inks(b)
    ensures a == b
  {
    assert |a| == |Inks(a)| == |b|;
    forall i | 0 <= i < |a| ensures a[i] == b[i] {
      assert Inks(a)[i] == Inks(b)[i];
    }
  }

  lemma {:induction false} MarksDetermine(a: seq<Line>, b: seq<Line>)
    requires WellLaid(a) && WellLaid(b) && Marks(a) == Marks(b)
    ensures a == b
    decreases |a|
  {
    hide Marks, Inks;
    HeadNoShorter(a, b);
    HeadNoShorter(b, a);
    MarksHead(a);
    MarksHead(b);
    SameInks(a[0], b[0]);
    assert a == [a[0]] + a[1..] && b == [b[0]] + b[1..];
    if |a| > 1 && |b| > 1 {
      var n := |Closed(a[0])|;
      assert Marks(a)[n..] == Marks(a[1..]) && Marks(b)[n..] == Marks(b[1..]);
      MarksDetermine(a[1..], b[1..]);
    } else {
      OneLine(a);
      OneLine(b);
    }
  }

  lemma OneLine(lines: seq<Line>)
    requires WellLaid(lines)
    ensures |lines| == 1 <==> |Marks(lines)| == |lines[0]| < WIDTH
  {
    MarksHead(lines);
    if |lines| > 1 && |lines[0]| == WIDTH {
      assert |Inks(lines[0])| == WIDTH;
    }
  }

  // So the layout is the only way to lay the text out.
  lemma OnlyLayout(text: seq<Glyph>, bg: int, lines: seq<Line>)
    ensures lines == Layout(text, bg) <==> WellLaid(lines) && Marks(lines) == MarksOf(text, bg)
  {
    hide Marks, MarksOf, Layout;
    LayoutKeepsText(text, bg);
    if WellLaid(lines) && Marks(lines) == MarksOf(text, bg) {
      MarksDetermine(lines, Layout(text, bg));
    }
  }

  // ---------- The window ----------

  function RowOf(cells: seq<Cell>, r: nat): Line
    requires |cells| == WIDTH * HEIGHT && r < HEIGHT
  {
    cells[WIDTH * r..WIDTH * r + WIDTH]
  }

  function PadLine(l: Line): Line
    requires |l| <= WIDTH
  {
    l + Zeros(WIDTH - |l|)
  }

  // Rows 0 to row show the last row + 1 lines, and the rows below down to row 20 are blank.
  ghost predicate Shows(cells: seq<Cell>, row: int, col: int, lines: seq<Line>) {
    && |cells| == WIDTH * HEIGHT
    && 0 <= row <= BOTTOM && (row == BOTTOM ==> col == 0)
    && row + 1 <= |lines| && (row < BOTTOM - 1 ==> |lines| == row + 1)
    && col == |lines[|lines| - 1]| < WIDTH
    && (forall l | l in lines :: |l| <= WIDTH)
    && (forall r | 0 <= r <= row :: RowOf(cells, r) == PadLine(lines[|lines| - 1 - row + r]))
    && (forall r | row < r <= BOTTOM :: RowOf(cells, r) == Zeros(WIDTH))
  }

  // Scrolling the full window shows one line less; row 20 was blank, and so is row 19 now.
  lemma ScrollShows(cells: seq<Cell>, after: seq<Cell>, lines: seq<Line>)
    requires Shows(cells, BOTTOM, 0, lines) && |after| == WIDTH * HEIGHT
    requires forall r | 0 <= r < BOTTOM :: RowOf(after, r) == RowOf(cells, r + 1)
    requires RowOf(after, BOTTOM) == RowOf(cells, BOTTOM)
    ensures Shows(after, BOTTOM - 1, 0, lines)
  {
    assert PadLine(lines[|lines| - 1]) == Zeros(WIDTH);
    forall r | 0 <= r <= BOTTOM - 1 ensures RowOf(after, r) == PadLine(lines[|lines| - 1 - (BOTTOM - 1) + r]) {
      assert RowOf(cells, r + 1) == PadLine(lines[|lines| - 1 - BOTTOM + (r + 1)]);
    }
  }

  lemma BreakShows(cells: seq<Cell>, row: int, col: int, lines: seq<Line>)
    requires Shows(cells, row, col, lines) && row < BOTTOM
    ensures Shows(cells, row + 1, 0, BreakLine(lines))
  {
    WrapShows(cells, row, lines);
  }

  lemma CursorInside(cells: seq<Cell>, row: int, col: int, lines: seq<Line>)
    requires Shows(cells, row, col, lines)
    ensures 0 <= row <= BOTTOM && 0 <= col < WIDTH && (row == BOTTOM ==> col == 0) && lines != []
  {}

  // The rows below the window, where the clock is drawn, and above the last row of the memory.
  ghost predicate SameBelow(before: seq<Cell>, after: seq<Cell>) {
    && |before| == |after| == WIDTH * HEIGHT
    && forall r | BOTTOM < r < HEIGHT - 1 :: RowOf(after, r) == RowOf(before, r)
  }

  lemma WriteAbove(before: seq<Cell>, cells: seq<Cell>, row: nat, col: nat, x: Cell)
    requires SameBelow(before, cells) && row <= BOTTOM && col < WIDTH
    ensures SameBelow(before, cells[WIDTH * row + col := x])
  {
    forall r | BOTTOM < r < HEIGHT - 1 ensures RowOf(cells[WIDTH * row + col := x], r) == RowOf(before, r) {
      OtherRows(cells, row, col, x, r);
    }
  }

  lemma OtherRows(cells: seq<Cell>, row: nat, col: nat, x: Cell, r: nat)
    requires |cells| == WIDTH * HEIGHT && row < HEIGHT && col < WIDTH && r < HEIGHT
    ensures RowOf(cells[WIDTH * row + col := x], r) == if r == row then RowOf(cells, r)[col := x] else RowOf(cells, r)
  {}

  // The line under the cursor, one cell longer.
  function Extended(lines: seq<Line>, x: Cell): seq<Line>
    requires lines != []
  {
    lines[..|lines| - 1] + [lines[|lines| - 1] + [x]]
  }

  lemma PadExtended(line: Line, x: Cell)
    requires |line| < WIDTH
    ensures |PadLine(line)| == WIDTH && PadLine(line)[|line| := x] == PadLine(line + [x])
  {}

  lemma ExtendShows(cells: seq<Cell>, row: int, col: int, lines: seq<Line>, x: Cell)
    requires Shows(cells, row, col, lines) && row < BOTTOM
    ensures var after, more := cells[WIDTH * row + col := x], Extended(lines, x);
            && (forall l | l in more :: |l| <= WIDTH)
            && (forall r | 0 <= r <= row :: RowOf(after, r) == PadLine(more[|more| - 1 - row + r]))
            && (forall r | row < r <= BOTTOM :: RowOf(after, r) == Zeros(WIDTH))
  {
    hide RowOf, PadLine;
    var after, more, n := cells[WIDTH * row + col := x], Extended(lines, x), |lines| - 1;
    PadExtended(lines[n], x);
    forall r | 0 <= r <= row ensures RowOf(after, r) == PadLine(more[|more| - 1 - row + r]) {
      OtherRows(cells, row, col, x, r);
      assert RowOf(cells, r) == PadLine(lines[n - row + r]);
    }
    forall r | row < r <= BOTTOM ensures RowOf(after, r) == Zeros(WIDTH) {
      OtherRows(cells, row, col, x, r);
    }
  }

  // Writing at the cursor extends the last line.
  lemma PutShows(cells: seq<Cell>, row: int, col: int, lines: seq<Line>, x: Cell)
    requires Shows(cells, row, col, lines) && row < BOTTOM
    ensures var after, wrap := cells[WIDTH * row + col := x], col + 1 == WIDTH;
            Shows(after, if wrap then row + 1 else row, if wrap then 0 else col + 1, PutCell(lines, x))
  {
    var after, more := cells[WIDTH * row + col := x], Extended(lines, x);
    ExtendShows(cells, row, col, lines, x);
    if col + 1 < WIDTH {
      assert PutCell(lines, x) == more;
    } else {
      assert PutCell(lines, x) == more + [[]];
      WrapShows(after, row, more);
    }
  }

  lemma WrapShows(cells: seq<Cell>, row: int, lines: seq<Line>)
    requires |cells| == WIDTH * HEIGHT && 0 <= row < BOTTOM
    requires row + 1 <= |lines| && (row < BOTTOM - 1 ==> |lines| == row + 1)
    requires forall l | l in lines :: |l| <= WIDTH
    requires forall r | 0 <= r <= row :: RowOf(cells, r) == PadLine(lines[|lines| - 1 - row + r])
    requires forall r | row < r <= BOTTOM :: RowOf(cells, r) == Zeros(WIDTH)
    ensures Shows(cells, row + 1, 0, lines + [[]])
  {
    var next := lines + [[]];
    assert PadLine([]) == Zeros(WIDTH);
    forall r | 0 <= r <= row + 1 ensures RowOf(cells, r) == PadLine(next[|next| - 1 - (row + 1) + r]) {
      if r <= row {
        assert next[|next| - 1 - (row + 1) + r] == lines[|lines| - 1 - row + r];
      }
    }
  }

  class Framebuffer {
    const cells: array<Cell>
    var row: int
    var col: int
    const bg: int := 0
    ghost var lines: seq<Line>

    ghost predicate Valid()
      reads this, cells
    {
      cells.Length == WIDTH * HEIGHT && Shows(cells[..], row, col, lines)
    }

    // Whatever the video memory held, clearing it starts an empty page.
    constructor (memory: array<Cell>)
      requires memory.Length == WIDTH * HEIGHT
      modifies memory
      ensures Valid() && cells == memory && lines == [[]]
    {
      cells := memory;
      new;
      Clear();
    }

    // framebuffer_clear: zeroes 8004 bytes, which is the first 4002 cells.
    method Clear()
      requires cells.Length == WIDTH * HEIGHT
      modifies this, cells
      ensures Valid() && lines == [[]]
      ensures forall i | 4002 <= i < cells.Length :: cells[i] == old(cells[i])
    {
      var size := WIDTH * HEIGHT + 4;
      forall i | 0 <= i < size / 2 {
        cells[i] := 0;
      }
      SetCursor(0, 0);
      lines := [[]];
      assert PadLine([]) == Zeros(WIDTH);
      forall r | 0 <= r <= BOTTOM ensures RowOf(cells[..], r) == Zeros(WIDTH) {
        assert WIDTH * r + WIDTH <= 4002;
      }
    }

    // framebuffer_set_cursor, without the port output.
    method SetCursor(r: int, c: int)
      modifies this`row, this`col
      ensures row == r && col == c
    {
      row, col := r, c;
    }

    // framebuffer_write
    method Write(r: nat, c: nat, ch: int, fg: int, bg: int)
      requires cells.Length == WIDTH * HEIGHT && r < HEIGHT && c < WIDTH
      modifies cells
      ensures cells[..] == old(cells[..])[WIDTH * r + c := CellOf(ch, fg, bg)]
      ensures 0 <= ch < 256 && 0 <= bg < 16 ==>
                var x := cells[80 * r + c]; x % 256 == ch && x / 256 % 16 == fg % 16 && x / 4096 == bg
    {
      if 0 <= ch < 256 && 0 <= bg < 16 {
        CellParts(ch, fg, bg);
      }
      cells[r * WIDTH + c] := CellOf(ch, fg, bg);
    }

    // Copies one row onto the row above it.
    method CopyRowUp(r: nat)
      requires cells.Length == WIDTH * HEIGHT && r + 1 < HEIGHT
      modifies cells
      ensures RowOf(cells[..], r) == old(RowOf(cells[..], r + 1))
      ensures forall s | 0 <= s < HEIGHT && s != r :: RowOf(cells[..], s) == old(RowOf(cells[..], s))
    {
      forall k | 0 <= k < WIDTH {
        cells[r * WIDTH + k] := cells[(r + 1) * WIDTH + k];
      }
      forall s | 0 <= s < HEIGHT
        ensures RowOf(cells[..], s) == if s == r then old(RowOf(cells[..], r + 1)) else old(RowOf(cells[..], s))
      {
        SameRow(old(cells[..]), cells[..], r, s);
      }
    }

    lemma SameRow(before: seq<Cell>, after: seq<Cell>, r: nat, s: nat)
      requires |before| == |after| == WIDTH * HEIGHT && r + 1 < HEIGHT && s < HEIGHT
      requires forall i | WIDTH * r <= i < WIDTH * r + WIDTH :: after[i] == before[i + WIDTH]
      requires forall i | 0 <= i < |after| && !(WIDTH * r <= i < WIDTH * r + WIDTH) :: after[i] == before[i]
      ensures RowOf(after, s) == if s == r then RowOf(before, r + 1) else RowOf(before, s)
    {
      forall k | 0 <= k < WIDTH
        ensures RowOf(after, s)[k] == if s == r then RowOf(before, r + 1)[k] else RowOf(before, s)[k]
      {
        assert RowOf(after, s)[k] == after[WIDTH * s + k];
        assert s == r ==> RowOf(before, r + 1)[k] == before[WIDTH * s + k + WIDTH];
      }
    }

    // framebuffer_scroll_up: rows 1 to 20 move up, and the last row of the memory is cleared.
    method ScrollUp()
      requires cells.Length == WIDTH * HEIGHT
      modifies cells
      ensures forall r | 0 <= r < BOTTOM :: RowOf(cells[..], r) == old(RowOf(cells[..], r + 1))
      ensures forall r | BOTTOM <= r < HEIGHT - 1 :: RowOf(cells[..], r) == old(RowOf(cells[..], r))
      ensures RowOf(cells[..], HEIGHT - 1) == Zeros(WIDTH)
    {
      for r := 0 to BOTTOM
        invariant forall s | 0 <= s < r :: RowOf(cells[..], s) == old(RowOf(cells[..], s + 1))
        invariant forall s | r <= s < HEIGHT :: RowOf(cells[..], s) == old(RowOf(cells[..], s))
        modifies cells
      {
        CopyRowUp(r);
      }
      ghost var before := cells[..];
      forall k | 0 <= k < WIDTH {
        cells[(HEIGHT - 1) * WIDTH + k] := 0;
      }
      forall r | 0 <= r < HEIGHT - 1 ensures RowOf(cells[..], r) == RowOf(before, r) {
        assert cells[..WIDTH * (HEIGHT - 1)] == before[..WIDTH * (HEIGHT - 1)];
        assert RowOf(cells[..], r) == cells[..WIDTH * (HEIGHT - 1)][WIDTH * r..WIDTH * r + WIDTH];
      }
    }

    // framebuffer_newline
    method Newline()
      requires Valid()
      modifies this, cells
      ensures Valid() && lines == BreakLine(old(lines)) && SameBelow(old(cells[..]), cells[..])
    {
      if row == BOTTOM {
        ScrollUp();
        ScrollShows(old(cells[..]), cells[..], lines);
        row := row - 1;
      }
      BreakShows(cells[..], row, col, lines);
      row := row + 1;
      SetCursor(if row == HEIGHT then 0 else row, 0);
      lines := BreakLine(lines);
    }

    // framebuffer_put
    method Put(c: int, color: int)
      requires Valid()
      modifies this, cells
      ensures Valid() && lines == PutCell(old(lines), CellOf(c, color, bg)) && SameBelow(old(cells[..]), cells[..])
    {
      hide Shows, RowOf, PutCell, CellOf;
      CursorInside(cells[..], row, col, lines);
      if row == BOTTOM {
        ScrollUp();
        ScrollShows(old(cells[..]), cells[..], lines);
        row := row - 1;
      }
      PutShows(cells[..], row, col, lines, CellOf(c, color, bg));
      assert SameBelow(old(cells[..]), cells[..]);
      WriteAbove(old(cells[..]), cells[..], row, col, CellOf(c, color, bg));
      Write(row, col, c, color, bg);
      SetCursor(row, col);
      col := col + 1;
      if col == WIDTH {
        col := 0;
        row := row + 1;
        SetCursor(row, col);
      }
      SetCursor(if row == HEIGHT then 0 else row, col);
      lines := PutCell(lines, CellOf(c, color, bg));
    }

    // fputc
    method PutChar(g: Glyph)
      requires Valid() && GlyphOk(g)
      modifies this, cells
      ensures Valid() && lines == Typed(old(lines), g, bg) && SameBelow(old(cells[..]), cells[..])
    {
      if g.c == NEWLINE {
        Newline();
      } else {
        Put(g.c, g.color);
      }
    }
  }

  // The cells of the window, 80 to a row: those of the lines that are shown, and blanks.
  lemma ShownCells(cells: seq<Cell>, row: int, col: int, lines: seq<Line>)
    requires Shows(cells, row, col, lines)
    ensures 0 <= row <= 20 && row < |lines| && |cells| == 8000
    ensures forall i | 0 <= i < 21 * 80 ::
              cells[i] == if i / 80 > row || i % 80 >= |lines[|lines| - 1 - row + i / 80]| then 0
                          else lines[|lines| - 1 - row + i / 80][i % 80]
  {
    forall i | 0 <= i < 21 * 80
      ensures cells[i] == if i / 80 > row || i % 80 >= |lines[|lines| - 1 - row + i / 80]| then 0
                          else lines[|lines| - 1 - row + i / 80][i % 80]
    {
      var r, c := i / 80, i % 80;
      assert RowOf(cells, r)[c] == cells[i];
      if r <= row {
        assert RowOf(cells, r) == PadLine(lines[|lines| - 1 - row + r]);
      } else {
        assert RowOf(cells, r) == Zeros(WIDTH);
      }
    }
  }

  // Clearing the terminal and printing a text shows the end of its layout, which has the
  // characters of the text and their colours in it.
  method PrintPage(fb: Framebuffer, text: seq<Glyph>)
    requires fb.cells.Length == WIDTH * HEIGHT && forall g | g in text :: 0 <= g.c < 128 && 0 <= g.color < 256
    modifies fb, fb.cells
    ensures fb.Valid() && fb.lines == Layout(text, fb.bg)
    ensures 0 <= fb.row <= 20 && fb.row < |fb.lines| && fb.cells.Length == 8000
    ensures forall i | 0 <= i < 21 * 80 ::
              fb.cells[i] == if i / 80 > fb.row || i % 80 >= |fb.lines[|fb.lines| - 1 - fb.row + i / 80]| then 0
                             else fb.lines[|fb.lines| - 1 - fb.row + i / 80][i % 80]
    ensures var marks := Marks(Layout(text, fb.bg));
            && |marks| == |text|
            && forall i | 0 <= i < |text| ::
                 if text[i].c == 10 then marks[i] == Break
                 else marks[i].Ink? && marks[i].x % 256 == text[i].c && marks[i].x / 256 % 16 == text[i].color % 16
                      && marks[i].x / 4096 == fb.bg
  {
    hide SameBelow, Typed, RowOf, PadLine, Marks;
    LayoutShowsText(text, fb.bg);
    fb.Clear();
    for i := 0 to |text|
      invariant fb.Valid() && fb.lines == Layout(text[..i], fb.bg)
    {
      assert text[..i + 1][..i] == text[..i];
      fb.PutChar(text[i]);
    }
    assert text[..|text|] == text;
    ShownCells(fb.cells[..], fb.row, fb.col, fb.lines);
  }
}
