/** The VGA text console: a screen of fixed size with a scrolling region, and the
    unbounded transcript of which the region shows the end. Rows and columns
    count from 0 here. */
module Console {

  type Color = c: nat | c < 16

  datatype Cell = Cell(glyph: char, fg: Color, bg: Color)
  type Row = seq<Cell>

  const LIGHT_GREY: Color := 7
  const BLACK: Color := 0

  /** The package state. */
  datatype State = State(
    rows: seq<Row>, width: nat, x: nat, y: nat, fg: Color, bg: Color, top: nat, bottom: nat)

  ghost predicate Valid(s: State) {
    && s.width > 0 && s.x < s.width && s.y < |s.rows| && s.top < |s.rows| && s.bottom < |s.rows|
    && forall k :: 0 <= k < |s.rows| ==> |s.rows[k]| == s.width
  }

  /** The cursor is in the scrolling region. */
  ghost predicate InRegion(s: State) {
    Valid(s) && s.top <= s.y <= s.bottom
  }

  function Blank(s: State): Cell {
    Cell(' ', s.fg, s.bg)
  }

  function BlankRow(width: nat, c: Cell): (r: Row)
    ensures |r| == width && forall k :: 0 <= k < width ==> r[k] == c
  {
    seq(width, _ => c)
  }

  // ----- the operations on the state -----

  function ScrolledRow(s: State, k: nat): (r: Row)
    requires Valid(s) && k < |s.rows|
    ensures |r| == s.width
  {
    if k == s.bottom then BlankRow(s.width, Blank(s))
    else if s.top <= k < s.bottom then s.rows[k + 1]
    else s.rows[k]
  }

  function ScrollUp(s: State): (s': State)
    requires Valid(s)
    ensures Valid(s') && s' == s.(rows := s'.rows) && |s'.rows| == |s.rows|
    ensures forall k :: 0 <= k < |s.rows| ==> s'.rows[k] == ScrolledRow(s, k)
  {
    s.(rows := seq(|s.rows|, k requires 0 <= k < |s.rows| => ScrolledRow(s, k)))
  }

  function NewLine(s: State): (s': State)
    requires Valid(s) && (s.y == s.bottom || s.y + 1 < |s.rows|)
    ensures Valid(s')
  {
    if s.y == s.bottom then ScrollUp(s.(x := 0)) else s.(x := 0, y := s.y + 1)
  }

  function PutChar(s: State, c: char): (s': State)
    requires Valid(s) && (s.y == s.bottom || s.y + 1 < |s.rows|)
    ensures Valid(s')
  {
    var s' := s.(rows := s.rows[s.y := s.rows[s.y][s.x := Cell(c, s.fg, s.bg)]]);
    if s.x == s.width - 1 then NewLine(s') else s'.(x := s.x + 1)
  }

  // ----- the transcript -----

  /** A line that overwrites what was in its place. */
  datatype Line = Line(cells: seq<Cell>, base: Row)

  function Display(l: Line): Row
    requires |l.cells| <= |l.base|
  {
    l.cells + l.base[|l.cells|..]
  }

  /** What is written: characters in the current colours, ends of lines, new
      colours. */
  datatype Event = Char(c: char) | EndLine | Tab | Text(fg: Color) | Background(bg: Color) | Swap

  /** The transcript so far: all lines, never fewer than one, and the colours. */
  datatype Paper = Paper(lines: seq<Line>, fg: Color, bg: Color)

  /** The next line; the first ones go over what the region held before. */
  function NextLine(p: Paper, width: nat, under: seq<Row>): Paper {
    p.(lines := p.lines + [Line([], if |p.lines| < |under| then under[|p.lines|]
                                    else BlankRow(width, Cell(' ', p.fg, p.bg)))])
  }

  function Write(p: Paper, c: char, width: nat, under: seq<Row>): Paper
    requires p.lines != []
  {
    var n := |p.lines| - 1;
    var cells := p.lines[n].cells + [Cell(c, p.fg, p.bg)];
    var p' := p.(lines := p.lines[n := p.lines[n].(cells := cells)]);
    if |cells| == width then NextLine(p', width, under) else p'
  }

  ghost predicate ValidPaper(p: Paper, width: nat) {
    && p.lines != [] && |p.lines[|p.lines| - 1].cells| < width
    && forall k :: 0 <= k < |p.lines| ==> |p.lines[k].cells| <= |p.lines[k].base| == width
  }

  /** How many lines have gone off the top. */
  function Gone(p: Paper, height: nat): nat {
    if |p.lines| > height then |p.lines| - height else 0
  }

  /** Row k of a region of the given height. */
  function Shown(p: Paper, under: seq<Row>, k: nat): Row
    requires k < |under| && forall k :: 0 <= k < |p.lines| ==> |p.lines[k].cells| <= |p.lines[k].base|
  {
    var i := Gone(p, |under|) + k;
    if i < |p.lines| then Display(p.lines[i]) else under[k]
  }

  /** The scrolling region shows the last lines of the transcript, and the cursor
      is at its end. */
  ghost predicate Shows(s: State, p: Paper, under: seq<Row>) {
    && InRegion(s) && ValidPaper(p, s.width) && |under| == s.bottom - s.top + 1
    && (forall k :: 0 <= k < |under| ==> |under[k]| == s.width)
    && p.fg == s.fg && p.bg == s.bg
    && s.x == |p.lines[|p.lines| - 1].cells|
    && s.y == s.top + |p.lines| - 1 - Gone(p, |under|)
    && forall k :: 0 <= k < |under| ==> ShowsRow(s, p, under, k)
  }

  ghost predicate ShowsRow(s: State, p: Paper, under: seq<Row>, k: nat)
    requires ValidPaper(p, s.width) && k < |under| && Valid(s) && s.top + |under| <= |s.rows|
  {
    s.rows[s.top + k] == Shown(p, under, k)
  }

  /** Shows, except that the last line may just have been filled. */
  ghost predicate Holds(s: State, p: Paper, under: seq<Row>) {
    && InRegion(s) && p.lines != [] && |under| == s.bottom - s.top + 1
    && (forall k :: 0 <= k < |p.lines| ==> |p.lines[k].cells| <= |p.lines[k].base| == s.width)
    && (forall k :: 0 <= k < |under| ==> |under[k]| == s.width)
    && p.fg == s.fg && p.bg == s.bg && s.y == s.top + |p.lines| - 1 - Gone(p, |under|)
    && forall k :: 0 <= k < |under| ==> s.rows[s.top + k] == Shown(p, under, k)
  }

  lemma FreshLine(l: Line)
    requires l.cells == []
    ensures Display(l) == l.base
  {
  }

  lemma NextLineLines(p: Paper, width: nat, under: seq<Row>)
    requires forall k :: 0 <= k < |p.lines| ==> |p.lines[k].cells| <= |p.lines[k].base| == width
    requires forall k :: 0 <= k < |under| ==> |under[k]| == width
    ensures var p' := NextLine(p, width, under);
      && (forall k :: 0 <= k < |p'.lines| ==> |p'.lines[k].cells| <= |p'.lines[k].base| == width)
      && (forall k :: 0 <= k < |p.lines| ==> p'.lines[k] == p.lines[k])
      && p'.lines[|p.lines|].cells == []
  {
  }

  /** The rows that the transcript shows after a line end, from those before. */
  lemma ShownAfterBreak(p: Paper, width: nat, under: seq<Row>, k: nat)
    requires p.lines != [] && k < |under|
    requires forall k :: 0 <= k < |p.lines| ==> |p.lines[k].cells| <= |p.lines[k].base| == width
    requires forall k :: 0 <= k < |under| ==> |under[k]| == width
    ensures var p', h := NextLine(p, width, under), |under|;
      && (forall k :: 0 <= k < |p'.lines| ==> |p'.lines[k].cells| <= |p'.lines[k].base|)
      && (|p.lines| < h ==> Shown(p', under, k) == Shown(p, under, k))
      && (|p.lines| >= h && k + 1 < h ==> Shown(p', under, k) == Shown(p, under, k + 1))
      && (|p.lines| >= h && k + 1 == h ==> Shown(p', under, k) == BlankRow(width, Cell(' ', p.fg, p.bg)))
  {
    var p', n, h := NextLine(p, width, under), |p.lines|, |under|;
    NextLineLines(p, width, under);
    FreshLine(p'.lines[n]);
    LastBase(p, width, under);
    assert |p'.lines| == n + 1;
    hide Display, BlankRow, NextLine;
    if n < h {
      assert Gone(p, h) == 0 && Gone(p', h) == 0;
    } else {
      assert Gone(p, h) == n - h && Gone(p', h) == n + 1 - h;
      assert k + 1 < h ==> p'.lines[n + 1 - h + k] == p.lines[n - h + (k + 1)];
    }
  }

  lemma HoldsRow(s: State, p: Paper, under: seq<Row>, k: nat)
    requires Holds(s, p, under) && k < |under|
    ensures s.top + k < |s.rows| && s.rows[s.top + k] == Shown(p, under, k)
    ensures s.top + k == s.bottom <==> k + 1 == |under|
    ensures s.y == s.bottom <==> |p.lines| >= |under|
    ensures p.lines != [] && p.fg == s.fg && p.bg == s.bg
    ensures s.y != s.bottom ==> NewLine(s).rows == s.rows
  {
    hide Shown;
  }

  lemma RowAfterNewLine(s: State, p: Paper, under: seq<Row>, k: nat)
    requires Holds(s, p, under) && k < |under|
    ensures var p' := NextLine(p, s.width, under);
      && (forall k :: 0 <= k < |p'.lines| ==> |p'.lines[k].cells| <= |p'.lines[k].base|)
      && NewLine(s).rows[s.top + k] == Shown(p', under, k)
  {
    ShownAfterBreak(p, s.width, under, k);
    assert InRegion(s);
    hide *;
    HoldsRow(s, p, under, k);
    if s.y == s.bottom {
      if k + 1 < |under| {
        HoldsRow(s, p, under, k + 1);
      }
      ScrolledAt(s, k);
    }
  }

  lemma ScrolledAt(s: State, k: nat)
    requires InRegion(s) && s.y == s.bottom && s.top + k <= s.bottom
    ensures NewLine(s).rows[s.top + k] ==
      if s.top + k == s.bottom then BlankRow(s.width, Cell(' ', s.fg, s.bg)) else s.rows[s.top + k + 1]
  {
  }

  lemma LastBase(p: Paper, width: nat, under: seq<Row>)
    ensures NextLine(p, width, under).lines[|p.lines|].base ==
      if |p.lines| < |under| then under[|p.lines|] else BlankRow(width, Cell(' ', p.fg, p.bg))
  {
  }

  lemma LineBreakShows(s: State, p: Paper, under: seq<Row>)
    requires Holds(s, p, under)
    ensures Shows(NewLine(s), NextLine(p, s.width, under), under)
  {
    var s', p' := NewLine(s), NextLine(p, s.width, under);
    NextLineLines(p, s.width, under);
    forall k | 0 <= k < |under| ensures s'.rows[s.top + k] == Shown(p', under, k) {
      RowAfterNewLine(s, p, under, k);
    }
    assert |p'.lines| == |p.lines| + 1;
    hide Shown, Display, BlankRow, NextLine, ScrollUp;
    assert forall k :: 0 <= k < |under| ==> ShowsRow(s', p', under, k);
  }

  lemma ShowsHolds(s: State, p: Paper, under: seq<Row>)
    requires Shows(s, p, under)
    ensures Holds(s, p, under)
  {
    forall k | 0 <= k < |under| ensures s.rows[s.top + k] == Shown(p, under, k) {
      assert ShowsRow(s, p, under, k);
    }
  }

  /** The cell under the cursor is the next one of the current line. */
  lemma CharRow(s: State, p: Paper, under: seq<Row>, cell: Cell, k: nat)
    requires Shows(s, p, under) && k < |under|
    ensures var n := |p.lines| - 1;
      var p' := p.(lines := p.lines[n := p.lines[n].(cells := p.lines[n].cells + [cell])]);
      && (forall i :: 0 <= i < |p'.lines| ==> |p'.lines[i].cells| <= |p'.lines[i].base| == s.width)
      && s.rows[s.y := s.rows[s.y][s.x := cell]][s.top + k] == Shown(p', under, k)
  {
    var n := |p.lines| - 1;
    var l := p.lines[n];
    var h, l' := |under|, l.(cells := l.cells + [cell]);
    var p' := p.(lines := p.lines[n := l']);
    assert ShowsRow(s, p, under, k);
    CharInLine(l, cell);
    assert forall i :: 0 <= i < n ==> p'.lines[i] == p.lines[i];
    assert p'.lines[n] == l' && Gone(p', h) == Gone(p, h);
    hide Display, Gone, ShowsRow;
    if Gone(p, h) + k == n {
      assert s.y == s.top + k;
    } else {
      assert s.y != s.top + k;
    }
  }

  lemma CharInLine(l: Line, cell: Cell)
    requires |l.cells| < |l.base|
    ensures Display(l.(cells := l.cells + [cell])) == Display(l)[|l.cells| := cell]
  {
  }

  function Stored(s: State, cell: Cell): State
    requires Valid(s)
  {
    s.(rows := s.rows[s.y := s.rows[s.y][s.x := cell]])
  }

  function Extended(p: Paper, cell: Cell): Paper
    requires p.lines != []
  {
    var n := |p.lines| - 1;
    p.(lines := p.lines[n := p.lines[n].(cells := p.lines[n].cells + [cell])])
  }

  lemma StoredHolds(s: State, p: Paper, under: seq<Row>, cell: Cell)
    requires Shows(s, p, under)
    ensures Holds(Stored(s, cell), Extended(p, cell), under)
  {
    var s', p' := Stored(s, cell), Extended(p, cell);
    CharRow(s, p, under, cell, 0);
    hide Shown, ShowsRow, Gone;
    forall k | 0 <= k < |under| ensures s'.rows[s.top + k] == Shown(p', under, k) {
      CharRow(s, p, under, cell, k);
    }
    SameHeight(p, p', |under|);
  }

  lemma SameHeight(p: Paper, p': Paper, h: nat)
    requires |p'.lines| == |p.lines|
    ensures Gone(p', h) == Gone(p, h)
  {
  }

  lemma HoldsShows(s: State, p: Paper, under: seq<Row>)
    requires Holds(s, p, under) && s.x == |p.lines[|p.lines| - 1].cells|
    ensures Shows(s, p, under)
  {
    hide Shown;
    assert forall k :: 0 <= k < |under| ==> ShowsRow(s, p, under, k);
  }

  lemma HoldsAnyColumn(s: State, p: Paper, under: seq<Row>, x: nat)
    requires Holds(s, p, under) && x < s.width
    ensures Holds(s.(x := x), p, under)
  {
    hide Shown;
  }

  lemma CharShows(s: State, p: Paper, under: seq<Row>, c: char)
    requires Shows(s, p, under)
    ensures Shows(PutChar(s, c), Write(p, c, s.width, under), under)
  {
    var cell := Cell(c, s.fg, s.bg);
    var s1, p1 := Stored(s, cell), Extended(p, cell);
    StoredHolds(s, p, under, cell);
    assert s1.x == s.x == |p1.lines[|p1.lines| - 1].cells| - 1 && p1.lines != [];
    hide Shows, ShowsRow, Holds, NewLine, NextLine;
    if s.x == s.width - 1 {
      LineBreakShows(s1, p1, under);
    } else {
      HoldsAnyColumn(s1, p1, under, s.x + 1);
      HoldsShows(s1.(x := s.x + 1), p1, under);
    }
  }

  // ----- sequences of writes -----

  /** At a column that is not a tab stop up to the next one, at a tab stop the
      whole width of a tab. */
  function Spaces(x: nat): nat {
    8 - x % 8
  }

  function PutSpaces(s: State, n: nat): (s': State)
    requires Valid(s) && s.y <= s.bottom
    ensures Valid(s') && s'.y <= s'.bottom && s'.bottom == s.bottom
    decreases n
  {
    if n == 0 then s else PutSpaces(PutChar(s, ' '), n - 1)
  }

  function Step(s: State, e: Event): (s': State)
    requires Valid(s) && s.y <= s.bottom
    ensures Valid(s') && s'.y <= s'.bottom
  {
    match e
    case Char(c) => PutChar(s, c)
    case EndLine => NewLine(s)
    case Tab => PutSpaces(s, Spaces(s.x))
    case Text(fg) => s.(fg := fg)
    case Background(bg) => s.(bg := bg)
    case Swap => s.(fg := s.bg, bg := s.fg)
  }

  function Run(s: State, events: seq<Event>): (s': State)
    requires Valid(s) && s.y <= s.bottom
    ensures Valid(s') && s'.y <= s'.bottom
    decreases |events|
  {
    if events == [] then s else Run(Step(s, events[0]), events[1..])
  }

  function WriteSpaces(p: Paper, n: nat, width: nat, under: seq<Row>): (p': Paper)
    requires p.lines != []
    ensures p'.lines != []
    decreases n
  {
    if n == 0 then p else WriteSpaces(Write(p, ' ', width, under), n - 1, width, under)
  }

  function Print(p: Paper, e: Event, width: nat, under: seq<Row>): (p': Paper)
    requires p.lines != []
    ensures p'.lines != []
  {
    match e
    case Char(c) => Write(p, c, width, under)
    case EndLine => NextLine(p, width, under)
    case Tab => WriteSpaces(p, Spaces(|p.lines[|p.lines| - 1].cells|), width, under)
    case Text(fg) => p.(fg := fg)
    case Background(bg) => p.(bg := bg)
    case Swap => p.(fg := p.bg, bg := p.fg)
  }

  /** The unbounded transcript of the events. */
  function Transcript(p: Paper, events: seq<Event>, width: nat, under: seq<Row>): Paper
    requires p.lines != []
    decreases |events|
  {
    if events == [] then p else Transcript(Print(p, events[0], width, under), events[1..], width, under)
  }

  lemma {:induction false} SpacesShow(s: State, p: Paper, under: seq<Row>, n: nat)
    requires Shows(s, p, under)
    ensures Shows(PutSpaces(s, n), WriteSpaces(p, n, s.width, under), under)
    ensures PutSpaces(s, n).width == s.width
    decreases n
  {
    if n > 0 {
      CharShows(s, p, under, ' ');
      assert PutChar(s, ' ').width == s.width;
      hide PutChar, Write, Shows;
      SpacesShow(PutChar(s, ' '), Write(p, ' ', s.width, under), under, n - 1);
    }
  }

  lemma Recoloured(s: State, p: Paper, under: seq<Row>, fg: Color, bg: Color)
    requires Shows(s, p, under)
    ensures Shows(s.(fg := fg, bg := bg), p.(fg := fg, bg := bg), under)
  {
    var s', p' := s.(fg := fg, bg := bg), p.(fg := fg, bg := bg);
    forall k | 0 <= k < |under| ensures ShowsRow(s', p', under, k) {
      assert ShowsRow(s, p, under, k);
    }
  }

  lemma StepShows(s: State, p: Paper, under: seq<Row>, e: Event)
    requires Shows(s, p, under)
    ensures Shows(Step(s, e), Print(p, e, s.width, under), under) && Step(s, e).width == s.width
  {
    match e {
      case Char(c) => CharShows(s, p, under, c);
      case EndLine => NewLineShows(s, p, under);
      case Tab => SpacesShow(s, p, under, Spaces(s.x));
      case Text(fg) =>
        Recoloured(s, p, under, fg, s.bg);
        assert s.(fg := fg, bg := s.bg) == s.(fg := fg) && p.(fg := fg, bg := s.bg) == p.(fg := fg);
      case Background(bg) =>
        Recoloured(s, p, under, s.fg, bg);
        assert s.(fg := s.fg, bg := bg) == s.(bg := bg) && p.(fg := s.fg, bg := bg) == p.(bg := bg);
      case Swap => Recoloured(s, p, under, s.bg, s.fg);
    }
  }

  lemma NewLineShows(s: State, p: Paper, under: seq<Row>)
    requires Shows(s, p, under)
    ensures Shows(NewLine(s), NextLine(p, s.width, under), under)
  {
    ShowsHolds(s, p, under);
    LineBreakShows(s, p, under);
  }

  // ----- the main result -----

  /** The rows of the region, before anything is written. */
  function Under(s: State): seq<Row>
    requires s.top <= s.bottom < |s.rows|
  {
    s.rows[s.top..s.bottom + 1]
  }

  function RowSoFar(s: State, k: nat): Line
    requires s.top <= s.y < |s.rows| && s.x <= |s.rows[s.y]| && s.top + k <= s.y
  {
    Line(if s.top + k == s.y then s.rows[s.y][..s.x] else [], s.rows[s.top + k])
  }

  /** The transcript that a screen with the cursor in the region starts with:
      the rows above the cursor, then the row of the cursor up to it. */
  function Start(s: State): (p: Paper)
    requires s.top <= s.y <= s.bottom < |s.rows| && s.x <= |s.rows[s.y]|
    ensures |p.lines| == s.y - s.top + 1
    ensures forall k :: 0 <= k < |p.lines| ==> p.lines[k] == RowSoFar(s, k)
  {
    Paper(seq(s.y - s.top + 1, k requires 0 <= k < s.y - s.top + 1 => RowSoFar(s, k)), s.fg, s.bg)
  }

  lemma DisplayedSoFar(s: State, k: nat)
    requires InRegion(s) && s.top + k <= s.y
    ensures var l := RowSoFar(s, k);
      && |l.cells| <= |l.base| == s.width && Display(l) == s.rows[s.top + k]
      && |l.cells| == if s.top + k == s.y then s.x else 0
  {
  }

  lemma StartValid(s: State)
    requires InRegion(s)
    ensures ValidPaper(Start(s), s.width) && Start(s).fg == s.fg && Start(s).bg == s.bg
    ensures |Start(s).lines[|Start(s).lines| - 1].cells| == s.x
  {
    var p := Start(s);
    forall k | 0 <= k < |p.lines| ensures |p.lines[k].cells| <= |p.lines[k].base| == s.width {
      DisplayedSoFar(s, k);
    }
    DisplayedSoFar(s, |p.lines| - 1);
    hide RowSoFar;
  }

  lemma StartRow(s: State, k: nat)
    requires InRegion(s) && k <= s.bottom - s.top
    ensures ValidPaper(Start(s), s.width) && |Under(s)| == s.bottom - s.top + 1
    ensures Under(s)[k] == s.rows[s.top + k]
    ensures ShowsRow(s, Start(s), Under(s), k)
  {
    StartValid(s);
    hide Start, RowSoFar, Display;
    if k < |Start(s).lines| {
      DisplayedSoFar(s, k);
    }
  }

  lemma StartShows(s: State)
    requires InRegion(s)
    ensures Shows(s, Start(s), Under(s))
  {
    StartRow(s, 0);
    StartValid(s);
    hide ShowsRow, ValidPaper, Start, RowSoFar;
    forall k | 0 <= k < |Under(s)|
      ensures |Under(s)[k]| == s.width && ShowsRow(s, Start(s), Under(s), k)
    {
      StartRow(s, k);
    }
  }

  lemma {:induction false} RunShows(s: State, p: Paper, under: seq<Row>, events: seq<Event>)
    requires Shows(s, p, under)
    ensures Shows(Run(s, events), Transcript(p, events, s.width, under), under)
    decreases |events|
  {
    if events != [] {
      StepShows(s, p, under, events[0]);
      hide Shows, Step, Print;
      RunShows(Step(s, events[0]), Print(p, events[0], s.width, under), under, events[1..]);
    }
  }

  /** From any screen with the cursor in the scrolling region, whatever is
      written: the region shows the last lines of the transcript, each over what
      its place held, and the cursor is at the end. */
  lemma ScreenShowsTranscript(s: State, events: seq<Event>)
    requires InRegion(s)
    ensures Shows(Run(s, events), Transcript(Start(s), events, s.width, Under(s)), Under(s))
  {
    StartShows(s);
    RunShows(s, Start(s), Under(s), events);
  }

  /** After Init with the margins of a fresh console: an empty transcript over
      blank rows. */
  function Cleared(width: nat, height: nat): State
    requires width > 0 && height > 0
  {
    var row := BlankRow(width, Cell(' ', LIGHT_GREY, BLACK));
    State(seq(height, _ => row), width, 0, 0, LIGHT_GREY, BLACK, 0, height - 1)
  }

  function EmptyPaper(width: nat): Paper {
    Paper([Line([], BlankRow(width, Cell(' ', LIGHT_GREY, BLACK)))], LIGHT_GREY, BLACK)
  }

  function BlankRows(width: nat, height: nat): seq<Row> {
    seq(height, _ => BlankRow(width, Cell(' ', LIGHT_GREY, BLACK)))
  }

  lemma ClearedIsEmpty(width: nat, height: nat, bottom: nat)
    requires width > 0 && bottom < height
    ensures var s := Cleared(width, height).(bottom := bottom);
      InRegion(s) && Start(s) == EmptyPaper(width) && Under(s) == BlankRows(width, bottom + 1)
  {
    var s := Cleared(width, height).(bottom := bottom);
    assert Start(s).lines == [Line([], s.rows[0])];
  }

  /** After Init with a region that starts at the first row: the region shows the
      end of all that was ever written, the first lines over blank rows, and the
      rows below it stay blank. */
  lemma ScreenShowsAllWrites(width: nat, height: nat, bottom: nat, events: seq<Event>)
    requires width > 0 && bottom < height
    ensures var s := Cleared(width, height).(bottom := bottom);
      var t, under := Run(s, events), BlankRows(width, bottom + 1);
      && InRegion(s)
      && Shows(t, Transcript(EmptyPaper(width), events, width, under), under)
      && |t.rows| == height
      && forall k :: bottom < k < height ==> t.rows[k] == BlankRow(width, Cell(' ', LIGHT_GREY, BLACK))
  {
    var s := Cleared(width, height).(bottom := bottom);
    ClearedIsEmpty(width, height, bottom);
    assert forall k :: 0 <= k < height ==> s.rows[k] == BlankRow(width, Cell(' ', LIGHT_GREY, BLACK));
    hide Run, Transcript, Shows, BlankRow, EmptyPaper, BlankRows, Start, Under;
    ScreenShowsTranscript(s, events);
    RunConfined(s, events);
  }

  // ----- what stays -----

  /** Nothing outside the region changes, and the cursor stays inside. */
  ghost predicate Confined(s: State, s': State) {
    && InRegion(s') && s'.top == s.top && s'.bottom == s.bottom && s'.width == s.width
    && |s'.rows| == |s.rows|
    && forall k :: 0 <= k < |s.rows| && !(s.top <= k <= s.bottom) ==> s'.rows[k] == s.rows[k]
  }

  lemma {:induction false} SpacesConfined(s: State, n: nat)
    requires InRegion(s)
    ensures Confined(s, PutSpaces(s, n))
    decreases n
  {
    if n > 0 {
      var s' := PutChar(s, ' ');
      assert Confined(s, s');
      hide PutChar;
      SpacesConfined(s', n - 1);
    }
  }

  lemma StepConfined(s: State, e: Event)
    requires InRegion(s)
    ensures Confined(s, Step(s, e))
  {
    if e.Tab? {
      SpacesConfined(s, Spaces(s.x));
    }
    hide PutSpaces;
  }

  lemma {:induction false} RunConfined(s: State, events: seq<Event>)
    requires InRegion(s)
    ensures Confined(s, Run(s, events))
    decreases |events|
  {
    if events != [] {
      StepConfined(s, events[0]);
      hide Step;
      RunConfined(Step(s, events[0]), events[1..]);
    }
  }

  function Wrapped(x: nat, width: nat): nat {
    if x < width then x else x - width
  }

  /** Spaces move the cursor on by their number, and into the next line. */
  lemma {:induction false} SpacesColumn(s: State, n: nat)
    requires InRegion(s) && s.x + n < 2 * s.width
    ensures PutSpaces(s, n).x == Wrapped(s.x + n, s.width)
    decreases n
  {
    if n > 0 {
      var s' := PutChar(s, ' ');
      assert InRegion(s') && s'.width == s.width && s'.x == if s.x == s.width - 1 then 0 else s.x + 1;
      hide PutChar;
      SpacesColumn(s', n - 1);
    }
  }

  lemma Stops(x: nat, width: nat)
    requires x < width && width % 8 == 0
    ensures 8 <= width && x + Spaces(x) == (x / 8 + 1) * 8 <= width
    ensures x % 8 == 4 ==> Spaces(x) == 4
    ensures Wrapped(x + Spaces(x), width) == Wrapped(x + 4, width) <==> x % 8 == 4
  {
    StopOrMiddle(x, width, x % 8);
    hide Wrapped;
  }

  lemma StopOrMiddle(x: nat, width: nat, r: nat)
    requires r < 8 && r <= x < width && x + 8 - r <= width
    ensures Wrapped(x + (8 - r), width) == Wrapped(x + 4, width) <==> r == 4
  {
  }

  /** With a width that is a multiple of 8 a tab ends at the next tab stop. It is
      four spaces, as the documentation has it, exactly in the middle between
      two stops. */
  lemma TabStops(s: State)
    requires InRegion(s) && s.width % 8 == 0
    ensures Step(s, Tab).x == if (s.x / 8 + 1) * 8 < s.width then (s.x / 8 + 1) * 8 else 0
    ensures Step(s, Tab) == PutSpaces(s, 4) <==> s.x % 8 == 4
  {
    TabIsSpaces(s);
    hide PutSpaces, Step, Spaces;
    Stops(s.x, s.width);
    SpacesColumn(s, Spaces(s.x));
    SpacesColumn(s, 4);
  }

  lemma TabIsSpaces(s: State)
    requires Valid(s) && s.y <= s.bottom
    ensures Step(s, Tab) == PutSpaces(s, Spaces(s.x))
  {
  }

  lemma SpacesFirst(s: State, n: nat)
    requires Valid(s) && s.y <= s.bottom
    ensures PutSpaces(s, 0) == s && s.bottom < |s.rows|
    ensures n > 0 ==> PutChar(s, ' ').y <= PutChar(s, ' ').bottom == s.bottom
    ensures n > 0 ==> PutSpaces(s, n) == PutSpaces(PutChar(s, ' '), n - 1)
  {
  }

  // ----- cursor movement and deletion -----

  datatype Op =
    | Write(e: Event)
    | Back(n: nat)
    | Forward(n: nat)
    | Up(n: nat)
    | Down(n: nat)
    | MoveTo(x: nat, y: nat)
    | Column(x: nat)
    | DeleteLine
    | DeleteScreen

  function Clamp(v: int, low: int, high: int): int {
    if v < low then low else if v > high then high else v
  }

  /** Cells from the cursor on, in reading order down to row last, are blanked. */
  function Erased(s: State, last: nat): (s': State)
    requires Valid(s) && s.y <= last < |s.rows|
    ensures Valid(s') && s' == s.(rows := s'.rows) && |s'.rows| == |s.rows|
    ensures forall k :: 0 <= k < |s.rows| ==> s'.rows[k] == ErasedRow(s, last, k)
  {
    s.(rows := seq(|s.rows|, k requires 0 <= k < |s.rows| => ErasedRow(s, last, k)))
  }

  function ErasedRow(s: State, last: nat, k: nat): (r: Row)
    requires Valid(s) && k < |s.rows|
    ensures |r| == s.width
  {
    if k == s.y then s.rows[k][..s.x] + BlankRow(s.width - s.x, Blank(s))
    else if s.y < k <= last then BlankRow(s.width, Blank(s))
    else s.rows[k]
  }

  predicate Allowed(s: State, op: Op) {
    match op
    case MoveTo(x, y) => x < s.width && y < |s.rows|
    case Column(x) => x < s.width
    case _ => true
  }

  /** What every operation does to a screen with the cursor in the region. */
  function Apply(s: State, op: Op): (s': State)
    requires InRegion(s) && Allowed(s, op)
    ensures Valid(s')
  {
    match op
    case Write(e) => Step(s, e)
    case Back(n) => s.(x := Clamp(s.x - n, 0, s.x))
    case Forward(n) => s.(x := Clamp(s.x + n, s.x, s.width - 1))
    case Up(n) => s.(y := Clamp(s.y - n, s.top, s.y))
    case Down(n) => s.(y := Clamp(s.y + n, s.y, s.bottom))
    case MoveTo(x, y) => s.(x := x, y := Clamp(y, s.top, s.bottom))
    case Column(x) => s.(x := x)
    case DeleteLine => Erased(s, s.y)
    case DeleteScreen => Erased(s, |s.rows| - 1)
  }

  /** All operations keep the cursor in the region; all but the deletion of the
      whole screen leave the rows outside it untouched. */
  lemma OpKeepsRegion(s: State, op: Op)
    requires InRegion(s) && Allowed(s, op)
    ensures InRegion(Apply(s, op))
    ensures !op.DeleteScreen? ==> Confined(s, Apply(s, op))
  {
    if op.Write? {
      StepConfined(s, op.e);
    }
    hide Step;
  }

  // ----- the console, changed in place -----

  class Screen {
    const width: nat
    const height: nat
    const rows: array<Row>
    var curX: nat
    var curY: nat
    var text: Color
    var background: Color
    var marginTop: nat
    var marginBottom: nat

    ghost function St(): State
      reads this, rows
    {
      State(rows[..], width, curX, curY, text, background, marginTop, marginBottom)
    }

    ghost predicate Ok()
      reads this, rows
    {
      Valid(St()) && height == rows.Length
    }

    constructor (width: nat, height: nat)
      requires width > 0 && height > 0
      ensures Ok() && fresh(rows) && St() == Cleared(width, height)
    {
      this.width, this.height := width, height;
      var row := BlankRow(width, Cell(' ', LIGHT_GREY, BLACK));
      rows := new Row[height](_ => row);
      curX, curY := 0, 0;
      text, background := LIGHT_GREY, BLACK;
      marginTop, marginBottom := 0, height - 1;
    }

    /** Blank the screen; the margins stay as they are. */
    method Init()
      requires Ok()
      modifies this, rows
      ensures Ok()
      ensures St() == Cleared(width, height).(top := old(marginTop), bottom := old(marginBottom))
    {
      var row := BlankRow(width, Cell(' ', LIGHT_GREY, BLACK));
      for y := 0 to height
        invariant marginTop == old(marginTop) && marginBottom == old(marginBottom)
        invariant forall k :: 0 <= k < y ==> rows[k] == row
      {
        rows[y] := row;
      }
      curX, curY := 0, 0;
      text, background := LIGHT_GREY, BLACK;
      assert rows[..] == Cleared(width, height).rows;
    }

    method Scroll()
      requires Ok()
      modifies rows
      ensures Ok() && St() == ScrollUp(old(St()))
    {
      ghost var s := St();
      var y := marginTop;
      while y < marginBottom
        invariant marginTop <= y && (y <= marginBottom || y == marginTop)
        invariant forall k :: marginTop <= k < y ==> rows[k] == ScrolledRow(s, k)
        invariant forall k :: 0 <= k < height && !(marginTop <= k < y) ==> rows[k] == s.rows[k]
      {
        rows[y] := rows[y + 1];
        y := y + 1;
      }
      rows[marginBottom] := BlankRow(width, Cell(' ', text, background));
      assert rows[..] == ScrollUp(s).rows;
    }

    method StartLine()
      requires Ok() && (curY == marginBottom || curY + 1 < height)
      modifies this`curX, this`curY, rows
      ensures Ok() && St() == NewLine(old(St()))
    {
      curX := 0;
      if curY == marginBottom {
        Scroll();
      } else {
        curY := curY + 1;
      }
    }

    method Put(c: char)
      requires Ok() && (curY == marginBottom || curY + 1 < height)
      modifies this`curX, this`curY, rows
      ensures Ok() && St() == PutChar(old(St()), c)
    {
      ghost var s := St();
      rows[curY] := rows[curY][curX := Cell(c, text, background)];
      assert rows[..] == s.rows[s.y := s.rows[s.y][s.x := Cell(c, s.fg, s.bg)]];
      if curX == width - 1 {
        StartLine();
      } else {
        curX := curX + 1;
      }
    }

    method PutTab()
      requires Ok() && curY <= marginBottom
      modifies this`curX, this`curY, rows
      ensures Ok() && St() == Step(old(St()), Tab)
    {
      ghost var s := St();
      var xMod8 := curX % 8;
      var spaces := 8;
      if xMod8 != 0 {
        spaces := 8 - xMod8;
      }
      TabIsSpaces(s);
      assert spaces == Spaces(s.x);
      hide PutChar, Valid, PutSpaces, Step, Spaces;
      ghost var t := s;
      for k := 0 to spaces
        invariant Ok() && St() == t && t.y <= t.bottom
        invariant PutSpaces(t, spaces - k) == PutSpaces(s, spaces)
      {
        SpacesFirst(t, spaces - k);
        Put(' ');
        t := PutChar(t, ' ');
      }
      SpacesFirst(t, 0);
    }

    method CursorBack(n: nat)
      requires Ok()
      modifies this`curX
      ensures Ok() && (InRegion(old(St())) ==> St() == Apply(old(St()), Back(n)))
    {
      curX := if curX > n then curX - n else 0;
    }

    method CursorForward(n: nat)
      requires Ok()
      modifies this`curX
      ensures Ok() && (InRegion(old(St())) ==> St() == Apply(old(St()), Forward(n)))
    {
      curX := if curX + n < width - 1 then curX + n else width - 1;
    }

    method CursorUp(n: nat)
      requires Ok()
      modifies this`curY
      ensures Ok() && curY >= marginTop
      ensures InRegion(old(St())) ==> St() == Apply(old(St()), Up(n))
    {
      curY := if curY - n > marginTop then curY - n else marginTop;
    }

    method CursorDown(n: nat)
      requires Ok()
      modifies this`curY
      ensures Ok() && curY <= marginBottom
      ensures InRegion(old(St())) ==> St() == Apply(old(St()), Down(n))
    {
      curY := if curY + n < marginBottom then curY + n else marginBottom;
    }

    /** With proper margins the cursor is in the region afterwards, wherever it
        was before. */
    method SetPosition(x: nat, y: nat)
      requires Ok() && x < width && y < height
      modifies this`curX, this`curY
      ensures Ok() && curX == x && (marginTop <= marginBottom ==> InRegion(St()))
      ensures InRegion(old(St())) ==> St() == Apply(old(St()), MoveTo(x, y))
    {
      curX := x;
      if y < marginTop {
        curY := marginTop;
      } else if y > marginBottom {
        curY := marginBottom;
      } else {
        curY := y;
      }
    }

    method SetScrollingMargins(top: nat, bottom: nat)
      requires Ok() && top < height && bottom < height
      modifies this`marginTop, this`marginBottom
      ensures Ok() && St() == old(St()).(top := top, bottom := bottom)
    {
      marginTop, marginBottom := top, bottom;
    }

    method DeleteLineFromCursor()
      requires Ok()
      modifies rows
      ensures Ok() && St() == Erased(old(St()), curY)
    {
      ghost var s := St();
      var blank := Cell(' ', text, background);
      var x := curX;
      while x < width
        invariant curX <= x <= width
        invariant |rows[curY]| == width
        invariant forall k :: 0 <= k < width ==> rows[curY][k] == if curX <= k < x then blank else s.rows[curY][k]
        invariant forall k :: 0 <= k < height && k != curY ==> rows[k] == s.rows[k]
      {
        rows[curY] := rows[curY][x := blank];
        x := x + 1;
      }
      assert rows[curY] == ErasedRow(s, curY, curY);
      assert rows[..] == Erased(s, curY).rows;
    }

    method DeleteScreenFromCursor()
      requires Ok()
      modifies rows
      ensures Ok() && St() == Erased(old(St()), height - 1)
    {
      ghost var s := St();
      var blank := Cell(' ', text, background);
      DeleteLineFromCursor();
      var y := curY + 1;
      while y < height
        invariant curY < y <= height && Ok()
        invariant forall k :: 0 <= k < height ==> rows[k] == ErasedRow(s, y - 1, k)
      {
        var x := 0;
        while x < width
          invariant x <= width && |rows[y]| == width
          invariant forall k :: 0 <= k < x ==> rows[y][k] == blank
          invariant forall k :: 0 <= k < height && k != y ==> rows[k] == ErasedRow(s, y - 1, k)
        {
          rows[y] := rows[y][x := blank];
          x := x + 1;
        }
        assert rows[y] == ErasedRow(s, y, y);
        y := y + 1;
      }
      assert rows[..] == Erased(s, height - 1).rows;
    }
  }
}
