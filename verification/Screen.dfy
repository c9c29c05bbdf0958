// One dedicated 80x25 text screen: what a single terminal would be if it had the
// display to itself. A page is 4096 bytes, character and attribute alternating.

module Screen {
  import opened Memory
  import opened Layout

  const ROWS := 25
  const PAGE := 4096
  const ATTRIB: Byte := 7
  const RETURN: Byte := 13

  datatype Screen = Screen(page: seq<Byte>, x: int, y: int) {
    predicate Ok() {
      |page| == PAGE && 0 <= x < COLS && 0 <= y < ROWS
    }

    /** Cursor position counted in cells from the top left corner. */
    function Pos(): (p: int)
      ensures Ok() ==> 0 <= p < COLS * ROWS
    {
      COLS * y + x
    }

    /** The character shown in cell `p`. */
    function Cell(p: nat): Byte
      requires Ok() && p < COLS * ROWS
    {
      page[2 * p]
    }

    /** The character shown in row `i`, column `j`. */
    function Char(i: nat, j: nat): Byte
      requires Ok() && i < ROWS && j < COLS
    {
      Cell(COLS * i + j)
    }
  }

  predicate Breaks(c: Byte) {
    c == NEWLINE || c == RETURN
  }

  /** Every row up by one, the bottom row's characters blanked; its attributes stay. */
  function Scroll(page: seq<Byte>): (r: seq<Byte>)
    requires |page| == PAGE
    ensures |r| == PAGE
  {
    seq(PAGE, i requires 0 <= i < PAGE =>
      if i < 3840 then page[i + 160] else if i < 4000 && i % 2 == 0 then SPACE else page[i])
  }

  /** A cursor that left the bottom row comes back after a scroll. */
  function Settle(page: seq<Byte>, x: int, y: int): (r: Screen)
    requires |page| == PAGE && 0 <= x < COLS && 0 <= y <= ROWS
    ensures r.Ok()
  {
    if y >= ROWS then Screen(Scroll(page), x, y - 1) else Screen(page, x, y)
  }

  /** The character and its attribute at the cursor. */
  function Drawn(s: Screen, c: Byte): (r: Screen)
    requires s.Ok()
    ensures r.Ok()
  {
    s.(page := s.page[2 * s.Pos() := c][2 * s.Pos() + 1 := ATTRIB])
  }

  function Put(s: Screen, c: Byte): (r: Screen)
    requires s.Ok()
    ensures r.Ok()
  {
    if Breaks(c) then Settle(s.page, 0, s.y + 1)
    else
      var x := (s.x + 1) % COLS;
      Settle(Drawn(s, c).page, x, if x == 0 then s.y + 1 else s.y)
  }

  function PutAll(s: Screen, cs: seq<Byte>): (r: Screen)
    requires s.Ok()
    ensures r.Ok()
  {
    if cs == [] then s else Put(PutAll(s, cs[..|cs| - 1]), cs[|cs| - 1])
  }

  lemma PutAllNext(s: Screen, cs: seq<Byte>, i: nat)
    requires s.Ok() && i < |cs|
    ensures PutAll(s, cs[..i + 1]) == Put(PutAll(s, cs[..i]), cs[i])
  {
    assert cs[..i + 1][..i] == cs[..i];
  }

  function Back(s: Screen): (r: Screen)
    requires s.Ok()
    ensures r.Ok()
  {
    if s.x > 0 then s.(x := s.x - 1)
    else if s.y > 0 then s.(x := COLS - 1, y := s.y - 1)
    else s
  }

  function Erase(s: Screen): (r: Screen)
    requires s.Ok()
    ensures r.Ok()
  {
    Back(Put(Back(s), SPACE))
  }

  function Clear(s: Screen): (r: Screen)
    requires s.Ok()
    ensures r.Ok()
  {
    Screen(seq(PAGE, i requires 0 <= i < PAGE =>
      if i >= 4000 then s.page[i] else if i % 2 == 0 then SPACE else ATTRIB), 0, 0)
  }

  // ---- The unbounded layout: a sheet of 80 columns and as many rows as it takes ----

  /** Where the next character of the stream would go on the sheet that begins as the screen `s`. */
  function Walk(s: Screen, stream: seq<Byte>): (p: Place)
    requires s.Ok()
    ensures p.col < COLS
  {
    if stream == [] then Place(s.y, s.x)
    else
      var p := Walk(s, stream[..|stream| - 1]);
      if Breaks(stream[|stream| - 1]) || p.col + 1 == COLS then Place(p.row + 1, 0) else Place(p.row, p.col + 1)
  }

  /** The sheet before anything is written: the rows of the screen, and blank rows below them. */
  function Bare(s: Screen, at: Place): Byte
    requires s.Ok()
  {
    if at.row < ROWS && at.col < COLS then s.Char(at.row, at.col) else SPACE
  }

  /** What the stream leaves at a place of the sheet: the last character put there, if any. */
  function Written(s: Screen, stream: seq<Byte>, at: Place): Byte
    requires s.Ok()
  {
    if stream == [] then Bare(s, at)
    else
      var before, c := stream[..|stream| - 1], stream[|stream| - 1];
      if !Breaks(c) && Walk(s, before) == at then c else Written(s, before, at)
  }

  function Top(s: Screen, stream: seq<Byte>): nat
    requires s.Ok()
  {
    if Walk(s, stream).row < ROWS then 0 else Walk(s, stream).row - (ROWS - 1)
  }

  predicate Blank(s: Screen) {
    s.Ok() && s.x == 0 && s.y == 0 && forall p :: 0 <= p < COLS * ROWS ==> s.Cell(p) == SPACE
  }

  /** A cleared screen is a blank sheet. */
  lemma ClearIsBlank(s: Screen)
    requires s.Ok()
    ensures Blank(Clear(s)) && Walk(Clear(s), []) == Place(0, 0) && forall at :: Bare(Clear(s), at) == SPACE
  {
  }

  lemma {:induction false} NothingBelowCursor(s: Screen, stream: seq<Byte>, at: Place)
    requires s.Ok()
    requires at.row > Walk(s, stream).row || (at.row == Walk(s, stream).row && at.col >= Walk(s, stream).col)
    ensures Written(s, stream, at) == Bare(s, at)
  {
    if stream != [] {
      NothingBelowCursor(s, stream[..|stream| - 1], at);
    }
  }

  /** The screen `now` is the window at the bottom of the sheet that `stream` wrote from `s` on. */
  ghost predicate Shows(s: Screen, now: Screen, stream: seq<Byte>) {
    s.Ok() && now.Ok() && now.x == Walk(s, stream).col && now.y == Walk(s, stream).row - Top(s, stream) &&
    forall i: nat, j: nat :: i < ROWS && j < COLS ==>
      now.Char(i, j) == Written(s, stream, Place(Top(s, stream) + i, j))
  }

  /**
    From any screen on, the 25 rows shown are rows Top..Top+24 of the sheet, with what the screen
    held where nothing was written, and the cursor stays inside.
   */
  lemma {:induction false} ScreenIsWindowOfLayout(s: Screen, stream: seq<Byte>)
    requires s.Ok()
    ensures Shows(s, PutAll(s, stream), stream)
  {
    if stream != [] {
      var before, c := stream[..|stream| - 1], stream[|stream| - 1];
      ScreenIsWindowOfLayout(s, before);
      PutMovesWindow(s, PutAll(s, before), before, c);
      assert stream == before + [c];
    }
  }

  lemma PutMovesWindow(s: Screen, now: Screen, before: seq<Byte>, c: Byte)
    requires Shows(s, now, before)
    ensures Shows(s, Put(now, c), before + [c])
  {
    var stream, r := before + [c], Put(now, c);
    assert stream[..|stream| - 1] == before;
    forall i: nat, j: nat | i < ROWS && j < COLS
      ensures r.Char(i, j) == Written(s, stream, Place(Top(s, stream) + i, j))
    {
      PutMovesChar(s, now, before, c, i, j);
    }
  }

  /** The character `c` takes the cursor out of the bottom row. */
  predicate Scrolls(s: Screen, c: Byte) {
    s.y == ROWS - 1 && (Breaks(c) || s.x == COLS - 1)
  }

  lemma PutAt(s: Screen, c: Byte, i: nat, j: nat)
    requires s.Ok() && i < ROWS && j < COLS
    ensures var up := if Scrolls(s, c) then 1 else 0;
      Put(s, c).Char(i, j) ==
      if i + up == ROWS then SPACE
      else if !Breaks(c) && i + up == s.y && j == s.x then c
      else s.Char(i + up, j)
  {
  }

  /** The same counted in cells: what is shown after a byte, and where the cursor is. */
  lemma PutCell(s: Screen, c: Byte, p: nat)
    requires s.Ok() && p < 2000
    ensures var line := c == 10 || c == 13;
      var up := if s.Pos() == 1999 || (line && s.Pos() >= 1920) then 80 else 0;
      Put(s, c).Pos() == (if line then s.Pos() - s.x + 80 else s.Pos() + 1) - up &&
      Put(s, c).Cell(p) ==
        if p + up >= 2000 then 32 else if !line && p + up == s.Pos() then c else s.Cell(p + up)
  {
    PutAt(s, c, p / 80, p % 80);
  }

  lemma PutMovesChar(s: Screen, now: Screen, before: seq<Byte>, c: Byte, i: nat, j: nat)
    requires Shows(s, now, before) && i < ROWS && j < COLS
    ensures Put(now, c).Char(i, j) == Written(s, before + [c], Place(Top(s, before + [c]) + i, j))
  {
    var stream := before + [c];
    assert stream[..|stream| - 1] == before;
    var up, at := if Scrolls(now, c) then 1 else 0, Place(Top(s, stream) + i, j);
    assert Top(s, stream) == Top(s, before) + up;
    PutAt(now, c, i, j);
    if i + up == ROWS {
      NothingBelowCursor(s, before, at);
    } else {
      assert now.Char(i + up, j) == Written(s, before, at);
    }
  }

  // ---- Keyboard echo: the cells just before the cursor ----

  const LINE_MAX := 127

  /** The cells just before the cursor show exactly `line`. */
  ghost predicate Echo(s: Screen, line: seq<Byte>) {
    s.Ok() && |line| <= s.Pos() && forall k :: 0 <= k < |line| ==> s.Cell(s.Pos() - |line| + k) == line[k]
  }

  lemma PutKeepsEcho(s: Screen, line: seq<Byte>, c: Byte)
    requires Echo(s, line) && |line| <= LINE_MAX && !Breaks(c)
    ensures Echo(Put(s, c), line + [c])
  {
    var r := Put(s, c);
    var shift := if s.Pos() == COLS * ROWS - 1 then COLS else 0;
    assert r.Pos() == s.Pos() + 1 - shift;
    forall k | 0 <= k < |line| + 1 ensures r.Cell(r.Pos() - |line| - 1 + k) == (line + [c])[k] {
      if k < |line| {
        assert s.Cell(s.Pos() - |line| + k) == line[k];
      }
    }
  }

  lemma EraseKeepsEcho(s: Screen, line: seq<Byte>)
    requires Echo(s, line) && line != []
    ensures Echo(Erase(s), line[..|line| - 1])
    ensures Erase(s).Pos() == s.Pos() - 1 && Erase(s).Cell(s.Pos() - 1) == SPACE
  {
    var r, short := Erase(s), line[..|line| - 1];
    assert r.Pos() == s.Pos() - 1;
    forall k | 0 <= k < |short| ensures r.Cell(r.Pos() - |short| + k) == short[k] {
      assert s.Cell(s.Pos() - |line| + k) == line[k];
    }
  }

  /** What erasing shows: a space in the cell under the new cursor, one back; every other cell as it was. */
  lemma EraseShows(s: Screen, p: nat)
    requires s.Ok() && p < 2000
    ensures var q := if s.Pos() > 0 then s.Pos() - 1 else 0;
      Erase(s).Pos() == q && Erase(s).Cell(p) == if p == q then 32 else s.Cell(p)
  {
  }

  /** Nothing is shown from the cursor on. */
  ghost predicate BlankAhead(s: Screen) {
    s.Ok() && forall p :: s.Pos() <= p < 2000 ==> s.Cell(p) == 32
  }

  lemma PutKeepsBlankAhead(s: Screen, c: Byte)
    requires BlankAhead(s)
    ensures BlankAhead(Put(s, c))
  {
    var r := Put(s, c);
    forall p | r.Pos() <= p < 2000 ensures r.Cell(p) == 32 {
      PutAt(s, c, p / COLS, p % COLS);
    }
  }

  lemma {:induction false} PutAllKeepsBlankAhead(s: Screen, cs: seq<Byte>)
    requires BlankAhead(s)
    ensures BlankAhead(PutAll(s, cs))
  {
    if cs != [] {
      PutAllKeepsBlankAhead(s, cs[..|cs| - 1]);
      PutKeepsBlankAhead(PutAll(s, cs[..|cs| - 1]), cs[|cs| - 1]);
    }
  }

  lemma EraseKeepsBlankAhead(s: Screen)
    requires BlankAhead(s)
    ensures BlankAhead(Erase(s))
  {
    forall p | Erase(s).Pos() <= p < 2000 ensures Erase(s).Cell(p) == 32 {
      EraseShows(s, p);
    }
  }

  /** Every cell has the attribute of grey on black. */
  ghost predicate Grey(s: Screen) {
    s.Ok() && forall p :: 0 <= p < 2000 ==> s.page[2 * p + 1] == 7
  }

  lemma PutKeepsGrey(s: Screen, c: Byte)
    requires Grey(s)
    ensures Grey(Put(s, c)) && Grey(Clear(s)) && Grey(Back(s))
  {
    var r := Put(s, c);
    forall p | 0 <= p < 2000 ensures r.page[2 * p + 1] == 7 {
      assert p + COLS < 2000 ==> s.page[2 * (p + COLS) + 1] == 7;
      assert s.page[2 * p + 1] == 7;
    }
  }

  lemma {:induction false} PutAllKeepsGrey(s: Screen, cs: seq<Byte>)
    requires Grey(s)
    ensures Grey(PutAll(s, cs))
  {
    if cs != [] {
      PutAllKeepsGrey(s, cs[..|cs| - 1]);
      PutKeepsGrey(PutAll(s, cs[..|cs| - 1]), cs[|cs| - 1]);
    }
  }

  /** The cells of a screen that shows only `line`, from the top left corner on, with the cursor after it. */
  ghost predicate ShowsOnly(s: Screen, line: seq<Byte>) {
    s.Ok() && s.Pos() == |line| && forall p :: 0 <= p < 2000 ==> s.Cell(p) == if p < |line| then line[p] else 32
  }

  lemma PutShows(s: Screen, line: seq<Byte>, c: Byte)
    requires ShowsOnly(s, line) && |line| < LINE_MAX && !Breaks(c)
    ensures ShowsOnly(Put(s, c), line + [c])
  {
    var r := Put(s, c);
    assert r.Pos() == |line| + 1;
    forall p | 0 <= p < 2000 ensures r.Cell(p) == if p < |line| + 1 then (line + [c])[p] else 32 {
      PutAt(s, c, p / COLS, p % COLS);
    }
  }

  lemma {:induction false} RedrawShows(s: Screen, line: seq<Byte>)
    requires s.Ok() && |line| <= LINE_MAX && forall k :: 0 <= k < |line| ==> !Breaks(line[k])
    ensures ShowsOnly(PutAll(Clear(s), line), line)
  {
    if line == [] {
      ClearIsBlank(s);
    } else {
      var short := line[..|line| - 1];
      RedrawShows(s, short);
      PutShows(PutAll(Clear(s), short), short, line[|line| - 1]);
      assert line == short + [line[|line| - 1]];
    }
  }

  /** Ctrl-L: a cleared screen on which the line is typed again shows the line at the top. */
  lemma {:induction false} RedrawEchoes(s: Screen, line: seq<Byte>)
    requires s.Ok() && |line| <= LINE_MAX && forall k :: 0 <= k < |line| ==> !Breaks(line[k])
    ensures Echo(PutAll(Clear(s), line), line)
  {
    if line != [] {
      var short := line[..|line| - 1];
      RedrawEchoes(s, short);
      PutKeepsEcho(PutAll(Clear(s), short), short, line[|line| - 1]);
      assert line == short + [line[|line| - 1]];
    }
  }
}
