// add_frames of fish/fish.c: two text files are read side by side, one byte at a time, and
// every cell where either picture has a character becomes a blinking character.

module Frames {
  import opened Memory
  import opened Layout
  import opened Blink

  const START: Byte := 48
  const OFFSET := 40
  const PERIOD: Word := 15

  // ---- The two pictures as grids ----

  /** The lines between newlines; one more line than newlines. */
  function Split(f: seq<Byte>): (r: seq<seq<Byte>>)
    ensures r != []
  {
    if f == [] then [[]]
    else
      var rest := Split(f[1..]);
      if f[0] == NEWLINE then [[]] + rest else [[f[0]] + rest[0]] + rest[1..]
  }

  /** The character of a picture at a cell; a shorter line or picture is padded with spaces. */
  function At(picture: seq<seq<Byte>>, row: nat, col: nat): Byte {
    if row < |picture| && col < |picture[row]| then picture[row][col] else SPACE
  }

  /** The add for a cell, which may be none; the location is a 16-bit field. */
  function CellOps(on: Byte, off: Byte, row: nat, col: nat): seq<Op> {
    if on == SPACE && off == SPACE then []
    else [Add(Blink((row * COLS + col + OFFSET) % 0x1_0000, on, off, PERIOD, PERIOD, 0, 0))]
  }

  function Width(picture: seq<seq<Byte>>, row: nat): nat {
    if row < |picture| then |picture[row]| else 0
  }

  function Max(a: nat, b: nat): nat { if a < b then b else a }

  function RowOps(p: seq<seq<Byte>>, q: seq<seq<Byte>>, row: nat, col: nat): seq<Op>
    decreases Max(Width(p, row), Width(q, row)) - col
  {
    if col >= Max(Width(p, row), Width(q, row)) then []
    else CellOps(At(p, row, col), At(q, row, col), row, col) + RowOps(p, q, row, col + 1)
  }

  /** All cells from `row` on, in row-major order. */
  function GridOps(p: seq<seq<Byte>>, q: seq<seq<Byte>>, row: nat): seq<Op>
    decreases Max(|p|, |q|) - row
  {
    if row >= Max(|p|, |q|) then [] else RowOps(p, q, row, 0) + GridOps(p, q, row + 1)
  }

  predicate Before(a: Place, b: Place) {
    a.row < b.row || (a.row == b.row && a.col < b.col)
  }

  /** Either picture has a character there. */
  predicate Inked(p: seq<seq<Byte>>, q: seq<seq<Byte>>, at: Place) {
    At(p, at.row, at.col) != SPACE || At(q, at.row, at.col) != SPACE
  }

  function OpsAt(p: seq<seq<Byte>>, q: seq<seq<Byte>>, at: Place): seq<Op> {
    CellOps(At(p, at.row, at.col), At(q, at.row, at.col), at.row, at.col)
  }

  /** `cells` are the places of `ops`, in strict row-major order. */
  ghost predicate Places(p: seq<seq<Byte>>, q: seq<seq<Byte>>, cells: seq<Place>, ops: seq<Op>) {
    |cells| == |ops| &&
    (forall k :: 0 <= k < |ops| ==> Inked(p, q, cells[k]) && [ops[k]] == OpsAt(p, q, cells[k])) &&
    (forall i, j :: 0 <= i < j < |cells| ==> Before(cells[i], cells[j]))
  }

  lemma PlacesAppend(p: seq<seq<Byte>>, q: seq<seq<Byte>>, a: seq<Place>, s: seq<Op>, b: seq<Place>, t: seq<Op>)
    requires Places(p, q, a, s) && Places(p, q, b, t)
    requires forall i, j :: 0 <= i < |a| && 0 <= j < |b| ==> Before(a[i], b[j])
    ensures Places(p, q, a + b, s + t)
  {
  }

  lemma {:induction false} RowPlaces(p: seq<seq<Byte>>, q: seq<seq<Byte>>, row: nat, col: nat)
      returns (cells: seq<Place>)
    ensures Places(p, q, cells, RowOps(p, q, row, col))
    ensures forall k :: 0 <= k < |cells| ==> cells[k].row == row && cells[k].col >= col
    ensures forall c: nat :: c >= col && Inked(p, q, Place(row, c)) ==> Place(row, c) in cells
    decreases Max(Width(p, row), Width(q, row)) - col
  {
    if col >= Max(Width(p, row), Width(q, row)) {
      cells := [];
    } else {
      var rest := RowPlaces(p, q, row, col + 1);
      var first := if OpsAt(p, q, Place(row, col)) == [] then [] else [Place(row, col)];
      cells := first + rest;
      PlacesAppend(p, q, first, OpsAt(p, q, Place(row, col)), rest, RowOps(p, q, row, col + 1));
      CellThenRest(p, q, row, col, first, rest);
    }
  }

  lemma CellThenRest(p: seq<seq<Byte>>, q: seq<seq<Byte>>, row: nat, col: nat, first: seq<Place>, rest: seq<Place>)
    requires first == if OpsAt(p, q, Place(row, col)) == [] then [] else [Place(row, col)]
    requires forall c: nat :: c >= col + 1 && Inked(p, q, Place(row, c)) ==> Place(row, c) in rest
    ensures forall c: nat :: c >= col && Inked(p, q, Place(row, c)) ==> Place(row, c) in first + rest
  {
  }

  /** One add per cell where either picture has a character, none elsewhere, in row-major order. */
  lemma {:induction false} GridPlaces(p: seq<seq<Byte>>, q: seq<seq<Byte>>, row: nat) returns (cells: seq<Place>)
    ensures Places(p, q, cells, GridOps(p, q, row))
    ensures forall at: Place :: at in cells <==> at.row >= row && Inked(p, q, at)
    decreases Max(|p|, |q|) - row
  {
    if row >= Max(|p|, |q|) {
      cells := [];
    } else {
      var first := RowPlaces(p, q, row, 0);
      var rest := GridPlaces(p, q, row + 1);
      cells := first + rest;
      RowThenRest(p, q, row, first, rest);
      PlacesAppend(p, q, first, RowOps(p, q, row, 0), rest, GridOps(p, q, row + 1));
    }
  }

  /** The cells of a row and those of the rows below it. */
  lemma RowThenRest(p: seq<seq<Byte>>, q: seq<seq<Byte>>, row: nat, first: seq<Place>, rest: seq<Place>)
    requires forall k :: 0 <= k < |first| ==> first[k].row == row && Inked(p, q, first[k])
    requires forall c: nat :: Inked(p, q, Place(row, c)) ==> Place(row, c) in first
    requires forall at: Place :: at in rest <==> at.row >= row + 1 && Inked(p, q, at)
    ensures forall at: Place :: at in first + rest <==> at.row >= row && Inked(p, q, at)
    ensures forall i, j :: 0 <= i < |first| && 0 <= j < |rest| ==> Before(first[i], rest[j])
  {
    forall at: Place ensures at in first + rest <==> at.row >= row && Inked(p, q, at) {
      if at.row == row && Inked(p, q, at) {
        assert at == Place(row, at.col);
      }
    }
    assert forall j :: 0 <= j < |rest| ==> rest[j] in rest;
  }

  /** The picture fits in the right half of the screen, where it is drawn; lines below it are empty. */
  ghost predicate FitsScreen(p: seq<seq<Byte>>) {
    forall r :: 0 <= r < |p| ==> |p[r]| <= if r < 25 then COLS - OFFSET else 0
  }

  lemma {:induction false} RowCount(p: seq<seq<Byte>>, q: seq<seq<Byte>>, row: nat, col: nat, width: nat)
    requires Max(Width(p, row), Width(q, row)) <= width
    ensures |RowOps(p, q, row, col)| <= if col < width then width - col else 0
    decreases Max(Width(p, row), Width(q, row)) - col
  {
    if col < Max(Width(p, row), Width(q, row)) {
      RowCount(p, q, row, col + 1, width);
    }
  }

  lemma {:induction false} GridCount(p: seq<seq<Byte>>, q: seq<seq<Byte>>, row: nat)
    requires FitsScreen(p) && FitsScreen(q)
    ensures |GridOps(p, q, row)| <= if row < 25 then (COLS - OFFSET) * (25 - row) else 0
    decreases Max(|p|, |q|) - row
  {
    if row < Max(|p|, |q|) {
      RowCount(p, q, row, 0, if row < 25 then COLS - OFFSET else 0);
      GridCount(p, q, row + 1);
    }
  }

  /** The cell of the screen that a place of the pictures is drawn in. */
  function Location(at: Place): nat {
    at.row * COLS + at.col + OFFSET
  }

  /** Pictures that fit the screen: their adds are valid and fall on different cells. */
  lemma PicturesFit(p: seq<seq<Byte>>, q: seq<seq<Byte>>, cells: seq<Place>, f: Fish)
    requires FitsScreen(p) && FitsScreen(q) && f.list == [] && Places(p, q, cells, GridOps(p, q, 0))
    ensures AllFit(f, GridOps(p, q, 0)) && NewPlaces(f.list, GridOps(p, q, 0))
    ensures forall k :: 0 <= k < |cells| ==> GridOps(p, q, 0)[k].b.location == Location(cells[k]) < SLOTS
  {
    var ops := GridOps(p, q, 0);
    GridCount(p, q, 0);
    forall k | 0 <= k < |ops| ensures ops[k].Add? && 0 < ops[k].b.location == Location(cells[k]) < SLOTS {
      var at := cells[k];
      assert [ops[k]][0] == OpsAt(p, q, at)[0];
      assert at.row < 25 && at.col < COLS - OFFSET;
    }
    forall k, l | 0 <= k < l < |ops| ensures ops[k].b.location != ops[l].b.location {
      assert Before(cells[k], cells[l]) && cells[k].col < COLS - OFFSET && cells[l].col < COLS - OFFSET;
    }
  }

  /** They all go onto an empty list, last cell first. */
  lemma PicturesListed(p: seq<seq<Byte>>, q: seq<seq<Byte>>, f: Fish)
    requires FitsScreen(p) && FitsScreen(q) && f.Ok() && f.list == []
    ensures var ops := GridOps(p, q, 0);
      AllFit(f, ops) && Run(f, ops).list == Added(ops)
  {
    var cells := GridPlaces(p, q, 0);
    PicturesFit(p, q, cells, f);
    AddsPrepend(f, GridOps(p, q, 0));
  }

  /** The screen after the adds for both pictures and n ticks. */
  ghost function ScreenAfter(p: seq<seq<Byte>>, q: seq<seq<Byte>>, f: Fish, n: nat): (screen: seq<Byte>)
    requires f.Ok() && AllFit(f, GridOps(p, q, 0))
    ensures |screen| == SLOTS
  {
    Run(Run(f, GridOps(p, q, 0)), TaskletRun(n)).screen
  }

  lemma InkedCellShown(p: seq<seq<Byte>>, q: seq<seq<Byte>>, cells: seq<Place>, f: Fish, n: nat, k: nat)
    requires FitsScreen(p) && FitsScreen(q) && f.Ok() && f.list == []
    requires Places(p, q, cells, GridOps(p, q, 0)) && k < |cells|
    ensures AllFit(f, GridOps(p, q, 0)) && Location(cells[k]) < SLOTS
    ensures ScreenAfter(p, q, f, n)[Location(cells[k])] ==
            At(if n % (PERIOD + PERIOD) < PERIOD then p else q, cells[k].row, cells[k].col)
  {
    PicturesFit(p, q, cells, f);
    var op := GridOps(p, q, 0)[k];
    assert [op][0] == OpsAt(p, q, cells[k])[0];
    AddedRecordBlinks(f, GridOps(p, q, 0), n, k);
  }

  lemma OtherCellShown(p: seq<seq<Byte>>, q: seq<seq<Byte>>, cells: seq<Place>, f: Fish, n: nat, c: nat)
    requires FitsScreen(p) && FitsScreen(q) && f.Ok() && f.list == [] && Places(p, q, cells, GridOps(p, q, 0))
    requires c < SLOTS && forall k :: 0 <= k < |cells| ==> Location(cells[k]) != c
    ensures AllFit(f, GridOps(p, q, 0)) && ScreenAfter(p, q, f, n)[c] == f.screen[c]
  {
    PicturesFit(p, q, cells, f);
    OtherCellsStay(f, GridOps(p, q, 0), c);
    OtherCellsStay(Run(f, GridOps(p, q, 0)), TaskletRun(n), c);
  }

  /**
    What is seen after n ticks: the first picture for 15 ticks, then the second for 15 ticks, each
    where either has a character; all other cells keep what they showed.
   */
  lemma PicturesShown(p: seq<seq<Byte>>, q: seq<seq<Byte>>, f: Fish, n: nat)
    requires FitsScreen(p) && FitsScreen(q) && f.Ok() && f.list == []
    ensures AllFit(f, GridOps(p, q, 0))
    ensures forall at: Place :: Inked(p, q, at) ==>
      Location(at) == 80 * at.row + at.col + 40 < 2000 &&
      ScreenAfter(p, q, f, n)[Location(at)] == At(if n % 30 < 15 then p else q, at.row, at.col)
    ensures forall c: nat :: c < SLOTS && (forall at: Place :: Inked(p, q, at) ==> Location(at) != c) ==>
      ScreenAfter(p, q, f, n)[c] == f.screen[c]
  {
    var cells := GridPlaces(p, q, 0);
    PicturesFit(p, q, cells, f);
    forall at: Place | Inked(p, q, at)
      ensures Location(at) < SLOTS
      ensures ScreenAfter(p, q, f, n)[Location(at)] ==
              At(if n % (PERIOD + PERIOD) < PERIOD then p else q, at.row, at.col)
    {
      assert at in cells;
      var k :| 0 <= k < |cells| && cells[k] == at;
      InkedCellShown(p, q, cells, f, n, k);
    }
    forall c: nat | c < SLOTS && (forall at: Place :: Inked(p, q, at) ==> Location(at) != c)
      ensures ScreenAfter(p, q, f, n)[c] == f.screen[c]
    {
      assert forall k :: 0 <= k < |cells| ==> Inked(p, q, cells[k]) && Location(cells[k]) != c;
      OtherCellShown(p, q, cells, f, n, c);
    }
  }

  // ---- Reading one picture ----

  /** How far one file has been read: position, last character, and whether its end was seen. */
  datatype Reader = Reader(pos: nat, c: Byte, eof: bool)

  /** One read of one byte, unless the line of this picture has already ended. */
  function Advance(f: seq<Byte>, r: Reader): (r': Reader)
    requires r.pos <= |f|
    ensures r'.pos <= |f|
  {
    if r.c == NEWLINE then r
    else if r.pos == |f| then r.(c := NEWLINE, eof := true)
    else r.(pos := r.pos + 1, c := f[r.pos])
  }

  /** The lines not begun yet are those of `p` from `row` on. */
  ghost predicate AtRow(f: seq<Byte>, r: Reader, p: seq<seq<Byte>>, row: nat) {
    r.pos <= |f| && if r.eof then row >= |p| else row < |p| && Split(f[r.pos..]) == p[row..]
  }

  /** Before column `col` of row `row`: `c` is a newline once the row of this picture has ended. */
  ghost predicate InRow(f: seq<Byte>, r: Reader, p: seq<seq<Byte>>, row: nat, col: nat) {
    r.pos <= |f| &&
    if r.c == NEWLINE then col >= Width(p, row) && AtRow(f, r, p, row + 1)
    else !r.eof && row < |p| && col <= |p[row]| && Split(f[r.pos..]) == [p[row][col..]] + p[row + 1..]
  }

  /** What is left to read, counting the end of file. */
  function Left(f: seq<Byte>, r: Reader): nat
    requires r.pos <= |f|
  {
    |f| - r.pos + if r.eof then 0 else 1
  }

  /** How one more byte moves through the row. */
  lemma SplitAdvances(f: seq<Byte>, pos: nat, p: seq<seq<Byte>>, row: nat, col: nat)
    requires pos <= |f| && row < |p| && col <= |p[row]|
    requires Split(f[pos..]) == [p[row][col..]] + p[row + 1..]
    ensures pos == |f| ==> col == |p[row]| && row + 1 == |p|
    ensures pos < |f| && f[pos] == NEWLINE ==> col == |p[row]| && row + 1 < |p| && Split(f[pos + 1..]) == p[row + 1..]
    ensures pos < |f| && f[pos] != NEWLINE ==>
      col < |p[row]| && f[pos] == p[row][col] && Split(f[pos + 1..]) == [p[row][col + 1..]] + p[row + 1..]
  {
    var line, rest := p[row][col..], p[row + 1..];
    assert Split(f[pos..])[0] == line && Split(f[pos..])[1..] == rest;
    if pos < |f| {
      var tail := Split(f[pos + 1..]);
      assert f[pos..][0] == f[pos] && f[pos..][1..] == f[pos + 1..];
      if f[pos] == NEWLINE {
        assert Split(f[pos..])[0] == [] && Split(f[pos..])[1..] == tail;
      } else {
        assert Split(f[pos..])[0] == [f[pos]] + tail[0] && Split(f[pos..])[1..] == tail[1..];
        assert line[0] == f[pos] && line[1..] == tail[0] && line[1..] == p[row][col + 1..];
        assert tail == [tail[0]] + tail[1..];
      }
    }
  }

  /** After the reads for a column the reader holds its character, or a newline past the end of the row. */
  lemma AdvanceReads(f: seq<Byte>, r: Reader, p: seq<seq<Byte>>, row: nat, col: nat)
    requires InRow(f, r, p, row, col)
    ensures var r' := Advance(f, r);
      At(p, row, col) == (if r'.c == NEWLINE then SPACE else r'.c) &&
      (r'.c != NEWLINE <==> col < Width(p, row)) && InRow(f, r', p, row, col + 1) &&
      (if r.c == NEWLINE then r' == r else Left(f, r') < Left(f, r))
  {
    if r.c != NEWLINE {
      SplitAdvances(f, r.pos, p, row, col);
    }
  }

  /** The reader at the start of a row. */
  function Begin(r: Reader): Reader {
    r.(c := if r.eof then NEWLINE else START)
  }

  lemma BeginsRow(f: seq<Byte>, r: Reader, p: seq<seq<Byte>>, row: nat)
    requires AtRow(f, r, p, row)
    ensures InRow(f, Begin(r), p, row, 0)
  {
    if !r.eof {
      assert p[row..] == [p[row][0..]] + p[row + 1..];
    }
  }

  // ---- add_frames ----

  /** An open file as the program sees it: each read of one byte returns the next one, or 0 at the end. */
  class InputFile {
    const data: seq<Byte>
    var pos: nat

    constructor (data: seq<Byte>)
      ensures this.data == data && pos == 0
    {
      this.data, pos := data, 0;
    }

    method ReadByte() returns (n: int, c: Byte)
      requires pos <= |data|
      modifies this
      ensures n == if old(pos) < |data| then 1 else 0
      ensures pos == old(pos) + n && (n == 1 ==> c == data[old(pos)])
    {
      if pos < |data| {
        n, c, pos := 1, data[pos], pos + 1;
      } else {
        n, c := 0, 0;
      }
    }

    /** The read at the top of the inner loop, skipped once the row of this picture has ended. */
    method Next(c: Byte, eof: bool) returns (c': Byte, eof': bool)
      requires pos <= |data|
      modifies this
      ensures Reader(pos, c', eof') == Advance(data, Reader(old(pos), c, eof))
    {
      c', eof' := c, eof;
      if c != NEWLINE {
        var n, b := ReadByte();
        if n == 0 {
          c', eof' := NEWLINE, true;
        } else {
          c' := b;
        }
      }
    }
  }

  /** The reader has used up something of its row, if there was anything to use up. */
  ghost predicate Used(f: seq<Byte>, r: Reader, r': Reader) {
    r.pos <= |f| && r'.pos <= |f| && if r.c == NEWLINE then r' == r else Left(f, r') < Left(f, r)
  }

  /** The reader has come to column `col` of a row that it began as `start`. */
  ghost predicate Following(f: seq<Byte>, start: Reader, r: Reader, p: seq<seq<Byte>>, row: nat, col: nat) {
    InRow(f, r, p, row, col) && (Used(f, start, r) || (r == start && col == 0))
  }

  /** The reader has left a row that it began as `start`. */
  ghost predicate Finished(f: seq<Byte>, start: Reader, r: Reader, p: seq<seq<Byte>>, row: nat) {
    AtRow(f, r, p, row + 1) && Used(f, start, r)
  }

  /** One more read. */
  lemma ReadOn(f: seq<Byte>, start: Reader, r: Reader, p: seq<seq<Byte>>, row: nat, col: nat)
    requires Following(f, start, r, p, row, col)
    ensures Following(f, start, Advance(f, r), p, row, col + 1) && Holds(p, row, col, Advance(f, r).c)
    ensures Advance(f, r).c == NEWLINE ==> Finished(f, start, Advance(f, r), p, row)
    ensures Left(f, Advance(f, r)) <= Left(f, r) && (r.c != NEWLINE ==> Left(f, Advance(f, r)) < Left(f, r))
    ensures r.c == NEWLINE ==> Advance(f, r).c == NEWLINE
  {
    AdvanceReads(f, r, p, row, col);
  }

  /** `c` is the character of the picture in the cell, or a newline past the end of its row. */
  predicate Holds(p: seq<seq<Byte>>, row: nat, col: nat, c: Byte) {
    At(p, row, col) == (if c == NEWLINE then SPACE else c) && (c != NEWLINE <==> col < Width(p, row))
  }

  /** `ops` are the calls for the row before column `col`. */
  ghost predicate Issued(p: seq<seq<Byte>>, q: seq<seq<Byte>>, row: nat, col: nat, ops: seq<Op>) {
    RowOps(p, q, row, 0) == ops + RowOps(p, q, row, col)
  }

  lemma RowOpsStep(p: seq<seq<Byte>>, q: seq<seq<Byte>>, row: nat, col: nat, c0: Byte, c1: Byte, ops: seq<Op>)
    requires Holds(p, row, col, c0) && Holds(q, row, col, c1) && Issued(p, q, row, col, ops)
    ensures c0 == NEWLINE && c1 == NEWLINE ==> ops == RowOps(p, q, row, 0)
    ensures c0 != NEWLINE || c1 != NEWLINE ==>
      var call := CellOps(if c0 == NEWLINE then SPACE else c0, if c1 == NEWLINE then SPACE else c1, row, col);
      Issued(p, q, row, col + 1, ops + call)
  {
    if c0 != NEWLINE || c1 != NEWLINE {
      var call := CellOps(if c0 == NEWLINE then SPACE else c0, if c1 == NEWLINE then SPACE else c1, row, col);
      Paid(RowOps(p, q, row, 0), ops, call, RowOps(p, q, row, col), RowOps(p, q, row, col + 1));
    }
  }

  /** The call issued for one cell, if any. */
  method CellCall(c0: Byte, c1: Byte, row: nat, col: nat) returns (ops: seq<Op>)
    ensures ops == CellOps(if c0 == NEWLINE then SPACE else c0, if c1 == NEWLINE then SPACE else c1, row, col)
  {
    if (c0 != SPACE && c0 != NEWLINE) || (c1 != SPACE && c1 != NEWLINE) {
      return [Add(Blink((row * COLS + col + OFFSET) % 0x1_0000, if c0 == NEWLINE then SPACE else c0,
                        if c1 == NEWLINE then SPACE else c1, PERIOD, PERIOD, 0, 0))];
    }
    return [];
  }

  /** One turn of the inner loop: both reads, and the call for the cell unless both rows have ended. */
  method ColumnCall(f0: InputFile, f1: InputFile, ghost p: seq<seq<Byte>>, ghost q: seq<seq<Byte>>, row: nat, col: nat,
                    c0: Byte, eof0: bool, c1: Byte, eof1: bool, ghost start0: Reader, ghost start1: Reader,
                    ghost ops: seq<Op>)
      returns (d0: Byte, end0: bool, d1: Byte, end1: bool, call: seq<Op>)
    requires f0 != f1
    requires Following(f0.data, start0, Reader(f0.pos, c0, eof0), p, row, col)
    requires Following(f1.data, start1, Reader(f1.pos, c1, eof1), q, row, col)
    requires Issued(p, q, row, col, ops)
    modifies f0, f1
    ensures Following(f0.data, start0, Reader(f0.pos, d0, end0), p, row, col + 1)
    ensures Following(f1.data, start1, Reader(f1.pos, d1, end1), q, row, col + 1)
    ensures if d0 == NEWLINE && d1 == NEWLINE then
        ops == RowOps(p, q, row, 0) && Finished(f0.data, start0, Reader(f0.pos, d0, end0), p, row) &&
        Finished(f1.data, start1, Reader(f1.pos, d1, end1), q, row)
      else
        Issued(p, q, row, col + 1, ops + call) &&
        ToRead(f0.data, f0.pos, end0, f1.data, f1.pos, end1) < old(ToRead(f0.data, f0.pos, eof0, f1.data, f1.pos, eof1))
  {
    ghost var r0, r1 := Reader(f0.pos, c0, eof0), Reader(f1.pos, c1, eof1);
    ReadOn(f0.data, start0, r0, p, row, col);
    ReadOn(f1.data, start1, r1, q, row, col);
    d0, end0 := f0.Next(c0, eof0);
    d1, end1 := f1.Next(c1, eof1);
    RowOpsStep(p, q, row, col, d0, d1, ops);
    call := CellCall(d0, d1, row, col);
  }

  ghost function ToRead(f: seq<Byte>, pos: nat, eof: bool, g: seq<Byte>, pos': nat, eof': bool): int {
    |f| - pos + (if eof then 0 else 1) + |g| - pos' + if eof' then 0 else 1
  }

  /** The inner loop of add_frames: the calls for one row of the pictures `p` and `q`. */
  method RowCalls(f0: InputFile, f1: InputFile, ghost p: seq<seq<Byte>>, ghost q: seq<seq<Byte>>,
                  row: nat, c0: Byte, eof0: bool, c1: Byte, eof1: bool)
      returns (end0: bool, end1: bool, ops: seq<Op>)
    requires f0 != f1
    requires InRow(f0.data, Reader(f0.pos, c0, eof0), p, row, 0) && InRow(f1.data, Reader(f1.pos, c1, eof1), q, row, 0)
    modifies f0, f1
    ensures ops == RowOps(p, q, row, 0)
    ensures Finished(f0.data, Reader(old(f0.pos), c0, eof0), Reader(f0.pos, NEWLINE, end0), p, row)
    ensures Finished(f1.data, Reader(old(f1.pos), c1, eof1), Reader(f1.pos, NEWLINE, end1), q, row)
  {
    var k0, k1, col: nat := c0, c1, 0;
    end0, end1, ops := eof0, eof1, [];
    ghost var start0, start1 := Reader(f0.pos, c0, eof0), Reader(f1.pos, c1, eof1);
    while true
      invariant Following(f0.data, start0, Reader(f0.pos, k0, end0), p, row, col)
      invariant Following(f1.data, start1, Reader(f1.pos, k1, end1), q, row, col)
      invariant Issued(p, q, row, col, ops)
      decreases ToRead(f0.data, f0.pos, end0, f1.data, f1.pos, end1)
    {
      var call;
      k0, end0, k1, end1, call := ColumnCall(f0, f1, p, q, row, col, k0, end0, k1, end1, start0, start1, ops);
      if k0 == NEWLINE && k1 == NEWLINE {
        break;
      }
      ops, col := ops + call, col + 1;
    }
  }

  /** add_frames: the calls of mp1_ioctl, in the order they are made. */
  method FrameCalls(f0: InputFile, f1: InputFile) returns (ops: seq<Op>)
    requires f0 != f1 && f0.pos == 0 && f1.pos == 0
    modifies f0, f1
    ensures ops == GridOps(Split(f0.data), Split(f1.data), 0)
  {
    ghost var p, q := Split(f0.data), Split(f1.data);
    assert f0.data[0..] == f0.data && f1.data[0..] == f1.data;
    var c0, c1, eof0, eof1, row: nat := START, START, false, false, 0;
    ops := [];
    while !eof0 || !eof1
      invariant c0 == (if eof0 then NEWLINE else START) && c1 == (if eof1 then NEWLINE else START)
      invariant AtRow(f0.data, Reader(f0.pos, c0, eof0), p, row) && AtRow(f1.data, Reader(f1.pos, c1, eof1), q, row)
      invariant GridOps(p, q, 0) == ops + GridOps(p, q, row)
      decreases Left(f0.data, Reader(f0.pos, c0, eof0)) + Left(f1.data, Reader(f1.pos, c1, eof1))
    {
      BeginsRow(f0.data, Reader(f0.pos, c0, eof0), p, row);
      BeginsRow(f1.data, Reader(f1.pos, c1, eof1), q, row);
      var calls;
      eof0, eof1, calls := RowCalls(f0, f1, p, q, row, c0, eof0, c1, eof1);
      Paid(GridOps(p, q, 0), ops, calls, GridOps(p, q, row), GridOps(p, q, row + 1));
      ops := ops + calls;
      c0 := if eof0 then NEWLINE else START;
      c1 := if eof1 then NEWLINE else START;
      row := row + 1;
    }
  }
}
