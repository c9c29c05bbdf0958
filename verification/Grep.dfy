// The buffered line scanner of syscalls/ece391grep.c over the string routines of
// syscalls/ece391support.c, reading through the kernel's fileRead.

module Grep {
  import opened Memory
  import opened Layout
  import opened FileSystem

  const BUFSIZE := 1024
  const COLON: Byte := 58

  // ---- What grep is for ----

  /** Index of the first newline, or the length. */
  function LineEnd(f: seq<Byte>): (i: nat)
    ensures i <= |f| && (i < |f| ==> f[i] == NEWLINE) && NEWLINE !in f[..i]
  {
    if f == [] || f[0] == NEWLINE then 0
    else
      var i := 1 + LineEnd(f[1..]);
      assert f[..i] == [f[0]] + f[1..][..i - 1];
      i
  }

  /** The lines of a file; a last line needs no newline. */
  function Lines(f: seq<Byte>): seq<seq<Byte>>
    decreases |f|
  {
    if f == [] then []
    else
      var i := LineEnd(f);
      if i < |f| then [f[..i]] + Lines(f[i + 1..]) else [f]
  }

  /** Lines written one after the other, each with its newline. */
  function Unlines(lines: seq<seq<Byte>>): seq<Byte> {
    if lines == [] then [] else lines[0] + [10] + Unlines(lines[1..])
  }

  lemma UnlinesFirst(line: seq<Byte>, rest: seq<seq<Byte>>)
    ensures Unlines([line] + rest) == line + [10] + Unlines(rest)
  {
    assert ([line] + rest)[1..] == rest;
  }

  lemma NoneInside(line: seq<Byte>, rest: seq<seq<Byte>>)
    requires 10 !in line && forall k :: 0 <= k < |rest| ==> 10 !in rest[k]
    ensures forall k :: 0 <= k < |[line] + rest| ==> 10 !in ([line] + rest)[k]
  {
  }

  /** The file, ended by a newline if it is not empty. */
  function Ended(f: seq<Byte>): seq<Byte> {
    if f == [] || f[|f| - 1] == 10 then f else f + [10]
  }

  lemma EndedAfterLine(f: seq<Byte>, i: nat)
    requires i < |f| && f[i] == 10
    ensures f[..i] + [10] + Ended(f[i + 1..]) == Ended(f)
  {
    var rest := f[i + 1..];
    assert f == f[..i] + [10] + rest;
    if rest != [] {
      assert rest[|rest| - 1] == f[|f| - 1];
      assert f[..i] + [10] + (rest + [10]) == f + [10];
    }
  }

  /** The lines are the file: with a newline after each they give it back. */
  lemma {:induction false} LinesGiveFile(f: seq<Byte>)
    ensures Unlines(Lines(f)) == Ended(f)
    decreases |f|
  {
    if f != [] {
      var i := LineEnd(f);
      if i < |f| {
        LinesGiveFile(f[i + 1..]);
        LinesAre(f, i, f[..i], f[i + 1..]);
        UnlinesFirst(f[..i], Lines(f[i + 1..]));
        EndedAfterLine(f, i);
      } else {
        assert f[..i] == f && f[|f| - 1] in f;
        OnlyLine(f);
        UnlinesFirst(f, []);
        assert [f] + [] == [f] && f + [10] + [] == f + [10];
      }
    }
  }

  /** And none of them holds a newline. */
  lemma {:induction false} LinesAreLines(f: seq<Byte>)
    ensures forall k :: 0 <= k < |Lines(f)| ==> 10 !in Lines(f)[k]
    decreases |f|
  {
    if f != [] {
      var i := LineEnd(f);
      if i < |f| {
        LinesAreLines(f[i + 1..]);
        LinesAre(f, i, f[..i], f[i + 1..]);
        NoneInside(f[..i], Lines(f[i + 1..]));
      } else {
        assert f[..i] == f;
      }
    }
  }

  ghost predicate OccursAt(line: seq<Byte>, pat: seq<Byte>, k: nat) {
    k + |pat| <= |line| && line[k..k + |pat|] == pat
  }

  /** The line contains the pattern; nothing contains an empty one. */
  ghost predicate Selected(line: seq<Byte>, pat: seq<Byte>) {
    pat != [] && exists k :: OccursAt(line, pat, k)
  }

  /** What is printed for one line. */
  ghost function Shown(line: seq<Byte>, pat: seq<Byte>, fname: seq<Byte>): seq<Byte> {
    if Selected(line, pat) then fname + [COLON] + line + [NEWLINE] else []
  }

  ghost function Report(lines: seq<seq<Byte>>, pat: seq<Byte>, fname: seq<Byte>): seq<Byte> {
    if lines == [] then [] else Shown(lines[0], pat, fname) + Report(lines[1..], pat, fname)
  }

  /** The search for b in the two lines ab and c of the file f prints f:ab and a newline. */
  lemma ReportOfTwoLines()
    ensures Report(Lines([97, 98, 10, 99]), [98], [102]) == [102, 58, 97, 98, 10]
  {
    var f: seq<Byte>, first: seq<Byte>, second: seq<Byte> := [97, 98, 10, 99], [97, 98], [99];
    assert f[..2] == first && f[3..] == second;
    LinesAre(f, 2, first, second);
    OnlyLine(second);
    assert Lines(f)[1..] == [second] && Lines(f)[1..][1..] == [];
    assert OccursAt(first, [98], 1) && !Selected(second, [98]);
  }

  // ---- What the scanner sees: lines, but cut after 1024 bytes ----

  function Segments(f: seq<Byte>): seq<seq<Byte>>
    decreases |f|
  {
    if f == [] then []
    else
      var m := if |f| < BUFSIZE then |f| else BUFSIZE;
      var i := LineEnd(f[..m]);
      if i < m then [f[..i]] + Segments(f[i + 1..]) else [f[..m]] + Segments(f[m..])
  }

  ghost function Output(f: seq<Byte>, pat: seq<Byte>, fname: seq<Byte>): seq<Byte> {
    Report(Segments(f), pat, fname)
  }

  /** A first line of at most 1023 bytes before its newline. */
  lemma OutputLine(f: seq<Byte>, i: nat, pat: seq<Byte>, fname: seq<Byte>)
    requires i < |f| && i < BUFSIZE && f[i] == NEWLINE && NEWLINE !in f[..i]
    ensures Output(f, pat, fname) == Shown(f[..i], pat, fname) + Output(f[i + 1..], pat, fname)
  {
    var m := if |f| < BUFSIZE then |f| else BUFSIZE;
    FirstNewline(f[..m], i);
  }

  /** A first stretch without newline that fills the buffer or ends the file. */
  lemma OutputRest(f: seq<Byte>, m: nat, pat: seq<Byte>, fname: seq<Byte>)
    requires m <= |f| && m <= BUFSIZE && (m < BUFSIZE ==> m == |f|) && NEWLINE !in f[..m]
    ensures Output(f, pat, fname) == Shown(f[..m], pat, fname) + Output(f[m..], pat, fname)
  {
    if f != [] {
      assert LineEnd(f[..m]) == m;
    } else {
      assert f[..m] == [] && !Selected([], pat);
    }
  }

  lemma FirstNewline(f: seq<Byte>, i: nat)
    requires i < |f| && f[i] == NEWLINE && NEWLINE !in f[..i]
    ensures LineEnd(f) == i
  {
    var j := LineEnd(f);
    assert forall k :: 0 <= k < i ==> f[k] == f[..i][k] != NEWLINE;
    assert forall k :: 0 <= k < j ==> f[k] == f[..j][k] != NEWLINE;
  }

  /** No line is longer than the buffer. */
  ghost predicate Fitting(lines: seq<seq<Byte>>) {
    forall k :: 0 <= k < |lines| ==> |lines[k]| <= 1024
  }

  /** A line of exactly 1024 bytes still counts: its newline becomes an empty segment of its own. */
  lemma OutputFirst(f: seq<Byte>, i: nat, pat: seq<Byte>, fname: seq<Byte>)
    requires i < |f| && i <= BUFSIZE && f[i] == NEWLINE && NEWLINE !in f[..i]
    ensures Output(f, pat, fname) == Shown(f[..i], pat, fname) + Output(f[i + 1..], pat, fname)
  {
    if i < BUFSIZE {
      OutputLine(f, i, pat, fname);
    } else {
      OutputRest(f, i, pat, fname);
      EmptyLine(f[i..], f[i + 1..], pat, fname);
    }
  }

  /** An empty line prints nothing. */
  lemma EmptyLine(f: seq<Byte>, rest: seq<Byte>, pat: seq<Byte>, fname: seq<Byte>)
    requires f == [NEWLINE] + rest
    ensures Output(f, pat, fname) == Output(rest, pat, fname)
  {
    OutputLine(f, 0, pat, fname);
    assert f[1..] == rest && f[..0] == [] && !Selected([], pat);
  }

  /** With lines of at most 1024 bytes the scanner reports exactly the lines that contain the pattern. */
  lemma {:induction false} FittingLinesReported(f: seq<Byte>, pat: seq<Byte>, fname: seq<Byte>)
    requires Fitting(Lines(f))
    ensures Output(f, pat, fname) == Report(Lines(f), pat, fname)
    decreases |f|
  {
    if f == [] {
      return;
    }
    var i := LineEnd(f);
    if i < |f| {
      var rest := f[i + 1..];
      assert Lines(f) == [f[..i]] + Lines(rest) && Lines(f)[1..] == Lines(rest) && |Lines(f)[0]| == i;
      assert Fitting(Lines(rest)) by {
        assert forall k :: 0 <= k < |Lines(rest)| ==> Lines(rest)[k] == Lines(f)[k + 1];
      }
      FittingLinesReported(rest, pat, fname);
      OutputFirst(f, i, pat, fname);
    } else {
      assert |Lines(f)[0]| == |f| && f[..i] == f && f[i..] == [];
      OutputRest(f, i, pat, fname);
    }
  }

  lemma {:induction false} LineBytes(f: seq<Byte>, k: nat)
    requires k < |Lines(f)| && 0 !in f
    ensures 0 !in Lines(f)[k]
    decreases |f|
  {
    var i := LineEnd(f);
    if i < |f| && k > 0 {
      LineBytes(f[i + 1..], k - 1);
    }
  }

  // ---- A stale newline just past the buffer ----

  /**
    What is printed when the uninitialised byte after the buffer happens to be a newline: each
    full buffer is searched on its own, until one that does not end in a newline overwrites the byte.
   */
  ghost function StaleOutput(f: seq<Byte>, pat: seq<Byte>, fname: seq<Byte>): seq<Byte>
    decreases |f|
  {
    if |f| < BUFSIZE then Output(f, pat, fname)
    else
      Output(f[..BUFSIZE], pat, fname) +
      if f[BUFSIZE - 1] == NEWLINE then StaleOutput(f[BUFSIZE..], pat, fname) else Output(f[BUFSIZE..], pat, fname)
  }

  ghost function Printed(f: seq<Byte>, pat: seq<Byte>, fname: seq<Byte>, stale: bool): seq<Byte> {
    if stale then StaleOutput(f, pat, fname) else Output(f, pat, fname)
  }

  /** The first full buffer that does not end in a newline ends inside a line. */
  predicate Cut(f: seq<Byte>)
    decreases |f|
  {
    |f| >= BUFSIZE &&
    if f[BUFSIZE - 1] == NEWLINE then Cut(f[BUFSIZE..]) else |f| > BUFSIZE && f[BUFSIZE] != NEWLINE
  }

  lemma ReportFirst(line: seq<Byte>, rest: seq<seq<Byte>>, pat: seq<Byte>, fname: seq<Byte>)
    ensures Report([line] + rest, pat, fname) == Shown(line, pat, fname) + Report(rest, pat, fname)
  {
    assert ([line] + rest)[1..] == rest;
  }

  lemma {:induction false} ReportAppend(a: seq<seq<Byte>>, b: seq<seq<Byte>>, pat: seq<Byte>, fname: seq<Byte>)
    ensures Report(a + b, pat, fname) == Report(a, pat, fname) + Report(b, pat, fname)
  {
    if a == [] {
      assert a + b == b && Report(a, pat, fname) == [];
    } else {
      var line, rest := a[0], a[1..];
      assert a == [line] + rest && a + b == [line] + (rest + b);
      ReportFirst(line, rest, pat, fname);
      ReportFirst(line, rest + b, pat, fname);
      ReportAppend(rest, b, pat, fname);
      Regroup(Shown(line, pat, fname), Report(rest, pat, fname), Report(b, pat, fname));
    }
  }

  /** Lines of a file that ends in a newline, and of whatever follows. */
  lemma {:induction false} LinesAfterNewline(a: seq<Byte>, b: seq<Byte>)
    requires a != [] && a[|a| - 1] == NEWLINE
    ensures Lines(a + b) == Lines(a) + Lines(b)
    decreases |a|
  {
    var i := LineEnd(a);
    EndsBefore(a, i);
    FirstLine(a, b, i);
    var rest := a[i + 1..];
    if rest == [] {
      assert rest + b == b && Lines(rest) == [];
    } else {
      LinesAfterNewline(rest, b);
    }
    Regroup([a[..i]], Lines(rest), Lines(b));
  }

  lemma EndsBefore(a: seq<Byte>, i: nat)
    requires a != [] && a[|a| - 1] == NEWLINE && i == LineEnd(a)
    ensures i < |a| && (a[i + 1..] != [] ==> a[i + 1..][|a| - i - 2] == NEWLINE)
  {
    assert a[..|a|] == a && a[|a| - 1] in a;
  }

  lemma LinesAre(f: seq<Byte>, i: nat, line: seq<Byte>, rest: seq<Byte>)
    requires i < |f| && f[i] == NEWLINE && NEWLINE !in line && f[..i] == line && f[i + 1..] == rest
    ensures Lines(f) == [line] + Lines(rest)
  {
    FirstNewline(f, i);
  }

  /** The first line of `a`, when it ends in a newline, is the first line of `a + b`. */
  lemma FirstLine(a: seq<Byte>, b: seq<Byte>, i: nat)
    requires i < |a| && i == LineEnd(a)
    ensures Lines(a) == [a[..i]] + Lines(a[i + 1..]) && Lines(a + b) == [a[..i]] + Lines(a[i + 1..] + b)
  {
    LinesAre(a, i, a[..i], a[i + 1..]);
    assert (a + b)[..i] == a[..i] && (a + b)[i + 1..] == a[i + 1..] + b;
    LinesAre(a + b, i, a[..i], a[i + 1..] + b);
  }

  /** A cut inside a line: the last line of `a` and the first of `b` are one line of the file. */
  lemma {:induction false} LinesJoin(a: seq<Byte>, b: seq<Byte>)
      returns (before: seq<seq<Byte>>, x: seq<Byte>, y: seq<Byte>, after: seq<seq<Byte>>)
    requires a != [] && b != [] && a[|a| - 1] != NEWLINE && b[0] != NEWLINE
    ensures x != [] && y != [] && y[0] != NEWLINE && Lines(a) == before + [x] && Lines(b) == [y] + after
    ensures Lines(a + b) == before + ([x + y] + after)
    decreases |a|
  {
    var i := LineEnd(a);
    if i < |a| {
      FirstLine(a, b, i);
      var rest := a[i + 1..];
      assert rest != [] && rest[|rest| - 1] == a[|a| - 1];
      before, x, y, after := LinesJoin(rest, b);
      Regroup([a[..i]], before, [x]);
      Regroup([a[..i]], before, [x + y] + after);
      before := [a[..i]] + before;
    } else {
      assert a[..i] == a;
      before, x := [], a;
      y, after := OneLine(a, b);
      assert Lines(a) == [a];
    }
  }

  lemma OneLine(a: seq<Byte>, b: seq<Byte>) returns (y: seq<Byte>, after: seq<seq<Byte>>)
    requires b != [] && NEWLINE !in a && b[0] != NEWLINE
    ensures y != [] && y[0] != NEWLINE && Lines(b) == [y] + after && Lines(a + b) == [a + y] + after
  {
    var j := LineEnd(b);
    y := b[..j];
    if j < |b| {
      var rest := b[j + 1..];
      assert (a + b)[..|a| + j] == a + y && (a + b)[|a| + j + 1..] == rest;
      LinesAre(b, j, y, rest);
      LinesAre(a + b, |a| + j, a + y, rest);
      after := Lines(rest);
    } else {
      assert y == b;
      OnlyLine(b);
      OnlyLine(a + b);
      after := [];
    }
  }

  lemma OnlyLine(f: seq<Byte>)
    requires f != [] && NEWLINE !in f
    ensures Lines(f) == [f]
  {
    assert LineEnd(f) == |f|;
  }

  lemma FittingParts(a: seq<seq<Byte>>, b: seq<seq<Byte>>)
    ensures Fitting(a + b) <==> Fitting(a) && Fitting(b)
  {
    assert forall k :: 0 <= k < |a| ==> (a + b)[k] == a[k];
    assert forall k :: 0 <= k < |b| ==> (a + b)[|a| + k] == b[k];
  }

  /** A newline at the end closes the last line; it does not add one. */
  lemma {:induction false} ClosingNewline(a: seq<Byte>)
    requires a != [] && a[|a| - 1] != NEWLINE
    ensures Lines(a + [NEWLINE]) == Lines(a)
    decreases |a|
  {
    var i := LineEnd(a);
    if i < |a| {
      FirstLine(a, [NEWLINE], i);
      var rest := a[i + 1..];
      assert rest != [] && rest[|rest| - 1] == a[|a| - 1];
      ClosingNewline(rest);
    } else {
      assert a[..i] == a;
      SingleLine(a);
    }
  }

  lemma SingleLine(a: seq<Byte>)
    requires a != [] && NEWLINE !in a
    ensures Lines(a) == [a] && Lines(a + [NEWLINE]) == [a]
  {
    assert (a + [NEWLINE])[..|a|] == a && (a + [NEWLINE])[|a| + 1..] == [];
    LinesAre(a + [NEWLINE], |a|, a, []);
  }

  /** A cut just before a newline only adds an empty line. */
  lemma LinesBeforeNewline(a: seq<Byte>, b: seq<Byte>)
    requires a != [] && a[|a| - 1] != NEWLINE && b != [] && b[0] == NEWLINE
    ensures Lines(a + b) == Lines(a) + Lines(b[1..]) && Lines(b) == [[]] + Lines(b[1..])
  {
    assert a + b == (a + [NEWLINE]) + b[1..];
    ClosingNewline(a);
    LinesAfterNewline(a + [NEWLINE], b[1..]);
    FirstNewline(b, 0);
    assert b[..0] == [];
  }

  lemma {:induction false} UncutReports(f: seq<Byte>, pat: seq<Byte>, fname: seq<Byte>)
    requires Fitting(Lines(f)) && !Cut(f)
    ensures StaleOutput(f, pat, fname) == Report(Lines(f), pat, fname)
    decreases |f|
  {
    if |f| <= BUFSIZE {
      FittingLinesReported(f, pat, fname);
      assert |f| == BUFSIZE ==> f[..BUFSIZE] == f && f[BUFSIZE..] == [];
      return;
    }
    var a, b := f[..BUFSIZE], f[BUFSIZE..];
    assert f == a + b;
    if f[BUFSIZE - 1] == NEWLINE {
      LinesAfterNewline(a, b);
      FittingParts(Lines(a), Lines(b));
      UncutReports(b, pat, fname);
      ReportAppend(Lines(a), Lines(b), pat, fname);
    } else {
      LinesBeforeNewline(a, b);
      FittingParts(Lines(a), Lines(b[1..]));
      FittingParts([[]], Lines(b[1..]));
      FittingLinesReported(b, pat, fname);
      ReportAppend(Lines(a), Lines(b[1..]), pat, fname);
      assert Report(Lines(b), pat, fname) == Report(Lines(b[1..]), pat, fname) by {
        assert Lines(b)[0] == [] && Lines(b)[1..] == Lines(b[1..]) && !Selected([], pat);
      }
    }
    FittingLinesReported(a, pat, fname);
  }

  // ---- What a cut line does to the output: a search for its first byte shows it ----

  lemma StartSelects(line: seq<Byte>)
    requires line != []
    ensures Selected(line, [line[0]])
  {
    assert OccursAt(line, [line[0]], 0);
  }

  /** Where the scanner prints a newline the report goes on with the line. */
  lemma CutShows(x: seq<Byte>, line: seq<Byte>, fname: seq<Byte>, after: seq<Byte>, after': seq<Byte>)
    requires x != [] && x < line && line[|x|] != NEWLINE
    ensures Shown(x, [x[0]], fname) + after != Shown(line, [x[0]], fname) + after'
  {
    StartSelects(x);
    StartSelects(line);
    var i := |fname| + 1 + |x|;
    assert (fname + [COLON] + x + [NEWLINE] + after)[i] == NEWLINE;
    assert (fname + [COLON] + line + [NEWLINE] + after')[i] == line[|x|];
  }

  lemma SameStart(p: seq<Byte>, a: seq<Byte>, b: seq<Byte>)
    requires a != b
    ensures p + a != p + b
  {
    assert (p + a)[|p|..] == a && (p + b)[|p|..] == b;
  }

  lemma {:induction false} ShortLines(f: seq<Byte>)
    requires |f| <= BUFSIZE
    ensures Fitting(Lines(f))
    decreases |f|
  {
    var i := LineEnd(f);
    if i < |f| {
      ShortLines(f[i + 1..]);
    }
  }

  /** A line of more than 1024 bytes is cut: searching for the first byte of the first one shows it. */
  lemma {:induction false} LongLineShows(f: seq<Byte>, fname: seq<Byte>) returns (c: Byte)
    requires !Fitting(Lines(f)) && 0 !in f
    ensures c != 0 && Output(f, [c], fname) != Report(Lines(f), [c], fname)
    decreases |f|
  {
    var i := LineEnd(f);
    if i <= BUFSIZE {
      var line, rest := f[..i], f[i + 1..];
      LinesAre(f, i, line, rest);
      FittingParts([line], Lines(rest));
      c := LongLineShows(rest, fname);
      OutputFirst(f, i, [c], fname);
      ReportFirst(line, Lines(rest), [c], fname);
      SameStart(Shown(line, [c], fname), Output(rest, [c], fname), Report(Lines(rest), [c], fname));
    } else {
      c := f[0];
      LongFirstLine(f, i, f[..BUFSIZE], f[..i], fname);
    }
  }

  lemma FirstOf(f: seq<Byte>, i: nat) returns (tail: seq<seq<Byte>>)
    requires f != [] && i == LineEnd(f)
    ensures Lines(f) == [f[..i]] + tail
  {
    if i < |f| {
      LinesAre(f, i, f[..i], f[i + 1..]);
      tail := Lines(f[i + 1..]);
    } else {
      assert f[..i] == f;
      tail := [];
    }
  }

  lemma LongFirstLine(f: seq<Byte>, i: nat, x: seq<Byte>, line: seq<Byte>, fname: seq<Byte>)
    requires BUFSIZE < i == LineEnd(f) && x == f[..BUFSIZE] && line == f[..i]
    ensures Output(f, [f[0]], fname) != Report(Lines(f), [f[0]], fname)
  {
    var tail := FirstOf(f, i);
    ReportFirst(line, tail, [f[0]], fname);
    assert x == line[..BUFSIZE] && line[BUFSIZE] in f[..i];
    OutputRest(f, BUFSIZE, [f[0]], fname);
    CutShows(x, line, fname, Output(f[BUFSIZE..], [f[0]], fname), Report(tail, [f[0]], fname));
  }

  /** The same with a stale newline, which cuts lines at the end of a full buffer too. */
  lemma {:induction false} StaleCutShows(f: seq<Byte>, fname: seq<Byte>) returns (c: Byte)
    requires (!Fitting(Lines(f)) || Cut(f)) && 0 !in f
    ensures c != 0 && StaleOutput(f, [c], fname) != Report(Lines(f), [c], fname)
    decreases |f|
  {
    assert |f| > BUFSIZE by {
      if |f| <= BUFSIZE { ShortLines(f); }
    }
    var a, b := f[..BUFSIZE], f[BUFSIZE..];
    assert f == a + b;
    if a[BUFSIZE - 1] == NEWLINE {
      ShortLines(a);
      LinesAfterNewline(a, b);
      FittingParts(Lines(a), Lines(b));
      c := StaleCutShows(b, fname);
      PartDiffers(a, Lines(b), [c], fname, StaleOutput(b, [c], fname));
    } else if b[0] == NEWLINE {
      c := LongLineAfterCut(a, b, fname);
    } else {
      c := CutLineShows(a, b, fname);
    }
  }

  /** The first buffer is reported as it should be; what follows is not. */
  lemma PartDiffers(a: seq<Byte>, rest: seq<seq<Byte>>, pat: seq<Byte>, fname: seq<Byte>, out: seq<Byte>)
    requires |a| <= BUFSIZE && out != Report(rest, pat, fname)
    ensures Output(a, pat, fname) + out != Report(Lines(a) + rest, pat, fname)
  {
    ShortLines(a);
    FittingLinesReported(a, pat, fname);
    ReportAppend(Lines(a), rest, pat, fname);
    SameStart(Output(a, pat, fname), out, Report(rest, pat, fname));
  }

  lemma LongLineAfterCut(a: seq<Byte>, b: seq<Byte>, fname: seq<Byte>) returns (c: Byte)
    requires |a| == BUFSIZE && b != [] && a[BUFSIZE - 1] != NEWLINE && b[0] == NEWLINE
    requires !Fitting(Lines(a + b)) && 0 !in b
    ensures c != 0
    ensures Output(a, [c], fname) + Output(b, [c], fname) != Report(Lines(a + b), [c], fname)
  {
    var rest := b[1..];
    LinesBeforeNewline(a, b);
    ShortLines(a);
    FittingParts(Lines(a), Lines(rest));
    c := LongLineShows(rest, fname);
    EmptyLine(b, rest, [c], fname);
    PartDiffers(a, Lines(rest), [c], fname, Output(rest, [c], fname));
  }

  lemma CutLineShows(a: seq<Byte>, b: seq<Byte>, fname: seq<Byte>) returns (c: Byte)
    requires |a| == BUFSIZE && b != [] && a[BUFSIZE - 1] != NEWLINE && b[0] != NEWLINE && 0 !in a
    ensures c != 0
    ensures Output(a, [c], fname) + Output(b, [c], fname) != Report(Lines(a + b), [c], fname)
  {
    var before, x, y, after := LinesJoin(a, b);
    assert Lines(a)[|before|] == x;
    LineBytes(a, |before|);
    c := x[0];
    ShortLines(a);
    FittingLinesReported(a, [c], fname);
    ReportAppend(before, [x], [c], fname);
    ReportAppend(before, [x + y] + after, [c], fname);
    ReportFirst(x + y, after, [c], fname);
    OneReported(x, [c], fname);
    CutShows(x, x + y, fname, Output(b, [c], fname), Report(after, [c], fname));
    var shown, rest := Shown(x, [c], fname), Output(b, [c], fname);
    Regroup(Report(before, [c], fname), shown, rest);
    SameStart(Report(before, [c], fname), shown + rest, Report([x + y] + after, [c], fname));
  }

  lemma OneReported(line: seq<Byte>, pat: seq<Byte>, fname: seq<Byte>)
    ensures Report([line], pat, fname) == Shown(line, pat, fname)
  {
    ReportFirst(line, [], pat, fname);
    assert [line] + [] == [line] && Shown(line, pat, fname) + [] == Shown(line, pat, fname);
  }

  /** The scanner reports exactly the matching lines of the file. */
  ghost predicate Reports(f: seq<Byte>, pat: seq<Byte>, fname: seq<Byte>, stale: bool) {
    Printed(f, pat, fname, stale) == Report(Lines(f), pat, fname)
  }

  /**
    The scanner reports exactly the matching lines, for all patterns, if and only if every line has
    at most 1024 bytes and, with a stale newline after the buffer, no line is cut. Patterns of one
    byte are enough to tell.
   */
  lemma ReportsAllPatternsIff(f: seq<Byte>, fname: seq<Byte>, stale: bool)
    requires 0 !in f
    ensures (forall pat: seq<Byte> :: 0 !in pat ==> Reports(f, pat, fname, stale))
            <==> Fitting(Lines(f)) && !(stale && Cut(f))
    ensures (forall c: Byte :: c != 0 ==> Reports(f, [c], fname, stale))
            <==> Fitting(Lines(f)) && !(stale && Cut(f))
  {
    if Fitting(Lines(f)) && !(stale && Cut(f)) {
      forall pat: seq<Byte> | 0 !in pat ensures Reports(f, pat, fname, stale) {
        if stale {
          UncutReports(f, pat, fname);
        } else {
          FittingLinesReported(f, pat, fname);
        }
      }
    } else {
      var c;
      if stale {
        c := StaleCutShows(f, fname);
      } else {
        c := LongLineShows(f, fname);
      }
      assert 0 !in [c] && !Reports(f, [c], fname, stale);
    }
  }

  // ---- Lines that hold NULs ----

  /** What the string routines take a line for: what comes before its first NUL. */
  function Text(line: seq<Byte>): (r: seq<Byte>)
    ensures 0 !in r && (0 !in line ==> r == line)
  {
    CString(line, |line|)
  }

  lemma TextIs(line: seq<Byte>, n: nat)
    requires n <= |line| && 0 !in line[..n] && (n < |line| ==> line[n] == 0)
    ensures Text(line) == line[..n]
  {
    StopsAfter(line, |line|, n);
  }

  /** What is printed for one line, which is found by all its bytes but shown up to its first NUL. */
  ghost function ShownText(line: seq<Byte>, pat: seq<Byte>, fname: seq<Byte>): (r: seq<Byte>)
    ensures 0 !in fname ==> 0 !in r
  {
    if Selected(line, pat) then fname + [COLON] + Text(line) + [NEWLINE] else []
  }

  /** So a line is shown as it should be exactly when it is not selected or has no NUL. */
  lemma ShownTextIff(line: seq<Byte>, pat: seq<Byte>, fname: seq<Byte>)
    ensures ShownText(line, pat, fname) == Shown(line, pat, fname) <==> !Selected(line, pat) || 0 !in line
  {
    if Selected(line, pat) && 0 in line {
      assert |Text(line)| < |line|;
      assert |ShownText(line, pat, fname)| < |Shown(line, pat, fname)|;
    }
  }

  /** The report of a file in which some line holds a NUL and another byte shows a NUL when that byte is searched. */
  lemma {:induction false} MixedLineReported(lines: seq<seq<Byte>>, k: nat, i: nat, fname: seq<Byte>)
    requires k < |lines| && i < |lines[k]| && 0 in lines[k]
    ensures 0 in Report(lines, [lines[k][i]], fname)
  {
    if k == 0 {
      assert OccursAt(lines[0], [lines[0][i]], i);
      assert 0 in Shown(lines[0], [lines[0][i]], fname);
    } else {
      MixedLineReported(lines[1..], k - 1, i, fname);
    }
  }

  /** The file of the two lines A, NUL, B and a search for B: the scanner prints no NUL, so not the report. */
  lemma NulFileMisreported(fname: seq<Byte>, out: seq<Byte>)
    requires 0 !in out
    ensures out != Report(Lines([65, 0, 66, NEWLINE]), [66], fname)
  {
    var f: seq<Byte> := [65, 0, 66, NEWLINE];
    assert f[..3] == [65, 0, 66] && f[4..] == [];
    LinesAre(f, 3, [65, 0, 66], []);
    MixedLineReported(Lines(f), 0, 2, fname);
  }

  // ---- The string routines ----

  /** ece391_strncmp against a pattern without NUL: zero exactly when the pattern occurs there before `end`. */
  method Strncmp(data: array<Byte>, at: nat, end: nat, s: seq<Byte>) returns (r: int)
    requires at <= end < data.Length && data[end] == 0 && 0 !in s
    ensures r == 0 <==> at + |s| <= end && data[at..at + |s|] == s
  {
    var n := |s|;
    if n == 0 {
      return 0;
    }
    var k := 0;
    while data[at + k] == s[k]
      invariant 0 <= k < |s| && n == |s| - k && at + k <= end
      invariant data[at..at + k] == s[..k]
      decreases n
    {
      assert s[k] in s;
      n := n - 1;
      if data[at + k] == 0 || n == 0 {
        assert s[..k + 1] == s;
        return 0;
      }
      k := k + 1;
    }
    assert at + |s| <= end ==> data[at..at + |s|][k] == data[at + k];
    return data[at + k] as int - s[k] as int;
  }

  /** The bytes ece391_fdputs writes: up to the first NUL. */
  method Puts(data: array<Byte>, at: nat, ghost end: nat, ghost line: seq<Byte>) returns (s: seq<Byte>)
    requires at <= end < data.Length && data[end] == 0 && line == data[at..end]
    ensures s == Text(line)
  {
    var len := 0;
    while data[at + len] != 0
      invariant at + len <= end && 0 !in line[..len]
      decreases end - len
    {
      assert line[len] == data[at + len];
      len := len + 1;
      assert line[..len] == line[..len - 1] + [line[len - 1]];
    }
    assert len < |line| ==> line[len] == data[at + len];
    TextIs(line, len);
    s := data[at..at + len];
    assert s == line[..len];
  }

  /** ece391_strcpy of the string at `from` down to the start of the same buffer. */
  method StrcpyDown(data: array<Byte>, from: nat, ghost end: nat)
    requires 0 < from <= end < data.Length && data[end] == 0 && 0 !in data[from..end]
    modifies data
    ensures data[..end - from] == old(data[from..end]) && data[end - from] == 0
    ensures forall i :: end - from < i < data.Length ==> data[i] == old(data[i])
  {
    assert forall k :: from <= k < end ==> data[k] == data[from..end][k - from];
    var i := 0;
    while true
      invariant from + i <= end
      invariant forall k :: 0 <= k < i ==> data[k] == old(data[from + k])
      invariant forall k :: i <= k < data.Length ==> data[k] == old(data[k])
      decreases end - i
    {
      var c := data[from + i];
      data[i] := c;
      if c == 0 {
        break;
      }
      i := i + 1;
    }
    assert from + i == end;
  }

  // ---- do_one_file ----

  /** The first newline of `data[start..last]`, or `last`. */
  method ScanLine(data: array<Byte>, start: nat, last: nat) returns (end: nat)
    requires start <= last < data.Length
    ensures start <= end <= last && NEWLINE !in data[start..end]
    ensures end < last ==> data[end] == NEWLINE
  {
    end := start;
    while end < last && data[end] != NEWLINE
      invariant start <= end <= last && NEWLINE !in data[start..end]
    {
      end := end + 1;
    }
  }

  lemma MatchStarts(line: seq<Byte>, s: seq<Byte>, k: nat)
    requires k < |line|
    ensures s != [] && OccursAt(line, s, k) ==> s[0] == line[k]
  {
  }

  /** The comparison at one position of the line. */
  method MatchAt(data: array<Byte>, start: nat, end: nat, check: nat, s: seq<Byte>, ghost line: seq<Byte>)
      returns (found: bool)
    requires start <= check < end < data.Length && data[end] == 0 && line == data[start..end] && 0 !in s
    ensures found <==> s != [] && OccursAt(line, s, check - start)
  {
    MatchStarts(line, s, check - start);
    if s == [] || s[0] != data[check] {
      return false;
    }
    var c := Strncmp(data, check, end, s);
    if check + |s| <= end {
      SliceOfSlice(data[..], start, end, check - start, check - start + |s|);
      assert data[start..end] == data[..][start..end] && data[check..check + |s|] == data[..][check..check + |s|];
    }
    return c == 0;
  }

  /** The search of one line, which ends in a NUL at `end`, and what it prints. */
  method SearchLine(data: array<Byte>, start: nat, end: nat, s: seq<Byte>, fname: seq<Byte>) returns (out: seq<Byte>)
    requires start <= end < data.Length && data[end] == 0 && 0 !in s
    ensures out == ShownText(data[start..end], s, fname)
  {
    ghost var line := data[start..end];
    for check := start to end
      invariant forall k :: 0 <= k < check - start ==> !(s != [] && OccursAt(line, s, k))
    {
      var found := MatchAt(data, start, end, check, s, line);
      if found {
        var text := Puts(data, start, end, line);
        return fname + [COLON] + text + [NEWLINE];
      }
    }
    return [];
  }

  /** A line with its newline at position `a` of the file, short enough for the buffer. */
  ghost predicate FullLine(f: seq<Byte>, a: nat, e: nat) {
    a <= e < |f| && e - a < BUFSIZE && f[e] == NEWLINE && NEWLINE !in f[a..e]
  }

  /** A stretch without newline from position `a` that fills the buffer or ends the file. */
  ghost predicate Stretch(f: seq<Byte>, a: nat, e: nat) {
    a <= e <= |f| && e - a <= BUFSIZE && NEWLINE !in f[a..e] && (e == |f| || e - a == BUFSIZE)
  }

  /**
    A search of the file `f` for `s`, with its accounts: `owed[a]` is what remains to be printed when
    a line begins at position `a`, and `stale[a]` the same when a buffer begins there and a stale
    newline follows the buffer. The accounts are kept only if the file is `clean`, free of NULs.
   */
  datatype Search = Search(f: seq<Byte>, s: seq<Byte>, fname: seq<Byte>, clean: bool,
                           owed: seq<seq<Byte>>, stale: seq<seq<Byte>>)

  /** The buffer up to `last` holds a clean file from `base` on, as far as it is still needed: from `start`. */
  ghost predicate Buffered(data: seq<Byte>, start: nat, last: nat, job: Search, base: nat) {
    start <= last <= |data| && base + last <= |job.f| &&
    (job.clean ==> forall i :: start <= i < last ==> data[i] == job.f[base + i])
  }

  ghost predicate Ledger(job: Search) {
    |job.owed| == |job.f| + 1 &&
    (forall a: nat, e: nat :: FullLine(job.f, a, e) ==>
      job.owed[a] == Shown(job.f[a..e], job.s, job.fname) + job.owed[e + 1]) &&
    (forall a: nat, e: nat :: Stretch(job.f, a, e) ==>
      job.owed[a] == Shown(job.f[a..e], job.s, job.fname) + job.owed[e])
  }

  ghost predicate StaleLedger(job: Search) {
    |job.stale| == |job.owed| == |job.f| + 1 &&
    (forall a: nat :: a <= |job.f| < a + BUFSIZE ==> job.stale[a] == job.owed[a]) &&
    (forall a: nat :: a + BUFSIZE <= |job.f| ==> FullBuffer(job, a))
  }

  ghost predicate FullBuffer(job: Search, a: nat)
    requires |job.stale| == |job.owed| == |job.f| + 1 && a + BUFSIZE <= |job.f|
  {
    var b := a + BUFSIZE;
    job.stale[a] ==
      Output(job.f[a..b], job.s, job.fname) + if job.f[b - 1] == NEWLINE then job.stale[b] else job.owed[b]
  }

  /** The search is for `s`, which has no NUL, in a file called `fname`, and the accounts are right. */
  ghost predicate Ready(job: Search, s: seq<Byte>, fname: seq<Byte>) {
    job.s == s && job.fname == fname && 0 !in s && (job.clean ==> 0 !in job.f) && Ledger(job)
  }

  ghost function Owed(f: seq<Byte>, s: seq<Byte>, fname: seq<Byte>): (r: seq<seq<Byte>>)
    ensures |r| == |f| + 1 && forall a :: 0 <= a <= |f| ==> r[a] == Output(f[a..], s, fname)
  {
    seq(|f| + 1, a requires 0 <= a <= |f| => Output(f[a..], s, fname))
  }

  ghost function StaleOwed(f: seq<Byte>, s: seq<Byte>, fname: seq<Byte>): (r: seq<seq<Byte>>)
    ensures |r| == |f| + 1 && forall a :: 0 <= a <= |f| ==> r[a] == StaleOutput(f[a..], s, fname)
  {
    seq(|f| + 1, a requires 0 <= a <= |f| => StaleOutput(f[a..], s, fname))
  }

  ghost function Opened(f: seq<Byte>, s: seq<Byte>, fname: seq<Byte>, clean: bool): Search {
    Search(f, s, fname, clean, Owed(f, s, fname), StaleOwed(f, s, fname))
  }

  lemma OpenedIsReady(f: seq<Byte>, s: seq<Byte>, fname: seq<Byte>, clean: bool)
    requires 0 !in s && (clean ==> 0 !in f)
    ensures Ready(Opened(f, s, fname, clean), s, fname) && Owed(f, s, fname)[|f|] == []
  {
    var job := Opened(f, s, fname, clean);
    assert f[|f|..] == [];
    forall a: nat, e: nat | FullLine(f, a, e) ensures job.owed[a] == Shown(f[a..e], s, fname) + job.owed[e + 1] {
      LineStep(f, a, e, s, fname);
    }
    forall a: nat, e: nat | Stretch(f, a, e) ensures job.owed[a] == Shown(f[a..e], s, fname) + job.owed[e] {
      StretchStep(f, a, e, s, fname);
    }
  }

  lemma OpenedIsStaleLedger(f: seq<Byte>, s: seq<Byte>, fname: seq<Byte>, clean: bool)
    ensures StaleLedger(Opened(f, s, fname, clean))
  {
    forall a: nat | a + BUFSIZE <= |f| ensures FullBuffer(Opened(f, s, fname, clean), a) {
      BufferStep(f, a, a + BUFSIZE, s, fname);
    }
  }

  lemma BufferStep(f: seq<Byte>, a: nat, b: nat, s: seq<Byte>, fname: seq<Byte>)
    requires b == a + BUFSIZE <= |f|
    ensures StaleOutput(f[a..], s, fname) ==
      Output(f[a..b], s, fname) +
      if f[b - 1] == NEWLINE then StaleOutput(f[b..], s, fname) else Output(f[b..], s, fname)
  {
    Sliced(f, a, b);
  }

  lemma LineStep(f: seq<Byte>, a: nat, e: nat, s: seq<Byte>, fname: seq<Byte>)
    requires FullLine(f, a, e)
    ensures Output(f[a..], s, fname) == Shown(f[a..e], s, fname) + Output(f[e + 1..], s, fname)
  {
    Sliced(f, a, e);
    Sliced(f, a, e + 1);
    assert f[a..][e - a] == f[e];
    LineOf(f[a..], e - a, f[a..e], f[e + 1..], s, fname);
  }

  /** OutputLine with the line and the rest named. */
  lemma LineOf(g: seq<Byte>, i: nat, line: seq<Byte>, rest: seq<Byte>, s: seq<Byte>, fname: seq<Byte>)
    requires i < |g| && i < BUFSIZE && g[i] == NEWLINE && NEWLINE !in line && g[..i] == line && g[i + 1..] == rest
    ensures Output(g, s, fname) == Shown(line, s, fname) + Output(rest, s, fname)
  {
    OutputLine(g, i, s, fname);
  }

  lemma Sliced(f: seq<Byte>, a: nat, e: nat)
    requires a <= e <= |f|
    ensures f[a..][..e - a] == f[a..e] && f[a..][e - a..] == f[e..]
  {
  }

  lemma StretchStep(f: seq<Byte>, a: nat, e: nat, s: seq<Byte>, fname: seq<Byte>)
    requires Stretch(f, a, e)
    ensures Output(f[a..], s, fname) == Shown(f[a..e], s, fname) + Output(f[e..], s, fname)
  {
    Sliced(f, a, e);
    OutputRest(f[a..], e - a, s, fname);
  }

  /** The unfinished line at the end of the buffer moves to its front. */
  method CarryDown(data: array<Byte>, start: nat, last: nat, ghost job: Search, ghost base: nat)
    requires 0 < start <= last < data.Length && Buffered(data[..], start, last, job, base)
    requires job.clean ==> 0 !in job.f
    modifies data
    ensures Buffered(data[..], 0, last - start, job, base + start)
    ensures forall i :: last < i < data.Length ==> data[i] == old(data[i])
    ensures data[last] == 0 || data[last] == old(data[last])
  {
    data[last] := 0;
    ghost var line := data[start..last];
    ghost var end := start + |Text(line)|;
    assert end < last ==> data[end] == line[end - start];
    assert data[start..end] == Text(line);
    StrcpyDown(data, start, end);
    if job.clean {
      Carried(job.f, base + start, line);
      assert forall i :: 0 <= i < last - start ==> data[i] == data[..end - start][i] == line[i];
    }
  }

  /** A stretch of a NUL-free file is moved whole. */
  lemma Carried(f: seq<Byte>, a: nat, line: seq<Byte>)
    requires 0 !in f && a + |line| <= |f| && forall i :: 0 <= i < |line| ==> line[i] == f[a + i]
    ensures Text(line) == line
  {
    assert forall i :: 0 <= i < |line| ==> line[i] in f;
  }

  /** The bytes `data[start..end]` are searched and printed; the byte after them is overwritten. */
  method PrintLine(data: array<Byte>, start: nat, end: nat, s: seq<Byte>, fname: seq<Byte>, ghost line: seq<Byte>)
      returns (out: seq<Byte>)
    requires start <= end < data.Length && data[start..end] == line && 0 !in s
    modifies data
    ensures data[..] == old(data[..])[end := 0] && out == ShownText(line, s, fname)
  {
    data[end] := 0;
    assert data[start..end] == line;
    out := SearchLine(data, start, end, s, fname);
  }

  /** `out` is what is owed from `base` on, up to what is owed from `a` on. */
  ghost predicate Accounts(owed: seq<seq<Byte>>, base: nat, a: nat, out: seq<Byte>) {
    base < |owed| && a < |owed| && owed[base] == out + owed[a]
  }

  /** The accounts are kept for a clean file. */
  ghost predicate Booked(job: Search, base: nat, a: nat, out: seq<Byte>) {
    job.clean ==> Accounts(job.owed, base, a, out)
  }

  /** No NUL is printed but what the file's name may hold. */
  ghost predicate Printable(fname: seq<Byte>, out: seq<Byte>) {
    0 !in fname ==> 0 !in out
  }

  lemma Account(job: Search, base: nat, a: nat, e: nat, next: nat, before: seq<Byte>)
    requires Ledger(job) && Accounts(job.owed, base, a, before)
    requires (FullLine(job.f, a, e) && next == e + 1) || (Stretch(job.f, a, e) && next == e)
    ensures Accounts(job.owed, base, next, before + Shown(job.f[a..e], job.s, job.fname))
  {
    Paid(job.owed[base], before, Shown(job.f[a..e], job.s, job.fname), job.owed[a], job.owed[next]);
  }

  /** One line, or the stretch without newline that ends the buffer. */
  method ReportLine(data: array<Byte>, start: nat, end: nat, last: nat, s: seq<Byte>, fname: seq<Byte>,
                    ghost job: Search, ghost base: nat, ghost before: seq<Byte>)
      returns (out: seq<Byte>)
    requires start <= end <= last < data.Length && last <= BUFSIZE && Ready(job, s, fname)
    requires Buffered(data[..], start, last, job, base) && Booked(job, base, base + start, before)
    requires NEWLINE !in data[start..end] && (end < last ==> data[end] == NEWLINE)
    requires end == last ==> base + last == |job.f| || (start == 0 && last == BUFSIZE)
    modifies data
    ensures forall i :: 0 <= i < data.Length && i != end ==> data[i] == old(data[i])
    ensures data[end] == 0 && Buffered(data[..], if end < last then end + 1 else last, last, job, base)
    ensures Booked(job, base, base + if end < last then end + 1 else last, before + out) && Printable(fname, out)
    ensures job.clean && start < end ==> job.f[base + end - 1] != NEWLINE
  {
    ghost var line := data[start..end];
    if job.clean {
      LineBooked(data[..], start, end, last, job, base, before, line);
    }
    out := PrintLine(data, start, end, s, fname, line);
  }

  /** The bytes found by the scan are a line of a NUL-free file, and printing it keeps the accounts. */
  lemma LineBooked(data: seq<Byte>, start: nat, end: nat, last: nat, job: Search, base: nat, before: seq<Byte>,
                   line: seq<Byte>)
    requires start <= end <= last <= |data| && last <= BUFSIZE && line == data[start..end]
    requires Ready(job, job.s, job.fname) && job.clean
    requires Buffered(data, start, last, job, base) && Accounts(job.owed, base, base + start, before)
    requires NEWLINE !in line && (end < last ==> data[end] == NEWLINE)
    requires end == last ==> base + last == |job.f| || (start == 0 && last == BUFSIZE)
    ensures Accounts(job.owed, base, base + if end < last then end + 1 else last,
                     before + ShownText(line, job.s, job.fname))
    ensures start < end ==> job.f[base + end - 1] != NEWLINE
  {
    var a, e, next := base + start, base + end, base + if end < last then end + 1 else last;
    LineHere(data, start, end, last, job, base, a, e);
    Account(job, base, a, e, next, before);
    ShownTextIff(line, job.s, job.fname);
    assert start < end ==> job.f[e - 1] == job.f[a..e][e - 1 - a];
  }

  /** What the scan found in the buffer is a line of the file, or a stretch without newline. */
  lemma LineHere(data: seq<Byte>, start: nat, end: nat, last: nat, job: Search, base: nat, a: nat, e: nat)
    requires start <= end <= last <= |data| && last <= BUFSIZE && job.clean && 0 !in job.f
    requires Buffered(data, start, last, job, base)
    requires a == base + start && e == base + end
    requires NEWLINE !in data[start..end] && (end < last ==> data[end] == NEWLINE)
    requires end == last ==> base + last == |job.f| || (start == 0 && last == BUFSIZE)
    ensures e <= |job.f| && data[start..end] == job.f[a..e] && 0 !in job.f[a..e]
    ensures if end < last then FullLine(job.f, a, e) else Stretch(job.f, a, e)
  {
    assert data[start..end] == job.f[a..e];
  }

  /** The byte after the buffer: what a pass over the file's bytes up to `last` makes of it. */
  ghost predicate Beyond(was: Byte, now: Byte, last: nat, kept: nat, job: Search) {
    (last < BUFSIZE ==> now == was) && (was != NEWLINE ==> now != NEWLINE) &&
    (was == NEWLINE && last == BUFSIZE ==>
      job.f != [] && kept == 0 && (job.clean ==> (now == NEWLINE <==> job.f[|job.f| - 1] == NEWLINE)))
  }

  /**
    One turn of the line loop. It goes on at `next`, or it stops with `next` bytes of an
    unfinished line moved to the front of the buffer.
   */
  method ScanOne(data: array<Byte>, start: nat, last: nat, cnt: nat, s: seq<Byte>, fname: seq<Byte>,
                 ghost job: Search, ghost base: nat, ghost before: seq<Byte>)
      returns (stop: bool, next: nat, text: seq<Byte>)
    requires data.Length == BUFSIZE + 1 && start <= last <= BUFSIZE && (start == 0 || start < last)
    requires Ready(job, s, fname) && Buffered(data[..], start, last, job, base)
    requires last < BUFSIZE || cnt == 0 || data[BUFSIZE] == NEWLINE ==> base + last == |job.f|
    requires Booked(job, base, base + start, before)
    modifies data
    ensures next <= last && Printable(fname, text)
    ensures stop ==> next < BUFSIZE && (cnt == 0 ==> next == 0)
    ensures stop ==> Buffered(data[..], 0, next, job, base + (last - next))
    ensures stop ==> Beyond(old(data[BUFSIZE]), data[BUFSIZE], last, next, job)
    ensures stop ==> Booked(job, base, base + (last - next), before + text)
    ensures !stop ==> start < next < last && Buffered(data[..], next, last, job, base)
    ensures !stop ==> data[BUFSIZE] == old(data[BUFSIZE]) && Booked(job, base, base + next, before + text)
  {
    var end := ScanLine(data, start, last);
    if data[end] != NEWLINE && cnt != 0 && start != 0 {
      CarryDown(data, start, last, job, base);
      assert before + [] == before;
      return true, last - start, [];
    }
    text := ReportLine(data, start, end, last, s, fname, job, base, before);
    if end + 1 >= last {
      return true, 0, text;
    }
    return false, end + 1, text;
  }

  /** One pass over a filled buffer: reports its lines, and returns how many bytes it kept. */
  method ScanBuffer(data: array<Byte>, last: nat, cnt: nat, s: seq<Byte>, fname: seq<Byte>,
                    ghost job: Search, ghost base: nat)
      returns (kept: nat, out: seq<Byte>)
    requires data.Length == BUFSIZE + 1 && last <= BUFSIZE
    requires Ready(job, s, fname) && Buffered(data[..], 0, last, job, base)
    requires last < BUFSIZE || cnt == 0 || data[BUFSIZE] == NEWLINE ==> base + last == |job.f|
    modifies data
    ensures kept < BUFSIZE && kept <= last && (cnt == 0 ==> kept == 0)
    ensures Beyond(old(data[BUFSIZE]), data[BUFSIZE], last, kept, job)
    ensures Buffered(data[..], 0, kept, job, base + (last - kept))
    ensures Booked(job, base, base + (last - kept), out) && Printable(fname, out)
  {
    out := [];
    var lineStart := 0;
    while true
      invariant lineStart <= last && (lineStart == 0 || lineStart < last) && data[BUFSIZE] == old(data[BUFSIZE])
      invariant Buffered(data[..], lineStart, last, job, base)
      invariant Booked(job, base, base + lineStart, out) && Printable(fname, out)
      decreases last - lineStart
    {
      var stop, next, text := ScanOne(data, lineStart, last, cnt, s, fname, job, base, out);
      out := out + text;
      if stop {
        kept := next;
        return;
      }
      lineStart := next;
    }
  }

  const READ_FAILED: seq<Byte> := [102, 105, 108, 101, 32, 114, 101, 97, 100, 32, 102, 97, 105, 108, 101, 100, 10]

  /** The read at the top of the loop: after the `last` bytes kept, as much of the file as fits. */
  method Refill(file: OpenFile, data: array<Byte>, last: nat, ghost job: Search, ghost base: nat) returns (cnt: int)
    requires file.Valid() && data != file.img && data.Length == BUFSIZE + 1 && last < BUFSIZE
    requires job.f == file.Bytes() && Buffered(data[..], 0, last, job, base) && base + last == file.pos
    modifies file`pos, data
    ensures file.Valid() && file.img[..] == old(file.img[..]) && file.Bytes() == job.f
    ensures data[BUFSIZE] == old(data[BUFSIZE])
    ensures cnt == -1 <==> file.inode >= NumInodes(file.img[..])
    ensures cnt != -1 ==> 0 <= cnt <= BUFSIZE - last && file.pos == old(file.pos) + cnt
    ensures cnt != -1 ==> (last + cnt < BUFSIZE || cnt == 0 ==> file.pos == |job.f|)
    ensures cnt != -1 ==> Buffered(data[..], 0, last + cnt, job, base)
  {
    ghost var pos, before := file.pos, data[..];
    cnt := file.Read(data, last, BUFSIZE - last);
    if cnt != -1 {
      Refilled(before, data[..], last, cnt, job, base, pos);
    }
  }

  lemma Refilled(was: seq<Byte>, now: seq<Byte>, last: nat, cnt: nat, job: Search, base: nat, pos: nat)
    requires |was| == BUFSIZE + 1 && last + cnt <= BUFSIZE && pos == base + last && pos + cnt <= |job.f|
    requires Buffered(was, 0, last, job, base) && now == Blit(was, last, job.f[pos..pos + cnt])
    ensures Buffered(now, 0, last + cnt, job, base) && now[BUFSIZE] == was[BUFSIZE]
  {
  }

  /** `out` was printed so far, and the rest of `total` is owed from `base` on. */
  ghost predicate Due(job: Search, total: seq<Byte>, out: seq<Byte>, after: Byte, base: nat) {
    base < |job.stale| == |job.owed| &&
    (job.clean ==> total == out + if after == NEWLINE then job.stale[base] else job.owed[base])
  }

  /** The search that a full buffer followed by a stale newline amounts to: one of the file's beginning. */
  lemma Begin(job: Search, s: seq<Byte>, fname: seq<Byte>, base: nat, whole: bool, data: seq<Byte>, last: nat)
      returns (begun: Search)
    requires Ready(job, s, fname) && Buffered(data, 0, last, job, base) && (whole ==> last == BUFSIZE)
    ensures Ready(begun, s, fname) && Buffered(data, 0, last, begun, base)
    ensures begun.f <= job.f && begun.clean == job.clean
    ensures if whole then Whole(job, begun, base) else begun == job
  {
    begun := job;
    if whole {
      var next := base + BUFSIZE;
      begun := Opened(job.f[..next], s, fname, job.clean);
      OpenedIsReady(job.f[..next], s, fname, job.clean);
      PrefixRest(job.f, job.f[..next], base, next);
      OwedEnds(job.f[..next], s, fname, base, job.f[base..next]);
    }
  }

  /** The search `begun` is that of one full buffer of `job`, the one at `base`, and owes nothing after it. */
  ghost predicate Whole(job: Search, begun: Search, base: nat) {
    var next := base + BUFSIZE;
    next <= |job.f| && |begun.f| == next && |begun.owed| == next + 1 && begun.f[next - 1] == job.f[next - 1] &&
    begun.owed[base] == Output(job.f[base..next], job.s, job.fname) && begun.owed[next] == []
  }

  /** What the pass printed, in the accounts of the whole search. */
  lemma PassPaid(job: Search, begun: Search, total: seq<Byte>, before: seq<Byte>, text: seq<Byte>,
                 was: Byte, after: Byte, base: nat, last: nat, kept: nat)
    requires job.clean && StaleLedger(job) && Due(job, total, before, was, base)
    requires base + last <= |job.f| && kept <= last <= BUFSIZE
    requires last < BUFSIZE ==> base + last == |job.f|
    requires begun.clean && Beyond(was, after, last, kept, begun) && Booked(begun, base, base + (last - kept), text)
    requires if was == NEWLINE && last == BUFSIZE then Whole(job, begun, base) else begun == job
    ensures Due(job, total, before + text, after, base + (last - kept))
  {
    var next := base + (last - kept);
    if was == NEWLINE && last == BUFSIZE {
      assert next == base + BUFSIZE && FullBuffer(job, base);
      NothingLeft(begun.owed, base, next, text);
      BufferPaid(job, total, before, text, after, base, next);
    } else {
      RestPaid(job, total, before, text, was, after, base, next);
    }
  }

  lemma PrefixRest(f: seq<Byte>, g: seq<Byte>, base: nat, next: nat)
    requires base <= next <= |f| && g == f[..next]
    ensures |g| == next && g[base..] == f[base..next] && (next > 0 ==> g[|g| - 1] == f[next - 1])
  {
  }

  lemma OwedEnds(f: seq<Byte>, s: seq<Byte>, fname: seq<Byte>, base: nat, rest: seq<Byte>)
    requires base <= |f| && f[base..] == rest
    ensures Owed(f, s, fname)[base] == Output(rest, s, fname) && Owed(f, s, fname)[|f|] == []
  {
    assert f[|f|..] == [];
  }

  lemma NothingLeft(owed: seq<seq<Byte>>, base: nat, next: nat, text: seq<Byte>)
    requires Accounts(owed, base, next, text) && owed[next] == []
    ensures owed[base] == text
  {
    assert text + [] == text;
  }

  lemma BufferPaid(job: Search, total: seq<Byte>, before: seq<Byte>, text: seq<Byte>, after: Byte, base: nat, next: nat)
    requires |job.stale| == |job.owed| == |job.f| + 1 && next == base + BUFSIZE <= |job.f| && FullBuffer(job, base)
    requires Due(job, total, before, NEWLINE, base) && text == Output(job.f[base..next], job.s, job.fname)
    requires after == NEWLINE <==> job.f[next - 1] == NEWLINE
    ensures Due(job, total, before + text, after, next)
  {
    Regroup(before, text, if after == NEWLINE then job.stale[next] else job.owed[next]);
  }

  lemma RestPaid(job: Search, total: seq<Byte>, before: seq<Byte>, text: seq<Byte>, was: Byte, after: Byte,
                 base: nat, next: nat)
    requires StaleLedger(job) && Due(job, total, before, was, base)
    requires Accounts(job.owed, base, next, text) && base <= next
    requires (was == NEWLINE ==> |job.f| < base + BUFSIZE) && (after == NEWLINE ==> was == NEWLINE)
    ensures Due(job, total, before + text, after, next)
  {
    assert was == NEWLINE ==> job.stale[base] == job.owed[base] && job.stale[next] == job.owed[next];
    Regroup(before, text, job.owed[next]);
  }

  /** A buffer filled from the file, scanned with or without a stale newline after it. */
  method ScanFilled(data: array<Byte>, last: nat, cnt: nat, s: seq<Byte>, fname: seq<Byte>,
                    ghost job: Search, ghost base: nat, ghost total: seq<Byte>, ghost before: seq<Byte>)
      returns (kept: nat, text: seq<Byte>, ghost next: nat)
    requires data.Length == BUFSIZE + 1 && last <= BUFSIZE && Ready(job, s, fname) && StaleLedger(job)
    requires Buffered(data[..], 0, last, job, base) && (last < BUFSIZE || cnt == 0 ==> base + last == |job.f|)
    requires Due(job, total, before, data[BUFSIZE], base)
    modifies data
    ensures kept < BUFSIZE && next + kept == base + last && (cnt == 0 ==> kept == 0)
    ensures Buffered(data[..], 0, kept, job, next)
    ensures Due(job, total, before + text, data[BUFSIZE], next) && Printable(fname, text)
  {
    ghost var was := data[BUFSIZE];
    ghost var begun := Begin(job, s, fname, base, was == NEWLINE && last == BUFSIZE, data[..], last);
    kept, text := ScanBuffer(data, last, cnt, s, fname, begun, base);
    if job.clean {
      PassPaid(job, begun, total, before, text, was, data[BUFSIZE], base, last, kept);
    }
    next := base + (last - kept);
    KeptBytes(job, begun, data[..], kept, next);
  }

  lemma KeptBytes(job: Search, begun: Search, data: seq<Byte>, kept: nat, base: nat)
    requires begun.f <= job.f && begun.clean == job.clean && Buffered(data, 0, kept, begun, base)
    ensures Buffered(data, 0, kept, job, base)
  {
  }

  /** At the end of the file nothing is owed. */
  lemma AllPaid(job: Search, total: seq<Byte>, out: seq<Byte>, after: Byte)
    requires job.clean && StaleLedger(job) && Due(job, total, out, after, |job.f|) && job.owed[|job.f|] == []
    ensures out == total
  {
    assert job.stale[|job.f|] == job.owed[|job.f|] && out + [] == out;
  }

  /** One turn of the read loop: `before` was printed so far, and `base` bytes of the file are accounted for. */
  method ScanStep(file: OpenFile, data: array<Byte>, last: nat, s: seq<Byte>, fname: seq<Byte>,
                  ghost job: Search, ghost base: nat, ghost total: seq<Byte>, ghost before: seq<Byte>)
      returns (cnt: int, kept: nat, text: seq<Byte>, ghost next: nat)
    requires file.Valid() && data != file.img && data.Length == BUFSIZE + 1 && last < BUFSIZE
    requires job.f == file.Bytes() && Buffered(data[..], 0, last, job, base) && base + last == file.pos
    requires Ready(job, s, fname) && StaleLedger(job) && Due(job, total, before, data[BUFSIZE], base)
    modifies file`pos, data
    ensures file.Valid() && file.img[..] == old(file.img[..]) && file.Bytes() == job.f
    ensures cnt == -1 <==> file.inode >= NumInodes(file.img[..])
    ensures cnt != -1 ==> cnt >= 0 && file.pos == old(file.pos) + cnt
    ensures cnt != -1 ==> kept < BUFSIZE && next + kept == file.pos && Buffered(data[..], 0, kept, job, next)
    ensures cnt != -1 ==> Due(job, total, before + text, data[BUFSIZE], next) && Printable(fname, text)
    ensures cnt == 0 ==> next == |job.f|
  {
    kept, text, next := 0, [], 0;
    cnt := Refill(file, data, last, job, base);
    if cnt != -1 {
      kept, text, next := ScanFilled(data, last + cnt, cnt, s, fname, job, base, total, before);
    }
  }

  /** The read loop of do_one_file; it is to print `total`. */
  method ScanFile(file: OpenFile, data: array<Byte>, s: seq<Byte>, fname: seq<Byte>, ghost job: Search,
                  ghost total: seq<Byte>)
      returns (r: int, out: seq<Byte>)
    requires file.Valid() && file.pos == 0 && data != file.img && job.f == file.Bytes() && data.Length == BUFSIZE + 1
    requires Ready(job, s, fname) && StaleLedger(job) && job.owed[|job.f|] == []
    requires Due(job, total, [], data[BUFSIZE], 0)
    modifies file`pos, data
    ensures r == if file.inode < NumInodes(file.img[..]) then 0 else -1
    ensures r == -1 ==> out == READ_FAILED
    ensures r == 0 ==> (job.clean ==> out == total) && Printable(fname, out)
  {
    out := [];
    var last: nat := 0;
    ghost var base: nat := 0;
    while true
      invariant file.Valid() && last < BUFSIZE && base + last == file.pos && job.f == file.Bytes()
      invariant Buffered(data[..], 0, last, job, base)
      invariant Due(job, total, out, data[BUFSIZE], base) && Printable(fname, out)
      invariant file.inode >= NumInodes(file.img[..]) ==> out == []
      decreases |job.f| - file.pos
    {
      ghost var next;
      var cnt, kept, text;
      cnt, kept, text, next := ScanStep(file, data, last, s, fname, job, base, total, out);
      if cnt == -1 {
        return -1, out + READ_FAILED;
      }
      out, last, base := out + text, kept, next;
      if cnt == 0 {
        break;
      }
    }
    if job.clean {
      AllPaid(job, total, out, data[BUFSIZE]);
    }
    r := 0;
  }

  lemma Open(f: seq<Byte>, s: seq<Byte>, fname: seq<Byte>) returns (job: Search)
    requires 0 !in s
    ensures Ready(job, s, fname) && StaleLedger(job) && job.f == f && (job.clean <==> 0 !in f) && job.owed[|f|] == []
    ensures job.owed[0] == Output(f, s, fname) && job.stale[0] == StaleOutput(f, s, fname)
  {
    job := Opened(f, s, fname, 0 !in f);
    OpenedIsReady(f, s, fname, 0 !in f);
    OpenedIsStaleLedger(f, s, fname, 0 !in f);
    assert f[0..] == f;
  }

  /**
    do_one_file for the pattern `s`. `data` is the buffer as the stack left it; only its last byte
    matters. The report of a NUL-free file is exact; of any file no NUL is ever printed.
   */
  method DoOneFile(file: OpenFile, data: array<Byte>, s: seq<Byte>, fname: seq<Byte>) returns (r: int, out: seq<Byte>)
    requires file.Valid() && file.pos == 0 && data != file.img && data.Length == BUFSIZE + 1 && 0 !in s
    modifies file`pos, data
    ensures r == if file.inode < NumInodes(file.img[..]) then 0 else -1
    ensures r == -1 ==> out == READ_FAILED
    ensures r == 0 && 0 !in old(file.Bytes()) ==>
      out == old(Printed(file.Bytes(), s, fname, data[BUFSIZE] == NEWLINE))
    ensures r == 0 && 0 !in fname ==> 0 !in out
  {
    ghost var job := Open(file.Bytes(), s, fname);
    r, out := ScanFile(file, data, s, fname, job, Printed(job.f, s, fname, data[BUFSIZE] == NEWLINE));
  }
}
