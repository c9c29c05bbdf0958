// One terminal on its own: a screen, the line being edited, and the two flags that
// connect it to a reader. A World is three of these and the one being displayed.

module Tty {
  import opened Memory
  import opened Layout
  import opened Screen

  const BUF_SIZE := 128
  const TERMINALS := 3

  /** A character of the scan-code table other than newline. */
  type Glyph = c: Byte | 32 <= c < 127 witness 32

  datatype Tty = Tty(screen: Screen, line: seq<Byte>, waiting: bool, ready: bool)

  datatype Input =
    | Key(c: Glyph)                  // a printable key
    | Enter
    | Backspace
    | Redraw                         // Ctrl-L
    | Output(bytes: seq<Byte>)       // terminalWrite by a process of this terminal
    | Poke(off: nat, b: Byte)        // a store through the pointer sys_vidmap handed out
    | Await                          // terminalRead begins to wait
    | Collect(nbytes: nat)           // terminalRead copies the line out

  /** The 128-byte keyboard row that holds `line`. */
  function Row(line: seq<Byte>): (r: seq<Byte>)
    requires |line| <= BUF_SIZE
    ensures |r| == BUF_SIZE
  {
    line + Fill(0, BUF_SIZE - |line|)
  }

  /** Number of bytes up to and including the first newline; all of them when there is none. */
  function ThroughNewline(row: seq<Byte>): (n: nat)
    ensures n <= |row|
    ensures forall i :: 0 <= i < n - 1 ==> row[i] != NEWLINE
    ensures NEWLINE in row ==> n > 0 && row[n - 1] == NEWLINE
    ensures NEWLINE !in row ==> n == |row|
  {
    if row == [] then 0
    else if row[0] == NEWLINE then 1
    else
      var n := 1 + ThroughNewline(row[1..]);
      assert row == [row[0]] + row[1..];
      n
  }

  function Min(a: nat, b: nat): nat { if a < b then a else b }

  /** What terminalRead hands to the process. */
  function Collected(line: seq<Byte>, nbytes: nat): seq<Byte>
    requires |line| <= BUF_SIZE
  {
    Row(line)[..Min(nbytes, ThroughNewline(Row(line)))]
  }

  /** The input does not run over the end of the 128-byte row. */
  predicate Fits(t: Tty, e: Input) {
    t.screen.Ok() && |t.line| <= BUF_SIZE &&
    match e
    case Enter => t.waiting ==> |t.line| < BUF_SIZE
    case Collect(nbytes) => t.ready && (NEWLINE in t.line || nbytes <= BUF_SIZE)
    case Poke(off, _) => off < PAGE
    case _ => true
  }

  function Step(t: Tty, e: Input): (r: Tty)
    requires Fits(t, e)
    ensures r.screen.Ok() && |r.line| <= BUF_SIZE
  {
    match e
    case Key(c) => if |t.line| < LINE_MAX then t.(screen := Put(t.screen, c), line := t.line + [c]) else t
    case Enter =>
      var u := t.(screen := Put(t.screen, NEWLINE));
      if t.waiting then u.(line := t.line + [NEWLINE], ready := true) else u.(line := [])
    case Backspace => if t.line == [] then t else t.(screen := Erase(t.screen), line := t.line[..|t.line| - 1])
    case Redraw => t.(screen := PutAll(Clear(t.screen), t.line))
    case Output(bytes) => t.(screen := PutAll(t.screen, bytes))
    case Poke(off, b) => t.(screen := t.screen.(page := t.screen.page[off := b]))
    case Await => t.(waiting := true)
    case Collect(_) => t.(line := [], waiting := false, ready := false)
  }

  ghost predicate FitsAll(t: Tty, es: seq<Input>)
    decreases |es|
  {
    t.screen.Ok() && |t.line| <= BUF_SIZE &&
    (es != [] ==> Fits(t, es[0]) && FitsAll(Step(t, es[0]), es[1..]))
  }

  function Run(t: Tty, es: seq<Input>): (r: Tty)
    requires FitsAll(t, es)
    ensures r.screen.Ok() && |r.line| <= BUF_SIZE
    decreases |es|
  {
    if es == [] then t else Run(Step(t, es[0]), es[1..])
  }

  // ---- The line discipline ----

  predicate NewlineFree(s: seq<Byte>) {
    forall k :: 0 <= k < |s| ==> !Breaks(s[k])
  }

  /** No newline in the buffer until a line is accepted; then exactly one, at its end. */
  ghost predicate Disciplined(t: Tty) {
    t.screen.Ok() &&
    if t.ready then
      t.waiting && 0 < |t.line| <= BUF_SIZE &&
      NewlineFree(t.line[..|t.line| - 1]) && t.line[|t.line| - 1] == NEWLINE
    else |t.line| <= LINE_MAX && NewlineFree(t.line)
  }

  /** The input is not a key that edits a line already accepted but not yet collected. */
  predicate Timely(t: Tty, e: Input) {
    t.ready ==> !e.Enter? && !e.Backspace? && (e.Key? ==> |t.line| >= LINE_MAX)
  }

  /** Exactly the untimely keys break the discipline. */
  lemma StepKeepsDisciplineIff(t: Tty, e: Input)
    requires Disciplined(t) && Fits(t, e)
    ensures Disciplined(Step(t, e)) <==> Timely(t, e)
  {
    if t.ready && !Timely(t, e) {
      var text := t.line[..|t.line| - 1];
      match e
      case Key(c) => assert Step(t, e).line[|t.line|] == c;
      case Enter => assert Step(t, e).line[..|t.line|][|t.line| - 1] == NEWLINE;
      case Backspace =>
        assert Step(t, e).line == text;
        if text != [] { assert !Breaks(text[|text| - 1]); }
    }
  }

  ghost predicate TimelyAll(t: Tty, es: seq<Input>)
    requires t.screen.Ok()
    decreases |es|
  {
    es != [] ==>
      Timely(t, es[0]) &&
      (es[0].Collect? ==> t.ready) && (es[0].Poke? ==> es[0].off < PAGE) &&
      (Fits(t, es[0]) ==> TimelyAll(Step(t, es[0]), es[1..]))
  }

  /** Over any run of timely inputs nothing overruns a row and the discipline holds. */
  lemma {:induction false} DisciplineOverRuns(t: Tty, es: seq<Input>)
    requires Disciplined(t) && TimelyAll(t, es)
    ensures FitsAll(t, es) && Disciplined(Run(t, es))
    decreases |es|
  {
    if es != [] {
      assert t.ready ==> t.line[|t.line| - 1] in t.line;
      StepKeepsDisciplineIff(t, es[0]);
      DisciplineOverRuns(Step(t, es[0]), es[1..]);
    }
  }

  /** A Backspace between Enter and the copy-out takes the stored newline away. */
  lemma UntimelyBackspaceLosesNewline(s: Screen)
    requires s.Ok()
    ensures var t := Tty(s, [], true, false);
      var es := [Key(65), Enter, Backspace];
      Disciplined(t) && FitsAll(t, es) && Run(t, es).ready && NEWLINE !in Run(t, es).line
  {
    var t := Tty(s, [], true, false);
    var t1 := Step(t, Key(65));
    var t2 := Step(t1, Enter);
    var t3 := Step(t2, Backspace);
    assert t3.line == [65];
    assert [Key(65), Enter, Backspace][1..] == [Enter, Backspace];
    assert [Enter, Backspace][1..] == [Backspace];
    assert [Backspace][1..] == [];
    assert FitsAll(t3, []) && FitsAll(t2, [Backspace]) && FitsAll(t1, [Enter, Backspace]);
  }

  // ---- What a reader gets ----

  /** A line editor by itself: characters up to the cap, Backspace drops the last. */
  function Edited(line: seq<Byte>, es: seq<Input>): seq<Byte>
    decreases |es|
  {
    if es == [] then line
    else match es[0]
      case Key(c) => Edited(if |line| < LINE_MAX then line + [c] else line, es[1..])
      case Backspace => Edited(if line == [] then [] else line[..|line| - 1], es[1..])
      case _ => Edited(line, es[1..])
  }

  predicate Editing(es: seq<Input>) {
    forall k :: 0 <= k < |es| ==> !es[k].Enter? && !es[k].Collect? && (es[k].Poke? ==> es[k].off < PAGE)
  }

  lemma {:induction false} EditingEdits(t: Tty, es: seq<Input>)
    requires Disciplined(t) && !t.ready && Editing(es)
    ensures FitsAll(t, es)
    ensures var u := Run(t, es);
      Disciplined(u) && !u.ready && u.line == Edited(t.line, es) && (u.waiting <==> t.waiting || Await in es)
    decreases |es|
  {
    if es != [] {
      StepKeepsDisciplineIff(t, es[0]);
      EditingEdits(Step(t, es[0]), es[1..]);
      assert es == [es[0]] + es[1..];
    }
  }

  lemma CollectedLine(text: seq<Byte>, nbytes: nat)
    requires |text| < BUF_SIZE && NewlineFree(text)
    ensures Collected(text + [NEWLINE], nbytes) == (text + [NEWLINE])[..Min(nbytes, |text| + 1)]
  {
    var row := Row(text + [NEWLINE]);
    var n := ThroughNewline(row);
    assert row[|text|] == NEWLINE && forall i :: 0 <= i < |text| ==> row[i] == text[i];
    assert n >= |text| + 1;
  }

  /** Inputs that leave an accepted line of `n` bytes alone; a full line ignores keys. */
  predicate Idle(es: seq<Input>, n: nat) {
    forall k :: 0 <= k < |es| ==>
      !es[k].Enter? && !es[k].Backspace? && !es[k].Collect? && (es[k].Key? ==> n >= LINE_MAX) &&
      (es[k].Poke? ==> es[k].off < PAGE)
  }

  lemma {:induction false} IdleKeepsLine(t: Tty, es: seq<Input>)
    requires Disciplined(t) && t.ready && Idle(es, |t.line|)
    ensures FitsAll(t, es)
    ensures var u := Run(t, es); u.line == t.line && u.waiting && u.ready
    decreases |es|
  {
    if es != [] {
      StepKeepsDisciplineIff(t, es[0]);
      IdleKeepsLine(Step(t, es[0]), es[1..]);
    }
  }

  lemma {:induction false} RunAppend(t: Tty, a: seq<Input>, b: seq<Input>)
    requires FitsAll(t, a) && FitsAll(Run(t, a), b)
    ensures FitsAll(t, a + b) && Run(t, a + b) == Run(Run(t, a), b)
    decreases |a|
  {
    if a == [] {
      assert a + b == b;
    } else {
      RunAppend(Step(t, a[0]), a[1..], b);
      assert (a + b)[0] == a[0] && (a + b)[1..] == a[1..] + b;
    }
  }

  /** What Enter makes of an edited line: it is accepted for a waiting reader and thrown away without one. */
  lemma EnterAccepts(t: Tty, es: seq<Input>)
    requires Disciplined(t) && !t.ready && Editing(es)
    ensures FitsAll(t, es + [Enter])
    ensures var v, text := Run(t, es + [Enter]), Edited(t.line, es);
      |text| <= LINE_MAX && NewlineFree(text) && Disciplined(v) && (v.ready <==> t.waiting || Await in es) &&
      v.line == if v.ready then text + [NEWLINE] else []
  {
    EditingEdits(t, es);
    var u := Run(t, es);
    StepKeepsDisciplineIff(u, Enter);
    assert [Enter][1..] == [] && FitsAll(Step(u, Enter), []);
    assert FitsAll(u, [Enter]) && Run(u, [Enter]) == Step(u, Enter);
    RunAppend(t, es, [Enter]);
  }

  /** The terminal `v` hands out the first nbytes of `text` and its newline, and is empty afterwards. */
  ghost predicate HandsOut(v: Tty, text: seq<Byte>, nbytes: nat) {
    Fits(v, Collect(nbytes)) && Collected(v.line, nbytes) == (text + [NEWLINE])[..Min(nbytes, |text| + 1)] &&
    var w := Step(v, Collect(nbytes)); w.line == [] && !w.ready && !w.waiting
  }

  /**
    However output, redraws and pokes fall between the keys of a line and between Enter and the
    copy-out, a waiting reader gets the first nbytes of the edited line and its newline.
   */
  lemma ReadReturnsEditedLine(t: Tty, es: seq<Input>, idle: seq<Input>, nbytes: nat)
    requires Disciplined(t) && !t.ready && Editing(es) && (t.waiting || Await in es)
    requires Idle(idle, |Edited(t.line, es)| + 1)
    ensures FitsAll(t, es + [Enter] + idle)
    ensures HandsOut(Run(t, es + [Enter] + idle), Edited(t.line, es), nbytes)
  {
    var text := Edited(t.line, es);
    EnterAccepts(t, es);
    var v := Run(t, es + [Enter]);
    IdleKeepsLine(v, idle);
    RunAppend(t, es + [Enter], idle);
    LineHandedOut(Run(v, idle), text, nbytes);
  }

  lemma LineHandedOut(v: Tty, text: seq<Byte>, nbytes: nat)
    requires v.screen.Ok() && v.ready && |text| <= LINE_MAX && NewlineFree(text) && v.line == text + [NEWLINE]
    ensures HandsOut(v, text, nbytes)
  {
    CollectedLine(text, nbytes);
    assert v.line[|text|] == NEWLINE;
  }

  // ---- Where the keyboard row ends ----

  /** Of a disciplined terminal's inputs exactly one overruns the row: Enter when 128 bytes were accepted. */
  lemma OverrunsIff(t: Tty, e: Input)
    requires Disciplined(t) && (e.Collect? ==> t.ready) && (e.Poke? ==> e.off < PAGE)
    ensures Fits(t, e) <==> !(e.Enter? && t.ready && |t.line| == BUF_SIZE)
  {
    assert t.ready ==> t.line[|t.line| - 1] in t.line;
  }

  /** A full line and two Enters before the copy-out get there. */
  lemma UntimelyEnterOverruns(s: Screen)
    requires s.Ok()
    ensures var t := Tty(s, Fill(65, LINE_MAX), true, false);
      Disciplined(t) && FitsAll(t, [Enter]) && !Fits(Run(t, [Enter]), Enter)
  {
    var t := Tty(s, Fill(65, LINE_MAX), true, false);
    assert [Enter][1..] == [] && FitsAll(Step(t, Enter), []);
  }

  // ---- What the user sees while typing ----

  /** A process writes to the screen only while no line is half typed. */
  predicate Quiet(t: Tty, e: Input) {
    (e.Output? || e.Poke?) && !t.ready ==> t.line == []
  }

  ghost predicate EchoAgrees(t: Tty) {
    Disciplined(t) && (!t.ready ==> Echo(t.screen, t.line))
  }

  lemma StepKeepsEcho(t: Tty, e: Input)
    requires EchoAgrees(t) && Fits(t, e) && Timely(t, e) && Quiet(t, e)
    ensures EchoAgrees(Step(t, e))
  {
    StepKeepsDisciplineIff(t, e);
    if !t.ready {
      match e
      case Key(c) => PutKeepsEcho(t.screen, t.line, c);
      case Backspace => if t.line != [] { EraseKeepsEcho(t.screen, t.line); }
      case Redraw => RedrawEchoes(t.screen, t.line);
      case _ =>
    }
  }

  ghost predicate QuietAll(t: Tty, es: seq<Input>)
    requires FitsAll(t, es)
    decreases |es|
  {
    es != [] ==> Quiet(t, es[0]) && QuietAll(Step(t, es[0]), es[1..])
  }

  /** Typing, wrapping, scrolling, erasing across a row edge and redrawing keep line and screen in step. */
  lemma {:induction false} EchoOverRuns(t: Tty, es: seq<Input>)
    requires EchoAgrees(t) && TimelyAll(t, es) && FitsAll(t, es) && QuietAll(t, es)
    ensures EchoAgrees(Run(t, es))
    decreases |es|
  {
    if es != [] {
      StepKeepsEcho(t, es[0]);
      EchoOverRuns(Step(t, es[0]), es[1..]);
    }
  }

  /** A key is stored and shown at the cursor, the screen moving up at its end; the 128th is ignored. */
  lemma KeyShows(t: Tty, c: Glyph, p: nat)
    requires t.screen.Ok() && |t.line| <= 128 && p < 2000
    ensures var u, up := Step(t, Key(c)), if t.screen.Pos() == 1999 then 80 else 0;
      if |t.line| >= 127 then u == t
      else
        u.line == t.line + [c] && u.screen.Pos() == t.screen.Pos() + 1 - up &&
        u.screen.Cell(p) ==
          if p + up >= 2000 then 32 else if p + up == t.screen.Pos() then c else t.screen.Cell(p + up)
  {
    PutCell(t.screen, c, p);
  }

  /** Enter puts the cursor at the start of the next row, the screen moving up at its end. */
  lemma EnterShows(t: Tty, p: nat)
    requires Fits(t, Enter) && p < 2000
    ensures var u, up := Step(t, Enter), if t.screen.Pos() >= 1920 then 80 else 0;
      u.screen.Pos() == t.screen.Pos() - t.screen.x + 80 - up &&
      u.screen.Cell(p) == if p + up >= 2000 then 32 else t.screen.Cell(p + up)
  {
    PutCell(t.screen, NEWLINE, p);
  }

  /** Backspace takes the last character off line and screen: its cell is blank, and every other cell as it was. */
  lemma BackspaceErases(t: Tty, p: nat)
    requires EchoAgrees(t) && !t.ready && t.line != [] && p < 2000
    ensures var u := Step(t, Backspace);
      t.screen.Cell(t.screen.Pos() - 1) == t.line[|t.line| - 1] && u.line == t.line[..|t.line| - 1] &&
      u.screen.Pos() == t.screen.Pos() - 1 &&
      u.screen.Cell(p) == if p == t.screen.Pos() - 1 then 32 else t.screen.Cell(p)
  {
    EraseShows(t.screen, p);
    var k := |t.line| - 1;
    assert t.screen.Cell(t.screen.Pos() - |t.line| + k) == t.line[k];
  }

  /** Backspace on an empty line does nothing at all. */
  lemma EmptyBackspace(t: Tty)
    requires t.screen.Ok() && t.line == []
    ensures Step(t, Backspace) == t
  {
  }

  /** Ctrl-L leaves the line being edited, at the top left, and nothing else on the screen. */
  lemma RedrawLeavesLine(t: Tty)
    requires Disciplined(t) && !t.ready
    ensures var u := Step(t, Redraw); ShowsOnly(u.screen, t.line) && u.line == t.line
  {
    RedrawShows(t.screen, t.line);
  }

  /** And in any state the layout of the buffered bytes on a blank sheet. */
  lemma RedrawIsLayout(t: Tty)
    requires t.screen.Ok() && |t.line| <= BUF_SIZE
    ensures Blank(Clear(t.screen)) && Shows(Clear(t.screen), Step(t, Redraw).screen, t.line)
  {
    ClearIsBlank(t.screen);
    ScreenIsWindowOfLayout(Clear(t.screen), t.line);
  }

  lemma StepKeepsBlankAhead(t: Tty, e: Input)
    requires BlankAhead(t.screen) && Fits(t, e) && !e.Poke?
    ensures BlankAhead(Step(t, e).screen)
  {
    match e
    case Key(c) => PutKeepsBlankAhead(t.screen, c);
    case Enter => PutKeepsBlankAhead(t.screen, NEWLINE);
    case Backspace => EraseKeepsBlankAhead(t.screen);
    case Redraw =>
      ClearIsBlank(t.screen);
      PutAllKeepsBlankAhead(Clear(t.screen), t.line);
    case Output(bytes) => PutAllKeepsBlankAhead(t.screen, bytes);
    case _ =>
  }

  /**
    On a screen that was blank from the cursor on, no keys and no output leave anything from the cursor
    on: what was erased stays erased.
   */
  lemma {:induction false} BlankAheadOverRuns(t: Tty, es: seq<Input>)
    requires BlankAhead(t.screen) && FitsAll(t, es) && forall k :: 0 <= k < |es| ==> !es[k].Poke?
    ensures BlankAhead(Run(t, es).screen)
    decreases |es|
  {
    if es != [] {
      StepKeepsBlankAhead(t, es[0]);
      BlankAheadOverRuns(Step(t, es[0]), es[1..]);
    }
  }

  lemma StepKeepsGrey(t: Tty, e: Input)
    requires Grey(t.screen) && Fits(t, e) && !e.Poke?
    ensures Grey(Step(t, e).screen)
  {
    match e
    case Key(c) => PutKeepsGrey(t.screen, c);
    case Enter => PutKeepsGrey(t.screen, NEWLINE);
    case Backspace =>
      PutKeepsGrey(t.screen, SPACE);
      PutKeepsGrey(Back(t.screen), SPACE);
      PutKeepsGrey(Put(Back(t.screen), SPACE), SPACE);
    case Redraw =>
      PutKeepsGrey(t.screen, SPACE);
      PutAllKeepsGrey(Clear(t.screen), t.line);
    case Output(bytes) => PutAllKeepsGrey(t.screen, bytes);
    case _ =>
  }

  /** Over any run of keys and output everything on the screen stays visible. */
  lemma {:induction false} GreyOverRuns(t: Tty, es: seq<Input>)
    requires Grey(t.screen) && FitsAll(t, es) && forall k :: 0 <= k < |es| ==> !es[k].Poke?
    ensures Grey(Run(t, es).screen)
    decreases |es|
  {
    if es != [] {
      StepKeepsGrey(t, es[0]);
      GreyOverRuns(Step(t, es[0]), es[1..]);
    }
  }

  // ---- Three terminals and one display ----

  datatype World = World(ttys: seq<Tty>, shown: nat) {
    predicate Ok() {
      |ttys| == TERMINALS && shown < TERMINALS &&
      forall t :: 0 <= t < TERMINALS ==> ttys[t].screen.Ok() && |ttys[t].line| <= BUF_SIZE
    }
  }

  datatype Event =
    | Typed(e: Input)              // from the keyboard: Key, Enter, Backspace or Redraw
    | Program(t: nat, e: Input)    // by a process of terminal t: Output, Poke, Await or Collect
    | Switch(to: nat)              // Alt-F1 to Alt-F3

  predicate Possible(w: World, ev: Event) {
    w.Ok() &&
    match ev
    case Typed(e) => (e.Key? || e.Enter? || e.Backspace? || e.Redraw?) && Fits(w.ttys[w.shown], e)
    case Program(t, e) => t < TERMINALS && (e.Output? || e.Poke? || e.Await? || e.Collect?) && Fits(w.ttys[t], e)
    case Switch(to) => to < TERMINALS
  }

  function StepWorld(w: World, ev: Event): (r: World)
    requires Possible(w, ev)
    ensures r.Ok()
  {
    match ev
    case Typed(e) => w.(ttys := w.ttys[w.shown := Step(w.ttys[w.shown], e)])
    case Program(t, e) => w.(ttys := w.ttys[t := Step(w.ttys[t], e)])
    case Switch(to) => w.(shown := to)
  }

  ghost predicate PossibleAll(w: World, evs: seq<Event>)
    decreases |evs|
  {
    w.Ok() && (evs != [] ==> Possible(w, evs[0]) && PossibleAll(StepWorld(w, evs[0]), evs[1..]))
  }

  function RunWorld(w: World, evs: seq<Event>): (r: World)
    requires PossibleAll(w, evs)
    ensures r.Ok()
    decreases |evs|
  {
    if evs == [] then w else RunWorld(StepWorld(w, evs[0]), evs[1..])
  }

  /** The inputs of terminal `t` within `evs`, when `shown` is displayed at the start. */
  function Inputs(shown: nat, evs: seq<Event>, t: nat): seq<Input>
    decreases |evs|
  {
    if evs == [] then []
    else match evs[0]
      case Typed(e) => (if shown == t then [e] else []) + Inputs(shown, evs[1..], t)
      case Program(u, e) => (if u == t then [e] else []) + Inputs(shown, evs[1..], t)
      case Switch(to) => Inputs(to, evs[1..], t)
  }

  /** Each terminal ends up exactly as a dedicated one would that got only its own inputs. */
  lemma {:induction false} TerminalsAreIndependent(w: World, evs: seq<Event>, t: nat)
    requires PossibleAll(w, evs) && t < TERMINALS
    ensures FitsAll(w.ttys[t], Inputs(w.shown, evs, t))
    ensures RunWorld(w, evs).ttys[t] == Run(w.ttys[t], Inputs(w.shown, evs, t))
    decreases |evs|
  {
    if evs != [] {
      var next := StepWorld(w, evs[0]);
      TerminalsAreIndependent(next, evs[1..], t);
      var rest := Inputs(next.shown, evs[1..], t);
      match evs[0]
      case Typed(e) => assert ([e] + rest)[1..] == rest && [] + rest == rest;
      case Program(_, e) => assert ([e] + rest)[1..] == rest && [] + rest == rest;
      case Switch(_) =>
    }
  }

  /** So the agreement of line and screen holds for each terminal in any interleaving of all three. */
  lemma EchoInAnyInterleaving(w: World, evs: seq<Event>, t: nat)
    requires PossibleAll(w, evs) && t < TERMINALS && EchoAgrees(w.ttys[t])
    requires TimelyAll(w.ttys[t], Inputs(w.shown, evs, t))
    requires FitsAll(w.ttys[t], Inputs(w.shown, evs, t)) ==> QuietAll(w.ttys[t], Inputs(w.shown, evs, t))
    ensures EchoAgrees(RunWorld(w, evs).ttys[t])
  {
    TerminalsAreIndependent(w, evs, t);
    EchoOverRuns(w.ttys[t], Inputs(w.shown, evs, t));
  }

  /** And a reader gets its line in any interleaving of all three. */
  lemma ReadInAnyInterleaving(w: World, evs: seq<Event>, t: nat, es: seq<Input>, idle: seq<Input>, nbytes: nat)
    requires PossibleAll(w, evs) && t < TERMINALS && Disciplined(w.ttys[t]) && !w.ttys[t].ready
    requires Inputs(w.shown, evs, t) == es + [Enter] + idle && Editing(es) && (w.ttys[t].waiting || Await in es)
    requires Idle(idle, |Edited(w.ttys[t].line, es)| + 1)
    ensures HandsOut(RunWorld(w, evs).ttys[t], Edited(w.ttys[t].line, es), nbytes)
  {
    TerminalsAreIndependent(w, evs, t);
    ReadReturnsEditedLine(w.ttys[t], es, idle, nbytes);
  }

  /** Nor does anything stay from the cursor on. */
  lemma BlankAheadInAnyInterleaving(w: World, evs: seq<Event>, t: nat)
    requires PossibleAll(w, evs) && t < TERMINALS && BlankAhead(w.ttys[t].screen)
    requires forall k :: 0 <= k < |Inputs(w.shown, evs, t)| ==> !Inputs(w.shown, evs, t)[k].Poke?
    ensures BlankAhead(RunWorld(w, evs).ttys[t].screen)
  {
    TerminalsAreIndependent(w, evs, t);
    BlankAheadOverRuns(w.ttys[t], Inputs(w.shown, evs, t));
  }

  /**
    A store through the pointer of sys_vidmap arrives: whatever the other terminals do and whichever is
    displayed, exactly the byte at that offset of this terminal's page changes.
   */
  lemma StoreArrives(w: World, evs: seq<Event>, t: nat, off: nat, b: Byte)
    requires PossibleAll(w, evs) && t < TERMINALS && Inputs(w.shown, evs, t) == [Poke(off, b)]
    ensures off < 4096
    ensures var now, was := RunWorld(w, evs).ttys[t], w.ttys[t];
      now.screen.page[off] == b && now.screen.x == was.screen.x && now.screen.y == was.screen.y &&
      now.line == was.line && forall i :: 0 <= i < 4096 && i != off ==> now.screen.page[i] == was.screen.page[i]
  {
    TerminalsAreIndependent(w, evs, t);
    assert [Poke(off, b)][1..] == [];
  }

  // ---- The layout of everything printed ----

  /** The bytes an input sends to the screen. */
  function PrintedBy(t: Tty, e: Input): seq<Byte> {
    match e
    case Key(c) => if |t.line| < LINE_MAX then [c] else []
    case Enter => [NEWLINE]
    case Output(bytes) => bytes
    case _ => []
  }

  ghost function Printed(t: Tty, es: seq<Input>): seq<Byte>
    requires FitsAll(t, es)
    decreases |es|
  {
    if es == [] then [] else PrintedBy(t, es[0]) + Printed(Step(t, es[0]), es[1..])
  }

  /** Nothing is erased, redrawn or poked. */
  predicate PrintsOnly(es: seq<Input>) {
    forall k :: 0 <= k < |es| ==> !es[k].Backspace? && !es[k].Redraw? && !es[k].Poke?
  }

  lemma {:induction false} PutAllAppend(s: Screen, a: seq<Byte>, b: seq<Byte>)
    requires s.Ok()
    ensures PutAll(s, a + b) == PutAll(PutAll(s, a), b)
    decreases |b|
  {
    if b == [] {
      assert a + b == a;
    } else {
      var last := |b| - 1;
      assert (a + b)[..|a + b| - 1] == a + b[..last];
      PutAllAppend(s, a, b[..last]);
    }
  }

  lemma {:induction false} RunPrints(t: Tty, es: seq<Input>)
    requires FitsAll(t, es) && PrintsOnly(es)
    ensures Run(t, es).screen == PutAll(t.screen, Printed(t, es))
    decreases |es|
  {
    if es != [] {
      var next := Step(t, es[0]);
      RunPrints(next, es[1..]);
      PutAllAppend(t.screen, PrintedBy(t, es[0]), Printed(next, es[1..]));
      StepPrints(t, es[0]);
    }
  }

  lemma StepPrints(t: Tty, e: Input)
    requires Fits(t, e) && !e.Backspace? && !e.Redraw? && !e.Poke?
    ensures Step(t, e).screen == PutAll(t.screen, PrintedBy(t, e))
  {
    var bytes := PrintedBy(t, e);
    if |bytes| == 1 {
      assert bytes[..0] == [] && PutAll(t.screen, []) == t.screen;
    }
  }

  /** Each terminal, whatever it held, shows the window of the layout of its own keys and output. */
  lemma LayoutInAnyInterleaving(w: World, evs: seq<Event>, t: nat)
    requires PossibleAll(w, evs) && t < TERMINALS && PrintsOnly(Inputs(w.shown, evs, t))
    ensures FitsAll(w.ttys[t], Inputs(w.shown, evs, t))
    ensures Shows(w.ttys[t].screen, RunWorld(w, evs).ttys[t].screen, Printed(w.ttys[t], Inputs(w.shown, evs, t)))
  {
    TerminalsAreIndependent(w, evs, t);
    RunPrints(w.ttys[t], Inputs(w.shown, evs, t));
    ScreenIsWindowOfLayout(w.ttys[t].screen, Printed(w.ttys[t], Inputs(w.shown, evs, t)));
  }
}
