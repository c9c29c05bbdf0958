// The console as the kernel implements it: one display page and three backing pages of
// video memory, cursors per terminal, three keyboard rows, and the user page-table
// entries behind sys_vidmap. Every routine is shown to act on the three dedicated
// terminals of module Tty.

module Terminals {
  import opened Memory
  import opened Layout
  import opened Screen
  import opened Tty

  const VIDEO := 0xB8000

  /** Page `p` of the video memory `m`: 0 is the display, t + 1 backs terminal t. */
  ghost function PageOf(m: seq<Byte>, p: nat): (page: seq<Byte>)
    requires |m| == 4 * PAGE && p < 4
    ensures |page| == PAGE
  {
    m[PAGE * p..PAGE * p + PAGE]
  }

  lemma BlitInPage(m: seq<Byte>, p: nat, off: nat, t: seq<Byte>)
    requires |m| == 4 * PAGE && p < 4 && off + |t| <= PAGE
    ensures var r := Blit(m, PAGE * p + off, t);
      PageOf(r, p) == Blit(PageOf(m, p), off, t) &&
      forall q :: 0 <= q < 4 && q != p ==> PageOf(r, q) == PageOf(m, q)
  {
    var r := Blit(m, PAGE * p + off, t);
    forall q | 0 <= q < 4 && q != p ensures PageOf(r, q) == PageOf(m, q) {
      assert forall i :: 0 <= i < PAGE ==> PageOf(r, q)[i] == m[PAGE * q + i];
    }
  }

  /** text_shift_up part way: rows moved up, the bottom row blank from column `i` on. */
  ghost function Shifted(was: seq<Byte>, i: nat): (page: seq<Byte>)
    requires |was| == PAGE
    ensures |page| == PAGE
  {
    seq(PAGE, k requires 0 <= k < PAGE =>
      if k < 3840 then was[k + 160]
      else if 3840 + 2 * i <= k < 4000 && k % 2 == 0 then SPACE
      else was[k])
  }

  lemma ShiftedStep(was: seq<Byte>, i: nat)
    requires |was| == PAGE && i < COLS
    ensures Shifted(was, i) == Shifted(was, i + 1)[2 * (i + COLS * (ROWS - 1)) := SPACE]
  {
  }

  lemma ShiftedIsScroll(was: seq<Byte>)
    requires |was| == PAGE
    ensures Shifted(was, 0) == Scroll(was)
    ensures Shifted(was, COLS) == Blit(was, 0, was[160..4000])
  {
  }

  /** clear part way: the first `i` cells blank. */
  ghost function Cleared(was: seq<Byte>, i: nat): (page: seq<Byte>)
    requires |was| == PAGE
    ensures |page| == PAGE
  {
    seq(PAGE, k requires 0 <= k < PAGE => if k >= 2 * i then was[k] else if k % 2 == 0 then SPACE else ATTRIB)
  }

  lemma ClearedStep(was: seq<Byte>, i: nat)
    requires |was| == PAGE && i < ROWS * COLS
    ensures Cleared(was, i + 1) == Cleared(was, i)[2 * i := SPACE][2 * i + 1 := ATTRIB]
    ensures Cleared(was, 0) == was
  {
  }

  /** Events as KBhandler decodes them from scan codes and modifiers. */
  datatype KeyEvent = Character(c: Glyph) | EnterKey | BackspaceKey | CtrlL | AltF(t: nat)

  function Meaning(key: KeyEvent): Event {
    match key
    case Character(c) => Typed(Key(c))
    case EnterKey => Typed(Enter)
    case BackspaceKey => Typed(Backspace)
    case CtrlL => Typed(Redraw)
    case AltF(t) => Switch(t)
  }

  class Terminals {
    const mem: array<Byte>
    const screenX: array<int>
    const screenY: array<int>
    const kbBuf: array<Byte>
    const bufLoc: array<int>
    const readWaiting: array<bool>
    const readReady: array<bool>
    const userPage: array<int>      // the video page that user page-table entry t maps
    var current: int

    ghost predicate Shaped() {
      mem.Length == 4 * PAGE && kbBuf.Length == TERMINALS * BUF_SIZE && mem != kbBuf &&
      screenX.Length == screenY.Length == bufLoc.Length == userPage.Length == TERMINALS &&
      readWaiting.Length == readReady.Length == TERMINALS && readWaiting != readReady &&
      screenX != screenY && screenX != bufLoc && screenX != userPage &&
      screenY != bufLoc && screenY != userPage && bufLoc != userPage
    }

    /** Boot: clear, init_paging and terminalOpen. The backing pages hold whatever memory held. */
    constructor Boot()
      ensures Valid() && current == 0 && Blank(Logical(0))
      ensures forall t :: 0 <= t < TERMINALS ==> bufLoc[t] == 0 && !readWaiting[t] && !readReady[t]
      ensures fresh(mem) && fresh(screenX) && fresh(screenY) && fresh(kbBuf) && fresh(bufLoc)
      ensures fresh(readWaiting) && fresh(readReady) && fresh(userPage)
    {
      mem, kbBuf := new Byte[4 * PAGE], new Byte[TERMINALS * BUF_SIZE](_ => 0);
      screenX, screenY := new int[TERMINALS](_ => 0), new int[TERMINALS](_ => 0);
      bufLoc, userPage := new int[TERMINALS](_ => 0), new int[TERMINALS](i => if i == 0 then 0 else i + 1);
      readWaiting, readReady := new bool[TERMINALS](_ => false), new bool[TERMINALS](_ => false);
      current := 0;
      new;
      assert Shaped();
      StartUp();
    }

    method StartUp()
      requires Shaped() && current == 0
      requires forall t :: 0 <= t < TERMINALS ==> screenX[t] == 0 && screenY[t] == 0 && bufLoc[t] == 0
      requires forall t :: 0 <= t < TERMINALS ==> userPage[t] == if t == 0 then 0 else t + 1
      requires forall i :: 0 <= i < kbBuf.Length ==> kbBuf[i] == 0
      modifies mem, screenX, screenY
      ensures Valid() && Blank(Logical(0))
    {
      forall t | 0 <= t < TERMINALS ensures Logical(t).Ok() && userPage[t] == Home(t) && KeyRow(t) {
      }
      ClearIsBlank(Logical(0));
      ClearDisplay();
    }

    ghost function Page(p: nat): (page: seq<Byte>)
      requires Shaped() && p < 4
      reads mem
      ensures |page| == PAGE
    {
      PageOf(mem[..], p)
    }

    /** The page that is terminal t's screen. */
    ghost function Home(t: nat): (p: nat)
      requires t < TERMINALS
      reads this
      ensures p < 4
    {
      if t == current then 0 else t + 1
    }

    ghost function Logical(t: nat): (s: Screen)
      requires Shaped() && t < TERMINALS
      reads this, mem, screenX, screenY
    {
      Screen(Page(Home(t)), screenX[t], screenY[t])
    }

    ghost function KeyBytes(t: nat): (row: seq<Byte>)
      requires Shaped() && t < TERMINALS
      reads kbBuf
      ensures |row| == BUF_SIZE
    {
      kbBuf[BUF_SIZE * t..BUF_SIZE * t + BUF_SIZE]
    }

    ghost predicate KeyRow(t: nat)
      requires Shaped() && t < TERMINALS
      reads kbBuf, bufLoc
    {
      0 <= bufLoc[t] <= BUF_SIZE && forall k :: bufLoc[t] <= k < BUF_SIZE ==> KeyBytes(t)[k] == 0
    }

    ghost function Line(t: nat): (line: seq<Byte>)
      requires Shaped() && t < TERMINALS && KeyRow(t)
      reads kbBuf, bufLoc
    {
      KeyBytes(t)[..bufLoc[t]]
    }

    ghost predicate Screens()
      reads this, mem, screenX, screenY, userPage
    {
      Shaped() && 0 <= current < TERMINALS &&
      forall t :: 0 <= t < TERMINALS ==> Logical(t).Ok() && userPage[t] == Home(t)
    }

    ghost predicate Rows()
      reads kbBuf, bufLoc
    {
      Shaped() && forall t :: 0 <= t < TERMINALS ==> KeyRow(t)
    }

    ghost predicate Valid()
      reads this, mem, screenX, screenY, kbBuf, bufLoc, userPage
    {
      Screens() && Rows()
    }

    ghost function TtyAt(t: nat): (r: Tty)
      requires Valid() && t < TERMINALS
      reads this, mem, screenX, screenY, kbBuf, bufLoc, userPage, readWaiting, readReady
    {
      Tty(Logical(t), Line(t), readWaiting[t], readReady[t])
    }

    ghost function View(): (w: World)
      requires Valid()
      reads this, mem, screenX, screenY, kbBuf, bufLoc, userPage, readWaiting, readReady
      ensures w.Ok() && w.shown == current
      ensures forall u {:trigger w.ttys[u]} :: 0 <= u < TERMINALS ==> w.ttys[u] == TtyAt(u)
    {
      assert Logical(0).Ok() && Logical(1).Ok() && Logical(2).Ok() && KeyRow(0) && KeyRow(1) && KeyRow(2);
      World([TtyAt(0), TtyAt(1), TtyAt(2)], current)
    }

    /**
      Where everything lies: the display page shows the terminal that `current` names, the others are kept
      on their backing pages, and each user page-table entry maps the page its terminal is on.
     */
    lemma Placement(t: nat)
      requires Valid() && t < TERMINALS
      ensures View().ttys[View().shown].screen.page == mem[..4096]
      ensures t == current ==> userPage[t] == 0
      ensures t != current ==>
        userPage[t] == t + 1 && View().ttys[t].screen.page == mem[4096 * t + 4096..4096 * t + 8192]
      ensures View().ttys[t].screen.x == screenX[t] && View().ttys[t].screen.y == screenY[t]
      ensures 0 <= bufLoc[t] <= 128 && View().ttys[t].line == kbBuf[128 * t..128 * t + bufLoc[t]]
      ensures forall i :: 128 * t + bufLoc[t] <= i < 128 * t + 128 ==> kbBuf[i] == 0
    {
      assert View().ttys[current] == TtyAt(current) && View().ttys[t] == TtyAt(t);
      assert Logical(t).Ok() && userPage[t] == Home(t) && KeyRow(t);
      assert mem[..][0..4096] == mem[..4096];
      assert mem[..][4096 * t + 4096..4096 * t + 8192] == mem[4096 * t + 4096..4096 * t + 8192];
      SliceOfSlice(kbBuf[..], 128 * t, 128 * t + 128, 0, bufLoc[t]);
      assert kbBuf[..][128 * t..128 * t + bufLoc[t]] == kbBuf[128 * t..128 * t + bufLoc[t]];
      assert kbBuf[..][128 * t..128 * t + 128] == KeyBytes(t);
      forall i | 128 * t + bufLoc[t] <= i < 128 * t + 128 ensures kbBuf[i] == 0 {
        assert KeyBytes(t)[i - 128 * t] == kbBuf[i];
      }
    }

    // ---- lib.c: writing characters ----

    method Store(p: nat, off: nat, b: Byte)
      requires Shaped() && p < 4 && off < PAGE
      modifies mem
      ensures Page(p) == old(Page(p))[off := b]
      ensures forall q :: 0 <= q < 4 && q != p ==> Page(q) == old(Page(q))
    {
      BlitInPage(mem[..], p, off, [b]);
      mem[PAGE * p + off] := b;
      assert mem[..] == Blit(old(mem[..]), PAGE * p + off, [b]);
    }

    method ShiftPage(p: nat)
      requires Shaped() && p < 4
      modifies mem
      ensures Page(p) == Blit(old(Page(p)), 0, old(Page(p))[160..4000])
      ensures forall q :: 0 <= q < 4 && q != p ==> Page(q) == old(Page(q))
    {
      BlitInPage(mem[..], p, 0, mem[PAGE * p + 160..PAGE * p + 4000]);
      assert mem[PAGE * p + 160..PAGE * p + 4000] == Page(p)[160..4000] by {
        SliceOfSlice(mem[..], PAGE * p, PAGE * p + PAGE, 160, 4000);
        assert mem[..][PAGE * p + 160..PAGE * p + 4000] == mem[PAGE * p + 160..PAGE * p + 4000];
      }
      Memmove(mem, PAGE * p, PAGE * p + (COLS * 2), COLS * (ROWS - 1) * 2);
    }

    /** text_shift_up: terminal t's backing page, and the display too when it shows t. */
    method TextShiftUp(t: nat)
      requires Shaped() && t < TERMINALS
      modifies mem
      ensures Page(t + 1) == Scroll(old(Page(t + 1)))
      ensures Page(0) == if t == current then Scroll(old(Page(0))) else old(Page(0))
      ensures forall q :: 1 <= q < 4 && q != t + 1 ==> Page(q) == old(Page(q))
    {
      ghost var back, front := Page(t + 1), Page(0);
      ShiftedIsScroll(back);
      ShiftedIsScroll(front);
      ShiftPage(t + 1);
      if t == current {
        ShiftPage(0);
      }
      for i := COLS downto 0
        invariant Page(t + 1) == Shifted(back, i)
        invariant Page(0) == if t == current then Shifted(front, i) else front
        invariant forall q :: 1 <= q < 4 && q != t + 1 ==> Page(q) == old(Page(q))
      {
        var off := 2 * (i + COLS * (ROWS - 1));
        Store(t + 1, off, SPACE);
        if t == current {
          Store(0, off, SPACE);
        }
        ShiftedStep(back, i);
        ShiftedStep(front, i);
      }
    }

    /** A character and its attribute. */
    method Draw(p: nat, off: nat, c: Byte)
      requires Shaped() && p < 4 && off + 1 < PAGE
      modifies mem
      ensures Page(p) == old(Page(p))[off := c][off + 1 := ATTRIB]
      ensures forall q :: 0 <= q < 4 && q != p ==> Page(q) == old(Page(q))
    {
      Store(p, off, c);
      Store(p, off + 1, ATTRIB);
    }

    /** The common tail of putc and KBputc: a cursor below the last row scrolls the terminal. */
    method FinishRow(t: nat)
      requires Shaped() && t < TERMINALS && 0 <= screenX[t] < COLS && 0 <= screenY[t] <= ROWS
      modifies mem, screenY
      ensures Logical(t) == Settle(old(Page(Home(t))), screenX[t], old(screenY[t]))
      ensures forall u :: 0 <= u < TERMINALS && u != t ==> screenY[u] == old(screenY[u])
      ensures forall u :: 0 <= u < TERMINALS && u != t ==> Page(Home(u)) == old(Page(Home(u)))
    {
      if screenY[t] >= ROWS {
        TextShiftUp(t);
        screenY[t] := screenY[t] - 1;
      }
    }

    /** The cursor step after a character. */
    method Forward(t: nat)
      requires Shaped() && t < TERMINALS && 0 <= screenX[t] < COLS
      modifies screenX, screenY
      ensures screenX[t] == (old(screenX[t]) + 1) % COLS
      ensures screenY[t] == old(screenY[t]) + if screenX[t] == 0 then 1 else 0
      ensures forall u :: 0 <= u < TERMINALS && u != t ==>
        screenX[u] == old(screenX[u]) && screenY[u] == old(screenY[u])
    {
      screenX[t] := screenX[t] + 1;
      screenX[t] := screenX[t] % COLS;
      if screenX[t] == 0 {
        screenY[t] := screenY[t] + 1;
      }
    }

    /** The character written at the cursor: to the display if it shows `t`, and to the backing page if `backing`. */
    method DrawAtCursor(t: nat, c: Byte, backing: bool)
      requires Shaped() && t < TERMINALS && Logical(t).Ok() && (backing || t == current)
      modifies mem
      ensures Logical(t) == old(Drawn(Logical(t), c))
      ensures forall u :: 0 <= u < TERMINALS && u != t ==> Page(Home(u)) == old(Page(Home(u)))
    {
      var off: nat := 2 * (COLS * screenY[t] + screenX[t]);
      if backing {
        Draw(t + 1, off, c);
      }
      if t == current {
        Draw(0, off, c);
      }
    }

    /** putc, for a process of terminal `t`: the backing page, and the display when it shows t. */
    method Putc(t: nat, c: Byte)
      requires Screens() && t < TERMINALS
      modifies mem, screenX, screenY
      ensures Screens() && Logical(t) == Put(old(Logical(t)), c)
      ensures forall u :: 0 <= u < TERMINALS && u != t ==> Logical(u) == old(Logical(u))
    {
      assert Logical(t).Ok();
      if Breaks(c) {
        screenY[t] := screenY[t] + 1;
        screenX[t] := 0;
      } else {
        DrawAtCursor(t, c, true);
        Forward(t);
      }
      FinishRow(t);
    }

    /** KBputc: the display only, with the cursor of the terminal it shows. */
    method KBputc(c: Byte)
      requires Screens()
      modifies mem, screenX, screenY
      ensures Screens() && Logical(current) == Put(old(Logical(current)), c)
      ensures forall u :: 0 <= u < TERMINALS && u != current ==> Logical(u) == old(Logical(u))
    {
      assert Logical(current).Ok();
      if Breaks(c) {
        screenY[current] := screenY[current] + 1;
        screenX[current] := 0;
      } else {
        DrawAtCursor(current, c, false);
        Forward(current);
      }
      FinishRow(current);
    }

    method BackChar()
      requires Screens()
      modifies screenX, screenY
      ensures Screens() && Logical(current) == Back(old(Logical(current)))
      ensures forall u :: 0 <= u < TERMINALS && u != current ==> Logical(u) == old(Logical(u))
    {
      assert Logical(current).Ok();
      if screenX[current] == 0 {
        if screenY[current] == 0 {
          return;
        }
        screenY[current] := screenY[current] - 1;
        screenX[current] := COLS - 1;
        return;
      }
      screenX[current] := screenX[current] - 1;
    }

    method EraseChar()
      requires Screens()
      modifies mem, screenX, screenY
      ensures Screens() && Logical(current) == Erase(old(Logical(current)))
      ensures forall u :: 0 <= u < TERMINALS && u != current ==> Logical(u) == old(Logical(u))
    {
      BackChar();
      KBputc(SPACE);
      BackChar();
    }

    /** clear: blanks the display and homes the cursor of the terminal it shows. */
    method ClearDisplay()
      requires Screens()
      modifies mem, screenX, screenY
      ensures Screens() && Logical(current) == Clear(old(Logical(current)))
      ensures forall u :: 0 <= u < TERMINALS && u != current ==> Logical(u) == old(Logical(u))
    {
      screenY[current] := 0;
      screenX[current] := 0;
      ghost var was, s := Page(0), old(Logical(current));
      assert s.Ok() && s.page == was;
      ClearedStep(was, 0);
      for i := 0 to ROWS * COLS
        modifies mem
        invariant Page(0) == Cleared(was, i)
        invariant forall u :: 0 <= u < TERMINALS && u != current ==> Page(Home(u)) == old(Page(Home(u)))
      {
        ClearedStep(was, i);
        Draw(0, 2 * i, SPACE);
      }
      assert Cleared(was, ROWS * COLS) == Clear(s).page;
      assert forall u :: 0 <= u < TERMINALS && u != current ==> old(Logical(u)).Ok() && Logical(u) == old(Logical(u));
    }

    // ---- systemcall.c: switching the display ----

    /** switchTerminal, called after `current` was set to the new terminal. */
    method SwitchTerminal(previous: int) returns (r: int)
      requires Shaped()
      modifies mem, userPage
      ensures r == if 0 <= previous < TERMINALS && 0 <= current < TERMINALS then 0 else -1
      ensures r == -1 ==> mem[..] == old(mem[..]) && userPage[..] == old(userPage[..])
      ensures r == 0 ==>
        (forall q :: 1 <= q < 4 && q != current + 1 ==> Page(q) == old(Page(if q == previous + 1 then 0 else q))) &&
        Page(0) == old(Page(if previous == current then 0 else current + 1)) &&
        userPage[..] == old(userPage[..])[previous := previous + 1][current := 0]
    {
      if previous < 0 || previous > 2 || current < 0 || current > 2 {
        return -1;
      }
      CopyPage(previous + 1, 0);
      CopyPage(0, current + 1);
      userPage[previous] := previous + 1;
      userPage[current] := 0;
      return 0;
    }

    method CopyPage(to: nat, from: nat)
      requires Shaped() && to < 4 && from < 4 && to != from
      modifies mem
      ensures Page(to) == old(Page(from))
      ensures forall q :: 0 <= q < 4 && q != to ==> Page(q) == old(Page(q))
    {
      BlitInPage(mem[..], to, 0, Page(from));
      assert mem[PAGE * from..PAGE * from + PAGE] == Page(from);
      Memcpy(mem, PAGE * to, mem, PAGE * from, PAGE, VIDEO);
    }

    /** Alt-Fn: a different terminal is displayed, and no terminal's screen changes. */
    method ShowTerminal(t: nat)
      requires Screens() && t < TERMINALS
      modifies this, mem, userPage
      ensures Screens() && current == t
      ensures forall u :: 0 <= u < TERMINALS ==> Logical(u) == old(Logical(u))
    {
      assert forall u :: 0 <= u < TERMINALS ==> Logical(u).Ok();
      var previous := current;
      if t != previous {
        current := t;
        var r := SwitchTerminal(previous);
        forall u | 0 <= u < TERMINALS ensures Logical(u) == old(Logical(u)) && userPage[u] == Home(u) {
        }
      }
    }

    // ---- terminal.c: the keyboard rows ----

    method PushKey(t: nat, c: Byte)
      requires Rows() && t < TERMINALS && bufLoc[t] < BUF_SIZE
      modifies kbBuf, bufLoc
      ensures Rows() && Line(t) == old(Line(t)) + [c]
      ensures forall u :: 0 <= u < TERMINALS && u != t ==> Line(u) == old(Line(u))
    {
      assert KeyRow(t);
      kbBuf[BUF_SIZE * t + bufLoc[t]] := c;
      bufLoc[t] := bufLoc[t] + 1;
      assert KeyBytes(t) == old(KeyBytes(t)[bufLoc[t] := c]);
      RowsApart(t);
      forall u | 0 <= u < TERMINALS ensures KeyRow(u) {
        assert old(KeyRow(u));
      }
    }

    method PopKey(t: nat)
      requires Rows() && t < TERMINALS && bufLoc[t] > 0
      modifies kbBuf, bufLoc
      ensures Rows() && Line(t) == old(Line(t))[..|old(Line(t))| - 1]
      ensures forall u :: 0 <= u < TERMINALS && u != t ==> Line(u) == old(Line(u))
    {
      assert KeyRow(t);
      bufLoc[t] := bufLoc[t] - 1;
      kbBuf[BUF_SIZE * t + bufLoc[t]] := 0;
      assert KeyBytes(t) == old(KeyBytes(t))[bufLoc[t] := 0];
      RowsApart(t);
      forall u | 0 <= u < TERMINALS ensures KeyRow(u) {
        assert old(KeyRow(u));
      }
    }

    /** Changing bytes of row `t` leaves the other rows alone. */
    twostate lemma RowsApart(t: nat)
      requires Shaped() && t < TERMINALS
      requires forall i :: 0 <= i < kbBuf.Length && !(BUF_SIZE * t <= i < BUF_SIZE * t + BUF_SIZE) ==>
        kbBuf[i] == old(kbBuf[i])
      ensures forall u :: 0 <= u < TERMINALS && u != t ==> KeyBytes(u) == old(KeyBytes(u))
    {
    }

    /** Enter with nobody waiting: the keys typed so far are wiped one by one. */
    method WipeLine(t: nat)
      requires Rows() && t < TERMINALS
      modifies kbBuf, bufLoc
      ensures Rows() && Line(t) == []
      ensures forall u :: 0 <= u < TERMINALS && u != t ==> Line(u) == old(Line(u))
    {
      while bufLoc[t] > 0
        invariant Rows()
        invariant forall u :: 0 <= u < TERMINALS && u != t ==> Line(u) == old(Line(u))
        decreases bufLoc[t]
      {
        assert KeyRow(t);
        ghost var before := Line(t);
        PopKey(t);
        assert KeyRow(t) && |Line(t)| == |before| - 1;
      }
      assert KeyRow(t);
    }

    lemma LineByte(t: nat, i: nat)
      requires Shaped() && t < TERMINALS && KeyRow(t) && i < bufLoc[t]
      ensures Line(t)[i] == kbBuf[BUF_SIZE * t + i]
    {
    }

    /** One turn of the loop that types the line again. */
    method TypeAgain(i: nat, ghost line: seq<Byte>)
      requires Screens() && KeyRow(current) && i < bufLoc[current] && line == Line(current)
      modifies mem, screenX, screenY
      ensures Screens() && Logical(current) == Put(old(Logical(current)), line[i])
      ensures forall u :: 0 <= u < TERMINALS && u != current ==> Logical(u) == old(Logical(u))
    {
      LineByte(current, i);
      KBputc(kbBuf[BUF_SIZE * current + i]);
    }

    /** Ctrl-L: the buffered keys are typed again on a cleared screen. */
    method RedrawLine()
      requires Valid()
      modifies mem, screenX, screenY
      ensures Screens() && Logical(current) == PutAll(Clear(old(Logical(current))), Line(current))
      ensures forall u :: 0 <= u < TERMINALS && u != current ==> Logical(u) == old(Logical(u))
    {
      assert KeyRow(current);
      ghost var s, line := Logical(current), Line(current);
      assert s.Ok();
      ClearDisplay();
      for i := 0 to bufLoc[current]
        invariant Screens() && KeyRow(current) && Line(current) == line
        invariant Logical(current) == PutAll(Clear(s), line[..i])
        invariant forall u :: 0 <= u < TERMINALS && u != current ==> Logical(u) == old(Logical(u))
      {
        PutAllNext(Clear(s), line, i);
        TypeAgain(i, line);
      }
      assert line[..|line|] == line;
    }

    /** Only terminal `t` changed since `w`, and it became `r`. */
    lemma OnlyTty(w: World, t: nat, r: Tty)
      requires t < TERMINALS && Valid() && w.Ok() && current == w.shown
      requires TtyAt(t) == r
      requires forall u :: 0 <= u < TERMINALS && u != t ==> Logical(u) == w.ttys[u].screen
      requires forall u :: 0 <= u < TERMINALS && u != t ==> Line(u) == w.ttys[u].line
      requires forall u :: 0 <= u < TERMINALS && u != t ==> TtyAt(u).waiting == w.ttys[u].waiting
      requires forall u :: 0 <= u < TERMINALS && u != t ==> TtyAt(u).ready == w.ttys[u].ready
      ensures View() == w.(ttys := w.ttys[t := r])
    {
      forall u | 0 <= u < TERMINALS ensures View().ttys[u] == w.ttys[t := r][u] {
        assert View().ttys[u] == TtyAt(u);
        if u != t {
          assert Logical(u) == w.ttys[u].screen && Line(u) == w.ttys[u].line;
        }
      }
    }

    method OnBackspace()
      requires Valid()
      modifies mem, screenX, screenY, kbBuf, bufLoc
      ensures Valid() && View() == StepWorld(old(View()), Typed(Backspace))
    {
      assert KeyRow(current) && Logical(current).Ok();
      if bufLoc[current] != 0 {
        PopKey(current);
        EraseChar();
      }
      OnlyTty(old(View()), current, Step(old(TtyAt(current)), Backspace));
    }

    /** The newline goes to a waiting reader; with none waiting the line is thrown away. */
    method SubmitOrWipe(t: nat)
      requires Rows() && t < TERMINALS && (readWaiting[t] ==> bufLoc[t] < BUF_SIZE)
      modifies kbBuf, bufLoc, readReady
      ensures Rows() && Line(t) == if readWaiting[t] then old(Line(t)) + [NEWLINE] else []
      ensures readReady[..] == old(readReady[..])[t := readWaiting[t] || old(readReady[t])]
      ensures forall u :: 0 <= u < TERMINALS && u != t ==> Line(u) == old(Line(u))
    {
      if readWaiting[t] {
        PushKey(t, NEWLINE);
        readReady[t] := true;
      } else {
        WipeLine(t);
      }
    }

    /**
      The store for an Enter when 128 bytes were accepted already, by which the rows of the array run
      into each other: the newline replaces the first byte of the next terminal's row, which got no
      input. A line there begins with it; an empty row is no longer clean.
     */
    method OverrunEnter(t: nat)
      requires Rows() && t + 1 < TERMINALS && bufLoc[t] == BUF_SIZE
      modifies kbBuf, bufLoc
      ensures bufLoc[..] == old(bufLoc[..])[t := BUF_SIZE + 1]
      ensures KeyBytes(t + 1) == old(KeyBytes(t + 1))[0 := NEWLINE]
      ensures forall u :: 0 <= u < TERMINALS && u != t + 1 ==> KeyBytes(u) == old(KeyBytes(u))
      ensures KeyRow(t + 1) <==> bufLoc[t + 1] > 0
      ensures bufLoc[t + 1] > 0 ==> Line(t + 1) == old(Line(t + 1))[0 := NEWLINE]
    {
      assert KeyRow(t + 1);
      kbBuf[BUF_SIZE * t + bufLoc[t]] := NEWLINE;
      bufLoc[t] := bufLoc[t] + 1;
      assert KeyBytes(t + 1) == old(KeyBytes(t + 1))[0 := NEWLINE];
      RowsApart(t + 1);
    }

    method OnEnter()
      requires Valid() && Fits(TtyAt(current), Enter)
      modifies mem, screenX, screenY, kbBuf, bufLoc, readReady
      ensures Valid() && View() == StepWorld(old(View()), Typed(Enter))
    {
      assert KeyRow(current) && Logical(current).Ok();
      KBputc(NEWLINE);
      SubmitOrWipe(current);
      OnlyTty(old(View()), current, Step(old(TtyAt(current)), Enter));
    }

    method OnCharacter(c: Glyph)
      requires Valid()
      modifies mem, screenX, screenY, kbBuf, bufLoc
      ensures Valid() && View() == StepWorld(old(View()), Typed(Key(c)))
    {
      assert KeyRow(current) && Logical(current).Ok();
      if bufLoc[current] < BUF_SIZE - 1 {
        KBputc(c);
        PushKey(current, c);
      }
      OnlyTty(old(View()), current, Step(old(TtyAt(current)), Key(c)));
    }

    /** KBhandler. */
    method KBhandler(key: KeyEvent)
      requires Valid() && Possible(View(), Meaning(key))
      modifies this, mem, screenX, screenY, userPage, kbBuf, bufLoc, readReady
      ensures Valid() && View() == StepWorld(old(View()), Meaning(key))
    {
      match key
      case CtrlL =>
        assert KeyRow(current) && Logical(current).Ok();
        RedrawLine();
        OnlyTty(old(View()), current, Step(old(TtyAt(current)), Redraw));
      case AltF(t) => ShowTerminal(t);
      case BackspaceKey => OnBackspace();
      case EnterKey => OnEnter();
      case Character(c) => OnCharacter(c);
    }

    /** terminalWrite by a process of terminal `t`. */
    method TerminalWrite(t: nat, bytes: seq<Byte>) returns (n: nat)
      requires Valid() && t < TERMINALS
      modifies mem, screenX, screenY
      ensures Valid() && n == |bytes| && View() == StepWorld(old(View()), Program(t, Output(bytes)))
    {
      assert KeyRow(t) && Logical(t).Ok();
      PutEach(t, bytes);
      n := |bytes|;
      OnlyTty(old(View()), t, Step(old(TtyAt(t)), Output(bytes)));
    }

    /** The loop of terminalWrite. */
    method PutEach(t: nat, bytes: seq<Byte>)
      requires Screens() && t < TERMINALS
      modifies mem, screenX, screenY
      ensures Screens() && old(Logical(t)).Ok() && Logical(t) == PutAll(old(Logical(t)), bytes)
      ensures forall u :: 0 <= u < TERMINALS && u != t ==> Logical(u) == old(Logical(u))
    {
      ghost var s := Logical(t);
      assert s.Ok();
      for i := 0 to |bytes|
        invariant Screens() && Logical(t) == PutAll(s, bytes[..i])
        invariant forall u :: 0 <= u < TERMINALS && u != t ==> Logical(u) == old(Logical(u))
      {
        assert bytes[..i + 1] == bytes[..i] + [bytes[i]];
        Putc(t, bytes[i]);
      }
      assert bytes[..|bytes|] == bytes;
    }

    /** terminalRead up to its wait loop. */
    method BeginRead(t: nat, nbytes: int) returns (r: int)
      requires Valid() && t < TERMINALS
      modifies readWaiting
      ensures Valid() && r == if nbytes < 0 then -1 else 0
      ensures View() == if nbytes < 0 then old(View()) else StepWorld(old(View()), Program(t, Await))
    {
      if nbytes < 0 {
        return -1;
      }
      assert KeyRow(t) && Logical(t).Ok();
      readWaiting[t] := true;
      OnlyTty(old(View()), t, Step(old(TtyAt(t)), Await));
      return 0;
    }

    /** `buf` holds `data` from the start on, and its old bytes after that. */
    twostate predicate Holds(buf: array<Byte>, data: seq<Byte>)
      reads buf
    {
      forall i :: 0 <= i < buf.Length ==> buf[i] == if i < |data| then data[i] else old(buf[i])
    }

    /** The copy loop of terminalRead. */
    method CopyOut(t: nat, buf: array<Byte>, nbytes: nat, ghost row: seq<Byte>) returns (bytes: nat)
      requires Shaped() && t < TERMINALS && buf != kbBuf && row == KeyBytes(t)
      requires NEWLINE in row || nbytes <= BUF_SIZE
      requires Min(nbytes, ThroughNewline(row)) <= buf.Length
      modifies buf
      ensures bytes == Min(nbytes, ThroughNewline(row)) && Holds(buf, row[..bytes])
    {
      ghost var stop := ThroughNewline(row);
      bytes := 0;
      while bytes < nbytes
        invariant bytes <= nbytes && (if NEWLINE in row then bytes < stop else bytes <= stop)
        invariant Holds(buf, row[..bytes])
      {
        buf[bytes] := kbBuf[BUF_SIZE * t + bytes];
        assert buf[bytes] == row[bytes];
        bytes := bytes + 1;
        if buf[bytes - 1] == NEWLINE {
          break;
        }
      }
    }

    /** terminalRead after its wait loop; `base` is the address of the keyboard rows. */
    method FinishRead(t: nat, buf: array<Byte>, nbytes: nat, base: nat) returns (bytes: nat)
      requires Valid() && t < TERMINALS && Fits(TtyAt(t), Collect(nbytes))
      requires buf != kbBuf && buf != mem
      requires |Collected(Line(t), nbytes)| <= buf.Length
      modifies buf, kbBuf, bufLoc, readWaiting, readReady
      ensures Valid() && View() == StepWorld(old(View()), Program(t, Collect(nbytes)))
      ensures bytes == |old(Collected(Line(t), nbytes))| && Holds(buf, old(Collected(Line(t), nbytes)))
    {
      assert KeyRow(t);
      ghost var row := Row(Line(t));
      assert row == KeyBytes(t);
      assert forall c :: c in Line(t) ==> c in row;
      bytes := CopyOut(t, buf, nbytes, row);
      EndRead(t, base, nbytes);
    }

    /** The end of terminalRead: an empty row, and nobody waiting. */
    method EndRead(t: nat, base: nat, ghost nbytes: nat)
      requires Valid() && t < TERMINALS && Fits(TtyAt(t), Collect(nbytes))
      modifies kbBuf, bufLoc, readWaiting, readReady
      ensures Valid() && View() == StepWorld(old(View()), Program(t, Collect(nbytes)))
    {
      ClearInput(t, base);
      OnlyTty(old(View()), t, Step(old(TtyAt(t)), Collect(nbytes)));
    }

    method ClearInput(t: nat, base: nat)
      requires Rows() && t < TERMINALS
      modifies kbBuf, bufLoc, readWaiting, readReady
      ensures Rows() && Line(t) == []
      ensures readWaiting[..] == old(readWaiting[..])[t := false] && readReady[..] == old(readReady[..])[t := false]
      ensures forall u :: 0 <= u < TERMINALS && u != t ==> Line(u) == old(Line(u))
    {
      ResetRow(t, base);
      readReady[t] := false;
      readWaiting[t] := false;
    }

    method ResetRow(t: nat, base: nat)
      requires Rows() && t < TERMINALS
      modifies kbBuf, bufLoc
      ensures Rows() && Line(t) == []
      ensures forall u :: 0 <= u < TERMINALS && u != t ==> Line(u) == old(Line(u))
    {
      Memset(kbBuf, BUF_SIZE * t, 0, BUF_SIZE, base);
      bufLoc[t] := 0;
      assert forall i :: 0 <= i < kbBuf.Length ==> kbBuf[i] == kbBuf[..][i] && old(kbBuf[i]) == old(kbBuf[..])[i];
      RowsApart(t);
      forall u | 0 <= u < TERMINALS ensures KeyRow(u) {
        assert old(KeyRow(u));
      }
    }

    /** A store by user code at `off` bytes past the pointer sys_vidmap gave terminal `t`. */
    method UserStore(t: nat, off: nat, b: Byte)
      requires Valid() && t < TERMINALS && off < PAGE
      modifies mem
      ensures Valid() && View() == StepWorld(old(View()), Program(t, Poke(off, b)))
    {
      assert KeyRow(t) && Logical(t).Ok();
      Store(userPage[t], off, b);
      forall u | 0 <= u < TERMINALS ensures Logical(u).Ok() && (u != t ==> Logical(u) == old(Logical(u))) {
        assert old(Logical(u)).Ok();
      }
      OnlyTty(old(View()), t, Step(old(TtyAt(t)), Poke(off, b)));
    }

    // ---- Runs of the whole console ----

    /** A console that has just booted: every terminal starts with line and screen in step. */
    lemma BootEchoes(t: nat)
      requires Valid() && t < TERMINALS && bufLoc[t] == 0 && !readReady[t]
      ensures EchoAgrees(TtyAt(t))
    {
      assert KeyRow(t) && Logical(t).Ok();
    }

    method Handle(ev: Event, base: nat)
      requires Valid() && Possible(View(), ev)
      modifies this, mem, screenX, screenY, userPage, kbBuf, bufLoc, readWaiting, readReady
      ensures Valid() && View() == StepWorld(old(View()), ev)
    {
      match ev
      case Switch(to) => KBhandler(AltF(to));
      case Typed(Key(c)) => KBhandler(Character(c));
      case Typed(Enter) => KBhandler(EnterKey);
      case Typed(Backspace) => KBhandler(BackspaceKey);
      case Typed(Redraw) => KBhandler(CtrlL);
      case Program(t, Output(bytes)) => var n := TerminalWrite(t, bytes);
      case Program(t, Poke(off, b)) => UserStore(t, off, b);
      case Program(t, Await) => var r := BeginRead(t, 0);
      case Program(t, Collect(nbytes)) =>
        assert KeyRow(t);
        var buf := new Byte[nbytes];
        var n := FinishRead(t, buf, nbytes, base);
    }

    /** Any interleaving of keys, switches and process activity acts as on three dedicated terminals. */
    method HandleAll(evs: seq<Event>, base: nat)
      requires Valid() && PossibleAll(View(), evs)
      modifies this, mem, screenX, screenY, userPage, kbBuf, bufLoc, readWaiting, readReady
      ensures Valid() && View() == RunWorld(old(View()), evs)
      decreases |evs|
    {
      if evs != [] {
        Handle(evs[0], base);
        HandleAll(evs[1..], base);
      }
    }
  }
}
