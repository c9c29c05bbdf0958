// What the three process stacks guarantee over whole runs: calls and returns nest,
// descriptors stream their files, restarts never fail, and no thread starves.

module Scheduling {
  import opened Memory
  import opened FileSystem
  import opened Machine

  // ---- Nesting ----

  /** A step leaves all stacks alone but the current one, and there all but the top process. */
  lemma OnlyTopChanges(m: Machine, ev: Event)
    requires Can(m, ev)
    ensures var r := Step(m, ev);
      (forall t :: 0 <= t < THREADS && t != m.cur && m.stacks[t] != [] ==> r.stacks[t] == m.stacks[t]) &&
      (Running(m) ==> var n := |m.stacks[m.cur]|;
        n - 1 <= |r.stacks[m.cur]| <= n + 1 && r.stacks[m.cur][..n - 1] == m.stacks[m.cur][..n - 1] &&
        (|r.stacks[m.cur]| >= n ==>
          r.stacks[m.cur][n - 1].pid == Top(m).pid && r.stacks[m.cur][n - 1].ctx == Top(m).ctx))
  {
  }

  /** Thread `t` has more than `h` processes before every step of the run and after it. */
  ghost predicate StaysAbove(m: Machine, evs: seq<Event>, t: nat, h: nat)
    requires CanAll(m, evs) && t < THREADS
    decreases |evs|
  {
    |m.stacks[t]| > h && (evs != [] ==> StaysAbove(Step(m, evs[0]), evs[1..], t, h))
  }

  /** Position `h` of a stack stays what it is, and so does everything below. */
  ghost predicate SameUpTo(s: seq<Proc>, r: seq<Proc>, h: nat) {
    |s| > h && |r| > h && r[..h] == s[..h] && r[h].pid == s[h].pid && r[h].ctx == s[h].ctx
  }

  /** Two stacks that agree below the top of the first. */
  lemma AgreeBelow(s: seq<Proc>, r: seq<Proc>, h: nat)
    requires |s| > h && |r| > h && |r| >= |s| - 1 && r[..|s| - 1] == s[..|s| - 1]
    requires |r| >= |s| ==> r[|s| - 1].pid == s[|s| - 1].pid && r[|s| - 1].ctx == s[|s| - 1].ctx
    ensures SameUpTo(s, r, h)
  {
    var n := |s| - 1;
    assert forall i :: 0 <= i < n ==> r[i] == r[..n][i] == s[..n][i] == s[i];
  }

  lemma StepAbove(m: Machine, ev: Event, t: nat, h: nat)
    requires Can(m, ev) && t < THREADS && |m.stacks[t]| > h && |Step(m, ev).stacks[t]| > h
    ensures SameUpTo(m.stacks[t], Step(m, ev).stacks[t], h)
  {
    OnlyTopChanges(m, ev);
    if t == m.cur {
      AgreeBelow(m.stacks[t], Step(m, ev).stacks[t], h);
    }
  }

  /** While a process and its descendants live, everything below it on its stack is untouched. */
  lemma {:induction false} BelowIsUntouched(m: Machine, evs: seq<Event>, t: nat, h: nat)
    requires CanAll(m, evs) && t < THREADS && StaysAbove(m, evs, t, h)
    ensures SameUpTo(m.stacks[t], Run(m, evs).stacks[t], h)
    decreases |evs|
  {
    if evs != [] {
      StepAbove(m, evs[0], t, h);
      BelowIsUntouched(Step(m, evs[0]), evs[1..], t, h);
    }
  }

  /**
    Execute, then any interleaving of all threads during which the child lives, then the
    child's halt: the parent's stack is back as it was, and the halt resumes the very context
    the execute left.
   */
  lemma ExecuteReturnsToParent(m: Machine, command: seq<Byte>, ctx: nat, evs: seq<Event>, status: Byte)
    requires Can(m, Execute(Some(command), ctx)) && Startable(m, command)
    requires var child := Step(m, Execute(Some(command), ctx));
      CanAll(child, evs) && StaysAbove(child, evs, m.cur, |m.stacks[m.cur]|)
    requires var r := Run(Step(m, Execute(Some(command), ctx)), evs);
      r.cur == m.cur && |r.stacks[m.cur]| == |m.stacks[m.cur]| + 1
    ensures var r := Run(Step(m, Execute(Some(command), ctx)), evs);
      Can(r, Halt(status)) && Top(r).ctx == ctx && Step(r, Halt(status)).stacks[m.cur] == m.stacks[m.cur]
  {
    var child, h := Step(m, Execute(Some(command), ctx)), |m.stacks[m.cur]|;
    BelowIsUntouched(child, evs, m.cur, h);
    assert child.stacks[m.cur][..h] == m.stacks[m.cur];
  }

  // ---- Descriptor streams ----

  /** Standard descriptors in place and only there; a regular file has delivered its bytes up to the position. */
  ghost predicate Streams(img: seq<Byte>, p: Proc)
    requires WellFormed(img)
  {
    |p.fds| == FDS == |p.got| && p.fds[0].kind == Stdin && p.fds[1].kind == Stdout &&
    forall j :: 2 <= j < FDS ==> StreamHolds(img, p.fds[j], p.got[j])
  }

  ghost predicate StreamHolds(img: seq<Byte>, f: Fd, got: seq<Byte>)
    requires WellFormed(img)
  {
    f.kind != Stdin && f.kind != Stdout &&
    (f.kind == Regular ==> 0 <= f.pos <= |File(img, f.inode)| && got == File(img, f.inode)[..f.pos]) &&
    (f.kind == Directory ==> 0 <= f.pos <= NumEntries(img))
  }

  ghost predicate AllStream(m: Machine)
    requires WellFormedMachine(m)
  {
    forall t, i :: 0 <= t < THREADS && 0 <= i < |m.stacks[t]| ==> Streams(m.img, m.stacks[t][i])
  }

  lemma FdStreams(img: seq<Byte>, p: Proc, fd: nat, f: Fd, got: seq<Byte>)
    requires WellFormed(img) && Streams(img, p) && 2 <= fd < FDS && StreamHolds(img, f, got)
    ensures Streams(img, p.(fds := p.fds[fd := f], got := p.got[fd := got]))
  {
  }

  lemma OpenStreams(img: seq<Byte>, p: Proc, name: Option<seq<Byte>>)
    requires WellFormed(img) && Streams(img, p)
    ensures Streams(img, Opened(img, p, name))
  {
    if name.Some? {
      var j, d := FreeFd(p.fds, 2), Lookup(img, name.value);
      if j < FDS && d.Some? {
        var kind := KindOf(d.value.fileType);
        FdStreams(img, p, j, Fd(kind, if kind == Regular then d.value.inode else 0, 0), []);
      }
    }
  }

  /** The next bytes of a file extend what it has delivered. */
  lemma DeliveredExtends(img: seq<Byte>, f: Fd, got: seq<Byte>, nbytes: nat)
    requires WellFormed(img) && f.kind == Regular && StreamHolds(img, f, got)
    ensures var data := Delivered(img, f, nbytes); StreamHolds(img, f.(pos := f.pos + |data|), got + data)
  {
    var data := Delivered(img, f, nbytes);
    assert got + data == File(img, f.inode)[..f.pos + |data|];
  }

  lemma ReadStreams(img: seq<Byte>, p: Proc, fd: int, nbytes: int)
    requires WellFormed(img) && Streams(img, p)
    ensures Streams(img, AfterRead(img, p, fd, nbytes))
  {
    if Readable(p, fd, nbytes) && (p.fds[fd].kind == Regular || p.fds[fd].kind == Directory) {
      var f, got := p.fds[fd], p.got[fd];
      assert StreamHolds(img, f, got) && p.got[fd := got] == p.got;
      if f.kind == Regular {
        var data := Delivered(img, f, nbytes);
        DeliveredExtends(img, f, got, nbytes);
        FdStreams(img, p, fd, f.(pos := f.pos + |data|), got + data);
      } else {
        FdStreams(img, p, fd, f.(pos := if f.pos == NumEntries(img) then 0 else f.pos + 1), got);
      }
    }
  }

  lemma CloseStreams(img: seq<Byte>, p: Proc, fd: int)
    requires WellFormed(img) && Streams(img, p)
    ensures Streams(img, Closed(p, fd))
  {
  }

  lemma SetTopStreams(m: Machine, p: Proc)
    requires WellFormedMachine(m) && Running(m) && AllStream(m) && Streams(m.img, p)
    ensures AllStream(SetTop(m, p))
  {
    var r := SetTop(m, p);
    forall t, i | 0 <= t < THREADS && 0 <= i < |r.stacks[t]| ensures Streams(m.img, r.stacks[t][i]) {
      assert Streams(m.img, m.stacks[t][i]);
    }
  }

  lemma PushPopStreams(m: Machine, t: nat, ctx: nat)
    requires WellFormedMachine(m) && AllStream(m) && t < THREADS
    ensures AllStream(Push(m, t, ctx)) && (Running(m) ==> AllStream(Pop(m)))
  {
    var r := Push(m, t, ctx);
    forall u, i | 0 <= u < THREADS && 0 <= i < |r.stacks[u]| ensures Streams(m.img, r.stacks[u][i]) {
      if i < |m.stacks[u]| { assert Streams(m.img, m.stacks[u][i]); }
    }
    assert Running(m) ==> forall u, i :: 0 <= u < THREADS && 0 <= i < |Pop(m).stacks[u]| ==>
      Pop(m).stacks[u][i] == m.stacks[u][i];
  }

  lemma StepStreams(m: Machine, ev: Event)
    requires Can(m, ev) && AllStream(m)
    ensures AllStream(Step(m, ev))
  {
    if Running(m) {
      assert Streams(m.img, m.stacks[m.cur][|m.stacks[m.cur]| - 1]);
    }
    match ev
    case Tick => PushPopStreams(m, Target(m), 0);
    case Execute(command, ctx) => PushPopStreams(m, m.cur, ctx);
    case Halt(_) => PushPopStreams(m, m.cur, 0);
    case Exception => PushPopStreams(m, m.cur, 0);
    case Open(name) =>
      OpenStreams(m.img, Top(m), name);
      SetTopStreams(m, Opened(m.img, Top(m), name));
    case Read(fd, nbytes) =>
      ReadStreams(m.img, Top(m), fd, nbytes);
      SetTopStreams(m, AfterRead(m.img, Top(m), fd, nbytes));
    case Close(fd) =>
      CloseStreams(m.img, Top(m), fd);
      SetTopStreams(m, Closed(Top(m), fd));
  }

  /** sys_open takes the lowest free descriptor, at position 0, and leaves the others; sys_close gives it back. */
  lemma OpenThenClose(img: seq<Byte>, p: Proc, name: seq<Byte>)
    requires WellFormed(img) && |p.fds| == FDS == |p.got|
    ensures var j, r := OpenValue(img, p, Some(name)), Opened(img, p, Some(name));
      if j < 2 then forall i :: 0 <= i < FDS ==> r.fds[i].kind == p.fds[i].kind
      else
        j < FDS && p.fds[j].kind == Unused != r.fds[j].kind && r.fds[j].pos == 0 &&
        (forall i :: 2 <= i < j ==> p.fds[i].kind != Unused) &&
        (forall i :: 0 <= i < FDS && i != j ==> r.fds[i] == p.fds[i]) &&
        Closable(r, j) && forall i :: 0 <= i < FDS ==> Closed(r, j).fds[i].kind == p.fds[i].kind
  {
  }

  /** The first read after the open of a regular file gets the beginning of that file. */
  lemma OpenThenRead(img: seq<Byte>, p: Proc, name: seq<Byte>, nbytes: nat)
    requires WellFormed(img) && |p.fds| == FDS == |p.got| && OpenValue(img, p, Some(name)) >= 2
    requires Lookup(img, name).value.fileType == 2 && Lookup(img, name).value.inode < NumInodes(img)
    ensures var j, file := OpenValue(img, p, Some(name)), File(img, Lookup(img, name).value.inode);
      Delivered(img, Opened(img, p, Some(name)).fds[j], nbytes) == file[..if nbytes < |file| then nbytes else |file|]
  {
  }

  // ---- Restarts ----

  /** When the current thread has lost its shell, a process number is free for a new one. */
  ghost predicate FreeWhenDue(m: Machine)
    requires WellFormedMachine(m)
  {
    !Running(m) ==> FreePid(m.stacks, 0) < PROCESSES
  }

  /** Process numbers are within range and belong to one process each. */
  ghost predicate DistinctPids(m: Machine)
    requires WellFormedMachine(m)
  {
    (forall t, i :: 0 <= t < THREADS && 0 <= i < |m.stacks[t]| ==> m.stacks[t][i].pid < PROCESSES) &&
    forall t, i, u, j | 0 <= t < THREADS && 0 <= i < |m.stacks[t]| && 0 <= u < THREADS && 0 <= j < |m.stacks[u]| ::
      m.stacks[t][i].pid == m.stacks[u][j].pid ==> t == u && i == j
  }

  lemma PushDistinct(m: Machine, t: nat, ctx: nat)
    requires WellFormedMachine(m) && DistinctPids(m) && t < THREADS && FreePid(m.stacks, 0) < PROCESSES
    ensures DistinctPids(Push(m, t, ctx))
  {
    var r, free, n := Push(m, t, ctx), FreePid(m.stacks, 0), |m.stacks[t]|;
    forall u, i | 0 <= u < THREADS && 0 <= i < |m.stacks[u]|
      ensures m.stacks[u][i].pid != free && r.stacks[u][i] == m.stacks[u][i]
    {
    }
    forall u, i | 0 <= u < THREADS && 0 <= i < |r.stacks[u]|
      ensures if u == t && i == n then r.stacks[u][i].pid == free else i < |m.stacks[u]|
    {
    }
  }

  /** No stack grew and the pids that remain are the same. */
  lemma SubstacksDistinct(m: Machine, r: Machine)
    requires WellFormedMachine(m) && WellFormedMachine(r) && DistinctPids(m)
    requires forall t :: 0 <= t < THREADS ==> |r.stacks[t]| <= |m.stacks[t]|
    requires forall t, i :: 0 <= t < THREADS && 0 <= i < |r.stacks[t]| ==> r.stacks[t][i].pid == m.stacks[t][i].pid
    ensures DistinctPids(r)
  {
  }

  lemma OnlyTickAndExecutePush(m: Machine, ev: Event)
    requires Can(m, ev)
    ensures var r := Step(m, ev);
      (exists t: nat, ctx :: t < THREADS && FreePid(m.stacks, 0) < PROCESSES && r == Push(m, t, ctx)) ||
      ((forall t :: 0 <= t < THREADS ==> |r.stacks[t]| <= |m.stacks[t]|) &&
       forall t, i :: 0 <= t < THREADS && 0 <= i < |r.stacks[t]| ==> r.stacks[t][i].pid == m.stacks[t][i].pid)
  {
  }

  lemma StepDistinct(m: Machine, ev: Event)
    requires Can(m, ev) && DistinctPids(m)
    ensures DistinctPids(Step(m, ev))
  {
    OnlyTickAndExecutePush(m, ev);
    if t: nat, ctx :| t < THREADS && FreePid(m.stacks, 0) < PROCESSES && Step(m, ev) == Push(m, t, ctx) {
      PushDistinct(m, t, ctx);
    } else {
      SubstacksDistinct(m, Step(m, ev));
    }
  }

  /** A halt gives its process number back. */
  lemma PopFrees(m: Machine)
    requires WellFormedMachine(m) && Running(m) && DistinctPids(m)
    ensures FreePid(Pop(m).stacks, 0) < PROCESSES
  {
    var r, n := Pop(m), |m.stacks[m.cur]|;
    forall t, i | 0 <= t < THREADS && 0 <= i < |r.stacks[t]| ensures r.stacks[t][i].pid != Top(m).pid {
      assert r.stacks[t][i] == m.stacks[t][i] && m.stacks[m.cur][n - 1] == Top(m);
    }
    assert !Uses(r.stacks, Top(m).pid);
  }

  lemma StepFreesWhenDue(m: Machine, ev: Event)
    requires Can(m, ev) && FreeWhenDue(m) && DistinctPids(m)
    ensures FreeWhenDue(Step(m, ev))
  {
    if ev.Halt? || ev.Exception? {
      PopFrees(m);
    }
  }

  /** A restart that is due succeeds, and so does every tick when the other threads have their shells. */
  ghost predicate Restarts(m: Machine)
    requires WellFormedMachine(m)
  {
    (!Running(m) ==> Can(m, Tick)) &&
    ((forall t :: 0 <= t < THREADS && t != m.cur ==> m.stacks[t] != []) ==> Can(m, Tick))
  }

  lemma {:induction false} RestartNeverFails(m: Machine, evs: seq<Event>)
    requires CanAll(m, evs) && FreeWhenDue(m) && DistinctPids(m) && Runnable(m.img, SHELL)
    ensures FreeWhenDue(Run(m, evs)) && DistinctPids(Run(m, evs)) && Restarts(Run(m, evs))
    decreases |evs|
  {
    if evs != [] {
      StepFreesWhenDue(m, evs[0]);
      StepDistinct(m, evs[0]);
      RestartNeverFails(Step(m, evs[0]), evs[1..]);
    }
  }

  // ---- The first start of a shell can fail ----

  /** Thread 0 current with `n` processes numbered from the root up, the other threads not started. */
  ghost predicate OnlyThreadZero(m: Machine, n: nat) {
    WellFormedMachine(m) && m.cur == 0 && |m.stacks[0]| == n && m.stacks[1] == [] && m.stacks[2] == [] &&
    forall i :: 0 <= i < n ==> m.stacks[0][i].pid == i
  }

  lemma {:induction false} NextFree(m: Machine, n: nat, p: nat)
    requires OnlyThreadZero(m, n) && p <= n <= PROCESSES
    ensures FreePid(m.stacks, p) == n
    decreases n - p
  {
    if p < n {
      assert m.stacks[0][p].pid == p;
      NextFree(m, n, p + 1);
    }
  }

  function Executes(k: nat): seq<Event> {
    seq(k, _ => Execute(Some(SHELL), 0))
  }

  lemma PushOnZero(m: Machine, n: nat)
    requires OnlyThreadZero(m, n) && FreePid(m.stacks, 0) == n
    ensures OnlyThreadZero(Push(m, 0, 0), n + 1)
  {
  }

  lemma ExecuteOnZero(m: Machine, n: nat)
    requires OnlyThreadZero(m, n) && 1 <= n < PROCESSES && Runnable(m.img, SHELL)
    ensures Can(m, Execute(Some(SHELL), 0)) && OnlyThreadZero(Step(m, Execute(Some(SHELL), 0)), n + 1)
  {
    NextFree(m, n, 0);
    PushOnZero(m, n);
    assert SHELL[5] == 0;
  }

  lemma {:induction false} FillsTable(m: Machine, n: nat)
    requires OnlyThreadZero(m, n) && 1 <= n <= PROCESSES && Runnable(m.img, SHELL)
    ensures CanAll(m, Executes(PROCESSES - n)) && OnlyThreadZero(Run(m, Executes(PROCESSES - n)), PROCESSES)
    decreases PROCESSES - n
  {
    if n < PROCESSES {
      ExecuteOnZero(m, n);
      FillsTable(Step(m, Execute(Some(SHELL), 0)), n + 1);
      assert Executes(PROCESSES - n)[1..] == Executes(PROCESSES - n - 1);
    }
  }

  /**
    Five executes in the first time slice take all process numbers, and the next timer
    interrupt cannot start thread 1's shell. In general an interrupt succeeds exactly when its
    target has a process or a process number is free and the shell loads.
   */
  lemma FirstStartCanFail(img: seq<Byte>)
    requires WellFormed(img) && Runnable(img, SHELL)
    ensures var evs := [Tick] + Executes(5);
      CanAll(Boot(img), evs) && !Can(Run(Boot(img), evs), Tick)
  {
    var m := Boot(img);
    FirstShellStarts(img);
    FillsTable(Step(m, Tick), 1);
    assert ([Tick] + Executes(5))[1..] == Executes(5);
    TableIsFull(Run(Step(m, Tick), Executes(5)));
  }

  /** At boot thread 0 waits for its shell, which will get process number 0. */
  lemma BootWaits(img: seq<Byte>)
    requires WellFormed(img)
    ensures OnlyThreadZero(Boot(img), 0) && Target(Boot(img)) == 0 && FreePid(Boot(img).stacks, 0) == 0
  {
    NextFree(Boot(img), 0, 0);
  }

  lemma FirstShellStarts(img: seq<Byte>)
    requires WellFormed(img) && Runnable(img, SHELL)
    ensures Can(Boot(img), Tick) && OnlyThreadZero(Step(Boot(img), Tick), 1)
  {
    BootWaits(img);
    PushOnZero(Boot(img), 0);
  }

  lemma TableIsFull(m: Machine)
    requires OnlyThreadZero(m, PROCESSES)
    ensures !Can(m, Tick)
  {
    NextFree(m, PROCESSES, 0);
  }

  // ---- A program too long for its page ----

  /** A disk image whose one file, shell, has 1023 blocks, all of them the same one. */
  function LongShellByte(i: nat): Byte {
    if i == 0 || i == 4 then 1                                  // one entry, one inode
    else if 64 <= i < 69 then SHELL[i - 64]                     // its name
    else if i == 96 then 2                                      // a regular file
    else if i == 4097 then 0xF0 else if i == 4098 then 0x3F     // 1023 * 4096 bytes
    else if 8192 <= i < 8196 then MAGIC[i - 8192]
    else 0
  }

  function LongShell(): (img: seq<Byte>)
    ensures |img| == 3 * BLOCK && forall i :: 0 <= i < 3 * BLOCK ==> img[i] == LongShellByte(i)
  {
    seq(3 * BLOCK, i requires 0 <= i => LongShellByte(i))
  }

  lemma LongShellIsWellFormed()
    ensures var img := LongShell();
      WellFormed(img) && NumEntries(img) == 1 && NumInodes(img) == 1 && |File(img, 0)| == 1023 * BLOCK
  {
    var img := LongShell();
    assert NumEntries(img) == 1 && NumInodes(img) == 1 && Length(img, 0) == 1023 * BLOCK;
    forall k | 0 <= k < MAX_BLOCKS ensures BlockStart(img, 0, k) == 2 * BLOCK {
    }
    assert WellFormedInode(img, 0);
  }

  lemma LongShellIsFound()
    requires WellFormed(LongShell()) && NumEntries(LongShell()) == 1
    ensures Lookup(LongShell(), ProgramName(SHELL)) == Some(Entry(LongShell(), 0)) && Entry(LongShell(), 0).inode == 0
  {
    var img, word := LongShell(), SHELL[..5];
    ShellName();
    assert Entry(img, 0).name == word + Fill(0, 27);
    assert Named(img, 0, ProgramName(SHELL));
  }

  lemma ShellName()
    ensures ProgramName(SHELL) == SHELL[..5] + Fill(0, 27)
  {
    assert SHELL[5..] == [0] && SHELL[4..][1..] == SHELL[5..] && SHELL[3..][1..] == SHELL[4..];
    assert SHELL[2..][1..] == SHELL[3..] && SHELL[1..][1..] == SHELL[2..];
    assert NameLength(SHELL[5..], 27) == 0;
    assert NameLength(SHELL[4..], 28) == 1;
    assert NameLength(SHELL[3..], 29) == 2;
    assert NameLength(SHELL[2..], 30) == 3;
    assert NameLength(SHELL[1..], 31) == 4;
    assert NameLength(SHELL, 32) == 5;
  }

  lemma LongShellIsExecutable(img: seq<Byte>, file: seq<Byte>)
    requires img == LongShell() && WellFormed(img) && NumInodes(img) == 1
    requires file == File(img, 0) && |file| == 1023 * BLOCK
    ensures file[..4] == MAGIC
  {
    BlockInFile(img, 0, 0);
    FilePiece(img, 0, file, 0, 0, 4, 2 * BLOCK);
    assert img[8192..8196] == MAGIC && file[0..4] == file[..4];
  }

  lemma LongShellIsTooLong()
    ensures WellFormed(LongShell()) && Loadable(LongShell(), SHELL) && !FitsPage(LongShell(), SHELL)
  {
    LongShellIsWellFormed();
    LongShellIsFound();
    LongShellIsExecutable(LongShell(), File(LongShell(), 0));
  }

  /** The first tick after boot faults on it: sys_execute has passed its tests and changed the state. */
  lemma LongShellFaults()
    ensures WellFormed(LongShell()) && Faults(Boot(LongShell()), SHELL) && !Can(Boot(LongShell()), Tick)
  {
    LongShellIsTooLong();
    FaultsAtBoot(LongShell());
  }

  lemma FaultsAtBoot(img: seq<Byte>)
    requires WellFormed(img) && Loadable(img, SHELL) && !FitsPage(img, SHELL)
    ensures Faults(Boot(img), SHELL) && !Can(Boot(img), Tick)
  {
    BootWaits(img);
  }

  // ---- What every reachable state satisfies ----

  /** No live process carries an exception flag: the handler that sets it halts the process at once. */
  ghost predicate Unflagged(m: Machine)
    requires WellFormedMachine(m)
  {
    forall t, i :: 0 <= t < THREADS && 0 <= i < |m.stacks[t]| ==> !m.stacks[t][i].exception
  }

  lemma StepUnflagged(m: Machine, ev: Event)
    requires Can(m, ev) && Unflagged(m)
    ensures Unflagged(Step(m, ev))
  {
    var r := Step(m, ev);
    assert Running(m) ==> !m.stacks[m.cur][|m.stacks[m.cur]| - 1].exception;
    forall t, i | 0 <= t < THREADS && 0 <= i < |r.stacks[t]| ensures !r.stacks[t][i].exception {
      assert i < |m.stacks[t]| ==> !m.stacks[t][i].exception;
    }
  }

  /** Over any interleaving of all threads every open file is a prefix stream and no number is shared. */
  lemma {:induction false} InvariantsOverRuns(m: Machine, evs: seq<Event>)
    requires CanAll(m, evs) && AllStream(m) && DistinctPids(m) && Unflagged(m)
    ensures AllStream(Run(m, evs)) && DistinctPids(Run(m, evs)) && Unflagged(Run(m, evs))
    decreases |evs|
  {
    if evs != [] {
      StepStreams(m, evs[0]);
      StepDistinct(m, evs[0]);
      StepUnflagged(m, evs[0]);
      InvariantsOverRuns(Step(m, evs[0]), evs[1..]);
    }
  }

  lemma BootIsSound(img: seq<Byte>)
    requires WellFormed(img)
    ensures AllStream(Boot(img)) && DistinctPids(Boot(img)) && Unflagged(Boot(img)) && FreeWhenDue(Boot(img))
  {
    assert forall t :: 0 <= t < THREADS ==> Boot(img).stacks[t] == [];
    NextFree(Boot(img), 0, 0);
  }

  /** From boot on a restart that is due never fails. */
  lemma RestartsFromBoot(img: seq<Byte>, evs: seq<Event>)
    requires WellFormed(img) && Runnable(img, SHELL) && CanAll(Boot(img), evs)
    ensures Restarts(Run(Boot(img), evs))
  {
    BootIsSound(img);
    RestartNeverFails(Boot(img), evs);
  }

  /** A parent gets the status its child halted with, and 256 exactly after an exception. */
  ghost predicate ReturnsStatus(m: Machine, ev: Event)
    requires WellFormedMachine(m) && Running(m) && (ev.Halt? || ev.Exception?)
  {
    (HaltValue(ev, Top(m)) == 256 <==> ev.Exception?) && (ev.Halt? ==> HaltValue(ev, Top(m)) == ev.status)
  }

  lemma UnflaggedReturns(m: Machine, ev: Event)
    requires Can(m, ev) && (ev.Halt? || ev.Exception?) && Unflagged(m)
    ensures ReturnsStatus(m, ev)
  {
    assert !m.stacks[m.cur][|m.stacks[m.cur]| - 1].exception;
  }

  /** From boot on: streams, distinct process numbers, and faithful halt values. */
  lemma ReachableFromBoot(img: seq<Byte>, evs: seq<Event>, ev: Event)
    requires WellFormed(img) && CanAll(Boot(img), evs)
    ensures var r := Run(Boot(img), evs);
      AllStream(r) && DistinctPids(r) && (Can(r, ev) && (ev.Halt? || ev.Exception?) ==> ReturnsStatus(r, ev))
  {
    BootIsSound(img);
    InvariantsOverRuns(Boot(img), evs);
    var r := Run(Boot(img), evs);
    if Can(r, ev) && (ev.Halt? || ev.Exception?) {
      UnflaggedReturns(r, ev);
    }
  }

  // ---- No thread starves ----

  function Ticks(evs: seq<Event>): nat {
    if evs == [] then 0 else (if evs[0] == Tick then 1 else 0) + Ticks(evs[1..])
  }

  /** The event ends a root shell. */
  ghost function RootExit(m: Machine, ev: Event): nat
    requires Can(m, ev)
  {
    if (ev.Halt? || ev.Exception?) && |m.stacks[m.cur]| == 1 then 1 else 0
  }

  /** How often a root shell ends during the run. */
  ghost function RootExits(m: Machine, evs: seq<Event>): nat
    requires CanAll(m, evs)
    decreases |evs|
  {
    if evs == [] then 0 else RootExit(m, evs[0]) + RootExits(Step(m, evs[0]), evs[1..])
  }

  /** A restart of the current thread's shell is due. */
  ghost function Due(m: Machine): nat
    requires WellFormedMachine(m)
  {
    if Running(m) then 0 else 1
  }

  /** The current thread after `n` events. */
  ghost function CurAfter(m: Machine, evs: seq<Event>, n: nat): nat
    requires CanAll(m, evs) && n <= |evs|
    decreases |evs|
  {
    if n == 0 then m.cur else CurAfter(Step(m, evs[0]), evs[1..], n - 1)
  }

  function Turns(from: nat, to: nat): nat {
    (to + THREADS - from % THREADS) % THREADS
  }

  lemma NextIsNearer(from: nat, to: nat)
    requires from < THREADS && to < THREADS && from != to
    ensures Turns(Next(from), to) + 1 == Turns(from, to)
  {
  }

  /** A tick brings `t` nearer or consumes a due restart; a root exit makes one due; nothing else counts. */
  lemma TickOrExit(m: Machine, ev: Event, t: nat)
    requires Can(m, ev) && t < THREADS && m.cur != t
    ensures var r := Step(m, ev);
      Due(r) + Turns(r.cur, t) + (if ev == Tick then 1 else 0) == Due(m) + Turns(m.cur, t) + RootExit(m, ev)
  {
    match ev
    case Tick => NextIsNearer(m.cur, t);
    case Halt(_) => PopIsDue(m);
    case Exception => PopIsDue(m);
    case _ => assert Step(m, ev).cur == m.cur && Running(m) && Running(Step(m, ev));
  }

  lemma PopIsDue(m: Machine)
    requires WellFormedMachine(m) && Running(m)
    ensures Pop(m).cur == m.cur && (Running(Pop(m)) <==> |m.stacks[m.cur]| > 1)
  {
  }

  lemma {:induction false} ReachedWithin(m: Machine, evs: seq<Event>, t: nat) returns (n: nat)
    requires CanAll(m, evs) && t < THREADS
    requires Ticks(evs) >= RootExits(m, evs) + Due(m) + Turns(m.cur, t)
    ensures n <= |evs| && CurAfter(m, evs, n) == t
    decreases |evs|
  {
    if m.cur == t {
      n := 0;
    } else {
      var next := Step(m, evs[0]);
      TickOrExit(m, evs[0], t);
      var k := ReachedWithin(next, evs[1..], t);
      n := k + 1;
    }
  }

  /** In a window with k root-shell exits every thread is current at some point within k + 3 ticks. */
  lemma NoThreadStarves(m: Machine, evs: seq<Event>, t: nat)
    requires CanAll(m, evs) && t < THREADS && Ticks(evs) >= RootExits(m, evs) + 3
    ensures exists n :: 0 <= n <= |evs| && CurAfter(m, evs, n) == t
  {
    var n := ReachedWithin(m, evs, t);
  }
}
