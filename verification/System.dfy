// Kernel and console together: which terminal a system call of the running process reaches,
// and what the two state machines guarantee when they run interleaved.

module System {
  import opened Memory
  import FileSystem
  import Machine
  import Screen
  import Tty
  import Scheduling
  import Kernel
  import Terminals

  /** The process stacks and the three terminals. */
  datatype Whole = Whole(m: Machine.Machine, w: Tty.World)

  datatype Event =
    | Call(ev: Machine.Event)            // the timer, an exception, or a call that reaches no terminal
    | Keyboard(key: Tty.Event)           // a key, or a switch of the display
    | Write(fd: int, bytes: seq<Byte>)   // sys_write by the running process
    | Await                              // it begins to read from descriptor 0
    | Collect(nbytes: nat)               // and copies the line out
    | Store(off: nat, b: Byte)           // a store through its vidmap pointer

  /** What the event does to the console: a process acts on the terminal of its thread. */
  function OnConsole(cur: nat, ev: Event): (r: seq<Tty.Event>)
    ensures |r| <= 1
  {
    match ev
    case Call(_) => []
    case Keyboard(e) => [e]
    case Write(fd, bytes) => if fd == 1 then [Tty.Program(cur, Tty.Output(bytes))] else []
    case Await => [Tty.Program(cur, Tty.Await)]
    case Collect(nbytes) => [Tty.Program(cur, Tty.Collect(nbytes))]
    case Store(off, b) => [Tty.Program(cur, Tty.Poke(off, b))]
  }

  ghost predicate Ok(s: Whole) {
    Machine.WellFormedMachine(s.m) && s.w.Ok()
  }

  ghost predicate Can(s: Whole, ev: Event) {
    Ok(s) && (OnConsole(s.m.cur, ev) != [] ==> Tty.Possible(s.w, OnConsole(s.m.cur, ev)[0])) &&
    match ev
    case Call(e) => Machine.Can(s.m, e) && (e.Read? ==> e.fd != 0)
    case Keyboard(e) => !e.Program?
    case Write(fd, _) => Machine.Running(s.m) && fd != Machine.FDS
    case _ => Machine.Running(s.m)
  }

  ghost function Step(s: Whole, ev: Event): (r: Whole)
    requires Can(s, ev)
    ensures Ok(r)
  {
    Whole(if ev.Call? then Machine.Step(s.m, ev.ev) else s.m,
          if OnConsole(s.m.cur, ev) == [] then s.w else Tty.StepWorld(s.w, OnConsole(s.m.cur, ev)[0]))
  }

  ghost predicate CanAll(s: Whole, evs: seq<Event>)
    decreases |evs|
  {
    Ok(s) && (evs != [] ==> Can(s, evs[0]) && CanAll(Step(s, evs[0]), evs[1..]))
  }

  ghost function Run(s: Whole, evs: seq<Event>): (r: Whole)
    requires CanAll(s, evs)
    ensures Ok(r)
    decreases |evs|
  {
    if evs == [] then s else Run(Step(s, evs[0]), evs[1..])
  }

  // ---- The two halves of a run ----

  function Calls(evs: seq<Event>): seq<Machine.Event> {
    if evs == [] then [] else (if evs[0].Call? then [evs[0].ev] else []) + Calls(evs[1..])
  }

  /** What reaches the console during the run. */
  ghost function Consoles(s: Whole, evs: seq<Event>): seq<Tty.Event>
    requires CanAll(s, evs)
    decreases |evs|
  {
    if evs == [] then [] else OnConsole(s.m.cur, evs[0]) + Consoles(Step(s, evs[0]), evs[1..])
  }

  /** Every run is a run of the process stacks beside a run of the three terminals. */
  lemma {:induction false} RunSplits(s: Whole, evs: seq<Event>)
    requires CanAll(s, evs)
    ensures Machine.CanAll(s.m, Calls(evs)) && Tty.PossibleAll(s.w, Consoles(s, evs))
    ensures Run(s, evs) == Whole(Machine.Run(s.m, Calls(evs)), Tty.RunWorld(s.w, Consoles(s, evs)))
    decreases |evs|
  {
    if evs != [] {
      var next := Step(s, evs[0]);
      RunSplits(next, evs[1..]);
      CallsRun(s.m, next.m, evs);
      ConsolesRun(s.w, next.w, OnConsole(s.m.cur, evs[0]), Consoles(next, evs[1..]));
    }
  }

  lemma CallsRun(m: Machine.Machine, next: Machine.Machine, evs: seq<Event>)
    requires Machine.WellFormedMachine(m) && evs != [] && Machine.CanAll(next, Calls(evs[1..]))
    requires if evs[0].Call? then Machine.Can(m, evs[0].ev) && next == Machine.Step(m, evs[0].ev) else next == m
    ensures Machine.CanAll(m, Calls(evs)) && Machine.Run(m, Calls(evs)) == Machine.Run(next, Calls(evs[1..]))
  {
    var rest := Calls(evs[1..]);
    if evs[0].Call? {
      assert Calls(evs)[0] == evs[0].ev && Calls(evs)[1..] == rest;
    } else {
      assert Calls(evs) == rest;
    }
  }

  lemma ConsolesRun(w: Tty.World, next: Tty.World, first: seq<Tty.Event>, rest: seq<Tty.Event>)
    requires w.Ok() && |first| <= 1 && Tty.PossibleAll(next, rest)
    requires if first == [] then next == w else Tty.Possible(w, first[0]) && next == Tty.StepWorld(w, first[0])
    ensures Tty.PossibleAll(w, first + rest) && Tty.RunWorld(w, first + rest) == Tty.RunWorld(next, rest)
  {
    if first == [] {
      assert first + rest == rest;
    } else {
      assert (first + rest)[0] == first[0] && (first + rest)[1..] == rest;
    }
  }

  // ---- What one terminal sees ----

  /** No key is typed on terminal `t`, and while its thread is current no process calls on it. */
  ghost predicate Spared(s: Whole, evs: seq<Event>, t: nat)
    requires CanAll(s, evs)
    decreases |evs|
  {
    evs != [] ==>
      (if evs[0].Keyboard? then evs[0].key.Typed? ==> s.w.shown != t else s.m.cur == t ==> evs[0].Call?) &&
      Spared(Step(s, evs[0]), evs[1..], t)
  }

  /** Whatever the processes of the other threads do, such a terminal stays exactly as it is. */
  lemma {:induction false} SparedTerminalStays(s: Whole, evs: seq<Event>, t: nat)
    requires CanAll(s, evs) && t < Tty.TERMINALS && Spared(s, evs, t)
    ensures Run(s, evs).w.ttys[t] == s.w.ttys[t]
    decreases |evs|
  {
    if evs != [] {
      SparedTerminalStays(Step(s, evs[0]), evs[1..], t);
    }
  }

  /**
    A process of thread `t` that reads from descriptor 0 gets the line edited on terminal `t`, in any
    interleaving of processes, threads and keys that sends that terminal the keys of a line, an
    Enter, and nothing that edits it again.
   */
  lemma ProcessReadsItsLine(s: Whole, evs: seq<Event>, t: nat, es: seq<Tty.Input>, idle: seq<Tty.Input>, nbytes: nat)
    requires CanAll(s, evs) && t < Tty.TERMINALS && Tty.Disciplined(s.w.ttys[t]) && !s.w.ttys[t].ready
    requires Tty.Inputs(s.w.shown, Consoles(s, evs), t) == es + [Tty.Enter] + idle
    requires Tty.Editing(es) && (s.w.ttys[t].waiting || Tty.Await in es)
    requires Tty.Idle(idle, |Tty.Edited(s.w.ttys[t].line, es)| + 1)
    requires Machine.Running(Run(s, evs).m) && Run(s, evs).m.cur == t
    ensures Can(Run(s, evs), Collect(nbytes))
    ensures Tty.HandsOut(Run(s, evs).w.ttys[t], Tty.Edited(s.w.ttys[t].line, es), nbytes)
  {
    RunSplits(s, evs);
    Tty.ReadInAnyInterleaving(s.w, Consoles(s, evs), t, es, idle, nbytes);
  }

  /** The terminals after `tty` of them changed as told. */
  ghost predicate OnlyAt(s: Whole, r: Whole, t: nat, tty: Tty.Tty)
    requires Ok(s) && Ok(r) && t < Tty.TERMINALS
  {
    r.m == s.m && r.w.shown == s.w.shown && r.w.ttys[t] == tty &&
    forall u :: 0 <= u < Tty.TERMINALS && u != t ==> r.w.ttys[u] == s.w.ttys[u]
  }

  /**
    What a write to descriptor 1 does: each byte is put on the screen of the terminal of the current
    thread, whichever is displayed; its line and flags and the other terminals stay. A write to any
    other descriptor shows nothing.
   */
  lemma WriteIsShown(s: Whole, fd: int, bytes: seq<Byte>)
    requires Can(s, Write(fd, bytes))
    ensures var tty := s.w.ttys[s.m.cur];
      if fd == 1 then OnlyAt(s, Step(s, Write(1, bytes)), s.m.cur, tty.(screen := Screen.PutAll(tty.screen, bytes)))
      else Step(s, Write(fd, bytes)) == s
  {
  }

  /** What a terminal read and a store through the vidmap pointer do to it. */
  lemma ReadsAndStores(s: Whole, nbytes: nat, off: nat, b: Byte)
    requires Ok(s) && Machine.Running(s.m)
    ensures var t, tty := s.m.cur, s.w.ttys[s.m.cur];
      (Can(s, Await) ==> OnlyAt(s, Step(s, Await), t, tty.(waiting := true))) &&
      (Can(s, Collect(nbytes)) ==>
        OnlyAt(s, Step(s, Collect(nbytes)), t, tty.(line := [], waiting := false, ready := false))) &&
      (Can(s, Store(off, b)) ==>
        off < 4096 &&
        OnlyAt(s, Step(s, Store(off, b)), t, tty.(screen := tty.screen.(page := tty.screen.page[off := b]))))
  {
  }

  /** What terminal `t` gets from one event: keys while it is displayed, calls while its thread is current. */
  function Seen(s: Whole, ev: Event, t: nat): seq<Tty.Input> {
    match ev
    case Keyboard(Typed(e)) => if s.w.shown == t then [e] else []
    case Write(fd, bytes) => if fd == 1 && s.m.cur == t then [Tty.Output(bytes)] else []
    case Await => if s.m.cur == t then [Tty.Await] else []
    case Collect(nbytes) => if s.m.cur == t then [Tty.Collect(nbytes)] else []
    case Store(off, b) => if s.m.cur == t then [Tty.Poke(off, b)] else []
    case _ => []
  }

  ghost function AllSeen(s: Whole, evs: seq<Event>, t: nat): seq<Tty.Input>
    requires CanAll(s, evs)
    decreases |evs|
  {
    if evs == [] then [] else Seen(s, evs[0], t) + AllSeen(Step(s, evs[0]), evs[1..], t)
  }

  lemma InputsOfOne(shown: nat, first: seq<Tty.Event>, rest: seq<Tty.Event>, t: nat)
    requires |first| <= 1
    ensures first == [] ==> Tty.Inputs(shown, first + rest, t) == Tty.Inputs(shown, rest, t)
    ensures first != [] ==>
      Tty.Inputs(shown, first + rest, t) == match first[0]
        case Typed(e) => (if shown == t then [e] else []) + Tty.Inputs(shown, rest, t)
        case Program(u, e) => (if u == t then [e] else []) + Tty.Inputs(shown, rest, t)
        case Switch(to) => Tty.Inputs(to, rest, t)
  {
    if first == [] {
      assert first + rest == rest;
    } else {
      assert (first + rest)[0] == first[0] && (first + rest)[1..] == rest;
    }
  }

  /** The inputs that reach a terminal over a run are, in order, exactly those. */
  lemma {:induction false} InputsAreSeen(s: Whole, evs: seq<Event>, t: nat)
    requires CanAll(s, evs) && t < Tty.TERMINALS
    ensures Tty.Inputs(s.w.shown, Consoles(s, evs), t) == AllSeen(s, evs, t)
    decreases |evs|
  {
    if evs != [] {
      var next := Step(s, evs[0]);
      InputsAreSeen(next, evs[1..], t);
      InputsOfOne(s.w.shown, OnConsole(s.m.cur, evs[0]), Consoles(next, evs[1..]), t);
    }
  }

  /** So each terminal is the run of a dedicated one on what it sees. */
  lemma TerminalRuns(s: Whole, evs: seq<Event>, t: nat)
    requires CanAll(s, evs) && t < Tty.TERMINALS
    ensures Tty.FitsAll(s.w.ttys[t], AllSeen(s, evs, t))
    ensures Run(s, evs).w.ttys[t] == Tty.Run(s.w.ttys[t], AllSeen(s, evs, t))
  {
    RunSplits(s, evs);
    Tty.TerminalsAreIndependent(s.w, Consoles(s, evs), t);
    InputsAreSeen(s, evs, t);
  }

  /** Everything the processes of thread `t` write to descriptor 1 during the run. */
  ghost function Written(s: Whole, evs: seq<Event>, t: nat): seq<Byte>
    requires CanAll(s, evs)
    decreases |evs|
  {
    if evs == [] then []
    else
      (if evs[0].Write? && evs[0].fd == 1 && s.m.cur == t then evs[0].bytes else []) +
      Written(Step(s, evs[0]), evs[1..], t)
  }

  /** No key is typed on terminal `t`, and nothing is stored through a vidmap pointer to it. */
  ghost predicate OnlyWrites(s: Whole, evs: seq<Event>, t: nat)
    requires CanAll(s, evs)
    decreases |evs|
  {
    evs != [] ==>
      (evs[0].Keyboard? && evs[0].key.Typed? ==> s.w.shown != t) && (evs[0].Store? ==> s.m.cur != t) &&
      OnlyWrites(Step(s, evs[0]), evs[1..], t)
  }

  lemma {:induction false} PrintedIsWritten(s: Whole, evs: seq<Event>, t: nat)
    requires CanAll(s, evs) && t < Tty.TERMINALS && OnlyWrites(s, evs, t)
    requires Tty.FitsAll(s.w.ttys[t], AllSeen(s, evs, t))
    ensures Tty.PrintsOnly(AllSeen(s, evs, t))
    ensures Tty.Printed(s.w.ttys[t], AllSeen(s, evs, t)) == Written(s, evs, t)
    decreases |evs|
  {
    if evs != [] {
      var next, rest := Step(s, evs[0]), AllSeen(Step(s, evs[0]), evs[1..], t);
      var seen := Seen(s, evs[0], t);
      if seen == [] {
        assert seen + rest == rest && next.w.ttys[t] == s.w.ttys[t];
      } else {
        assert (seen + rest)[0] == seen[0] && (seen + rest)[1..] == rest;
        assert next.w.ttys[t] == Tty.Step(s.w.ttys[t], seen[0]);
      }
      PrintedIsWritten(next, evs[1..], t);
    }
  }

  /**
    What the user sees: over any interleaving, a terminal on which nothing is typed or stored shows the
    window of the layout of exactly the bytes its thread's processes wrote, in the order they wrote them.
   */
  lemma WrittenIsLaidOut(s: Whole, evs: seq<Event>, t: nat)
    requires CanAll(s, evs) && t < Tty.TERMINALS && OnlyWrites(s, evs, t)
    ensures Run(s, evs).w.ttys[t].screen == Screen.PutAll(s.w.ttys[t].screen, Written(s, evs, t))
    ensures Screen.Shows(s.w.ttys[t].screen, Run(s, evs).w.ttys[t].screen, Written(s, evs, t))
  {
    TerminalRuns(s, evs, t);
    PrintedIsWritten(s, evs, t);
    Tty.RunPrints(s.w.ttys[t], AllSeen(s, evs, t));
    Screen.ScreenIsWindowOfLayout(s.w.ttys[t].screen, Written(s, evs, t));
  }

  // ---- The system ----

  class System {
    const kernel: Kernel.Kernel
    const console: Terminals.Terminals

    ghost predicate Valid()
      reads this, kernel, kernel.img, kernel.pcbs, kernel.ptrs, kernel.pidStore, kernel.started
      reads console, console.mem, console.screenX, console.screenY, console.kbBuf, console.bufLoc, console.userPage
    {
      Apart() && kernel.Valid() && console.Valid() && Scheduling.AllStream(kernel.model)
    }

    /** The two parts share no memory. */
    ghost predicate Apart() {
      kernel.img != console.mem && kernel.img != console.kbBuf &&
      {kernel.ptrs, kernel.pidStore, kernel.started} !!
      {console.screenX, console.screenY, console.bufLoc, console.userPage}
    }

    ghost function View(): (s: Whole)
      requires Valid()
      reads this, kernel, kernel.img, kernel.pcbs, kernel.ptrs, kernel.pidStore, kernel.started
      reads console, console.mem, console.screenX, console.screenY, console.kbBuf, console.bufLoc, console.userPage
      reads console.readWaiting, console.readReady
      ensures Ok(s)
    {
      Whole(kernel.model, console.View())
    }

    constructor (img: array<Byte>, blank: Kernel.Pcb)
      requires FileSystem.WellFormed(img[..]) && |blank.fds| == Machine.FDS
      ensures Valid() && View().m == Machine.Boot(img[..])
    {
      Scheduling.BootIsSound(img[..]);
      var k := new Kernel.Kernel(img, blank);
      var c := new Terminals.Terminals.Boot();
      kernel, console := k, c;
    }

    /** The terminal the running process is attached to. */
    method Terminal() returns (t: nat)
      requires Valid() && Machine.Running(kernel.model)
      ensures t == kernel.model.cur < Tty.TERMINALS
    {
      kernel.RunningProcess();
      t := kernel.pcbs[kernel.curPid].terminal;
    }

    /** sys_write; `clock` is what the clock driver returned. */
    method SysWrite(fd: int, bytes: seq<Byte>, clock: int) returns (r: int)
      requires Valid() && Can(View(), Write(fd, bytes))
      modifies console.mem, console.screenX, console.screenY
      ensures Valid() && View() == Step(old(View()), Write(fd, bytes))
      ensures fd == 1 ==> r == |bytes|
    {
      if fd <= 0 || fd > Machine.FDS {
        return -1;
      }
      var kind := KindOf(fd);
      if kind == Machine.Unused {
        return -1;
      }
      if kind == Machine.Stdout {
        var t := Terminal();
        r := WriteTerminal(t, bytes, Tty.Program(t, Tty.Output(bytes)));
      } else {
        r := if kind == Machine.Rtc then clock else -1;
      }
    }

    /** terminalWrite for terminal `t`. */
    method WriteTerminal(t: nat, bytes: seq<Byte>, ghost ev: Tty.Event) returns (r: int)
      requires Valid() && t < Tty.TERMINALS && ev == Tty.Program(t, Tty.Output(bytes))
      requires Tty.Possible(console.View(), ev)
      modifies console.mem, console.screenX, console.screenY
      ensures Valid() && r == |bytes| && View() == old(View()).(w := Tty.StepWorld(old(View()).w, ev))
    {
      r := console.TerminalWrite(t, bytes);
    }

    /** What a descriptor of the running process stands for. */
    method KindOf(fd: nat) returns (kind: Machine.Kind)
      requires Valid() && Machine.Running(kernel.model) && 0 < fd < Machine.FDS
      ensures kind == Machine.Stdout <==> fd == 1
    {
      kernel.RunningProcess();
      StandardDescriptors();
      kind := kernel.pcbs[kernel.fdt].fds[fd].kind;
    }

    /** Descriptor 1 is the terminal, and no other descriptor writes to it. */
    lemma StandardDescriptors()
      requires Valid() && Machine.Running(kernel.model)
      ensures forall j :: 0 < j < Machine.FDS ==> (Machine.Top(kernel.model).fds[j].kind == Machine.Stdout <==> j == 1)
    {
      var m := kernel.model;
      assert Scheduling.Streams(m.img, m.stacks[m.cur][|m.stacks[m.cur]| - 1]);
    }

    // ---- Runs ----

    method OnKernel(ev: Machine.Event)
      requires Valid() && Can(View(), Call(ev))
      modifies kernel, kernel.pcbs, kernel.ptrs, kernel.pidStore, kernel.started
      ensures Valid() && View() == Step(old(View()), Call(ev))
    {
      kernel.Perform(ev);
    }

    method OnTerminals(ev: Tty.Event, base: nat)
      requires Valid() && Tty.Possible(console.View(), ev)
      modifies console, console.mem, console.screenX, console.screenY, console.userPage, console.kbBuf, console.bufLoc
      modifies console.readWaiting, console.readReady
      ensures Valid() && View() == old(View()).(w := Tty.StepWorld(old(View()).w, ev))
    {
      console.Handle(ev, base);
    }

    method Perform(ev: Event, base: nat)
      requires Valid() && Can(View(), ev)
      modifies kernel, kernel.pcbs, kernel.ptrs, kernel.pidStore, kernel.started
      modifies console, console.mem, console.screenX, console.screenY, console.userPage, console.kbBuf, console.bufLoc
      modifies console.readWaiting, console.readReady
      ensures Valid() && View() == Step(old(View()), ev)
    {
      match ev
      case Call(e) => OnKernel(e);
      case Keyboard(e) => OnTerminals(e, base);
      case Write(fd, bytes) => var r := SysWrite(fd, bytes, 0);
      case Await =>
        var t := Terminal();
        OnTerminals(Tty.Program(t, Tty.Await), base);
      case Collect(nbytes) =>
        var t := Terminal();
        OnTerminals(Tty.Program(t, Tty.Collect(nbytes)), base);
      case Store(off, b) =>
        var t := Terminal();
        OnTerminals(Tty.Program(t, Tty.Poke(off, b)), base);
    }

    /** Any run of interrupts, calls and keys drives the process stacks and the terminals side by side. */
    method PerformAll(evs: seq<Event>, base: nat)
      requires Valid() && CanAll(View(), evs)
      modifies kernel, kernel.pcbs, kernel.ptrs, kernel.pidStore, kernel.started
      modifies console, console.mem, console.screenX, console.screenY, console.userPage, console.kbBuf, console.bufLoc
      modifies console.readWaiting, console.readReady
      ensures Valid() && View() == Run(old(View()), evs)
      decreases |evs|
    {
      if evs != [] {
        Perform(evs[0], base);
        PerformAll(evs[1..], base);
      }
    }
  }
}
