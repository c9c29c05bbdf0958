// What the process table and the scheduler are meant to be: three stacks of processes,
// one per thread, run round robin. Only the top process of the current stack runs.

module Machine {
  import opened Memory
  import opened FileSystem

  const THREADS := 3
  const PROCESSES := 6
  const FDS := 8

  datatype Kind = Unused | Stdin | Stdout | Rtc | Directory | Regular

  datatype Fd = Fd(kind: Kind, inode: nat, pos: int)

  /** A process; `ctx` is the kernel context its parent left in sys_execute, `got` what each descriptor delivered. */
  datatype Proc = Proc(pid: nat, ctx: nat, exception: bool, fds: seq<Fd>, got: seq<seq<Byte>>)

  datatype Machine = Machine(stacks: seq<seq<Proc>>, cur: nat, img: seq<Byte>)

  /** The state at boot: no shell started, thread 0 current. */
  function Boot(img: seq<Byte>): Machine {
    Machine([[], [], []], 0, img)
  }

  function FreshFds(): (fds: seq<Fd>)
    ensures |fds| == FDS
  {
    [Fd(Stdin, 0, 0), Fd(Stdout, 0, 0)] + seq(FDS - 2, _ => Fd(Unused, 0, -1))
  }

  function NewProc(pid: nat, ctx: nat): Proc {
    Proc(pid, ctx, false, FreshFds(), seq(FDS, _ => []))
  }

  ghost predicate WellFormedMachine(m: Machine) {
    |m.stacks| == THREADS && m.cur < THREADS && WellFormed(m.img) &&
    forall t, i :: 0 <= t < THREADS && 0 <= i < |m.stacks[t]| ==> |m.stacks[t][i].fds| == FDS == |m.stacks[t][i].got|
  }

  // ---- Allocation of process numbers ----

  ghost predicate Uses(stacks: seq<seq<Proc>>, p: nat) {
    exists t, i :: 0 <= t < |stacks| && 0 <= i < |stacks[t]| && stacks[t][i].pid == p
  }

  /** The least unused process number from `p` on; 6 when there is none. */
  ghost function FreePid(stacks: seq<seq<Proc>>, p: nat): (r: nat)
    requires p <= PROCESSES
    ensures p <= r <= PROCESSES && (r < PROCESSES ==> !Uses(stacks, r))
    ensures forall q :: p <= q < r ==> Uses(stacks, q)
    decreases PROCESSES - p
  {
    if p == PROCESSES || !Uses(stacks, p) then p else FreePid(stacks, p + 1)
  }

  // ---- Programs ----

  const BLANK: Byte := 32
  const SHELL: seq<Byte> := [115, 104, 101, 108, 108, 0]
  const MAGIC: seq<Byte> := [0x7F, 0x45, 0x4C, 0x46]

  /** Number of characters before the first NUL or blank, at most 32. */
  function NameLength(command: seq<Byte>, n: nat): (r: nat)
    ensures r <= n && r <= |command|
  {
    if n == 0 || command == [] || command[0] == 0 || command[0] == BLANK then 0
    else 1 + NameLength(command[1..], n - 1)
  }

  /** The 32-byte name field sys_execute looks up: the first word of the command, padded with NULs. */
  function ProgramName(command: seq<Byte>): (r: seq<Byte>)
    ensures |r| == NAME
  {
    var n := NameLength(command, NAME);
    command[..n] + Fill(0, NAME - n)
  }

  /** The command names a file that sys_execute will run. */
  ghost predicate Loadable(img: seq<Byte>, command: seq<Byte>)
    requires WellFormed(img)
  {
    var d := Lookup(img, ProgramName(command));
    d.Some? && |File(img, d.value.inode)| >= 24 && File(img, d.value.inode)[..4] == MAGIC
  }

  const PROGRAM_PAGE := 0x40_0000
  const PROGRAM_START := 0x4_8000   // where 0x08048000 lies in the 4MB page at 128MB

  /** The program ends before its page does; the page after it is not present. */
  ghost predicate FitsPage(img: seq<Byte>, command: seq<Byte>)
    requires WellFormed(img) && Loadable(img, command)
  {
    |File(img, Lookup(img, ProgramName(command)).value.inode)| <= PROGRAM_PAGE - PROGRAM_START
  }

  ghost predicate Runnable(img: seq<Byte>, command: seq<Byte>)
    requires WellFormed(img)
  {
    Loadable(img, command) && FitsPage(img, command)
  }

  // ---- Steps ----

  datatype Event =
    | Tick                                          // the timer interrupt
    | Execute(command: Option<seq<Byte>>, ctx: nat)  // None is the NULL pointer
    | Halt(status: Byte)
    | Exception
    | Open(name: Option<seq<Byte>>)
    | Read(fd: int, nbytes: int)
    | Close(fd: int)

  ghost predicate Running(m: Machine)
    requires WellFormedMachine(m)
  {
    m.stacks[m.cur] != []
  }

  function Next(t: nat): nat {
    (t + 1) % THREADS
  }

  /** The thread the timer interrupt leaves current. */
  ghost function Target(m: Machine): (t: nat)
    requires WellFormedMachine(m)
    ensures t < THREADS
  {
    if Running(m) then Next(m.cur) else m.cur
  }

  /** A process can start: there is a free number and its program loads. */
  ghost predicate Startable(m: Machine, command: seq<Byte>)
    requires WellFormedMachine(m)
  {
    FreePid(m.stacks, 0) < PROCESSES && Loadable(m.img, command)
  }

  /** The program passes every test of sys_execute, but its copy runs off its page. */
  ghost predicate Faults(m: Machine, command: seq<Byte>)
    requires WellFormedMachine(m)
  {
    Startable(m, command) && !FitsPage(m.img, command)
  }

  /** The event can happen and the code handles it: a shell that has to be started can be, and no load faults. */
  ghost predicate Can(m: Machine, ev: Event) {
    WellFormedMachine(m) &&
    match ev
    case Tick => m.stacks[Target(m)] != [] || (Startable(m, SHELL) && !Faults(m, SHELL))
    case Execute(command, _) => Running(m) && (command.Some? ==> 0 in command.value && !Faults(m, command.value))
    case Open(name) => Running(m) && (name.Some? ==> Scannable(name.value, NAME))
    case Read(fd, _) => Running(m) && fd != FDS
    case Close(fd) => Running(m) && fd != FDS
    case _ => Running(m)
  }

  ghost function Top(m: Machine): Proc
    requires WellFormedMachine(m) && Running(m)
  {
    m.stacks[m.cur][|m.stacks[m.cur]| - 1]
  }

  ghost function Push(m: Machine, t: nat, ctx: nat): (r: Machine)
    requires WellFormedMachine(m) && t < THREADS
    ensures WellFormedMachine(r)
  {
    m.(stacks := m.stacks[t := m.stacks[t] + [NewProc(FreePid(m.stacks, 0), ctx)]], cur := t)
  }

  ghost function Pop(m: Machine): (r: Machine)
    requires WellFormedMachine(m) && Running(m)
    ensures WellFormedMachine(r)
  {
    m.(stacks := m.stacks[m.cur := m.stacks[m.cur][..|m.stacks[m.cur]| - 1]])
  }

  ghost function SetTop(m: Machine, p: Proc): (r: Machine)
    requires WellFormedMachine(m) && Running(m) && |p.fds| == FDS == |p.got|
    ensures WellFormedMachine(r) && Running(r) && Top(r) == p
  {
    m.(stacks := m.stacks[m.cur := m.stacks[m.cur][|m.stacks[m.cur]| - 1 := p]])
  }

  ghost function Step(m: Machine, ev: Event): (r: Machine)
    requires Can(m, ev)
    ensures WellFormedMachine(r) && r.img == m.img
  {
    match ev
    case Tick => if m.stacks[Target(m)] == [] then Push(m, Target(m), 0) else m.(cur := Target(m))
    case Execute(command, ctx) =>
      if command.Some? && Startable(m, command.value) then Push(m, m.cur, ctx) else m
    case Halt(_) => Pop(m)
    case Exception => Pop(m)
    case Open(name) => SetTop(m, Opened(m.img, Top(m), name))
    case Read(fd, nbytes) => SetTop(m, AfterRead(m.img, Top(m), fd, nbytes))
    case Close(fd) => SetTop(m, Closed(Top(m), fd))
  }

  /** The value handed to the parent when the top process halts: the status, or 256 after an exception. */
  function HaltValue(ev: Event, p: Proc): int
    requires ev.Halt? || ev.Exception?
  {
    match ev
    case Halt(status) => status + if p.exception then 1 else 0
    case Exception => 256
  }

  // ---- Descriptors ----

  const STDIN: seq<Byte> := [115, 116, 100, 105, 110, 0]
  const STDOUT: seq<Byte> := [115, 116, 100, 111, 117, 116, 0]

  /** The first unused descriptor from `j` on; 8 when there is none. */
  function FreeFd(fds: seq<Fd>, j: nat): (r: nat)
    requires |fds| == FDS && j <= FDS
    ensures j <= r <= FDS && (r < FDS ==> fds[r].kind == Unused) && forall i :: j <= i < r ==> fds[i].kind != Unused
    decreases FDS - j
  {
    if j == FDS || fds[j].kind == Unused then j else FreeFd(fds, j + 1)
  }

  function KindOf(fileType: nat): Kind {
    if fileType == 0 then Rtc else if fileType == 1 then Directory else if fileType == 2 then Regular else Unused
  }

  /** The names that stand for the two standard descriptors: any with that prefix. */
  predicate IsStdin(name: seq<Byte>) { CString(name, 5) == CString(STDIN, 5) }
  predicate IsStdout(name: seq<Byte>) { CString(name, 6) == CString(STDOUT, 6) }

  /** What sys_open returns. */
  ghost function OpenValue(img: seq<Byte>, p: Proc, name: Option<seq<Byte>>): int
    requires WellFormed(img) && |p.fds| == FDS
  {
    if name.None? then -1
    else if IsStdin(name.value) then 0
    else if IsStdout(name.value) then 1
    else
      var j, d := FreeFd(p.fds, 2), Lookup(img, name.value);
      if j == FDS || d.None? || KindOf(d.value.fileType) == Unused then -1 else j
  }

  /** The process after sys_open; a file of unknown type leaves its entry written but unused. */
  ghost function Opened(img: seq<Byte>, p: Proc, name: Option<seq<Byte>>): (r: Proc)
    requires WellFormed(img) && |p.fds| == FDS == |p.got|
    ensures |r.fds| == FDS == |r.got|
  {
    if name.None? || IsStdin(name.value) || IsStdout(name.value) then p
    else
      var j, d := FreeFd(p.fds, 2), Lookup(img, name.value);
      if j == FDS || d.None? then p
      else
        var kind := KindOf(d.value.fileType);
        p.(fds := p.fds[j := Fd(kind, if kind == Regular then d.value.inode else 0, 0)], got := p.got[j := []])
  }

  /** The checks of sys_read that come before the descriptor's own read routine. */
  predicate Readable(p: Proc, fd: int, nbytes: int)
    requires |p.fds| == FDS
  {
    0 <= fd < FDS && fd != 1 && nbytes >= 0 && p.fds[fd].kind != Unused
  }

  /** The bytes a read of a regular file delivers. */
  ghost function Delivered(img: seq<Byte>, f: Fd, nbytes: nat): seq<Byte>
    requires WellFormed(img)
  {
    var r := if f.pos < 0 then -1 else ReadResult(img, f.inode, f.pos, nbytes);
    if r < 0 then [] else File(img, f.inode)[f.pos..f.pos + r]
  }

  ghost function AfterRead(img: seq<Byte>, p: Proc, fd: int, nbytes: int): (r: Proc)
    requires WellFormed(img) && |p.fds| == FDS == |p.got|
    ensures |r.fds| == FDS == |r.got|
  {
    if !Readable(p, fd, nbytes) then p
    else
      var f := p.fds[fd];
      match f.kind
      case Regular =>
        var data := Delivered(img, f, nbytes);
        p.(fds := p.fds[fd := f.(pos := f.pos + |data|)], got := p.got[fd := p.got[fd] + data])
      case Directory =>
        if f.pos == NumEntries(img) then p.(fds := p.fds[fd := f.(pos := 0)])
        else if 0 <= f.pos < NumEntries(img) then p.(fds := p.fds[fd := f.(pos := f.pos + 1)])
        else p
      case _ => p
  }

  predicate Closable(p: Proc, fd: int)
    requires |p.fds| == FDS
  {
    2 <= fd < FDS && p.fds[fd].kind != Unused
  }

  function Closed(p: Proc, fd: int): (r: Proc)
    requires |p.fds| == FDS == |p.got|
    ensures |r.fds| == FDS == |r.got|
  {
    if Closable(p, fd) then p.(fds := p.fds[fd := p.fds[fd].(kind := Unused)]) else p
  }

  // ---- Runs ----

  ghost predicate CanAll(m: Machine, evs: seq<Event>)
    decreases |evs|
  {
    WellFormedMachine(m) && (evs != [] ==> Can(m, evs[0]) && CanAll(Step(m, evs[0]), evs[1..]))
  }

  ghost function Run(m: Machine, evs: seq<Event>): (r: Machine)
    requires CanAll(m, evs)
    ensures WellFormedMachine(r) && r.img == m.img
    decreases |evs|
  {
    if evs == [] then m else Run(Step(m, evs[0]), evs[1..])
  }
}
