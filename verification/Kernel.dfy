// The process table and scheduler as the kernel implements them: one flat table of six
// process control blocks, three saved process numbers, one program page-directory entry,
// one descriptor-table pointer and one kernel stack pointer. They are shown to run the
// three process stacks of module Machine.

module Kernel {
  import opened Memory
  import opened FileSystem
  import opened Machine
  import opened Scheduling

  const EIGHT_MB := 0x80_0000
  const FOUR_MB := 0x40_0000
  const EIGHT_KB := 0x2000
  const PAGE_SIZE := 4096

  /** Where the control block of process `pid` lies: the bottom of its 8KB kernel stack. */
  function PcbAddress(pid: int): int {
    EIGHT_MB - (pid + 1) * EIGHT_KB
  }

  /** The first stack address used on entry to the kernel. */
  function KernelStack(pid: int): int {
    EIGHT_MB - pid * EIGHT_KB - 4
  }

  /** The page number of the 4MB frame that holds the program. */
  function Frame(pid: int): int {
    (EIGHT_MB + pid * FOUR_MB) / PAGE_SIZE
  }

  datatype Pcb = Pcb(pid: int, parent: int, pde: int, ctx: nat, exception: bool, terminal: int, fds: seq<Fd>)

  /** The globals of the process subsystem. `fdt` is the process whose table the descriptor pointer refers to. */
  datatype KState = KState(pcbs: seq<Pcb>, ptrs: seq<int>, curPid: int, curThread: int,
                           pidStore: seq<int>, started: seq<int>, pde: int, fdt: int, esp0: int)

  ghost predicate Shape(k: KState) {
    |k.pcbs| == |k.ptrs| == PROCESSES && |k.pidStore| == |k.started| == THREADS && 0 <= k.curThread < THREADS
  }

  // ---- The table holds the stacks ----

  /** The control block of process `i` on stack `t`; `depth` remembers the stack positions. */
  ghost predicate Slot(k: KState, stacks: seq<seq<Proc>>, depth: seq<nat>, t: nat, i: nat)
    requires Shape(k) && |depth| == PROCESSES && t < |stacks| && i < |stacks[t]|
  {
    var p := stacks[t][i];
    p.pid < PROCESSES && k.ptrs[p.pid] == PcbAddress(p.pid) && depth[p.pid] == i &&
    k.pcbs[p.pid] ==
      Pcb(p.pid, if i == 0 then -1 else stacks[t][i - 1].pid, Frame(p.pid), p.ctx, p.exception, t, p.fds)
  }

  /** A non-NULL table entry is a process on the stack of its terminal. */
  ghost predicate Placed(k: KState, stacks: seq<seq<Proc>>, depth: seq<nat>, p: nat)
    requires Shape(k) && |depth| == PROCESSES && p < PROCESSES && |stacks| == THREADS
  {
    k.ptrs[p] != 0 ==>
      var t := k.pcbs[p].terminal;
      0 <= t < THREADS && depth[p] < |stacks[t]| && stacks[t][depth[p]].pid == p
  }

  ghost predicate Table(k: KState, stacks: seq<seq<Proc>>, depth: seq<nat>) {
    Shape(k) && |depth| == PROCESSES && |stacks| == THREADS &&
    (forall t: nat, i: nat :: t < THREADS && i < |stacks[t]| ==> Slot(k, stacks, depth, t, i)) &&
    (forall p: nat :: p < PROCESSES ==> Placed(k, stacks, depth, p))
  }

  function Last(s: seq<Proc>): Proc
    requires s != []
  {
    s[|s| - 1]
  }

  /** A started thread has a stack, and a thread switched away from remembers its top process. */
  ghost predicate Threads(k: KState, stacks: seq<seq<Proc>>)
    requires Shape(k) && |stacks| == THREADS
  {
    forall t :: 0 <= t < THREADS ==>
      (k.started[t] != 0 <==> stacks[t] != []) &&
      (t != k.curThread && stacks[t] != [] ==> k.pidStore[t] == Last(stacks[t]).pid)
  }

  /** Page directory, descriptor pointer and kernel stack belong to the running process. */
  ghost predicate Context(k: KState, stacks: seq<seq<Proc>>)
    requires Shape(k) && |stacks| == THREADS
  {
    stacks[k.curThread] != [] ==>
      k.curPid == Last(stacks[k.curThread]).pid && k.fdt == k.curPid &&
      k.pde == Frame(k.curPid) && k.esp0 == KernelStack(k.curPid)
  }

  ghost predicate Sim(k: KState, m: Machine, depth: seq<nat>) {
    WellFormedMachine(m) && Table(k, m.stacks, depth) && Threads(k, m.stacks) && Context(k, m.stacks) &&
    k.curThread == m.cur
  }

  /** The table has a NULL entry exactly where the stacks have an unused number. */
  lemma FreeIsNull(k: KState, stacks: seq<seq<Proc>>, depth: seq<nat>, p: nat)
    requires Table(k, stacks, depth) && p < PROCESSES
    ensures k.ptrs[p] == 0 <==> !Uses(stacks, p)
  {
    assert Placed(k, stacks, depth, p);
    if k.ptrs[p] != 0 {
      assert stacks[k.pcbs[p].terminal][depth[p]].pid == p;
    }
    if Uses(stacks, p) {
      var t, i :| 0 <= t < |stacks| && 0 <= i < |stacks[t]| && stacks[t][i].pid == p;
      assert Slot(k, stacks, depth, t, i);
    }
  }

  /** Addresses and page of a live process. */
  lemma LiveSlot(k: KState, stacks: seq<seq<Proc>>, depth: seq<nat>, p: nat)
    requires Table(k, stacks, depth) && p < PROCESSES && k.ptrs[p] != 0
    ensures k.ptrs[p] == PcbAddress(p) && k.pcbs[p].pde == Frame(p)
  {
    assert Placed(k, stacks, depth, p);
    assert Slot(k, stacks, depth, k.pcbs[p].terminal, depth[p]);
  }

  /** The first NULL entry of the table from `p` on; 6 when there is none. */
  function FirstNull(ptrs: seq<int>, p: nat): (r: nat)
    requires |ptrs| == PROCESSES && p <= PROCESSES
    ensures p <= r <= PROCESSES && (r < PROCESSES ==> ptrs[r] == 0)
    decreases PROCESSES - p
  {
    if p == PROCESSES || ptrs[p] == 0 then p else FirstNull(ptrs, p + 1)
  }

  lemma {:induction false} FirstNullIsFree(k: KState, stacks: seq<seq<Proc>>, depth: seq<nat>, p: nat)
    requires Table(k, stacks, depth) && p <= PROCESSES
    ensures FirstNull(k.ptrs, p) == FreePid(stacks, p)
    decreases PROCESSES - p
  {
    if p < PROCESSES {
      FreeIsNull(k, stacks, depth, p);
      FirstNullIsFree(k, stacks, depth, p + 1);
    }
  }

  /** A new process on top of stack `t`. */
  lemma PushTable(k: KState, stacks: seq<seq<Proc>>, depth: seq<nat>, t: nat, p: Proc)
    requires Table(k, stacks, depth) && t < THREADS && p.pid < PROCESSES && k.ptrs[p.pid] == 0
    ensures var parent := if stacks[t] == [] then -1 else Last(stacks[t]).pid;
      var pcb := Pcb(p.pid, parent, Frame(p.pid), p.ctx, p.exception, t, p.fds);
      Table(k.(pcbs := k.pcbs[p.pid := pcb], ptrs := k.ptrs[p.pid := PcbAddress(p.pid)]),
            stacks[t := stacks[t] + [p]], depth[p.pid := |stacks[t]|])
  {
    var parent := if stacks[t] == [] then -1 else Last(stacks[t]).pid;
    var pcb := Pcb(p.pid, parent, Frame(p.pid), p.ctx, p.exception, t, p.fds);
    var k' := k.(pcbs := k.pcbs[p.pid := pcb], ptrs := k.ptrs[p.pid := PcbAddress(p.pid)]);
    var stacks', depth' := stacks[t := stacks[t] + [p]], depth[p.pid := |stacks[t]|];
    forall u: nat, i: nat | u < THREADS && i < |stacks'[u]| ensures Slot(k', stacks', depth', u, i) {
      if i < |stacks[u]| {
        assert Slot(k, stacks, depth, u, i);
        if i > 0 { assert Slot(k, stacks, depth, u, i - 1); }
      }
    }
    forall q: nat | q < PROCESSES ensures Placed(k', stacks', depth', q) {
      assert Placed(k, stacks, depth, q);
    }
  }

  /** The top process of stack `t` leaves. */
  lemma PopTable(k: KState, stacks: seq<seq<Proc>>, depth: seq<nat>, t: nat)
    requires Table(k, stacks, depth) && t < THREADS && stacks[t] != []
    ensures 0 <= Last(stacks[t]).pid < PROCESSES
    ensures Table(k.(ptrs := k.ptrs[Last(stacks[t]).pid := 0]), stacks[t := stacks[t][..|stacks[t]| - 1]], depth)
  {
    var n := |stacks[t]|;
    assert Slot(k, stacks, depth, t, n - 1);
    var gone := Last(stacks[t]).pid;
    var k', stacks' := k.(ptrs := k.ptrs[gone := 0]), stacks[t := stacks[t][..n - 1]];
    forall u: nat, i: nat | u < THREADS && i < |stacks'[u]| ensures Slot(k', stacks', depth, u, i) {
      assert Slot(k, stacks, depth, u, i);
      if i > 0 { assert Slot(k, stacks, depth, u, i - 1); }
    }
    forall q: nat | q < PROCESSES ensures Placed(k', stacks', depth, q) {
      assert Placed(k, stacks, depth, q);
    }
  }

  /** The top process of stack `t` changes its descriptors or its exception flag. */
  lemma SetTopTable(k: KState, stacks: seq<seq<Proc>>, depth: seq<nat>, t: nat, p: Proc)
    requires Table(k, stacks, depth) && t < THREADS && stacks[t] != []
    requires p == Last(stacks[t]).(fds := p.fds, got := p.got, exception := p.exception)
    ensures p.pid < PROCESSES
    ensures Table(k.(pcbs := k.pcbs[p.pid := k.pcbs[p.pid].(fds := p.fds, exception := p.exception)]),
                  stacks[t := stacks[t][|stacks[t]| - 1 := p]], depth)
  {
    var n := |stacks[t]|;
    assert Slot(k, stacks, depth, t, n - 1);
    var k' := k.(pcbs := k.pcbs[p.pid := k.pcbs[p.pid].(fds := p.fds, exception := p.exception)]);
    var stacks' := stacks[t := stacks[t][n - 1 := p]];
    forall u: nat, i: nat | u < THREADS && i < |stacks'[u]| ensures Slot(k', stacks', depth, u, i) {
      assert Slot(k, stacks, depth, u, i);
      if i > 0 { assert Slot(k, stacks, depth, u, i - 1); }
    }
    forall q: nat | q < PROCESSES ensures Placed(k', stacks', depth, q) {
      assert Placed(k, stacks, depth, q);
    }
  }

  // ---- The state changes ----

  /** sys_execute from its commit point on. */
  function Executed(k: KState, pid: nat, ctx: nat): KState
    requires |k.pcbs| == |k.ptrs| == PROCESSES && pid < PROCESSES
  {
    var terminal := if 0 <= k.curPid < PROCESSES then k.pcbs[k.curPid].terminal else k.curThread;
    k.(pcbs := k.pcbs[pid := Pcb(pid, k.curPid, Frame(pid), ctx, false, terminal, FreshFds())],
       ptrs := k.ptrs[pid := PcbAddress(pid)],
       curPid := pid, pde := Frame(pid), fdt := pid, esp0 := KernelStack(pid))
  }

  /** sys_execute interrupted while the program is copied: no context is saved and the stack pointer is the old one. */
  function Committed(k: KState, pid: nat): KState
    requires |k.pcbs| == |k.ptrs| == PROCESSES && pid < PROCESSES
  {
    Executed(k, pid, k.pcbs[pid].ctx).(esp0 := k.esp0)
  }

  /**
    What a fault in the copy leaves behind: the new process is current, on its own page and with its own
    descriptors, but the context in its control block and the kernel stack pointer are still the old ones.
   */
  lemma FaultLeaves(k: KState, pid: nat)
    requires |k.pcbs| == |k.ptrs| == PROCESSES && pid < PROCESSES
    ensures var r := Committed(k, pid);
      r.curPid == pid == r.fdt && 4096 * r.pde == 0x80_0000 + 0x40_0000 * pid &&
      r.ptrs[pid] == 0x7F_E000 - 0x2000 * pid &&
      r.pcbs[pid].ctx == k.pcbs[pid].ctx && r.esp0 == k.esp0 && r.pcbs[pid].parent == k.curPid &&
      r.curThread == k.curThread && r.pidStore == k.pidStore && r.started == k.started &&
      forall q :: 0 <= q < PROCESSES && q != pid ==> r.pcbs[q] == k.pcbs[q] && r.ptrs[q] == k.ptrs[q]
  {
  }

  /** The command passes all tests that come before the commit point. */
  ghost predicate Passes(img: seq<Byte>, k: KState, command: Option<seq<Byte>>)
    requires WellFormed(img) && |k.ptrs| == PROCESSES
  {
    command.Some? && FirstNull(k.ptrs, 0) < PROCESSES && Loadable(img, command.value)
  }

  /** The copy stays on its page exactly when the file is short enough. */
  lemma LoadFitsIff(img: seq<Byte>, inode: nat)
    requires WellFormed(img)
    ensures PROGRAM_START + ReadResult(img, inode, 0, PROGRAM_PAGE) <= PROGRAM_PAGE <==>
      |File(img, inode)| <= PROGRAM_PAGE - PROGRAM_START
  {
  }

  /** A state about to execute on thread `t`, running or with its start just recorded. */
  ghost predicate Starting(k: KState, m: Machine, depth: seq<nat>, t: nat) {
    WellFormedMachine(m) && Table(k, m.stacks, depth) && t < THREADS && k.curThread == t && k.started[t] != 0 &&
    k.curPid == (if m.stacks[t] == [] then -1 else Last(m.stacks[t]).pid) &&
    forall u :: 0 <= u < THREADS && u != t ==>
      (k.started[u] != 0 <==> m.stacks[u] != []) && (m.stacks[u] != [] ==> k.pidStore[u] == Last(m.stacks[u]).pid)
  }

  lemma ExecutedSim(k: KState, m: Machine, depth: seq<nat>, t: nat, ctx: nat, pid: nat)
    requires Starting(k, m, depth, t) && pid == FreePid(m.stacks, 0) < PROCESSES
    ensures -1 <= k.curPid < PROCESSES
    ensures Sim(Executed(k, pid, ctx), Push(m, t, ctx), depth[pid := |m.stacks[t]|])
  {
    if m.stacks[t] != [] {
      assert Slot(k, m.stacks, depth, t, |m.stacks[t]| - 1);
    }
    FreeIsNull(k, m.stacks, depth, pid);
    PushTable(k, m.stacks, depth, t, NewProc(pid, ctx));
    var k', m' := Executed(k, pid, ctx), Push(m, t, ctx);
    TableIgnores(k.(pcbs := k'.pcbs, ptrs := k'.ptrs), k', m'.stacks, depth[pid := |m.stacks[t]|]);
    assert Last(m'.stacks[t]).pid == pid;
  }

  /** sys_halt of a root shell: the thread waits for the timer to start a new one. */
  function HaltedRoot(k: KState): KState
    requires Shape(k) && 0 <= k.curPid < PROCESSES
  {
    k.(ptrs := k.ptrs[k.curPid := 0], started := k.started[k.curThread := 0])
  }

  /** sys_halt of a child: its parent runs again. */
  function HaltedChild(k: KState, parent: int): KState
    requires Shape(k) && 0 <= k.curPid < PROCESSES && 0 <= parent < PROCESSES
  {
    k.(ptrs := k.ptrs[k.curPid := 0], curPid := parent, pde := k.pcbs[parent].pde, fdt := parent,
       esp0 := KernelStack(parent))
  }

  lemma HaltedSim(k: KState, m: Machine, depth: seq<nat>)
    requires Sim(k, m, depth) && Running(m)
    ensures 0 <= k.curPid < PROCESSES && -1 <= k.pcbs[k.curPid].parent < PROCESSES
    ensures var parent := k.pcbs[k.curPid].parent;
      Sim(if parent == -1 then HaltedRoot(k) else HaltedChild(k, parent), Pop(m), depth)
  {
    var t, n := m.cur, |m.stacks[m.cur]|;
    assert Slot(k, m.stacks, depth, t, n - 1);
    if n > 1 { assert Slot(k, m.stacks, depth, t, n - 2); }
    PopTable(k, m.stacks, depth, t);
    var parent := k.pcbs[k.curPid].parent;
    var k' := if parent == -1 then HaltedRoot(k) else HaltedChild(k, parent);
    assert Table(k', Pop(m).stacks, depth) by {
      TableIgnores(k.(ptrs := k.ptrs[k.curPid := 0]), k', Pop(m).stacks, depth);
    }
  }

  /** The table does not depend on the other globals. */
  lemma TableIgnores(k: KState, k': KState, stacks: seq<seq<Proc>>, depth: seq<nat>)
    requires Table(k, stacks, depth) && Shape(k') && k'.pcbs == k.pcbs && k'.ptrs == k.ptrs
    ensures Table(k', stacks, depth)
  {
    forall u: nat, i: nat | u < THREADS && i < |stacks[u]| ensures Slot(k', stacks, depth, u, i) {
      assert Slot(k, stacks, depth, u, i);
    }
    forall q: nat | q < PROCESSES ensures Placed(k', stacks, depth, q) {
      assert Placed(k, stacks, depth, q);
    }
  }

  /** PIThandler up to its second test: the next thread is current. */
  function Rotated(k: KState): KState
    requires Shape(k)
  {
    k.(pidStore := k.pidStore[k.curThread := k.curPid], curThread := (k.curThread + 1) % THREADS)
  }

  /** The rest of PIThandler for a thread that has its shell. */
  function Resumed(k: KState): KState
    requires Shape(k)
  {
    var pid := k.pidStore[k.curThread];
    k.(curPid := pid, fdt := pid, pde := Frame(pid), esp0 := KernelStack(pid))
  }

  /** PIThandler before it executes a shell. */
  function ShellDue(k: KState): KState
    requires Shape(k)
  {
    k.(curPid := -1, started := k.started[k.curThread := 1])
  }

  /** PIThandler at the point where it executes a shell. */
  function AtRestart(k: KState): KState
    requires Shape(k)
  {
    ShellDue(if k.started[k.curThread] == 0 then k else Rotated(k))
  }

  /** What a restart that fails leaves behind: the shell is recorded as started, and no process is current. */
  lemma RestartLeaves(k: KState)
    requires Shape(k)
    ensures var r, t := AtRestart(k), if k.started[k.curThread] == 0 then k.curThread else (k.curThread + 1) % 3;
      r.curThread == t && r.started == k.started[t := 1] && r.curPid == -1 && r.pcbs == k.pcbs && r.ptrs == k.ptrs &&
      r.pidStore == if t == k.curThread then k.pidStore else k.pidStore[k.curThread := k.curPid]
  {
  }

  lemma ResumedSim(k: KState, m: Machine, depth: seq<nat>)
    requires Sim(k, m, depth) && Running(m) && m.stacks[Target(m)] != []
    ensures Sim(Resumed(Rotated(k)), Step(m, Tick), depth)
    ensures 0 <= Resumed(Rotated(k)).curPid < PROCESSES
  {
    var k' := Resumed(Rotated(k));
    TableIgnores(k, k', m.stacks, depth);
    assert Slot(k, m.stacks, depth, k'.curThread, |m.stacks[k'.curThread]| - 1);
  }

  lemma ShellDueStarts(k: KState, m: Machine, depth: seq<nat>)
    requires Sim(k, m, depth) && m.stacks[Target(m)] == []
    ensures Starting(ShellDue(if Running(m) then Rotated(k) else k), m, depth, Target(m))
  {
    TableIgnores(k, ShellDue(if Running(m) then Rotated(k) else k), m.stacks, depth);
  }

  /** The running process's descriptors change. */
  lemma FdsSim(k: KState, m: Machine, depth: seq<nat>, p: Proc)
    requires Sim(k, m, depth) && Running(m) && |p.fds| == FDS == |p.got|
    requires p == Top(m).(fds := p.fds, got := p.got, exception := p.exception)
    ensures 0 <= k.curPid < PROCESSES
    ensures Sim(k.(pcbs := k.pcbs[k.curPid := k.pcbs[k.curPid].(fds := p.fds, exception := p.exception)]),
                SetTop(m, p), depth)
  {
    SetTopTable(k, m.stacks, depth, m.cur, p);
  }

  // ---- What the correspondence says about the table itself ----

  /** The process reached from `p` by `n` parent links. */
  function Ancestor(k: KState, p: int, n: nat): int
    requires |k.pcbs| == PROCESSES
    decreases n
  {
    if n == 0 || p < 0 || p >= PROCESSES then p else Ancestor(k, k.pcbs[p].parent, n - 1)
  }

  lemma {:induction false} AncestorOnStack(k: KState, stacks: seq<seq<Proc>>, depth: seq<nat>, t: nat, i: nat, n: nat)
    requires Table(k, stacks, depth) && t < THREADS && i < |stacks[t]| && n <= i
    ensures Ancestor(k, stacks[t][i].pid, n) == stacks[t][i - n].pid
    decreases n
  {
    assert Slot(k, stacks, depth, t, i);
    if n > 0 {
      AncestorOnStack(k, stacks, depth, t, i - 1, n - 1);
    }
  }

  /** The process of thread `t` that is running or would run next. */
  function Leaf(k: KState, t: nat): int
    requires Shape(k) && t < THREADS
  {
    if t == k.curThread then k.curPid else k.pidStore[t]
  }

  /** After `n` parent links from `p` comes a root shell of the same terminal. */
  ghost predicate RootAfter(k: KState, p: int, n: nat)
    requires Shape(k) && 0 <= p < PROCESSES
  {
    var a := Ancestor(k, p, n);
    0 <= a < PROCESSES && k.pcbs[a].parent == -1 && k.pcbs[a].terminal == k.pcbs[p].terminal
  }

  /** The process is live and belongs to terminal `t`. */
  ghost predicate LiveOn(k: KState, p: int, t: int)
    requires Shape(k)
  {
    0 <= p < PROCESSES && k.ptrs[p] != 0 && k.pcbs[p].terminal == t
  }

  /** The parent of a live process is live and on the same terminal. */
  lemma ParentIsLive(k: KState, m: Machine, depth: seq<nat>, p: nat)
    requires Sim(k, m, depth) && p < PROCESSES && k.ptrs[p] != 0 && k.pcbs[p].parent != -1
    ensures LiveOn(k, k.pcbs[p].parent, k.pcbs[p].terminal)
  {
    assert Placed(k, m.stacks, depth, p);
    var t, i := k.pcbs[p].terminal, depth[p];
    assert Slot(k, m.stacks, depth, t, i);
    if i > 0 { assert Slot(k, m.stacks, depth, t, i - 1); }
  }

  /** The leaf of a started thread is live and on that thread's terminal. */
  lemma LeafIsLive(k: KState, m: Machine, depth: seq<nat>, t: nat)
    requires Sim(k, m, depth) && t < THREADS && k.started[t] != 0
    ensures LiveOn(k, Leaf(k, t), t)
  {
    assert Slot(k, m.stacks, depth, t, |m.stacks[t]| - 1);
  }

  /** No process has two live children, and no terminal two root shells. */
  lemma ChainsDoNotBranch(k: KState, m: Machine, depth: seq<nat>, p: nat, q: nat)
    requires Sim(k, m, depth) && p < PROCESSES && q < PROCESSES && k.ptrs[p] != 0 && k.ptrs[q] != 0
    requires k.pcbs[p].parent == k.pcbs[q].parent
    requires k.pcbs[p].parent == -1 ==> k.pcbs[p].terminal == k.pcbs[q].terminal
    ensures p == q
  {
    assert Placed(k, m.stacks, depth, p) && Placed(k, m.stacks, depth, q);
    var t, i, u, j := k.pcbs[p].terminal, depth[p], k.pcbs[q].terminal, depth[q];
    assert Slot(k, m.stacks, depth, t, i) && Slot(k, m.stacks, depth, u, j);
    if i > 0 { assert Slot(k, m.stacks, depth, t, i - 1); }
    if j > 0 { assert Slot(k, m.stacks, depth, u, j - 1); }
  }

  /**
    The live processes form at most three parent chains without cycle or branch: each is an
    ancestor of the live leaf of its terminal's thread, its own chain ends at a root shell, and
    every member of the chain is live and on that terminal.
   */
  lemma LiveProcessesAreChains(k: KState, m: Machine, depth: seq<nat>, p: nat)
    requires Sim(k, m, depth) && p < PROCESSES && k.ptrs[p] != 0
    ensures var t := k.pcbs[p].terminal;
      0 <= t < THREADS && k.started[t] != 0 && LiveOn(k, Leaf(k, t), t) &&
      (k.pcbs[p].parent != -1 ==> LiveOn(k, k.pcbs[p].parent, t)) &&
      (exists n: nat :: Ancestor(k, Leaf(k, t), n) == p) && exists n: nat :: RootAfter(k, p, n)
  {
    assert Placed(k, m.stacks, depth, p);
    var t, i := k.pcbs[p].terminal, depth[p];
    var top := |m.stacks[t]| - 1;
    LeafIsLive(k, m, depth, t);
    if k.pcbs[p].parent != -1 { ParentIsLive(k, m, depth, p); }
    AncestorOnStack(k, m.stacks, depth, t, top, top - i);
    AncestorOnStack(k, m.stacks, depth, t, i, i);
    assert Slot(k, m.stacks, depth, t, 0);
    assert Ancestor(k, Leaf(k, t), top - i) == p;
    assert RootAfter(k, p, i);
  }

  // ---- Physical memory ----

  /** The addresses from `from` up to, not including, `to`. */
  datatype Region = Region(from: int, to: int)

  predicate Separate(a: Region, b: Region) { a.to <= b.from || b.to <= a.from }

  predicate Within(a: Region, b: Region) { b.from <= a.from < a.to <= b.to }

  /** What the page-directory entry for a program maps: a 4MB page, given by its 4KB page number. */
  function Mapped(pde: int): Region {
    Region(PAGE_SIZE * pde, PAGE_SIZE * pde + FOUR_MB)
  }

  /** A kernel stack and, at its bottom, the control block. */
  function StackArea(pid: int): Region {
    Region(PcbAddress(pid), KernelStack(pid) + 4)
  }

  const KERNEL_PAGE := Region(0x40_0000, 0x80_0000)
  const VIDEO_PAGES := Region(0xB_8000, 0xB_C000)

  /**
    Program pages, the kernel's page and video memory are apart; the kernel stacks with their
    control blocks lie in the kernel's page, 8KB each, and two processes share neither page nor stack.
   */
  lemma MemoryIsDisjoint(p: nat, q: nat)
    requires p < PROCESSES && q < PROCESSES
    ensures Mapped(Frame(p)) == Region(0x80_0000 + 0x40_0000 * p, 0xC0_0000 + 0x40_0000 * p)
    ensures StackArea(p) == Region(0x7F_E000 - 0x2000 * p, 0x80_0000 - 0x2000 * p)
    ensures Separate(Mapped(Frame(p)), KERNEL_PAGE) && Separate(Mapped(Frame(p)), VIDEO_PAGES)
    ensures Within(StackArea(q), KERNEL_PAGE) && Separate(Mapped(Frame(p)), StackArea(q))
    ensures p != q ==> Separate(Mapped(Frame(p)), Mapped(Frame(q))) && Separate(StackArea(p), StackArea(q))
  {
  }

  // ---- What sys_read hands back ----

  /** What sys_read returns; `typed` is what the terminal driver or the clock returned. */
  ghost function ReadValue(img: seq<Byte>, p: Proc, fd: int, nbytes: int, typed: int): int
    requires WellFormed(img) && |p.fds| == FDS
  {
    if !Readable(p, fd, nbytes) then -1
    else
      var f := p.fds[fd];
      match f.kind
      case Regular => if f.pos < 0 then -1 else ReadResult(img, f.inode, f.pos, nbytes)
      case Directory =>
        if 0 <= f.pos < NumEntries(img) then |CString(Entry(img, f.pos).name, NAME)|
        else if f.pos == NumEntries(img) then 0 else -1
      case Stdout => -1
      case _ => typed
  }

  /** What sys_read stores in the caller's buffer. */
  ghost function ReadBytes(img: seq<Byte>, p: Proc, fd: int, nbytes: int): (s: seq<Byte>)
    requires WellFormed(img) && |p.fds| == FDS
    ensures |s| <= if !Readable(p, fd, nbytes) then 0 else if p.fds[fd].kind == Directory then NAME else nbytes
  {
    if !Readable(p, fd, nbytes) then []
    else
      var f := p.fds[fd];
      match f.kind
      case Regular => Delivered(img, f, nbytes)
      case Directory => if 0 <= f.pos < NumEntries(img) then CString(Entry(img, f.pos).name, NAME) else []
      case _ => []
  }

  /** The running process with descriptor `j` and what it delivered replaced. */
  ghost function WithFd(m: Machine, j: nat, f: Fd, got: seq<Byte>): (r: Machine)
    requires WellFormedMachine(m) && Running(m) && j < FDS
    ensures WellFormedMachine(r) && Running(r)
  {
    SetTop(m, Top(m).(fds := Top(m).fds[j := f], got := Top(m).got[j := got]))
  }

  lemma SameFd(m: Machine, j: nat)
    requires WellFormedMachine(m) && Running(m) && j < FDS
    ensures WithFd(m, j, Top(m).fds[j], Top(m).got[j]) == m
  {
    var s, p := m.stacks[m.cur], Top(m);
    assert p.fds[j := p.fds[j]] == p.fds && p.got[j := p.got[j]] == p.got;
    assert s[|s| - 1 := p] == s && m.stacks[m.cur := s] == m.stacks;
  }

  /** sys_open of no name or a standard one changes nothing. */
  lemma OpenNothing(m: Machine, name: Option<seq<Byte>>)
    requires Can(m, Open(name)) && (name.Some? ==> IsStdin(name.value) || IsStdout(name.value))
    ensures Step(m, Open(name)) == m
    ensures OpenValue(m.img, Top(m), name) == if name.None? then -1 else if IsStdin(name.value) then 0 else 1
  {
    SameFd(m, 0);
    var p := Top(m);
    assert p.fds[0 := p.fds[0]] == p.fds && p.got[0 := p.got[0]] == p.got;
  }

  /** What sys_open does with a name other than the two standard ones. */
  lemma OpenIs(m: Machine, name: seq<Byte>)
    requires Can(m, Open(Some(name))) && !IsStdin(name) && !IsStdout(name)
    ensures var j, d := FreeFd(Top(m).fds, 2), Lookup(m.img, name);
      if j == FDS || d.None? then
        Step(m, Open(Some(name))) == m && OpenValue(m.img, Top(m), Some(name)) == -1
      else
        var kind := KindOf(d.value.fileType);
        OpenValue(m.img, Top(m), Some(name)) == (if kind == Unused then -1 else j) &&
        Step(m, Open(Some(name))) == WithFd(m, j, Fd(kind, if kind == Regular then d.value.inode else 0, 0), [])
  {
    SameFd(m, 0);
    var p := Top(m);
    assert p.fds[0 := p.fds[0]] == p.fds && p.got[0 := p.got[0]] == p.got;
  }

  lemma RegularRead(m: Machine, fd: nat, nbytes: nat, f: Fd, value: int, data: seq<Byte>)
    requires WellFormedMachine(m) && Running(m) && fd < FDS && fd != 1
    requires f == Top(m).fds[fd] && f.kind == Regular && f.pos >= 0
    requires value == ReadValue(m.img, Top(m), fd, nbytes, 0) && data == ReadBytes(m.img, Top(m), fd, nbytes)
    ensures value == ReadResult(m.img, f.inode, f.pos, nbytes) && data == Delivered(m.img, f, nbytes)
    ensures Can(m, Read(fd, nbytes))
    ensures Step(m, Read(fd, nbytes)) == WithFd(m, fd, f.(pos := f.pos + |data|), Top(m).got[fd] + data)
  {
    RegularReturns(m.img, Top(m), fd, nbytes);
    RegularAfter(m.img, Top(m), fd, nbytes);
    ReadIs(m, fd, nbytes);
  }

  lemma ReadIs(m: Machine, fd: nat, nbytes: nat)
    requires WellFormedMachine(m) && Running(m) && fd < FDS
    ensures Can(m, Read(fd, nbytes)) && Step(m, Read(fd, nbytes)) == SetTop(m, AfterRead(m.img, Top(m), fd, nbytes))
  {
  }

  lemma RegularAfter(img: seq<Byte>, p: Proc, fd: nat, nbytes: nat)
    requires WellFormed(img) && |p.fds| == FDS == |p.got| && fd < FDS && fd != 1
    requires p.fds[fd].kind == Regular && p.fds[fd].pos >= 0
    ensures var f, data := p.fds[fd], Delivered(img, p.fds[fd], nbytes);
      AfterRead(img, p, fd, nbytes) ==
      p.(fds := p.fds[fd := f.(pos := f.pos + |data|)], got := p.got[fd := p.got[fd] + data])
  {
  }

  ghost predicate RegularOutcome(img: seq<Byte>, p: Proc, fd: nat, nbytes: nat)
    requires WellFormed(img) && |p.fds| == FDS && fd < FDS && p.fds[fd].pos >= 0
  {
    ReadValue(img, p, fd, nbytes, 0) == ReadResult(img, p.fds[fd].inode, p.fds[fd].pos, nbytes) &&
    ReadBytes(img, p, fd, nbytes) == Delivered(img, p.fds[fd], nbytes)
  }

  lemma RegularReturns(img: seq<Byte>, p: Proc, fd: nat, nbytes: nat)
    requires WellFormed(img) && |p.fds| == FDS && fd < FDS && fd != 1 && p.fds[fd].kind == Regular && p.fds[fd].pos >= 0
    ensures RegularOutcome(img, p, fd, nbytes)
  {
  }

  lemma OtherRead(m: Machine, fd: nat, nbytes: nat, typed: int)
    requires WellFormedMachine(m) && Running(m) && fd < FDS && fd != 1
    requires Top(m).fds[fd].kind != Regular && Top(m).fds[fd].kind != Directory
    ensures Can(m, Read(fd, nbytes)) && Step(m, Read(fd, nbytes)) == m && ReadBytes(m.img, Top(m), fd, nbytes) == []
    ensures var kind := Top(m).fds[fd].kind;
      ReadValue(m.img, Top(m), fd, nbytes, typed) == if kind == Unused || kind == Stdout then -1 else typed
  {
    SameFd(m, fd);
  }

  /** What a read of a directory at position `pos` delivers: the name of the entry, nothing at the end. */
  ghost function EntryName(img: seq<Byte>, pos: nat): (s: seq<Byte>)
    requires WellFormed(img)
    ensures |s| <= NAME
  {
    if pos < NumEntries(img) then CString(Entry(img, pos).name, NAME) else []
  }

  /** The position after it: the end wraps around to the first entry. */
  ghost function NextEntry(img: seq<Byte>, pos: nat): nat
    requires WellFormed(img)
  {
    if pos < NumEntries(img) then pos + 1 else if pos == NumEntries(img) then 0 else pos
  }

  lemma DirectoryEntryRead(m: Machine, fd: nat, nbytes: nat)
    requires WellFormedMachine(m) && Running(m) && fd < FDS && fd != 1
    requires Top(m).fds[fd].kind == Directory && Top(m).fds[fd].pos >= 0
    ensures var p := Top(m); var f := p.fds[fd];
      Can(m, Read(fd, nbytes)) && ReadBytes(m.img, p, fd, nbytes) == EntryName(m.img, f.pos) &&
      ReadValue(m.img, p, fd, nbytes, 0) == (if f.pos <= NumEntries(m.img) then |EntryName(m.img, f.pos)| else -1) &&
      Step(m, Read(fd, nbytes)) == WithFd(m, fd, f.(pos := NextEntry(m.img, f.pos)), p.got[fd] + [])
  {
    var p := Top(m);
    SameFd(m, fd);
    assert p.got[fd] + [] == p.got[fd] && p.got[fd := p.got[fd]] == p.got;
    assert p.fds[fd := p.fds[fd]] == p.fds;
  }

  /** How much a read stores: up to nbytes from a file, but a whole name from a directory, which ignores nbytes. */
  lemma ReadStoresIff(img: seq<Byte>, p: Proc, fd: int, nbytes: int)
    requires WellFormed(img) && |p.fds| == FDS
    ensures var s := ReadBytes(img, p, fd, nbytes);
      |s| <= nbytes || |s| == 0 <==>
      (Readable(p, fd, nbytes) && p.fds[fd].kind == Directory && p.fds[fd].pos >= 0 ==>
        |EntryName(img, p.fds[fd].pos)| <= nbytes)
    ensures |ReadBytes(img, p, fd, nbytes)| <= if nbytes < NAME then NAME else nbytes
  {
  }

  /** A directory whose first name is not empty, and a read of 0 bytes from it. */
  lemma DirectoryReadStoresMore(img: seq<Byte>)
    requires WellFormed(img) && NumEntries(img) > 0 && Entry(img, 0).name[0] != 0
    ensures var p := NewProc(0, 0).(fds := FreshFds()[2 := Fd(Directory, 0, 0)]);
      Readable(p, 2, 0) && |ReadBytes(img, p, 2, 0)| > 0
  {
    assert |CString(Entry(img, 0).name, NAME)| > 0;
  }

  /** The first `i` characters belong to the word the command begins with. */
  ghost predicate WordFrom(command: seq<Byte>, i: nat) {
    i <= NAME && i <= |command| && NameLength(command, NAME) == i + NameLength(command[i..], NAME - i)
  }

  lemma WordStep(command: seq<Byte>, i: nat)
    requires WordFrom(command, i) && (i < NAME ==> i < |command|)
    ensures i < NAME && command[i] != 0 && command[i] != BLANK ==> WordFrom(command, i + 1)
    ensures i == NAME || command[i] == 0 || command[i] == BLANK ==> NameLength(command, NAME) == i
  {
    if i < NAME {
      assert command[i..][0] == command[i] && command[i..][1..] == command[i + 1..];
    }
  }

  /** The first `i` characters of the command in a field of NULs. */
  ghost predicate NameSoFar(field: seq<Byte>, command: seq<Byte>, i: nat) {
    |field| == NAME && i <= |command| && i <= NAME && field == command[..i] + Fill(0, NAME - i)
  }

  lemma NameGrows(field: seq<Byte>, command: seq<Byte>, i: nat)
    requires NameSoFar(field, command, i) && i < NAME && i < |command|
    ensures NameSoFar(field[i := command[i]], command, i + 1)
  {
  }

  /** The loops that fill in the name field. */
  method ParseName(command: seq<Byte>) returns (name: seq<Byte>)
    requires 0 in command
    ensures name == ProgramName(command)
  {
    var fname := new Byte[NAME](_ => 0);
    var i := 0;
    assert fname[..] == command[..0] + Fill(0, NAME);
    while i < NAME && command[i] != 0 && command[i] != BLANK
      invariant i <= |command| && (i < |command| || i == NAME)
      invariant 0 !in command[..i] && WordFrom(command, i) && NameSoFar(fname[..], command, i)
    {
      WordStep(command, i);
      NameGrows(fname[..], command, i);
      fname[i] := command[i];
      i := i + 1;
      NulAhead(command, i);
    }
    WordStep(command, i);
    name := fname[..];
  }

  lemma NulAhead(command: seq<Byte>, i: nat)
    requires 0 in command && 0 < i <= |command| && 0 !in command[..i - 1] && command[i - 1] != 0
    ensures i < |command| && 0 !in command[..i]
  {
    assert command[..i] == command[..i - 1] + [command[i - 1]];
    assert command[..|command|] == command;
  }

  // ---- The kernel ----

  class Kernel {
    const img: array<Byte>
    const pcbs: array<Pcb>          // the control blocks at their fixed addresses
    const ptrs: array<int>          // PCB_ptrs: an address, or 0 for NULL
    const pidStore: array<int>
    const started: array<int>       // shellStarted
    var curPid: int
    var curThread: int
    var pde: int                    // page_directory[PROCESS_PAGING_INDEX]
    var fdt: int
    var esp0: int
    var eax: int                    // eax_val
    ghost var model: Machine
    ghost var depth: seq<nat>

    ghost predicate Shaped()
      reads this, img, pcbs
    {
      pcbs.Length == ptrs.Length == PROCESSES && pidStore.Length == started.Length == THREADS &&
      ptrs != pidStore && ptrs != started && pidStore != started && WellFormed(img[..]) &&
      forall p :: 0 <= p < PROCESSES ==> |pcbs[p].fds| == FDS
    }

    ghost function Snap(): KState
      reads this, pcbs, ptrs, pidStore, started
    {
      KState(pcbs[..], ptrs[..], curPid, curThread, pidStore[..], started[..], pde, fdt, esp0)
    }

    ghost predicate Valid()
      reads this, img, pcbs, ptrs, pidStore, started
    {
      Shaped() && img[..] == model.img && Sim(Snap(), model, depth)
    }

    /** initialize_fops, initialize_PCB_pointers and PITinit. */
    constructor (img: array<Byte>, blank: Pcb)
      requires WellFormed(img[..]) && |blank.fds| == FDS
      ensures Valid() && this.img == img && model == Boot(img[..])
      ensures fresh(pcbs) && fresh(ptrs) && fresh(pidStore) && fresh(started)
    {
      this.img := img;
      pcbs, ptrs := new Pcb[PROCESSES](_ => blank), new int[PROCESSES](_ => 0);
      pidStore, started := new int[THREADS](_ => 0), new int[THREADS](_ => 0);
      curPid, curThread, pde, fdt, esp0, eax := -1, 0, 0, 0, EIGHT_MB, 0;
      model, depth := Boot(img[..]), seq(PROCESSES, _ => 0);
    }

    // ---- Parts of sys_execute ----

    /** The scan for a free process number. */
    method ScanFree() returns (pid: nat)
      requires Shaped()
      ensures pid == FirstNull(ptrs[..], 0)
    {
      pid := 0;
      while pid < PROCESSES && ptrs[pid] != 0
        invariant pid <= PROCESSES && FirstNull(ptrs[..], 0) == FirstNull(ptrs[..], pid)
      {
        pid := pid + 1;
      }
    }

    /** The two reads that decide whether a file can be executed; the buffers start with stack garbage. */
    method CheckExecutable(inode: nat) returns (ok: bool)
      requires Shaped()
      ensures ok <==> |File(img[..], inode)| >= 24 && File(img[..], inode)[..4] == MAGIC
    {
      ghost var file := File(img[..], inode);
      var test := new Byte[4];
      var r := ReadData(img, inode, 0, test, 0, 4, 0);
      if r == -1 {
        return false;
      }
      assert |file| >= 4 ==> test[..] == file[0..4];
      if test[0] != 0x7F || test[1] != 0x45 || test[2] != 0x4C || test[3] != 0x46 {
        return false;
      }
      assert |file| >= 4 ==> file[..4] == MAGIC;
      var eip := new Byte[4];
      r := ReadData(img, inode, 24, eip, 0, 4, 0);
      return r != -1;
    }

    /** initialize_FDT. */
    method InitializeFdt(pid: nat)
      requires Shaped() && pid < PROCESSES
      modifies pcbs, `fdt
      ensures Shaped() && fdt == pid && pcbs[..] == old(pcbs[..])[pid := old(pcbs[pid]).(fds := FreshFds())]
    {
      fdt := pid;
      for index := 0 to FDS
        invariant fdt == pid && |pcbs[pid].fds| == FDS
        invariant pcbs[..] == old(pcbs[..])[pid := old(pcbs[pid]).(fds := pcbs[pid].fds)]
        invariant forall j :: 0 <= j < index ==> pcbs[pid].fds[j] == Fd(Unused, 0, -1)
      {
        pcbs[fdt] := pcbs[fdt].(fds := pcbs[fdt].fds[index := Fd(Unused, 0, -1)]);
      }
      pcbs[fdt] := pcbs[fdt].(fds := pcbs[fdt].fds[0 := Fd(Stdin, 0, 0)]);
      pcbs[fdt] := pcbs[fdt].(fds := pcbs[fdt].fds[1 := Fd(Stdout, 0, 0)]);
      assert pcbs[pid].fds == FreshFds();
    }

    /**
      sys_execute, called by a process or by the timer. Its failures leave the state alone, and past
      the commit point read_data cannot fail, because the same file was read before. But the copy
      faults, with the state already changed, exactly when the file is too long for its page.
     */
    method ExecuteProgram(command: Option<seq<Byte>>, ctx: nat, ghost k: KState) returns (r: int, fault: bool)
      requires Shaped() && k == Snap() && -1 <= curPid < PROCESSES && (command.Some? ==> 0 in command.value)
      modifies this, pcbs, ptrs
      ensures Shaped() && model == old(model) && depth == old(depth) && (r == 0 || r == -1)
      ensures fault <==> Passes(img[..], k, command) && !FitsPage(img[..], command.value)
      ensures r == 0 <==> Passes(img[..], k, command) && FitsPage(img[..], command.value)
      ensures r == 0 ==> Snap() == Executed(k, FirstNull(k.ptrs, 0), ctx)
      ensures fault ==> Snap() == Committed(k, FirstNull(k.ptrs, 0))
      ensures r == -1 && !fault ==> Snap() == k
    {
      var pid, inode := CheckCommand(command);
      if inode == -1 {
        return -1, false;
      }
      r, fault := StartProgram(pid, inode, ctx);
    }

    /** All tests of sys_execute before its commit point: -1 when one fails. */
    method CheckCommand(command: Option<seq<Byte>>) returns (pid: nat, inode: int)
      requires Shaped() && (command.Some? ==> 0 in command.value)
      ensures inode >= -1
      ensures inode != -1 <==> command.Some? && FirstNull(ptrs[..], 0) < PROCESSES && Loadable(img[..], command.value)
      ensures inode != -1 ==> pid == FirstNull(ptrs[..], 0) && |File(img[..], inode)| > 0
      ensures inode != -1 ==> Lookup(img[..], ProgramName(command.value)).value.inode == inode
    {
      if command.None? {
        return 0, -1;
      }
      pid := ScanFree();
      if pid == PROCESSES {
        return pid, -1;
      }
      inode := FindProgram(command.value);
    }

    /** The checks of the command: -1 unless it names an executable file. */
    method FindProgram(command: seq<Byte>) returns (inode: int)
      requires Shaped() && 0 in command
      ensures inode >= -1 && (inode == -1 <==> !Loadable(img[..], command))
      ensures inode != -1 ==> |File(img[..], inode)| > 0
      ensures inode != -1 ==> Lookup(img[..], ProgramName(command)).value.inode == inode
    {
      var name := ParseName(command);
      var dentry := ReadDentryByName(img, name);
      if dentry.None? {
        return -1;
      }
      inode := dentry.value.inode;
      var ok := CheckExecutable(inode);
      if !ok {
        return -1;
      }
    }

    /** What sys_execute does from its commit point on; with `fault` it stops in the page fault handler. */
    method StartProgram(pid: nat, inode: nat, ctx: nat) returns (r: int, fault: bool)
      requires Shaped() && -1 <= curPid < PROCESSES && pid < PROCESSES && |File(img[..], inode)| > 0
      modifies `pde, `curPid, `fdt, `esp0, pcbs, ptrs
      ensures Shaped() && r == (if fault then -1 else 0)
      ensures fault <==> |File(img[..], inode)| > PROGRAM_PAGE - PROGRAM_START
      ensures Snap() == if fault then Committed(old(Snap()), pid) else Executed(old(Snap()), pid, ctx)
    {
      Commit(pid);
      var frame := new Byte[PROGRAM_PAGE];
      r, fault := Load(inode, frame);
      if fault {
        return -1, true;
      }
      if r == -1 {
        assert false;
        return -1, false;
      }
      esp0 := KernelStack(pid);
      pcbs[pid] := pcbs[pid].(ctx := ctx);
      r := 0;
    }

    /** The copy of the program into its page, which begins at 128MB; the page after it is not present. */
    method Load(inode: nat, frame: array<Byte>) returns (r: int, fault: bool)
      requires Shaped() && frame.Length == PROGRAM_PAGE && frame != img
      modifies frame
      ensures fault <==> |File(img[..], inode)| > PROGRAM_PAGE - PROGRAM_START
      ensures !fault && |File(img[..], inode)| > 0 ==>
        r != -1 && frame[..] == Blit(old(frame[..]), PROGRAM_START, File(img[..], inode))
    {
      ghost var file := File(img[..], inode);
      LoadFitsIff(img[..], inode);
      var length := if inode < NumInodes(img[..]) then Length(img[..], inode) else 0;
      if length > PROGRAM_PAGE - PROGRAM_START {
        return -1, true;
      }
      fault := false;
      r := ReadData(img, inode, 0, frame, PROGRAM_START, PROGRAM_PAGE, 0);
      assert r > 0 ==> file[0..0 + r] == file;
    }

    /** Paging, control block and descriptor table of the new process. */
    method Commit(pid: nat)
      requires Shaped() && -1 <= curPid < PROCESSES && pid < PROCESSES
      modifies `pde, `curPid, `fdt, pcbs, ptrs
      ensures Shaped() && Snap() == Committed(old(Snap()), pid)
    {
      pde := Frame(pid);
      ptrs[pid] := PcbAddress(pid);
      pcbs[pid] := pcbs[pid].(pid := pid);
      pcbs[pid] := pcbs[pid].(parent := curPid);
      if pcbs[pid].parent == -1 {
        pcbs[pid] := pcbs[pid].(terminal := curThread);
      } else {
        pcbs[pid] := pcbs[pid].(terminal := pcbs[pcbs[pid].parent].terminal);
      }
      curPid := pid;
      pcbs[pid] := pcbs[pid].(exception := false, pde := pde);
      InitializeFdt(pid);
    }

    // ---- System calls and interrupts ----

    /** What the globals hold while a process runs. */
    lemma RunningProcess()
      requires Valid() && Running(model)
      ensures 0 <= curPid < PROCESSES && fdt == curPid && pcbs[curPid].fds == Top(model).fds
      ensures pcbs[curPid].ctx == Top(model).ctx && pcbs[curPid].exception == Top(model).exception
      ensures pcbs[curPid].terminal == model.cur && -1 <= pcbs[curPid].parent < PROCESSES
      ensures pcbs[curPid].parent == -1 <==> |model.stacks[model.cur]| == 1
    {
      var n := |model.stacks[model.cur]|;
      assert Slot(Snap(), model.stacks, depth, model.cur, n - 1);
      if n > 1 { assert Slot(Snap(), model.stacks, depth, model.cur, n - 2); }
    }

    /**
      While a process runs, its program page is 8MB + 4MB * cur_pid, apart from everything of the kernel
      and of the other live processes, and its kernel stack is its own.
     */
    lemma RunningMemory(p: nat)
      requires Valid() && Running(model) && p < PROCESSES
      ensures 4096 * pde == 0x80_0000 + 0x40_0000 * curPid && esp0 == 0x7F_FFFC - 0x2000 * curPid
      ensures Separate(Mapped(pde), KERNEL_PAGE) && Separate(Mapped(pde), VIDEO_PAGES)
      ensures Within(StackArea(curPid), KERNEL_PAGE) && StackArea(curPid).to == esp0 + 4
      ensures ptrs[p] != 0 ==>
        ptrs[p] == 0x7F_E000 - 0x2000 * p && 4096 * pcbs[p].pde == 0x80_0000 + 0x40_0000 * p &&
        Separate(Mapped(pde), StackArea(p))
      ensures ptrs[p] != 0 && p != curPid ==>
        Separate(Mapped(pde), Mapped(pcbs[p].pde)) && Separate(StackArea(curPid), StackArea(p))
    {
      RunningProcess();
      MemoryIsDisjoint(curPid, p);
      if ptrs[p] != 0 {
        LiveSlot(Snap(), model.stacks, depth, p);
      }
    }

    /** sys_execute as a system call. */
    method SysExecute(command: Option<seq<Byte>>, ctx: nat, ghost k: KState) returns (r: int, fault: bool)
      requires Valid() && k == Snap() && Running(model) && (command.Some? ==> 0 in command.value)
      modifies this, pcbs, ptrs
      ensures fault <==> command.Some? && Faults(old(model), command.value)
      ensures !fault ==> Valid() && model == Step(old(model), Execute(command, ctx))
      ensures !fault ==> r == if command.Some? && Startable(old(model), command.value) then 0 else -1
      ensures !fault && r == -1 ==> Snap() == k
      ensures fault ==> FirstNull(k.ptrs, 0) < PROCESSES && Snap() == Committed(k, FirstNull(k.ptrs, 0))
    {
      RunningProcess();
      FirstNullIsFree(k, model.stacks, depth, 0);
      r, fault := ExecuteProgram(command, ctx, k);
      if r == 0 {
        RecordPush(k, model.cur, ctx);
      }
    }

    /** The model follows an execute on thread `t`. */
    ghost method RecordPush(k: KState, t: nat, ctx: nat)
      requires Shaped() && img[..] == model.img && Starting(k, model, depth, t)
      requires FreePid(model.stacks, 0) < PROCESSES && -1 <= k.curPid < PROCESSES
      requires Snap() == Executed(k, FreePid(model.stacks, 0), ctx)
      modifies `model, `depth
      ensures Valid() && model == Push(old(model), t, ctx)
    {
      var pid := FreePid(model.stacks, 0);
      ExecutedSim(k, model, depth, t, ctx, pid);
      depth := depth[pid := |model.stacks[t]|];
      model := Push(model, t, ctx);
    }

    /** PIThandler; with `fault` the shell it started was too long for its page. */
    method PitHandler() returns (fault: bool)
      requires Valid()
      modifies this, pcbs, ptrs, pidStore, started
      ensures Can(old(model), Tick) ==> Valid() && model == Step(old(model), Tick)
      ensures fault <==> old(model).stacks[Target(old(model))] == [] && Faults(old(model), SHELL)
      ensures fault ==> Snap() == Committed(AtRestart(old(Snap())), FreePid(old(model).stacks, 0))
      ensures !Can(old(model), Tick) && !fault ==> Snap() == AtRestart(old(Snap()))
    {
      ghost var k := Snap();
      if started[curThread] == 0 {
        ShellDueStarts(k, model, depth);
        fault := StartShell();
        return;
      }
      RunningProcess();
      Rotate();
      if started[curThread] == 0 {
        ShellDueStarts(k, model, depth);
        fault := StartShell();
        return;
      }
      fault := false;
      ResumedSim(k, model, depth);
      Resume();
      model := model.(cur := Target(model));
    }

    method Rotate()
      requires Shaped() && 0 <= curThread < THREADS
      modifies pidStore, `curThread
      ensures Shaped() && Snap() == Rotated(old(Snap()))
    {
      pidStore[curThread] := curPid;
      curThread := (curThread + 1) % THREADS;
    }

    method Resume()
      requires Shaped() && 0 <= curThread < THREADS
      modifies `curPid, `fdt, `pde, `esp0
      ensures Shaped() && Snap() == Resumed(old(Snap()))
    {
      curPid := pidStore[curThread];
      fdt := curPid;
      pde := Frame(curPid);
      esp0 := KernelStack(curPid);
    }

    /** The start of a shell on the current thread, which has none. */
    method StartShell() returns (fault: bool)
      requires Shaped() && img[..] == model.img && 0 <= curThread < THREADS && WellFormedMachine(model)
      requires Starting(ShellDue(Snap()), model, depth, curThread) && model.stacks[curThread] == []
      modifies this, pcbs, ptrs, started
      ensures fault <==> old(Faults(model, SHELL))
      ensures old(Startable(model, SHELL)) && !fault ==> Valid() && model == Push(old(model), old(curThread), 0)
      ensures fault ==> Snap() == Committed(ShellDue(old(Snap())), FreePid(old(model).stacks, 0))
      ensures !old(Startable(model, SHELL)) ==> Snap() == ShellDue(old(Snap()))
    {
      curPid := -1;
      started[curThread] := 1;
      ghost var k, t := Snap(), curThread;
      FirstNullIsFree(k, model.stacks, depth, 0);
      assert SHELL[5] == 0;
      var r;
      r, fault := ExecuteProgram(Some(SHELL), 0, k);
      if r == 0 {
        RecordPush(k, t, 0);
      }
    }

    /** The common body of sys_halt: the value for the parent, and the context that resumes. */
    method SysHalt(status: Byte) returns (resumed: nat)
      requires Valid() && Running(model)
      modifies this, ptrs, started
      ensures Valid() && model == Pop(old(model)) && pcbs[..] == old(pcbs[..])
      ensures eax == status + (if old(Top(model)).exception then 1 else 0) && resumed == old(Top(model)).ctx
    {
      RunningProcess();
      HaltedSim(Snap(), model, depth);
      var pid := curPid;
      eax := status + if pcbs[pid].exception then 1 else 0;
      fdt := pid;
      var parent := pcbs[pid].parent;
      resumed := pcbs[pid].ctx;
      if parent == -1 {
        EndRoot(pid);
      } else {
        EndChild(pid, parent);
      }
      model := Pop(model);
    }

    /** The end of a root shell: the timer is to start another. */
    method EndRoot(pid: nat)
      requires Shaped() && 0 <= curThread < THREADS && pid == curPid < PROCESSES
      modifies ptrs, started
      ensures Shaped() && Snap() == HaltedRoot(old(Snap()))
    {
      ptrs[pid] := 0;
      started[curThread] := 0;
    }

    /** The end of a child: its parent's page, descriptors and kernel stack are restored. */
    method EndChild(pid: nat, parent: nat)
      requires Shaped() && 0 <= curThread < THREADS && pid == curPid < PROCESSES && parent < PROCESSES
      modifies ptrs, `pde, `fdt, `curPid, `esp0
      ensures Shaped() && Snap() == HaltedChild(old(Snap()), parent)
    {
      pde := pcbs[parent].pde;
      fdt := parent;
      ptrs[pid] := 0;
      curPid := parent;
      esp0 := KernelStack(parent);
    }

    /** The exception handlers: the flag makes the halt hand 256 to the parent. */
    method ExceptionHandler() returns (resumed: nat)
      requires Valid() && Running(model)
      modifies this, pcbs, ptrs, started
      ensures Valid() && model == Step(old(model), Exception)
      ensures eax == HaltValue(Exception, old(Top(model))) && resumed == old(Top(model)).ctx
    {
      RunningProcess();
      FdsSim(Snap(), model, depth, Top(model).(exception := true));
      pcbs[curPid] := pcbs[curPid].(exception := true);
      model := SetTop(model, Top(model).(exception := true));
      resumed := SysHalt(255);
    }

    /** One descriptor of the running process is written through the global pointer; `got` is what it has delivered. */
    method WriteFd(j: nat, f: Fd, ghost got: seq<Byte>)
      requires Valid() && Running(model) && j < FDS
      modifies pcbs, `model
      ensures Valid() && fdt == old(fdt)
      ensures model == WithFd(old(model), j, f, got)
    {
      RunningProcess();
      ghost var p := Top(model).(fds := Top(model).fds[j := f], got := Top(model).got[j := got]);
      FdsSim(Snap(), model, depth, p);
      pcbs[fdt] := pcbs[fdt].(fds := pcbs[fdt].fds[j := f]);
      model := SetTop(model, p);
    }

    /** Nothing changed: the model's top process is put back as it was. */
    lemma TopUnchanged()
      requires Valid() && Running(model)
      ensures SetTop(model, Top(model)) == model
    {
      var s := model.stacks[model.cur];
      assert s[|s| - 1 := s[|s| - 1]] == s;
      assert model.stacks[model.cur := s] == model.stacks;
    }

    /** sys_open. */
    method SysOpen(name: Option<seq<Byte>>) returns (r: int)
      requires Valid() && Can(model, Open(name))
      modifies pcbs, `fdt, `model
      ensures Valid() && model == Step(old(model), Open(name)) && r == OpenValue(old(model).img, old(Top(model)), name)
    {
      RunningProcess();
      fdt := curPid;
      if name.None? {
        OpenNothing(model, name);
        return -1;
      }
      var c := Strncmp(name.value, STDIN, 5);
      if c == 0 {
        OpenNothing(model, name);
        return 0;
      }
      c := Strncmp(name.value, STDOUT, 6);
      if c == 0 {
        OpenNothing(model, name);
        return 1;
      }
      r := OpenEntry(name.value);
    }

    /** The scan for a free descriptor of the running process. */
    method ScanFds() returns (j: nat)
      requires Valid() && Running(model)
      ensures j == FreeFd(Top(model).fds, 2)
    {
      RunningProcess();
      j := 2;
      while j < FDS && pcbs[fdt].fds[j].kind != Unused
        invariant 2 <= j <= FDS && FreeFd(pcbs[fdt].fds, 2) == FreeFd(pcbs[fdt].fds, j)
      {
        j := j + 1;
      }
    }

    /** sys_open of a name other than the two standard ones. */
    method OpenEntry(name: seq<Byte>) returns (r: int)
      requires Valid() && Can(model, Open(Some(name))) && !IsStdin(name) && !IsStdout(name)
      modifies pcbs, `model
      ensures Valid() && model == Step(old(model), Open(Some(name)))
      ensures r == OpenValue(old(model).img, old(Top(model)), Some(name))
    {
      OpenIs(model, name);
      var j := ScanFds();
      if j == FDS {
        return -1;
      }
      var d := ReadDentryByName(img, name);
      if d.None? {
        return -1;
      }
      var kind := KindOf(d.value.fileType);
      WriteFd(j, Fd(kind, if kind == Regular then d.value.inode else 0, 0), []);
      return if kind == Unused then -1 else j;
    }

    /** sys_close. */
    method SysClose(fd: int) returns (r: int)
      requires Valid() && Can(model, Close(fd))
      modifies pcbs, `model
      ensures Valid() && model == Step(old(model), Close(fd)) && r == if Closable(old(Top(model)), fd) then 0 else -1
    {
      RunningProcess();
      TopUnchanged();
      if fd < 2 || fd > FDS {
        return -1;
      }
      var f := pcbs[curPid].fds[fd];
      if f.kind == Unused {
        return -1;
      }
      assert Top(model).got[fd := Top(model).got[fd]] == Top(model).got;
      WriteFd(fd, f.(kind := Unused), Top(model).got[fd]);
      return 0;
    }

    /** sys_read of a regular file, which returns `value`, delivers `data` and leads to `after`. */
    method ReadFile(fd: nat, buf: array<Byte>, nbytes: nat, ghost m: Machine, ghost f: Fd, ghost value: int,
            ghost data: seq<Byte>, ghost after: Machine)
        returns (r: int)
      requires Valid() && Running(model) && fd < FDS && m == model && f == Top(m).fds[fd] && f.pos >= 0
      requires buf != img && |data| <= buf.Length
      requires value == ReadResult(m.img, f.inode, f.pos, nbytes) && data == Delivered(m.img, f, nbytes)
      requires after == WithFd(m, fd, f.(pos := f.pos + |data|), Top(m).got[fd] + data)
      modifies pcbs, `model, buf
      ensures Valid() && model == after && r == value
      ensures buf[..] == Blit(old(buf[..]), 0, data)
    {
      var d := Descriptor(fd, f);
      var next;
      r, next := ReadNext(d, buf, nbytes, m.img, value, data);
      Advance(fd, r, next, m, f, data, after);
    }

    /** A descriptor of the running process, through the global pointer. */
    method Descriptor(fd: nat, ghost f: Fd) returns (d: Fd)
      requires Valid() && Running(model) && fd < FDS && f == Top(model).fds[fd]
      ensures d == f
    {
      RunningProcess();
      d := pcbs[fdt].fds[fd];
    }

    /** The position of a descriptor moves on, unless the read failed. */
    method Advance(fd: nat, r: int, next: int, ghost m: Machine, ghost f: Fd, ghost data: seq<Byte>,
            ghost after: Machine)
      requires Valid() && Running(model) && fd < FDS && m == model && f == Top(m).fds[fd]
      requires r == -1 ==> next == f.pos && data == []
      requires after == WithFd(m, fd, f.(pos := next), Top(m).got[fd] + data)
      modifies pcbs, `model
      ensures Valid() && model == after
    {
      if r == -1 {
        SameFd(m, fd);
        assert Top(m).got[fd] + [] == Top(m).got[fd];
        return;
      }
      RunningProcess();
      WriteFd(fd, pcbs[fdt].fds[fd].(pos := next), Top(m).got[fd] + data);
    }

    /** The bytes for it, into the caller's buffer. */
    method ReadNext(d: Fd, buf: array<Byte>, nbytes: nat, ghost image: seq<Byte>, ghost value: int,
            ghost data: seq<Byte>)
        returns (r: int, next: nat)
      requires Valid() && image == img[..] && buf != img && d.pos >= 0 && |data| <= buf.Length
      requires value == ReadResult(image, d.inode, d.pos, nbytes) && data == Delivered(image, d, nbytes)
      modifies buf
      ensures Valid() && r == value
      ensures (r == -1 ==> data == []) && next == d.pos + |data|
      ensures buf[..] == Blit(old(buf[..]), 0, data)
    {
      r, next := FileRead(img, d.inode, d.pos, buf, 0, nbytes);
    }

    /** directoryRead. */
    method DirectoryRead(fd: nat, buf: array<Byte>, ghost m: Machine, ghost f: Fd, ghost after: Machine)
        returns (r: int)
      requires Valid() && Running(model) && fd < FDS && m == model && f == Top(m).fds[fd]
      requires buf != img && f.pos >= 0 && |EntryName(m.img, f.pos)| <= buf.Length
      requires after == WithFd(m, fd, f.(pos := NextEntry(m.img, f.pos)), Top(m).got[fd] + [])
      modifies pcbs, `model, buf
      ensures Valid() && model == after
      ensures r == if f.pos <= NumEntries(m.img) then |EntryName(m.img, f.pos)| else -1
      ensures buf[..] == Blit(old(buf[..]), 0, EntryName(m.img, f.pos))
    {
      var d := Descriptor(fd, f);
      var next;
      r, next := NextName(d.pos, buf, m.img);
      Advance(fd, r, next, m, f, [], after);
    }

    /** The name for it, and the position after it. */
    method NextName(pos: nat, buf: array<Byte>, ghost image: seq<Byte>) returns (r: int, next: nat)
      requires Valid() && image == img[..] && buf != img && |EntryName(image, pos)| <= buf.Length
      modifies buf
      ensures Valid() && r == (if pos <= NumEntries(image) then |EntryName(image, pos)| else -1)
      ensures next == NextEntry(image, pos) && buf[..] == Blit(old(buf[..]), 0, EntryName(image, pos))
    {
      if pos == NumEntries(img[..]) {
        return 0, 0;
      }
      r := CopyName(pos, buf, image);
      next := if r == -1 then pos else pos + 1;
    }

    /** The name of directory entry `pos`, if there is one, into the caller's buffer. */
    method CopyName(pos: nat, buf: array<Byte>, ghost image: seq<Byte>) returns (r: int)
      requires image == img[..] && WellFormed(image) && buf != img && |EntryName(image, pos)| <= buf.Length
      modifies buf
      ensures r == if pos < NumEntries(image) then |EntryName(image, pos)| else -1
      ensures buf[..] == Blit(old(buf[..]), 0, EntryName(image, pos))
    {
      var entry := ReadDentryByIndex(img, pos);
      if entry.None? {
        return -1;
      }
      r := StrcpyFile(buf, entry.value.name);
    }

    /** strcpyFile: a name of at most 32 characters, without a terminating NUL. */
    method StrcpyFile(buf: array<Byte>, name: seq<Byte>) returns (n: nat)
      requires |name| == NAME && |CString(name, NAME)| <= buf.Length
      modifies buf
      ensures n == |CString(name, NAME)| && buf[..] == Blit(old(buf[..]), 0, CString(name, NAME))
    {
      n := 0;
      ghost var s := CString(name, NAME);
      assert forall k :: 0 <= k < |s| ==> s[k] == name[k] != 0;
      while n < NAME && name[n] != 0
        invariant n <= |s|
        invariant forall i :: 0 <= i < buf.Length ==> buf[i] == if i < n then s[i] else old(buf[i])
      {
        assert n < |s|;
        buf[n] := name[n];
        n := n + 1;
      }
    }

    /** sys_read; `typed` is what the terminal driver or the clock returned. */
    method SysRead(fd: int, buf: array?<Byte>, nbytes: int, typed: int, ghost m: Machine) returns (r: int)
      requires Valid() && m == model && Can(m, Read(fd, nbytes)) && AllStream(m) && buf != img
      requires buf != null ==> |ReadBytes(m.img, Top(m), fd, nbytes)| <= buf.Length
      modifies pcbs, `model, buf
      ensures Valid() && model == if buf == null then m else Step(m, Read(fd, nbytes))
      ensures r == if buf == null then -1 else ReadValue(m.img, Top(m), fd, nbytes, typed)
      ensures buf != null ==> buf[..] == Blit(old(buf[..]), 0, ReadBytes(m.img, Top(m), fd, nbytes))
    {
      RunningProcess();
      TopUnchanged();
      if fd == 1 || fd > FDS || fd < 0 {
        return -1;
      }
      if buf == null || nbytes < 0 {
        return -1;
      }
      assert Streams(m.img, m.stacks[m.cur][|m.stacks[m.cur]| - 1]);
      r := ReadOpen(fd, buf, nbytes, typed, m);
    }

    /** The read routine of the descriptor. */
    method ReadOpen(fd: nat, buf: array<Byte>, nbytes: nat, typed: int, ghost m: Machine) returns (r: int)
      requires Valid() && m == model && Running(m) && fd < FDS && fd != 1 && Streams(m.img, Top(m)) && buf != img
      requires |ReadBytes(m.img, Top(m), fd, nbytes)| <= buf.Length
      modifies pcbs, `model, buf
      ensures Valid() && model == Step(m, Read(fd, nbytes)) && r == ReadValue(m.img, Top(m), fd, nbytes, typed)
      ensures buf[..] == Blit(old(buf[..]), 0, ReadBytes(m.img, Top(m), fd, nbytes))
    {
      RunningProcess();
      var kind := pcbs[fdt].fds[fd].kind;
      if kind == Regular || kind == Directory {
        assert StreamHolds(m.img, Top(m).fds[fd], Top(m).got[fd]);
        if kind == Regular {
          r := ReadRegular(fd, buf, nbytes, m, Top(m).fds[fd]);
        } else {
          r := ReadDirectory(fd, buf, nbytes, m, Top(m).fds[fd]);
        }
      } else {
        OtherRead(m, fd, nbytes, typed);
        r := if kind == Unused || kind == Stdout then -1 else typed;
      }
    }

    /** A read of a regular file. */
    method ReadRegular(fd: nat, buf: array<Byte>, nbytes: nat, ghost m: Machine, ghost f: Fd) returns (r: int)
      requires Valid() && m == model && Running(m) && fd < FDS && fd != 1 && buf != img
      requires f == Top(m).fds[fd] && f.kind == Regular && f.pos >= 0
      requires |ReadBytes(m.img, Top(m), fd, nbytes)| <= buf.Length
      modifies pcbs, `model, buf
      ensures Valid() && model == Step(m, Read(fd, nbytes)) && r == ReadValue(m.img, Top(m), fd, nbytes, 0)
      ensures buf[..] == Blit(old(buf[..]), 0, ReadBytes(m.img, Top(m), fd, nbytes))
    {
      ghost var value, data := ReadValue(m.img, Top(m), fd, nbytes, 0), ReadBytes(m.img, Top(m), fd, nbytes);
      RegularRead(m, fd, nbytes, f, value, data);
      r := ReadFile(fd, buf, nbytes, m, f, value, data, Step(m, Read(fd, nbytes)));
    }

    /** A read of the directory. */
    method ReadDirectory(fd: nat, buf: array<Byte>, nbytes: nat, ghost m: Machine, ghost f: Fd) returns (r: int)
      requires Valid() && m == model && Running(m) && fd < FDS && fd != 1 && buf != img
      requires f == Top(m).fds[fd] && f.kind == Directory && f.pos >= 0
      requires |ReadBytes(m.img, Top(m), fd, nbytes)| <= buf.Length
      modifies pcbs, `model, buf
      ensures Valid() && model == Step(m, Read(fd, nbytes)) && r == ReadValue(m.img, Top(m), fd, nbytes, 0)
      ensures buf[..] == Blit(old(buf[..]), 0, ReadBytes(m.img, Top(m), fd, nbytes))
    {
      DirectoryEntryRead(m, fd, nbytes);
      r := DirectoryRead(fd, buf, m, f, Step(m, Read(fd, nbytes)));
    }

    const USER_VIDMAP := EIGHT_MB * 64
    const USER_START := EIGHT_MB * 64 / 4

    /** sys_vidmap: the address it stores is that of the page of the running process's terminal. */
    method SysVidmap(screenStart: Option<nat>) returns (r: int, address: int)
      requires Valid() && Running(model)
      ensures r == 0 <==> screenStart.Some? && 0x800_0000 <= screenStart.value < 0x840_0000
      ensures r == 0 || r == -1
      ensures r == 0 ==> address == 0x2000_0000 + 0x1000 * model.cur
    {
      RunningProcess();
      address := 0;
      if screenStart.None? {
        return -1, address;
      }
      if screenStart.value < EIGHT_MB {
        return -1, address;
      }
      if screenStart.value < USER_START || screenStart.value >= USER_START + FOUR_MB {
        return -1, address;
      }
      return 0, USER_VIDMAP + pcbs[curPid].terminal * PAGE_SIZE;
    }

    // ---- Runs ----

    method Perform(ev: Event)
      requires Valid() && AllStream(model) && Can(model, ev)
      modifies this, pcbs, ptrs, pidStore, started
      ensures Valid() && AllStream(model) && model == Step(old(model), ev)
    {
      StepStreams(model, ev);
      match ev
      case Tick => var fault := PitHandler();
      case Execute(command, ctx) => var r, fault := SysExecute(command, ctx, Snap());
      case Halt(status) => var resumed := SysHalt(status);
      case Exception => var resumed := ExceptionHandler();
      case Open(name) => var r := SysOpen(name);
      case Close(fd) => var r := SysClose(fd);
      case Read(fd, nbytes) =>
        var buf := new Byte[if nbytes < NAME then NAME else nbytes];
        ReadStoresIff(model.img, Top(model), fd, nbytes);
        var r := SysRead(fd, buf, nbytes, 0, model);
    }

    /** Any run of interrupts, exceptions and system calls drives the three process stacks. */
    method PerformAll(evs: seq<Event>)
      requires Valid() && AllStream(model) && CanAll(model, evs)
      modifies this, pcbs, ptrs, pidStore, started
      ensures Valid() && AllStream(model) && model == Run(old(model), evs)
      decreases |evs|
    {
      if evs != [] {
        Perform(evs[0]);
        PerformAll(evs[1..]);
      }
    }
  }
}
