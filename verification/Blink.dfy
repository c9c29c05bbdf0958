// The blinking characters of fish/blink.S over the pool allocator of fish/fish.c. The
// nodes live in a static array in which a slot is free when its location is 0; the list
// threads through them. It is meant to be a sequence of records, newest first.

module Blink {
  import opened Memory

  const SLOTS := 2000
  const NIL := -1

  type Word = x: int | 0 <= x < 0x1_0000

  datatype Blink = Blink(location: Word, onChar: Byte, offChar: Byte,
                         onLength: Word, offLength: Word, countdown: Word, status: Word)

  datatype Node = Node(blink: Blink, next: int)

  // ---- One blinking character ----

  /** The 16-bit decrement of a countdown. */
  function Decremented(w: Word): Word {
    if w == 0 then 0xFFFF else w - 1
  }

  /** `jg` after comparing a word with 0: positive as a signed 16-bit number. */
  predicate Positive(w: Word) {
    0 < w < 0x8000
  }

  predicate Lit(b: Blink) {
    b.status % 2 == 1
  }

  /** The countdown runs out at the next tick. */
  predicate Fires(b: Blink) {
    !Positive(Decremented(b.countdown))
  }

  /** The effect of one tick of mp1_rtc_tasklet on a node. */
  function Tick(b: Blink): Blink {
    if !Fires(b) then b.(countdown := Decremented(b.countdown))
    else if Lit(b) then b.(countdown := b.offLength, status := b.status - 1)
    else b.(countdown := b.onLength, status := b.status + 1)
  }

  function Ticks(b: Blink, n: nat): Blink {
    if n == 0 then b else Tick(Ticks(b, n - 1))
  }

  /** A record as mp1_ioctl_add starts it: lit, with the on-length to go. */
  function Fresh(b: Blink): Blink {
    b.(status := 1, countdown := b.onLength)
  }

  /** How many ticks a length really lasts: 0 and the words above 0x8000 count as negative. */
  function Lasts(length: Word): (n: nat)
    ensures n > 0
  {
    if 1 <= length <= 0x8000 then length else 1
  }

  /**
    The state after any number of ticks, for all lengths: lit exactly in the first Lasts(on)
    ticks of each period, with the rest of the current phase in the countdown.
   */
  lemma {:induction false} ClosedForm(b: Blink, n: nat)
    ensures var on, off := Lasts(b.onLength), Lasts(b.offLength);
      var phase := n % (on + off);
      var r := Ticks(Fresh(b), n);
      (Lit(r) <==> phase < on) && r.status < 2 &&
      r.countdown == (if phase < on then b.onLength - phase else b.offLength - (phase - on)) &&
      r == b.(countdown := r.countdown, status := r.status)
  {
    if n > 0 {
      ClosedForm(b, n - 1);
      NextPhase(n - 1, Lasts(b.onLength) + Lasts(b.offLength));
    }
  }

  lemma NextPhase(n: nat, period: nat)
    requires period > 0
    ensures (n + 1) % period == if n % period + 1 == period then 0 else n % period + 1
  {
    var q, r := n / period, n % period;
    if r + 1 < period {
      Remainder(n + 1, period, q, r + 1);
    } else {
      assert period * (q + 1) == period * q + period;
      Remainder(n + 1, period, q + 1, 0);
    }
  }

  /** The fields that drive the blinking. */
  predicate InStep(a: Blink, b: Blink) {
    a.onLength == b.onLength && a.offLength == b.offLength && a.countdown == b.countdown && a.status == b.status
  }

  function Synced(from: Blink, to: Blink): Blink {
    to.(onLength := from.onLength, offLength := from.offLength, countdown := from.countdown, status := from.status)
  }

  lemma {:induction false} SyncedStaysInStep(from: Blink, to: Blink, n: nat)
    ensures InStep(Ticks(from, n), Ticks(Synced(from, to), n))
  {
    if n > 0 {
      SyncedStaysInStep(from, to, n - 1);
    }
  }

  // ---- The sequence of records and the screen it drives ----

  datatype Fish = Fish(list: seq<Blink>, screen: seq<Byte>) {
    predicate Ok() {
      |list| <= SLOTS && |screen| == SLOTS && forall i :: 0 <= i < |list| ==> 0 < list[i].location < SLOTS
    }
  }

  /** Position of the newest record at a location, or the length. */
  function Find(list: seq<Blink>, location: Word): (k: nat)
    ensures k <= |list| && (k < |list| ==> list[k].location == location)
    ensures forall i :: 0 <= i < k ==> list[i].location != location
  {
    if list == [] || list[0].location == location then 0 else 1 + Find(list[1..], location)
  }

  function Without<T>(s: seq<T>, k: nat): (r: seq<T>)
    requires k < |s|
    ensures |r| == |s| - 1 && forall i :: 0 <= i < |r| ==> r[i] == s[if i < k then i else i + 1]
  {
    s[..k] + s[k + 1..]
  }

  function TickAll(list: seq<Blink>): (r: seq<Blink>)
    ensures |r| == |list| && forall i :: 0 <= i < |list| ==> r[i] == Tick(list[i])
  {
    seq(|list|, i requires 0 <= i < |list| => Tick(list[i]))
  }

  /** What a firing record shows from now on. */
  function Toggled(b: Blink): Byte {
    if Lit(b) then b.offChar else b.onChar
  }

  function TickScreen(screen: seq<Byte>, list: seq<Blink>): (r: seq<Byte>)
    requires forall i :: 0 <= i < |list| ==> list[i].location < |screen|
    ensures |r| == |screen|
  {
    if list == [] then screen
    else
      var last := list[|list| - 1];
      var s := TickScreen(screen, list[..|list| - 1]);
      if Fires(last) then s[last.location := Toggled(last)] else s
  }

  datatype Op = Add(b: Blink) | Remove(location: Word) | Sync(from: Word, to: Word) | Tasklet

  /** A record at location 0 would look free to the allocator. */
  predicate Placed(op: Op) {
    op.Add? ==> op.b.location != 0
  }

  function Step(f: Fish, op: Op): (r: Fish)
    requires f.Ok() && Placed(op)
    ensures r.Ok()
  {
    match op
    case Add(b) =>
      if b.location >= SLOTS || |f.list| == SLOTS then f
      else Fish([Fresh(b)] + f.list, f.screen[b.location := b.onChar])
    case Remove(location) =>
      var k := Find(f.list, location);
      if k == |f.list| then f else f.(list := Without(f.list, k))
    case Sync(from, to) =>
      var i, j := Find(f.list, from), Find(f.list, to);
      if i == |f.list| || j == |f.list| then f
      else Fish(f.list[j := Synced(f.list[i], f.list[j])], f.screen[to := f.list[j].offChar])
    case Tasklet => Fish(TickAll(f.list), TickScreen(f.screen, f.list))
  }

  /** The value the operation returns. */
  function Result(f: Fish, op: Op): int {
    match op
    case Add(b) => if b.location >= SLOTS || |f.list| == SLOTS then -1 else 0
    case Remove(location) => if Find(f.list, location) == |f.list| then -1 else 0
    case Sync(from, to) => if Find(f.list, from) == |f.list| || Find(f.list, to) == |f.list| then -1 else 0
    case Tasklet => 0
  }

  function Run(f: Fish, ops: seq<Op>): (r: Fish)
    requires f.Ok() && forall k :: 0 <= k < |ops| ==> Placed(ops[k])
    ensures r.Ok()
    decreases |ops|
  {
    if ops == [] then f else Run(Step(f, ops[0]), ops[1..])
  }

  /** A record stands at the location. */
  ghost predicate Stands(list: seq<Blink>, location: int) {
    exists i :: 0 <= i < |list| && list[i].location == location
  }

  /**
    An add succeeds exactly when its place is on the screen and there is room, a remove exactly when a
    record stands there, a sync exactly when one stands at both places. What fails changes nothing.
   */
  lemma SucceedsIff(f: Fish, op: Op)
    requires f.Ok() && Placed(op)
    ensures Result(f, op) == 0 || (Result(f, op) == -1 && Step(f, op) == f)
    ensures op.Add? ==> (Result(f, op) == 0 <==> op.b.location < 2000 && |f.list| < 2000)
    ensures op.Remove? ==> (Result(f, op) == 0 <==> Stands(f.list, op.location))
    ensures op.Sync? ==> (Result(f, op) == 0 <==> Stands(f.list, op.from) && Stands(f.list, op.to))
    ensures Result(f, op) == 0 ==>
      |Step(f, op).list| == |f.list| + if op.Add? then 1 else if op.Remove? then -1 else 0
  {
    if op.Remove? && Stands(f.list, op.location) {
      var i :| 0 <= i < |f.list| && f.list[i].location == op.location;
      assert i >= Find(f.list, op.location);
    }
    if op.Sync? && Stands(f.list, op.from) && Stands(f.list, op.to) {
      var i :| 0 <= i < |f.list| && f.list[i].location == op.from;
      var j :| 0 <= j < |f.list| && f.list[j].location == op.to;
      assert i >= Find(f.list, op.from) && j >= Find(f.list, op.to);
    }
  }

  /** A remove takes back the add before it. */
  lemma AddThenRemove(f: Fish, b: Blink)
    requires f.Ok() && 0 < b.location < 2000 && |f.list| < 2000
    ensures var g := Step(f, Add(b));
      g.list[0] == b.(status := 1, countdown := b.onLength) && g.screen[b.location] == b.onChar &&
      Result(g, Remove(b.location)) == 0 && Step(g, Remove(b.location)).list == f.list
  {
    var g := Step(f, Add(b));
    assert Find(g.list, b.location) == 0;
  }

  lemma {:induction false} TickFirst(b: Blink, n: nat)
    ensures Ticks(Tick(b), n) == Ticks(b, n + 1)
  {
    if n > 0 {
      TickFirst(b, n - 1);
    }
  }

  // ---- What other operations do to a record: nothing ----

  /** The operation neither removes the record in position `i` nor syncs it to another one. */
  predicate Spares(f: Fish, op: Op, i: nat)
    requires f.Ok() && Placed(op)
  {
    match op
    case Remove(location) => Find(f.list, location) != i
    case Sync(from, to) => Find(f.list, to) != i || Find(f.list, from) == |f.list|
    case _ => true
  }

  /** Where the record in position `i` stands after the operation. */
  function Moved(f: Fish, op: Op, i: nat): nat
    requires f.Ok() && Placed(op) && Spares(f, op, i)
  {
    match op
    case Add(_) => if Result(f, op) == 0 then i + 1 else i
    case Remove(location) => if Find(f.list, location) < i < |f.list| then i - 1 else i
    case _ => i
  }

  ghost predicate SparesAll(f: Fish, ops: seq<Op>, i: nat)
    requires f.Ok() && forall k :: 0 <= k < |ops| ==> Placed(ops[k])
    decreases |ops|
  {
    ops != [] ==> Spares(f, ops[0], i) && SparesAll(Step(f, ops[0]), ops[1..], Moved(f, ops[0], i))
  }

  function MovedAll(f: Fish, ops: seq<Op>, i: nat): nat
    requires f.Ok() && (forall k :: 0 <= k < |ops| ==> Placed(ops[k])) && SparesAll(f, ops, i)
    decreases |ops|
  {
    if ops == [] then i else MovedAll(Step(f, ops[0]), ops[1..], Moved(f, ops[0], i))
  }

  function Tasklets(ops: seq<Op>): nat {
    if ops == [] then 0 else (if ops[0] == Tasklet then 1 else 0) + Tasklets(ops[1..])
  }

  lemma StepSpares(f: Fish, op: Op, i: nat)
    requires f.Ok() && Placed(op) && i < |f.list| && Spares(f, op, i)
    ensures var j, r := Moved(f, op, i), Step(f, op).list;
      j < |r| && r[j] == if op == Tasklet then Tick(f.list[i]) else f.list[i]
  {
  }

  /**
    Over any run of operations that spares it, a record gets exactly the ticks of the tasklets in the
    run, so ClosedForm tells its state.
   */
  lemma {:induction false} SparedRecordTicks(f: Fish, ops: seq<Op>, i: nat)
    requires f.Ok() && (forall k :: 0 <= k < |ops| ==> Placed(ops[k])) && i < |f.list| && SparesAll(f, ops, i)
    ensures var j, r := MovedAll(f, ops, i), Run(f, ops).list; j < |r| && r[j] == Ticks(f.list[i], Tasklets(ops))
    decreases |ops|
  {
    if ops != [] {
      StepSpares(f, ops[0], i);
      SparedRecordTicks(Step(f, ops[0]), ops[1..], Moved(f, ops[0], i));
      TickFirst(f.list[i], Tasklets(ops[1..]));
    }
  }

  /** Two records in step stay in step over any run that spares both. */
  lemma SyncedPairStaysInStep(f: Fish, from: Word, to: Word, ops: seq<Op>)
    requires f.Ok() && Result(f, Sync(from, to)) == 0 && forall k :: 0 <= k < |ops| ==> Placed(ops[k])
    requires var g := Step(f, Sync(from, to));
      SparesAll(g, ops, Find(f.list, from)) && SparesAll(g, ops, Find(f.list, to))
    ensures var g := Step(f, Sync(from, to));
      var i, j, r := MovedAll(g, ops, Find(f.list, from)), MovedAll(g, ops, Find(f.list, to)), Run(g, ops).list;
      i < |r| && j < |r| && InStep(r[i], r[j])
  {
    var g, i, j := Step(f, Sync(from, to)), Find(f.list, from), Find(f.list, to);
    SparedRecordTicks(g, ops, i);
    SparedRecordTicks(g, ops, j);
    SyncedStaysInStep(g.list[i], f.list[j], Tasklets(ops));
    assert i != j ==> g.list[i] == f.list[i];
    assert g.list[j] == Synced(g.list[i], f.list[j]) || i == j;
  }

  /** Adds at valid places for which there is room. */
  ghost predicate AllFit(f: Fish, ops: seq<Op>) {
    |f.list| + |ops| <= SLOTS && forall k :: 0 <= k < |ops| ==> ops[k].Add? && 0 < ops[k].b.location < SLOTS
  }

  /** The records of a run of adds, newest first. */
  function Added(ops: seq<Op>): (r: seq<Blink>)
    requires forall k :: 0 <= k < |ops| ==> ops[k].Add?
    ensures |r| == |ops| && forall k :: 0 <= k < |ops| ==> r[|ops| - 1 - k] == Fresh(ops[k].b)
  {
    seq(|ops|, i requires 0 <= i < |ops| => Fresh(ops[|ops| - 1 - i].b))
  }

  lemma AddedFirst(ops: seq<Op>)
    requires ops != [] && forall k :: 0 <= k < |ops| ==> ops[k].Add?
    ensures Added(ops) == Added(ops[1..]) + [Fresh(ops[0].b)]
  {
    assert forall k :: 0 <= k < |ops| - 1 ==> ops[1..][k] == ops[k + 1];
  }

  /** They all succeed, and the list holds them newest first before what it had. */
  lemma {:induction false} AddsPrepend(f: Fish, ops: seq<Op>)
    requires f.Ok() && AllFit(f, ops)
    ensures Run(f, ops).list == Added(ops) + f.list
    decreases |ops|
  {
    if ops == [] {
      assert Added(ops) + f.list == f.list;
    } else {
      var b := ops[0].b;
      assert Step(f, ops[0]).list == [Fresh(b)] + f.list;
      AddsPrepend(Step(f, ops[0]), ops[1..]);
      AddedFirst(ops);
      Regroup(Added(ops[1..]), [Fresh(b)], f.list);
    }
  }

  // ---- Screen and status ----

  ghost predicate Distinct(list: seq<Blink>) {
    forall i, j :: 0 <= i < j < |list| ==> list[i].location != list[j].location
  }

  /** Every record's cell shows the character of its status. */
  ghost predicate Agrees(f: Fish) {
    f.Ok() && Distinct(f.list) &&
    forall i :: 0 <= i < |f.list| ==>
      f.screen[f.list[i].location] == (if Lit(f.list[i]) then f.list[i].onChar else f.list[i].offChar)
  }

  lemma {:induction false} TickScreenAt(screen: seq<Byte>, list: seq<Blink>, i: nat)
    requires Distinct(list) && i < |list| && forall k :: 0 <= k < |list| ==> list[k].location < |screen|
    ensures TickScreen(screen, list)[list[i].location] ==
            if Fires(list[i]) then Toggled(list[i]) else screen[list[i].location]
  {
    var last := |list| - 1;
    if i < last {
      TickScreenAt(screen, list[..last], i);
    } else {
      TickScreenElsewhere(screen, list[..last], list[i].location);
    }
  }

  lemma {:induction false} TickScreenElsewhere(screen: seq<Byte>, list: seq<Blink>, at: nat)
    requires at < |screen| && forall k :: 0 <= k < |list| ==> list[k].location < |screen| && list[k].location != at
    ensures TickScreen(screen, list)[at] == screen[at]
  {
    if list != [] {
      TickScreenElsewhere(screen, list[..|list| - 1], at);
    }
  }

  lemma TickKeepsAgreement(f: Fish)
    requires Agrees(f)
    ensures Agrees(Step(f, Tasklet))
  {
    forall i | 0 <= i < |f.list|
      ensures TickScreen(f.screen, f.list)[f.list[i].location] ==
              if Lit(Tick(f.list[i])) then f.list[i].onChar else f.list[i].offChar
    {
      TickScreenAt(f.screen, f.list, i);
    }
  }

  lemma AddKeepsAgreement(f: Fish, b: Blink)
    requires Agrees(f) && b.location != 0 && Find(f.list, b.location) == |f.list|
    ensures Agrees(Step(f, Add(b)))
  {
    assert forall i :: 0 <= i < |f.list| ==> f.list[i].location != b.location;
  }

  lemma RemoveKeepsAgreement(f: Fish, location: Word)
    requires Agrees(f)
    ensures Agrees(Step(f, Remove(location)))
  {
    var k, r := Find(f.list, location), Step(f, Remove(location));
    assert k < |f.list| ==> forall i :: 0 <= i < |r.list| ==> r.list[i] == f.list[if i < k then i else i + 1];
  }

  /** Adding at a new place, removing and ticking keep screen and status in agreement, over any run. */
  lemma {:induction false} AgreementOverRuns(f: Fish, ops: seq<Op>)
    requires Agrees(f) && forall k :: 0 <= k < |ops| ==> Placed(ops[k]) && !ops[k].Sync?
    requires AddsNew(f, ops)
    ensures Agrees(Run(f, ops))
    decreases |ops|
  {
    if ops != [] {
      match ops[0] {
        case Add(b) => AddKeepsAgreement(f, b);
        case Remove(location) => RemoveKeepsAgreement(f, location);
        case Tasklet => TickKeepsAgreement(f);
      }
      AgreementOverRuns(Step(f, ops[0]), ops[1..]);
    }
  }

  /** Along the run a record is added only where there is none. */
  ghost predicate AddsNew(f: Fish, ops: seq<Op>)
    requires f.Ok() && forall k :: 0 <= k < |ops| ==> Placed(ops[k])
    decreases |ops|
  {
    ops != [] ==>
      (ops[0].Add? ==> Find(f.list, ops[0].b.location) == |f.list|) && AddsNew(Step(f, ops[0]), ops[1..])
  }

  function TaskletRun(n: nat): (ops: seq<Op>)
    ensures |ops| == n && forall k :: 0 <= k < n ==> ops[k] == Tasklet
  {
    if n == 0 then [] else [Tasklet] + TaskletRun(n - 1)
  }

  /** Tasklets spare every record and add none. */
  lemma {:induction false} TaskletRunSpares(f: Fish, n: nat, i: nat)
    requires f.Ok() && i < |f.list|
    ensures SparesAll(f, TaskletRun(n), i) && AddsNew(f, TaskletRun(n)) && Tasklets(TaskletRun(n)) == n
    decreases n
  {
    if n > 0 {
      TaskletRunSpares(Step(f, Tasklet), n - 1, i);
      assert TaskletRun(n)[1..] == TaskletRun(n - 1);
    }
  }

  /** Adds at places that differ from each other and from those on the list. */
  ghost predicate NewPlaces(list: seq<Blink>, ops: seq<Op>)
    requires forall k :: 0 <= k < |ops| ==> ops[k].Add?
  {
    (forall i, k :: 0 <= i < |list| && 0 <= k < |ops| ==> list[i].location != ops[k].b.location) &&
    forall k, l :: 0 <= k < l < |ops| ==> ops[k].b.location != ops[l].b.location
  }

  lemma {:induction false} NewPlacesAreNew(f: Fish, ops: seq<Op>)
    requires f.Ok() && AllFit(f, ops) && NewPlaces(f.list, ops)
    ensures AddsNew(f, ops)
    decreases |ops|
  {
    if ops != [] {
      NewPlacesAreNew(Step(f, ops[0]), ops[1..]);
    }
  }

  /** The character a record added as `b` shows n ticks later. */
  function Phase(b: Blink, n: nat): Byte {
    if n % (Lasts(b.onLength) + Lasts(b.offLength)) < Lasts(b.onLength) then b.onChar else b.offChar
  }

  /** n tasklets after it was added, a record's cell shows the character of its phase. */
  lemma RecordBlinks(f: Fish, n: nat, i: nat, b: Blink)
    requires Agrees(f) && i < |f.list| && f.list[i] == Fresh(b)
    ensures b.location < SLOTS && Run(f, TaskletRun(n)).screen[b.location] == Phase(b, n)
  {
    var j := RecordAfter(f, n, i, b);
    TicksShow(b, n);
    PhaseShown(Run(f, TaskletRun(n)), j, Ticks(Fresh(b), n), Phase(b, n));
  }

  lemma TicksShow(b: Blink, n: nat)
    ensures var r := Ticks(Fresh(b), n);
      r.location == b.location && Phase(b, n) == if Lit(r) then r.onChar else r.offChar
  {
    ClosedForm(b, n);
  }

  lemma RecordAfter(f: Fish, n: nat, i: nat, b: Blink) returns (j: nat)
    requires Agrees(f) && i < |f.list| && f.list[i] == Fresh(b)
    ensures var g := Run(f, TaskletRun(n)); Agrees(g) && j < |g.list| && g.list[j] == Ticks(Fresh(b), n)
  {
    TaskletRunSpares(f, n, i);
    AgreementOverRuns(f, TaskletRun(n));
    SparedRecordTicks(f, TaskletRun(n), i);
    j := MovedAll(f, TaskletRun(n), i);
  }

  lemma PhaseShown(f: Fish, j: nat, b: Blink, c: Byte)
    requires Agrees(f) && j < |f.list| && f.list[j] == b && c == if Lit(b) then b.onChar else b.offChar
    ensures f.screen[b.location] == c
  {
  }

  /** The same for records added at new places. */
  lemma AddedRecordBlinks(f: Fish, ops: seq<Op>, n: nat, k: nat)
    requires Agrees(f) && AllFit(f, ops) && NewPlaces(f.list, ops) && k < |ops|
    ensures Run(Run(f, ops), TaskletRun(n)).screen[ops[k].b.location] == Phase(ops[k].b, n)
  {
    NewPlacesAreNew(f, ops);
    AgreementOverRuns(f, ops);
    AddsPrepend(f, ops);
    RecordBlinks(Run(f, ops), n, |ops| - 1 - k, ops[k].b);
  }

  /** No record stands at the cell. */
  ghost predicate Vacant(list: seq<Blink>, at: nat) {
    forall i :: 0 <= i < |list| ==> list[i].location != at
  }

  lemma StepElsewhere(f: Fish, op: Op, at: nat)
    requires f.Ok() && at < SLOTS && Placed(op) && (op.Add? ==> op.b.location != at) && Vacant(f.list, at)
    ensures Step(f, op).screen[at] == f.screen[at] && Vacant(Step(f, op).list, at)
  {
    match op
    case Tasklet => TickScreenElsewhere(f.screen, f.list, at);
    case Sync(from, to) =>
      var j := Find(f.list, to);
      assert j < |f.list| ==> f.list[j].location == to != at;
    case _ =>
  }

  /** A cell of no record keeps what it shows. */
  lemma {:induction false} OtherCellsStay(f: Fish, ops: seq<Op>, at: nat)
    requires f.Ok() && at < SLOTS && Vacant(f.list, at)
    requires forall k :: 0 <= k < |ops| ==> Placed(ops[k]) && (ops[k].Add? ==> ops[k].b.location != at)
    ensures Run(f, ops).screen[at] == f.screen[at] && Vacant(Run(f, ops).list, at)
    decreases |ops|
  {
    if ops != [] {
      StepElsewhere(f, ops[0], at);
      OtherCellsStay(Step(f, ops[0]), ops[1..], at);
    }
  }

  /** A sync always shows the off character, so agreement survives exactly when that is the right one. */
  lemma SyncAgreesIff(f: Fish, from: Word, to: Word)
    requires Agrees(f) && Find(f.list, from) < |f.list| && Find(f.list, to) < |f.list|
    ensures var source, target := f.list[Find(f.list, from)], f.list[Find(f.list, to)];
      Agrees(Step(f, Sync(from, to))) <==> !Lit(source) || target.onChar == target.offChar
  {
    var i, j := Find(f.list, from), Find(f.list, to);
    var r := Step(f, Sync(from, to));
    assert forall k :: 0 <= k < |f.list| ==> r.list[k].location == f.list[k].location;
    assert r.screen[r.list[j].location] == f.list[j].offChar;
  }

  /** Two lit records at cells 1 and 2: after a sync the second is lit and shows its off character. */
  lemma SyncMisleads(f: Fish)
    requires f.Ok() && f.list == []
    ensures var ops := [Add(Blink(1, 65, 66, 7, 6, 0, 0)), Add(Blink(2, 67, 68, 7, 6, 0, 0))];
      Agrees(Run(f, ops)) && !Agrees(Step(Run(f, ops), Sync(1, 2)))
  {
    var ops := [Add(Blink(1, 65, 66, 7, 6, 0, 0)), Add(Blink(2, 67, 68, 7, 6, 0, 0))];
    var g := Run(f, ops);
    AddsPrepend(f, ops);
    NewPlacesAreNew(f, ops);
    AgreementOverRuns(f, ops);
    assert g.list == Added(ops);
    FindIs(g.list, 2, 0);
    FindIs(g.list, 1, 1);
    SyncAgreesIff(g, 1, 2);
  }

  // ---- The pool and the list threaded through it ----

  const EMPTY := Blink(0, 0, 0, 0, 0, 0, 0)

  predicate Free(pool: seq<Node>, p: nat) {
    p < |pool| && pool[p].blink.location == 0
  }

  ghost predicate Full(pool: seq<Node>) {
    forall p: nat :: p < |pool| ==> !Free(pool, p)
  }

  /** What the link into position `i` of the list holds. */
  ghost function LinkAt(order: seq<nat>, i: nat): int {
    if i < |order| then order[i] else NIL
  }

  /** The list starting at `head` runs through the slots `order`, each once, and ends. */
  ghost predicate Linked(pool: seq<Node>, head: int, order: seq<nat>) {
    head == LinkAt(order, 0) &&
    (forall i :: 0 <= i < |order| ==> order[i] < |pool|) &&
    (forall i: nat :: i < |order| ==> LinkHolds(pool, order, i)) &&
    (forall i, j :: 0 <= i < j < |order| ==> order[i] != order[j])
  }

  /** The i-th node of the list points to the next one. */
  ghost predicate LinkHolds(pool: seq<Node>, order: seq<nat>, i: nat)
    requires i < |order|
  {
    order[i] < |pool| && pool[order[i]].next == LinkAt(order, i + 1)
  }

  /** The used slots are exactly the ones on the list. */
  ghost predicate Accounted(pool: seq<Node>, order: seq<nat>) {
    forall p: nat :: p < |pool| ==> (Free(pool, p) <==> p !in order)
  }

  ghost function Records(pool: seq<Node>, order: seq<nat>): (r: seq<Blink>)
    requires forall i :: 0 <= i < |order| ==> order[i] < |pool|
    ensures |r| == |order| && forall i :: 0 <= i < |r| ==> r[i] == pool[order[i]].blink
  {
    seq(|order|, i requires 0 <= i < |order| => pool[order[i]].blink)
  }

  ghost predicate Sound(pool: seq<Node>, head: int, order: seq<nat>) {
    |pool| == SLOTS && Linked(pool, head, order) && Accounted(pool, order)
  }

  ghost function Elements(s: seq<nat>): (r: set<nat>)
    ensures forall x :: x in r <==> x in s
  {
    set i | 0 <= i < |s| :: s[i]
  }

  ghost function UpTo(n: nat): (r: set<nat>)
    ensures |r| == n && forall p: nat :: p in r <==> p < n
  {
    if n == 0 then {} else UpTo(n - 1) + {n - 1}
  }

  lemma {:induction false} DistinctCount(s: seq<nat>)
    requires forall i, j :: 0 <= i < j < |s| ==> s[i] != s[j]
    ensures |Elements(s)| == |s|
  {
    if s == [] {
      assert Elements(s) == {};
    } else {
      var last := |s| - 1;
      DistinctCount(s[..last]);
      assert s == s[..last] + [s[last]];
      assert Elements(s) == Elements(s[..last]) + {s[last]};
    }
  }

  lemma {:induction false} SubsetCount(a: set<nat>, b: set<nat>)
    requires a <= b
    ensures |a| <= |b| && (|a| == |b| ==> a == b)
  {
    if a != {} {
      var x :| x in a;
      SubsetCount(a - {x}, b - {x});
    }
  }

  lemma Pigeonhole(s: seq<nat>, n: nat)
    requires (forall i, j :: 0 <= i < j < |s| ==> s[i] != s[j]) && forall i :: 0 <= i < |s| ==> s[i] < n
    ensures |s| <= n && (|s| == n <==> forall p: nat :: p < n ==> p in s)
  {
    DistinctCount(s);
    SubsetCount(Elements(s), UpTo(n));
    if forall p: nat :: p < n ==> p in s {
      assert Elements(s) == UpTo(n);
    }
  }

  /** All 2000 slots are in use exactly when the list has 2000 nodes. */
  lemma SoundListFits(pool: seq<Node>, head: int, order: seq<nat>)
    requires Sound(pool, head, order)
    ensures |order| <= SLOTS && (|order| == SLOTS <==> Full(pool))
    ensures forall i :: 0 <= i < |order| ==> pool[order[i]].blink.location != 0
  {
    assert forall i :: 0 <= i < |order| ==> order[i] in order && !Free(pool, order[i]);
    Pigeonhole(order, |pool|);
    assert Full(pool) <==> forall p: nat :: p < |pool| ==> p in order;
  }

  /**
    Slot `p` taken by mp1_malloc heads the list. A record at location 0 is accepted too, and
    exactly that spoils the list: its slot still looks free.
   */
  lemma InsertIsSoundIff(pool: seq<Node>, head: int, order: seq<nat>, p: nat, b: Blink)
    requires Sound(pool, head, order) && Free(pool, p)
    ensures var r := pool[p := Node(Fresh(b), head)];
      (Sound(r, p, [p] + order) <==> b.location != 0) &&
      Records(r, [p] + order) == [Fresh(b)] + Records(pool, order)
  {
    assert p !in order;
    InsertLinks(pool, head, order, p, Node(Fresh(b), head));
    var r, next := pool[p := Node(Fresh(b), head)], [p] + order;
    forall q: nat | q < SLOTS && q != p ensures Free(r, q) <==> q !in next {
      assert Free(r, q) <==> Free(pool, q);
      assert q in next <==> q in order;
    }
    assert next[0] == p && (Free(r, p) <==> b.location == 0);
  }

  lemma InsertLinks(pool: seq<Node>, head: int, order: seq<nat>, p: nat, node: Node)
    requires Linked(pool, head, order) && p !in order && p < |pool| && node.next == head
    ensures Linked(pool[p := node], p, [p] + order)
    ensures Records(pool[p := node], [p] + order) == [node.blink] + Records(pool, order)
  {
    var r, next := pool[p := node], [p] + order;
    forall i: nat | i < |next| ensures LinkHolds(r, next, i) {
      InsertLink(pool, head, order, p, node, i);
    }
    forall i, j | 0 <= i < j < |next| ensures next[i] != next[j] {
      assert next[j] == order[j - 1] && order[j - 1] in order && (i > 0 ==> next[i] == order[i - 1]);
    }
    InsertRecords(pool, order, p, node);
  }

  lemma InsertLink(pool: seq<Node>, head: int, order: seq<nat>, p: nat, node: Node, i: nat)
    requires Linked(pool, head, order) && p !in order && p < |pool| && node.next == head && i <= |order|
    ensures LinkHolds(pool[p := node], [p] + order, i)
  {
    var r, next := pool[p := node], [p] + order;
    assert LinkAt(next, i + 1) == LinkAt(order, i);
    if i > 0 {
      assert next[i] == order[i - 1] && order[i - 1] in order && LinkHolds(pool, order, i - 1);
    }
  }

  lemma InsertRecords(pool: seq<Node>, order: seq<nat>, p: nat, node: Node)
    requires p !in order && p < |pool| && forall i :: 0 <= i < |order| ==> order[i] < |pool|
    ensures Records(pool[p := node], [p] + order) == [node.blink] + Records(pool, order)
  {
    var r, next := pool[p := node], [p] + order;
    forall i | 0 <= i < |next| ensures Records(r, next)[i] == ([node.blink] + Records(pool, order))[i] {
      if i > 0 {
        assert next[i] == order[i - 1] && order[i - 1] in order && r[next[i]] == pool[order[i - 1]];
      }
    }
  }

  /** Position `k` of the list unlinked and its slot wiped by mp1_free. */
  ghost function Unlinked(pool: seq<Node>, order: seq<nat>, k: nat): (r: seq<Node>)
    requires k < |order| && forall i :: 0 <= i < |order| ==> order[i] < |pool|
    ensures |r| == |pool|
  {
    var after := pool[order[k]].next;
    var bypassed := if k == 0 then pool else pool[order[k - 1] := pool[order[k - 1]].(next := after)];
    bypassed[order[k] := Node(EMPTY, NIL)]
  }

  lemma UnlinkIsSound(pool: seq<Node>, head: int, order: seq<nat>, k: nat)
    requires Sound(pool, head, order) && k < |order|
    ensures Sound(Unlinked(pool, order, k), if k == 0 then pool[order[k]].next else head, Without(order, k))
    ensures Records(Unlinked(pool, order, k), Without(order, k)) == Without(Records(pool, order), k)
  {
    var r, rest := Unlinked(pool, order, k), Without(order, k);
    assert LinkHolds(pool, order, k);
    forall i: nat | i < |rest| ensures LinkHolds(r, rest, i) {
      UnlinkLink(pool, head, order, k, i);
    }
    forall p: nat | p < |pool| ensures Free(r, p) <==> p !in rest {
      UnlinkFree(pool, head, order, k, p);
    }
    forall i | 0 <= i < |rest| ensures Records(r, rest)[i] == Without(Records(pool, order), k)[i] {
      assert rest[i] == order[if i < k then i else i + 1];
    }
  }

  lemma UnlinkLink(pool: seq<Node>, head: int, order: seq<nat>, k: nat, i: nat)
    requires Linked(pool, head, order) && k < |order| && i < |order| - 1
    ensures LinkHolds(Unlinked(pool, order, k), Without(order, k), i)
  {
    var j := if i < k then i else i + 1;
    assert LinkHolds(pool, order, k) && LinkHolds(pool, order, j);
    assert Without(order, k)[i] == order[j] && order[j] != order[k];
    assert i + 1 < |order| - 1 ==> Without(order, k)[i + 1] == order[if i + 1 < k then i + 1 else i + 2];
  }

  lemma UnlinkFree(pool: seq<Node>, head: int, order: seq<nat>, k: nat, p: nat)
    requires Linked(pool, head, order) && Accounted(pool, order) && k < |order| && p < |pool|
    ensures Free(Unlinked(pool, order, k), p) <==> p !in Without(order, k)
  {
    WithoutOne(order, k, p);
    assert Free(pool, p) <==> p !in order;
    assert Free(Unlinked(pool, order, k), p) <==> p == order[k] || Free(pool, p);
  }

  lemma WithoutOne(order: seq<nat>, k: nat, p: nat)
    requires k < |order| && forall i, j :: 0 <= i < j < |order| ==> order[i] != order[j]
    ensures p in Without(order, k) <==> p in order && p != order[k]
  {
    var rest := Without(order, k);
    if p in rest {
      var i :| 0 <= i < |rest| && rest[i] == p;
      assert p == order[if i < k then i else i + 1];
    }
    if p in order && p != order[k] {
      var i :| 0 <= i < |order| && order[i] == p;
      assert rest[if i < k then i else i - 1] == p;
    }
  }

  /** The same links and locations. */
  ghost predicate SameLinks(a: seq<Node>, b: seq<Node>) {
    |a| == |b| && forall p :: 0 <= p < |a| ==> a[p].next == b[p].next && a[p].blink.location == b[p].blink.location
  }

  lemma SameLinksSound(a: seq<Node>, b: seq<Node>, head: int, order: seq<nat>)
    requires Sound(a, head, order) && SameLinks(a, b)
    ensures Sound(b, head, order)
  {
    forall i: nat | i < |order| ensures LinkHolds(b, order, i) {
      assert LinkHolds(a, order, i);
    }
    forall p: nat | p < |b| ensures Free(b, p) <==> p !in order {
      assert Free(a, p) <==> p !in order;
    }
  }

  /** Position `j` of the list synced to position `i`. */
  lemma SyncedRecords(was: seq<Node>, now: seq<Node>, head: int, order: seq<nat>, i: nat, j: nat)
    requires Sound(was, head, order) && i < |order| && j < |order|
    requires var source, target := was[order[i]].blink, was[order[j]];
      now == was[order[j] := target.(blink := Synced(source, target.blink))]
    ensures Sound(now, head, order)
    ensures Records(now, order) == Records(was, order)[j := Synced(Records(was, order)[i], Records(was, order)[j])]
  {
    SameLinksSound(was, now, head, order);
  }

  lemma FindIs(list: seq<Blink>, location: Word, k: nat)
    requires k <= |list| && (k < |list| ==> list[k].location == location)
    requires forall i :: 0 <= i < k ==> list[i].location != location
    ensures Find(list, location) == k
  {
  }

  class Pool {
    const slots: array<Node>      // blink_array
    const cells: array<Byte>      // the character cells of the vidmapped screen
    var head: int                 // mp1_list_head: NIL or a slot
    ghost var order: seq<nat>     // the slots on the list, newest first

    /** The pool after ece391_memset: all slots free. */
    constructor ()
      ensures Valid() && View().list == [] && fresh(slots) && fresh(cells)
    {
      slots, cells := new Node[SLOTS](_ => Node(EMPTY, NIL)), new Byte[SLOTS];
      head, order := NIL, [];
    }

    ghost predicate Shaped()
      reads slots, cells
    {
      slots.Length == SLOTS && cells.Length == SLOTS &&
      forall p :: 0 <= p < SLOTS ==> slots[p].blink.location < SLOTS
    }

    ghost predicate Valid()
      reads this, slots, cells
    {
      Shaped() && Sound(slots[..], head, order)
    }

    ghost function View(): (f: Fish)
      requires Valid()
      reads this, slots, cells
      ensures f.Ok() && f.list == Records(slots[..], order) && f.screen == cells[..]
    {
      SoundListFits(slots[..], head, order);
      Fish(Records(slots[..], order), cells[..])
    }

    /** mp1_malloc: the first free slot. */
    method Malloc() returns (p: int)
      requires slots.Length == SLOTS
      ensures if p == NIL then Full(slots[..])
        else 0 <= p < SLOTS && Free(slots[..], p) && forall q: nat :: q < p ==> !Free(slots[..], q)
    {
      for i := 0 to SLOTS
        invariant forall q: nat :: q < i ==> !Free(slots[..], q)
      {
        if slots[i].blink.location == 0 {
          return i;
        }
      }
      return NIL;
    }

    /** mp1_ioctl_add; `p` is the slot it takes. It needs no sound list. */
    method IoctlAdd(b: Blink) returns (r: int, ghost p: nat)
      requires Shaped()
      modifies this, slots, cells
      ensures Shaped() && r == if b.location >= SLOTS || Full(old(slots[..])) then -1 else 0
      ensures r == -1 ==> head == old(head) && order == old(order)
      ensures r == -1 ==> slots[..] == old(slots[..]) && cells[..] == old(cells[..])
      ensures r == 0 ==> Free(old(slots[..]), p) && forall q: nat :: q < p ==> !Free(old(slots[..]), q)
      ensures r == 0 ==> head == p && order == [p] + old(order)
      ensures r == 0 ==> slots[..] == old(slots[..])[p := Node(Fresh(b), old(head))]
      ensures r == 0 ==> cells[..] == old(cells[..])[b.location := b.onChar]
    {
      p := 0;
      if b.location >= SLOTS {
        return -1, p;
      }
      var slot := Malloc();
      if slot == NIL {
        return -1, p;
      }
      p := slot;
      slots[slot] := Node(Fresh(b), head);
      head, order := slot, [p] + order;
      cells[b.location] := b.onChar;
      r := 0;
    }

    /** Two adds at location 0, on any list with room, leave a node that is its own successor. */
    method TwoAddsAtZero(b: Blink)
      requires Shaped() && !Full(slots[..]) && b.location == 0
      modifies this, slots, cells
      ensures 0 <= head < SLOTS && slots[head].next == head
    {
      var r, p := IoctlAdd(b);
      ghost var before, between := old(slots[..]), slots[..];
      assert Free(between, p) && !Full(between);
      var r', p' := IoctlAdd(b);
      assert forall q: nat :: q < p ==> between[q] == before[q] && !Free(before, q);
      assert slots[..][p].next == p;
    }

    /** mp1_find_helper: the newest node at the location; `k` is its position on the list. */
    method FindHelper(location: Word) returns (p: int, ghost k: nat)
      requires Valid()
      ensures k == Find(View().list, location) && p == LinkAt(order, Find(View().list, location))
    {
      p, k := head, 0;
      while p != NIL && slots[p].blink.location != location
        invariant k <= |order| && p == LinkAt(order, k)
        invariant forall i :: 0 <= i < k ==> View().list[i].location != location
        decreases |order| - k
      {
        assert LinkHolds(slots[..], order, k);
        assert View().list[k] == slots[p].blink;
        p, k := slots[p].next, k + 1;
      }
      assert k < |order| ==> View().list[k] == slots[p].blink;
      FindIs(View().list, location, k);
    }

    /** The walk of mp1_ioctl_remove to the link that points at the node in position `k`. */
    method FindPrev(node: int, ghost k: nat) returns (prev: int)
      requires Valid() && k < |order| && node == order[k]
      ensures prev == if k == 0 then NIL else order[k - 1]
    {
      prev := NIL;
      var link := head;
      ghost var i := 0;
      while link != node
        invariant 0 <= i <= k && link == LinkAt(order, i) && prev == if i == 0 then NIL else order[i - 1]
        decreases k - i
      {
        assert LinkHolds(slots[..], order, i);
        prev, link, i := link, slots[link].next, i + 1;
      }
    }

    /** mp1_ioctl_remove. */
    method IoctlRemove(location: Word) returns (r: int)
      requires Valid()
      modifies this, slots
      ensures Valid() && View() == Step(old(View()), Remove(location)) && r == Result(old(View()), Remove(location))
    {
      var node, k := FindHelper(location);
      if node == NIL {
        return -1;
      }
      UnlinkIsSound(slots[..], head, order, k);
      var prev := FindPrev(node, k);
      if prev == NIL {
        head := slots[node].next;
      } else {
        slots[prev] := slots[prev].(next := slots[node].next);
      }
      slots[node] := Node(EMPTY, NIL);
      assert slots[..] == old(Unlinked(slots[..], order, k));
      order := Without(order, k);
      r := 0;
    }

    /** mp1_ioctl_sync: the node at `to` takes over lengths, countdown and status of the node at `from`. */
    method IoctlSync(from: Word, to: Word) returns (r: int)
      requires Valid()
      modifies slots, cells
      ensures Valid() && View() == Step(old(View()), Sync(from, to)) && r == Result(old(View()), Sync(from, to))
    {
      var source, i := FindHelper(from);
      if source == NIL {
        return -1;
      }
      var target, j := FindHelper(to);
      if target == NIL {
        return -1;
      }
      slots[target] := slots[target].(blink := Synced(slots[source].blink, slots[target].blink));
      cells[slots[target].blink.location] := slots[target].blink.offChar;
      SyncedRecords(old(slots[..]), slots[..], head, order, i, j);
      r := 0;
    }

    /** mp1_ioctl_find: a copy of the newest record at the location. */
    method IoctlFind(location: Word) returns (r: int, b: Blink)
      requires Valid()
      ensures var k := Find(View().list, location);
        if k == |View().list| then r == -1 else r == 0 && b == View().list[k]
    {
      var p, k := FindHelper(location);
      if p == NIL {
        return -1, EMPTY;
      }
      return 0, slots[p].blink;
    }

    /** The first `k` nodes of the list have had this tick, the others not. */
    ghost predicate TickedUpTo(was: seq<Node>, k: nat)
      requires k <= |order| && slots.Length == |was| && forall i :: 0 <= i < |order| ==> order[i] < |was|
      reads this, slots
    {
      SameLinks(was, slots[..]) &&
      forall i :: 0 <= i < |order| ==>
        slots[order[i]].blink == if i < k then Tick(was[order[i]].blink) else was[order[i]].blink
    }

    /** mp1_rtc_tasklet. */
    method RtcTasklet()
      requires Valid()
      modifies slots, cells
      ensures Valid() && View() == Step(old(View()), Tasklet)
    {
      ghost var was, list := slots[..], View().list;
      var p := head;
      ghost var k := 0;
      while p != NIL
        invariant Shaped() && k <= |order| && p == LinkAt(order, k) && TickedUpTo(was, k)
        invariant cells[..] == TickScreen(old(cells[..]), list[..k])
        decreases |order| - k
      {
        TickNode(p, was, k, list, old(cells[..]));
        assert LinkHolds(was, order, k);
        p, k := slots[p].next, k + 1;
      }
      SameLinksSound(was, slots[..], head, order);
      assert list[..k] == list;
      assert Records(slots[..], order) == TickAll(list);
    }

    /** One turn of the tasklet's loop. */
    method TickNode(p: int, ghost was: seq<Node>, ghost k: nat, ghost list: seq<Blink>, ghost screen: seq<Byte>)
      requires Shaped() && Sound(was, head, order) && k < |order| && p == order[k] && TickedUpTo(was, k)
      requires list == Records(was, order) && |screen| == SLOTS
      requires forall i :: 0 <= i < |list| ==> list[i].location < SLOTS
      requires cells[..] == TickScreen(screen, list[..k])
      modifies slots, cells
      ensures Shaped() && TickedUpTo(was, k + 1)
      ensures cells[..] == TickScreen(screen, list[..k + 1])
    {
      assert list[..k + 1][..k] == list[..k];
      var b := slots[p].blink;
      assert b == list[k];
      if Fires(b) {
        cells[b.location] := Toggled(b);
      }
      slots[p] := slots[p].(blink := Tick(b));
    }

    // ---- Runs ----

    method Perform(op: Op) returns (r: int)
      requires Valid() && Placed(op)
      modifies this, slots, cells
      ensures Valid() && View() == Step(old(View()), op) && r == Result(old(View()), op)
    {
      match op
      case Add(b) =>
        SoundListFits(slots[..], head, order);
        ghost var p;
        r, p := IoctlAdd(b);
        if r == 0 {
          InsertIsSoundIff(old(slots[..]), old(head), old(order), p, b);
        }
      case Remove(location) => r := IoctlRemove(location);
      case Sync(from, to) => r := IoctlSync(from, to);
      case Tasklet =>
        RtcTasklet();
        r := 0;
    }

    /** Any run of operations acts on the sequence of records as specified. */
    method PerformAll(ops: seq<Op>)
      requires Valid() && forall k :: 0 <= k < |ops| ==> Placed(ops[k])
      modifies this, slots, cells
      ensures Valid() && View() == Run(old(View()), ops)
      decreases |ops|
    {
      if ops != [] {
        var r := Perform(ops[0]);
        PerformAll(ops[1..]);
      }
    }
  }
}
