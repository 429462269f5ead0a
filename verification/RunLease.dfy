/** Run ownership: the coordinator's lease and the single-then-multi sequence
    (benchmark_run_coordinator.dart, benchmark_controller.dart), as values. */
module RunLease {
  import opened Common

  datatype State = Idle | Preparing | WarmingUp | Measuring | Completed | Cancelled | Error

  datatype Test = Single | Multi

  predicate IsRunning(s: State) {
    s == Preparing || s == WarmingUp || s == Measuring
  }

  predicate IsTerminal(s: State) {
    s == Completed || s == Cancelled || s == Error
  }

  /** The native engine behind one controller; runs are numbered from one. */
  datatype Native = Native(run: nat, state: State, test: Test, stopping: bool, nextRun: nat, destroyed: bool)

  /** What the controller last knew of its run. */
  datatype Known = Known(run: nat, state: State, test: Test)

  /** One controller with its engine. Leases are told apart by the order of their issue. */
  datatype Owner = Owner(
    lease: Option<nat>, unavailable: bool, known: Known,
    sequence: bool, polling: bool, disposed: bool, native: Native)

  /** The active lease and the controller its stop callback belongs to. */
  datatype Ticket = Ticket(serial: nat, owner: nat)

  datatype Board = Board(active: Option<Ticket>, foreground: bool, issued: nat)

  datatype Both = Both(board: Board, owner: Owner)

  // ---------------------------------------------------------------- coordinator

  function Acquire(b: Board, owner: nat): Board
    requires b.active.None? && b.foreground
  {
    b.(active := Some(Ticket(b.issued, owner)), issued := b.issued + 1)
  }

  function Release(b: Board, serial: nat): Board {
    if b.active.Some? && b.active.value.serial == serial then b.(active := None) else b
  }

  // ---------------------------------------------------------------- native engine

  /** A start request; accepted stands for everything beyond the checks below that can refuse it. */
  function NativeStart(n: Native, test: Test, accepted: bool): Option<Native> {
    if n.destroyed || IsRunning(n.state) || !accepted then None
    else Some(n.(run := n.nextRun, state := Preparing, test := test, stopping := false, nextRun := n.nextRun + 1))
  }

  function NativeStop(n: Native, run: nat): Native {
    if !n.destroyed && run != 0 && run == n.run && IsRunning(n.state) then n.(stopping := true) else n
  }

  /** Destruction requests a stop and joins the workers. */
  function Destroy(n: Native): Native {
    n.(destroyed := true, state := if IsRunning(n.state) then Cancelled else n.state)
  }

  /** The run moves on, to any phase or any end; without a run nothing moves. */
  function Advance(n: Native, state: State): Native {
    if IsRunning(n.state) && state != Idle then n.(state := state) else n
  }

  // ---------------------------------------------------------------- controller

  function Finish(v: Both): Both {
    Both(if v.owner.lease.Some? then Release(v.board, v.owner.lease.value) else v.board, v.owner.(lease := None))
  }

  function Abort(v: Both): Both {
    Finish(Both(v.board, v.owner.(sequence := false, polling := false, unavailable := true,
                                  native := Destroy(v.owner.native))))
  }

  function StartTest(v: Both, test: Test, accepted: bool): Both {
    match NativeStart(v.owner.native, test, accepted)
    case Some(native) =>
      Both(v.board, v.owner.(native := native, known := Known(native.run, Preparing, test), polling := true))
    case None => Abort(v)
  }

  predicate CanStart(v: Both) {
    !v.owner.unavailable && v.board.foreground && v.board.active.None?
  }

  /** startCpuBench; topology says whether the refreshed topology could be read and is not empty. */
  function Start(v: Both, id: nat, topology: bool, accepted: bool): Both {
    if !CanStart(v) then v
    else
      var held := Both(Acquire(v.board, id), v.owner.(lease := Some(v.board.issued)));
      if v.owner.native.destroyed || !topology then Finish(held)
      else StartTest(Both(held.board, held.owner.(sequence := true)), Single, accepted)
  }

  function Stop(o: Owner): Owner {
    o.(sequence := false,
       native := if IsRunning(o.known.state) && o.known.run != 0 then NativeStop(o.native, o.known.run) else o.native)
  }

  function Poll(v: Both, readable: bool, accepted: bool): Both {
    if v.owner.disposed || !v.owner.polling then v
    else if v.owner.native.destroyed || !readable then Abort(v)
    else
      var n := v.owner.native;
      var seen := Both(v.board, v.owner.(known := Known(n.run, n.state, n.test)));
      if n.state == Completed && n.test == Single && v.owner.sequence then StartTest(seen, Multi, accepted)
      else if IsTerminal(n.state) then Finish(Both(seen.board, seen.owner.(sequence := false, polling := false)))
      else seen
  }

  function Dispose(v: Both): Both {
    Finish(Both(v.board, v.owner.(disposed := true, sequence := false, polling := false,
                                  native := Destroy(v.owner.native))))
  }

  // ---------------------------------------------------------------- the whole application

  datatype World = World(board: Board, owners: seq<Owner>)

  datatype Event =
    | StartEvent(id: nat, topology: bool, accepted: bool)
    | StopEvent(id: nat)
    | PollEvent(id: nat, readable: bool, accepted: bool)
    | DisposeEvent(id: nat)
    | NativeEvent(id: nat, state: State)
    | ForegroundEvent(foreground: bool)

  predicate Legal(w: World, e: Event) {
    e.ForegroundEvent? || e.id < |w.owners|
  }

  function With(w: World, id: nat, v: Both): World
    requires id < |w.owners|
  {
    World(v.board, w.owners[id := v.owner])
  }

  /** Going to the background asks the active lease's controller to stop, and keeps the lease. */
  function SetForeground(w: World, foreground: bool): World {
    if w.board.foreground == foreground then w
    else
      World(w.board.(foreground := foreground),
            if !foreground && w.board.active.Some? && w.board.active.value.owner < |w.owners| then
              var id := w.board.active.value.owner;
              w.owners[id := Stop(w.owners[id])]
            else w.owners)
  }

  function Apply(w: World, e: Event): World
    requires Legal(w, e)
  {
    match e
    case StartEvent(id, topology, accepted) => With(w, id, Start(Both(w.board, w.owners[id]), id, topology, accepted))
    case StopEvent(id) => With(w, id, Both(w.board, Stop(w.owners[id])))
    case PollEvent(id, readable, accepted) => With(w, id, Poll(Both(w.board, w.owners[id]), readable, accepted))
    case DisposeEvent(id) => With(w, id, Dispose(Both(w.board, w.owners[id])))
    case NativeEvent(id, state) =>
      With(w, id, Both(w.board, w.owners[id].(native := Advance(w.owners[id].native, state))))
    case ForegroundEvent(foreground) => SetForeground(w, foreground)
  }

  predicate AllLegal(w: World, events: seq<Event>) {
    forall i | 0 <= i < |events| :: Legal(w, events[i])
  }

  function Play(w: World, events: seq<Event>): (r: World)
    requires AllLegal(w, events)
    ensures |r.owners| == |w.owners|
    decreases |events|
  {
    if events == [] then w
    else
      assert forall i | 0 <= i < |events[1..]| :: events[1..][i] == events[i + 1];
      Play(Apply(w, events[0]), events[1..])
  }

  function FreshOwner(): Owner {
    Owner(None, false, Known(0, Idle, Single), false, false, false, Native(0, Idle, Single, false, 1, false))
  }

  function Initial(n: nat): World {
    World(Board(None, true, 0), seq(n, _ => FreshOwner()))
  }

  // ---------------------------------------------------------------- invariant

  /** A lease is held exactly while the run is polled; it comes with a run that controller and engine agree on. */
  predicate OwnerOk(o: Owner) {
    && (o.lease.Some? <==> o.polling)
    && (o.lease.Some? ==> LeasedOk(o))
    && (o.sequence ==> o.lease.Some?)
    && (IsRunning(o.native.state) ==> o.lease.Some?)
    && (o.disposed || o.unavailable ==> o.native.destroyed)
    && o.native.nextRun > 0
  }

  predicate LeasedOk(o: Owner) {
    && !o.native.destroyed && o.native.state != Idle
    && IsRunning(o.known.state) && o.known.run == o.native.run > 0 && o.known.test == o.native.test
  }

  /** The board's side of one controller: its lease, if any, is the active one. */
  predicate Backed(b: Board, id: nat, o: Owner) {
    && (o.lease.Some? ==> b.active == Some(Ticket(o.lease.value, id)))
    && (b.active.Some? && b.active.value.owner == id ==> o.lease == Some(b.active.value.serial))
  }

  predicate BoardOk(b: Board, n: nat) {
    b.active.Some? ==> b.active.value.owner < n && b.active.value.serial < b.issued
  }

  ghost predicate Inv(w: World) {
    && BoardOk(w.board, |w.owners|)
    && (forall i | 0 <= i < |w.owners| :: OwnerOk(w.owners[i]) && Backed(w.board, i, w.owners[i]))
  }

  /** What a step of controller id may do to the board: nothing, take the free lease, or give up its own. */
  predicate BoardMoves(b: Board, c: Board, id: nat) {
    || c == b
    || (b.active.None? && c.active == Some(Ticket(b.issued, id)) && c.issued == b.issued + 1)
    || (c.active.None? && (b.active.Some? ==> b.active.value.owner == id) && c.issued >= b.issued)
  }

  lemma StepKeepsOthers(b: Board, c: Board, id: nat, other: nat, o: Owner)
    requires BoardMoves(b, c, id) && Backed(b, other, o) && other != id
    ensures Backed(c, other, o)
  {
  }

  lemma StepKeeps(w: World, id: nat, v: Both)
    requires Inv(w) && id < |w.owners|
    requires OwnerOk(v.owner) && Backed(v.board, id, v.owner) && BoardMoves(w.board, v.board, id)
    requires BoardOk(v.board, |w.owners|)
    ensures Inv(With(w, id, v))
  {
    hide OwnerOk, Backed, BoardMoves, BoardOk;
    forall i | 0 <= i < |w.owners| && i != id ensures Backed(v.board, i, w.owners[i]) {
      StepKeepsOthers(w.board, v.board, id, i, w.owners[i]);
    }
  }

  predicate StepOk(v: Both, id: nat, r: Both, n: nat) {
    && OwnerOk(r.owner) && Backed(r.board, id, r.owner) && BoardMoves(v.board, r.board, id) && BoardOk(r.board, n)
  }

  predicate Before(v: Both, id: nat, n: nat) {
    id < n && OwnerOk(v.owner) && Backed(v.board, id, v.owner) && BoardOk(v.board, n)
  }

  lemma StartOk(v: Both, id: nat, n: nat, topology: bool, accepted: bool)
    requires Before(v, id, n)
    ensures StepOk(v, id, Start(v, id, topology, accepted), n)
  {
  }

  lemma PollOk(v: Both, id: nat, n: nat, readable: bool, accepted: bool)
    requires Before(v, id, n)
    ensures StepOk(v, id, Poll(v, readable, accepted), n)
  {
  }

  lemma DisposeOk(v: Both, id: nat, n: nat)
    requires Before(v, id, n)
    ensures StepOk(v, id, Dispose(v), n)
  {
  }

  lemma StopOk(o: Owner)
    requires OwnerOk(o)
    ensures OwnerOk(Stop(o)) && Stop(o).lease == o.lease
  {
  }

  lemma ApplyKeeps(w: World, e: Event)
    requires Inv(w) && Legal(w, e)
    ensures Inv(Apply(w, e))
  {
    hide Start, Poll, Dispose, Stop;
    match e
    case StartEvent(id, topology, accepted) =>
      StartOk(Both(w.board, w.owners[id]), id, |w.owners|, topology, accepted);
      StepKeeps(w, id, Start(Both(w.board, w.owners[id]), id, topology, accepted));
    case PollEvent(id, readable, accepted) =>
      PollOk(Both(w.board, w.owners[id]), id, |w.owners|, readable, accepted);
      StepKeeps(w, id, Poll(Both(w.board, w.owners[id]), readable, accepted));
    case DisposeEvent(id) =>
      DisposeOk(Both(w.board, w.owners[id]), id, |w.owners|);
      StepKeeps(w, id, Dispose(Both(w.board, w.owners[id])));
    case StopEvent(id) =>
      StopOk(w.owners[id]);
    case NativeEvent(id, state) =>
    case ForegroundEvent(foreground) =>
      if w.board.active.Some? {
        StopOk(w.owners[w.board.active.value.owner]);
      }
  }

  lemma {:induction false} PlayKeeps(w: World, events: seq<Event>)
    requires Inv(w) && AllLegal(w, events)
    ensures Inv(Play(w, events))
    decreases |events|
  {
    hide Inv, Apply;
    if events != [] {
      ApplyKeeps(w, events[0]);
      assert |Apply(w, events[0]).owners| == |w.owners| by { SameOwners(w, events[0]); }
      assert forall i | 0 <= i < |events[1..]| :: events[1..][i] == events[i + 1];
      PlayKeeps(Apply(w, events[0]), events[1..]);
    }
  }

  lemma SameOwners(w: World, e: Event)
    requires Legal(w, e)
    ensures |Apply(w, e).owners| == |w.owners|
  {
  }

  /** A world some run of events leads to. */
  ghost predicate Reachable(w: World) {
    exists events | AllLegal(Initial(|w.owners|), events) :: Play(Initial(|w.owners|), events) == w
  }

  lemma ReachableInv(w: World)
    requires Reachable(w)
    ensures Inv(w)
  {
    hide Play;
    var n := |w.owners|;
    var events :| AllLegal(Initial(n), events) && Play(Initial(n), events) == w;
    PlayKeeps(Initial(n), events);
  }

  // ---------------------------------------------------------------- theorems

  /** At most one controller holds a lease, and it is the active one; no one else's engine has a live run. */
  lemma OneRunAtATime(w: World, i: nat, j: nat)
    requires Reachable(w) && i < |w.owners| && j < |w.owners|
    ensures w.owners[i].lease.Some? ==> w.board.active == Some(Ticket(w.owners[i].lease.value, i))
    ensures w.owners[i].lease.Some? && w.owners[j].lease.Some? ==> i == j
    ensures IsRunning(w.owners[i].native.state) && IsRunning(w.owners[j].native.state) ==> i == j
    ensures w.board.active.None? ==> !IsRunning(w.owners[i].native.state)
  {
    ReachableInv(w);
  }

  /** A lease is only ever given up by its holder's own event, with no run of the holder left alive. */
  lemma GivenUpOnlyWhenQuiet(w: World, e: Event, i: nat)
    requires Reachable(w) && Legal(w, e) && i < |w.owners|
    requires w.owners[i].lease.Some? && Apply(w, e).owners[i].lease != w.owners[i].lease
    ensures !e.ForegroundEvent? && e.id == i && Apply(w, e).owners[i].lease.None? && Apply(w, e).board.active.None?
    ensures !IsRunning(Apply(w, e).owners[i].native.state)
  {
    ReachableInv(w);
    ApplyKeeps(w, e);
    assert OwnerOk(w.owners[i]) && Backed(w.board, i, w.owners[i]);
    assert OwnerOk(Apply(w, e).owners[i]) by { SameOwners(w, e); }
  }

  predicate NoStart(events: seq<Event>, i: nat) {
    forall k | 0 <= k < |events| :: !(events[k].StartEvent? && events[k].id == i)
  }

  /** Runs a controller may still start by itself: the multi-core half of a sequence on its first half. */
  function Owed(o: Owner): nat {
    if o.sequence && o.native.test == Single then 1 else 0
  }

  lemma NothingNewAt(w: World, e: Event, i: nat)
    requires Legal(w, e) && i < |w.owners| && !(e.StartEvent? && e.id == i)
    ensures |Apply(w, e).owners| == |w.owners|
    ensures Apply(w, e).owners[i].native.nextRun + Owed(Apply(w, e).owners[i]) <=
            w.owners[i].native.nextRun + Owed(w.owners[i])
    ensures w.owners[i].native.nextRun <= Apply(w, e).owners[i].native.nextRun
  {
  }

  lemma {:induction false} RunsOwed(w: World, events: seq<Event>, i: nat)
    requires AllLegal(w, events) && i < |w.owners| && NoStart(events, i)
    ensures w.owners[i].native.nextRun <= Play(w, events).owners[i].native.nextRun
    ensures Play(w, events).owners[i].native.nextRun <= w.owners[i].native.nextRun + Owed(w.owners[i])
    decreases |events|
  {
    hide Apply, Owed;
    if events != [] {
      NothingNewAt(w, events[0], i);
      assert forall k | 0 <= k < |events[1..]| :: events[1..][k] == events[k + 1];
      RunsOwed(Apply(w, events[0]), events[1..], i);
    }
  }

  /** After a stop of controller i, or the background while i is active, no further run of i starts
      until somebody starts it again, whatever else happens and whoever else runs. */
  lemma NoNextItemAfterStop(w: World, e: Event, events: seq<Event>, i: nat)
    requires Reachable(w) && i < |w.owners| && AllLegal(w, [e] + events) && NoStart(events, i)
    requires e == StopEvent(i) ||
             (e == ForegroundEvent(false) && w.board.foreground && w.owners[i].lease.Some?)
    ensures Play(w, [e] + events).owners[i].native.nextRun == w.owners[i].native.nextRun
  {
    ReachableInv(w);
    assert ([e] + events)[0] == e;
    assert ([e] + events)[1..] == events;
    var stopped := Apply(w, e);
    assert Backed(w.board, i, w.owners[i]);
    assert stopped.owners[i] == Stop(w.owners[i]);
    assert forall k | 0 <= k < |events| :: events[k] == ([e] + events)[k + 1];
    RunsOwed(stopped, events, i);
  }

  /** One start makes at most two runs, and while a controller is not started it makes none beyond those. */
  lemma OneStartMakesAtMostTwoRuns(w: World, topology: bool, accepted: bool, events: seq<Event>, i: nat)
    requires Reachable(w) && i < |w.owners| && NoStart(events, i)
    requires AllLegal(w, [StartEvent(i, topology, accepted)] + events)
    ensures Play(w, [StartEvent(i, topology, accepted)] + events).owners[i].native.nextRun <= w.owners[i].native.nextRun + 2
  {
    ReachableInv(w);
    var e := StartEvent(i, topology, accepted);
    assert ([e] + events)[0] == e;
    assert ([e] + events)[1..] == events;
    assert OwnerOk(w.owners[i]) && Backed(w.board, i, w.owners[i]);
    assert forall k | 0 <= k < |events| :: events[k] == ([e] + events)[k + 1];
    RunsOwed(Apply(w, e), events, i);
  }

  /** A start makes a run exactly when the coordinator is free and in the foreground, the engine was never
      given up, the topology can be read and the engine accepts; the run is a new single-core one under a
      lease no one held before. Otherwise nobody's lease and no engine's run changes. */
  lemma StartsExactly(w: World, i: nat, topology: bool, accepted: bool)
    requires Reachable(w) && i < |w.owners|
    ensures var t := Apply(w, StartEvent(i, topology, accepted));
      var n, m := w.owners[i].native, t.owners[i].native;
      if w.board.foreground && w.board.active.None? && !n.destroyed && topology && accepted then
        && m.run == n.nextRun && m.state == Preparing && m.test == Single && !m.stopping
        && t.owners[i].sequence && t.owners[i].lease == Some(w.board.issued)
      else
        && t.board.active == w.board.active && m.run == n.run && m.nextRun == n.nextRun
        && (t.owners[i].unavailable <==>
              w.owners[i].unavailable
              || (w.board.foreground && w.board.active.None? && !n.destroyed && topology && !accepted))
        && (t.owners[i].unavailable ==> m.destroyed)
  {
    ReachableInv(w);
    assert OwnerOk(w.owners[i]) && Backed(w.board, i, w.owners[i]);
  }

  /** The poll that finds the single-core run completed, nobody having stopped the sequence, starts the
      multi-core run under the same lease; stopped, it starts nothing and frees the coordinator. */
  lemma SequenceContinuesExactly(w: World, i: nat)
    requires Reachable(w) && i < |w.owners| && w.owners[i].lease.Some?
    requires w.owners[i].native.state == Completed && w.owners[i].native.test == Single
    ensures var t := Apply(w, PollEvent(i, true, true));
      var n, m := w.owners[i].native, t.owners[i].native;
      if w.owners[i].sequence then
        m.run == n.nextRun && m.state == Preparing && m.test == Multi && t.owners[i].lease == w.owners[i].lease
      else m == n && t.board.active.None? && t.owners[i].lease.None?
  {
    ReachableInv(w);
    assert OwnerOk(w.owners[i]) && Backed(w.board, i, w.owners[i]);
  }

  /** A stop always reaches a live run. */
  lemma StopReachesTheRun(w: World, i: nat)
    requires Reachable(w) && i < |w.owners| && IsRunning(w.owners[i].native.state)
    ensures Apply(w, StopEvent(i)).owners[i].native.stopping
    ensures w.board.foreground ==> Apply(w, ForegroundEvent(false)).owners[i].native.stopping
  {
    ReachableInv(w);
    assert OwnerOk(w.owners[i]) && Backed(w.board, i, w.owners[i]);
  }

  /** A lease does not outlive its run: the next poll that finds the run over, in a sequence that is
      over too, frees the coordinator; and that poll is always pending. */
  lemma PollFreesTheLease(w: World, i: nat, readable: bool, accepted: bool)
    requires Reachable(w) && i < |w.owners| && w.owners[i].lease.Some?
    ensures w.owners[i].polling && !w.owners[i].disposed
    ensures Apply(w, PollEvent(i, readable, accepted)).board.active.None? <==>
      || !readable
      || (IsTerminal(w.owners[i].native.state) &&
          (w.owners[i].native.state == Completed && w.owners[i].native.test == Single && w.owners[i].sequence ==> !accepted))
  {
    ReachableInv(w);
    assert OwnerOk(w.owners[i]) && Backed(w.board, i, w.owners[i]);
  }

  /** What a controller knows after a poll that could read is what its engine then shows, whether the run goes on, is
      over, or was followed by the next; without a pending poll nothing changes. */
  lemma PollShowsTheRun(w: World, i: nat, accepted: bool)
    requires Reachable(w) && i < |w.owners|
    ensures var t := Apply(w, PollEvent(i, true, accepted));
      if w.owners[i].lease.Some? then
        t.owners[i].known == Known(t.owners[i].native.run, t.owners[i].native.state, t.owners[i].native.test)
      else t == w
  {
    ReachableInv(w);
    assert OwnerOk(w.owners[i]) && Backed(w.board, i, w.owners[i]);
    var t := Apply(w, PollEvent(i, true, accepted));
    if w.owners[i].lease.None? {
      assert t.owners == w.owners;
    }
  }

  /** A controller whose engine is gone. */
  predicate Over(o: Owner, runs: nat) {
    o.native.destroyed && o.lease.None? && !IsRunning(o.native.state) && o.native.nextRun == runs && !o.polling
  }

  lemma OverStays(w: World, e: Event, i: nat, runs: nat)
    requires Legal(w, e) && i < |w.owners| && Over(w.owners[i], runs)
    ensures |Apply(w, e).owners| == |w.owners| && Over(Apply(w, e).owners[i], runs)
  {
  }

  lemma {:induction false} OverForGood(w: World, events: seq<Event>, i: nat, runs: nat)
    requires AllLegal(w, events) && i < |w.owners| && Over(w.owners[i], runs)
    ensures Over(Play(w, events).owners[i], runs)
    decreases |events|
  {
    hide Apply, Over;
    if events != [] {
      OverStays(w, events[0], i, runs);
      assert forall k | 0 <= k < |events[1..]| :: events[1..][k] == events[k + 1];
      OverForGood(Apply(w, events[0]), events[1..], i, runs);
    }
  }

  /** A disposed controller, whatever it is asked to do later, holds no lease and starts no run ever again. */
  lemma NothingAfterDisposal(w: World, events: seq<Event>, i: nat)
    requires Reachable(w) && i < |w.owners| && AllLegal(w, [DisposeEvent(i)] + events)
    ensures var o := Play(w, [DisposeEvent(i)] + events).owners[i];
      o.lease.None? && !IsRunning(o.native.state) && o.native.nextRun == w.owners[i].native.nextRun
  {
    ReachableInv(w);
    var e := DisposeEvent(i);
    assert ([e] + events)[0] == e;
    assert ([e] + events)[1..] == events;
    assert OwnerOk(w.owners[i]) && Backed(w.board, i, w.owners[i]);
    assert forall k | 0 <= k < |events| :: events[k] == ([e] + events)[k + 1];
    OverForGood(Apply(w, e), events, i, w.owners[i].native.nextRun);
  }

  // ---------------------------------------------------------------- leases that outlived their run

  /** The coordinator alone, called by anyone with any lease it ever issued, in any order. */
  datatype Call = AcquireCall(owner: nat) | ReleaseCall(serial: nat) | ForegroundCall(foreground: bool)

  function Answer(b: Board, c: Call): Board {
    match c
    case AcquireCall(owner) => if b.foreground && b.active.None? then Acquire(b, owner) else b
    case ReleaseCall(serial) => Release(b, serial)
    case ForegroundCall(foreground) => b.(foreground := foreground)
  }

  function Answers(b: Board, calls: seq<Call>): Board
    decreases |calls|
  {
    if calls == [] then b else Answers(Answer(b, calls[0]), calls[1..])
  }

  /** Only its own release ends a lease. */
  lemma {:induction false} LeaseLastsUntilReleased(b: Board, calls: seq<Call>)
    requires b.active.Some? && ReleaseCall(b.active.value.serial) !in calls
    ensures Answers(b, calls).active == b.active
    decreases |calls|
  {
    if calls != [] {
      assert calls[0] in calls;
      LeaseLastsUntilReleased(Answer(b, calls[0]), calls[1..]);
    }
  }

  /** A lease once given up never becomes active again, so releasing it later changes nothing. */
  lemma {:induction false} ReleasedForGood(b: Board, serial: nat, calls: seq<Call>)
    requires serial < b.issued && (b.active.Some? ==> b.active.value.serial != serial)
    ensures Release(Answers(b, calls), serial) == Answers(b, calls)
    decreases |calls|
  {
    if calls != [] {
      ReleasedForGood(Answer(b, calls[0]), serial, calls[1..]);
    }
  }
}
