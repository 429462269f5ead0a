/** One attempt of the memory benchmark (memory_engine.cpp, RunAttempt) as its threads see it: workers and
    coordinator meet at two counters and a phase word that is 1 for warm-up, 2 for measuring and 3 for an
    attempt that is given up because the CPUs changed. One event is one access to shared state. */
module MemoryPhases {

  datatype Pc =
    | Starting
    | AwaitWarm      // counted in ready, waits for phase 1
    | WarmCheck      // reads the stop flag and the end of the warm-up
    | CountWarm
    | AwaitMeasure   // counted in warm, waits for phase 2
    | PhaseCheck     // reads the phase again
    | MeasureCheck   // reads the stop flag and the end of the measurement
    | Passing        // completes a pass and counts it
    | Gone

  datatype Worker = Worker(pc: Pc, passes: nat)

  datatype Coordinator =
    | Creating
    | AwaitReady
    | WriteWarmEnd
    | ReleaseWarm
    | AwaitWarmed
    | Decide         // a failed creation or a stop leaves the CPUs unchecked
    | Refresh        // reads the CPUs again
    | WriteEnd
    | ReleaseMeasure
    | Measuring
    | Joining
    | Reported(total: nat)
    | ReleaseAgain
    | JoiningAgain
    | Again

  datatype State = State(
    cpus: nat, attempt: nat, phase: nat, stop: bool, failed: bool, warmEnd: bool, measureEnd: bool,
    ready: nat, warm: nat, workers: seq<Worker>, coordinator: Coordinator)

  /** flag: the time is up; or, for the coordinator, that a creation fails or that the CPUs have changed. */
  datatype Event = Stop | Work(i: nat, flag: bool) | Coordinate(flag: bool)

  function Initial(cpus: nat, attempt: nat, stop: bool): State {
    State(cpus, attempt, 0, stop, false, false, false, 0, 0, [], Creating)
  }

  predicate AllGone(workers: seq<Worker>) {
    forall i | 0 <= i < |workers| :: workers[i].pc == Gone
  }

  function Passes(workers: seq<Worker>): nat {
    if workers == [] then 0 else Passes(workers[1..]) + workers[0].passes
  }

  predicate Enabled(s: State, e: Event) {
    match e
    case Stop => true
    case Work(i, _) =>
      i < |s.workers| && s.workers[i].pc != Gone
      && (s.workers[i].pc == AwaitWarm ==> s.phase >= 1) && (s.workers[i].pc == AwaitMeasure ==> s.phase >= 2)
    case Coordinate(flag) =>
      match s.coordinator
      case AwaitReady => s.ready == |s.workers|
      case AwaitWarmed => s.warm == |s.workers|
      case Refresh => flag ==> s.attempt < 2
      case Joining => AllGone(s.workers)
      case JoiningAgain => AllGone(s.workers)
      case Reported(_) => false
      case Again => false
      case _ => true
  }

  function StepWorker(s: State, w: Worker, flag: bool): Worker {
    match w.pc
    case Starting => w.(pc := AwaitWarm)
    case AwaitWarm => w.(pc := WarmCheck)
    case WarmCheck => if s.stop || flag then w.(pc := CountWarm) else w
    case CountWarm => w.(pc := AwaitMeasure)
    case AwaitMeasure => w.(pc := PhaseCheck)
    case PhaseCheck => w.(pc := if s.phase == 2 then MeasureCheck else Gone)
    case MeasureCheck => w.(pc := if s.stop || flag then Gone else Passing)
    case Passing => Worker(MeasureCheck, w.passes + 1)
    case Gone => w
  }

  function MoveWorker(s: State, i: nat, flag: bool): State
    requires i < |s.workers|
  {
    s.(workers := s.workers[i := StepWorker(s, s.workers[i], flag)],
       ready := if s.workers[i].pc == Starting then s.ready + 1 else s.ready,
       warm := if s.workers[i].pc == CountWarm then s.warm + 1 else s.warm)
  }

  function MoveCoordinator(s: State, flag: bool): State {
    match s.coordinator
    case Creating =>
      if flag then s.(stop := true, failed := true, coordinator := AwaitReady)
      else s.(workers := s.workers + [Worker(Starting, 0)],
              coordinator := if |s.workers| + 1 < s.cpus then Creating else AwaitReady)
    case AwaitReady => s.(coordinator := WriteWarmEnd)
    case WriteWarmEnd => s.(warmEnd := true, coordinator := ReleaseWarm)
    case ReleaseWarm => s.(phase := 1, coordinator := AwaitWarmed)
    case AwaitWarmed => s.(coordinator := Decide)
    case Decide => s.(coordinator := if !s.failed && !s.stop then Refresh else WriteEnd)
    case Refresh => s.(coordinator := if flag then ReleaseAgain else WriteEnd)
    case WriteEnd => s.(measureEnd := true, coordinator := ReleaseMeasure)
    case ReleaseMeasure => s.(phase := 2, coordinator := Measuring)
    case Measuring => if s.stop || flag then s.(coordinator := Joining) else s
    case Joining => s.(coordinator := Reported(Passes(s.workers)))
    case ReleaseAgain => s.(phase := 3, coordinator := JoiningAgain)
    case JoiningAgain => s.(coordinator := Again)
    case Reported(_) => s
    case Again => s
  }

  function Apply(s: State, e: Event): State
    requires Enabled(s, e)
  {
    match e
    case Stop => s.(stop := true)
    case Work(i, flag) => MoveWorker(s, i, flag)
    case Coordinate(flag) => MoveCoordinator(s, flag)
  }

  ghost predicate IsRun(s: State, events: seq<Event>)
    decreases |events|
  {
    events != [] ==> Enabled(s, events[0]) && IsRun(Apply(s, events[0]), events[1..])
  }

  function Play(s: State, events: seq<Event>): State
    requires IsRun(s, events)
    decreases |events|
  {
    if events == [] then s else Play(Apply(s, events[0]), events[1..])
  }

  // ---------------------------------------------------------------- invariant

  predicate Counted(pc: Pc, k: nat) {
    if k == 0 then pc != Starting
    else pc != Starting && pc != AwaitWarm && pc != WarmCheck && pc != CountWarm
  }

  function Count(workers: seq<Worker>, k: nat): (c: nat)
    ensures c <= |workers|
  {
    if workers == [] then 0 else Count(workers[1..], k) + if Counted(workers[0].pc, k) then 1 else 0
  }

  lemma {:induction false} CountMoves(workers: seq<Worker>, i: nat, w: Worker, k: nat)
    requires i < |workers|
    ensures Count(workers[i := w], k) ==
      Count(workers, k) - (if Counted(workers[i].pc, k) then 1 else 0) + (if Counted(w.pc, k) then 1 else 0)
    decreases |workers|
  {
    hide Counted;
    if i > 0 {
      CountMoves(workers[1..], i - 1, w, k);
      assert workers[i := w][1..] == workers[1..][i - 1 := w];
    } else {
      assert workers[i := w][1..] == workers[1..];
    }
  }

  lemma {:induction false} CountJoins(workers: seq<Worker>, w: Worker, k: nat)
    ensures Count(workers + [w], k) == Count(workers, k) + if Counted(w.pc, k) then 1 else 0
    decreases |workers|
  {
    hide Counted;
    if workers != [] {
      CountJoins(workers[1..], w, k);
      assert (workers + [w])[1..] == workers[1..] + [w];
    } else {
      assert (workers + [w])[1..] == [];
    }
  }

  lemma {:induction false} CountIsFull(workers: seq<Worker>, k: nat)
    ensures Count(workers, k) == |workers| <==> forall i | 0 <= i < |workers| :: Counted(workers[i].pc, k)
    decreases |workers|
  {
    hide Counted;
    if workers != [] {
      CountIsFull(workers[1..], k);
      assert forall i | 0 < i < |workers| :: workers[i] == workers[1..][i - 1];
    }
  }

  function PhaseOf(c: Coordinator): nat {
    match c
    case Creating => 0 case AwaitReady => 0 case WriteWarmEnd => 0 case ReleaseWarm => 0
    case Measuring => 2 case Joining => 2 case Reported(_) => 2
    case JoiningAgain => 3 case Again => 3
    case _ => 1
  }

  predicate BeforeWarm(c: Coordinator) {
    c == Creating || c == AwaitReady
  }

  predicate BeforeDecision(c: Coordinator) {
    PhaseOf(c) == 0 || c == AwaitWarmed
  }

  predicate GivenUp(c: Coordinator) {
    c == ReleaseAgain || c == JoiningAgain || c == Again
  }

  predicate WorkerOk(s: State, w: Worker) {
    && (Counted(w.pc, 0) && w.pc != AwaitWarm ==> s.phase >= 1)
    && (Counted(w.pc, 1) && w.pc != AwaitMeasure ==> s.phase >= 2)
    && (w.pc == MeasureCheck || w.pc == Passing || w.passes > 0 ==> s.phase == 2)
    && (!BeforeWarm(s.coordinator) ==> Counted(w.pc, 0))
    && (!BeforeDecision(s.coordinator) ==> Counted(w.pc, 1))
  }

  predicate CoordinatorOk(s: State) {
    && s.phase == PhaseOf(s.coordinator)
    && (s.warmEnd <==> !BeforeWarm(s.coordinator) && s.coordinator != WriteWarmEnd)
    && (s.measureEnd <==> s.phase == 2 || s.coordinator == ReleaseMeasure)
    && (if s.coordinator == Creating then |s.workers| < s.cpus else s.failed || |s.workers| == s.cpus)
    && (s.failed ==> s.stop && s.coordinator != Creating && s.coordinator != Refresh && !GivenUp(s.coordinator))
    && (GivenUp(s.coordinator) ==> s.attempt < 2)
    && (s.coordinator.Reported? ==> AllGone(s.workers) && s.coordinator.total == Passes(s.workers))
    && (s.coordinator == Again ==> AllGone(s.workers))
  }

  ghost predicate Inv(s: State) {
    && s.ready == Count(s.workers, 0) && s.warm == Count(s.workers, 1)
    && CoordinatorOk(s) && forall i | 0 <= i < |s.workers| :: WorkerOk(s, s.workers[i])
  }

  lemma WorkerKeeps(s: State, i: nat, flag: bool)
    requires Inv(s) && Enabled(s, Work(i, flag))
    ensures Inv(MoveWorker(s, i, flag))
  {
    hide Count, Passes;
    var moved := StepWorker(s, s.workers[i], flag);
    CountMoves(s.workers, i, moved, 0);
    CountMoves(s.workers, i, moved, 1);
    assert WorkerOk(s, s.workers[i]);
    assert !AllGone(s.workers);
  }

  lemma CoordinatorKeeps(s: State, flag: bool)
    requires Inv(s) && Enabled(s, Coordinate(flag))
    ensures Inv(MoveCoordinator(s, flag))
  {
    hide Count, Passes;
    CountIsFull(s.workers, 0);
    CountIsFull(s.workers, 1);
    CountJoins(s.workers, Worker(Starting, 0), 0);
    CountJoins(s.workers, Worker(Starting, 0), 1);
  }

  lemma ApplyKeeps(s: State, e: Event)
    requires Inv(s) && Enabled(s, e)
    ensures Inv(Apply(s, e))
  {
    hide Count, Passes, MoveWorker, MoveCoordinator;
    match e
    case Stop =>
    case Work(i, flag) => WorkerKeeps(s, i, flag);
    case Coordinate(flag) => CoordinatorKeeps(s, flag);
  }

  lemma {:induction false} PlayKeeps(s: State, events: seq<Event>)
    requires Inv(s) && IsRun(s, events)
    ensures Inv(Play(s, events))
    decreases |events|
  {
    hide Inv, Apply, Enabled;
    if events != [] {
      ApplyKeeps(s, events[0]);
      PlayKeeps(Apply(s, events[0]), events[1..]);
    }
  }

  /** Reached by some interleaving from the start of some attempt. */
  ghost predicate Reachable(s: State) {
    exists stop, events :: s.cpus > 0 && Reaches(Initial(s.cpus, s.attempt, stop), events, s)
  }

  ghost predicate Reaches(from: State, events: seq<Event>, s: State) {
    IsRun(from, events) && Play(from, events) == s
  }

  lemma ReachableInv(s: State)
    requires Reachable(s)
    ensures Inv(s)
  {
    hide Play, IsRun;
    var stop, events :| s.cpus > 0 && Reaches(Initial(s.cpus, s.attempt, stop), events, s);
    PlayKeeps(Initial(s.cpus, s.attempt, stop), events);
  }

  // ---------------------------------------------------------------- theorems

  /** A worker reads the end of the warm-up and of the measurement only after they were written, and while
      nobody writes them. */
  lemma EndsAreWrittenFirst(s: State, i: nat)
    requires Reachable(s) && i < |s.workers|
    ensures s.workers[i].pc == WarmCheck ==> s.warmEnd && s.coordinator != WriteWarmEnd
    ensures s.workers[i].pc == MeasureCheck ==> s.measureEnd && s.coordinator != WriteEnd
  {
    ReachableInv(s);
    assert WorkerOk(s, s.workers[i]);
  }

  /** Once any pass is counted, every worker has warmed up, the decision to measure has been taken, and no
      event changes who takes part. */
  lemma MembershipIsFrozen(s: State, i: nat, e: Event)
    requires Reachable(s) && i < |s.workers| && s.workers[i].passes > 0 && Enabled(s, e)
    ensures s.phase == 2 && forall j | 0 <= j < |s.workers| :: Counted(s.workers[j].pc, 1)
    ensures |s.workers| == s.cpus || s.failed
    ensures |Apply(s, e).workers| == |s.workers| && !GivenUp(Apply(s, e).coordinator)
  {
    ReachableInv(s);
    assert WorkerOk(s, s.workers[i]);
    assert forall j | 0 <= j < |s.workers| :: WorkerOk(s, s.workers[j]);
  }

  lemma {:induction false} NoPasses(workers: seq<Worker>)
    requires forall i | 0 <= i < |workers| :: workers[i].passes == 0
    ensures Passes(workers) == 0
    decreases |workers|
  {
    if workers != [] {
      NoPasses(workers[1..]);
    }
  }

  /** An attempt that is given up, the first or second and never one with a failed creation, has counted
      nothing, in any of its states from the decision on. */
  lemma GivenUpCountsNothing(s: State)
    requires Reachable(s) && GivenUp(s.coordinator)
    ensures s.attempt < 2 && !s.failed && Passes(s.workers) == 0
  {
    ReachableInv(s);
    assert forall i | 0 <= i < |s.workers| :: WorkerOk(s, s.workers[i]);
    NoPasses(s.workers);
  }

  /** What is reported is what all workers counted, none of whom is left to count more. */
  lemma ReportIsFinal(s: State, e: Event)
    requires Reachable(s) && s.coordinator.Reported? && Enabled(s, e)
    ensures s.coordinator.total == Passes(s.workers) && AllGone(s.workers)
    ensures Apply(s, e).workers == s.workers && Apply(s, e).coordinator == s.coordinator
  {
    ReachableInv(s);
  }

  /** A worker that looks, without a stop, before the end of the measurement begins a pass. */
  predicate Begins(s: State, e: Event) {
    e.Work? && e.i < |s.workers| && s.workers[e.i].pc == MeasureCheck && !s.stop && !e.flag
  }

  /** Passes begun along a run. */
  function Begun(s: State, events: seq<Event>): nat
    requires IsRun(s, events)
    decreases |events|
  {
    if events == [] then 0
    else (if Begins(s, events[0]) then 1 else 0) + Begun(Apply(s, events[0]), events[1..])
  }

  function UnderWay(workers: seq<Worker>): nat {
    if workers == [] then 0 else UnderWay(workers[1..]) + if workers[0].pc == Passing then 1 else 0
  }

  lemma {:induction false} PassesMove(workers: seq<Worker>, i: nat, w: Worker)
    requires i < |workers|
    ensures Passes(workers[i := w]) == Passes(workers) - workers[i].passes + w.passes
    ensures UnderWay(workers[i := w]) ==
      UnderWay(workers) - (if workers[i].pc == Passing then 1 else 0) + (if w.pc == Passing then 1 else 0)
    decreases |workers|
  {
    if i > 0 {
      PassesMove(workers[1..], i - 1, w);
      assert workers[i := w][1..] == workers[1..][i - 1 := w];
    } else {
      assert workers[i := w][1..] == workers[1..];
    }
  }

  lemma {:induction false} PassesJoin(workers: seq<Worker>, w: Worker)
    ensures Passes(workers + [w]) == Passes(workers) + w.passes
    ensures UnderWay(workers + [w]) == UnderWay(workers) + if w.pc == Passing then 1 else 0
    decreases |workers|
  {
    if workers != [] {
      PassesJoin(workers[1..], w);
      assert (workers + [w])[1..] == workers[1..] + [w];
    } else {
      assert (workers + [w])[1..] == [];
    }
  }

  lemma StepPasses(s: State, e: Event)
    requires Enabled(s, e)
    ensures Passes(Apply(s, e).workers) + UnderWay(Apply(s, e).workers) ==
      Passes(s.workers) + UnderWay(s.workers) + if Begins(s, e) then 1 else 0
  {
    hide Passes, UnderWay;
    match e
    case Stop =>
    case Work(i, flag) => PassesMove(s.workers, i, StepWorker(s, s.workers[i], flag));
    case Coordinate(flag) => PassesJoin(s.workers, Worker(Starting, 0));
  }

  lemma {:induction false} EachBegunOnce(s: State, events: seq<Event>)
    requires IsRun(s, events)
    ensures var t := Play(s, events);
      Passes(t.workers) + UnderWay(t.workers) == Passes(s.workers) + UnderWay(s.workers) + Begun(s, events)
    decreases |events|
  {
    hide Passes, UnderWay, Apply, Enabled, Begins;
    if events != [] {
      StepPasses(s, events[0]);
      EachBegunOnce(Apply(s, events[0]), events[1..]);
    }
  }

  lemma {:induction false} NoneUnderWay(workers: seq<Worker>)
    requires AllGone(workers)
    ensures UnderWay(workers) == 0
    decreases |workers|
  {
    if workers != [] {
      NoneUnderWay(workers[1..]);
    }
  }

  /** What an attempt reports is the number of passes that were begun in it: each is finished and counted once. */
  lemma ReportCountsPasses(cpus: nat, attempt: nat, stop: bool, events: seq<Event>)
    requires cpus > 0 && IsRun(Initial(cpus, attempt, stop), events)
    ensures var s := Play(Initial(cpus, attempt, stop), events);
      s.coordinator.Reported? ==> s.coordinator.total == Begun(Initial(cpus, attempt, stop), events)
  {
    var from := Initial(cpus, attempt, stop);
    EachBegunOnce(from, events);
    PlayKeeps(from, events);
    hide Play, Begun, IsRun, Passes;
    var s := Play(from, events);
    assert Passes(from.workers) == 0 && UnderWay(from.workers) == 0 by { NoPasses(from.workers); }
    if s.coordinator.Reported? {
      NoneUnderWay(s.workers);
    }
  }

  // ---------------------------------------------------------------- no attempt hangs

  predicate Over(c: Coordinator) {
    c.Reported? || c == Again
  }

  function Left(pc: Pc): nat {
    match pc
    case Starting => 8 case AwaitWarm => 7 case WarmCheck => 6 case CountWarm => 5 case AwaitMeasure => 4
    case PhaseCheck => 3 case Passing => 2 case MeasureCheck => 1 case Gone => 0
  }

  function LeftInAll(workers: seq<Worker>): nat {
    if workers == [] then 0 else LeftInAll(workers[1..]) + Left(workers[0].pc)
  }

  function CoordinatorLeft(s: State): nat {
    match s.coordinator
    case Creating => 20 + (if s.cpus > |s.workers| then s.cpus - |s.workers| else 0) * 9
    case AwaitReady => 12 case WriteWarmEnd => 11 case ReleaseWarm => 10 case AwaitWarmed => 9 case Decide => 8
    case Refresh => 7 case WriteEnd => 6 case ReleaseMeasure => 5 case Measuring => 4 case Joining => 3
    case ReleaseAgain => 3 case JoiningAgain => 2 case Reported(_) => 0 case Again => 0
  }

  function Remaining(s: State): nat {
    LeftInAll(s.workers) + CoordinatorLeft(s)
  }

  lemma {:induction false} LeftShrinks(workers: seq<Worker>, i: nat, w: Worker)
    requires i < |workers| && Left(w.pc) < Left(workers[i].pc)
    ensures LeftInAll(workers[i := w]) < LeftInAll(workers)
    decreases |workers|
  {
    hide Left;
    if i > 0 {
      LeftShrinks(workers[1..], i - 1, w);
      assert workers[i := w][1..] == workers[1..][i - 1 := w];
    } else {
      assert workers[i := w][1..] == workers[1..];
    }
  }

  lemma {:induction false} LeftJoins(workers: seq<Worker>, w: Worker)
    ensures LeftInAll(workers + [w]) == LeftInAll(workers) + Left(w.pc)
    decreases |workers|
  {
    hide Left;
    if workers != [] {
      LeftJoins(workers[1..], w);
      assert (workers + [w])[1..] == workers[1..] + [w];
    } else {
      assert (workers + [w])[1..] == [];
    }
  }

  /** Time running out, and creations that succeed: the moves that always bring the end closer. */
  predicate Forward(s: State, e: Event) {
    match e
    case Stop => false
    case Work(_, flag) => flag
    case Coordinate(flag) => flag <==> s.coordinator == Measuring
  }

  lemma ForwardShrinks(s: State, e: Event)
    requires Inv(s) && Enabled(s, e) && Forward(s, e)
    ensures Remaining(Apply(s, e)) < Remaining(s)
  {
    hide LeftInAll, Count, Passes;
    if e.Work? {
      LeftShrinks(s.workers, e.i, StepWorker(s, s.workers[e.i], true));
    } else {
      LeftJoins(s.workers, Worker(Starting, 0));
    }
  }

  /** The worker is where the coordinator's wait wants it. */
  predicate Passed(s: State, w: Worker) {
    match s.coordinator
    case AwaitReady => Counted(w.pc, 0)
    case AwaitWarmed => Counted(w.pc, 1)
    case Joining => w.pc == Gone
    case JoiningAgain => w.pc == Gone
    case _ => true
  }

  /** Short of the end some thread can always move forward, stopped or not. */
  lemma NeverStuck(s: State) returns (e: Event)
    requires Inv(s) && !Over(s.coordinator)
    ensures Enabled(s, e) && Forward(s, e)
  {
    hide Count, Passes;
    CountIsFull(s.workers, 0);
    CountIsFull(s.workers, 1);
    if i: nat :| i < |s.workers| && Enabled(s, Work(i, true)) {
      e := Work(i, true);
    } else {
      e := Coordinate(s.coordinator == Measuring);
      forall i | 0 <= i < |s.workers| ensures Passed(s, s.workers[i]) {
        assert !Enabled(s, Work(i, true)) && WorkerOk(s, s.workers[i]);
      }
      assert forall i | 0 <= i < |s.workers| :: Passed(s, s.workers[i]);
    }
  }

  /** Every attempt can be run to its end from every state, whenever a stop came or a creation failed. */
  lemma {:induction false} RunsToItsEnd(s: State) returns (events: seq<Event>)
    requires Inv(s)
    ensures IsRun(s, events) && Over(Play(s, events).coordinator)
    decreases Remaining(s)
  {
    if Over(s.coordinator) {
      events := [];
    } else {
      var e := NeverStuck(s);
      ForwardShrinks(s, e);
      ApplyKeeps(s, e);
      hide Inv, Apply, Enabled, Forward;
      var rest := RunsToItsEnd(Apply(s, e));
      events := [e] + rest;
      assert events[1..] == rest;
    }
  }
}
