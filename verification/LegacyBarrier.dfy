/** The older CPU engine's barrier (engine.cpp): why a stop can leave its coordinator waiting for ever, and
    exactly when. A worker that sees the stop before measuring returns without counting itself as finished. */
module LegacyBarrier {

  datatype Worker =
    | Starting
    | Ready        // counted in ready, waits for the warm-up to start
    | Warming
    | Waiting      // counted in warmupDone, waits for the measurement to start
    | LeftEarly    // returned because of a stop, without being counted in finished
    | Measuring
    | Finished     // counted in finished

  datatype Coordinator =
    | AwaitReady
    | AwaitWarm
    | Deciding     // about to look at the stop flag
    | Committed    // saw no stop, about to start the measurement
    | AwaitFinished
    | Joining      // saw the stop and joins
    | Done

  datatype State = State(
    stop: bool, warmupStarted: bool, measurementStarted: bool,
    ready: nat, warmupDone: nat, finished: nat,
    workers: seq<Worker>, coordinator: Coordinator)

  datatype Event = Stop | WorkerMoves(i: nat) | CoordinatorMoves

  function Initial(n: nat): State {
    State(false, false, false, 0, 0, 0, seq(n, _ => Starting), AwaitReady)
  }

  predicate Gone(w: Worker) {
    w == LeftEarly || w == Finished
  }

  predicate AllGone(workers: seq<Worker>) {
    forall i | 0 <= i < |workers| :: Gone(workers[i])
  }

  /** The event can happen: waits are passed only when their condition holds. */
  predicate Enabled(s: State, e: Event) {
    match e
    case Stop => true
    case WorkerMoves(i) =>
      i < |s.workers| &&
      (match s.workers[i]
       case Starting => true
       case Ready => s.warmupStarted || s.stop
       case Warming => true
       case Waiting => s.measurementStarted || s.stop
       case Measuring => true
       case LeftEarly => false
       case Finished => false)
    case CoordinatorMoves =>
      match s.coordinator
      case AwaitReady => s.ready == |s.workers|
      case AwaitWarm => s.warmupDone == |s.workers|
      case Deciding => true
      case Committed => true
      case AwaitFinished => s.finished == |s.workers|
      case Joining => AllGone(s.workers)
      case Done => false
  }

  function MoveWorker(s: State, i: nat): State
    requires i < |s.workers|
  {
    match s.workers[i]
    case Starting => s.(ready := s.ready + 1, workers := s.workers[i := Ready])
    case Ready => s.(workers := s.workers[i := Warming])
    case Warming => s.(warmupDone := s.warmupDone + 1, workers := s.workers[i := Waiting])
    case Waiting => s.(workers := s.workers[i := if s.stop then LeftEarly else Measuring])
    case Measuring => s.(finished := s.finished + 1, workers := s.workers[i := Finished])
    case LeftEarly => s
    case Finished => s
  }

  function Apply(s: State, e: Event): State
    requires Enabled(s, e)
  {
    match e
    case Stop => s.(stop := true)
    case WorkerMoves(i) => MoveWorker(s, i)
    case CoordinatorMoves =>
      match s.coordinator
      case AwaitReady => s.(warmupStarted := true, coordinator := AwaitWarm)
      case AwaitWarm => s.(coordinator := Deciding)
      case Deciding => if s.stop then s.(measurementStarted := true, coordinator := Joining) else s.(coordinator := Committed)
      case Committed => s.(measurementStarted := true, coordinator := AwaitFinished)
      case AwaitFinished => s.(coordinator := Done)
      case Joining => s.(coordinator := Done)
      case Done => s
  }

  ghost predicate IsRun(s: State, events: seq<Event>)
    decreases |events|
  {
    events != [] ==> Enabled(s, events[0]) && IsRun(Apply(s, events[0]), events[1..])
  }

  function Play(s: State, events: seq<Event>): State
    requires IsRun(s, events)
    decreases |events|
  {
    if events == [] then s else Play(Apply(s, events[0]), events[1..])
  }

  // ---------------------------------------------------------------- invariant

  /** Counted at counter k: ready, warmupDone or finished. */
  predicate Counted(w: Worker, k: nat) {
    match k
    case 0 => w != Starting
    case 1 => w != Starting && w != Ready && w != Warming
    case _ => w == Finished
  }

  function Count(workers: seq<Worker>, k: nat): (c: nat)
    ensures c <= |workers|
  {
    if workers == [] then 0
    else Count(workers[1..], k) + if Counted(workers[0], k) then 1 else 0
  }

  lemma {:induction false} CountMoves(workers: seq<Worker>, i: nat, w: Worker, k: nat)
    requires i < |workers|
    ensures Count(workers[i := w], k) ==
      Count(workers, k) - (if Counted(workers[i], k) then 1 else 0) + (if Counted(w, k) then 1 else 0)
    decreases |workers|
  {
    hide Counted;
    if i > 0 {
      CountMoves(workers[1..], i - 1, w, k);
      assert workers[i := w][1..] == workers[1..][i - 1 := w];
    } else {
      assert workers[i := w][1..] == workers[1..];
    }
  }

  lemma {:induction false} CountIsFull(workers: seq<Worker>, k: nat)
    ensures Count(workers, k) == |workers| <==> forall i | 0 <= i < |workers| :: Counted(workers[i], k)
    decreases |workers|
  {
    hide Counted;
    if workers != [] {
      CountIsFull(workers[1..], k);
      assert forall i | 0 < i < |workers| :: workers[i] == workers[1..][i - 1];
    }
  }

  predicate PastDecision(c: Coordinator) {
    c == Committed || c == AwaitFinished
  }

  /** What the flags say about where a worker can be. */
  predicate WorkerOk(s: State, w: Worker) {
    && (w == LeftEarly ==> s.stop)
    && (w == Measuring || w == Finished ==> s.measurementStarted)
    && (s.coordinator != AwaitReady ==> Counted(w, 0))
    && (s.coordinator != AwaitReady && s.coordinator != AwaitWarm ==> Counted(w, 1))
  }

  ghost predicate Inv(s: State) {
    && s.ready == Count(s.workers, 0) && s.warmupDone == Count(s.workers, 1) && s.finished == Count(s.workers, 2)
    && (forall i | 0 <= i < |s.workers| :: WorkerOk(s, s.workers[i]))
    && (s.warmupStarted <==> s.coordinator != AwaitReady)
    && (s.coordinator == AwaitFinished || s.coordinator == Joining ==> s.measurementStarted)
    && (s.coordinator == Joining ==> s.stop)
  }

  lemma {:induction false} InitialInv(n: nat)
    ensures Inv(Initial(n))
  {
    forall k: nat | k < 3 ensures Count(Initial(n).workers, k) == 0 {
      NoneCounted(n, k);
    }
  }

  lemma {:induction false} NoneCounted(n: nat, k: nat)
    requires k < 3
    ensures Count(seq(n, _ => Starting), k) == 0
    decreases n
  {
    if n > 0 {
      NoneCounted(n - 1, k);
      assert seq(n, _ => Starting)[1..] == seq(n - 1, _ => Starting);
    }
  }

  lemma WorkerKeeps(s: State, i: nat)
    requires Inv(s) && Enabled(s, WorkerMoves(i))
    ensures Inv(MoveWorker(s, i))
  {
    hide Count;
    var moved := MoveWorker(s, i).workers[i];
    assert WorkerOk(s, s.workers[i]);
    CountMoves(s.workers, i, moved, 0);
    CountMoves(s.workers, i, moved, 1);
    CountMoves(s.workers, i, moved, 2);
  }

  lemma CoordinatorKeeps(s: State)
    requires Inv(s) && Enabled(s, CoordinatorMoves)
    ensures Inv(Apply(s, CoordinatorMoves))
  {
    hide Count;
    CountIsFull(s.workers, 0);
    CountIsFull(s.workers, 1);
  }

  lemma ApplyKeeps(s: State, e: Event)
    requires Inv(s) && Enabled(s, e)
    ensures Inv(Apply(s, e))
  {
    hide Count, MoveWorker;
    match e
    case Stop =>
    case WorkerMoves(i) => WorkerKeeps(s, i);
    case CoordinatorMoves => CoordinatorKeeps(s);
  }

  ghost predicate Reachable(s: State) {
    exists events :: IsRun(Initial(|s.workers|), events) && Play(Initial(|s.workers|), events) == s
  }

  lemma {:induction false} PlayKeeps(s: State, events: seq<Event>)
    requires Inv(s) && IsRun(s, events)
    ensures Inv(Play(s, events))
    decreases |events|
  {
    hide Inv, Apply, Enabled;
    if events != [] {
      ApplyKeeps(s, events[0]);
      PlayKeeps(Apply(s, events[0]), events[1..]);
    }
  }

  lemma ReachableInv(s: State)
    requires Reachable(s)
    ensures Inv(s)
  {
    hide Play, IsRun;
    var events :| IsRun(Initial(|s.workers|), events) && Play(Initial(|s.workers|), events) == s;
    InitialInv(|s.workers|);
    PlayKeeps(Initial(|s.workers|), events);
  }

  // ---------------------------------------------------------------- the hang

  /** Lost to the count: a worker that left early, or has no choice left but to. */
  predicate Lost(s: State, w: Worker) {
    w == LeftEarly || (s.stop && w == Waiting)
  }

  predicate AnyLost(s: State) {
    exists i | 0 <= i < |s.workers| :: Lost(s, s.workers[i])
  }

  /** The coordinator waits for a worker that will never be counted. */
  predicate Hanging(s: State) {
    PastDecision(s.coordinator) && AnyLost(s)
  }

  lemma HangingLasts(s: State, e: Event)
    requires Inv(s) && Hanging(s) && Enabled(s, e)
    ensures Hanging(Apply(s, e))
  {
    var i :| 0 <= i < |s.workers| && Lost(s, s.workers[i]);
    CountIsFull(s.workers, 2);
    assert !Counted(s.workers[i], 2);
    hide Count;
    assert Lost(Apply(s, e), Apply(s, e).workers[i]);
  }

  /** Once hanging, the coordinator never gets past its wait, whatever happens. */
  lemma {:induction false} HangsForEver(s: State, events: seq<Event>)
    requires Inv(s) && Hanging(s) && IsRun(s, events)
    ensures Play(s, events).coordinator != Done
    decreases |events|
  {
    hide Inv, AnyLost, Apply, Enabled;
    if events != [] {
      ApplyKeeps(s, events[0]);
      HangingLasts(s, events[0]);
      HangsForEver(Apply(s, events[0]), events[1..]);
    }
  }

  /** The only way into the hang: a stop after the coordinator's check while a worker has not yet seen the
      measurement start. */
  lemma HangStartsExactly(s: State, e: Event)
    requires Inv(s) && !Hanging(s) && Enabled(s, e)
    ensures Hanging(Apply(s, e)) <==>
      e == Stop && PastDecision(s.coordinator) && exists i | 0 <= i < |s.workers| :: s.workers[i] == Waiting
  {
    hide Count;
    var t := Apply(s, e);
    if Hanging(t) {
      var i :| 0 <= i < |t.workers| && Lost(t, t.workers[i]);
      assert i < |s.workers| && WorkerOk(s, s.workers[i]);
      assert PastDecision(s.coordinator) ==> !Lost(s, s.workers[i]);
    }
    if e == Stop && PastDecision(s.coordinator) && exists i | 0 <= i < |s.workers| :: s.workers[i] == Waiting {
      var i :| 0 <= i < |s.workers| && s.workers[i] == Waiting;
      assert Lost(t, t.workers[i]);
    }
  }

  // ---------------------------------------------------------------- otherwise the run can end

  /** Moves a worker still has before it. */
  function Left(w: Worker): nat {
    match w
    case Starting => 6 case Ready => 5 case Warming => 4 case Waiting => 3 case Measuring => 2
    case LeftEarly => 0 case Finished => 0
  }

  function LeftInAll(workers: seq<Worker>): nat {
    if workers == [] then 0 else LeftInAll(workers[1..]) + Left(workers[0])
  }

  function CoordinatorLeft(c: Coordinator): nat {
    match c
    case AwaitReady => 5 case AwaitWarm => 4 case Deciding => 3 case Committed => 2
    case AwaitFinished => 1 case Joining => 1 case Done => 0
  }

  lemma {:induction false} LeftShrinks(workers: seq<Worker>, i: nat, w: Worker)
    requires i < |workers| && Left(w) < Left(workers[i])
    ensures LeftInAll(workers[i := w]) < LeftInAll(workers)
    decreases |workers|
  {
    hide Left;
    if i > 0 {
      LeftShrinks(workers[1..], i - 1, w);
      assert workers[i := w][1..] == workers[1..][i - 1 := w];
    } else {
      assert workers[i := w][1..] == workers[1..];
    }
  }

  function Remaining(s: State): nat {
    LeftInAll(s.workers) + CoordinatorLeft(s.coordinator)
  }

  /** Every move of a worker or the coordinator brings the end closer. */
  lemma MovesShrink(s: State, e: Event)
    requires Enabled(s, e) && e != Stop
    ensures Remaining(Apply(s, e)) < Remaining(s)
  {
    hide LeftInAll;
    if e.WorkerMoves? {
      LeftShrinks(s.workers, e.i, Apply(s, e).workers[e.i]);
    }
  }

  /** Unless it hangs or is over, somebody can move. */
  lemma SomebodyMoves(s: State) returns (e: Event)
    requires Inv(s) && !Hanging(s) && s.coordinator != Done
    ensures Enabled(s, e) && e != Stop
  {
    hide Count;
    CountIsFull(s.workers, 0);
    CountIsFull(s.workers, 1);
    CountIsFull(s.workers, 2);
    if i: nat :| i < |s.workers| && Enabled(s, WorkerMoves(i)) {
      e := WorkerMoves(i);
    } else {
      e := CoordinatorMoves;
      forall i | 0 <= i < |s.workers| ensures Passed(s, s.workers[i]) {
        assert !Enabled(s, WorkerMoves(i)) && WorkerOk(s, s.workers[i]);
        assert PastDecision(s.coordinator) ==> !Lost(s, s.workers[i]);
      }
      assert forall i | 0 <= i < |s.workers| :: Passed(s, s.workers[i]);
    }
  }

  /** The worker is where the coordinator's wait wants it. */
  predicate Passed(s: State, w: Worker) {
    match s.coordinator
    case AwaitReady => Counted(w, 0)
    case AwaitWarm => Counted(w, 1)
    case AwaitFinished => Counted(w, 2)
    case Joining => Gone(w)
    case _ => true
  }

  /** From any state that does not hang, running the threads without a further stop ends the run. */
  lemma {:induction false} EndsUnlessHanging(s: State) returns (events: seq<Event>)
    requires Inv(s) && !Hanging(s)
    ensures IsRun(s, events) && Play(s, events).coordinator == Done
    decreases Remaining(s)
  {
    if s.coordinator == Done {
      events := [];
    } else {
      var e := SomebodyMoves(s);
      MovesShrink(s, e);
      ApplyKeeps(s, e);
      HangStartsExactly(s, e);
      hide Inv, Hanging, Apply, Enabled;
      var rest := EndsUnlessHanging(Apply(s, e));
      events := [e] + rest;
      assert events[1..] == rest;
    }
  }

  /** A reachable state can still end if and only if it does not hang. */
  lemma CanEndExactly(s: State)
    requires Reachable(s)
    ensures (exists events :: IsRun(s, events) && Play(s, events).coordinator == Done) <==> !Hanging(s)
  {
    ReachableInv(s);
    hide Inv, Hanging;
    if Hanging(s) {
      forall events | IsRun(s, events) ensures Play(s, events).coordinator != Done {
        HangsForEver(s, events);
      }
    } else {
      var events := EndsUnlessHanging(s);
    }
  }

  /** One run after another is a run. */
  lemma {:induction false} PlayJoins(s: State, a: seq<Event>, b: seq<Event>)
    requires IsRun(s, a) && IsRun(Play(s, a), b)
    ensures IsRun(s, a + b) && Play(s, a + b) == Play(Play(s, a), b)
    decreases |a|
  {
    hide Enabled, Apply;
    if a == [] {
      assert a + b == b;
    } else {
      assert (a + b)[0] == a[0] && (a + b)[1..] == a[1..] + b;
      PlayJoins(Apply(s, a[0]), a[1..], b);
    }
  }

  lemma OneStep(s: State, e: Event)
    requires Enabled(s, e)
    ensures IsRun(s, [e]) && Play(s, [e]) == Apply(s, e)
  {
    assert [e][1..] == [];
  }

  lemma Extend(s: State, events: seq<Event>, e: Event)
    requires IsRun(s, events) && Enabled(Play(s, events), e)
    ensures IsRun(s, events + [e]) && Play(s, events + [e]) == Apply(Play(s, events), e)
  {
    hide Enabled, Apply, IsRun, Play;
    OneStep(Play(s, events), e);
    PlayJoins(s, events, [e]);
  }

  /** The first half: the only worker has warmed up and waits. */
  lemma OneWorkerWaits() returns (events: seq<Event>)
    ensures IsRun(Initial(1), events)
    ensures Play(Initial(1), events) == State(false, true, false, 1, 1, 0, [Waiting], AwaitWarm)
  {
    hide IsRun, Play;
    var w, c := WorkerMoves(0), CoordinatorMoves;
    assert Apply(Initial(1), w) == State(false, false, false, 1, 0, 0, [Ready], AwaitReady);
    OneStep(Initial(1), w);
    Extend(Initial(1), [w], c);
    Extend(Initial(1), [w] + [c], w);
    Extend(Initial(1), [w] + [c] + [w], w);
    events := [w] + [c] + [w] + [w];
  }

  /** The hang is reachable, with a single worker already: the coordinator sees no stop, and then one comes. */
  lemma OneWorkerCanHang()
    ensures exists s :: Reachable(s) && |s.workers| == 1 && Hanging(s)
  {
    var before := OneWorkerWaits();
    hide IsRun, Play;
    var c := CoordinatorMoves;
    Extend(Initial(1), before, c);
    Extend(Initial(1), before + [c], c);
    Extend(Initial(1), before + [c] + [c], Stop);
    var s := Play(Initial(1), before + [c] + [c] + [Stop]);
    assert s.workers[0] == Waiting && Lost(s, s.workers[0]);
    assert Reachable(s);
  }
}
