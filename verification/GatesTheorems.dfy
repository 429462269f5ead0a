/** What the protocol of `Gates` guarantees over every run: phase safety, publication before reading,
    what a terminal snapshot may claim, and that a stop request drains the run. */
module GatesTheorems {
  import opened Common
  import opened Gates

  lemma ReachedHolds(events: seq<Event>)
    requires IsRun(INITIAL, events)
    ensures Inv(Execute(INITIAL, events))
  {
    InitialHolds();
    RunKeeps(INITIAL, events);
  }

  /** No worker runs or has counted a timed batch before every selected CPU's worker has been
      spawned and has finished warming up. */
  lemma NoTimedBatchBeforeAllWarm(events: seq<Event>, i: nat)
    requires IsRun(INITIAL, events)
    ensures
      var s := Execute(INITIAL, events);
      i < |s.workers| && (Counting(s.workers[i].pc) || s.workers[i].units > 0) ==>
        |s.workers| == s.config.total
        && forall j | 0 <= j < |s.workers| :: s.workers[j].warmed && !s.workers[j].pc.NotSpawned?
  {
    ReachedHolds(events);
    var s := Execute(INITIAL, events);
    hide Execute, IsRun;
    if i < |s.workers| && (Counting(s.workers[i].pc) || s.workers[i].units > 0) {
      OneWorkerOk(s, i);
      CountAll(s.workers, IsWarmed);
      forall j | 0 <= j < |s.workers| ensures s.workers[j].warmed {
        assert Marked(s.workers[j], IsWarmed);
      }
    }
  }

  /** A worker about to read warm_deadline. */
  predicate ReadsWarm(pc: WorkerPc) {
    pc.WarmClock?
  }

  /** A worker that may read start or deadline. */
  predicate ReadsInterval(pc: WorkerPc) {
    pc.StartClock? || pc.TimedClock? || pc.Closing?
  }

  /** Whatever a worker is about to read has been written, and is not being written. */
  lemma PublishedBeforeRead(events: seq<Event>, i: nat)
    requires IsRun(INITIAL, events)
    ensures
      var s := Execute(INITIAL, events);
      i < |s.workers| ==>
        && (ReadsWarm(s.workers[i].pc) ==> s.g.warmDeadline.Some? && !s.coord.WriteWarm?)
        && (ReadsInterval(s.workers[i].pc) ==>
              s.g.start.Some? && s.g.deadline.Some? && !s.coord.WriteStart? && !s.coord.WriteDeadline?)
  {
    ReachedHolds(events);
    var s := Execute(INITIAL, events);
    hide Execute, IsRun;
    if i < |s.workers| {
      OneWorkerOk(s, i);
    }
  }

  /** A terminal snapshot is published only after every started worker has counted itself done. */
  lemma TerminalAfterJoin(events: seq<Event>)
    requires IsRun(INITIAL, events)
    ensures
      var s := Execute(INITIAL, events);
      !Running(s.published.state) ==> AllJoined(s.workers)
  {
    ReachedHolds(events);
    hide Execute, IsRun;
  }

  /** A Completed snapshot: no error, a positive sum over all workers, the longest worker's time, all of them
      joined, and every worker that counted units finished, validated, and timed from the common start to its
      last batch. */
  lemma CompletedClaims(events: seq<Event>)
    requires IsRun(INITIAL, events)
    ensures
      var s := Execute(INITIAL, events);
      s.published.state == Completed ==>
        && s.published.error == 0
        && s.published.units == SumUnits(s.workers) > 0
        && s.published.elapsed == MaxElapsed(s.workers)
        && |s.workers| == s.config.total
        && AllJoined(s.workers)
        && forall i | 0 <= i < |s.workers| :: Contributed(s.g, s.workers[i])
  {
    ReachedHolds(events);
    TerminalAfterJoin(events);
    hide Execute, IsRun;
  }

  /** A Cancelled snapshot means that a user asked, or the engine is being destroyed, and nothing failed; an
      Error snapshot carries a code. */
  lemma CancelledClaims(events: seq<Event>)
    requires IsRun(INITIAL, events)
    ensures
      var s := Execute(INITIAL, events);
      && (s.published.state == Cancelled ==> (s.control.userStopped || s.control.destroyed) && s.published.error == 0)
      && (s.published.state == Error ==> s.published.error != 0)
      && (s.g.stop && !s.control.userStopped && !s.control.destroyed ==> s.g.error != 0)
  {
    ReachedHolds(events);
    hide Execute, IsRun;
  }

  // ---------------------------------------------------------------- draining

  function WorkerRank(pc: WorkerPc): nat {
    match pc
    case NotSpawned => 23
    case Preparing => 22
    case RejectError => 21
    case RejectStop => 20
    case Announcing => 19
    case AwaitWarm => 18
    case AwaitWarmStop => 17
    case WarmReleased => 17
    case WarmClock => 16
    case WarmBatch => 15
    case Warming => 14
    case WarmDone => 13
    case AwaitTimed => 12
    case AwaitTimedStop => 11
    case TimedReleased => 11
    case StartClock => 10
    case StartStop => 9
    case TimedClock => 8
    case TimedBatch => 7
    case Recording => 6
    case TimedStop => 5
    case Closing => 4
    case FailError(_) => 3
    case FailStop => 2
    case Finishing => 1
    case Finished => 0
  }

  function SumRank(ws: seq<Worker>): nat {
    if ws == [] then 0 else SumRank(ws[..|ws| - 1]) + WorkerRank(ws[|ws| - 1].pc)
  }

  /** Steps the coordinator still has to take, for n workers built so far. */
  function CoordRank(pc: CoordPc, n: nat): int {
    match pc
    case Idle => 0
    case PublishFinal(_) => 1
    case Decide => 2
    case CheckEmpty => 3
    case ReadError => 4
    case Collect(k) => 5 + 3 * (n - k)
    case CollectError(k) => 4 + 3 * (n - k)
    case CollectStop(k) => 3 + 3 * (n - k)
    case Join => 6 + 3 * n
    case CoordFailStop => 7 + 3 * n
    case CoordFailError(_) => 8 + 3 * n
    case AwaitDone => 9 + 3 * n
    case ReleaseTimed => 10 + 3 * n
    case WriteDeadline => 11 + 3 * n
    case WriteStart => 12 + 3 * n
    case CheckWarm => 13 + 3 * n
    case AwaitWarmDoneStop => 14 + 3 * n
    case AwaitWarmDoneCount => 15 + 3 * n
    case ReleaseWarm => 16 + 3 * n
    case WriteWarm => 17 + 3 * n
    case CheckReady => 18 + 3 * n
    case AwaitReadyStop => 19 + 3 * n
    case AwaitReadyCount => 20 + 3 * n
    case Spawn(k) => 21 + 3 * n + (n - k)
    case CheckBuilt => 22 + 4 * n
    case BuildStop => 23 + 4 * n
    case BuildWorker => 52 + 4 * n
    case Detect => 24 + 4 * n
  }

  function Measure(s: State): int {
    CoordRank(s.coord, |s.workers|) + SumRank(s.workers)
  }

  /** The coordinator looks at the done counter, publishes progress and goes back to sleep. */
  predicate IdlePoll(s: State, e: Event) {
    e.CoordStep? && s.coord == AwaitDone && s.g.done < |s.workers| && e.choice.throws == 0
  }

  predicate ProcessEvent(e: Event) {
    e.WorkerStep? || e.CoordStep?
  }

  lemma {:induction false} SumRankUpdate(ws: seq<Worker>, i: nat, w: Worker)
    requires i < |ws|
    ensures SumRank(ws[i := w]) == SumRank(ws) - WorkerRank(ws[i].pc) + WorkerRank(w.pc)
    decreases |ws|
  {
    hide WorkerRank;
    var last := |ws| - 1;
    if i < last {
      SumRankUpdate(ws[..last], i, w);
      assert ws[i := w][..last] == ws[..last][i := w];
    } else {
      assert ws[i := w][..last] == ws[..last];
    }
  }

  lemma PrepareFalls(g: Shared, w: Worker, c: Choice)
    requires g.stop && Early(w.pc) && !w.pc.NotSpawned?
    ensures WorkerRank(PrepareEffect(g, w, c).1.pc) < WorkerRank(w.pc)
  {
  }

  lemma WaitFalls(g: Shared, w: Worker)
    requires g.stop && Waiting(w.pc)
    ensures WorkerRank(WaitEffect(g, w).1.pc) < WorkerRank(w.pc)
  {
  }

  lemma WarmFalls(g: Shared, w: Worker, c: Choice)
    requires g.stop && BeforeWarmed(w.pc) && !Early(w.pc) && !Waiting(w.pc)
    ensures WorkerRank(WarmEffect(g, w, c).1.pc) < WorkerRank(w.pc)
  {
  }

  lemma SpinFalls(g: Shared, w: Worker)
    requires g.stop && Spinning(w.pc)
    ensures WorkerRank(SpinEffect(g, w).1.pc) < WorkerRank(w.pc)
  {
  }

  /** The checks of the timed loop. */
  lemma TimedCheckFalls(g: Shared, batch: nat, w: Worker, c: Choice)
    requires g.stop && (w.pc.TimedStop? || w.pc.TimedClock?)
    ensures WorkerRank(TimedEffect(g, batch, w, c).1.pc) < WorkerRank(w.pc)
  {
  }

  lemma TimedBatchFalls(g: Shared, batch: nat, w: Worker, c: Choice)
    requires w.pc.TimedBatch?
    ensures WorkerRank(TimedEffect(g, batch, w, c).1.pc) < WorkerRank(w.pc)
  {
    assert TimedEffect(g, batch, w, c).1.pc.FailError? || TimedEffect(g, batch, w, c).1.pc.Recording?;
    hide TimedEffect;
  }

  /** Publishing units and elapsed time. */
  lemma TimedRecordFalls(g: Shared, batch: nat, w: Worker, c: Choice)
    requires w.pc.Recording? || w.pc.Closing?
    ensures WorkerRank(TimedEffect(g, batch, w, c).1.pc) < WorkerRank(w.pc)
  {
  }

  lemma TimedFalls(g: Shared, batch: nat, w: Worker, c: Choice)
    requires g.stop && Counting(w.pc)
    ensures WorkerRank(TimedEffect(g, batch, w, c).1.pc) < WorkerRank(w.pc)
  {
    hide TimedEffect, WorkerRank;
    if w.pc.TimedStop? || w.pc.TimedClock? {
      TimedCheckFalls(g, batch, w, c);
    } else if w.pc.TimedBatch? {
      TimedBatchFalls(g, batch, w, c);
    } else {
      TimedRecordFalls(g, batch, w, c);
    }
  }

  lemma WorkerRankFalls(g: Shared, batch: nat, w: Worker, c: Choice)
    requires g.stop && !w.pc.NotSpawned? && !w.pc.Finished?
    ensures WorkerRank(WorkerEffect(g, batch, w, c).1.pc) < WorkerRank(w.pc)
  {
    hide PrepareEffect, WaitEffect, WarmEffect, SpinEffect, TimedEffect;
    if Early(w.pc) {
      PrepareFalls(g, w, c);
    } else if Waiting(w.pc) {
      WaitFalls(g, w);
    } else if BeforeWarmed(w.pc) {
      WarmFalls(g, w, c);
    } else if Spinning(w.pc) {
      SpinFalls(g, w);
    } else if Counting(w.pc) {
      TimedFalls(g, batch, w, c);
    }
  }

  lemma WorkerStepFalls(s: State, i: nat, c: Choice)
    requires s.g.stop && WorkerCanStep(s, i, c)
    ensures Measure(WorkerApply(s, i, c)) < Measure(s)
  {
    hide WorkerEffect, CoordRank, WorkerRank;
    WorkerRankFalls(s.g, s.config.batch, s.workers[i], c);
    SumRankUpdate(s.workers, i, WorkerEffect(s.g, s.config.batch, s.workers[i], c).1);
  }

  lemma AssembleFalls(s: State, c: Choice)
    requires Inv(s) && s.g.stop && CoordCanStep(s, c) && Assembling(s.coord)
    ensures Measure(AssembleApply(s, c)) < Measure(s)
  {
    hide WorkersOk, CountsOk, FailureOk, PhaseOk, PublishedOk, SumRank, TallyOk;
    var n := |s.workers|;
    if s.coord == BuildWorker {
      SumRankAppend(s.workers, NEW_WORKER);
    } else if s.coord.Spawn? && s.coord.next < n {
      SumRankUpdate(s.workers, s.coord.next, s.workers[s.coord.next].(pc := Preparing));
    }
  }

  lemma ReleaseFalls(s: State, c: Choice)
    requires s.g.stop && Releasing(s.coord)
    ensures Measure(WarmApply(s, c)) < Measure(s)
  {
    hide SumRank;
  }

  lemma GatherFalls(s: State, c: Choice)
    requires Inv(s) && Gathering(s.coord)
    ensures Measure(GatherApply(s, c)) < Measure(s)
  {
    hide WorkersOk, CountsOk, FailureOk, PhaseOk, PublishedOk, CrewOk, SumRank, SumUnits, MaxElapsed, TallyWorker;
  }

  lemma FinishFalls(s: State, c: Choice)
    requires Concluding(s.coord)
    ensures Measure(FinishApply(s, c)) < Measure(s)
  {
    hide SumRank;
  }

  lemma MeasureFalls(s: State, c: Choice)
    requires s.coord != Idle && !Assembling(s.coord) && !Releasing(s.coord) && !Gathering(s.coord) && !Concluding(s.coord)
    ensures if IdlePoll(s, CoordStep(c)) then Measure(MeasureApply(s, c)) == Measure(s)
            else Measure(MeasureApply(s, c)) < Measure(s)
  {
    hide SumRank;
  }

  lemma CoordStepFalls(s: State, c: Choice)
    requires Inv(s) && s.g.stop && CoordCanStep(s, c)
    ensures if IdlePoll(s, CoordStep(c)) then Measure(CoordApply(s, c)) == Measure(s)
            else Measure(CoordApply(s, c)) < Measure(s)
  {
    hide Inv, AssembleApply, WarmApply, GatherApply, FinishApply, MeasureApply, Measure;
    if Assembling(s.coord) {
      AssembleFalls(s, c);
    } else if Releasing(s.coord) {
      ReleaseFalls(s, c);
    } else if Gathering(s.coord) {
      GatherFalls(s, c);
    } else if Concluding(s.coord) {
      FinishFalls(s, c);
    } else {
      MeasureFalls(s, c);
    }
  }

  lemma SumRankAppend(ws: seq<Worker>, w: Worker)
    ensures SumRank(ws + [w]) == SumRank(ws) + WorkerRank(w.pc)
  {
    assert (ws + [w])[..|ws|] == ws;
  }

  lemma MeasureNonNegative(s: State)
    requires Inv(s)
    ensures Measure(s) >= 0
  {
    hide WorkersOk, CountsOk, FailureOk, PhaseOk, PublishedOk, SumRank, SumUnits, MaxElapsed;
  }

  /** With stop requested, every process step makes progress, except that the coordinator may poll. */
  lemma EventFalls(s: State, e: Event)
    requires Inv(s) && s.g.stop && Enabled(s, e) && !e.StartRun? && !e.StartFails?
    ensures Apply(s, e).g.stop
    ensures if ProcessEvent(e) && !IdlePoll(s, e) then Measure(Apply(s, e)) < Measure(s)
            else Measure(Apply(s, e)) == Measure(s)
  {
    hide CoordApply, WorkerApply, Measure;
    match e
    case WorkerStep(i, c) =>
      WorkerStepFalls(s, i, c);
      WorkerKeepsStop(s, i, c);
    case CoordStep(c) =>
      CoordStepFalls(s, c);
      CoordKeepsStop(s, c);
    case _ => OtherKeepsMeasure(s, e);
  }

  lemma OtherKeepsMeasure(s: State, e: Event)
    requires Enabled(s, e) && (e.StopAccepted? || e.StopStored? || e.Destroy? || e.Tick?) && s.g.stop
    ensures Measure(Apply(s, e)) == Measure(s) && Apply(s, e).g.stop
  {
  }

  lemma WorkerKeepsStop(s: State, i: nat, c: Choice)
    requires Inv(s) && WorkerCanStep(s, i, c) && s.g.stop
    ensures WorkerApply(s, i, c).g.stop
  {
    hide WorkerEffect;
    EffectGood(s.g, s.config.batch, s.workers[i], c);
  }

  lemma CoordKeepsStop(s: State, c: Choice)
    requires CoordCanStep(s, c) && s.g.stop
    ensures CoordApply(s, c).g.stop
  {
  }

  lemma {:induction false} SomeUnmarked(ws: seq<Worker>, m: Mark)
    requires Count(ws, m) < |ws|
    ensures exists i | 0 <= i < |ws| :: !Marked(ws[i], m)
  {
    hide Marked;
    if Marked(ws[|ws| - 1], m) {
      SomeUnmarked(ws[..|ws| - 1], m);
      var i :| 0 <= i < |ws| - 1 && !Marked(ws[..|ws| - 1][i], m);
      assert !Marked(ws[i], m);
    }
  }

  /** In every state of every run that is not at rest, some process can take a step that is not a poll. */
  lemma NeverStuck(s: State) returns (e: Event)
    requires Inv(s) && s.coord != Idle
    ensures Enabled(s, e) && ProcessEvent(e) && !IdlePoll(s, e)
  {
    hide WorkersOk, FailureOk, TallyOk, PublishedOk;
    var calm := Choice(0, true);
    e := CoordStep(calm);
    if s.coord == AwaitDone && s.g.done < |s.workers| {
      SomeUnmarked(s.workers, IsFinished);
      var i :| 0 <= i < |s.workers| && !Marked(s.workers[i], IsFinished);
      e := WorkerStep(i, calm);
    } else if s.coord == Join && !AllJoined(s.workers) {
      var i :| 0 <= i < |s.workers| && !(s.workers[i].pc == NotSpawned || s.workers[i].pc == Finished);
      e := WorkerStep(i, calm);
    }
  }

  /** How many events of a run are process steps other than polls. */
  function Effective(s: State, events: seq<Event>): nat
    requires IsRun(s, events)
    decreases |events|
  {
    if events == [] then 0
    else (if ProcessEvent(events[0]) && !IdlePoll(s, events[0]) then 1 else 0)
         + Effective(Apply(s, events[0]), events[1..])
  }

  predicate NoRestart(events: seq<Event>) {
    forall i | 0 <= i < |events| :: !events[i].StartRun? && !events[i].StartFails?
  }

  /** Once stop is requested, by a user or a failure, a run has at most Measure(s) effective steps left. */
  lemma {:induction false} StopDrains(s: State, events: seq<Event>)
    requires Inv(s) && s.g.stop && IsRun(s, events) && NoRestart(events)
    ensures Inv(Execute(s, events))
    ensures Effective(s, events) + Measure(Execute(s, events)) <= Measure(s)
    ensures Measure(Execute(s, events)) >= 0
    decreases |events|
  {
    hide Inv, Apply, Enabled, Measure, IdlePoll, ProcessEvent;
    if events != [] {
      EventKeeps(s, events[0]);
      EventFalls(s, events[0]);
      StopDrains(Apply(s, events[0]), events[1..]);
    } else {
      MeasureNonNegative(s);
    }
  }

  /** At rest: every thread that was started is done, and the published state is terminal. */
  lemma RestIsTerminal(s: State)
    requires Inv(s) && s.coord == Idle
    ensures AllJoined(s.workers) && !Running(s.published.state)
  {
    hide WorkersOk, CountsOk, FailureOk, PhaseOk;
  }
}
