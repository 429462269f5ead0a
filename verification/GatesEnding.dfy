/** Every run of the CPU application engine can be brought to rest by its own threads, stopped or not: the
    protocol of `Gates` has no deadlock and needs nobody's stop request to end. */
module GatesEnding {
  import opened Common
  import opened Gates
  import opened GatesTheorems

  /** Steps of the run's own threads, and time passing: nobody starts, stops or destroys anything. */
  predicate OnlyThreads(events: seq<Event>) {
    forall i | 0 <= i < |events| :: ProcessEvent(events[i]) || events[i].Tick?
  }

  /** The events bring the coordinator to rest. */
  ghost predicate Ends(s: State, events: seq<Event>) {
    IsRun(s, events) && OnlyThreads(events) && Execute(s, events).coord == Idle
  }

  lemma EndsNow(s: State)
    requires s.coord == Idle
    ensures Ends(s, [])
  {
  }

  lemma EndsAfter(s: State, e: Event, rest: seq<Event>)
    requires Enabled(s, e) && (ProcessEvent(e) || e.Tick?) && Ends(Apply(s, e), rest)
    ensures Ends(s, [e] + rest)
  {
    hide Enabled, Apply, ProcessEvent;
    assert ([e] + rest)[0] == e && ([e] + rest)[1..] == rest;
  }

  /** From every state with a stop requested, letting the threads run brings the coordinator to rest. */
  lemma {:induction false} StoppedRunEnds(s: State) returns (events: seq<Event>)
    requires Inv(s) && s.g.stop
    ensures Ends(s, events)
    decreases Measure(s)
  {
    if s.coord == Idle {
      EndsNow(s);
      events := [];
    } else {
      var e := NeverStuck(s);
      EventFalls(s, e);
      EventKeeps(s, e);
      MeasureNonNegative(Apply(s, e));
      hide Inv, Apply, Enabled, Measure, Ends, IdlePoll;
      var rest := StoppedRunEnds(Apply(s, e));
      EndsAfter(s, e, rest);
      events := [e] + rest;
    }
  }

  // ---------------------------------------------------------------- without a stop

  predicate Failing(pc: WorkerPc) {
    pc.FailError? || pc.FailStop?
  }

  /** Short of a stop, a worker gets past a counter only by counting itself. */
  predicate Ahead(w: Worker) {
    && (!Early(w.pc) && !Failing(w.pc) ==> w.ready)
    && (w.pc.AwaitTimed? || w.pc.AwaitTimedStop? || AtPhase2(w.pc) || Ending(w.pc) ==> w.warmed)
  }

  predicate Onward(s: State) {
    s.g.stop || forall i | 0 <= i < |s.workers| :: Ahead(s.workers[i])
  }

  lemma PrepareAhead(g: Shared, w: Worker, c: Choice)
    requires Ahead(w) && Early(w.pc) && !w.pc.NotSpawned?
    ensures Ahead(PrepareEffect(g, w, c).1)
  {
  }

  lemma WaitAhead(g: Shared, w: Worker)
    requires Ahead(w) && Waiting(w.pc) && !g.stop
    ensures Ahead(WaitEffect(g, w).1)
  {
  }

  lemma WarmAhead(g: Shared, w: Worker, c: Choice)
    requires Ahead(w) && BeforeWarmed(w.pc) && !Early(w.pc) && !Waiting(w.pc)
    ensures Ahead(WarmEffect(g, w, c).1)
  {
  }

  lemma SpinAhead(g: Shared, w: Worker)
    requires Ahead(w) && Spinning(w.pc)
    ensures Ahead(SpinEffect(g, w).1)
  {
  }

  lemma TimedAhead(g: Shared, batch: nat, w: Worker, c: Choice)
    requires Ahead(w) && Counting(w.pc)
    ensures Ahead(TimedEffect(g, batch, w, c).1)
  {
  }

  lemma EndAhead(g: Shared, w: Worker)
    requires Ahead(w) && (Failing(w.pc) || Ending(w.pc))
    ensures EndEffect(g, w).0.stop || Ahead(EndEffect(g, w).1)
  {
  }

  lemma EffectAhead(g: Shared, batch: nat, w: Worker, c: Choice)
    requires Ahead(w) && !w.pc.NotSpawned? && !g.stop
    ensures WorkerEffect(g, batch, w, c).0.stop || Ahead(WorkerEffect(g, batch, w, c).1)
  {
    hide PrepareEffect, WaitEffect, WarmEffect, SpinEffect, TimedEffect, EndEffect, Ahead;
    if Early(w.pc) {
      PrepareAhead(g, w, c);
    } else if Waiting(w.pc) {
      WaitAhead(g, w);
    } else if BeforeWarmed(w.pc) {
      WarmAhead(g, w, c);
    } else if Spinning(w.pc) {
      SpinAhead(g, w);
    } else if Counting(w.pc) {
      TimedAhead(g, batch, w, c);
    } else {
      EndAhead(g, w);
    }
  }

  lemma EventOnward(s: State, e: Event)
    requires Inv(s) && Onward(s) && Enabled(s, e)
    ensures Onward(Apply(s, e))
  {
    hide Inv, Ahead, WorkerEffect;
    match e
    case WorkerStep(i, c) =>
      WorkerOnward(s, i, c);
    case CoordStep(c) =>
      CoordOnward(s, c);
    case _ =>
  }

  lemma WorkerOnward(s: State, i: nat, c: Choice)
    requires Inv(s) && Onward(s) && WorkerCanStep(s, i, c)
    ensures Onward(WorkerApply(s, i, c))
  {
    if s.g.stop {
      WorkerKeepsStop(s, i, c);
    } else {
      hide Inv, Ahead, WorkerEffect;
      if !WorkerApply(s, i, c).g.stop {
        EffectAhead(s.g, s.config.batch, s.workers[i], c);
      }
    }
  }

  lemma CoordOnward(s: State, c: Choice)
    requires Onward(s) && CoordCanStep(s, c)
    ensures Onward(CoordApply(s, c))
  {
    if s.g.stop {
      CoordKeepsStop(s, c);
    }
    assert Ahead(NEW_WORKER);
    if s.coord.Spawn? && s.coord.next < |s.workers| {
      assert Ahead(s.workers[s.coord.next].(pc := Preparing));
    }
    hide Ahead;
  }

  lemma {:induction false} RunOnward(s: State, events: seq<Event>)
    requires Inv(s) && Onward(s) && IsRun(s, events)
    ensures Inv(Execute(s, events)) && Onward(Execute(s, events))
    decreases |events|
  {
    hide Inv, Onward, Apply, Enabled;
    if events != [] {
      EventKeeps(s, events[0]);
      EventOnward(s, events[0]);
      RunOnward(Apply(s, events[0]), events[1..]);
    }
  }

  /** Steps a worker has before it once the time is up and nobody stops it. */
  function Climb(pc: WorkerPc): nat {
    match pc
    case NotSpawned => 28
    case Preparing => 27
    case RejectError => 26
    case RejectStop => 25
    case Announcing => 24
    case AwaitWarmStop => 23
    case AwaitWarm => 22
    case WarmReleased => 21
    case WarmBatch => 20
    case Warming => 19
    case WarmClock => 18
    case WarmDone => 17
    case AwaitTimedStop => 16
    case AwaitTimed => 15
    case TimedReleased => 14
    case StartStop => 13
    case StartClock => 12
    case TimedBatch => 11
    case Recording => 10
    case TimedStop => 9
    case TimedClock => 8
    case Closing => 7
    case FailError(_) => 3
    case FailStop => 2
    case Finishing => 1
    case Finished => 0
  }

  function SumClimb(ws: seq<Worker>): nat {
    if ws == [] then 0 else SumClimb(ws[..|ws| - 1]) + Climb(ws[|ws| - 1].pc)
  }

  function To(n: nat, k: nat): nat {
    if n > k then n - k else 0
  }

  /** The same for the coordinator, n of total workers built. */
  function CoordClimb(pc: CoordPc, n: nat, total: nat): nat {
    match pc
    case Idle => 0
    case PublishFinal(_) => 1
    case Decide => 2
    case CheckEmpty => 3
    case ReadError => 4
    case Collect(k) => 5 + 3 * To(n, k)
    case CollectError(k) => 4 + 3 * To(n, k)
    case CollectStop(k) => 3 + 3 * To(n, k)
    case Join => 6 + 3 * n
    case CoordFailStop => 7 + 3 * n
    case CoordFailError(_) => 8 + 3 * n
    case AwaitDone => 9 + 3 * n
    case ReleaseTimed => 10 + 3 * n
    case WriteDeadline => 11 + 3 * n
    case WriteStart => 12 + 3 * n
    case CheckWarm => 13 + 3 * n
    case AwaitWarmDoneCount => 14 + 3 * n
    case AwaitWarmDoneStop => 15 + 3 * n
    case ReleaseWarm => 16 + 3 * n
    case WriteWarm => 17 + 3 * n
    case CheckReady => 18 + 3 * n
    case AwaitReadyCount => 19 + 3 * n
    case AwaitReadyStop => 20 + 3 * n
    case Spawn(k) => 21 + 3 * n + To(n, k)
    case CheckBuilt => 22 + 4 * n
    case BuildWorker => 23 + 4 * n + 40 * To(total, n)
    case BuildStop => 24 + 4 * n + 40 * To(total, n)
    case Detect => 25 + 4 * n + 40 * To(total, n)
  }

  function Total(s: State): nat {
    CoordClimb(s.coord, |s.workers|, s.config.total) + SumClimb(s.workers)
  }

  lemma {:induction false} SumClimbUpdate(ws: seq<Worker>, i: nat, w: Worker)
    requires i < |ws|
    ensures SumClimb(ws[i := w]) == SumClimb(ws) - Climb(ws[i].pc) + Climb(w.pc)
    decreases |ws|
  {
    hide Climb;
    var last := |ws| - 1;
    if i < last {
      SumClimbUpdate(ws[..last], i, w);
      assert ws[i := w][..last] == ws[..last][i := w];
    } else {
      assert ws[i := w][..last] == ws[..last];
    }
  }

  lemma SumClimbAppend(ws: seq<Worker>, w: Worker)
    ensures SumClimb(ws + [w]) == SumClimb(ws) + Climb(w.pc)
  {
    assert (ws + [w])[..|ws|] == ws;
  }

  /** Every instant a worker may wait for has passed. */
  predicate Late(g: Shared) {
    && (g.warmDeadline.Some? ==> g.now >= g.warmDeadline.value)
    && (g.start.Some? ==> g.now >= g.start.value)
    && (g.deadline.Some? ==> g.now >= g.deadline.value)
  }

  function Instant(t: Option<int>): int {
    if t.Some? then t.value else 0
  }

  /** Long enough for that. */
  function Wait(g: Shared): nat {
    Max(0, Max(Instant(g.warmDeadline) - g.now, Max(Instant(g.start) - g.now, Instant(g.deadline) - g.now)))
  }

  const CALM := Choice(0, true)

  /** A phase the worker waits for has been released. */
  predicate Released(g: Shared, pc: WorkerPc) {
    (pc.AwaitWarm? ==> g.phase >= 1) && (pc.AwaitTimed? ==> g.phase >= 2)
  }

  lemma PrepareClimbs(g: Shared, w: Worker)
    requires Early(w.pc) && !w.pc.NotSpawned?
    ensures PrepareEffect(g, w, CALM).0.stop || Climb(PrepareEffect(g, w, CALM).1.pc) < Climb(w.pc)
  {
  }

  lemma WaitClimbs(g: Shared, w: Worker)
    requires Waiting(w.pc) && Released(g, w.pc)
    ensures Climb(WaitEffect(g, w).1.pc) < Climb(w.pc)
  {
  }

  lemma WarmClimbs(g: Shared, w: Worker)
    requires Late(g) && BeforeWarmed(w.pc) && !Early(w.pc) && !Waiting(w.pc)
    ensures Climb(WarmEffect(g, w, CALM).1.pc) < Climb(w.pc)
  {
  }

  lemma SpinClimbs(g: Shared, w: Worker)
    requires Late(g) && Spinning(w.pc)
    ensures Climb(SpinEffect(g, w).1.pc) < Climb(w.pc)
  {
  }

  lemma TimedClimbs(g: Shared, batch: nat, w: Worker)
    requires Late(g) && Counting(w.pc)
    ensures Climb(TimedEffect(g, batch, w, CALM).1.pc) < Climb(w.pc)
  {
  }

  lemma EndClimbs(g: Shared, w: Worker)
    requires Failing(w.pc) || w.pc.Finishing?
    ensures Climb(EndEffect(g, w).1.pc) < Climb(w.pc)
  {
  }

  lemma EffectClimbs(g: Shared, batch: nat, w: Worker)
    requires Late(g) && !w.pc.NotSpawned? && !w.pc.Finished? && Released(g, w.pc)
    ensures WorkerEffect(g, batch, w, CALM).0.stop || Climb(WorkerEffect(g, batch, w, CALM).1.pc) < Climb(w.pc)
  {
    hide PrepareEffect, WaitEffect, WarmEffect, SpinEffect, TimedEffect, EndEffect, Climb, Late, Released;
    if Early(w.pc) {
      PrepareClimbs(g, w);
    } else if Waiting(w.pc) {
      WaitClimbs(g, w);
    } else if BeforeWarmed(w.pc) {
      WarmClimbs(g, w);
    } else if Spinning(w.pc) {
      SpinClimbs(g, w);
    } else if Counting(w.pc) {
      TimedClimbs(g, batch, w);
    } else {
      EndClimbs(g, w);
    }
  }

  lemma WorkerAdvances(s: State, i: nat)
    requires Late(s.g) && WorkerCanStep(s, i, CALM) && Released(s.g, s.workers[i].pc)
    ensures WorkerApply(s, i, CALM).g.stop || Total(WorkerApply(s, i, CALM)) < Total(s)
  {
    hide WorkerEffect, Climb, CoordClimb, Late, Released;
    EffectClimbs(s.g, s.config.batch, s.workers[i]);
    SumClimbUpdate(s.workers, i, WorkerEffect(s.g, s.config.batch, s.workers[i], CALM).1);
  }

  /** The coordinator is not waiting for anybody. */
  predicate Free(s: State) {
    var n := |s.workers|;
    && (s.coord == AwaitReadyCount ==> s.g.ready >= n)
    && (s.coord == AwaitWarmDoneCount ==> s.g.warmDone >= n)
    && (s.coord == AwaitDone ==> s.g.done >= n)
    && (s.coord == Join ==> AllJoined(s.workers))
  }

  lemma AssembleAdvances(s: State)
    requires CrewOk(s) && !s.g.stop && Assembling(s.coord)
    ensures Total(AssembleApply(s, CALM)) < Total(s)
  {
    hide SumClimb, NoneSpawned, AllSpawned, AllJoined;
    var n := |s.workers|;
    if s.coord == BuildWorker {
      SumClimbAppend(s.workers, NEW_WORKER);
    } else if s.coord.Spawn? && s.coord.next < n {
      SumClimbUpdate(s.workers, s.coord.next, s.workers[s.coord.next].(pc := Preparing));
    }
  }

  lemma WarmAdvances(s: State)
    requires !s.g.stop && Releasing(s.coord) && Free(s)
    ensures Total(WarmApply(s, CALM)) < Total(s)
  {
    hide SumClimb;
  }

  lemma MeasureAdvances(s: State)
    requires !s.g.stop && s.coord != Idle && Free(s)
    requires !Assembling(s.coord) && !Releasing(s.coord) && !Gathering(s.coord) && !Concluding(s.coord)
    ensures Total(MeasureApply(s, CALM)) < Total(s)
  {
    hide SumClimb;
  }

  lemma GatherAdvances(s: State)
    requires Gathering(s.coord) && TallyOk(s)
    ensures Total(GatherApply(s, CALM)) < Total(s)
  {
    hide SumClimb, Tallied, TallyWorker;
  }

  lemma FinishAdvances(s: State)
    requires Concluding(s.coord)
    ensures Total(FinishApply(s, CALM)) < Total(s)
  {
    hide SumClimb;
  }

  lemma CoordAdvances(s: State)
    requires Inv(s) && !s.g.stop && s.coord != Idle && Free(s)
    ensures CoordCanStep(s, CALM) && Total(CoordApply(s, CALM)) < Total(s)
  {
    assert CrewOk(s) && TallyOk(s);
    hide Inv, CrewOk, TallyOk, Total, AssembleApply, WarmApply, GatherApply, FinishApply, MeasureApply;
    if Assembling(s.coord) {
      AssembleAdvances(s);
    } else if Releasing(s.coord) {
      WarmAdvances(s);
    } else if Gathering(s.coord) {
      GatherAdvances(s);
    } else if Concluding(s.coord) {
      FinishAdvances(s);
    } else {
      MeasureAdvances(s);
    }
  }

  /** A worker the coordinator waits for, and who can move. */
  lemma Awaited(s: State) returns (i: nat)
    requires Inv(s) && Onward(s) && !s.g.stop && !Free(s)
    ensures WorkerCanStep(s, i, CALM) && Released(s.g, s.workers[i].pc)
  {
    hide WorkersOk, FailureOk, TallyOk, PublishedOk, Count;
    if s.coord == Join {
      i :| 0 <= i < |s.workers| && !(s.workers[i].pc == NotSpawned || s.workers[i].pc == Finished);
    } else {
      var m := if s.coord == AwaitReadyCount then IsReady else if s.coord == AwaitWarmDoneCount then IsWarmed else IsFinished;
      SomeUnmarked(s.workers, m);
      i :| 0 <= i < |s.workers| && !Marked(s.workers[i], m);
      assert Ahead(s.workers[i]);
    }
  }

  /** With the time up and no stop, somebody can take a step that brings the end closer, or requests a stop. */
  lemma SomebodyAdvances(s: State) returns (e: Event)
    requires Inv(s) && Onward(s) && Late(s.g) && !s.g.stop && s.coord != Idle
    ensures Enabled(s, e) && ProcessEvent(e)
    ensures Apply(s, e).g.stop || Total(Apply(s, e)) < Total(s)
  {
    hide Inv, Onward, Late, Total, Released, WorkerApply, CoordApply;
    if Free(s) {
      CoordAdvances(s);
      e := CoordStep(CALM);
    } else {
      var i := Awaited(s);
      WorkerAdvances(s, i);
      e := WorkerStep(i, CALM);
    }
  }

  lemma WaitSuffices(s: State)
    ensures var t := Apply(s, Tick(Wait(s.g)));
      Late(t.g) && t.coord == s.coord && t.g.stop == s.g.stop && Total(t) == Total(s)
  {
  }

  /** From every state a run can be in, the threads and time alone bring the coordinator to rest. */
  lemma {:induction false} RunEnds(s: State) returns (events: seq<Event>)
    requires Inv(s) && Onward(s)
    ensures Ends(s, events)
    decreases Total(s)
  {
    if s.coord == Idle {
      EndsNow(s);
      events := [];
    } else if s.g.stop {
      events := StoppedRunEnds(s);
    } else {
      var tick := Tick(Wait(s.g));
      var t := Apply(s, tick);
      WaitSuffices(s);
      EventKeeps(s, tick);
      EventOnward(s, tick);
      var e := SomebodyAdvances(t);
      EventKeeps(t, e);
      EventOnward(t, e);
      assert Enabled(s, tick);
      hide Inv, Onward, Apply, Enabled, Total, Ends;
      var rest;
      if Apply(t, e).g.stop {
        rest := StoppedRunEnds(Apply(t, e));
      } else {
        rest := RunEnds(Apply(t, e));
      }
      EndsAfter(t, e, rest);
      EndsAfter(s, tick, [e] + rest);
      events := [tick] + ([e] + rest);
    }
  }

  /** No deadlock, whatever happened before: every run, stopped or not, failed or not, can be brought to rest
      by its threads and time, and at rest every started thread is done and the published state terminal. */
  lemma EveryRunCanEnd(before: seq<Event>) returns (events: seq<Event>)
    requires IsRun(INITIAL, before)
    ensures Ends(Execute(INITIAL, before), events)
    ensures var t := Execute(Execute(INITIAL, before), events);
      AllJoined(t.workers) && !Running(t.published.state)
  {
    InitialHolds();
    RunOnward(INITIAL, before);
    var s := Execute(INITIAL, before);
    hide Inv, Onward, IsRun, Execute;
    events := RunEnds(s);
    RunKeeps(s, events);
    RestIsTerminal(Execute(s, events));
  }
}
