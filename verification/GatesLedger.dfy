/** What an observer of the events of `Gates` notes, and how the final snapshot follows from the notes: the units are
    the timed batches that were run, the elapsed time reaches from the start to the end of the last of them. */
module GatesLedger {
  import opened Common
  import opened Gates
  import opened GatesTheorems

  /** Since the current run was started: whether it was; the codes of all failures; timed batches that a worker found time
      for, completed, and saw fail; the clock at the end of the last one completed, when the warm-up's end was set, and
      the start. */
  datatype Ledger = Ledger(run: bool, failures: set<int>, begun: nat, batches: nat, broken: nat,
                           latest: Option<int>, warmSet: Option<int>, startSet: Option<int>)

  const BLANK := Ledger(false, {}, 0, 0, 0, None, None, None)

  /** A batch throws, or the first one is wrong: the code of that failure, or zero. */
  function WorkerFailure(pc: WorkerPc, c: Choice): int {
    if (pc.Preparing? || pc.WarmBatch? || pc.TimedBatch?) && c.throws != 0 then c.throws
    else if pc.Preparing? && !c.correct then -30
    else 0
  }

  /** Something throws, there is no CPU, or the output of a worker that counted units is wrong. */
  function CoordFailure(s: State, c: Choice): int {
    match s.coord
    case Detect => if c.throws != 0 then c.throws else if s.config.total == 0 then -10 else 0
    case BuildWorker => c.throws
    case Spawn(k) => if k < |s.workers| then c.throws else 0
    case WriteWarm => c.throws
    case AwaitDone => if s.g.done < |s.workers| then c.throws else 0
    case Collect(k) => if k < |s.workers| && s.workers[k].units != 0 && !s.workers[k].correct then -30 else 0
    case _ => 0
  }

  /** The timed interval starts two milliseconds after it is set, and lasts as long as requested. */
  predicate InInterval(l: Ledger, duration: nat, now: int) {
    l.startSet.Some? && now < l.startSet.value + 2000000 + duration
  }

  function NoteFailure(l: Ledger, code: int): Ledger {
    if code != 0 then l.(failures := l.failures + {code}) else l
  }

  function NoteWorker(l0: Ledger, s: State, i: nat, c: Choice): Ledger
    requires i < |s.workers|
  {
    var l := NoteFailure(l0, WorkerFailure(s.workers[i].pc, c));
    match s.workers[i].pc
    case TimedClock => if InInterval(l, s.config.duration, s.g.now) then l.(begun := l.begun + 1) else l
    case TimedBatch =>
      if c.throws == 0 then l.(batches := l.batches + 1, latest := Some(s.g.now)) else l.(broken := l.broken + 1)
    case _ => l
  }

  function NoteCoordinator(l0: Ledger, s: State, c: Choice): Ledger {
    var l := NoteFailure(l0, CoordFailure(s, c));
    match s.coord
    case WriteWarm => if c.throws == 0 then l.(warmSet := Some(s.g.now)) else l
    case WriteStart => l.(startSet := Some(s.g.now))
    case _ => l
  }

  function Note(l: Ledger, s: State, e: Event): Ledger
    requires Enabled(s, e)
  {
    match e
    case StartRun(_) => BLANK.(run := true)
    case StartFails => BLANK
    case WorkerStep(i, c) => NoteWorker(l, s, i, c)
    case CoordStep(c) => NoteCoordinator(l, s, c)
    case _ => l
  }

  /** The notes after all events. */
  function Observe(l: Ledger, s: State, events: seq<Event>): Ledger
    requires IsRun(s, events)
    decreases |events|
  {
    if events == [] then l else Observe(Note(l, s, events[0]), Apply(s, events[0]), events[1..])
  }

  // ---------------------------------------------------------------- sums over the workers

  function SumLocal(ws: seq<Worker>): nat {
    if ws == [] then 0 else SumLocal(ws[..|ws| - 1]) + ws[|ws| - 1].local
  }

  function InBatch(ws: seq<Worker>): nat {
    if ws == [] then 0 else InBatch(ws[..|ws| - 1]) + if ws[|ws| - 1].pc.TimedBatch? then 1 else 0
  }

  lemma {:induction false} SumsUpdate(ws: seq<Worker>, i: nat, w: Worker)
    requires i < |ws|
    ensures SumLocal(ws[i := w]) == SumLocal(ws) - ws[i].local + w.local
    ensures InBatch(ws[i := w]) == InBatch(ws) - (if ws[i].pc.TimedBatch? then 1 else 0) + if w.pc.TimedBatch? then 1 else 0
    decreases |ws|
  {
    var last := |ws| - 1;
    if i < last {
      SumsUpdate(ws[..last], i, w);
      assert ws[i := w][..last] == ws[..last][i := w];
    } else {
      assert ws[i := w][..last] == ws[..last];
    }
  }

  lemma SumsAppend(ws: seq<Worker>, w: Worker)
    ensures SumLocal(ws + [w]) == SumLocal(ws) + w.local
    ensures InBatch(ws + [w]) == InBatch(ws) + if w.pc.TimedBatch? then 1 else 0
  {
    assert (ws + [w])[..|ws|] == ws;
  }

  // ---------------------------------------------------------------- what the notes say of the state

  predicate TimesNoted(s: State, l: Ledger) {
    && s.g.warmDeadline == (if l.warmSet.Some? then Some(l.warmSet.value + s.config.warmup) else None)
    && s.g.start == (if l.startSet.Some? then Some(l.startSet.value + 2000000) else None)
    && (s.g.deadline.Some? ==> s.g.start.Some? && s.g.deadline.value == s.g.start.value + s.config.duration)
    && (Undated(s.coord) ==> s.g.deadline.None?)
    && (Undated(s.coord) && !s.coord.WriteDeadline? ==> s.g.start.None?)
  }

  /** The deadline has not been written yet. */
  predicate Undated(pc: CoordPc) {
    BeforeRelease(pc) || pc.AwaitWarmDoneStop? || pc.AwaitWarmDoneCount? || pc.CheckWarm? || pc.WriteStart? || pc.WriteDeadline?
  }

  function Units(batch: nat, batches: nat): nat {
    batch * batches
  }

  predicate SumsNoted(s: State, l: Ledger) {
    && SumLocal(s.workers) == Units(s.config.batch, l.batches)
    && l.begun == l.batches + l.broken + InBatch(s.workers)
  }

  predicate BrokenNoted(s: State, l: Ledger) {
    l.broken > 0 ==> s.g.error != 0 || exists i | 0 <= i < |s.workers| :: s.workers[i].pc.FailError?
  }

  predicate BatchesNoted(s: State, l: Ledger) {
    SumsNoted(s, l) && BrokenNoted(s, l)
  }

  /** The latest end of a timed batch, over all workers that completed one. */
  predicate LatestNoted(s: State, l: Ledger) {
    match l.latest
    case None => forall i | 0 <= i < |s.workers| :: s.workers[i].local == 0
    case Some(t) =>
      && t <= s.g.now
      && (forall i | 0 <= i < |s.workers| && s.workers[i].local > 0 :: s.workers[i].lastEnd <= t)
      && exists i | 0 <= i < |s.workers| :: s.workers[i].local > 0 && s.workers[i].lastEnd == t
  }

  /** What one step of a worker does to its batches. */
  predicate BatchStep(g: Shared, batch: nat, w: Worker, c: Choice, g': Shared, w': Worker) {
    && (if w.pc.TimedBatch? && c.throws == 0 then w'.local == w.local + batch && w'.lastEnd == g.now
        else w'.local == w.local && w'.lastEnd == w.lastEnd)
    && (w'.pc.TimedBatch? <==> w.pc.TimedClock? && g.deadline.Some? && g.now < g.deadline.value)
    && (w.pc.TimedBatch? && c.throws != 0 ==> w'.pc.FailError?)
    && (w.pc.FailError? && w.pc.code != 0 ==> g'.error != 0)
    && (g.error != 0 ==> g'.error == g.error)
    && g' == g.(ready := g'.ready, warmDone := g'.warmDone, done := g'.done, error := g'.error, stop := g'.stop)
  }

  lemma PrepareBatches(g: Shared, batch: nat, w: Worker, c: Choice)
    requires Early(w.pc)
    ensures var (g', w') := PrepareEffect(g, w, c); BatchStep(g, batch, w, c, g', w')
  {
  }

  lemma WaitBatches(g: Shared, batch: nat, w: Worker, c: Choice)
    requires Waiting(w.pc)
    ensures var (g', w') := WaitEffect(g, w); BatchStep(g, batch, w, c, g', w')
  {
  }

  lemma WarmBatches(g: Shared, batch: nat, w: Worker, c: Choice)
    requires BeforeWarmed(w.pc) && !Early(w.pc) && !Waiting(w.pc)
    ensures var (g', w') := WarmEffect(g, w, c); BatchStep(g, batch, w, c, g', w')
  {
  }

  lemma SpinBatches(g: Shared, batch: nat, w: Worker, c: Choice)
    requires Spinning(w.pc)
    ensures var (g', w') := SpinEffect(g, w); BatchStep(g, batch, w, c, g', w')
  {
  }

  lemma TimedBatches(g: Shared, batch: nat, w: Worker, c: Choice)
    requires Counting(w.pc)
    ensures var (g', w') := TimedEffect(g, batch, w, c); BatchStep(g, batch, w, c, g', w')
  {
  }

  lemma EndBatches(g: Shared, batch: nat, w: Worker, c: Choice)
    requires w.pc.FailError? || w.pc.FailStop? || Ending(w.pc)
    ensures var (g', w') := EndEffect(g, w); BatchStep(g, batch, w, c, g', w')
  {
  }

  lemma EffectBatches(g: Shared, batch: nat, w: Worker, c: Choice)
    ensures var (g', w') := WorkerEffect(g, batch, w, c); BatchStep(g, batch, w, c, g', w')
  {
    hide PrepareEffect, WaitEffect, WarmEffect, SpinEffect, TimedEffect, EndEffect, BatchStep;
    if Early(w.pc) {
      PrepareBatches(g, batch, w, c);
    } else if Waiting(w.pc) {
      WaitBatches(g, batch, w, c);
    } else if BeforeWarmed(w.pc) {
      WarmBatches(g, batch, w, c);
    } else if Spinning(w.pc) {
      SpinBatches(g, batch, w, c);
    } else if Counting(w.pc) {
      TimedBatches(g, batch, w, c);
    } else {
      EndBatches(g, batch, w, c);
    }
  }

  // ---------------------------------------------------------------- failures

  /** The code of a failure that is about to be recorded, or zero. */
  function PendingCode(pc: WorkerPc): int {
    match pc
    case RejectError => -30
    case FailError(code) => code
    case _ => 0
  }

  function CoordPendingCode(pc: CoordPc): int {
    match pc
    case CoordFailError(code) => code
    case CollectError(_) => -30
    case _ => 0
  }

  predicate Pending(w: Worker) {
    PendingCode(w.pc) != 0
  }

  predicate FailuresNoted(s: State, l: Ledger) {
    && (l.failures != {} ==>
          s.g.error != 0 || CoordPendingCode(s.coord) != 0 || exists i | 0 <= i < |s.workers| :: Pending(s.workers[i]))
    && (s.g.error != 0 ==> s.g.error in l.failures)
    && (CoordPendingCode(s.coord) != 0 ==> CoordPendingCode(s.coord) in l.failures)
    && (forall i | 0 <= i < |s.workers| && Pending(s.workers[i]) :: PendingCode(s.workers[i].pc) in l.failures)
  }

  predicate FailureStep(g: Shared, w: Worker, c: Choice, g': Shared, w': Worker) {
    && PendingCode(w'.pc) == WorkerFailure(w.pc, c)
    && g'.error == (if g.error == 0 then PendingCode(w.pc) else g.error)
  }

  lemma PrepareFailures(g: Shared, w: Worker, c: Choice)
    requires Early(w.pc)
    ensures var (g', w') := PrepareEffect(g, w, c); FailureStep(g, w, c, g', w')
  {
  }

  lemma WaitFailures(g: Shared, w: Worker, c: Choice)
    requires Waiting(w.pc) || Spinning(w.pc)
    ensures WaitEffect(g, w).0 == g == SpinEffect(g, w).0
    ensures FailureStep(g, w, c, g, WaitEffect(g, w).1) && FailureStep(g, w, c, g, SpinEffect(g, w).1)
  {
  }

  lemma WarmFailures(g: Shared, w: Worker, c: Choice)
    requires BeforeWarmed(w.pc) && !Early(w.pc) && !Waiting(w.pc)
    ensures var (g', w') := WarmEffect(g, w, c); FailureStep(g, w, c, g', w')
  {
  }

  lemma TimedFailures(g: Shared, batch: nat, w: Worker, c: Choice)
    requires Counting(w.pc)
    ensures var (g', w') := TimedEffect(g, batch, w, c); FailureStep(g, w, c, g', w')
  {
  }

  lemma EndFailures(g: Shared, w: Worker, c: Choice)
    requires w.pc.FailError? || w.pc.FailStop? || Ending(w.pc)
    ensures var (g', w') := EndEffect(g, w); FailureStep(g, w, c, g', w')
  {
  }

  lemma EffectFailures(g: Shared, batch: nat, w: Worker, c: Choice)
    ensures var (g', w') := WorkerEffect(g, batch, w, c); FailureStep(g, w, c, g', w')
  {
    hide PrepareEffect, WaitEffect, WarmEffect, SpinEffect, TimedEffect, EndEffect, FailureStep;
    if Early(w.pc) {
      PrepareFailures(g, w, c);
    } else if Waiting(w.pc) {
      WaitFailures(g, w, c);
    } else if BeforeWarmed(w.pc) {
      WarmFailures(g, w, c);
    } else if Spinning(w.pc) {
      WaitFailures(g, w, c);
    } else if Counting(w.pc) {
      TimedFailures(g, batch, w, c);
    } else {
      EndFailures(g, w, c);
    }
  }

  lemma WorkerFailures(s: State, l: Ledger, i: nat, c: Choice)
    requires WorkerCanStep(s, i, c) && FailuresNoted(s, l)
    ensures FailuresNoted(WorkerApply(s, i, c), NoteWorker(l, s, i, c))
  {
    hide WorkerEffect, WorkerFailure, PendingCode, CoordPendingCode;
    EffectFailures(s.g, s.config.batch, s.workers[i], c);
    var t := WorkerApply(s, i, c);
    assert forall j | 0 <= j < |s.workers| && j != i :: t.workers[j] == s.workers[j];
    if Pending(t.workers[i]) {
    } else if j :| 0 <= j < |s.workers| && Pending(s.workers[j]) {
      assert j != i ==> Pending(t.workers[j]);
    }
  }

  lemma ReadsWritten(s: State, i: nat)
    requires Inv(s) && i < |s.workers|
    ensures s.config.batch > 0
    ensures s.workers[i].pc.TimedClock? ==> s.g.start.Some? && s.g.deadline.Some?
    ensures s.workers[i].pc.FailError? ==> s.workers[i].pc.code != 0
  {
    assert WorkerOk(s.g, s.workers[i]);
  }

  lemma WorkerTimes(s: State, l: Ledger, i: nat, c: Choice)
    requires WorkerCanStep(s, i, c) && TimesNoted(s, l)
    ensures TimesNoted(WorkerApply(s, i, c), NoteWorker(l, s, i, c))
  {
    hide WorkerEffect;
    EffectBatches(s.g, s.config.batch, s.workers[i], c);
  }

  lemma WorkerSums(s: State, l: Ledger, i: nat, c: Choice)
    requires Inv(s) && WorkerCanStep(s, i, c) && TimesNoted(s, l) && SumsNoted(s, l)
    ensures SumsNoted(WorkerApply(s, i, c), NoteWorker(l, s, i, c))
  {
    ReadsWritten(s, i);
    hide Inv, WorkerEffect, SumLocal, InBatch, Undated, WorkerFailure, Units;
    EffectBatches(s.g, s.config.batch, s.workers[i], c);
    SumsUpdate(s.workers, i, WorkerEffect(s.g, s.config.batch, s.workers[i], c).1);
    UnitsNext(s.config.batch, l.batches);
  }

  lemma UnitsNext(batch: nat, batches: nat)
    ensures Units(batch, batches + 1) == Units(batch, batches) + batch
  {
  }

  lemma WorkerBroken(s: State, l: Ledger, i: nat, c: Choice)
    requires Inv(s) && WorkerCanStep(s, i, c) && BrokenNoted(s, l)
    ensures BrokenNoted(WorkerApply(s, i, c), NoteWorker(l, s, i, c))
  {
    ReadsWritten(s, i);
    hide Inv, WorkerEffect, WorkerFailure;
    EffectBatches(s.g, s.config.batch, s.workers[i], c);
    var t, m := WorkerApply(s, i, c), NoteWorker(l, s, i, c);
    if m.broken > 0 && t.g.error == 0 {
      if s.workers[i].pc.TimedBatch? && c.throws != 0 {
        assert t.workers[i].pc.FailError?;
      } else {
        var j :| 0 <= j < |s.workers| && s.workers[j].pc.FailError?;
        assert t.workers[j].pc.FailError?;
      }
    }
  }

  lemma WorkerLatest(s: State, l: Ledger, i: nat, c: Choice)
    requires Inv(s) && WorkerCanStep(s, i, c) && LatestNoted(s, l)
    ensures LatestNoted(WorkerApply(s, i, c), NoteWorker(l, s, i, c))
  {
    ReadsWritten(s, i);
    hide Inv, WorkerEffect;
    EffectBatches(s.g, s.config.batch, s.workers[i], c);
    var t, m := WorkerApply(s, i, c), NoteWorker(l, s, i, c);
    if s.workers[i].pc.TimedBatch? && c.throws == 0 {
      assert t.workers[i].local > 0 && t.workers[i].lastEnd == s.g.now;
    } else if l.latest.Some? {
      var j :| 0 <= j < |s.workers| && s.workers[j].local > 0 && s.workers[j].lastEnd == l.latest.value;
      assert t.workers[j].local > 0 && t.workers[j].lastEnd == l.latest.value;
    }
  }

  // ---------------------------------------------------------------- the other events

  /** What a step of the coordinator leaves of batches and times. */
  predicate CoordStepParts(s: State, c: Choice, t: State) {
    && t.config == s.config && t.g.now == s.g.now && (s.g.error != 0 ==> t.g.error == s.g.error)
    && (t.workers == s.workers
        || (s.coord.BuildWorker? && t.workers == s.workers + [NEW_WORKER])
        || (s.coord.Spawn? && s.coord.next < |s.workers|
            && t.workers == s.workers[s.coord.next := s.workers[s.coord.next].(pc := Preparing)]))
    && (Undated(t.coord) ==> Undated(s.coord) && !s.coord.WriteDeadline?)
    && (s.coord.WriteStart? ==> t.coord.WriteDeadline?)
    && (t.coord.WriteStart? ==> s.coord.CheckWarm? && !s.g.stop)
    && t.g.phase == (if s.coord.ReleaseWarm? then 1 else if s.coord.ReleaseTimed? then 2 else s.g.phase)
    && t.g.warmDeadline == (if s.coord.WriteWarm? && c.throws == 0 then Some(s.g.now + s.config.warmup) else s.g.warmDeadline)
    && t.g.start == (if s.coord.WriteStart? then Some(s.g.now + 2000000) else s.g.start)
    && t.g.deadline == (if !s.coord.WriteDeadline? then s.g.deadline
                        else if s.g.start.Some? then Some(s.g.start.value + s.config.duration) else None)
  }

  lemma AssembleParts(s: State, c: Choice)
    requires Assembling(s.coord)
    ensures CoordStepParts(s, c, AssembleApply(s, c))
  {
  }

  lemma WarmParts(s: State, c: Choice)
    requires Releasing(s.coord)
    ensures CoordStepParts(s, c, WarmApply(s, c))
  {
  }

  lemma GatherParts(s: State, c: Choice)
    requires Gathering(s.coord)
    ensures CoordStepParts(s, c, GatherApply(s, c))
  {
  }

  lemma FinishParts(s: State, c: Choice)
    requires Concluding(s.coord)
    ensures CoordStepParts(s, c, FinishApply(s, c))
  {
  }

  lemma MeasureParts(s: State, c: Choice)
    requires !Assembling(s.coord) && !Releasing(s.coord) && !Gathering(s.coord) && !Concluding(s.coord)
    ensures CoordStepParts(s, c, MeasureApply(s, c))
  {
  }

  lemma CoordParts(s: State, c: Choice)
    ensures CoordStepParts(s, c, CoordApply(s, c))
  {
    hide CoordStepParts, AssembleApply, WarmApply, GatherApply, FinishApply, MeasureApply;
    if Assembling(s.coord) {
      AssembleParts(s, c);
    } else if Releasing(s.coord) {
      WarmParts(s, c);
    } else if Gathering(s.coord) {
      GatherParts(s, c);
    } else if Concluding(s.coord) {
      FinishParts(s, c);
    } else {
      MeasureParts(s, c);
    }
  }

  /** The start is set before the deadline, and both only once. */
  lemma WritesOnce(s: State)
    requires Inv(s)
    ensures s.coord.WriteStart? ==> s.g.phase == 1
    ensures s.coord.Spawn? && s.coord.next < |s.workers| ==> s.workers[s.coord.next].pc.NotSpawned?
  {
    hide WorkersOk, CountsOk, FailureOk, TallyOk, PublishedOk;
  }

  lemma CoordTimes(s: State, l: Ledger, c: Choice)
    requires Inv(s) && CoordCanStep(s, c) && TimesNoted(s, l)
    ensures TimesNoted(CoordApply(s, c), NoteCoordinator(l, s, c))
  {
    hide Inv, CoordApply;
    CoordParts(s, c);
  }

  lemma CoordSums(s: State, l: Ledger, c: Choice)
    requires Inv(s) && SumsNoted(s, l)
    ensures SumsNoted(CoordApply(s, c), NoteCoordinator(l, s, c))
  {
    WritesOnce(s);
    hide Inv, CoordApply, SumLocal, InBatch, CoordFailure, Units;
    CoordParts(s, c);
    SumsAppend(s.workers, NEW_WORKER);
    if s.coord.Spawn? && s.coord.next < |s.workers| {
      SpawnSums(s);
    }
  }

  lemma SpawnSums(s: State)
    requires s.coord.Spawn? && s.coord.next < |s.workers|
    ensures var ws := s.workers[s.coord.next := s.workers[s.coord.next].(pc := Preparing)];
      SumLocal(ws) == SumLocal(s.workers)
      && InBatch(ws) == InBatch(s.workers) - if s.workers[s.coord.next].pc.TimedBatch? then 1 else 0
  {
    SumsUpdate(s.workers, s.coord.next, s.workers[s.coord.next].(pc := Preparing));
  }

  lemma CoordBroken(s: State, l: Ledger, c: Choice)
    requires Inv(s) && CoordCanStep(s, c) && BrokenNoted(s, l)
    ensures BrokenNoted(CoordApply(s, c), NoteCoordinator(l, s, c))
  {
    WritesOnce(s);
    hide Inv, CoordApply, CoordFailure;
    CoordParts(s, c);
    var t := CoordApply(s, c);
    if l.broken > 0 && s.g.error == 0 {
      var j :| 0 <= j < |s.workers| && s.workers[j].pc.FailError?;
      assert t.workers[j].pc.FailError?;
    }
  }

  lemma CoordLatest(s: State, l: Ledger, c: Choice)
    requires CoordCanStep(s, c) && LatestNoted(s, l)
    ensures LatestNoted(CoordApply(s, c), NoteCoordinator(l, s, c))
  {
    hide CoordApply;
    CoordParts(s, c);
    var t := CoordApply(s, c);
    if l.latest.Some? {
      var j :| 0 <= j < |s.workers| && s.workers[j].local > 0 && s.workers[j].lastEnd == l.latest.value;
      assert t.workers[j].local > 0 && t.workers[j].lastEnd == l.latest.value;
    }
  }

  lemma OtherNotes(s: State, l: Ledger, e: Event)
    requires Inv(s) && Enabled(s, e) && !e.WorkerStep? && !e.CoordStep?
    requires TimesNoted(s, l) && BatchesNoted(s, l) && LatestNoted(s, l)
    ensures var t, m := Apply(s, e), Note(l, s, e); TimesNoted(t, m) && BatchesNoted(t, m) && LatestNoted(t, m)
  {
    hide Inv;
    var t := Apply(s, e);
    if t.workers == s.workers && l.broken > 0 && s.g.error == 0 {
      var j :| 0 <= j < |s.workers| && s.workers[j].pc.FailError?;
      assert t.workers[j].pc.FailError?;
    }
    if t.workers == s.workers && l.latest.Some? {
      var j :| 0 <= j < |s.workers| && s.workers[j].local > 0 && s.workers[j].lastEnd == l.latest.value;
      assert t.workers[j].local > 0 && t.workers[j].lastEnd == l.latest.value;
    }
  }

  // ---------------------------------------------------------------- how a run ends

  /** All of the first k workers that counted units got them right. */
  predicate RightSoFar(ws: seq<Worker>, k: nat) {
    forall i | 0 <= i < |ws| && i < k :: ws[i].units == 0 || ws[i].correct
  }

  /** The code is the error recorded, or without one the -30 of a run that counted nothing. */
  predicate CodeOk(g: Shared, code: int, units: nat) {
    code == g.error || (g.error == 0 && code == -30 && units == 0)
  }

  /** The terminal snapshot in the making. */
  predicate ConclusionNoted(s: State, l: Ledger) {
    (s.coord != Idle ==> l.run) &&
    match s.coord
    case Collect(k) => RightSoFar(s.workers, k) || s.g.error != 0
    case CollectStop(_) => s.g.error != 0
    case ReadError => RightSoFar(s.workers, |s.workers|) || s.g.error != 0
    case CheckEmpty => RightSoFar(s.workers, |s.workers|) || s.g.error != 0
    case Decide => CodeOk(s.g, s.tally.code, s.tally.units)
    case PublishFinal(_) => CodeOk(s.g, s.tally.code, s.tally.units)
    case Idle =>
      && s.published.units == SumUnits(s.workers) && s.published.elapsed == MaxElapsed(s.workers)
      && (if l.run then CodeOk(s.g, s.published.error, s.published.units) && Terminal(s.published.state)
          else s.published.state == Resting || s.published.state == Error)
    case _ => true
  }

  predicate Terminal(r: RunState) {
    r == Completed || r == Cancelled || r == Error
  }

  lemma GatherConcludes(s: State, l: Ledger, m: Ledger, c: Choice)
    requires Inv(s) && CoordCanStep(s, c) && Gathering(s.coord) && ConclusionNoted(s, l) && m.run == l.run
    ensures ConclusionNoted(GatherApply(s, c), m)
  {
    hide WorkersOk, CountsOk, CrewOk, PhaseOk, FailureOk, PublishedOk, SumUnits, MaxElapsed;
  }

  lemma ErrorsStopped(s: State)
    requires Inv(s) && s.coord.CheckEmpty?
    ensures s.g.error != 0 ==> s.g.stop
  {
    hide WorkersOk, CountsOk, PhaseOk, PublishedOk, TallyOk;
  }

  lemma NoUnits(ws: seq<Worker>)
    requires ws == []
    ensures SumUnits(ws) == 0
  {
  }

  lemma FinishConcludes(s: State, l: Ledger, c: Choice)
    requires Inv(s) && CoordCanStep(s, c) && Concluding(s.coord) && ConclusionNoted(s, l)
    ensures ConclusionNoted(FinishApply(s, c), l)
  {
    if s.coord.CheckEmpty? {
      ErrorsStopped(s);
    }
    hide WorkersOk, CountsOk, CrewOk, PhaseOk, FailureOk, PublishedOk, SumUnits, MaxElapsed;
    NoUnits(s.workers[..0]);
    assert s.workers[..|s.workers|] == s.workers;
  }

  lemma AssembleGoesOn(s: State, c: Choice)
    requires Assembling(s.coord)
    ensures !AfterJoin(AssembleApply(s, c).coord)
  {
  }

  lemma WarmGoesOn(s: State, c: Choice)
    requires Releasing(s.coord)
    ensures !AfterJoin(WarmApply(s, c).coord)
  {
  }

  lemma MeasureGoesOn(s: State, c: Choice)
    requires s.coord != Idle && !Assembling(s.coord) && !Releasing(s.coord) && !Gathering(s.coord) && !Concluding(s.coord)
    ensures !AfterJoin(MeasureApply(s, c).coord)
  {
  }

  lemma NothingToConclude(s: State, l: Ledger)
    requires !AfterJoin(s.coord) && l.run
    ensures ConclusionNoted(s, l)
  {
  }

  lemma CoordConcludes(s: State, l: Ledger, c: Choice)
    requires Inv(s) && CoordCanStep(s, c) && ConclusionNoted(s, l)
    ensures ConclusionNoted(CoordApply(s, c), NoteCoordinator(l, s, c))
  {
    assert l.run;
    hide Inv, ConclusionNoted, AssembleApply, WarmApply, GatherApply, FinishApply, MeasureApply;
    var m := NoteCoordinator(l, s, c);
    if Assembling(s.coord) {
      AssembleGoesOn(s, c);
      NothingToConclude(AssembleApply(s, c), m);
    } else if Releasing(s.coord) {
      WarmGoesOn(s, c);
      NothingToConclude(WarmApply(s, c), m);
    } else if Gathering(s.coord) {
      GatherConcludes(s, l, m, c);
    } else if Concluding(s.coord) {
      FinishConcludes(s, l, c);
    } else {
      MeasureGoesOn(s, c);
      NothingToConclude(MeasureApply(s, c), m);
    }
  }

  lemma WorkerConcludes(s: State, l: Ledger, i: nat, c: Choice)
    requires Inv(s) && WorkerCanStep(s, i, c) && ConclusionNoted(s, l)
    ensures ConclusionNoted(WorkerApply(s, i, c), NoteWorker(l, s, i, c))
  {
    WorkerStepCrew(s, i, c);
    hide Inv, WorkerEffect;
    NothingToConclude(WorkerApply(s, i, c), NoteWorker(l, s, i, c));
  }

  lemma OtherConcludes(s: State, l: Ledger, e: Event)
    requires Enabled(s, e) && !e.WorkerStep? && !e.CoordStep? && ConclusionNoted(s, l)
    ensures ConclusionNoted(Apply(s, e), Note(l, s, e))
  {
    hide SumUnits, MaxElapsed, RightSoFar;
    NoUnits([]);
    assert MaxElapsed([]) == 0 by { NoElapsed([]); }
  }

  lemma NoElapsed(ws: seq<Worker>)
    requires ws == []
    ensures MaxElapsed(ws) == 0
  {
  }

  // ---------------------------------------------------------------- the coordinator's failures

  predicate CoordFailureStep(s: State, c: Choice, t: State) {
    && CoordPendingCode(t.coord) == CoordFailure(s, c)
    && t.g.error == (if s.g.error == 0 then CoordPendingCode(s.coord) else s.g.error)
  }

  lemma AssembleFailures(s: State, c: Choice)
    requires Assembling(s.coord)
    ensures CoordFailureStep(s, c, AssembleApply(s, c))
  {
  }

  lemma ReleaseFailures(s: State, c: Choice)
    requires Releasing(s.coord)
    ensures CoordFailureStep(s, c, WarmApply(s, c))
  {
  }

  lemma GatherFailures(s: State, c: Choice)
    requires Gathering(s.coord)
    ensures CoordFailureStep(s, c, GatherApply(s, c))
  {
  }

  lemma FinishFailures(s: State, c: Choice)
    requires Concluding(s.coord)
    ensures CoordFailureStep(s, c, FinishApply(s, c))
  {
  }

  lemma MeasureFailures(s: State, c: Choice)
    requires s.coord != Idle && !Assembling(s.coord) && !Releasing(s.coord) && !Gathering(s.coord) && !Concluding(s.coord)
    ensures CoordFailureStep(s, c, MeasureApply(s, c))
  {
  }

  lemma CoordNotesFailures(s: State, l: Ledger, c: Choice)
    requires Inv(s) && CoordCanStep(s, c) && FailuresNoted(s, l)
    ensures FailuresNoted(CoordApply(s, c), NoteCoordinator(l, s, c))
  {
    WritesOnce(s);
    CoordParts(s, c);
    hide Inv, AssembleApply, WarmApply, GatherApply, FinishApply, MeasureApply;
    if Assembling(s.coord) {
      AssembleFailures(s, c);
    } else if Releasing(s.coord) {
      ReleaseFailures(s, c);
    } else if Gathering(s.coord) {
      GatherFailures(s, c);
    } else if Concluding(s.coord) {
      FinishFailures(s, c);
    } else {
      MeasureFailures(s, c);
    }
    hide CoordApply, CoordFailure, CoordPendingCode, PendingCode;
    SamePending(s, c, CoordApply(s, c));
  }

  lemma SamePending(s: State, c: Choice, t: State)
    requires CoordStepParts(s, c, t)
    requires s.coord.Spawn? && s.coord.next < |s.workers| ==> s.workers[s.coord.next].pc.NotSpawned?
    ensures (exists i | 0 <= i < |s.workers| :: Pending(s.workers[i])) ==>
      exists i | 0 <= i < |t.workers| :: Pending(t.workers[i])
    ensures forall i | 0 <= i < |t.workers| && Pending(t.workers[i]) ::
      i < |s.workers| && Pending(s.workers[i]) && PendingCode(t.workers[i].pc) == PendingCode(s.workers[i].pc)
  {
    if i :| 0 <= i < |s.workers| && Pending(s.workers[i]) {
      assert Pending(t.workers[i]);
    }
  }

  lemma OtherFailures(s: State, l: Ledger, e: Event)
    requires Enabled(s, e) && !e.WorkerStep? && !e.CoordStep? && FailuresNoted(s, l)
    ensures FailuresNoted(Apply(s, e), Note(l, s, e))
  {
    hide PendingCode;
  }

  // ---------------------------------------------------------------- the warm-up

  /** A worker is done with its warm-up. */
  predicate Warm(w: Worker) {
    w.warmed || w.pc.WarmDone?
  }

  predicate WarmedUp(g: Shared) {
    g.warmDeadline.Some? && g.now >= g.warmDeadline.value
  }

  /** Short of a stop no worker is warm, and no start is set, before the end of the warm-up. */
  predicate WarmNoted(s: State, l: Ledger) {
    && (forall i | 0 <= i < |s.workers| && Warm(s.workers[i]) :: s.g.phase >= 1 && (s.g.stop || WarmedUp(s.g)))
    && (s.coord.WriteStart? ==> WarmedUp(s.g))
    && (l.startSet.Some? ==> l.warmSet.Some? && l.startSet.value >= l.warmSet.value + s.config.warmup)
  }

  predicate WarmStep(g: Shared, w: Worker, w': Worker) {
    Warm(w') ==> Warm(w) || (AtPhase1(w.pc) && (g.stop || (g.warmDeadline.Some? ==> g.now >= g.warmDeadline.value)))
  }

  lemma EarlySteps(g: Shared, batch: nat, w: Worker, c: Choice)
    requires Early(w.pc) || Waiting(w.pc)
    ensures WarmStep(g, w, WorkerEffect(g, batch, w, c).1)
  {
  }

  lemma WarmSteps(g: Shared, w: Worker, c: Choice)
    requires BeforeWarmed(w.pc) && !Early(w.pc) && !Waiting(w.pc)
    ensures WarmStep(g, w, WarmEffect(g, w, c).1)
  {
  }

  lemma LateSteps(g: Shared, batch: nat, w: Worker, c: Choice)
    requires !BeforeWarmed(w.pc) && !Waiting(w.pc)
    ensures WarmStep(g, w, WorkerEffect(g, batch, w, c).1)
  {
  }

  lemma EffectWarms(g: Shared, batch: nat, w: Worker, c: Choice)
    ensures WarmStep(g, w, WorkerEffect(g, batch, w, c).1)
  {
    hide PrepareEffect, WaitEffect, WarmEffect, SpinEffect, TimedEffect, EndEffect, WarmStep;
    if Early(w.pc) || Waiting(w.pc) {
      EarlySteps(g, batch, w, c);
    } else if BeforeWarmed(w.pc) {
      WarmSteps(g, w, c);
    } else {
      LateSteps(g, batch, w, c);
    }
  }

  lemma PhaseOneIsDated(s: State, i: nat)
    requires Inv(s) && i < |s.workers|
    ensures AtPhase1(s.workers[i].pc) ==> s.g.phase >= 1 && s.g.warmDeadline.Some?
  {
    assert WorkerOk(s.g, s.workers[i]);
  }

  lemma WorkerWarms(s: State, l: Ledger, i: nat, c: Choice)
    requires Inv(s) && WorkerCanStep(s, i, c) && WarmNoted(s, l)
    ensures WarmNoted(WorkerApply(s, i, c), NoteWorker(l, s, i, c))
  {
    PhaseOneIsDated(s, i);
    WorkerStops(s, i, c);
    hide Inv, WorkerEffect, AtPhase1, Warm;
    EffectBatches(s.g, s.config.batch, s.workers[i], c);
    EffectWarms(s.g, s.config.batch, s.workers[i], c);
  }

  lemma WorkerStops(s: State, i: nat, c: Choice)
    requires Inv(s) && WorkerCanStep(s, i, c)
    ensures s.g.stop ==> WorkerApply(s, i, c).g.stop
  {
    if s.g.stop {
      WorkerKeepsStop(s, i, c);
    }
  }

  lemma AllWarm(s: State)
    requires Inv(s) && s.coord.CheckWarm? && !s.g.stop
    ensures exists i | 0 <= i < |s.workers| :: Warm(s.workers[i])
  {
    CountAll(s.workers, IsWarmed);
    assert |s.workers| > 0 && Marked(s.workers[0], IsWarmed);
    hide Inv;
    assert Warm(s.workers[0]);
  }

  lemma PhasesBefore(s: State)
    requires Inv(s)
    ensures s.coord.WriteWarm? ==> s.g.phase == 0
    ensures s.coord.ReleaseTimed? ==> s.g.phase == 1
    ensures s.coord.WriteStart? ==> s.g.warmDeadline.Some?
    ensures s.coord.AwaitDone? ==> s.g.phase == 2
    ensures s.g.phase >= 1 ==> s.g.warmDeadline.Some?
  {
    hide WorkersOk, CountsOk, FailureOk, TallyOk, PublishedOk, CrewOk;
  }

  lemma CoordWarms(s: State, l: Ledger, c: Choice)
    requires Inv(s) && CoordCanStep(s, c) && WarmNoted(s, l) && TimesNoted(s, l)
    ensures WarmNoted(CoordApply(s, c), NoteCoordinator(l, s, c))
  {
    PhasesBefore(s);
    WritesOnce(s);
    if s.coord.CheckWarm? && !s.g.stop {
      AllWarm(s);
    }
    if s.g.stop {
      CoordKeepsStop(s, c);
    }
    hide Inv, CoordApply;
    CoordParts(s, c);
  }

  lemma OtherWarms(s: State, l: Ledger, e: Event)
    requires Enabled(s, e) && !e.WorkerStep? && !e.CoordStep? && WarmNoted(s, l)
    ensures WarmNoted(Apply(s, e), Note(l, s, e))
  {
    hide Warm;
  }

  // ---------------------------------------------------------------- the snapshots on the way

  /** The state shown follows the warm-up and the release of the timed interval. */
  predicate ShownNoted(s: State, l: Ledger) {
    && (s.coord != Idle ==> (s.published.state == Preparation <==> l.warmSet.None?))
    && (s.coord != Idle && l.warmSet.Some? ==> s.coord.ReleaseWarm? || s.g.phase >= 1)
    && (s.published.state == Measuring ==> s.g.phase == 2)
  }

  predicate ShowStep(s: State, c: Choice, t: State) {
    t.coord != Idle ==>
      t.published.state == (if s.coord.WriteWarm? && c.throws == 0 then WarmingUp
                            else if s.coord.AwaitDone? && s.g.done < |s.workers| && c.throws == 0 then Measuring
                            else s.published.state)
      && (s.coord.WriteWarm? && c.throws == 0 ==> t.coord.ReleaseWarm?)
  }

  lemma AssembleShows(s: State, c: Choice)
    requires Assembling(s.coord)
    ensures ShowStep(s, c, AssembleApply(s, c))
  {
  }

  lemma WarmShows(s: State, c: Choice)
    requires Releasing(s.coord)
    ensures ShowStep(s, c, WarmApply(s, c))
  {
  }

  lemma GatherShows(s: State, c: Choice)
    requires Gathering(s.coord)
    ensures ShowStep(s, c, GatherApply(s, c))
  {
  }

  lemma FinishShows(s: State, c: Choice)
    requires Concluding(s.coord)
    ensures ShowStep(s, c, FinishApply(s, c))
  {
  }

  lemma MeasureShows(s: State, c: Choice)
    requires !Assembling(s.coord) && !Releasing(s.coord) && !Gathering(s.coord) && !Concluding(s.coord)
    ensures ShowStep(s, c, MeasureApply(s, c))
  {
  }

  lemma CoordShows(s: State, l: Ledger, c: Choice)
    requires Inv(s) && CoordCanStep(s, c) && ShownNoted(s, l) && TimesNoted(s, l)
    ensures ShownNoted(CoordApply(s, c), NoteCoordinator(l, s, c))
  {
    PhasesBefore(s);
    CoordKeeps(s, c);
    hide Inv, AssembleApply, WarmApply, GatherApply, FinishApply, MeasureApply;
    CoordParts(s, c);
    if Assembling(s.coord) {
      AssembleShows(s, c);
    } else if Releasing(s.coord) {
      WarmShows(s, c);
    } else if Gathering(s.coord) {
      GatherShows(s, c);
    } else if Concluding(s.coord) {
      FinishShows(s, c);
    } else {
      MeasureShows(s, c);
    }
  }

  /** At rest nothing is shown as going on. */
  lemma CoordKeeps(s: State, c: Choice)
    requires Inv(s) && CoordCanStep(s, c)
    ensures CoordApply(s, c).coord == Idle <==> !Running(CoordApply(s, c).published.state)
  {
    CoordStepKeeps(s, c);
    hide WorkersOk, CountsOk, FailureOk, TallyOk, CrewOk, PhaseOk, CoordApply;
  }

  lemma WorkerShows(s: State, l: Ledger, i: nat, c: Choice)
    requires WorkerCanStep(s, i, c) && ShownNoted(s, l)
    ensures ShownNoted(WorkerApply(s, i, c), NoteWorker(l, s, i, c))
  {
    hide WorkerEffect;
    EffectBatches(s.g, s.config.batch, s.workers[i], c);
  }

  lemma OtherShows(s: State, l: Ledger, e: Event)
    requires Enabled(s, e) && !e.WorkerStep? && !e.CoordStep? && ShownNoted(s, l)
    ensures ShownNoted(Apply(s, e), Note(l, s, e))
  {
  }

  // ---------------------------------------------------------------- every event, every run

  predicate Noted(s: State, l: Ledger) {
    && TimesNoted(s, l) && BatchesNoted(s, l) && LatestNoted(s, l) && ConclusionNoted(s, l) && WarmNoted(s, l)
    && ShownNoted(s, l) && FailuresNoted(s, l)
  }

  lemma NoSums(ws: seq<Worker>)
    requires ws == []
    ensures SumLocal(ws) == 0 && InBatch(ws) == 0 && SumUnits(ws) == 0 && MaxElapsed(ws) == 0
  {
  }

  lemma NoBatches(s: State, l: Ledger)
    requires s.workers == [] && l.batches == 0 && l.begun == 0 && l.broken == 0
    ensures BatchesNoted(s, l)
  {
    NoSums(s.workers);
    hide SumLocal, InBatch;
  }

  lemma NothingNoted()
    ensures Noted(INITIAL, BLANK)
  {
    hide BatchesNoted, SumUnits, MaxElapsed;
    NoSums(INITIAL.workers);
    NoBatches(INITIAL, BLANK);
  }

  lemma ObservedHolds(events: seq<Event>)
    requires IsRun(INITIAL, events)
    ensures Inv(Execute(INITIAL, events)) && Noted(Execute(INITIAL, events), Observe(BLANK, INITIAL, events))
  {
    InitialHolds();
    NothingNoted();
    hide Inv, Noted, IsRun, Execute, Observe;
    RunNotes(INITIAL, BLANK, events);
  }

  lemma WorkerNotes(s: State, l: Ledger, i: nat, c: Choice)
    requires Inv(s) && WorkerCanStep(s, i, c) && Noted(s, l)
    ensures Noted(WorkerApply(s, i, c), NoteWorker(l, s, i, c))
  {
    WorkerTimes(s, l, i, c);
    WorkerSums(s, l, i, c);
    WorkerBroken(s, l, i, c);
    WorkerLatest(s, l, i, c);
    WorkerConcludes(s, l, i, c);
    WorkerWarms(s, l, i, c);
    WorkerShows(s, l, i, c);
    WorkerFailures(s, l, i, c);
    hide FailuresNoted;
    hide Inv, WorkerApply, NoteWorker, TimesNoted, LatestNoted, ConclusionNoted, WarmNoted, ShownNoted, SumLocal, InBatch;
  }

  lemma EventNotes(s: State, l: Ledger, e: Event)
    requires Inv(s) && Enabled(s, e) && Noted(s, l)
    ensures Noted(Apply(s, e), Note(l, s, e))
  {
    match e
    case WorkerStep(i, c) =>
      WorkerNotes(s, l, i, c);
    case CoordStep(c) =>
      CoordTimes(s, l, c);
      CoordSums(s, l, c);
      CoordBroken(s, l, c);
      CoordLatest(s, l, c);
      CoordConcludes(s, l, c);
      CoordWarms(s, l, c);
      CoordShows(s, l, c);
      CoordNotesFailures(s, l, c);
      hide FailuresNoted;
      hide Inv, CoordApply, NoteCoordinator, TimesNoted, BatchesNoted, LatestNoted, ConclusionNoted, WarmNoted, ShownNoted;
    case _ =>
      OtherNotes(s, l, e);
      OtherConcludes(s, l, e);
      OtherWarms(s, l, e);
      OtherShows(s, l, e);
      OtherFailures(s, l, e);
      hide FailuresNoted;
      hide Inv, Apply, Note, TimesNoted, BatchesNoted, LatestNoted, ConclusionNoted, WarmNoted, ShownNoted;
  }

  lemma {:induction false} RunNotes(s: State, l: Ledger, events: seq<Event>)
    requires Inv(s) && Noted(s, l) && IsRun(s, events)
    ensures Noted(Execute(s, events), Observe(l, s, events)) && Inv(Execute(s, events))
    decreases |events|
  {
    hide Inv, Noted, Apply, Note, Enabled;
    if events != [] {
      EventNotes(s, l, events[0]);
      EventKeeps(s, events[0]);
      RunNotes(Apply(s, events[0]), Note(l, s, events[0]), events[1..]);
    }
  }

  // ---------------------------------------------------------------- what a snapshot tells

  lemma {:induction false} UnitsAreLocal(g: Shared, ws: seq<Worker>)
    requires AllJoined(ws) && WorkersOk(g, ws)
    ensures SumUnits(ws) == SumLocal(ws) && InBatch(ws) == 0
    decreases |ws|
  {
    hide FlagsOk, StageOk;
    if ws != [] {
      assert WorkerOk(g, ws[|ws| - 1]);
      UnitsAreLocal(g, ws[..|ws| - 1]);
    }
  }

  lemma {:induction false} MaxElapsedIs(ws: seq<Worker>)
    ensures forall i | 0 <= i < |ws| :: ws[i].elapsed <= MaxElapsed(ws)
    ensures MaxElapsed(ws) == 0 || exists i | 0 <= i < |ws| :: ws[i].elapsed == MaxElapsed(ws)
    ensures MaxElapsed(ws) >= 0
    decreases |ws|
  {
    if ws != [] {
      MaxElapsedIs(ws[..|ws| - 1]);
    }
  }

  /** A worker of a run without failures: its time reaches from the start to its last batch, or it ran none. */
  lemma WorkerElapsed(g: Shared, w: Worker)
    requires WorkerOk(g, w) && (w.pc.NotSpawned? || w.pc.Finished?) && g.error == 0
    ensures if w.local > 0 then g.start.Some? && w.elapsed == w.lastEnd - g.start.value >= 0 else w.elapsed == 0
  {
  }

  lemma ElapsedIsLatest(s: State, l: Ledger)
    requires WorkersOk(s.g, s.workers) && AllJoined(s.workers) && s.g.error == 0 && LatestNoted(s, l)
    ensures l.latest.None? ==> MaxElapsed(s.workers) == 0
    ensures l.latest.Some? ==> s.g.start.Some? && MaxElapsed(s.workers) == l.latest.value - s.g.start.value
  {
    MaxElapsedIs(s.workers);
    hide WorkerOk, MaxElapsed;
    forall i | 0 <= i < |s.workers|
      ensures var w := s.workers[i];
        if w.local > 0 then s.g.start.Some? && w.elapsed == w.lastEnd - s.g.start.value >= 0 else w.elapsed == 0
    {
      WorkerElapsed(s.g, s.workers[i]);
    }
  }

  /** A snapshot of a run that is over. */
  predicate FinalOk(s: State, l: Ledger) {
    && s.published.units == s.config.batch * l.batches
    && (s.g.error == 0 ==>
          && l.begun == l.batches
          && s.published.elapsed ==
             if l.latest.Some? && l.startSet.Some? then l.latest.value - (l.startSet.value + 2000000) else 0)
  }

  lemma FinalFollows(s: State, l: Ledger)
    requires Inv(s) && Noted(s, l) && !Running(s.published.state)
    ensures FinalOk(s, l)
  {
    RestIsJoined(s);
    UnitsAreLocal(s.g, s.workers);
    if s.g.error == 0 {
      ElapsedIsLatest(s, l);
      NoneBroken(s, l);
    }
    hide Inv, SumUnits, SumLocal, InBatch, MaxElapsed, WorkersOk, LatestNoted, WarmNoted, ShownNoted, AllJoined, Undated;
  }

  /** Whatever happened: the units of the final snapshot are those of the timed batches that were completed since the
      run was started; and if nothing failed, every batch that a worker found time for was completed, and the time is
      from the start, two milliseconds after it was set, to the end of the last batch of all workers. */
  lemma SnapshotExactly(events: seq<Event>)
    requires IsRun(INITIAL, events)
    ensures
      var s, l := Execute(INITIAL, events), Observe(BLANK, INITIAL, events);
      !Running(s.published.state) ==>
        && s.published.units == s.config.batch * l.batches
        && (s.published.state == Completed || s.published.state == Cancelled ==>
              && l.begun == l.batches
              && s.published.elapsed ==
                 if l.latest.Some? && l.startSet.Some? then l.latest.value - (l.startSet.value + 2000000) else 0)
  {
    ObservedHolds(events);
    var s, l := Execute(INITIAL, events), Observe(BLANK, INITIAL, events);
    hide Execute, Observe, IsRun, Inv, Noted;
    if !Running(s.published.state) {
      FinalFollows(s, l);
      if s.published.state == Completed || s.published.state == Cancelled {
        ErrorFree(s, l);
      }
    }
  }

  /** Neither a completed nor a cancelled run has recorded a failure. */
  lemma ErrorFree(s: State, l: Ledger)
    requires Inv(s) && Noted(s, l) && (s.published.state == Completed || s.published.state == Cancelled)
    ensures s.g.error == 0
  {
    RestIsJoined(s);
    assert PublishedOk(s) && ConclusionNoted(s, l);
    hide Inv, SumUnits, MaxElapsed, WorkersOk, TimesNoted, BatchesNoted, LatestNoted, WarmNoted, ShownNoted, AllJoined,
      FailuresNoted;
  }

  lemma RestIsJoined(s: State)
    requires Inv(s) && !Running(s.published.state)
    ensures s.coord == Idle && AllJoined(s.workers) && WorkersOk(s.g, s.workers)
  {
    hide WorkersOk, CountsOk, FailureOk, PhaseOk;
  }

  lemma NoneBroken(s: State, l: Ledger)
    requires BatchesNoted(s, l) && AllJoined(s.workers) && s.g.error == 0
    ensures l.broken == 0
  {
    hide SumLocal, InBatch;
  }

  lemma OutcomeFollows(s: State, l: Ledger)
    requires Inv(s) && Noted(s, l) && l.run && !Running(s.published.state)
    ensures Terminal(s.published.state) && (s.published.state == Error <==> s.published.error != 0)
    ensures s.g.error != 0 ==> s.published.error == s.g.error
    ensures s.g.error == 0 && s.published.error != 0 ==> s.published.error == -30 && s.published.units == 0
    ensures s.published.state == Cancelled ==> Asked(s)
    ensures if s.g.error != 0 then s.g.error in l.failures else l.failures == {}
  {
    RestIsJoined(s);
    NonePending(s);
    assert PublishedOk(s);
    hide Inv, SumUnits, MaxElapsed, WorkersOk, TimesNoted, BatchesNoted, LatestNoted, WarmNoted, ShownNoted, AllJoined;
  }

  lemma NonePending(s: State)
    requires s.coord == Idle && AllJoined(s.workers)
    ensures CoordPendingCode(s.coord) == 0 && !exists i | 0 <= i < |s.workers| :: Pending(s.workers[i])
  {
  }

  /** How a run that was started ends: with an error if anything failed, and then with the code of one of the failures,
      or with -30 if nothing failed but nothing was counted; with a cancellation only if somebody asked for a stop; and
      Completed if nothing failed, something was counted and nobody asked. */
  lemma OutcomeExactly(events: seq<Event>)
    requires IsRun(INITIAL, events)
    ensures
      var s, l := Execute(INITIAL, events), Observe(BLANK, INITIAL, events);
      l.run && !Running(s.published.state) ==>
        && Terminal(s.published.state) && (s.published.state == Error <==> s.published.error != 0)
        && (l.failures != {} ==> s.published.error in l.failures)
        && (l.failures == {} && s.published.error != 0 ==> s.published.error == -30 && s.published.units == 0)
        && (l.failures == {} && s.published.units > 0 && !s.control.userStopped && !s.control.destroyed ==>
              s.published.state == Completed)
  {
    ObservedHolds(events);
    var s, l := Execute(INITIAL, events), Observe(BLANK, INITIAL, events);
    hide Execute, Observe, IsRun, Inv, Noted;
    if l.run && !Running(s.published.state) {
      OutcomeFollows(s, l);
    }
  }

  lemma WarmUpFollows(s: State, l: Ledger)
    requires Noted(s, l)
    ensures l.startSet.Some? ==> l.warmSet.Some? && l.startSet.value >= l.warmSet.value + s.config.warmup
  {
    hide TimesNoted, BatchesNoted, LatestNoted, ConclusionNoted, ShownNoted;
  }

  /** The measured interval never starts before the whole warm-up time has passed since it was set. */
  lemma StartsAfterWarmUp(events: seq<Event>)
    requires IsRun(INITIAL, events)
    ensures
      var s, l := Execute(INITIAL, events), Observe(BLANK, INITIAL, events);
      l.startSet.Some? ==> l.warmSet.Some? && l.startSet.value >= l.warmSet.value + s.config.warmup
  {
    ObservedHolds(events);
    hide Execute, Observe, IsRun, Inv, Noted;
    WarmUpFollows(Execute(INITIAL, events), Observe(BLANK, INITIAL, events));
  }

  lemma ProgressFollows(s: State, l: Ledger, i: nat)
    requires Inv(s) && Noted(s, l) && Running(s.published.state)
    ensures s.published.state == Preparation <==> l.warmSet.None?
    ensures s.published.state != Preparation && i < |s.workers| ==> |s.workers| == s.config.total && s.workers[i].ready
    ensures s.published.state == Measuring && i < |s.workers| ==> s.workers[i].warmed
  {
    RunningIsBusy(s);
    hide WorkersOk, FailureOk, TallyOk, PublishedOk, TimesNoted, BatchesNoted, LatestNoted, ConclusionNoted, WarmNoted;
    CountAll(s.workers, IsReady);
    CountAll(s.workers, IsWarmed);
    if i < |s.workers| {
      assert s.workers[i].ready == Marked(s.workers[i], IsReady) && s.workers[i].warmed == Marked(s.workers[i], IsWarmed);
    }
  }

  lemma RunningIsBusy(s: State)
    requires Inv(s) && Running(s.published.state)
    ensures s.coord != Idle
  {
    hide WorkersOk, CountsOk, FailureOk, PhaseOk, CrewOk, TallyOk;
  }

  /** What a snapshot of a run going on tells: preparing until the warm-up's end is set; from then on every worker
      has been spawned and has announced itself; and measuring only when all have warmed up. */
  lemma ProgressClaims(events: seq<Event>, i: nat)
    requires IsRun(INITIAL, events)
    ensures
      var s, l := Execute(INITIAL, events), Observe(BLANK, INITIAL, events);
      Running(s.published.state) ==>
        && (s.published.state == Preparation <==> l.warmSet.None?)
        && (s.published.state != Preparation && i < |s.workers| ==> |s.workers| == s.config.total && s.workers[i].ready)
        && (s.published.state == Measuring && i < |s.workers| ==> s.workers[i].warmed)
  {
    ObservedHolds(events);
    var s, l := Execute(INITIAL, events), Observe(BLANK, INITIAL, events);
    hide Execute, Observe, IsRun, Inv, Noted;
    if Running(s.published.state) {
      ProgressFollows(s, l, i);
    }
  }

  /** The first failure recorded in a run is the one that stays. */
  lemma {:induction false} FirstErrorStays(s: State, events: seq<Event>)
    requires Inv(s) && IsRun(s, events) && NoRestart(events) && s.g.error != 0
    ensures Execute(s, events).g.error == s.g.error
    decreases |events|
  {
    hide Inv, Apply, Enabled;
    if events != [] {
      ErrorStays(s, events[0]);
      EventKeeps(s, events[0]);
      FirstErrorStays(Apply(s, events[0]), events[1..]);
    }
  }

  lemma ErrorStays(s: State, e: Event)
    requires Enabled(s, e) && !e.StartRun? && !e.StartFails? && s.g.error != 0
    ensures Apply(s, e).g.error == s.g.error
  {
    hide WorkerEffect, CoordApply;
    match e
    case WorkerStep(i, c) => EffectBatches(s.g, s.config.batch, s.workers[i], c);
    case CoordStep(c) => CoordParts(s, c);
    case _ =>
  }
}
