/** The start/warm-up/measure protocol of the CPU application engine (cpu_application_engine.cpp):
    N workers, a coordinator and stop requests, interleaved at every access to a shared variable.

    One event is one atomic access (or one stretch of thread-local work between two of them).
    `Apply` is the effect of an event; what the environment decides (a batch's correctness, an
    exception, the clock) is part of the event. */
module Gates {
  import opened Common

  // ---------------------------------------------------------------- program points

  datatype WorkerPc =
    | NotSpawned
    | Preparing        // untimed first batch and its validation
    | RejectError      // the first batch was wrong: record -30
    | RejectStop       //   ... and request stop
    | Announcing       // ready.fetch_add
    | AwaitWarm        // WaitPhase(1): load phase
    | AwaitWarmStop    //   phase too low: load stop
    | WarmReleased     //   phase reached: load stop
    | Warming          // warm-up loop: load stop
    | WarmClock        //   read warm_deadline
    | WarmBatch
    | WarmDone         // warm_done.fetch_add
    | AwaitTimed       // WaitPhase(2)
    | AwaitTimedStop
    | TimedReleased
    | StartStop        // spin until start: load stop
    | StartClock       //   read start
    | TimedStop        // timed loop: load stop
    | TimedClock       //   read deadline
    | TimedBatch
    | Recording        //   publish units
    | Closing          // publish elapsed
    | FailError(code: int)  // an exception: record its code
    | FailStop              //   ... and request stop
    | Finishing        // done.fetch_add
    | Finished

  datatype CoordPc =
    | Idle
    | Detect           // read the topology and select CPUs
    | BuildStop        // between workers: load stop
    | BuildWorker
    | CheckBuilt       // load stop
    | Spawn(next: nat)
    | AwaitReadyStop
    | AwaitReadyCount
    | CheckReady
    | WriteWarm        // warm_deadline :=
    | ReleaseWarm      // phase := 1
    | AwaitWarmDoneStop
    | AwaitWarmDoneCount
    | CheckWarm
    | WriteStart       // start :=
    | WriteDeadline    // deadline :=
    | ReleaseTimed     // phase := 2
    | AwaitDone
    | CoordFailError(failure: int)
    | CoordFailStop
    | Join
    | Collect(index: nat)
    | CollectError(index: nat)
    | CollectStop(index: nat)
    | ReadError
    | CheckEmpty       // first load of stop after the joins
    | Decide           // second load of stop
    | PublishFinal(outcome: RunState)

  datatype RunState = Resting | Preparation | WarmingUp | Measuring | Completed | Cancelled | Error

  predicate Running(r: RunState) {
    r == Preparation || r == WarmingUp || r == Measuring
  }

  /** `ready`, `warmed` and `failed` record which counters this worker has reached;
      `correct` says whether its latest output passes validation. */
  datatype Worker = Worker(pc: WorkerPc, local: nat, units: nat, elapsed: int, lastEnd: int,
                           ready: bool, warmed: bool, failed: bool, correct: bool)

  const NEW_WORKER := Worker(NotSpawned, 0, 0, 0, 0, false, false, false, true)

  datatype Snapshot = Snapshot(state: RunState, error: int, units: nat, elapsed: int)

  /** The variables workers and coordinator share, and the clock they read. */
  datatype Shared = Shared(ready: nat, warmDone: nat, done: nat, phase: nat, error: int, stop: bool,
                           warmDeadline: Option<int>, start: Option<int>, deadline: Option<int>, now: int)

  datatype Config = Config(total: nat, batch: nat, warmup: nat, duration: nat)

  /** What the coordinator gathers after the joins. */
  datatype Tally = Tally(units: nat, elapsed: int, validated: bool, code: int)

  /** What callers of the engine have asked: a stop request under way, one stored, the destruction. */
  datatype Control = Control(stopPending: bool, userStopped: bool, destroyed: bool)

  datatype State = State(coord: CoordPc, workers: seq<Worker>, g: Shared, config: Config, tally: Tally,
                         published: Snapshot, control: Control)

  /** What the environment decides in one step. `throws` is 0, or the code of the exception raised. */
  datatype Choice = Choice(throws: int, correct: bool)

  datatype Event =
    | StartRun(config: Config)
    | StartFails
    | StopAccepted     // RequestStop saw a running snapshot
    | StopStored
    | Destroy          // the engine's destructor requests stop, then joins the coordinator
    | Tick(amount: nat)
    | WorkerStep(i: nat, choice: Choice)
    | CoordStep(choice: Choice)

  // ---------------------------------------------------------------- stages of a worker

  predicate Early(pc: WorkerPc) {
    pc.NotSpawned? || pc.Preparing? || pc.RejectError? || pc.RejectStop? || pc.Announcing?
  }

  predicate AtPhase1(pc: WorkerPc) {
    pc.WarmReleased? || pc.Warming? || pc.WarmClock? || pc.WarmBatch? || pc.WarmDone?
  }

  predicate BeforeWarmed(pc: WorkerPc) {
    Early(pc) || pc.AwaitWarm? || pc.AwaitWarmStop? || AtPhase1(pc)
  }

  predicate AtPhase2(pc: WorkerPc) {
    pc.TimedReleased? || pc.StartStop? || pc.StartClock? || pc.TimedStop? || pc.TimedClock?
    || pc.TimedBatch? || pc.Recording? || pc.Closing?
  }

  /** A worker past the start instant, between a stop check that failed and the end of its batch. */
  predicate Timed(pc: WorkerPc) {
    pc.TimedClock? || pc.TimedBatch? || pc.Recording?
  }

  predicate Counting(pc: WorkerPc) {
    Timed(pc) || pc.TimedStop? || pc.Closing?
  }

  predicate Waiting(pc: WorkerPc) {
    pc.AwaitWarm? || pc.AwaitWarmStop? || pc.WarmReleased? || pc.AwaitTimed? || pc.AwaitTimedStop? || pc.TimedReleased?
  }

  predicate Spinning(pc: WorkerPc) {
    pc.StartStop? || pc.StartClock?
  }

  // ---------------------------------------------------------------- effects

  function Record(error: int, code: int): int {
    if error == 0 then code else error
  }

  const START_DELAY_NS := 2000000

  /** Up to the ready counter. */
  function PrepareEffect(g: Shared, w: Worker, c: Choice): (Shared, Worker) {
    match w.pc
    case Preparing =>
      (g, w.(pc := if c.throws != 0 then FailError(c.throws) else if c.correct then Announcing else RejectError,
             correct := c.correct))
    case RejectError => (g.(error := Record(g.error, -30)), w.(pc := RejectStop, failed := true))
    case RejectStop => (g.(stop := true), w.(pc := Announcing))
    case Announcing => (g.(ready := g.ready + 1), w.(pc := AwaitWarm, ready := true))
    case _ => (g, w)
  }

  /** WaitPhase(1) and WaitPhase(2). */
  function WaitEffect(g: Shared, w: Worker): (Shared, Worker) {
    match w.pc
    case AwaitWarm => (g, w.(pc := if g.phase < 1 then AwaitWarmStop else WarmReleased))
    case AwaitWarmStop => (g, w.(pc := if g.stop then Finishing else AwaitWarm))
    case WarmReleased => (g, w.(pc := if g.stop then Finishing else Warming))
    case AwaitTimed => (g, w.(pc := if g.phase < 2 then AwaitTimedStop else TimedReleased))
    case AwaitTimedStop => (g, w.(pc := if g.stop then Finishing else AwaitTimed))
    case TimedReleased => (g, w.(pc := if g.stop then Finishing else StartStop))
    case _ => (g, w)
  }

  /** The warm-up loop. */
  function WarmEffect(g: Shared, w: Worker, c: Choice): (Shared, Worker) {
    match w.pc
    case Warming => (g, w.(pc := if g.stop then WarmDone else WarmClock))
    case WarmClock =>
      (g, w.(pc := if g.warmDeadline.Some? && g.now < g.warmDeadline.value then WarmBatch else WarmDone))
    case WarmBatch =>
      (g, w.(pc := if c.throws != 0 then FailError(c.throws) else Warming, correct := c.correct))
    case WarmDone => (g.(warmDone := g.warmDone + 1), w.(pc := AwaitTimed, warmed := true))
    case _ => (g, w)
  }

  /** The spin until start. */
  function SpinEffect(g: Shared, w: Worker): (Shared, Worker) {
    match w.pc
    case StartStop => (g, w.(pc := if g.stop then TimedStop else StartClock))
    case StartClock => (g, w.(pc := if g.start.Some? && g.now < g.start.value then StartStop else TimedStop))
    case _ => (g, w)
  }

  /** The timed loop. */
  function TimedEffect(g: Shared, batch: nat, w: Worker, c: Choice): (Shared, Worker) {
    match w.pc
    case TimedStop => (g, w.(pc := if g.stop then Closing else TimedClock))
    case TimedClock =>
      (g, w.(pc := if g.deadline.Some? && g.now < g.deadline.value then TimedBatch else Closing))
    case TimedBatch =>
      if c.throws != 0 then (g, w.(pc := FailError(c.throws), correct := c.correct))
      else (g, w.(pc := Recording, local := w.local + batch, lastEnd := g.now, correct := c.correct))
    case Recording => (g, w.(pc := TimedStop, units := w.local))
    case Closing =>
      (g, w.(pc := Finishing, elapsed := if w.local == 0 || g.start.None? then 0 else w.lastEnd - g.start.value))
    case _ => (g, w)
  }

  /** The exception handlers and the done counter. */
  function EndEffect(g: Shared, w: Worker): (Shared, Worker) {
    match w.pc
    case FailError(code) => (g.(error := Record(g.error, code)), w.(pc := FailStop, failed := true))
    case FailStop => (g.(stop := true), w.(pc := Finishing))
    case Finishing => (g.(done := g.done + 1), w.(pc := Finished))
    case _ => (g, w)
  }

  /** One step of a worker: the shared variables and the worker afterwards. */
  function WorkerEffect(g: Shared, batch: nat, w: Worker, c: Choice): (Shared, Worker) {
    if Early(w.pc) then PrepareEffect(g, w, c)
    else if Waiting(w.pc) then WaitEffect(g, w)
    else if BeforeWarmed(w.pc) then WarmEffect(g, w, c)
    else if Spinning(w.pc) then SpinEffect(g, w)
    else if Counting(w.pc) then TimedEffect(g, batch, w, c)
    else EndEffect(g, w)
  }

  predicate AllJoined(ws: seq<Worker>) {
    forall i | 0 <= i < |ws| :: ws[i].pc == NotSpawned || ws[i].pc == Finished
  }

  function Goto(s: State, pc: CoordPc): State {
    s.(coord := pc)
  }

  function Write(s: State, pc: CoordPc, g: Shared): State {
    s.(coord := pc, g := g)
  }

  function Show(s: State, r: RunState): State {
    s.(published := s.published.(state := r))
  }

  /** The coordinator adds one worker to what it gathers. */
  function TallyWorker(t: Tally, w: Worker): Tally {
    Tally(t.units + w.units, Max(t.elapsed, w.elapsed), t.validated && (w.units == 0 || w.correct), t.code)
  }

  /** Selecting CPUs, building workers and starting their threads. */
  function AssembleApply(s: State, c: Choice): State {
    var n := |s.workers|;
    match s.coord
    case Detect =>
      if c.throws != 0 then Goto(s, CoordFailError(c.throws))
      else Goto(s, if s.config.total == 0 then CoordFailError(-10) else BuildStop)
    case BuildStop => Goto(s, if n == s.config.total || s.g.stop then CheckBuilt else BuildWorker)
    case BuildWorker =>
      if c.throws != 0 then Goto(s, CoordFailError(c.throws))
      else s.(coord := BuildStop, workers := s.workers + [NEW_WORKER])
    case CheckBuilt => Goto(s, if s.g.stop then Join else Spawn(0))
    case Spawn(k) =>
      if k >= n then Goto(s, AwaitReadyStop)
      else if c.throws != 0 then Goto(s, CoordFailError(c.throws))
      else s.(coord := Spawn(k + 1), workers := s.workers[k := s.workers[k].(pc := Preparing)])
    case _ => s
  }

  /** Waiting for all workers to be ready, then releasing the warm-up. */
  function WarmApply(s: State, c: Choice): State {
    var n := |s.workers|;
    match s.coord
    case AwaitReadyStop => Goto(s, if s.g.stop then CheckReady else AwaitReadyCount)
    case AwaitReadyCount => Goto(s, if s.g.ready < n then AwaitReadyStop else CheckReady)
    case CheckReady => Goto(s, if s.g.stop then CheckWarm else WriteWarm)
    case WriteWarm =>
      if c.throws != 0 then Goto(s, CoordFailError(c.throws))
      else Write(Show(s, WarmingUp), ReleaseWarm, s.g.(warmDeadline := Some(s.g.now + s.config.warmup)))
    case ReleaseWarm => Write(s, AwaitWarmDoneStop, s.g.(phase := 1))
    case AwaitWarmDoneStop => Goto(s, if s.g.stop then CheckWarm else AwaitWarmDoneCount)
    case AwaitWarmDoneCount => Goto(s, if s.g.warmDone < n then AwaitWarmDoneStop else CheckWarm)
    case CheckWarm => Goto(s, if s.g.stop then Join else WriteStart)
    case _ => s
  }

  /** Publishing the interval and watching the measurement. */
  function MeasureApply(s: State, c: Choice): State {
    var n := |s.workers|;
    match s.coord
    case WriteStart => Write(s, WriteDeadline, s.g.(start := Some(s.g.now + START_DELAY_NS)))
    case WriteDeadline =>
      Write(s, ReleaseTimed,
            s.g.(deadline := if s.g.start.Some? then Some(s.g.start.value + s.config.duration) else None))
    case ReleaseTimed => Write(s, AwaitDone, s.g.(phase := 2))
    case AwaitDone =>
      if s.g.done >= n then Goto(s, Join)
      else if c.throws != 0 then Goto(s, CoordFailError(c.throws))
      else Show(s, Measuring)
    case CoordFailError(code) => Write(s, CoordFailStop, s.g.(error := Record(s.g.error, code)))
    case CoordFailStop => Write(s, Join, s.g.(stop := true))
    case _ => s
  }

  /** Validating and adding up after the joins. */
  function GatherApply(s: State, c: Choice): State {
    var n := |s.workers|;
    match s.coord
    case Join => s.(coord := Collect(0), tally := Tally(0, 0, n != 0, 0))
    case Collect(k) =>
      if k >= n then Goto(s, ReadError)
      else
        s.(tally := TallyWorker(s.tally, s.workers[k]),
           coord := if s.workers[k].units != 0 && !s.workers[k].correct then CollectError(k) else Collect(k + 1))
    case CollectError(k) => Write(s, CollectStop(k), s.g.(error := Record(s.g.error, -30)))
    case CollectStop(k) => Write(s, Collect(k + 1), s.g.(stop := true))
    case _ => s
  }

  /** The terminal snapshot. */
  function FinishApply(s: State, c: Choice): State {
    match s.coord
    case ReadError => s.(coord := CheckEmpty, tally := s.tally.(code := s.g.error))
    case CheckEmpty =>
      s.(coord := Decide,
         tally := if !s.g.stop && (!s.tally.validated || s.tally.units == 0) then s.tally.(code := -30) else s.tally)
    case Decide =>
      Goto(s, PublishFinal(if s.tally.code != 0 then Error else if s.g.stop then Cancelled else Completed))
    case PublishFinal(r) =>
      s.(coord := Idle, published := Snapshot(r, s.tally.code, s.tally.units, s.tally.elapsed))
    case _ => s
  }

  predicate Assembling(pc: CoordPc) {
    pc.Detect? || pc.BuildStop? || pc.BuildWorker? || pc.CheckBuilt? || pc.Spawn?
  }

  predicate Releasing(pc: CoordPc) {
    pc.AwaitReadyStop? || pc.AwaitReadyCount? || pc.CheckReady? || pc.WriteWarm? || pc.ReleaseWarm?
    || pc.AwaitWarmDoneStop? || pc.AwaitWarmDoneCount? || pc.CheckWarm?
  }

  predicate Gathering(pc: CoordPc) {
    pc.Join? || pc.Collect? || pc.CollectError? || pc.CollectStop?
  }

  predicate Concluding(pc: CoordPc) {
    pc.ReadError? || pc.CheckEmpty? || pc.Decide? || pc.PublishFinal?
  }

  function CoordApply(s: State, c: Choice): State {
    if Assembling(s.coord) then AssembleApply(s, c)
    else if Releasing(s.coord) then WarmApply(s, c)
    else if Gathering(s.coord) then GatherApply(s, c)
    else if Concluding(s.coord) then FinishApply(s, c)
    else MeasureApply(s, c)
  }

  const NO_SHARED := Shared(0, 0, 0, 0, 0, false, None, None, None, 0)

  /** A fresh run: the previous coordinator thread has been joined, so nothing of it is left. */
  function StartApply(s: State, config: Config): State {
    State(Detect, [], NO_SHARED.(now := s.g.now), config, Tally(0, 0, false, 0), Snapshot(Preparation, 0, 0, 0),
          Control(false, false, s.control.destroyed))
  }

  predicate WorkerThrow(code: int) {
    code == 0 || code == -31 || code == -32
  }

  predicate CoordThrow(code: int) {
    code == 0 || code == -10 || code == -11 || code == -31 || code == -32
  }

  predicate WorkerCanStep(s: State, i: nat, c: Choice) {
    i < |s.workers| && !s.workers[i].pc.NotSpawned? && !s.workers[i].pc.Finished? && WorkerThrow(c.throws)
  }

  predicate CoordCanStep(s: State, c: Choice) {
    s.coord != Idle && CoordThrow(c.throws) && (s.coord == Join ==> AllJoined(s.workers))
  }

  predicate CanStart(s: State) {
    s.coord == Idle && !Running(s.published.state) && !s.control.stopPending && !s.control.destroyed
  }

  /** When an event can happen. Start and RequestStop hold one mutex, so neither runs inside the other. */
  predicate Enabled(s: State, e: Event) {
    match e
    case StartRun(config) => CanStart(s) && config.batch > 0
    case StartFails => CanStart(s)
    case StopAccepted => Running(s.published.state) && !s.control.stopPending
    case StopStored => s.control.stopPending
    case Destroy => !s.control.destroyed
    case Tick(_) => true
    case WorkerStep(i, c) => WorkerCanStep(s, i, c)
    case CoordStep(c) => CoordCanStep(s, c)
  }

  function WorkerApply(s: State, i: nat, c: Choice): State
    requires i < |s.workers|
  {
    var (g, w) := WorkerEffect(s.g, s.config.batch, s.workers[i], c);
    s.(g := g, workers := s.workers[i := w])
  }

  function Apply(s: State, e: Event): State
    requires Enabled(s, e)
  {
    match e
    case StartRun(config) => StartApply(s, config)
    case StartFails =>
      s.(workers := [], g := NO_SHARED.(now := s.g.now), control := s.control.(userStopped := false),
         published := Snapshot(Error, -11, 0, 0))
    case StopAccepted => s.(control := s.control.(stopPending := true))
    case StopStored => s.(control := s.control.(stopPending := false, userStopped := true), g := s.g.(stop := true))
    case Destroy => s.(control := s.control.(destroyed := true), g := s.g.(stop := true))
    case Tick(amount) => s.(g := s.g.(now := s.g.now + amount))
    case WorkerStep(i, c) => WorkerApply(s, i, c)
    case CoordStep(c) => CoordApply(s, c)
  }

  const INITIAL := State(Idle, [], NO_SHARED, Config(0, 1, 0, 0), Tally(0, 0, false, 0), Snapshot(Resting, 0, 0, 0),
                         Control(false, false, false))

  /** Every event happens when it is enabled. */
  predicate IsRun(s: State, events: seq<Event>)
    decreases |events|
  {
    events == [] || (Enabled(s, events[0]) && IsRun(Apply(s, events[0]), events[1..]))
  }

  function Execute(s: State, events: seq<Event>): State
    requires IsRun(s, events)
    decreases |events|
  {
    if events == [] then s else Execute(Apply(s, events[0]), events[1..])
  }

  // ---------------------------------------------------------------- the invariant

  datatype Mark = IsReady | IsWarmed | IsFinished

  predicate Marked(w: Worker, m: Mark) {
    match m
    case IsReady => w.ready
    case IsWarmed => w.warmed
    case IsFinished => w.pc.Finished?
  }

  function Count(ws: seq<Worker>, m: Mark): nat {
    if ws == [] then 0 else Count(ws[..|ws| - 1], m) + if Marked(ws[|ws| - 1], m) then 1 else 0
  }

  function SumUnits(ws: seq<Worker>): nat {
    if ws == [] then 0 else SumUnits(ws[..|ws| - 1]) + ws[|ws| - 1].units
  }

  function MaxElapsed(ws: seq<Worker>): int {
    if ws == [] then 0 else Max(MaxElapsed(ws[..|ws| - 1]), ws[|ws| - 1].elapsed)
  }

  predicate Stopping(pc: WorkerPc) {
    pc.RejectStop? || pc.FailStop?
  }

  predicate FlagsOk(g: Shared, w: Worker) {
    && (Early(w.pc) ==> !w.ready)
    && (BeforeWarmed(w.pc) ==> !w.warmed)
    && (w.failed || Stopping(w.pc) ==> g.error != 0)
    && (w.pc.FailError? ==> w.pc.code != 0)
    && (w.pc.FailStop? ==> w.failed)
  }

  predicate StageOk(g: Shared, w: Worker) {
    && (AtPhase1(w.pc) ==> g.phase >= 1)
    && (AtPhase2(w.pc) ==> g.phase >= 2)
    && (Timed(w.pc) ==> g.start.Some? && g.now >= g.start.value)
    && (w.pc.TimedStop? ==> g.stop || (g.start.Some? && g.now >= g.start.value))
  }

  /** Units are counted only after the common start, and elapsed time ends with the last counted batch. */
  predicate UnitsOk(g: Shared, w: Worker) {
    && (w.local > 0 ==> g.phase >= 2 && g.start.Some? && w.lastEnd >= g.start.value)
    && (w.local > 0 ==> Counting(w.pc) || w.pc.FailError? || w.pc.FailStop? || Ending(w.pc))
    && (!w.pc.Recording? ==> w.units == w.local)
    && (Ending(w.pc) && !w.failed && w.local > 0 ==> w.elapsed == w.lastEnd - g.start.value)
    && (w.elapsed != 0 ==> w.local > 0 && Ending(w.pc) && w.elapsed == w.lastEnd - g.start.value)
  }

  /** What holds of one worker, given the shared variables. */
  predicate WorkerOk(g: Shared, w: Worker) {
    FlagsOk(g, w) && StageOk(g, w) && UnitsOk(g, w)
  }

  predicate Ending(pc: WorkerPc) {
    pc.Finishing? || pc.Finished?
  }

  predicate NoneSpawned(ws: seq<Worker>) {
    forall i | 0 <= i < |ws| :: ws[i].pc.NotSpawned?
  }

  predicate SpawnedUpTo(ws: seq<Worker>, k: nat) {
    k <= |ws| && forall i | 0 <= i < |ws| :: ws[i].pc.NotSpawned? <==> k <= i
  }

  /** Every selected CPU has a worker, and every worker a thread. */
  predicate AllSpawned(s: State) {
    |s.workers| == s.config.total && s.config.total > 0 && SpawnedUpTo(s.workers, s.config.total)
  }

  predicate BeforeRelease(pc: CoordPc) {
    pc.Detect? || pc.BuildStop? || pc.BuildWorker? || pc.CheckBuilt? || pc.Spawn?
    || pc.AwaitReadyStop? || pc.AwaitReadyCount? || pc.CheckReady? || pc.WriteWarm? || pc.ReleaseWarm?
  }

  predicate InPhase1(pc: CoordPc) {
    pc.AwaitWarmDoneStop? || pc.AwaitWarmDoneCount? || pc.WriteStart? || pc.WriteDeadline? || pc.ReleaseTimed?
  }

  predicate AfterSpawn(pc: CoordPc) {
    pc.AwaitReadyStop? || pc.AwaitReadyCount? || pc.CheckReady? || pc.WriteWarm? || pc.ReleaseWarm?
    || InPhase1(pc) || pc.CheckWarm? || pc.AwaitDone?
  }

  predicate Collecting(pc: CoordPc) {
    pc.Collect? || pc.CollectError? || pc.CollectStop? || pc.ReadError? || pc.CheckEmpty? || pc.Decide? || pc.PublishFinal?
  }

  predicate AfterJoin(pc: CoordPc) {
    Collecting(pc) || pc.Idle?
  }

  /** Which workers exist and run, by the coordinator's program point. */
  predicate CrewOk(s: State) {
    && (s.coord.Detect? ==> s.workers == [])
    && (s.coord.BuildStop? || s.coord.BuildWorker? || s.coord.CheckBuilt? ==>
          s.config.total > 0 && |s.workers| <= s.config.total && NoneSpawned(s.workers))
    && (s.coord.BuildWorker? ==> |s.workers| < s.config.total)
    && (s.coord.CheckBuilt? && !s.g.stop ==> |s.workers| == s.config.total)
    && (s.coord.Spawn? ==> s.config.total == |s.workers| > 0 && SpawnedUpTo(s.workers, s.coord.next))
    && (AfterSpawn(s.coord) || s.g.phase >= 1 ==> AllSpawned(s))
    && (AfterJoin(s.coord) ==> AllJoined(s.workers))
  }

  /** What has been written and counted, by the coordinator's program point. */
  predicate PhaseOk(coord: CoordPc, g: Shared, n: nat) {
    && g.phase <= 2
    && (BeforeRelease(coord) ==> g.phase == 0)
    && (InPhase1(coord) ==> g.phase == 1)
    && (coord.CheckWarm? ==> g.phase <= 1)
    && (coord.AwaitDone? ==> g.phase == 2)
    && (coord.CheckReady? && !g.stop ==> g.ready == n)
    && (coord.WriteWarm? || coord.ReleaseWarm? ==> g.ready == n)
    && (coord.ReleaseWarm? ==> g.warmDeadline.Some?)
    && (g.phase >= 1 ==> g.warmDeadline.Some? && g.ready == n)
    && (coord.CheckWarm? && !g.stop ==> g.phase == 1 && g.warmDone == n)
    && (coord.WriteStart? || coord.WriteDeadline? || coord.ReleaseTimed? ==> g.warmDone == n)
    && (coord.WriteDeadline? || coord.ReleaseTimed? ==> g.start.Some?)
    && (coord.ReleaseTimed? ==> g.deadline.Some?)
    && (g.phase >= 2 ==> g.warmDone == n && g.start.Some? && g.deadline.Some?)
    && ((coord.Join? || Collecting(coord)) && !g.stop ==> g.phase == 2)
  }

  /** Somebody has recorded an error and not yet requested stop. */
  predicate StopOwed(s: State) {
    s.coord.CoordFailStop? || s.coord.CollectStop?
    || exists i | 0 <= i < |s.workers| :: Stopping(s.workers[i].pc)
  }

  /** A stop that is nobody's failure: a user's, or the destructor's. */
  predicate Asked(s: State) {
    s.control.userStopped || s.control.destroyed
  }

  /** Failures are recorded before stop is requested, and nothing else requests it unasked. */
  predicate FailureOk(s: State) {
    && (s.g.error != 0 ==> s.g.stop || StopOwed(s))
    && (s.g.stop ==> Asked(s) || s.g.error != 0)
    && (s.coord.CoordFailStop? || s.coord.CollectStop? ==> s.g.error != 0)
    && (s.coord.CoordFailError? ==> s.coord.failure != 0)
  }

  /** The first k workers tallied. */
  predicate Tallied(t: Tally, ws: seq<Worker>, k: nat) {
    && k <= |ws|
    && t.units == SumUnits(ws[..k])
    && t.elapsed == MaxElapsed(ws[..k])
    && (t.validated <==> |ws| != 0 && forall i | 0 <= i < k :: ws[i].units == 0 || ws[i].correct)
  }

  predicate TallyOk(s: State) {
    var n := |s.workers|;
    match s.coord
    case Collect(k) => Tallied(s.tally, s.workers, k)
    case CollectError(k) => k < n && Tallied(s.tally, s.workers, k + 1)
    case CollectStop(k) => k < n && Tallied(s.tally, s.workers, k + 1)
    case ReadError => Tallied(s.tally, s.workers, n)
    case CheckEmpty => Tallied(s.tally, s.workers, n) && s.tally.code == s.g.error
    case Decide =>
      Tallied(s.tally, s.workers, n)
      && (s.g.error != 0 ==> s.tally.code != 0)
      && (s.tally.code == 0 ==> s.g.stop || (s.tally.validated && s.tally.units > 0))
    case PublishFinal(r) =>
      && Tallied(s.tally, s.workers, n)
      && (r == Completed || r == Cancelled || r == Error)
      && (r == Error <==> s.tally.code != 0)
      && (r != Error ==> s.g.error == 0)
      && (r == Completed ==> s.g.phase == 2 && s.tally.validated && s.tally.units > 0)
      && (r == Cancelled ==> Asked(s))
    case _ => true
  }

  /** What a Completed snapshot claims about the workers it was computed from. */
  predicate Complete(g: Shared, ws: seq<Worker>, total: nat, p: Snapshot) {
    && p.error == 0 && g.error == 0
    && p.units == SumUnits(ws) > 0
    && p.elapsed == MaxElapsed(ws)
    && g.start.Some? && |ws| == total && total > 0
    && forall i | 0 <= i < |ws| :: Contributed(g, ws[i])
  }

  /** A worker of a completed run: done, warmed up, and if it counted any units their output was right
      and its elapsed time runs from the common start to the end of its last counted batch. */
  predicate Contributed(g: Shared, w: Worker) {
    && w.pc.Finished? && w.warmed && !w.failed
    && (w.units > 0 ==> w.correct && g.start.Some? && w.elapsed == w.lastEnd - g.start.value >= 0)
  }

  predicate PublishedOk(s: State) {
    && (s.coord == Idle <==> !Running(s.published.state))
    && (s.published.state == Completed ==> Complete(s.g, s.workers, s.config.total, s.published))
    && (s.published.state == Cancelled ==> s.published.error == 0 && Asked(s))
    && (s.published.state == Error ==> s.published.error != 0)
  }

  predicate CountsOk(g: Shared, ws: seq<Worker>) {
    g.ready == Count(ws, IsReady) && g.warmDone == Count(ws, IsWarmed) && g.done == Count(ws, IsFinished)
  }

  predicate WorkersOk(g: Shared, ws: seq<Worker>) {
    forall i | 0 <= i < |ws| :: WorkerOk(g, ws[i])
  }

  predicate Inv(s: State) {
    && s.config.batch > 0 && CountsOk(s.g, s.workers) && WorkersOk(s.g, s.workers) && CrewOk(s)
    && PhaseOk(s.coord, s.g, |s.workers|) && FailureOk(s) && TallyOk(s) && PublishedOk(s)
  }

  // ---------------------------------------------------------------- counting

  lemma {:induction false} CountUpdate(ws: seq<Worker>, i: nat, w: Worker, m: Mark)
    requires i < |ws|
    ensures Count(ws[i := w], m) == Count(ws, m) - (if Marked(ws[i], m) then 1 else 0) + (if Marked(w, m) then 1 else 0)
    decreases |ws|
  {
    hide Marked;
    var last := |ws| - 1;
    if i < last {
      CountUpdate(ws[..last], i, w, m);
      assert ws[i := w][..last] == ws[..last][i := w];
    } else {
      assert ws[i := w][..last] == ws[..last];
    }
  }

  lemma {:induction false} CountAll(ws: seq<Worker>, m: Mark)
    ensures Count(ws, m) <= |ws|
    ensures Count(ws, m) == |ws| ==> forall i | 0 <= i < |ws| :: Marked(ws[i], m)
  {
    hide Marked;
    if ws != [] {
      CountAll(ws[..|ws| - 1], m);
    }
  }

  lemma CountAppend(ws: seq<Worker>, w: Worker, m: Mark)
    ensures Count(ws + [w], m) == Count(ws, m) + if Marked(w, m) then 1 else 0
  {
    assert (ws + [w])[..|ws|] == ws;
  }

  // ---------------------------------------------------------------- every worker step keeps it

  /** The only ways a worker changes the shared variables. */
  predicate Grows(g: Shared, g': Shared) {
    && g'.phase == g.phase && g'.warmDeadline == g.warmDeadline && g'.start == g.start && g'.deadline == g.deadline
    && g'.now == g.now
    && (g.stop ==> g'.stop) && (g.error != 0 ==> g'.error == g.error)
  }

  /** What one step of one worker may do to the shared variables. */
  predicate GoodShared(g: Shared, w: Worker, g': Shared, w': Worker) {
    && Grows(g, g')
    && g'.ready == g.ready + (if w'.ready then 1 else 0) - (if w.ready then 1 else 0)
    && g'.warmDone == g.warmDone + (if w'.warmed then 1 else 0) - (if w.warmed then 1 else 0)
    && g'.done == g.done + (if w'.pc.Finished? then 1 else 0) - (if w.pc.Finished? then 1 else 0)
    && (w'.pc.NotSpawned? <==> w.pc.NotSpawned?)
    && (w.ready ==> w'.ready) && (w.warmed ==> w'.warmed)
    && (g'.error != 0 ==> g.error != 0 || Stopping(w'.pc))
    && (Stopping(w.pc) ==> g'.stop)
    && (g'.stop ==> g.stop || g.error != 0)
  }

  predicate GoodStep(g: Shared, w: Worker, g': Shared, w': Worker) {
    GoodShared(g, w, g', w') && WorkerOk(g', w')
  }

  lemma PrepareGood(g: Shared, w: Worker, c: Choice)
    requires WorkerOk(g, w) && Early(w.pc)
    ensures var (g', w') := PrepareEffect(g, w, c); GoodStep(g, w, g', w')
  {
  }

  lemma WaitShared(g: Shared, w: Worker)
    requires WorkerOk(g, w) && Waiting(w.pc)
    ensures var (g', w') := WaitEffect(g, w); GoodShared(g, w, g', w')
  {
  }

  lemma WaitFlags(g: Shared, w: Worker)
    requires WorkerOk(g, w) && Waiting(w.pc)
    ensures var (g', w') := WaitEffect(g, w); FlagsOk(g', w')
  {
    hide StageOk, UnitsOk;
  }

  lemma WaitStage(g: Shared, w: Worker)
    requires WorkerOk(g, w) && Waiting(w.pc)
    ensures var (g', w') := WaitEffect(g, w); StageOk(g', w')
  {
    hide FlagsOk, UnitsOk;
  }

  lemma WaitUnits(g: Shared, w: Worker)
    requires WorkerOk(g, w) && Waiting(w.pc)
    ensures var (g', w') := WaitEffect(g, w); UnitsOk(g', w')
  {
  }

  lemma WaitGood(g: Shared, w: Worker)
    requires WorkerOk(g, w) && Waiting(w.pc)
    ensures var (g', w') := WaitEffect(g, w); GoodStep(g, w, g', w')
  {
    WaitShared(g, w);
    WaitFlags(g, w);
    WaitStage(g, w);
    WaitUnits(g, w);
    hide WaitEffect, GoodShared, FlagsOk, StageOk, UnitsOk;
  }

  lemma WarmShared(g: Shared, w: Worker, c: Choice)
    requires WorkerOk(g, w) && BeforeWarmed(w.pc) && !Early(w.pc) && !Waiting(w.pc)
    ensures var (g', w') := WarmEffect(g, w, c); GoodShared(g, w, g', w')
  {
  }

  lemma WarmFlags(g: Shared, w: Worker, c: Choice)
    requires WorkerOk(g, w) && BeforeWarmed(w.pc) && !Early(w.pc) && !Waiting(w.pc)
    ensures var (g', w') := WarmEffect(g, w, c); FlagsOk(g', w') && StageOk(g', w')
  {
  }

  lemma WarmUnits(g: Shared, w: Worker, c: Choice)
    requires WorkerOk(g, w) && BeforeWarmed(w.pc) && !Early(w.pc) && !Waiting(w.pc)
    ensures var (g', w') := WarmEffect(g, w, c); UnitsOk(g', w')
  {
  }

  lemma WarmGood(g: Shared, w: Worker, c: Choice)
    requires WorkerOk(g, w) && BeforeWarmed(w.pc) && !Early(w.pc) && !Waiting(w.pc)
    ensures var (g', w') := WarmEffect(g, w, c); GoodStep(g, w, g', w')
  {
    WarmShared(g, w, c);
    WarmFlags(g, w, c);
    WarmUnits(g, w, c);
    hide WarmEffect, GoodShared, FlagsOk, StageOk, UnitsOk;
  }

  lemma SpinGood(g: Shared, w: Worker)
    requires WorkerOk(g, w) && Spinning(w.pc) && (g.phase >= 2 ==> g.start.Some?)
    ensures var (g', w') := SpinEffect(g, w); GoodStep(g, w, g', w')
  {
  }

  lemma TimedShared(g: Shared, batch: nat, w: Worker, c: Choice)
    requires WorkerOk(g, w) && Counting(w.pc) && (g.phase >= 2 ==> g.start.Some?)
    ensures var (g', w') := TimedEffect(g, batch, w, c); GoodShared(g, w, g', w')
  {
  }

  lemma TimedFlags(g: Shared, batch: nat, w: Worker, c: Choice)
    requires WorkerOk(g, w) && Counting(w.pc) && (g.phase >= 2 ==> g.start.Some?)
    ensures var (g', w') := TimedEffect(g, batch, w, c); FlagsOk(g', w')
  {
    hide StageOk, UnitsOk;
  }

  lemma TimedStage(g: Shared, batch: nat, w: Worker, c: Choice)
    requires WorkerOk(g, w) && Counting(w.pc) && (g.phase >= 2 ==> g.start.Some?)
    ensures var (g', w') := TimedEffect(g, batch, w, c); StageOk(g', w')
  {
    hide FlagsOk, UnitsOk;
  }

  lemma TimedUnits(g: Shared, batch: nat, w: Worker, c: Choice)
    requires WorkerOk(g, w) && Counting(w.pc) && (g.phase >= 2 ==> g.start.Some?)
    ensures var (g', w') := TimedEffect(g, batch, w, c); UnitsOk(g', w')
  {
  }

  lemma TimedGood(g: Shared, batch: nat, w: Worker, c: Choice)
    requires WorkerOk(g, w) && Counting(w.pc) && (g.phase >= 2 ==> g.start.Some?)
    ensures var (g', w') := TimedEffect(g, batch, w, c); GoodStep(g, w, g', w')
  {
    TimedShared(g, batch, w, c);
    TimedFlags(g, batch, w, c);
    TimedStage(g, batch, w, c);
    TimedUnits(g, batch, w, c);
    hide TimedEffect, GoodShared, FlagsOk, StageOk, UnitsOk;
  }

  lemma EndGood(g: Shared, w: Worker)
    requires WorkerOk(g, w) && (w.pc.FailError? || w.pc.FailStop? || Ending(w.pc))
    ensures var (g', w') := EndEffect(g, w); GoodStep(g, w, g', w')
  {
  }

  lemma EffectGood(g: Shared, batch: nat, w: Worker, c: Choice)
    requires WorkerOk(g, w) && (g.phase >= 2 ==> g.start.Some?)
    ensures var (g', w') := WorkerEffect(g, batch, w, c); GoodStep(g, w, g', w')
  {
    hide PrepareEffect, WaitEffect, WarmEffect, SpinEffect, TimedEffect, EndEffect, WorkerOk, GoodStep;
    if Early(w.pc) {
      PrepareGood(g, w, c);
    } else if Waiting(w.pc) {
      WaitGood(g, w);
    } else if BeforeWarmed(w.pc) {
      WarmGood(g, w, c);
    } else if Spinning(w.pc) {
      SpinGood(g, w);
    } else if Counting(w.pc) {
      TimedGood(g, batch, w, c);
    } else {
      EndGood(g, w);
    }
  }

  lemma OthersOk(g: Shared, g': Shared, w: Worker)
    requires WorkerOk(g, w) && Grows(g, g')
    ensures WorkerOk(g', w)
  {
  }

  lemma WorkerStepCounts(s: State, i: nat, c: Choice)
    requires Inv(s) && WorkerCanStep(s, i, c)
    ensures CountsOk(WorkerApply(s, i, c).g, WorkerApply(s, i, c).workers)
    ensures PhaseOk(s.coord, WorkerApply(s, i, c).g, |s.workers|)
  {
    hide FailureOk, TallyOk, PublishedOk, CrewOk, WorkerEffect, FlagsOk, StageOk, UnitsOk;
    var (g', w') := WorkerEffect(s.g, s.config.batch, s.workers[i], c);
    EffectGood(s.g, s.config.batch, s.workers[i], c);
    CountUpdate(s.workers, i, w', IsReady);
    CountUpdate(s.workers, i, w', IsWarmed);
    CountUpdate(s.workers, i, w', IsFinished);
    CountAll(s.workers, IsReady);
    CountAll(s.workers, IsWarmed);
    CountAll(s.workers[i := w'], IsReady);
    CountAll(s.workers[i := w'], IsWarmed);
    if g'.ready != s.g.ready {
      assert w'.ready && !s.workers[i].ready;
      assert s.g.ready != |s.workers|;
    }
    if g'.warmDone != s.g.warmDone {
      assert w'.warmed && !s.workers[i].warmed;
      assert s.g.warmDone != |s.workers|;
    }
  }

  lemma WorkerStepWorkers(s: State, i: nat, c: Choice)
    requires Inv(s) && WorkerCanStep(s, i, c)
    ensures WorkersOk(WorkerApply(s, i, c).g, WorkerApply(s, i, c).workers)
  {
    hide FailureOk, TallyOk, PublishedOk, CrewOk, CountsOk, WorkerEffect, WorkerOk, PhaseOk;
    var t := WorkerApply(s, i, c);
    EffectGood(s.g, s.config.batch, s.workers[i], c) by { StartBeforePhase2(s); }
    forall j | 0 <= j < |t.workers| ensures WorkerOk(t.g, t.workers[j]) {
      if j != i {
        OthersOk(s.g, t.g, s.workers[j]);
      }
    }
  }

  lemma StartBeforePhase2(s: State)
    requires Inv(s)
    ensures s.g.phase >= 2 ==> s.g.start.Some?
  {
  }

  /** While a worker can step, the coordinator has not joined it. */
  lemma WorkerStepCrew(s: State, i: nat, c: Choice)
    requires Inv(s) && WorkerCanStep(s, i, c)
    ensures !AfterJoin(s.coord) && CrewOk(WorkerApply(s, i, c))
  {
    hide FailureOk, TallyOk, PublishedOk, CountsOk, WorkersOk, PhaseOk, WorkerEffect, FlagsOk, StageOk, UnitsOk;
    var (g', w') := WorkerEffect(s.g, s.config.batch, s.workers[i], c);
    EffectGood(s.g, s.config.batch, s.workers[i], c) by { StartBeforePhase2(s); OneWorkerOk(s, i); }
    var t := WorkerApply(s, i, c);
    assert forall j | 0 <= j < |t.workers| :: t.workers[j].pc.NotSpawned? <==> s.workers[j].pc.NotSpawned?;
  }

  lemma OneWorkerOk(s: State, i: nat)
    requires Inv(s) && i < |s.workers|
    ensures WorkerOk(s.g, s.workers[i])
  {
  }

  lemma WorkerStepFailure(s: State, i: nat, c: Choice)
    requires Inv(s) && WorkerCanStep(s, i, c)
    ensures FailureOk(WorkerApply(s, i, c))
  {
    hide TallyOk, PublishedOk, CountsOk, CrewOk, WorkersOk, PhaseOk, WorkerEffect, WorkerOk;
    var (g', w') := WorkerEffect(s.g, s.config.batch, s.workers[i], c);
    EffectGood(s.g, s.config.batch, s.workers[i], c) by { StartBeforePhase2(s); OneWorkerOk(s, i); }
    var t := WorkerApply(s, i, c);
    assert t.workers[i] == w';
    if g'.error != 0 && !g'.stop && !s.coord.CoordFailStop? && !s.coord.CollectStop? && !Stopping(w'.pc) {
      var j :| 0 <= j < |s.workers| && Stopping(s.workers[j].pc);
      assert t.workers[j] == s.workers[j];
    }
  }

  lemma WorkerStepKeeps(s: State, i: nat, c: Choice)
    requires Inv(s) && WorkerCanStep(s, i, c)
    ensures Inv(WorkerApply(s, i, c))
  {
    WorkerStepCounts(s, i, c);
    WorkerStepWorkers(s, i, c);
    WorkerStepCrew(s, i, c);
    WorkerStepFailure(s, i, c);
    hide CountsOk, WorkersOk, CrewOk, FailureOk, PhaseOk, WorkerEffect, Complete, Tallied;
  }

  // ---------------------------------------------------------------- every coordinator step keeps it

  lemma SpawnOneKeeps(s: State, k: nat)
    requires Inv(s) && s.coord == Spawn(k) && k < |s.workers|
    ensures
      var ws := s.workers[k := s.workers[k].(pc := Preparing)];
      WorkersOk(s.g, ws) && CountsOk(s.g, ws) && SpawnedUpTo(ws, k + 1)
      && (forall i | 0 <= i < |ws| :: Stopping(ws[i].pc) == Stopping(s.workers[i].pc))
  {
    hide TallyOk, PublishedOk, FailureOk;
    var w := s.workers[k].(pc := Preparing);
    CountUpdate(s.workers, k, w, IsReady);
    CountUpdate(s.workers, k, w, IsWarmed);
    CountUpdate(s.workers, k, w, IsFinished);
    assert WorkerOk(s.g, s.workers[k]);
    assert WorkerOk(s.g, w);
  }

  lemma BuildOneKeeps(s: State)
    requires Inv(s) && s.coord == BuildWorker
    ensures
      var ws := s.workers + [NEW_WORKER];
      WorkersOk(s.g, ws) && CountsOk(s.g, ws) && NoneSpawned(ws)
  {
    hide TallyOk, PublishedOk, FailureOk;
    CountAppend(s.workers, NEW_WORKER, IsReady);
    CountAppend(s.workers, NEW_WORKER, IsWarmed);
    CountAppend(s.workers, NEW_WORKER, IsFinished);
    assert WorkerOk(s.g, NEW_WORKER);
  }

  lemma NoneStopping(ws: seq<Worker>)
    requires NoneSpawned(ws)
    ensures !exists i | 0 <= i < |ws| :: Stopping(ws[i].pc)
  {
  }

  lemma AssembleWorkers(s: State, c: Choice)
    requires Inv(s) && CoordCanStep(s, c) && Assembling(s.coord)
    ensures var t := AssembleApply(s, c); CountsOk(t.g, t.workers) && WorkersOk(t.g, t.workers)
  {
    hide CountsOk, WorkersOk, Complete, Tallied, FailureOk, PublishedOk, TallyOk, PhaseOk;
    if s.coord == BuildWorker {
      BuildOneKeeps(s);
    }
    if s.coord.Spawn? && s.coord.next < |s.workers| {
      SpawnOneKeeps(s, s.coord.next);
    }
  }

  lemma AssembleCrew(s: State, c: Choice)
    requires Inv(s) && CoordCanStep(s, c) && Assembling(s.coord)
    ensures CrewOk(AssembleApply(s, c))
  {
    hide Inv, CrewOk, AssembleApply;
    if s.coord.Spawn? {
      SpawnCrew(s, c);
    } else {
      BuildCrew(s, c);
    }
  }

  lemma SpawnCrew(s: State, c: Choice)
    requires Inv(s) && CoordCanStep(s, c) && s.coord.Spawn?
    ensures CrewOk(AssembleApply(s, c))
  {
    hide CountsOk, WorkersOk, FailureOk, PublishedOk, TallyOk, NoneSpawned, AllJoined, PhaseOk;
    AssemblePhase0(s);
    if s.coord.next < |s.workers| {
      SpawnOneKeeps(s, s.coord.next);
    }
  }

  lemma BuildCrew(s: State, c: Choice)
    requires Inv(s) && CoordCanStep(s, c) && Assembling(s.coord) && !s.coord.Spawn?
    ensures CrewOk(AssembleApply(s, c))
  {
    hide CountsOk, WorkersOk, FailureOk, PublishedOk, TallyOk, NoneSpawned, AllJoined, PhaseOk;
    NoneIsUpToZero(s.workers);
    AssemblePhase0(s);
    if s.coord == BuildWorker {
      BuildOneKeeps(s);
    }
  }

  lemma AssemblePhase0(s: State)
    requires Inv(s) && Assembling(s.coord)
    ensures s.g.phase == 0
  {
  }

  lemma NoneIsUpToZero(ws: seq<Worker>)
    ensures NoneSpawned(ws) ==> SpawnedUpTo(ws, 0)
    ensures ws == [] ==> NoneSpawned(ws)
  {
  }

  lemma AssemblePhase(s: State, c: Choice)
    requires Inv(s) && CoordCanStep(s, c) && Assembling(s.coord)
    ensures var t := AssembleApply(s, c); PhaseOk(t.coord, t.g, |t.workers|) && t.g == s.g
  {
    hide CountsOk, WorkersOk, Complete, Tallied, FailureOk, PublishedOk, TallyOk, CrewOk;
  }

  lemma AssembleFailure(s: State, c: Choice)
    requires Inv(s) && CoordCanStep(s, c) && Assembling(s.coord)
    ensures var t := AssembleApply(s, c); FailureOk(t) && TallyOk(t) && PublishedOk(t)
  {
    hide CountsOk, WorkersOk, Complete, Tallied, PhaseOk;
    if s.coord == BuildWorker {
      NoneStopping(s.workers);
    }
    if s.coord.Spawn? && s.coord.next < |s.workers| {
      SpawnOneKeeps(s, s.coord.next);
    }
  }

  lemma AssembleKeeps(s: State, c: Choice)
    requires Inv(s) && CoordCanStep(s, c) && Assembling(s.coord)
    ensures Inv(AssembleApply(s, c))
  {
    AssembleWorkers(s, c);
    AssembleCrew(s, c);
    AssemblePhase(s, c);
    AssembleFailure(s, c);
    hide CountsOk, WorkersOk, CrewOk, PhaseOk, FailureOk, TallyOk, PublishedOk;
  }

  /** Until a release, no worker is far enough to read what the coordinator is writing. */
  lemma WarmWorkers(s: State, c: Choice)
    requires Inv(s) && CoordCanStep(s, c) && Releasing(s.coord)
    ensures var t := WarmApply(s, c); t.workers == s.workers && CountsOk(t.g, t.workers) && WorkersOk(t.g, t.workers)
  {
    hide Complete, Tallied, FailureOk, PublishedOk, TallyOk, CrewOk;
    var t := WarmApply(s, c);
    forall i | 0 <= i < |s.workers| ensures WorkerOk(t.g, s.workers[i]) {
      assert WorkerOk(s.g, s.workers[i]);
    }
  }

  lemma CountsBounded(s: State)
    requires CountsOk(s.g, s.workers)
    ensures s.g.ready <= |s.workers| && s.g.warmDone <= |s.workers|
  {
    CountAll(s.workers, IsReady);
    CountAll(s.workers, IsWarmed);
  }

  lemma WarmPhase(s: State, c: Choice)
    requires Inv(s) && CoordCanStep(s, c) && Releasing(s.coord)
    ensures var t := WarmApply(s, c); PhaseOk(t.coord, t.g, |t.workers|)
  {
    hide Complete, Tallied, FailureOk, PublishedOk, TallyOk, CrewOk, WorkersOk;
    hide CountsOk;
    CountsBounded(s);
  }

  lemma WarmCrew(s: State, c: Choice)
    requires Inv(s) && CoordCanStep(s, c) && Releasing(s.coord)
    ensures var t := WarmApply(s, c); CrewOk(t)
  {
    hide Complete, Tallied, WorkersOk, PhaseOk, CountsOk, FailureOk, TallyOk, PublishedOk;
    WarmPhaseBound(s);
  }

  lemma WarmFailure(s: State, c: Choice)
    requires Inv(s) && CoordCanStep(s, c) && Releasing(s.coord)
    ensures var t := WarmApply(s, c); FailureOk(t) && TallyOk(t) && PublishedOk(t)
  {
    hide Complete, Tallied, WorkersOk, PhaseOk, CountsOk, CrewOk;
  }

  lemma WarmPhaseBound(s: State)
    requires Inv(s)
    ensures s.coord.CheckWarm? && !s.g.stop ==> s.g.phase == 1
  {
  }

  lemma WarmKeeps(s: State, c: Choice)
    requires Inv(s) && CoordCanStep(s, c) && Releasing(s.coord)
    ensures Inv(WarmApply(s, c))
  {
    WarmWorkers(s, c);
    WarmPhase(s, c);
    WarmCrew(s, c);
    WarmFailure(s, c);
    hide CountsOk, WorkersOk, CrewOk, PhaseOk, FailureOk, TallyOk, PublishedOk;
  }

  lemma MeasureWorkers(s: State, c: Choice)
    requires Inv(s) && CoordCanStep(s, c) && !Assembling(s.coord) && !Releasing(s.coord)
    requires !Gathering(s.coord) && !Concluding(s.coord)
    ensures var t := MeasureApply(s, c); t.workers == s.workers && CountsOk(t.g, t.workers) && WorkersOk(t.g, t.workers)
  {
    hide Complete, Tallied, FailureOk, PublishedOk, TallyOk, CrewOk;
    var t := MeasureApply(s, c);
    forall i | 0 <= i < |s.workers| ensures WorkerOk(t.g, s.workers[i]) {
      assert WorkerOk(s.g, s.workers[i]);
    }
  }

  lemma MeasureCrew(s: State, c: Choice)
    requires Inv(s) && CoordCanStep(s, c) && !Assembling(s.coord) && !Releasing(s.coord)
    requires !Gathering(s.coord) && !Concluding(s.coord)
    ensures var t := MeasureApply(s, c); CrewOk(t)
  {
    hide Complete, Tallied, WorkersOk, CountsOk, FailureOk, TallyOk, PublishedOk;
  }

  lemma MeasureFailure(s: State, c: Choice)
    requires Inv(s) && CoordCanStep(s, c) && !Assembling(s.coord) && !Releasing(s.coord)
    requires !Gathering(s.coord) && !Concluding(s.coord)
    ensures var t := MeasureApply(s, c); FailureOk(t) && TallyOk(t) && PublishedOk(t)
  {
    hide Complete, Tallied, WorkersOk, CountsOk, CrewOk, PhaseOk;
    if s.g.error != 0 && !s.g.stop && !s.coord.CoordFailStop? && !s.coord.CollectStop? {
      var j :| 0 <= j < |s.workers| && Stopping(s.workers[j].pc);
      assert Stopping(MeasureApply(s, c).workers[j].pc);
    }
  }

  lemma MeasurePhase(s: State, c: Choice)
    requires Inv(s) && CoordCanStep(s, c) && !Assembling(s.coord) && !Releasing(s.coord)
    requires !Gathering(s.coord) && !Concluding(s.coord)
    ensures var t := MeasureApply(s, c); PhaseOk(t.coord, t.g, |t.workers|)
  {
    hide Complete, Tallied, FailureOk, PublishedOk, TallyOk, WorkersOk, CrewOk, CountsOk;
  }

  lemma MeasureKeeps(s: State, c: Choice)
    requires Inv(s) && CoordCanStep(s, c) && !Assembling(s.coord) && !Releasing(s.coord)
    requires !Gathering(s.coord) && !Concluding(s.coord)
    ensures Inv(MeasureApply(s, c))
  {
    MeasureWorkers(s, c);
    MeasureCrew(s, c);
    MeasureFailure(s, c);
    MeasurePhase(s, c);
    hide CountsOk, WorkersOk, CrewOk, PhaseOk, FailureOk, TallyOk, PublishedOk;
  }

  lemma TallyNext(t: Tally, ws: seq<Worker>, k: nat)
    requires k < |ws| && Tallied(t, ws, k)
    ensures Tallied(TallyWorker(t, ws[k]), ws, k + 1)
  {
    assert ws[..k + 1][..k] == ws[..k];
  }

  lemma GatherTally(s: State, c: Choice)
    requires Inv(s) && CoordCanStep(s, c) && Gathering(s.coord)
    ensures TallyOk(GatherApply(s, c))
  {
    hide CountsOk, WorkersOk, CrewOk, PhaseOk, FailureOk, PublishedOk, TallyWorker;
    if s.coord.Collect? && s.coord.index < |s.workers| {
      TallyNext(s.tally, s.workers, s.coord.index);
    }
    assert s.workers[..0] == [];
  }

  lemma GatherWorkers(s: State, c: Choice)
    requires Inv(s) && CoordCanStep(s, c) && Gathering(s.coord)
    ensures var t := GatherApply(s, c);
      t.workers == s.workers && CountsOk(t.g, t.workers) && WorkersOk(t.g, t.workers)
  {
    hide Complete, Tallied, FailureOk, TallyWorker, CrewOk, PhaseOk, PublishedOk;
    var t := GatherApply(s, c);
    forall i | 0 <= i < |s.workers| ensures WorkerOk(t.g, s.workers[i]) {
      assert WorkerOk(s.g, s.workers[i]);
    }
  }

  lemma GatherRest(s: State, c: Choice)
    requires Inv(s) && CoordCanStep(s, c) && Gathering(s.coord)
    ensures var t := GatherApply(s, c); CrewOk(t) && PhaseOk(t.coord, t.g, |t.workers|) && PublishedOk(t)
  {
    hide Complete, Tallied, FailureOk, TallyWorker, CountsOk, WorkersOk;
  }

  /** Once the threads are joined nobody else owes a stop request. */
  lemma GatherFailure(s: State, c: Choice)
    requires Inv(s) && CoordCanStep(s, c) && Gathering(s.coord)
    ensures FailureOk(GatherApply(s, c))
  {
    hide Complete, Tallied, PhaseOk, CountsOk, TallyWorker;
  }

  lemma GatherKeeps(s: State, c: Choice)
    requires Inv(s) && CoordCanStep(s, c) && Gathering(s.coord)
    ensures Inv(GatherApply(s, c))
  {
    GatherTally(s, c);
    GatherWorkers(s, c);
    GatherRest(s, c);
    GatherFailure(s, c);
    hide CountsOk, WorkersOk, CrewOk, PhaseOk, FailureOk, TallyOk, PublishedOk;
  }

  lemma FinishTally(s: State, c: Choice)
    requires Inv(s) && CoordCanStep(s, c) && Concluding(s.coord)
    ensures TallyOk(FinishApply(s, c))
  {
    hide CountsOk, WorkersOk, PublishedOk, Complete, CrewOk;
  }

  lemma FinishComplete(s: State)
    requires Inv(s) && s.coord == PublishFinal(Completed)
    ensures Complete(s.g, s.workers, s.config.total, Snapshot(Completed, s.tally.code, s.tally.units, s.tally.elapsed))
  {
    hide PublishedOk, FailureOk;
    CountAll(s.workers, IsWarmed);
    assert s.workers[..|s.workers|] == s.workers;
    forall i | 0 <= i < |s.workers| ensures Contributed(s.g, s.workers[i]) {
      assert WorkerOk(s.g, s.workers[i]);
      assert Marked(s.workers[i], IsWarmed);
    }
  }

  lemma FinishFrame(s: State, c: Choice)
    requires Inv(s) && CoordCanStep(s, c) && Concluding(s.coord)
    ensures var t := FinishApply(s, c);
      t.workers == s.workers && t.g == s.g && CrewOk(t) && PhaseOk(t.coord, t.g, |t.workers|) && FailureOk(t)
  {
    hide CountsOk, WorkersOk, Tallied, Complete, PublishedOk;
  }

  lemma FinishPublished(s: State, c: Choice)
    requires Inv(s) && CoordCanStep(s, c) && Concluding(s.coord)
    ensures PublishedOk(FinishApply(s, c))
  {
    if s.coord == PublishFinal(Completed) {
      FinishComplete(s);
    }
    hide CountsOk, WorkersOk, Tallied, Complete, CrewOk, PhaseOk, FailureOk;
  }

  lemma FinishKeeps(s: State, c: Choice)
    requires Inv(s) && CoordCanStep(s, c) && Concluding(s.coord)
    ensures Inv(FinishApply(s, c))
  {
    FinishTally(s, c);
    FinishFrame(s, c);
    FinishPublished(s, c);
    hide CountsOk, WorkersOk, CrewOk, PhaseOk, FailureOk, TallyOk, PublishedOk;
  }

  lemma CoordStepKeeps(s: State, c: Choice)
    requires Inv(s) && CoordCanStep(s, c)
    ensures Inv(CoordApply(s, c))
  {
    hide Inv, CoordCanStep, AssembleApply, WarmApply, MeasureApply, GatherApply, FinishApply;
    if Assembling(s.coord) {
      AssembleKeeps(s, c);
    } else if Releasing(s.coord) {
      WarmKeeps(s, c);
    } else if Gathering(s.coord) {
      GatherKeeps(s, c);
    } else if Concluding(s.coord) {
      FinishKeeps(s, c);
    } else {
      MeasureKeeps(s, c);
    }
  }

  // ---------------------------------------------------------------- every event keeps it, so every run does

  lemma StartRunKeeps(s: State, config: Config)
    requires config.batch > 0
    ensures Inv(StartApply(s, config))
  {
  }

  lemma StartFailsKeeps(s: State)
    requires Inv(s) && Enabled(s, StartFails)
    ensures Inv(Apply(s, StartFails))
  {
    hide Tallied, Complete;
  }

  lemma SameWorkers(g: Shared, g': Shared, ws: seq<Worker>)
    requires WorkersOk(g, ws)
    requires g' == g.(now := g'.now, stop := g'.stop) && g'.now >= g.now && (g.stop ==> g'.stop)
    ensures WorkersOk(g', ws)
  {
    forall i | 0 <= i < |ws| ensures WorkerOk(g', ws[i]) {
      assert WorkerOk(g, ws[i]);
    }
  }

  lemma StopAndTickWorkers(s: State, e: Event)
    requires Inv(s) && Enabled(s, e) && (e.StopAccepted? || e.StopStored? || e.Destroy? || e.Tick?)
    ensures var t := Apply(s, e); t.workers == s.workers && WorkersOk(t.g, t.workers) && CountsOk(t.g, t.workers)
  {
    hide WorkersOk, Tallied, Complete, CrewOk, PhaseOk, FailureOk;
    SameWorkers(s.g, Apply(s, e).g, s.workers);
  }

  lemma StopAndTickFailure(s: State, e: Event)
    requires Inv(s) && Enabled(s, e) && (e.StopAccepted? || e.StopStored? || e.Destroy? || e.Tick?)
    ensures FailureOk(Apply(s, e))
  {
    hide WorkersOk, Tallied, Complete, CrewOk, PhaseOk, CountsOk, TallyOk;
    var t := Apply(s, e);
    if StopOwed(s) && exists j | 0 <= j < |s.workers| :: Stopping(s.workers[j].pc) {
      var j :| 0 <= j < |s.workers| && Stopping(s.workers[j].pc);
      assert Stopping(t.workers[j].pc);
    }
  }

  lemma StopAndTickCrew(s: State, e: Event)
    requires Inv(s) && Enabled(s, e) && (e.StopAccepted? || e.StopStored? || e.Destroy? || e.Tick?)
    ensures var t := Apply(s, e); CrewOk(t) && PhaseOk(t.coord, t.g, |t.workers|)
  {
    hide WorkersOk, CountsOk, FailureOk, Tallied, Complete, TallyOk, PublishedOk;
  }

  lemma StopAndTickKeep(s: State, e: Event)
    requires Inv(s) && Enabled(s, e) && (e.StopAccepted? || e.StopStored? || e.Destroy? || e.Tick?)
    ensures Inv(Apply(s, e))
  {
    StopAndTickWorkers(s, e);
    StopAndTickFailure(s, e);
    StopAndTickCrew(s, e);
    hide WorkersOk, CountsOk, FailureOk, Tallied, CrewOk, PhaseOk;
  }

  lemma EventKeeps(s: State, e: Event)
    requires Inv(s) && Enabled(s, e)
    ensures Inv(Apply(s, e))
  {
    hide Inv, CoordApply, WorkerApply;
    match e
    case WorkerStep(i, c) => WorkerStepKeeps(s, i, c);
    case CoordStep(c) => CoordStepKeeps(s, c);
    case StartRun(config) => StartRunKeeps(s, config);
    case StartFails => StartFailsKeeps(s);
    case _ => StopAndTickKeep(s, e);
  }

  lemma InitialHolds()
    ensures Inv(INITIAL)
  {
  }

  /** The invariant holds in every state every run reaches, over any number of benchmark runs. */
  lemma {:induction false} RunKeeps(s: State, events: seq<Event>)
    requires Inv(s) && IsRun(s, events)
    ensures Inv(Execute(s, events))
    decreases |events|
  {
    hide Inv, Apply, Enabled;
    if events != [] {
      EventKeeps(s, events[0]);
      RunKeeps(Apply(s, events[0]), events[1..]);
    }
  }
}
