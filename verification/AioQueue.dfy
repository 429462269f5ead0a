/** The asynchronous storage phase (storage_engine.cpp, the `phase` lambda of RunAioTest): eight slots
    are submitted, reaped in whatever batches the kernel returns, and resubmitted.

    The kernel is a list of rounds: what each look at the clock and each call returned. `Queue` is the
    loop over arrays; `Step` and `Play` are what it does to the abstract state. */
module AioQueue {
  import opened Common

  const DEPTH := 8

  /** One control block as the kernel received it. */
  datatype Request = Request(slot: nat, offset: nat)

  datatype Completion = Completion(slot: nat, complete: bool)

  datatype Reap = ReapFailed | Reaped(events: seq<Completion>)

  /** One turn of the loop: was the deadline over or stop requested, what was reaped, how many were resubmitted. */
  datatype Round = Round(expired: bool, reap: Reap, accepted: int)

  /** Where the next request goes: a shuffled list of offsets, or block after block around the file. */
  datatype Plan = Plan(random: bool, offsets: seq<nat>, size: nat, block: nat) {
    predicate Valid() {
      block > 0 && size > 0 && size % block == 0 && (random ==> offsets != [])
    }

    /** The offset of the k-th prepared request. */
    function OffsetAt(k: nat): nat
      requires Valid()
    {
      if random then offsets[k % |offsets|]
      else if k == 0 then 0
      else (OffsetAt(k - 1) + block) % size
    }
  }

  datatype State = State(control: seq<nat>, prepared: nat, outstanding: nat, accepting: bool,
                         bytes: nat, io: nat, log: seq<Request>, reaped: nat, inflight: multiset<nat>)

  datatype Status = Going | Broken

  // ---------------------------------------------------------------- one batch

  function SlotsOf(events: seq<Completion>): seq<nat> {
    seq(|events|, i requires 0 <= i < |events| => events[i].slot)
  }

  predicate InRange(slots: seq<nat>) {
    |slots| <= DEPTH && forall i | 0 <= i < |slots| :: slots[i] < DEPTH
  }

  predicate Distinct(slots: seq<nat>) {
    forall i, j | 0 <= i < j < |slots| :: slots[i] != slots[j]
  }

  /** What position i of the submission array holds after the loop has run over the first n slots: writing
      its own position, each later slot equal to i has overwritten it with i. */
  function Submitted(slots: seq<nat>, n: nat, i: nat): nat
    requires i < n <= |slots|
  {
    if exists j | i < j < n :: slots[j] == i then i else slots[i]
  }

  function Batch(slots: seq<nat>): seq<nat> {
    seq(|slots|, i requires 0 <= i < |slots| => Submitted(slots, |slots|, i))
  }

  /** The control blocks after preparing the slots in order. */
  function Prepared(plan: Plan, control: seq<nat>, slots: seq<nat>, first: nat): (r: seq<nat>)
    requires plan.Valid() && |control| == DEPTH && InRange(slots)
    ensures |r| == DEPTH
  {
    if slots == [] then control
    else
      var last := |slots| - 1;
      Prepared(plan, control, slots[..last], first)[slots[last] := plan.OffsetAt(first + last)]
  }

  function Requests(control: seq<nat>, batch: seq<nat>): seq<Request>
    requires |control| == DEPTH && InRange(batch)
  {
    seq(|batch|, i requires 0 <= i < |batch| => Request(batch[i], control[batch[i]]))
  }

  lemma BatchInRange(slots: seq<nat>)
    requires InRange(slots)
    ensures InRange(Batch(slots))
  {
  }

  // ---------------------------------------------------------------- one round

  /** How many completions are counted before the first incomplete one. */
  function GoodPrefix(events: seq<Completion>): (n: nat)
    ensures n <= |events|
    ensures n == |events| <==> forall i | 0 <= i < |events| :: events[i].complete
    ensures n < |events| ==> !events[n].complete
  {
    if events == [] || !events[0].complete then 0 else 1 + GoodPrefix(events[1..])
  }

  /** What the kernel may return: each completion belongs to a request in flight. */
  predicate KernelAllows(s: State, round: Round) {
    match round.reap
    case ReapFailed => true
    case Reaped(events) => InRange(SlotsOf(events)) && multiset(SlotsOf(events)) <= s.inflight && |events| <= s.outstanding
  }

  predicate StateValid(s: State) {
    |s.control| == DEPTH
  }

  /** What reaping does: completions leave the queue, complete ones up to the first bad one are counted. */
  function AfterReap(plan: Plan, measuring: bool, s: State, events: seq<Completion>): State
    requires |events| <= s.outstanding
  {
    var counted := if measuring then GoodPrefix(events) else 0;
    s.(outstanding := s.outstanding - |events|, reaped := s.reaped + |events|,
       inflight := s.inflight - multiset(SlotsOf(events)),
       bytes := s.bytes + counted * plan.block, io := s.io + counted)
  }

  /** Each reaped slot is given its next offset. */
  function AfterPrepare(plan: Plan, s: State, slots: seq<nat>): State
    requires plan.Valid() && StateValid(s) && InRange(slots)
  {
    s.(control := Prepared(plan, s.control, slots, s.prepared), prepared := s.prepared + |slots|)
  }

  /** The kernel takes the batch that the submission array holds. */
  function AfterSubmit(s: State, slots: seq<nat>): State
    requires StateValid(s) && InRange(slots)
  {
    BatchInRange(slots);
    s.(outstanding := s.outstanding + |slots|,
       log := s.log + Requests(s.control, Batch(slots)),
       inflight := s.inflight + multiset(Batch(slots)))
  }

  function Step(plan: Plan, measuring: bool, s: State, round: Round): (State, Status)
    requires plan.Valid() && StateValid(s) && KernelAllows(s, round)
  {
    var s := if s.accepting && round.expired then s.(accepting := false) else s;
    match round.reap
    case ReapFailed => (s, Broken)
    case Reaped(events) =>
      var slots, s := SlotsOf(events), AfterReap(plan, measuring, s, events);
      if GoodPrefix(events) < |events| then (s, Broken)
      else if s.accepting && |events| > 0 then
        var s := AfterPrepare(plan, s, slots);
        if round.accepted != |events| then (s, Broken) else (AfterSubmit(s, slots), Going)
      else (s, Going)
  }

  function AllSlots(): seq<nat> {
    seq(DEPTH, i requires 0 <= i < DEPTH => i)
  }

  /** All eight slots prepared and accepted. */
  function Initial(plan: Plan, control: seq<nat>): State
    requires plan.Valid() && |control| == DEPTH
  {
    var control := Prepared(plan, control, AllSlots(), 0);
    State(control, DEPTH, DEPTH, true, 0, 0, Requests(control, AllSlots()), 0, multiset(AllSlots()))
  }

  // ---------------------------------------------------------------- whole phases

  datatype Outcome = Finished | Failed | Waiting

  /** Each round is one the kernel may return in the state reached. */
  predicate KernelRun(plan: Plan, measuring: bool, s: State, rounds: seq<Round>)
    requires plan.Valid() && StateValid(s)
    decreases |rounds|
  {
    s.outstanding == 0 || rounds == []
    || (KernelAllows(s, rounds[0])
        && var (t, status) := Step(plan, measuring, s, rounds[0]);
        status == Going ==> KernelRun(plan, measuring, t, rounds[1..]))
  }

  /** The loop: until nothing is outstanding, a call fails, or the kernel has not answered yet. */
  function Play(plan: Plan, measuring: bool, s: State, rounds: seq<Round>): (State, Outcome)
    requires plan.Valid() && StateValid(s) && KernelRun(plan, measuring, s, rounds)
    decreases |rounds|
  {
    if s.outstanding == 0 then (s, Finished)
    else if rounds == [] then (s, Waiting)
    else
      var (t, status) := Step(plan, measuring, s, rounds[0]);
      if status == Broken then (t, Failed) else Play(plan, measuring, t, rounds[1..])
  }

  // ---------------------------------------------------------------- accounting, whatever the kernel returns

  predicate Accounted(plan: Plan, measuring: bool, s: State) {
    && StateValid(s)
    && |s.log| == s.reaped + s.outstanding
    && |s.inflight| == s.outstanding <= DEPTH
    && s.bytes == s.io * plan.block
    && s.io == (if measuring then s.reaped else 0)
  }

  lemma SlotsLength(slots: seq<nat>)
    ensures |multiset(slots)| == |slots| && |Batch(slots)| == |slots| == |multiset(Batch(slots))|
  {
    assert forall s: seq<nat> :: |multiset(s)| == |s|;
  }

  lemma MinusSize(a: multiset<nat>, b: multiset<nat>)
    requires b <= a
    ensures |a - b| == |a| - |b|
  {
  }

  lemma Distribute(a: nat, b: nat, c: nat)
    ensures (a + b) * c == a * c + b * c
  {
  }

  lemma ReapAccounts(plan: Plan, measuring: bool, s: State, events: seq<Completion>)
    requires Accounted(plan, measuring, s) && |events| <= s.outstanding && multiset(SlotsOf(events)) <= s.inflight
    ensures var t := AfterReap(plan, measuring, s, events);
      && t.bytes == t.io * plan.block
      && t.outstanding + |events| <= DEPTH
      && (GoodPrefix(events) == |events| ==> Accounted(plan, measuring, t))
  {
    hide GoodPrefix, SlotsOf;
    SlotsLength(SlotsOf(events));
    SlotsOfLength(events);
    Distribute(s.io, if measuring then GoodPrefix(events) else 0, plan.block);
    MinusSize(s.inflight, multiset(SlotsOf(events)));
  }

  lemma SubmitAccounts(plan: Plan, measuring: bool, s: State, slots: seq<nat>)
    requires plan.Valid() && Accounted(plan, measuring, s) && InRange(slots) && s.outstanding + |slots| <= DEPTH
    ensures Accounted(plan, measuring, AfterPrepare(plan, s, slots))
    ensures Accounted(plan, measuring, AfterSubmit(AfterPrepare(plan, s, slots), slots))
  {
    hide Prepared, Submitted;
    SlotsLength(slots);
    assert |s.inflight + multiset(Batch(slots))| == |s.inflight| + |multiset(Batch(slots))|;
  }

  lemma StepAccounts(plan: Plan, measuring: bool, s: State, round: Round)
    requires plan.Valid() && Accounted(plan, measuring, s) && KernelAllows(s, round)
    ensures var (t, status) := Step(plan, measuring, s, round);
      && t.bytes == t.io * plan.block
      && (status == Going ==> Accounted(plan, measuring, t))
  {
    hide AfterPrepare, AfterSubmit, SlotsOf;
    if round.reap.Reaped? {
      var s1 := if s.accepting && round.expired then s.(accepting := false) else s;
      var events := round.reap.events;
      ReapAccounts(plan, measuring, s1, events);
      SlotsOfLength(events);
      var s2 := AfterReap(plan, measuring, s1, events);
      if GoodPrefix(events) == |events| {
        SubmitAccounts(plan, measuring, s2, SlotsOf(events));
      }
    }
  }

  lemma SlotsOfLength(events: seq<Completion>)
    ensures |SlotsOf(events)| == |events|
  {
  }

  /** Submitted equals reaped plus outstanding throughout, at most eight are in flight, bytes are whole blocks;
      a phase that ends well has reaped exactly what it submitted and, when measuring, counted all of it. */
  lemma {:induction false} PlayAccounts(plan: Plan, measuring: bool, s: State, rounds: seq<Round>)
    requires plan.Valid() && Accounted(plan, measuring, s) && KernelRun(plan, measuring, s, rounds)
    ensures var (t, outcome) := Play(plan, measuring, s, rounds);
      && t.bytes == t.io * plan.block
      && (outcome != Failed ==> Accounted(plan, measuring, t))
      && (outcome == Finished ==> t.outstanding == 0 && |t.log| == t.reaped && t.inflight == multiset{})
      && (outcome == Finished && measuring ==> t.io == |t.log|)
    decreases |rounds|
  {
    hide Step;
    if s.outstanding > 0 && rounds != [] {
      StepAccounts(plan, measuring, s, rounds[0]);
      var (t, status) := Step(plan, measuring, s, rounds[0]);
      if status == Going {
        PlayAccounts(plan, measuring, t, rounds[1..]);
      }
    }
  }

  lemma InitialAccounted(plan: Plan, measuring: bool, control: seq<nat>)
    requires plan.Valid() && |control| == DEPTH
    ensures Accounted(plan, measuring, Initial(plan, control))
  {
    assert |multiset(AllSlots())| == |AllSlots()|;
  }

  lemma InitialValid(plan: Plan, control: seq<nat>)
    requires plan.Valid() && |control| == DEPTH
    ensures StateValid(Initial(plan, control))
  {
    hide Prepared, Plan.OffsetAt;
  }

  /** The rounds are ones the kernel may return to a phase that starts with its eight submissions. */
  predicate PhaseRun(plan: Plan, measuring: bool, control: seq<nat>, rounds: seq<Round>)
    requires plan.Valid() && |control| == DEPTH
  {
    InitialValid(plan, control);
    KernelRun(plan, measuring, Initial(plan, control), rounds)
  }

  /** A whole phase, from its eight submissions on. */
  function Phase(plan: Plan, measuring: bool, control: seq<nat>, rounds: seq<Round>): (State, Outcome)
    requires plan.Valid() && |control| == DEPTH && PhaseRun(plan, measuring, control, rounds)
  {
    InitialValid(plan, control);
    Play(plan, measuring, Initial(plan, control), rounds)
  }

  /** Accounting of a whole phase: what was submitted is reaped or outstanding, never more than eight; a phase
      that ends well has reaped all it submitted and, when measuring, counted all of it in whole blocks. */
  lemma PhaseAccounts(plan: Plan, measuring: bool, control: seq<nat>, rounds: seq<Round>)
    requires plan.Valid() && |control| == DEPTH && PhaseRun(plan, measuring, control, rounds)
    ensures var (t, outcome) := Phase(plan, measuring, control, rounds);
      && t.bytes == t.io * plan.block
      && (outcome != Failed ==> |t.log| == t.reaped + t.outstanding && t.outstanding <= DEPTH)
      && (outcome == Finished ==> t.outstanding == 0 && |t.log| == t.reaped && t.inflight == multiset{})
      && (outcome == Finished && measuring ==> t.io == |t.log|)
  {
    InitialAccounted(plan, measuring, control);
    hide Play, Initial, KernelRun;
    PlayAccounts(plan, measuring, Initial(plan, control), rounds);
  }

  // ---------------------------------------------------------------- deadline, stop and failure, from the rounds alone

  function EventsOf(round: Round): seq<Completion> {
    if round.reap.Reaped? then round.reap.events else []
  }

  /** Completions the kernel returned in these rounds. */
  function Completions(rounds: seq<Round>): nat {
    if rounds == [] then 0 else |EventsOf(rounds[0])| + Completions(rounds[1..])
  }

  /** Rounds before the first one that finds the deadline over or a stop requested. */
  function InTime(rounds: seq<Round>): (e: nat)
    ensures e <= |rounds|
  {
    if rounds == [] || rounds[0].expired then 0 else 1 + InTime(rounds[1..])
  }

  /** A round that ends the phase with an error: the kernel refuses to answer, a completion is incomplete, or a
      resubmission, which is made only in time, is not taken whole. */
  predicate Breaks(round: Round, inTime: bool) {
    || round.reap.ReapFailed?
    || (exists i | 0 <= i < |EventsOf(round)| :: !EventsOf(round)[i].complete)
    || (inTime && EventsOf(round) != [] && round.accepted != |EventsOf(round)|)
  }

  /** Rounds before the first one that breaks, of which the first `inTime` are in time. */
  function Sound(rounds: seq<Round>, inTime: nat): (f: nat)
    ensures f <= |rounds|
  {
    if rounds == [] || Breaks(rounds[0], inTime > 0) then 0
    else 1 + Sound(rounds[1..], if inTime > 0 then inTime - 1 else 0)
  }

  /** Completions in the rounds from a up to b. */
  function Between(rounds: seq<Round>, a: nat, b: nat): nat
    requires a <= b <= |rounds|
  {
    Completions(rounds[a..b])
  }

  lemma BetweenTail(rounds: seq<Round>, a: nat, b: nat)
    requires rounds != [] && a <= b <= |rounds|
    ensures Between(rounds, a, b) ==
      if a > 0 then Between(rounds[1..], a - 1, b - 1)
      else if b > 0 then |EventsOf(rounds[0])| + Between(rounds[1..], 0, b - 1) else 0
  {
    if a > 0 {
      assert rounds[a..b] == rounds[1..][a - 1..b - 1];
    } else if b > 0 {
      assert rounds[a..b][1..] == rounds[1..][0..b - 1];
    }
  }

  /** One round of a phase, in its parts. */
  lemma StepExactly(plan: Plan, measuring: bool, s: State, round: Round)
    requires plan.Valid() && StateValid(s) && KernelAllows(s, round)
    ensures var (t, status) := Step(plan, measuring, s, round);
      var inTime, n := s.accepting && !round.expired, |EventsOf(round)|;
      && (status == Broken <==> Breaks(round, inTime))
      && t.accepting == inTime
      && (status == Going ==> t.outstanding == if inTime then s.outstanding else s.outstanding - n)
      && |t.log| == |s.log| + (if inTime && status == Going then n else 0)
      && t.io == s.io + (if measuring then GoodPrefix(EventsOf(round)) else 0)
      && (status == Going ==> GoodPrefix(EventsOf(round)) == n)
  {
    hide GoodPrefix, Prepared, Batch;
    GoodPrefixAll([]);
    if round.reap.Reaped? {
      var events := round.reap.events;
      SlotsOfLength(events);
      SlotsLength(SlotsOf(events));
      GoodPrefixAll(events);
      if GoodPrefix(events) == |events| {
        BatchInRange(SlotsOf(events));
        RequestsLength(Prepared(plan, s.control, SlotsOf(events), s.prepared), Batch(SlotsOf(events)));
      }
    }
  }

  lemma GoodPrefixAll(events: seq<Completion>)
    ensures GoodPrefix(events) <= |events|
    ensures GoodPrefix(events) == |events| <==> forall i | 0 <= i < |events| :: events[i].complete
  {
  }

  /** How many completions come back once nothing is resubmitted, before the round that breaks. */
  function Draining(rounds: seq<Round>, inTime: nat, sound: nat): nat
    requires sound <= |rounds|
  {
    Between(rounds, Min(inTime, sound), sound)
  }

  /** How a phase ends, from its state and the rounds alone: it fails at the first round that breaks, unless it is
      drained before; else it has finished, or waits for the kernel. */
  predicate EndsAs(s: State, rounds: seq<Round>, inTime: nat, outcome: Outcome) {
    var sound := Sound(rounds, inTime);
    && (outcome == Failed <==> sound < |rounds| && Draining(rounds, inTime, sound) < s.outstanding)
    && (outcome == Waiting <==> sound == |rounds| && Draining(rounds, inTime, sound) < s.outstanding)
  }

  /** What is submitted: one request for each completion returned in time. */
  predicate Submits(s: State, rounds: seq<Round>, inTime: nat, t: State, outcome: Outcome) {
    var sound := Sound(rounds, inTime);
    && |t.log| == |s.log| + Between(rounds, 0, Min(inTime, sound))
    && (outcome != Failed ==> t.outstanding == Max(0, s.outstanding - Draining(rounds, inTime, sound)))
  }

  /** What is counted when a measuring phase fails: all completions before the round that breaks, and in that
      round those before the first incomplete one. */
  predicate CountsUpTo(measuring: bool, s: State, rounds: seq<Round>, inTime: nat, t: State, outcome: Outcome) {
    var sound := Sound(rounds, inTime);
    && (outcome == Failed && measuring && sound < |rounds| ==>
          t.io == s.io + Between(rounds, 0, sound) + GoodPrefix(EventsOf(rounds[sound])))
    && (!measuring ==> t.io == s.io)
  }

  predicate Follows(measuring: bool, s: State, rounds: seq<Round>, inTime: nat, t: State, outcome: Outcome) {
    EndsAs(s, rounds, inTime, outcome) && Submits(s, rounds, inTime, t, outcome)
    && CountsUpTo(measuring, s, rounds, inTime, t, outcome)
  }

  lemma {:induction false} PlayFollows(plan: Plan, measuring: bool, s: State, rounds: seq<Round>)
    requires plan.Valid() && StateValid(s) && KernelRun(plan, measuring, s, rounds)
    requires s.outstanding > 0 || !s.accepting
    ensures var (t, outcome) := Play(plan, measuring, s, rounds);
      Follows(measuring, s, rounds, TimeLeft(s, rounds), t, outcome)
    decreases |rounds|
  {
    hide Step, Breaks, GoodPrefix, EventsOf;
    BetweenNothing(rounds);
    if s.outstanding > 0 && rounds != [] {
      StepExactly(plan, measuring, s, rounds[0]);
      StepKeepsShape(plan, measuring, s, rounds[0]);
      var (t, status) := Step(plan, measuring, s, rounds[0]);
      if status == Going {
        PlayFollows(plan, measuring, t, rounds[1..]);
        var (last, outcome) := Play(plan, measuring, t, rounds[1..]);
        hide Play, KernelRun, KernelAllows;
        FollowsOn(measuring, s, rounds, t, last, outcome);
      }
    }
  }

  lemma InTimeNext(rounds: seq<Round>)
    requires rounds != []
    ensures InTime(rounds) == if rounds[0].expired then 0 else 1 + InTime(rounds[1..])
  {
  }

  lemma SoundNext(rounds: seq<Round>, inTime: nat)
    requires rounds != [] && !Breaks(rounds[0], inTime > 0)
    ensures Sound(rounds, inTime) == 1 + Sound(rounds[1..], if inTime > 0 then inTime - 1 else 0)
  {
  }

  /** One round that goes well, before the others. */
  predicate Leads(measuring: bool, s: State, round: Round, t: State) {
    && t.accepting == (s.accepting && !round.expired) && !Breaks(round, t.accepting)
    && s.outstanding > 0
    && t.outstanding == (if t.accepting then s.outstanding else s.outstanding - |EventsOf(round)|)
    && |t.log| == |s.log| + (if t.accepting then |EventsOf(round)| else 0)
    && t.io == s.io + (if measuring then |EventsOf(round)| else 0)
  }

  function TimeLeft(s: State, rounds: seq<Round>): nat {
    if s.accepting then InTime(rounds) else 0
  }

  lemma DrainingNext(measuring: bool, s: State, rounds: seq<Round>, t: State)
    requires rounds != [] && Leads(measuring, s, rounds[0], t)
    ensures TimeLeft(s, rounds) == if t.accepting then 1 + TimeLeft(t, rounds[1..]) else 0
    ensures Sound(rounds, TimeLeft(s, rounds)) == 1 + Sound(rounds[1..], TimeLeft(t, rounds[1..]))
    ensures Draining(rounds, TimeLeft(s, rounds), Sound(rounds, TimeLeft(s, rounds)))
      == Draining(rounds[1..], TimeLeft(t, rounds[1..]), Sound(rounds[1..], TimeLeft(t, rounds[1..])))
         + if t.accepting then 0 else |EventsOf(rounds[0])|
  {
    hide Breaks, EventsOf, Between, InTime, Sound;
    InTimeNext(rounds);
    var e := TimeLeft(s, rounds);
    SoundNext(rounds, e);
    var f := Sound(rounds, e);
    BetweenTail(rounds, Min(e, f), f);
  }

  lemma SubmittedBefore(measuring: bool, s: State, rounds: seq<Round>, t: State)
    requires rounds != [] && Leads(measuring, s, rounds[0], t)
    ensures Between(rounds, 0, Min(TimeLeft(s, rounds), Sound(rounds, TimeLeft(s, rounds))))
      == if t.accepting then |EventsOf(rounds[0])|
           + Between(rounds[1..], 0, Min(TimeLeft(t, rounds[1..]), Sound(rounds[1..], TimeLeft(t, rounds[1..]))))
         else 0
  {
    hide Breaks, EventsOf, Between, InTime, Sound;
    InTimeNext(rounds);
    var e := TimeLeft(s, rounds);
    SoundNext(rounds, e);
    BetweenTail(rounds, 0, Min(e, Sound(rounds, e)));
  }

  /** From the rounds after the first to all of them. */
  lemma FollowsOn(measuring: bool, s: State, rounds: seq<Round>, t: State, last: State, outcome: Outcome)
    requires rounds != [] && Leads(measuring, s, rounds[0], t)
    requires Follows(measuring, t, rounds[1..], TimeLeft(t, rounds[1..]), last, outcome)
    ensures Follows(measuring, s, rounds, TimeLeft(s, rounds), last, outcome)
  {
    DrainingNext(measuring, s, rounds, t);
    SubmittedBefore(measuring, s, rounds, t);
    hide Breaks, GoodPrefix, EventsOf, Between, InTime, Sound, TimeLeft, Draining;
    BetweenTail(rounds, 0, Sound(rounds, TimeLeft(s, rounds)));
    BetweenNothing(rounds[1..]);
  }

  lemma BetweenNothing(rounds: seq<Round>)
    ensures Between(rounds, 0, 0) == 0
  {
    assert rounds[0..0] == [];
  }

  /** Round e is the first to find the deadline over or a stop requested. */
  predicate FirstExpired(rounds: seq<Round>, e: nat) {
    && e <= |rounds| && (forall i | 0 <= i < e :: !rounds[i].expired)
    && (e < |rounds| ==> rounds[e].expired)
  }

  /** Round f is the first to break. */
  predicate FirstBroken(rounds: seq<Round>, e: nat, f: nat) {
    && f <= |rounds| && (forall i | 0 <= i < f :: !Breaks(rounds[i], i < e))
    && (f < |rounds| ==> Breaks(rounds[f], f < e))
  }

  lemma {:induction false} InTimeIs(rounds: seq<Round>)
    ensures FirstExpired(rounds, InTime(rounds))
  {
    if rounds != [] && !rounds[0].expired {
      InTimeIs(rounds[1..]);
      assert forall i | 0 < i < |rounds| :: rounds[i] == rounds[1..][i - 1];
    }
  }

  lemma {:induction false} SoundIs(rounds: seq<Round>, e: nat)
    ensures FirstBroken(rounds, e, Sound(rounds, e))
    decreases |rounds|
  {
    hide Breaks;
    if rounds != [] && !Breaks(rounds[0], e > 0) {
      SoundIs(rounds[1..], if e > 0 then e - 1 else 0);
      assert forall i | 0 < i < |rounds| :: rounds[i] == rounds[1..][i - 1];
    }
  }

  /** A whole phase, from its rounds alone. With e the first round to find the deadline over or a stop, and f the
      first to break: a request is submitted for each of the eight slots and for each completion before e and f,
      and none after; the phase fails at f, unless the completions from e on have drained it of its eight requests
      before; a phase that does not fail has counted what it submitted and got back, and one that fails all
      completions up to the first incomplete one. */
  lemma PhaseExactly(plan: Plan, measuring: bool, control: seq<nat>, rounds: seq<Round>) returns (e: nat, f: nat)
    requires plan.Valid() && |control| == DEPTH && PhaseRun(plan, measuring, control, rounds)
    ensures FirstExpired(rounds, e) && FirstBroken(rounds, e, f)
    ensures var (t, outcome) := Phase(plan, measuring, control, rounds);
      var drained := Completions(rounds[Min(e, f)..f]);
      && (outcome == Failed <==> f < |rounds| && drained < 8)
      && (outcome == Waiting <==> f == |rounds| && drained < 8)
      && |t.log| == 8 + Completions(rounds[0..Min(e, f)])
      && (outcome != Failed ==> t.outstanding == if drained < 8 then 8 - drained else 0)
      && (outcome != Failed && measuring ==> t.io == |t.log| - t.outstanding)
      && (outcome == Failed && measuring ==> t.io == Completions(rounds[0..f]) + GoodPrefix(EventsOf(rounds[f])))
      && (!measuring ==> t.io == 0)
      && t.bytes == t.io * plan.block
  {
    InitialValid(plan, control);
    InitialCounts(plan, control);
    var s := Initial(plan, control);
    e := InTime(rounds);
    f := Sound(rounds, e);
    InTimeIs(rounds);
    SoundIs(rounds, e);
    hide Play, Initial, KernelRun, Breaks, EventsOf, InTime, Sound, GoodPrefix, Completions;
    PlayFollows(plan, measuring, s, rounds);
    PhaseAccounts(plan, measuring, control, rounds);
    assert TimeLeft(s, rounds) == e;
    InitialAccounted(plan, measuring, control);
    PlayAccounts(plan, measuring, s, rounds);
  }

  lemma InitialCounts(plan: Plan, control: seq<nat>)
    requires plan.Valid() && |control| == DEPTH
    ensures var s := Initial(plan, control);
      s.accepting && s.outstanding == |s.log| == DEPTH && s.io == 0
  {
  }

  lemma {:induction false} CompletionsAtLeast(rounds: seq<Round>)
    requires forall i | 0 <= i < |rounds| :: EventsOf(rounds[i]) != []
    ensures Completions(rounds) >= |rounds|
  {
    hide EventsOf;
    if rounds != [] {
      CompletionsAtLeast(rounds[1..]);
    }
  }

  lemma {:induction false} CompletionsJoin(a: seq<Round>, b: seq<Round>)
    ensures Completions(a + b) == Completions(a) + Completions(b)
    decreases |a|
  {
    hide EventsOf;
    if a == [] {
      assert a + b == b;
    } else {
      assert (a + b)[1..] == a[1..] + b;
      CompletionsJoin(a[1..], b);
    }
  }

  /** Once the deadline is over or a stop requested, eight answers of the kernel that return anything end the phase. */
  lemma EightAnswersEnd(plan: Plan, measuring: bool, control: seq<nat>, rounds: seq<Round>, k: nat)
    requires plan.Valid() && |control| == DEPTH && PhaseRun(plan, measuring, control, rounds)
    requires k + 8 <= |rounds| && rounds[k].expired
    requires forall i | k <= i < k + 8 :: EventsOf(rounds[i]) != []
    ensures Phase(plan, measuring, control, rounds).1 != Waiting
  {
    var e, f := PhaseExactly(plan, measuring, control, rounds);
    hide Phase, PhaseRun, Breaks, EventsOf, Completions, FirstBroken;
    if f == |rounds| {
      assert e <= k;
      assert Min(e, f) == e;
      EightInside(rounds, e, k);
      assert rounds[e..f] == rounds[e..];
    }
  }

  lemma EightInside(rounds: seq<Round>, e: nat, k: nat)
    requires e <= k && k + 8 <= |rounds| && forall i | k <= i < k + 8 :: EventsOf(rounds[i]) != []
    ensures Completions(rounds[e..]) >= 8
  {
    hide EventsOf, Completions;
    var before, eight, after := rounds[e..k], rounds[k..k + 8], rounds[k + 8..];
    assert rounds[e..] == before + (eight + after);
    CompletionsJoin(before, eight + after);
    CompletionsJoin(eight, after);
    CompletionsAtLeast(eight);
  }

  // ---------------------------------------------------------------- which batches come back as they were reaped

  /** No slot is reaped at a position beyond its own number. */
  predicate Orderly(slots: seq<nat>) {
    forall j | 0 <= j < |slots| :: slots[j] >= j
  }

  /** The largest position that is beyond its slot: that slot is then submitted at two positions. */
  lemma {:induction false} LastDisorder(slots: seq<nat>, n: nat) returns (j: nat)
    requires n <= |slots| && !Orderly(slots[..n])
    ensures j < n && slots[j] < j && forall l | j < l < n :: slots[l] >= l
    decreases n
  {
    if slots[n - 1] < n - 1 {
      j := n - 1;
    } else {
      assert exists k | 0 <= k < n - 1 :: slots[..n][k] < k by {
        var k :| 0 <= k < n && slots[..n][k] < k;
        assert k < n - 1;
      }
      var k :| 0 <= k < n - 1 && slots[..n][k] < k;
      assert slots[..n - 1][k] < k;
      j := LastDisorder(slots, n - 1);
    }
  }

  /** Even for slots already duplicated: a position keeps its slot unless a later slot equals the position. */
  lemma BatchExactInGeneral(slots: seq<nat>)
    ensures Batch(slots) == slots
      <==> forall i, j | 0 <= i < j < |slots| && slots[j] == i :: slots[i] == i
  {
    if Batch(slots) == slots {
      forall i, j | 0 <= i < j < |slots| && slots[j] == i ensures slots[i] == i {
        assert Batch(slots)[i] == i;
      }
    }
  }

  /** The resubmitted batch is the reaped one exactly when every reaped position j holds a slot >= j;
      otherwise some slot is submitted twice. */
  lemma BatchExact(slots: seq<nat>)
    requires InRange(slots) && Distinct(slots)
    ensures Batch(slots) == slots <==> Orderly(slots)
    ensures Distinct(Batch(slots)) <==> Orderly(slots)
  {
    var batch := Batch(slots);
    BatchExactInGeneral(slots);
    if !Orderly(slots) {
      assert slots[..|slots|] == slots;
      var j := LastDisorder(slots, |slots|);
      var i := slots[j];
      assert batch[i] == i;
      assert batch[j] == i by {
        if l :| j < l < |slots| && slots[l] == j {
          assert false;
        }
      }
      assert batch[i] == batch[j] && slots[i] != slots[j];
    }
  }

  /** Reaping slot 1 before slot 0 submits slot 0 twice and drops slot 1. */
  lemma ReapedInReverse()
    ensures Batch([1, 0]) == [0, 0] && !Orderly([1, 0])
  {
    var slots := [1, 0];
    assert slots[1] == 0;
    assert Submitted(slots, 2, 0) == 0;
    assert Submitted(slots, 2, 1) == 0;
  }

  // ---------------------------------------------------------------- orderly runs

  /** One copy of each slot at most is in flight, and the requests so far are the planned ones, in order. */
  ghost predicate InOrder(plan: Plan, s: State)
    requires plan.Valid()
  {
    && s.prepared == |s.log|
    && (forall slot :: s.inflight[slot] <= 1)
    && forall k | 0 <= k < |s.log| :: s.log[k].offset == plan.OffsetAt(k)
  }

  predicate OrderlyRounds(rounds: seq<Round>) {
    forall r | 0 <= r < |rounds| :: rounds[r].reap.Reaped? ==> Orderly(SlotsOf(rounds[r].reap.events))
  }

  lemma CountsTwice(slots: seq<nat>, i: nat, j: nat)
    requires i < j < |slots| && slots[i] == slots[j]
    ensures multiset(slots)[slots[i]] >= 2
  {
    assert slots == slots[..i] + [slots[i]] + slots[i + 1..j] + [slots[j]] + slots[j + 1..];
  }

  lemma SingleCopies(slots: seq<nat>, inflight: multiset<nat>)
    requires multiset(slots) <= inflight && forall slot :: inflight[slot] <= 1
    ensures Distinct(slots)
  {
    forall i, j | 0 <= i < j < |slots| ensures slots[i] != slots[j] {
      if slots[i] == slots[j] {
        CountsTwice(slots, i, j);
      }
    }
  }

  lemma {:induction false} PreparedOffsets(plan: Plan, control: seq<nat>, slots: seq<nat>, first: nat, j: nat)
    requires plan.Valid() && |control| == DEPTH && InRange(slots) && Distinct(slots) && j < |slots|
    ensures Prepared(plan, control, slots, first)[slots[j]] == plan.OffsetAt(first + j)
    decreases |slots|
  {
    hide Plan.OffsetAt;
    var last := |slots| - 1;
    if j < last {
      PreparedOffsets(plan, control, slots[..last], first, j);
    }
  }

  lemma ReapInOrder(plan: Plan, measuring: bool, s: State, events: seq<Completion>)
    requires plan.Valid() && InOrder(plan, s) && |events| <= s.outstanding && multiset(SlotsOf(events)) <= s.inflight
    ensures InOrder(plan, AfterReap(plan, measuring, s, events))
    ensures forall slot | slot in SlotsOf(events) :: AfterReap(plan, measuring, s, events).inflight[slot] == 0
    ensures Distinct(SlotsOf(events))
  {
    hide Plan.OffsetAt, SlotsOf, GoodPrefix;
    var slots := SlotsOf(events);
    SingleCopies(slots, s.inflight);
    forall slot | slot in slots ensures (s.inflight - multiset(slots))[slot] == 0 {
      assert slot in multiset(slots) && s.inflight[slot] <= 1;
    }
  }

  lemma {:induction false} DistinctCounts(slots: seq<nat>, slot: nat)
    requires Distinct(slots)
    ensures multiset(slots)[slot] <= 1
    decreases |slots|
  {
    if slots != [] {
      var last := |slots| - 1;
      assert slots == slots[..last] + [slots[last]];
      DistinctCounts(slots[..last], slot);
      if slot == slots[last] {
        assert slot !in slots[..last];
      }
    }
  }

  lemma RequestsInOrder(plan: Plan, control: seq<nat>, slots: seq<nat>, first: nat)
    requires plan.Valid() && |control| == DEPTH && InRange(slots) && Distinct(slots)
    ensures forall k | 0 <= k < |slots| ::
      Requests(Prepared(plan, control, slots, first), slots)[k].offset == plan.OffsetAt(first + k)
  {
    hide Plan.OffsetAt, Prepared, Distinct;
    var prepared := Prepared(plan, control, slots, first);
    forall k | 0 <= k < |slots| ensures Requests(prepared, slots)[k].offset == plan.OffsetAt(first + k) {
      PreparedOffsets(plan, control, slots, first, k);
    }
  }

  lemma JoinSingles(inflight: multiset<nat>, slots: seq<nat>, slot: nat)
    requires Distinct(slots) && inflight[slot] <= 1 && (slot in slots ==> inflight[slot] == 0)
    ensures (inflight + multiset(slots))[slot] <= 1
  {
    DistinctCounts(slots, slot);
    hide Distinct;
    if slot !in slots {
      assert slot !in multiset(slots);
    }
  }

  lemma SubmitInOrder(plan: Plan, s: State, slots: seq<nat>)
    requires plan.Valid() && StateValid(s) && InOrder(plan, s) && InRange(slots) && Distinct(slots) && Orderly(slots)
    requires forall slot | slot in slots :: s.inflight[slot] == 0
    ensures InOrder(plan, AfterSubmit(AfterPrepare(plan, s, slots), slots))
  {
    hide Plan.OffsetAt, Prepared, Batch, Orderly, Distinct, Requests;
    BatchExact(slots);
    RequestsInOrder(plan, s.control, slots, s.prepared);
    RequestsLength(Prepared(plan, s.control, slots, s.prepared), slots);
    forall slot: nat ensures (s.inflight + multiset(slots))[slot] <= 1 {
      JoinSingles(s.inflight, slots, slot);
    }
    var t := AfterSubmit(AfterPrepare(plan, s, slots), slots);
    assert t.prepared == |t.log|;
    assert forall slot :: t.inflight[slot] <= 1;
    forall k | 0 <= k < |t.log| ensures t.log[k].offset == plan.OffsetAt(k) {
      if k >= |s.log| {
        assert t.control == Prepared(plan, s.control, slots, s.prepared);
        assert t.log[k] == Requests(t.control, slots)[k - |s.log|];
        assert Requests(t.control, slots)[k - |s.log|].offset == plan.OffsetAt(s.prepared + (k - |s.log|));
      }
    }
  }

  lemma RequestsLength(control: seq<nat>, batch: seq<nat>)
    requires |control| == DEPTH && InRange(batch)
    ensures |Requests(control, batch)| == |batch|
  {
  }

  lemma StepInOrder(plan: Plan, measuring: bool, s: State, round: Round)
    requires plan.Valid() && StateValid(s) && KernelAllows(s, round) && InOrder(plan, s)
    requires round.reap.Reaped? ==> Orderly(SlotsOf(round.reap.events))
    ensures var (t, status) := Step(plan, measuring, s, round); status == Going ==> InOrder(plan, t)
  {
    hide AfterPrepare, AfterSubmit, SlotsOf, Orderly, GoodPrefix;
    if round.reap.Reaped? {
      var s1 := if s.accepting && round.expired then s.(accepting := false) else s;
      var events := round.reap.events;
      ReapInOrder(plan, measuring, s1, events);
      SubmitInOrder(plan, AfterReap(plan, measuring, s1, events), SlotsOf(events));
    }
  }

  /** As long as every batch is reaped in order, the k-th request of the whole phase goes to the k-th planned
      offset, and no buffer is ever used by two requests at once. */
  lemma {:induction false} PlayInOrder(plan: Plan, measuring: bool, s: State, rounds: seq<Round>)
    requires plan.Valid() && StateValid(s) && KernelRun(plan, measuring, s, rounds)
    requires InOrder(plan, s) && OrderlyRounds(rounds)
    ensures var (t, outcome) := Play(plan, measuring, s, rounds); outcome != Failed ==> InOrder(plan, t)
    decreases |rounds|
  {
    hide Step, InOrder;
    if s.outstanding > 0 && rounds != [] {
      StepInOrder(plan, measuring, s, rounds[0]);
      var (t, status) := Step(plan, measuring, s, rounds[0]);
      if status == Going {
        StepKeepsShape(plan, measuring, s, rounds[0]);
        PlayInOrder(plan, measuring, t, rounds[1..]);
      }
    }
  }

  lemma StepKeepsShape(plan: Plan, measuring: bool, s: State, round: Round)
    requires plan.Valid() && StateValid(s) && KernelAllows(s, round)
    ensures StateValid(Step(plan, measuring, s, round).0)
  {
  }

  lemma InitialInOrder(plan: Plan, control: seq<nat>)
    requires plan.Valid() && |control| == DEPTH
    ensures InOrder(plan, Initial(plan, control))
  {
    hide Plan.OffsetAt, Prepared, Requests;
    AllSlotsDistinct();
    RequestsInOrder(plan, control, AllSlots(), 0);
    RequestsLength(Prepared(plan, control, AllSlots(), 0), AllSlots());
    forall slot: nat ensures multiset(AllSlots())[slot] <= 1 {
      DistinctCounts(AllSlots(), slot);
    }
    var t := Initial(plan, control);
    assert t.prepared == |t.log|;
    assert forall slot :: t.inflight[slot] <= 1;
    assert forall k | 0 <= k < |t.log| :: t.log[k].offset == plan.OffsetAt(0 + k);
  }

  lemma AllSlotsDistinct()
    ensures Distinct(AllSlots()) && InRange(AllSlots()) && |AllSlots()| == DEPTH
  {
  }

  /** A whole phase whose batches are all reaped in order: its k-th request goes to the k-th planned offset,
      and no buffer is used by two requests at once. */
  lemma PhaseInOrder(plan: Plan, measuring: bool, control: seq<nat>, rounds: seq<Round>)
    requires plan.Valid() && |control| == DEPTH && PhaseRun(plan, measuring, control, rounds)
    requires OrderlyRounds(rounds)
    ensures var (t, outcome) := Phase(plan, measuring, control, rounds);
      outcome != Failed ==>
        && (forall k | 0 <= k < |t.log| :: t.log[k].offset == plan.OffsetAt(k))
        && (forall slot: nat :: t.inflight[slot] <= 1)
  {
    InitialValid(plan, control);
    InitialInOrder(plan, control);
    hide Play, Initial, KernelRun, OrderlyRounds, Plan.OffsetAt;
    PlayInOrder(plan, measuring, Initial(plan, control), rounds);
  }

  /** A batch taken from an orderly state leaves an orderly state exactly when it was reaped in order:
      otherwise two requests in flight share a slot, and with it a buffer. */
  lemma StepInOrderExactly(plan: Plan, measuring: bool, s: State, round: Round)
    requires plan.Valid() && StateValid(s) && KernelAllows(s, round) && InOrder(plan, s)
    requires s.accepting && !round.expired && round.reap.Reaped? && round.reap.events != []
    requires GoodPrefix(round.reap.events) == |round.reap.events| == round.accepted
    ensures InOrder(plan, Step(plan, measuring, s, round).0) <==> Orderly(SlotsOf(round.reap.events))
  {
    var slots := SlotsOf(round.reap.events);
    if Orderly(slots) {
      StepInOrder(plan, measuring, s, round);
    } else {
      hide Plan.OffsetAt, Prepared, Batch, Orderly, SlotsOf, GoodPrefix;
      ReapInOrder(plan, measuring, s, round.reap.events);
      BatchExact(slots);
      var batch := Batch(slots);
      var i, j :| 0 <= i < j < |batch| && batch[i] == batch[j];
      CountsTwice(batch, i, j);
      var t := Step(plan, measuring, s, round).0;
      assert t.inflight == AfterReap(plan, measuring, s, round.reap.events).inflight + multiset(batch);
      assert t.inflight[batch[i]] >= 2;
    }
  }

  /** A random plan goes through its list from the first offset to the last, lap after lap. */
  lemma RandomLaps(plan: Plan, lap: nat, i: nat)
    requires plan.Valid() && plan.random && i < |plan.offsets|
    ensures plan.OffsetAt(lap * |plan.offsets| + i) == plan.offsets[i]
  {
    DivideBack(lap, |plan.offsets|, i);
  }

  /** A sequential plan sweeps the file block by block, never past its end, and starts over at the end. */
  lemma {:induction false} SequentialSweep(plan: Plan, blocks: nat, k: nat) returns (n: nat)
    requires plan.Valid() && !plan.random && plan.size == blocks * plan.block
    ensures n < blocks && plan.OffsetAt(k) == n * plan.block && plan.OffsetAt(k) + plan.block <= plan.size
    ensures plan.OffsetAt(k + 1)
      == if plan.OffsetAt(k) + plan.block == plan.size then 0 else plan.OffsetAt(k) + plan.block
    decreases k
  {
    if k == 0 {
      n := 0;
      assert blocks > 0;
    } else {
      var before := SequentialSweep(plan, blocks, k - 1);
      if before + 1 == blocks {
        n := 0;
        assert (before + 1) * plan.block == before * plan.block + plan.block;
      } else {
        n := before + 1;
        assert (before + 1) * plan.block == before * plan.block + plan.block;
        if plan.OffsetAt(k - 1) + plan.block == plan.size {
          MulMonotone(before + 2, blocks, plan.block);
          assert (before + 2) * plan.block == before * plan.block + 2 * plan.block;
        }
      }
    }
    Sweep(plan, blocks, n, k);
  }

  lemma Sweep(plan: Plan, blocks: nat, n: nat, k: nat)
    requires plan.Valid() && !plan.random && plan.size == blocks * plan.block
    requires n < blocks && plan.OffsetAt(k) == n * plan.block
    ensures plan.OffsetAt(k) + plan.block <= plan.size
    ensures plan.OffsetAt(k + 1)
      == if plan.OffsetAt(k) + plan.block == plan.size then 0 else plan.OffsetAt(k) + plan.block
  {
    MulMonotone(n + 1, blocks, plan.block);
    assert (n + 1) * plan.block == n * plan.block + plan.block;
    SmallModulo(plan.OffsetAt(k) + plan.block, plan.size);
  }

  lemma SmallModulo(x: nat, m: nat)
    requires m > 0 && x <= m
    ensures x % m == if x == m then 0 else x
  {
  }

  // ---------------------------------------------------------------- the loop over the arrays

  lemma PreparedNext(plan: Plan, control: seq<nat>, slots: seq<nat>, first: nat, k: nat)
    requires plan.Valid() && |control| == DEPTH && InRange(slots) && k < |slots|
    ensures Prepared(plan, control, slots[..k + 1], first)
      == Prepared(plan, control, slots[..k], first)[slots[k] := plan.OffsetAt(first + k)]
  {
    assert slots[..k + 1][..k] == slots[..k];
  }

  lemma SubmittedNext(slots: seq<nat>, k: nat, i: nat)
    requires i < k < |slots|
    ensures Submitted(slots, k + 1, i) == if slots[k] == i then i else Submitted(slots, k, i)
    ensures Submitted(slots, k + 1, k) == slots[k]
  {
  }

  class Queue {
    const plan: Plan
    const measuring: bool
    const control: array<nat>      // the offset in each control block
    const submissions: array<nat>  // which control block each position points to
    var cursor: nat
    var sequentialOffset: nat
    var outstanding: nat
    var accepting: bool
    var bytes: nat
    var io: nat
    ghost var prepared: nat
    ghost var log: seq<Request>
    ghost var reaped: nat
    ghost var inflight: multiset<nat>

    ghost predicate Valid()
      reads this, control, submissions
    {
      && plan.Valid() && control.Length == submissions.Length == DEPTH && control != submissions
      && (if plan.random then cursor == prepared else sequentialOffset == plan.OffsetAt(prepared))
    }

    ghost function Abstract(): (s: State)
      requires Valid()
      reads this, control, submissions
      ensures StateValid(s)
    {
      State(control[..], prepared, outstanding, accepting, bytes, io, log, reaped, inflight)
    }

    method Prepare(slot: nat)
      requires Valid() && slot < DEPTH
      modifies this`cursor, this`sequentialOffset, this`prepared, control, submissions
      ensures Valid() && prepared == old(prepared) + 1
      ensures control[..] == old(control[..])[slot := plan.OffsetAt(old(prepared))]
      ensures submissions[..] == old(submissions[..])[slot := slot]
    {
      var offset := 0;
      if plan.random {
        offset := plan.offsets[cursor % |plan.offsets|];
        cursor := cursor + 1;
      } else {
        offset := sequentialOffset;
        sequentialOffset := (sequentialOffset + plan.block) % plan.size;
      }
      control[slot] := offset;
      submissions[slot] := slot;
      prepared := prepared + 1;
    }

    /** Prepares each reaped slot and points the batch at it: `Prepare` also writes at the slot's own position. */
    method Resubmit(slots: seq<nat>)
      requires Valid() && InRange(slots)
      modifies this`cursor, this`sequentialOffset, this`prepared, control, submissions
      ensures Valid() && prepared == old(prepared) + |slots|
      ensures control[..] == Prepared(plan, old(control[..]), slots, old(prepared))
      ensures submissions[..|slots|] == Batch(slots)
    {
      hide Plan.OffsetAt, Prepared, Submitted;
      ghost var before, first := control[..], prepared;
      assert Prepared(plan, before, slots[..0], first) == before by { PreparedNothing(plan, before, slots[..0], first); }
      for k := 0 to |slots|
        invariant Valid() && prepared == first + k
        invariant control[..] == Prepared(plan, before, slots[..k], first)
        invariant forall i | 0 <= i < k :: submissions[i] == Submitted(slots, k, i)
      {
        PreparedNext(plan, before, slots, first, k);
        ghost var held := submissions[..];
        Prepare(slots[k]);
        submissions[k] := slots[k];
        SubmittedLast(slots, k);
        forall i | 0 <= i < k ensures submissions[i] == Submitted(slots, k + 1, i) {
          assert submissions[i] == held[slots[k] := slots[k]][i];
          SubmittedNext(slots, k, i);
        }
      }
      assert slots[..|slots|] == slots;
    }

    /** Takes the reaped completions off the books; ok when all were complete. */
    method Reap(events: seq<Completion>) returns (ok: bool)
      requires Valid() && |events| <= outstanding
      modifies this
      ensures Valid() && ok == (GoodPrefix(events) == |events|)
      ensures Abstract() == AfterReap(plan, measuring, old(Abstract()), events)
    {
      hide Plan.OffsetAt, SlotsOf;
      outstanding := outstanding - |events|;
      reaped := reaped + |events|;
      inflight := inflight - multiset(SlotsOf(events));
      ok := CountBytes(events);
    }

    /** Prepares and submits the reaped slots again; ok when the kernel took all of them. */
    method SubmitAgain(slots: seq<nat>, accepted: int) returns (ok: bool)
      requires Valid() && InRange(slots)
      modifies this, control, submissions
      ensures Valid() && ok == (accepted == |slots|)
      ensures Abstract() == if ok then AfterSubmit(AfterPrepare(plan, old(Abstract()), slots), slots)
                            else AfterPrepare(plan, old(Abstract()), slots)
    {
      hide Plan.OffsetAt, Prepared, Batch;
      Resubmit(slots);
      ok := accepted == |slots|;
      if ok {
        BatchInRange(slots);
        outstanding := outstanding + |slots|;
        log := log + Requests(control[..], submissions[..|slots|]);
        inflight := inflight + multiset(submissions[..|slots|]);
      }
    }

    /** The body of the loop. */
    method Turn(round: Round) returns (status: Status)
      requires Valid() && KernelAllows(Abstract(), round)
      modifies this, control, submissions
      ensures Valid()
      ensures (Abstract(), status) == Step(plan, measuring, old(Abstract()), round)
    {
      hide Plan.OffsetAt, AfterReap, AfterPrepare, AfterSubmit, GoodPrefix;
      if accepting && round.expired {
        accepting := false;
      }
      if round.reap.ReapFailed? {
        return Broken;
      }
      var ok := Reap(round.reap.events);
      if !ok {
        return Broken;
      }
      ReapKeepsAccepting(plan, measuring, old(Abstract()), round);
      if accepting && |round.reap.events| > 0 {
        ok := SubmitAgain(SlotsOf(round.reap.events), round.accepted);
        if !ok {
          return Broken;
        }
      }
      return Going;
    }

    /** Counts completions up to the first incomplete one. */
    method CountBytes(events: seq<Completion>) returns (ok: bool)
      requires Valid()
      modifies this`bytes, this`io
      ensures Valid() && ok == (GoodPrefix(events) == |events|)
      ensures bytes == old(bytes) + (if measuring then GoodPrefix(events) else 0) * plan.block
      ensures io == old(io) + (if measuring then GoodPrefix(events) else 0)
    {
      var index := 0;
      while index < |events|
        invariant index <= GoodPrefix(events)
        invariant bytes == old(bytes) + (if measuring then index else 0) * plan.block
        invariant io == old(io) + (if measuring then index else 0)
      {
        GoodPrefixAt(events, index);
        if !events[index].complete {
          return false;
        }
        if measuring {
          Distribute(index, 1, plan.block);
          bytes := bytes + plan.block;
          io := io + 1;
        }
        index := index + 1;
      }
      return true;
    }

    constructor (plan: Plan, measuring: bool)
      requires plan.Valid()
      ensures Valid() && fresh(control) && fresh(submissions)
      ensures this.plan == plan && this.measuring == measuring && prepared == 0
    {
      this.plan := plan;
      this.measuring := measuring;
      control := new nat[DEPTH](_ => 0);
      submissions := new nat[DEPTH](_ => 0);
      cursor, sequentialOffset, prepared := 0, 0, 0;
      outstanding, accepting, bytes, io := 0, true, 0, 0;
      log, reaped, inflight := [], 0, multiset{};
    }

    /** All eight slots are prepared and submitted; ok when the kernel took them all. */
    method Open(submitted: int) returns (ok: bool)
      requires Valid() && prepared == 0
      modifies this, control, submissions
      ensures Valid() && ok == (submitted == DEPTH)
      ensures ok ==> Abstract() == Initial(plan, old(control[..]))
    {
      hide Prepared, Plan.OffsetAt;
      ghost var before := control[..];
      PreparedNothing(plan, before, AllSlots()[..0], 0);
      for slot := 0 to DEPTH
        invariant Valid() && prepared == slot
        invariant control[..] == Prepared(plan, before, AllSlots()[..slot], 0)
        invariant forall i | 0 <= i < slot :: submissions[i] == i
      {
        PreparedNext(plan, before, AllSlots(), 0, slot);
        Prepare(slot);
      }
      assert AllSlots()[..DEPTH] == AllSlots();
      assert submissions[..] == AllSlots();
      ok := submitted == DEPTH;
      outstanding, accepting, bytes, io := DEPTH, true, 0, 0;
      log, reaped, inflight := Requests(control[..], submissions[..]), 0, multiset(submissions[..]);
    }

    method Run(rounds: seq<Round>) returns (outcome: Outcome)
      requires Valid() && KernelRun(plan, measuring, Abstract(), rounds)
      modifies this, control, submissions
      ensures Valid()
      ensures (Abstract(), outcome) == Play(plan, measuring, old(Abstract()), rounds)
    {
      hide Step, Plan.OffsetAt;
      ghost var s0 := Abstract();
      var turn := 0;
      while outstanding > 0
        invariant Valid() && turn <= |rounds|
        invariant KernelRun(plan, measuring, Abstract(), rounds[turn..])
        invariant Play(plan, measuring, Abstract(), rounds[turn..]) == Play(plan, measuring, s0, rounds)
        decreases |rounds| - turn
      {
        if turn == |rounds| {
          return Waiting;
        }
        assert rounds[turn..][0] == rounds[turn] && rounds[turn..][1..] == rounds[turn + 1..];
        var status := Turn(rounds[turn]);
        if status == Broken {
          return Failed;
        }
        turn := turn + 1;
      }
      return Finished;
    }

    /** One call of the phase: it fails at once unless the kernel takes all eight requests. */
    method RunPhase(submitted: int, rounds: seq<Round>) returns (outcome: Outcome)
      requires Valid() && prepared == 0 && PhaseRun(plan, measuring, control[..], rounds)
      modifies this, control, submissions
      ensures Valid()
      ensures submitted != DEPTH ==> outcome == Failed
      ensures submitted == DEPTH ==> (Abstract(), outcome) == Phase(plan, measuring, old(control[..]), rounds)
    {
      hide Play, Initial, KernelRun;
      InitialValid(plan, control[..]);
      var ok := Open(submitted);
      if !ok {
        return Failed;
      }
      outcome := Run(rounds);
    }
  }

  lemma {:induction false} GoodPrefixAt(events: seq<Completion>, k: nat)
    requires k < |events| && k <= GoodPrefix(events)
    ensures events[k].complete <==> k < GoodPrefix(events)
  {
    if events != [] && events[0].complete && k > 0 {
      GoodPrefixAt(events[1..], k - 1);
    }
  }

  lemma ReapKeepsAccepting(plan: Plan, measuring: bool, s: State, round: Round)
    requires round.reap.Reaped? && |round.reap.events| <= s.outstanding
    ensures var t := if s.accepting && round.expired then s.(accepting := false) else s;
      var u := AfterReap(plan, measuring, t, round.reap.events);
      u.accepting == t.accepting && u.control == t.control && StateValid(u) == StateValid(t)
  {
  }

  lemma PreparedNothing(plan: Plan, control: seq<nat>, slots: seq<nat>, first: nat)
    requires plan.Valid() && |control| == DEPTH && slots == []
    ensures Prepared(plan, control, slots, first) == control
  {
  }

  lemma SubmittedLast(slots: seq<nat>, k: nat)
    requires k < |slots|
    ensures Submitted(slots, k + 1, k) == slots[k]
  {
  }
}
