/** Stop requests of the storage engine against the end of its run (storage_engine.cpp): a request reads the
    snapshot, and later publishes a stale copy of it. */
module StorageStop {

  datatype Published = Live | Stopping | Terminal

  /** A request before its read, between read and publication, and after. */
  datatype Request = Fresh | Holding | Done

  datatype State = State(published: Published, requests: seq<Request>, ended: bool)

  datatype Event = Progress | End | Read(i: nat) | Write(i: nat)

  function Initial(n: nat): State {
    State(Live, seq(n, _ => Fresh), false)
  }

  predicate Enabled(s: State, e: Event) {
    match e
    case Progress => !s.ended
    case End => !s.ended
    case Read(i) => i < |s.requests| && s.requests[i] == Fresh
    case Write(i) => i < |s.requests| && s.requests[i] == Holding
  }

  /** The run publishes its own copy as it goes and a terminal one at its end; a request that finds a
      terminal snapshot is refused. */
  function Apply(s: State, e: Event): State
    requires Enabled(s, e)
  {
    match e
    case Progress => s.(published := Live)
    case End => s.(published := Terminal, ended := true)
    case Read(i) => s.(requests := s.requests[i := if s.published == Terminal then Done else Holding])
    case Write(i) => s.(requests := s.requests[i := Done], published := Stopping)
  }

  ghost predicate IsRun(s: State, events: seq<Event>)
    decreases |events|
  {
    events != [] ==> Enabled(s, events[0]) && IsRun(Apply(s, events[0]), events[1..])
  }

  function Play(s: State, events: seq<Event>): State
    requires IsRun(s, events)
    decreases |events|
  {
    if events == [] then s else Play(Apply(s, events[0]), events[1..])
  }

  predicate AnyWrite(events: seq<Event>) {
    exists j | 0 <= j < |events| :: events[j].Write?
  }

  predicate WriteAfterEnd(events: seq<Event>) {
    exists i, j | 0 <= i < j < |events| :: events[i] == End && events[j].Write?
  }

  lemma AnyWriteSplit(events: seq<Event>)
    requires events != []
    ensures AnyWrite(events) <==> events[0].Write? || AnyWrite(events[1..])
  {
    if AnyWrite(events[1..]) {
      var j :| 0 <= j < |events[1..]| && events[1..][j].Write?;
      assert events[j + 1].Write?;
    }
    if AnyWrite(events) {
      var j :| 0 <= j < |events| && events[j].Write?;
      assert j > 0 ==> events[1..][j - 1].Write?;
    }
  }

  lemma WriteAfterEndSplit(events: seq<Event>)
    requires events != []
    ensures WriteAfterEnd(events) <==> (events[0] == End && AnyWrite(events[1..])) || WriteAfterEnd(events[1..])
  {
    var rest := events[1..];
    if WriteAfterEnd(rest) {
      var i, j :| 0 <= i < j < |rest| && rest[i] == End && rest[j].Write?;
      assert events[i + 1] == End && events[j + 1].Write?;
    }
    if events[0] == End && AnyWrite(rest) {
      var j :| 0 <= j < |rest| && rest[j].Write?;
      assert events[0] == End && events[j + 1].Write?;
    }
    if WriteAfterEnd(events) {
      var i, j :| 0 <= i < j < |events| && events[i] == End && events[j].Write?;
      assert rest[j - 1].Write?;
      assert i > 0 ==> rest[i - 1] == End;
    }
  }

  /** After the end only a request's publication changes what is published. */
  lemma {:induction false} AfterEnd(s: State, events: seq<Event>)
    requires s.ended && IsRun(s, events)
    ensures Play(s, events).ended
    ensures Play(s, events).published == if AnyWrite(events) then Stopping else s.published
    decreases |events|
  {
    hide AnyWrite;
    if events == [] {
      assert !AnyWrite(events) by { NoWrite(events); }
    } else {
      AnyWriteSplit(events);
      AfterEnd(Apply(s, events[0]), events[1..]);
    }
  }

  lemma NoWrite(events: seq<Event>)
    requires events == []
    ensures !AnyWrite(events) && !WriteAfterEnd(events)
  {
  }

  /** Of any number of stop requests against one run: a run that has ended shows its terminal state if and only
      if no request was published after its end. */
  lemma TerminalShownExactly(n: nat, events: seq<Event>)
    requires IsRun(Initial(n), events) && Play(Initial(n), events).ended
    ensures Play(Initial(n), events).published == Terminal <==> !WriteAfterEnd(events)
  {
    ShownFrom(Initial(n), events);
  }

  lemma {:induction false} ShownFrom(s: State, events: seq<Event>)
    requires !s.ended && IsRun(s, events) && Play(s, events).ended
    ensures Play(s, events).published == Terminal <==> !WriteAfterEnd(events)
    decreases |events|
  {
    hide WriteAfterEnd, AnyWrite;
    if events != [] {
      WriteAfterEndSplit(events);
      if events[0] == End {
        AfterEnd(Apply(s, End), events[1..]);
        OneEnd(Apply(s, End), events[1..]);
      } else {
        ShownFrom(Apply(s, events[0]), events[1..]);
      }
    }
  }

  lemma {:induction false} OneEnd(s: State, events: seq<Event>)
    requires s.ended && IsRun(s, events)
    ensures !WriteAfterEnd(events)
    decreases |events|
  {
    hide WriteAfterEnd, AnyWrite;
    if events == [] {
      NoWrite(events);
    } else {
      WriteAfterEndSplit(events);
      OneEnd(Apply(s, events[0]), events[1..]);
    }
  }

  /** Overwritten, the engine stays busy: no later event makes the snapshot terminal, and without that no run
      can be started again. */
  lemma BusyForGood(s: State, events: seq<Event>)
    requires s.ended && s.published != Terminal && IsRun(s, events)
    ensures Play(s, events).published != Terminal
  {
    AfterEnd(s, events);
  }

  /** The events overwrite the terminal state. */
  ghost predicate Loses(s: State, events: seq<Event>) {
    IsRun(s, events) && Play(s, events).published != Terminal
  }

  /** At its end, a run's terminal state can still be lost if and only if some request has read the snapshot
      before and not yet published its copy. */
  lemma CanBeLostExactly(s: State)
    requires s.ended && s.published == Terminal
    ensures (exists events :: Loses(s, events)) <==>
      exists i | 0 <= i < |s.requests| :: s.requests[i] == Holding
  {
    if i :| 0 <= i < |s.requests| && s.requests[i] == Holding {
      var events := [Write(i)];
      assert events[1..] == [];
      assert IsRun(Apply(s, Write(i)), []) && Play(Apply(s, Write(i)), []) == Apply(s, Write(i));
      assert Loses(s, events);
    } else {
      forall events | IsRun(s, events) ensures !Loses(s, events) {
        NoHolderNoWrite(s, events);
        AfterEnd(s, events);
      }
    }
  }

  lemma {:induction false} NoHolderNoWrite(s: State, events: seq<Event>)
    requires s.ended && s.published == Terminal && IsRun(s, events)
    requires forall i | 0 <= i < |s.requests| :: s.requests[i] != Holding
    ensures !AnyWrite(events)
    decreases |events|
  {
    hide AnyWrite;
    if events == [] {
      NoWrite(events);
    } else {
      AnyWriteSplit(events);
      NoHolderNoWrite(Apply(s, events[0]), events[1..]);
    }
  }
}
