/** The objects behind RunLease: coordinator, lease, controller and engine, each updated in place
    (benchmark_run_coordinator.dart, benchmark_controller.dart). */
module RunControllers {
  import opened Common
  import opened RunLease

  /** A lease is its identity; its callback is the owner's stop. */
  class Lease {
    const owner: Controller
    ghost const serial: nat

    constructor (owner: Controller, ghost serial: nat)
      ensures this.owner == owner && this.serial == serial
    {
      this.owner := owner;
      this.serial := serial;
    }
  }

  class Coordinator {
    var active: Lease?
    var foreground: bool
    ghost var leases: seq<Lease>

    constructor ()
      ensures Valid() && View() == Board(None, true, 0)
    {
      active := null;
      foreground := true;
      leases := [];
    }

    ghost function View(): Board
      reads this
    {
      Board(if active == null then None else Some(Ticket(active.serial, active.owner.id)), foreground, |leases|)
    }

    ghost predicate Issued(lease: Lease)
      reads this
    {
      lease.serial < |leases| && leases[lease.serial] == lease
    }

    ghost predicate Valid()
      reads this
    {
      active != null ==> Issued(active)
    }

    method TryAcquire(owner: Controller) returns (lease: Lease?)
      requires Valid()
      modifies this
      ensures Valid() && old(leases) <= leases
      ensures lease != null <==> old(foreground && active == null)
      ensures lease != null ==> View() == Acquire(old(View()), owner.id)
      ensures lease != null ==> lease.serial == old(|leases|) && Issued(lease) && active == lease && lease.owner == owner
      ensures lease == null ==> View() == old(View()) && active == old(active)
    {
      if !foreground || active != null {
        return null;
      }
      lease := new Lease(owner, |leases|);
      leases := leases + [lease];
      active := lease;
    }

    /** Compares leases by identity; a lease that is not the active one changes nothing. */
    method GiveBack(lease: Lease)
      requires Valid() && Issued(lease)
      modifies this
      ensures Valid() && leases == old(leases)
      ensures View() == Release(old(View()), lease.serial) && active in {null, old(active)}
    {
      if active != lease {
        return;
      }
      active := null;
    }

    /** The stop request reaches the active lease's owner; the lease stays. */
    method SetForeground(foreground: bool)
      requires Valid()
      modifies this, if active != null then {active.owner, active.owner.engine} else {}
      ensures Valid() && leases == old(leases) && active == old(active)
      ensures View() == old(View()).(foreground := foreground)
      ensures active != null ==> active.owner.lease == old(active.owner.lease)
      ensures active != null ==>
        active.owner.View() ==
        if old(this.foreground) && !foreground then RunLease.Stop(old(active.owner.View())) else old(active.owner.View())
    {
      if this.foreground == foreground {
        return;
      }
      this.foreground := foreground;
      if !foreground && active != null {
        active.owner.Stop();
      }
    }
  }

  /** The native engine, reached through the bridge. */
  class Engine {
    var run: nat
    var state: State
    var test: Test
    var stopping: bool
    var nextRun: nat
    var destroyed: bool

    constructor ()
      ensures View() == Native(0, Idle, Single, false, 1, false)
    {
      run, state, test, stopping, nextRun, destroyed := 0, Idle, Single, false, 1, false;
    }

    function View(): Native
      reads this
    {
      Native(run, state, test, stopping, nextRun, destroyed)
    }

    method Start(test: Test, accepted: bool) returns (started: bool)
      modifies this
      ensures started == NativeStart(old(View()), test, accepted).Some?
      ensures View() == if started then NativeStart(old(View()), test, accepted).value else old(View())
    {
      if destroyed || IsRunning(state) || !accepted {
        return false;
      }
      run, state, this.test, stopping, nextRun := nextRun, Preparing, test, false, nextRun + 1;
      return true;
    }

    method RequestStop(run: nat)
      modifies this
      ensures View() == NativeStop(old(View()), run)
    {
      if !destroyed && run != 0 && run == this.run {
        if IsRunning(state) {
          stopping := true;
        }
      }
    }

    method Dispose()
      modifies this
      ensures View() == Destroy(old(View()))
    {
      if IsRunning(state) {
        state := Cancelled;
      }
      destroyed := true;
    }

    method MoveOn(state: State)
      modifies this
      ensures View() == Advance(old(View()), state)
    {
      if IsRunning(this.state) && state != Idle {
        this.state := state;
      }
    }
  }

  class Controller {
    ghost const id: nat
    const coordinator: Coordinator
    const engine: Engine
    var lease: Lease?
    var unavailable: bool
    var known: Known
    var sequence: bool
    var polling: bool
    var disposed: bool

    constructor (ghost id: nat, coordinator: Coordinator)
      requires coordinator.Valid()
      ensures Valid() && View() == FreshOwner() && fresh(engine)
      ensures this.id == id && this.coordinator == coordinator
    {
      this.id, this.coordinator, lease := id, coordinator, null;
      unavailable, known, sequence, polling, disposed := false, Known(0, Idle, Single), false, false, false;
      engine := new Engine();
    }

    ghost function View(): Owner
      reads this, engine
    {
      Owner(if lease == null then None else Some(lease.serial), unavailable, known, sequence, polling, disposed,
            engine.View())
    }

    ghost function Seen(): Both
      reads this, engine, coordinator
    {
      Both(coordinator.View(), View())
    }

    ghost predicate Valid()
      reads this, coordinator
    {
      coordinator.Valid() && (lease != null ==> coordinator.Issued(lease))
    }

    method FinishBenchmark()
      requires Valid()
      modifies this`lease, coordinator
      ensures Valid() && coordinator.leases == old(coordinator.leases)
      ensures Seen() == Finish(old(Seen()))
      ensures coordinator.active in {null, old(coordinator.active)}
    {
      var held := lease;
      lease := null;
      if held != null {
        coordinator.GiveBack(held);
      }
    }

    /** The engine is destroyed, and its workers joined, before anyone else can take the lease. */
    method AbortBenchmark()
      requires Valid() && !sequence && !polling
      modifies this, engine, coordinator
      ensures Valid() && coordinator.leases == old(coordinator.leases)
      ensures Seen() == Abort(old(Seen()))
      ensures coordinator.active in {null, old(coordinator.active)}
    {
      unavailable := true;
      engine.Dispose();
      FinishBenchmark();
    }

    method StartTest(test: Test, accepted: bool)
      requires Valid()
      modifies this, engine, coordinator
      ensures Valid() && coordinator.leases == old(coordinator.leases)
      ensures Seen() == RunLease.StartTest(old(Seen()), test, accepted)
      ensures coordinator.active in {null, old(coordinator.active)}
    {
      hide Abort;
      var started := engine.Start(test, accepted);
      if started {
        known := Known(engine.run, Preparing, test);
        polling := true;
      } else {
        sequence, polling := false, false;
        AbortBenchmark();
        assert Abort(old(Seen())) == Abort(old(Seen()).(owner := old(View()).(sequence := false, polling := false)))
        by {
          AbortClears(old(Seen()));
        }
      }
    }

    method StartCpuBench(topology: bool, accepted: bool)
      requires Valid()
      modifies this, engine, coordinator
      ensures Valid() && old(coordinator.leases) <= coordinator.leases
      ensures Seen() == Start(old(Seen()), id, topology, accepted)
      ensures coordinator.active in {null, old(coordinator.active)} || coordinator.active.owner == this
    {
      hide RunLease.StartTest, Finish;
      if unavailable {
        return;
      }
      var held := coordinator.TryAcquire(this);
      if held == null {
        return;
      }
      lease := held;
      if engine.destroyed || !topology {
        FinishBenchmark();
        return;
      }
      sequence := true;
      StartTest(Single, accepted);
    }

    method Stop()
      modifies this`sequence, engine
      ensures View() == RunLease.Stop(old(View()))
    {
      sequence := false;
      if !IsRunning(known.state) || known.run == 0 {
        return;
      }
      engine.RequestStop(known.run);
    }

    method Poll(readable: bool, accepted: bool)
      requires Valid()
      modifies this, engine, coordinator
      ensures Valid() && coordinator.leases == old(coordinator.leases)
      ensures Seen() == RunLease.Poll(old(Seen()), readable, accepted)
      ensures coordinator.active in {null, old(coordinator.active)}
    {
      hide RunLease.StartTest, Finish, Abort;
      if disposed || !polling {
        return;
      }
      if engine.destroyed || !readable {
        AbortClears(Seen());
        sequence, polling := false, false;
        AbortBenchmark();
        return;
      }
      known := Known(engine.run, engine.state, engine.test);
      if known.state == Completed && known.test == Single && sequence {
        StartTest(Multi, accepted);
        return;
      }
      if IsTerminal(known.state) {
        sequence, polling := false, false;
        FinishBenchmark();
      }
    }

    method Dispose()
      requires Valid()
      modifies this, engine, coordinator
      ensures Valid() && coordinator.leases == old(coordinator.leases)
      ensures Seen() == RunLease.Dispose(old(Seen()))
      ensures coordinator.active in {null, old(coordinator.active)}
    {
      hide Finish;
      disposed, sequence, polling := true, false, false;
      engine.Dispose();
      FinishBenchmark();
    }
  }

  /** Clearing the sequence and the timer first makes no difference to an abort. */
  lemma AbortClears(v: Both)
    ensures Abort(v) == Abort(v.(owner := v.owner.(sequence := false, polling := false)))
  {
  }

  /** All controllers of one application, each with its own engine. */
  class Application {
    const coordinator: Coordinator
    const controllers: seq<Controller>

    constructor (coordinator: Coordinator, controllers: seq<Controller>)
      ensures this.coordinator == coordinator && this.controllers == controllers
    {
      this.coordinator, this.controllers := coordinator, controllers;
    }

    ghost function Footprint(): set<object> {
      {coordinator} + (set c: Controller | c in controllers :: c as object) +
      (set c: Controller | c in controllers :: c.engine as object)
    }

    lemma Owned(i: nat)
      requires i < |controllers|
      ensures coordinator in Footprint() && controllers[i] in Footprint() && controllers[i].engine in Footprint()
    {
      assert controllers[i] in controllers;
    }

    /** Controllers are told apart by their place; a lease's owner is one of them. */
    ghost predicate Wired() {
      && (forall i | 0 <= i < |controllers| :: controllers[i].id == i && controllers[i].coordinator == coordinator)
      && (forall i, j | 0 <= i < j < |controllers| :: controllers[i].engine != controllers[j].engine)
    }

    ghost predicate Valid()
      reads Footprint()
    {
      && Wired()
      && (forall c | c in controllers :: c.Valid())
      && (coordinator.active != null ==> coordinator.active.owner in controllers)
    }

    ghost function ViewOf(i: nat): Owner
      requires i < |controllers|
      reads Footprint()
    {
      Owned(i);
      controllers[i].View()
    }

    ghost function View(): (w: World)
      reads Footprint()
      ensures |w.owners| == |controllers|
    {
      World(coordinator.View(), seq(|controllers|, i requires 0 <= i < |controllers| reads Footprint() => ViewOf(i)))
    }

    /** n controllers around one coordinator, nothing held. */
    static method Launch(n: nat) returns (app: Application)
      ensures fresh(app) && fresh(app.Footprint()) && app.Valid() && app.View() == Initial(n)
      ensures |app.controllers| == n
    {
      var coordinator := new Coordinator();
      var controllers: seq<Controller> := [];
      for i := 0 to n
        invariant fresh(coordinator) && coordinator.Valid() && coordinator.View() == Board(None, true, 0)
        invariant |controllers| == i
        invariant forall k | 0 <= k < i :: fresh(controllers[k]) && fresh(controllers[k].engine)
        invariant forall k | 0 <= k < i :: controllers[k].id == k && controllers[k].coordinator == coordinator
        invariant forall k | 0 <= k < i :: controllers[k].lease == null && controllers[k].View() == FreshOwner()
        invariant forall j, k | 0 <= j < k < i :: controllers[j].engine != controllers[k].engine
      {
        var c := new Controller(i, coordinator);
        controllers := controllers + [c];
      }
      app := new Application(coordinator, controllers);
    }

    /** The events that may move the lease. */
    method HandleLeasing(e: Event)
      requires Valid() && Legal(View(), e) && (e.StartEvent? || e.PollEvent? || e.DisposeEvent?)
      modifies Footprint()
      ensures Valid() && View() == Apply(old(View()), e)
    {
      hide Start, RunLease.Poll, RunLease.Dispose;
      assert forall i, j | 0 <= i < j < |controllers| :: controllers[i] != controllers[j];
      assert forall i | 0 <= i < |controllers| :: controllers[i] in controllers;
      Owned(e.id);
      match e {
        case StartEvent(id, topology, accepted) => controllers[id].StartCpuBench(topology, accepted);
        case PollEvent(id, readable, accepted) => controllers[id].Poll(readable, accepted);
        case DisposeEvent(id) => controllers[id].Dispose();
      }
    }

    method HandleForeground(foreground: bool)
      requires Valid()
      modifies Footprint()
      ensures Valid() && View() == SetForeground(old(View()), foreground)
    {
      hide RunLease.Stop;
      assert forall i | 0 <= i < |controllers| :: controllers[i] in controllers;
      if coordinator.active != null {
        Owned(coordinator.active.owner.id);
      }
      coordinator.SetForeground(foreground);
    }

    method HandleNarrow(e: Event)
      requires Valid() && Legal(View(), e) && (e.StopEvent? || e.NativeEvent?)
      modifies Footprint()
      ensures Valid() && View() == Apply(old(View()), e)
    {
      hide RunLease.Stop, Advance;
      assert forall i, j | 0 <= i < j < |controllers| :: controllers[i] != controllers[j];
      assert controllers[e.id] in controllers;
      Owned(e.id);
      if e.StopEvent? {
        controllers[e.id].Stop();
      } else {
        controllers[e.id].engine.MoveOn(e.state);
      }
    }

    /** Every event on the objects is the event on the values, so what holds of reachable worlds holds here. */
    method Handle(e: Event)
      requires Valid() && Legal(View(), e)
      modifies Footprint()
      ensures Valid() && View() == Apply(old(View()), e)
    {
      match e {
        case StartEvent(_, _, _) => HandleLeasing(e);
        case PollEvent(_, _, _) => HandleLeasing(e);
        case DisposeEvent(_) => HandleLeasing(e);
        case StopEvent(_) => HandleNarrow(e);
        case NativeEvent(_, _) => HandleNarrow(e);
        case ForegroundEvent(foreground) => HandleForeground(foreground);
      }
    }

    /** A whole life of n controllers: whatever happens, the objects are in a world reached by those events. */
    static method Live(n: nat, events: seq<Event>) returns (app: Application)
      requires AllLegal(Initial(n), events)
      ensures app.Valid() && app.View() == Play(Initial(n), events) && Reachable(app.View())
    {
      app := Launch(n);
      for i := 0 to |events|
        invariant fresh(app) && fresh(app.Footprint()) && app.Valid() && |app.controllers| == n
        invariant AllLegal(app.View(), events[i..])
        invariant Play(app.View(), events[i..]) == Play(Initial(n), events)
      {
        assert events[i..][0] == events[i] && events[i..][1..] == events[i + 1..];
        app.Handle(events[i]);
      }
      assert events[|events|..] == [];
    }
  }
}
