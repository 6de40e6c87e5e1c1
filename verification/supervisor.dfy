/** The supervisor: it registers one listener per bind address, answers a
    stop signal in two phases, and maps the outcome of a run to the
    process's exit code. The io_service and its worker threads are reduced
    to two flags: whether it exists and whether it was stopped. */
module Supervisor {

  const ExitSuccess: int := 0
  const ExitFailure: int := 1

  /** A TCP listener on one address. The supervisor does not own it, so it
      may be gone (not alive) by the time a stop reaches it. */
  class Listener {
    const address: string
    const port: nat
    var alive: bool
    var cancelled: bool
    var accepting: bool

    constructor(address: string, port: nat)
      ensures this.address == address && this.port == port
      ensures alive && !cancelled && !accepting
    {
      this.address := address;
      this.port := port;
      alive := true;
      cancelled := false;
      accepting := false;
    }

    method StartAccept()
      modifies this`accepting
      ensures accepting
    {
      accepting := true;
    }

    method Cancel()
      modifies this`cancelled
      ensures cancelled
    {
      cancelled := true;
    }
  }

  // ------------------------------------------------------------ stop as values

  datatype ListenerState = ListenerState(alive: bool, cancelled: bool)

  /** What stop() looks at and changes. */
  datatype CoreState = CoreState(
    shuttingDown: bool,
    hasIoService: bool,
    ioStopped: bool,
    listeners: seq<ListenerState>)

  /** Cancel every listener that is still alive; skip the others. */
  function CancelAlive(ls: seq<ListenerState>): (r: seq<ListenerState>)
    ensures |r| == |ls|
    ensures forall k :: 0 <= k < |ls| ==>
      r[k].alive == ls[k].alive && r[k].cancelled == (ls[k].cancelled || ls[k].alive)
  {
    if ls == [] then []
    else [ls[0].(cancelled := ls[0].cancelled || ls[0].alive)] + CancelAlive(ls[1..])
  }

  /** One stop(): the first one marks the shutdown and cancels the live
      listeners; every later one stops the io_service, if there is one. */
  function StopStep(s: CoreState): CoreState
  {
    if s.shuttingDown then s.(ioStopped := s.ioStopped || s.hasIoService)
    else s.(shuttingDown := true, listeners := CancelAlive(s.listeners))
  }

  /** n stop signals in a row. */
  function Stops(s: CoreState, n: nat): CoreState
    decreases n
  {
    if n == 0 then s else Stops(StopStep(s), n - 1)
  }

  /** The first stop leaves the io_service running and cancels exactly the
      live listeners; a later stop cancels nothing and only stops the
      io_service. */
  lemma StopPhases(s: CoreState)
    ensures !s.shuttingDown ==>
      var t := StopStep(s);
      && t.shuttingDown && t.ioStopped == s.ioStopped
      && |t.listeners| == |s.listeners|
      && (forall k :: 0 <= k < |s.listeners| ==>
            t.listeners[k].cancelled == (s.listeners[k].cancelled || s.listeners[k].alive))
    ensures s.shuttingDown ==>
      var t := StopStep(s);
      && t.listeners == s.listeners && t.shuttingDown
      && t.ioStopped == (s.ioStopped || s.hasIoService)
  {
  }

  /** Once two stops have been seen, further stops change nothing. */
  lemma {:induction false} StopsSettle(s: CoreState, n: nat)
    requires n >= 2
    ensures Stops(s, n) == Stops(s, 2)
    decreases n
  {
    var t := StopStep(StopStep(s));
    assert Stops(s, 2) == Stops(StopStep(s), 1) == Stops(t, 0) == t;
    assert StopStep(t) == t;
    if n > 2 {
      StopsSettle(s, n - 1);
      StopsAfter(s, n - 1);
    }
  }

  /** Taking one more stop after n stops is taking n + 1 stops. */
  lemma {:induction false} StopsAfter(s: CoreState, n: nat)
    ensures Stops(s, n + 1) == StopStep(Stops(s, n))
    decreases n
  {
    if n > 0 {
      StopsAfter(StopStep(s), n - 1);
    }
  }

  // ------------------------------------------------------------- the core

  /** The index of the first address that cannot be bound, or the length of
      the list when every address can be. */
  function FirstRefused(bindList: seq<string>, refused: set<string>): (n: nat)
    ensures n <= |bindList|
    ensures forall k :: 0 <= k < n ==> bindList[k] !in refused
    ensures n < |bindList| ==> bindList[n] in refused
  {
    if bindList == [] || bindList[0] in refused then 0
    else 1 + FirstRefused(bindList[1..], refused)
  }

  class Core {
    var shuttingDown: bool
    var hasIoService: bool
    var ioStopped: bool
    /** The listeners in registration order. */
    var listeners: seq<Listener>

    /** Every listener is registered once. */
    predicate Valid()
      reads this
    {
      forall i, j :: 0 <= i < j < |listeners| ==> listeners[i] != listeners[j]
    }

    /** The state stop() works on. */
    ghost function View(): CoreState
      reads this, set l | l in listeners
    {
      CoreState(shuttingDown, hasIoService, ioStopped,
        seq(|listeners|, k requires 0 <= k < |listeners| reads this, set l | l in listeners =>
          ListenerState(listeners[k].alive, listeners[k].cancelled)))
    }

    constructor()
      ensures Valid() && !shuttingDown && !hasIoService && !ioStopped && listeners == []
    {
      shuttingDown := false;
      hasIoService := false;
      ioStopped := false;
      listeners := [];
    }

    /** The stop signal handler; it always asks the application to stop. */
    method Stop() returns (r: bool)
      requires Valid()
      modifies this`shuttingDown, this`ioStopped, listeners`cancelled
      ensures r && listeners == old(listeners) && Valid()
      ensures View() == StopStep(old(View()))
    {
      if shuttingDown {
        if hasIoService {
          ioStopped := true;
        }
        return true;
      }
      shuttingDown := true;
      var k := 0;
      while k < |listeners|
        invariant 0 <= k <= |listeners|
        invariant shuttingDown && ioStopped == old(ioStopped)
        invariant forall j :: 0 <= j < |listeners| ==> listeners[j].alive == old(listeners[j].alive)
        invariant forall j :: 0 <= j < |listeners| ==>
          listeners[j].cancelled == (old(listeners[j].cancelled) || (j < k && listeners[j].alive))
      {
        if listeners[k].alive {
          listeners[k].Cancel();
        }
        k := k + 1;
      }
      forall j | 0 <= j < |listeners|
        ensures View().listeners[j] == CancelAlive(old(View()).listeners)[j]
      {
      }
      return true;
    }

    /** Create a new io_service, not yet stopped, and register one accepting
        listener per bind address, in order. An address that cannot be bound aborts the loop
        with the listeners registered so far left in place. */
    method Run(bindList: seq<string>, port: nat, refused: set<string>) returns (ok: bool)
      requires Valid()
      modifies this`hasIoService, this`ioStopped, this`listeners
      ensures Valid() && hasIoService && !ioStopped
      ensures ok <==> FirstRefused(bindList, refused) == |bindList|
      ensures var n := FirstRefused(bindList, refused);
        && |listeners| == |old(listeners)| + n
        && listeners[..|old(listeners)|] == old(listeners)
        && forall k :: |old(listeners)| <= k < |listeners| ==>
             var l := listeners[k];
             fresh(l) && l.address == bindList[k - |old(listeners)|] && l.port == port
             && l.alive && l.accepting && !l.cancelled
    {
      hasIoService, ioStopped := true, false;
      var k := 0;
      ghost var added: seq<Listener> := [];
      while k < |bindList|
        invariant 0 <= k <= FirstRefused(bindList, refused)
        invariant Valid() && hasIoService && !ioStopped
        invariant |added| == k && listeners == old(listeners) + added
        invariant forall j :: 0 <= j < k ==>
          fresh(added[j]) && added[j].address == bindList[j] && added[j].port == port
          && added[j].alive && added[j].accepting && !added[j].cancelled
      {
        if bindList[k] in refused {
          assert k == FirstRefused(bindList, refused);
          return false;
        }
        var listener := new Listener(bindList[k], port);
        listeners := listeners + [listener];
        added := added + [listener];
        listener.StartAccept();
        k := k + 1;
      }
      return true;
    }

    /** The application body: set up logging, run, and on any exception stop
        and report failure. A failed run leaves the listeners it registered
        in place, so the stop cancels them. */
    method Execute(loggingFails: bool, bindList: seq<string>, port: nat, refused: set<string>)
      returns (exitCode: int)
      requires Valid()
      modifies this, listeners`cancelled
      ensures Valid()
      ensures var n := if loggingFails then 0 else FirstRefused(bindList, refused);
        var caught := loggingFails || n < |bindList|;
        && exitCode == (if caught then ExitFailure else ExitSuccess)
        && |listeners| == |old(listeners)| + n
        && listeners[..|old(listeners)|] == old(listeners)
        && (forall k :: |old(listeners)| <= k < |listeners| ==>
              fresh(listeners[k]) && listeners[k].address == bindList[k - |old(listeners)|]
              && listeners[k].port == port && listeners[k].accepting)
        && var afterRun := CoreState(old(shuttingDown), old(hasIoService) || !loggingFails,
             old(ioStopped) && loggingFails, old(View()).listeners + seq(n, _ => ListenerState(true, false)));
           View() == if caught then StopStep(afterRun) else afterRun
    {
      ghost var before := View();
      var caught := false;
      if loggingFails {
        caught := true;
      } else {
        var ok := Run(bindList, port, refused);
        caught := !ok;
      }
      ghost var n := if loggingFails then 0 else FirstRefused(bindList, refused);
      ghost var afterRun := CoreState(old(shuttingDown), old(hasIoService) || !loggingFails,
        old(ioStopped) && loggingFails, before.listeners + seq(n, _ => ListenerState(true, false)));
      assert View() == afterRun by {
        assert |View().listeners| == |afterRun.listeners|;
        forall k | 0 <= k < |afterRun.listeners|
          ensures View().listeners[k] == afterRun.listeners[k]
        {
          if k < |before.listeners| {
            assert listeners[k] == old(listeners)[k];
          }
        }
      }
      exitCode := ExitSuccess;
      if caught {
        var _ := Stop();
        exitCode := ExitFailure;
      }
    }
  }
}
