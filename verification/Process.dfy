/**
 The life of the process (github-tracker.go): start-up pushes deferred actions, the main goroutine
 then waits for its context, and unwinding runs the deferred actions last in, first out. It is
 composed with the signal protocol and with the stop protocol, in which main is the only caller.
 */
module Process {
  import opened Wrappers
  import Sig = Signals
  import Stop = StopProtocol

  datatype Action = CloseLog | CloseDb | StopRpc

  datatype Phase =
    | LoadingConfig | MakingServer | OpeningDb | SettingUpDb | StartingRpc
    | AwaitingShutdown
    | Unwinding
    | Stopping  // inside the deferred call of Stop
    | Exited

  datatype Main = Main(
    phase: Phase,
    defers: seq<Action>,
    configured: bool, dbOpened: bool, dbSetUp: bool, rpcUp: bool,
    dbClosed: bool, logClosed: bool)

  datatype State = State(main: Main, sig: Sig.State, stop: Stop.State)

  datatype Event =
    | StartUp(ok: bool)           // the next start-up call succeeds or fails
    | SeeShutdown                 // <-ctx.Done()
    | RunDefer                    // take the last deferred action
    | StopReturns
    | Signal(signal: Sig.Event)
    | Rpc(rpc: Stop.Event)

  // Main's own context in the signal protocol and its name in the stop protocol.
  const MAIN: nat := 0

  function Start(listeners: nat): State {
    State(Main(LoadingConfig, [], false, false, false, false, false, false),
          Sig.INIT.(contexts := map[MAIN := false]), Stop.Start(listeners))
  }

  predicate IsStartUp(p: Phase) {
    p.LoadingConfig? || p.MakingServer? || p.OpeningDb? || p.SettingUpDb? || p.StartingRpc?
  }

  predicate NextIsStop(m: Main) { m.defers != [] && m.defers[|m.defers| - 1].StopRpc? }

  predicate StopHasReturned(s: Stop.State) { MAIN in s.callers && Stop.Returned(s.callers[MAIN]) }

  predicate Enabled(s: State, e: Event) {
    match e
    case StartUp(_) => IsStartUp(s.main.phase)
    case SeeShutdown => s.main.phase.AwaitingShutdown? && MAIN in s.sig.contexts && s.sig.contexts[MAIN]
    case RunDefer => s.main.phase.Unwinding? && (NextIsStop(s.main) ==> MAIN !in s.stop.callers)
    case StopReturns => s.main.phase.Stopping? && StopHasReturned(s.stop)
    case Signal(e') => Sig.Enabled(s.sig, e')
    case Rpc(e') => s.main.rpcUp && !e'.Begin? && Stop.Enabled(s.stop, e')
  }

  function Push(m: Main, a: Action, next: Phase): Main { m.(defers := m.defers + [a], phase := next) }

  function StartUpStep(m: Main, ok: bool): Main
    requires IsStartUp(m.phase)
  {
    if !ok then m.(phase := Unwinding)
    else match m.phase
      case LoadingConfig => Push(m, CloseLog, MakingServer).(configured := true)
      case MakingServer => m.(phase := OpeningDb)
      case OpeningDb => m.(phase := SettingUpDb, dbOpened := true)
      case SettingUpDb => Push(m, CloseDb, StartingRpc).(dbSetUp := true)
      case StartingRpc => Push(m, StopRpc, AwaitingShutdown).(rpcUp := true)
  }

  function Apply(s: State, e: Event): State
    requires Enabled(s, e)
  {
    var m := s.main;
    match e
    case StartUp(ok) => s.(main := StartUpStep(m, ok))
    case SeeShutdown => s.(main := m.(phase := Unwinding))
    case RunDefer =>
      if m.defers == [] then s.(main := m.(phase := Exited))
      else
        var rest := m.(defers := m.defers[..|m.defers| - 1]);
        (match m.defers[|m.defers| - 1]
         case CloseLog => s.(main := rest.(logClosed := true))
         case CloseDb => s.(main := rest.(dbClosed := true))
         case StopRpc => s.(main := rest.(phase := Stopping), stop := Stop.Apply(s.stop, Stop.Begin(MAIN))))
    case StopReturns => s.(main := m.(phase := Unwinding))
    case Signal(e') => s.(sig := Sig.Apply(s.sig, e'))
    case Rpc(e') => s.(stop := Stop.Apply(s.stop, e'))
  }

  function After(listeners: nat, es: seq<Event>): Option<State> {
    if es == [] then Some(Start(listeners))
    else match After(listeners, es[..|es| - 1])
      case None => None
      case Some(s) => if Enabled(s, es[|es| - 1]) then Some(Apply(s, es[|es| - 1])) else None
  }

  /** The stop protocol's part of a run. */
  function StopEvents(es: seq<Event>, listeners: nat): seq<Stop.Event> {
    if es == [] then []
    else
      var init, e := es[..|es| - 1], es[|es| - 1];
      match e
      case Rpc(e') => StopEvents(init, listeners) + [e']
      case RunDefer =>
        var s := After(listeners, init);
        if s.Some? && NextIsStop(s.value.main)
        then StopEvents(init, listeners) + [Stop.Begin(MAIN)]
        else StopEvents(init, listeners)
      case _ => StopEvents(init, listeners)
  }

  lemma StopSnoc(listeners: nat, es: seq<Stop.Event>, e: Stop.Event)
    requires Stop.After(listeners, es).Some? && Stop.Enabled(Stop.After(listeners, es).value, e)
    ensures Stop.After(listeners, es + [e]) == Some(Stop.Apply(Stop.After(listeners, es).value, e))
  {
    assert (es + [e])[..|es|] == es;
  }

  /** The composed process behaves, on its server, as the stop protocol does. */
  lemma {:induction false} StopProjection(listeners: nat, es: seq<Event>)
    requires After(listeners, es).Some?
    ensures Stop.After(listeners, StopEvents(es, listeners)) == Some(After(listeners, es).value.stop)
  {
    hide Stop.After, Stop.Apply, Stop.Enabled;
    if es == [] {
      StopStarts(listeners);
    } else {
      var init, e := es[..|es| - 1], es[|es| - 1];
      var s := After(listeners, init).value;
      StopProjection(listeners, init);
      if e.Rpc? {
        StopSnoc(listeners, StopEvents(init, listeners), e.rpc);
      } else if e.RunDefer? && NextIsStop(s.main) {
        BeginEnabled(s.stop);
        StopSnoc(listeners, StopEvents(init, listeners), Stop.Begin(MAIN));
      }
    }
  }

  lemma StopStarts(listeners: nat)
    ensures Stop.After(listeners, []) == Some(Stop.Start(listeners))
  {
  }

  lemma BeginEnabled(s: Stop.State)
    requires MAIN !in s.callers
    ensures Stop.Enabled(s, Stop.Begin(MAIN))
  {
  }

  // ----- the order of teardown

  /** The deferred actions still to run. */
  function Outstanding(m: Main, stopCalled: bool): seq<Action> {
    (if m.configured && !m.logClosed then [CloseLog] else [])
    + (if m.dbSetUp && !m.dbClosed then [CloseDb] else [])
    + (if m.rpcUp && !stopCalled then [StopRpc] else [])
  }

  predicate MainInv(m: Main, stopCalled: bool, stopReturned: bool) {
    && m.defers == Outstanding(m, stopCalled)
    && (m.rpcUp ==> m.dbSetUp) && (m.dbSetUp ==> m.dbOpened) && (m.dbOpened ==> m.configured)
    && (stopCalled ==> m.rpcUp) && (stopReturned ==> stopCalled)
    && (m.dbClosed ==> m.dbSetUp && (m.rpcUp ==> stopReturned))
    && (m.logClosed ==> m.configured && (m.dbSetUp ==> m.dbClosed))
    && (IsStartUp(m.phase) || m.phase.AwaitingShutdown? ==> !stopCalled && !m.dbClosed && !m.logClosed)
    && (m.phase.LoadingConfig? ==> !m.configured)
    && (m.phase.MakingServer? || m.phase.OpeningDb? ==> m.configured && !m.dbOpened)
    && (m.phase.SettingUpDb? ==> m.dbOpened && !m.dbSetUp)
    && (m.phase.StartingRpc? ==> m.dbSetUp && !m.rpcUp)
    && (m.phase.AwaitingShutdown? ==> m.rpcUp)
    && (m.phase.Stopping? ==> stopCalled && !m.dbClosed)
    && (m.phase.Unwinding? && stopCalled ==> stopReturned)
    && (m.phase.Exited? ==> m.defers == [])
  }

  ghost predicate Inv(s: State) {
    && MainInv(s.main, MAIN in s.stop.callers, StopHasReturned(s.stop))
    && OnlyMainStops(s.stop)
    && Sig.Inv(s.sig)
    && MAIN in s.sig.contexts
    && (s.main.rpcUp && !s.main.phase.AwaitingShutdown? ==> s.sig.contexts[MAIN])
  }

  /** With one caller, whoever finds quit closed closed it itself, so nobody is turned away. */
  ghost predicate OnlyMainStops(s: Stop.State) {
    && s.callers.Keys <= {MAIN}
    && (s.quitCloses > 0 ==> MAIN in s.callers && Stop.HasClosed(s.callers[MAIN]))
    && (MAIN in s.callers ==> !s.callers[MAIN].TurnedAway?)
  }

  lemma RpcStepKeepsStop(s: Stop.State, e: Stop.Event)
    requires OnlyMainStops(s) && Stop.Enabled(s, e) && !e.Begin?
    ensures OnlyMainStops(Stop.Apply(s, e))
    ensures MAIN in Stop.Apply(s, e).callers <==> MAIN in s.callers
    ensures StopHasReturned(s) ==> StopHasReturned(Stop.Apply(s, e))
  {
  }

  lemma BeginKeepsStop(s: Stop.State)
    requires OnlyMainStops(s) && MAIN !in s.callers
    ensures OnlyMainStops(Stop.Apply(s, Stop.Begin(MAIN)))
    ensures MAIN in Stop.Apply(s, Stop.Begin(MAIN)).callers && !StopHasReturned(Stop.Apply(s, Stop.Begin(MAIN)))
  {
  }

  lemma SignalStepKeepsMain(s: Sig.State, e: Sig.Event)
    requires Sig.Inv(s) && MAIN in s.contexts && Sig.Enabled(s, e)
    ensures Sig.Inv(Sig.Apply(s, e)) && MAIN in Sig.Apply(s, e).contexts
    ensures s.contexts[MAIN] ==> Sig.Apply(s, e).contexts[MAIN]
  {
    Sig.StepKeepsInv(s, e);
  }

  lemma MainStepKeepsInv(s: State, e: Event)
    requires Inv(s) && Enabled(s, e) && (e.StartUp? || e.SeeShutdown? || e.StopReturns?)
    ensures Inv(Apply(s, e))
  {
  }

  /** The deferred action that runs next, and what is outstanding after it. */
  lemma LastOutstanding(m: Main, stopCalled: bool)
    ensures var ds := Outstanding(m, stopCalled);
            if m.rpcUp && !stopCalled then
              ds != [] && ds[|ds| - 1] == StopRpc && ds[..|ds| - 1] == Outstanding(m, true)
            else if m.dbSetUp && !m.dbClosed then
              ds != [] && ds[|ds| - 1] == CloseDb && ds[..|ds| - 1] == Outstanding(m.(dbClosed := true), stopCalled)
            else if m.configured && !m.logClosed then
              ds != [] && ds[|ds| - 1] == CloseLog && ds[..|ds| - 1] == Outstanding(m.(logClosed := true), stopCalled)
            else ds == []
  {
  }

  lemma OutstandingIgnores(m: Main, stopCalled: bool, phase: Phase, defers: seq<Action>)
    ensures Outstanding(m.(phase := phase, defers := defers), stopCalled) == Outstanding(m, stopCalled)
  {
  }

  lemma DeferKeepsInv(s: State)
    requires Inv(s) && Enabled(s, RunDefer)
    ensures Inv(Apply(s, RunDefer))
  {
    hide Outstanding, Stop.Apply, Stop.Enabled, OnlyMainStops, Sig.Inv, StopHasReturned;
    var m, called := s.main, MAIN in s.stop.callers;
    LastOutstanding(m, called);
    if NextIsStop(m) {
      BeginEnabled(s.stop);
      BeginKeepsStop(s.stop);
      OutstandingIgnores(m, true, Stopping, m.defers[..|m.defers| - 1]);
    } else if m.defers == [] {
      OutstandingIgnores(m, called, Exited, m.defers);
    } else if m.dbSetUp && !m.dbClosed {
      OutstandingIgnores(m.(dbClosed := true), called, m.phase, m.defers[..|m.defers| - 1]);
    } else {
      OutstandingIgnores(m.(logClosed := true), called, m.phase, m.defers[..|m.defers| - 1]);
    }
  }

  lemma OtherStepKeepsInv(s: State, e: Event)
    requires Inv(s) && Enabled(s, e) && (e.Signal? || e.Rpc?)
    ensures Inv(Apply(s, e))
  {
    hide Stop.Apply, Stop.Enabled, Sig.Apply, Sig.Enabled, OnlyMainStops, Sig.Inv, StopHasReturned;
    match e
    case Signal(e') => SignalStepKeepsMain(s.sig, e');
    case Rpc(e') =>
      RpcStepKeepsStop(s.stop, e');
      OnceReturned(s, e');
    case _ =>
  }

  /** Main moves on only through `StopReturns`; that the call has returned disturbs nothing else. */
  lemma OnceReturned(s: State, e: Stop.Event)
    requires Inv(s) && Enabled(s, Rpc(e))
    ensures MainInv(s.main, MAIN in s.stop.callers, StopHasReturned(Stop.Apply(s.stop, e)))
  {
    RpcStepKeepsStop(s.stop, e);
  }

  lemma {:induction false} RunsKeepInv(listeners: nat, es: seq<Event>)
    requires After(listeners, es).Some?
    ensures Inv(After(listeners, es).value)
  {
    hide Inv, Apply, Enabled;
    if es == [] {
      StartHasInv(listeners);
    } else {
      RunsKeepInv(listeners, es[..|es| - 1]);
      var s, e := After(listeners, es[..|es| - 1]).value, es[|es| - 1];
      match e
      case RunDefer => DeferKeepsInv(s);
      case Signal(_) => OtherStepKeepsInv(s, e);
      case Rpc(_) => OtherStepKeepsInv(s, e);
      case _ => MainStepKeepsInv(s, e);
    }
  }

  lemma StartHasInv(listeners: nat)
    ensures Inv(Start(listeners))
  {
  }

  /**
   Nothing deadlocks: while main waits for shutdown an interrupt can come, and at any other time before
   the process has exited some step of main or of the server, other than a new request, is possible.
   */
  lemma ProcessCanProceed(listeners: nat, es: seq<Event>)
    requires After(listeners, es).Some? && !After(listeners, es).value.main.phase.Exited?
    ensures After(listeners, es).value.main.phase.AwaitingShutdown? ==>
              Enabled(After(listeners, es).value, Signal(Sig.Interrupt))
    ensures !After(listeners, es).value.main.phase.AwaitingShutdown? ==>
              exists e :: Enabled(After(listeners, es).value, e) && !e.Signal? && (e.Rpc? ==> !e.rpc.Register?)
  {
    RunsKeepInv(listeners, es);
    StopProjection(listeners, es);
    hide After, StopEvents, Stop.After, Stop.Enabled;
    var s := After(listeners, es).value;
    if IsStartUp(s.main.phase) {
      assert Enabled(s, StartUp(true));
    } else if s.main.phase.AwaitingShutdown? {
      assert Enabled(s, Signal(Sig.Interrupt));
    } else if s.main.phase.Unwinding? {
      LastOutstanding(s.main, MAIN in s.stop.callers);
      assert Enabled(s, RunDefer);
    } else if StopHasReturned(s.stop) {
      assert Enabled(s, StopReturns);
    } else {
      Stop.StopCanProceed(listeners, StopEvents(es, listeners), MAIN);
      var e :| Stop.Enabled(s.stop, e) && !e.Begin? && !e.Register?;
      assert Enabled(s, Rpc(e));
    }
  }

  /**
   In every interleaving: once the RPC server was started, the database closes only after `Stop` has
   returned from waiting, which is only after shutdown was signalled; the log closes only after the
   database; and the process exits leaving a database open exactly when its set-up failed. Start-up
   goes from configuration to database, tables and RPC server.
   */
  lemma TeardownOrder(listeners: nat, es: seq<Event>)
    requires After(listeners, es).Some?
    ensures var s := After(listeners, es).value;
            && (s.main.dbClosed && s.main.rpcUp ==> Stop.At(s.stop, MAIN, Stop.Drained) && s.sig.closes == 1)
            && (s.main.logClosed && s.main.dbSetUp ==> s.main.dbClosed)
            && (s.main.phase.Exited? ==> (s.main.dbOpened && !s.main.dbClosed <==> s.main.dbOpened && !s.main.dbSetUp))
            && (s.main.phase.Exited? && s.main.configured ==> s.main.logClosed)
            && (s.main.rpcUp ==> s.main.dbSetUp) && (s.main.dbSetUp ==> s.main.dbOpened)
            && (s.main.dbOpened ==> s.main.configured)
  {
    RunsKeepInv(listeners, es);
  }

  /**
   Hence, when the database closes, there has been a moment during `Stop` at which all serve
   goroutines and all registered requests had finished, and quit and every listener have been closed
   exactly once. `RunningAtDatabaseClose` says what may have registered since.
   */
  lemma DrainedBeforeDatabaseCloses(listeners: nat, es: seq<Event>)
    requires After(listeners, es).Some?
    requires After(listeners, es).value.main.dbClosed && After(listeners, es).value.main.rpcUp
    ensures var s := After(listeners, es).value.stop;
            && s.quitCloses == 1 && s.serving == {}
            && |s.closes| == listeners && (forall i | 0 <= i < |s.closes| :: s.closes[i] == 1)
    ensures var ss := StopEvents(es, listeners);
            exists i | 0 <= i < |ss| ::
              Stop.After(listeners, ss[..i]).Some? && Stop.At(Stop.After(listeners, ss[..i]).value, MAIN, Stop.Waiting)
              && Stop.AllDone(Stop.After(listeners, ss[..i]).value)
  {
    hide After, StopEvents, Stop.After, Stop.Inv;
    TeardownOrder(listeners, es);
    StopProjection(listeners, es);
    var ss := StopEvents(es, listeners);
    Stop.ClosedExactlyOnce(listeners, ss);
    Stop.ReturnsAfterDraining(listeners, ss, MAIN);
  }

  predicate NextClosesDb(m: Main) {
    m.phase.Unwinding? && m.defers != [] && m.defers[|m.defers| - 1].CloseDb?
  }

  lemma ClosingDbFollowsStop(s: State)
    requires Inv(s) && NextClosesDb(s.main) && s.main.rpcUp
    ensures Stop.At(s.stop, MAIN, Stop.Drained) && Enabled(s, RunDefer)
    ensures Apply(s, RunDefer).main.dbClosed && Apply(s, RunDefer).stop == s.stop
  {
    LastOutstanding(s.main, MAIN in s.stop.callers);
  }

  /**
   Exactly which requests run as the database closes under them: those that registered after the
   waiting call of `Stop` woke up (step w of the server's run) and have not finished. So none is
   running exactly if no request registered after that moment without finishing.
   */
  lemma RunningAtDatabaseClose(listeners: nat, es: seq<Event>) returns (w: int)
    requires After(listeners, es).Some?
    requires NextClosesDb(After(listeners, es).value.main) && After(listeners, es).value.main.rpcUp
    ensures Enabled(After(listeners, es).value, RunDefer)
            && Apply(After(listeners, es).value, RunDefer).main.dbClosed
    ensures 0 <= w < |StopEvents(es, listeners)| && StopEvents(es, listeners)[w] == Stop.Wake(MAIN)
    ensures forall r :: r in Apply(After(listeners, es).value, RunDefer).stop.requests
                        <==> Stop.RegistersAfter(StopEvents(es, listeners), w, r)
    ensures Apply(After(listeners, es).value, RunDefer).stop.requests == {}
            <==> forall r :: !Stop.RegistersAfter(StopEvents(es, listeners), w, r)
  {
    hide After, Apply, Enabled, StopEvents, Inv, Stop.After, Stop.RegistersAfter;
    var s, ss := After(listeners, es).value, StopEvents(es, listeners);
    RunsKeepInv(listeners, es);
    ClosingDbFollowsStop(s);
    StopProjection(listeners, es);
    w := Stop.DrainedWoke(listeners, ss, MAIN);
    forall r: nat ensures r in s.stop.requests <==> Stop.RegistersAfter(ss, w, r) {
      Stop.OutlivesStopIff(listeners, ss, w, MAIN, r);
    }
    if s.stop.requests != {} {
      var r :| r in s.stop.requests;
      assert Stop.RegistersAfter(ss, w, r);
    }
  }

  // ----- two concrete runs

  lemma Next(listeners: nat, es: seq<Event>, e: Event, s: State) returns (longer: seq<Event>, s': State)
    requires After(listeners, es) == Some(s) && Enabled(s, e)
    ensures longer == es + [e] && s' == Apply(s, e) && After(listeners, longer) == Some(s')
  {
    longer, s' := es + [e], Apply(s, e);
    assert (es + [e])[..|es|] == es;
  }

  lemma StartsAt(listeners: nat)
    ensures After(listeners, []) == Some(Start(listeners))
  {
  }

  lemma OpensDatabase(listeners: nat) returns (es: seq<Event>, s: State)
    ensures After(listeners, es) == Some(s)
    ensures s == Start(listeners).(main := Main(SettingUpDb, [CloseLog], true, true, false, false, false, false))
  {
    hide After;
    StartsAt(listeners);
    es, s := Next(listeners, [], StartUp(true), Start(listeners));
    es, s := Next(listeners, es, StartUp(true), s);
    es, s := Next(listeners, es, StartUp(true), s);
    assert [] + [CloseLog] == [CloseLog];
  }

  /** Setting up the tables fails: the process unwinds and exits with the database open. */
  lemma FailedSetUpLeavesDatabaseOpen(listeners: nat) returns (es: seq<Event>, s: State)
    ensures After(listeners, es) == Some(s)
    ensures s.main.phase.Exited? && s.main.dbOpened && !s.main.dbClosed && s.main.logClosed
  {
    hide After;
    es, s := OpensDatabase(listeners);
    es, s := Next(listeners, es, StartUp(false), s);
    es, s := Next(listeners, es, RunDefer, s);
    es, s := Next(listeners, es, RunDefer, s);
  }

  lemma ServerStarts(listeners: nat) returns (es: seq<Event>, s: State)
    ensures After(listeners, es) == Some(s)
    ensures s == Start(listeners).(main := Main(AwaitingShutdown, [CloseLog, CloseDb, StopRpc],
                                                true, true, true, true, false, false))
  {
    hide After;
    es, s := OpensDatabase(listeners);
    es, s := Next(listeners, es, StartUp(true), s);
    es, s := Next(listeners, es, StartUp(true), s);
  }

  lemma StopBegins(listeners: nat) returns (es: seq<Event>, s: State)
    ensures After(listeners, es) == Some(s)
    ensures s.main == Main(Stopping, [CloseLog, CloseDb], true, true, true, true, false, false)
    ensures s.stop == Stop.Apply(Stop.Start(listeners), Stop.Begin(MAIN))
  {
    hide After;
    es, s := ServerStarts(listeners);
    es, s := Next(listeners, es, Signal(Sig.Interrupt), s);
    es, s := Next(listeners, es, Signal(Sig.TakeInterrupt), s);
    es, s := Next(listeners, es, Signal(Sig.CloseSignaled), s);
    es, s := Next(listeners, es, Signal(Sig.Cancel(MAIN)), s);
    es, s := Next(listeners, es, SeeShutdown, s);
    es, s := Next(listeners, es, RunDefer, s);
  }

  lemma StopTests() returns (es: seq<Event>, s: State)
    ensures After(1, es) == Some(s)
    ensures s.main == Main(Stopping, [CloseLog, CloseDb], true, true, true, true, false, false)
    ensures s.stop == Stop.Start(1).(holder := Some(MAIN), callers := map[MAIN := Stop.Closing(0)])
  {
    hide After;
    es, s := StopBegins(1);
    es, s := Next(1, es, Rpc(Stop.Lock(MAIN)), s);
    es, s := Next(1, es, Rpc(Stop.Test(MAIN)), s);
  }

  lemma StopWaits() returns (es: seq<Event>, s: State)
    ensures After(1, es) == Some(s)
    ensures s.main == Main(Stopping, [CloseLog, CloseDb], true, true, true, true, false, false)
    ensures Stop.At(s.stop, MAIN, Stop.Waiting) && s.stop.wg == 0 && s.stop.requests == {}
  {
    hide After;
    es, s := StopTests();
    Stop.StartsClean();
    es, s := Next(1, es, Rpc(Stop.CloseListener(MAIN)), s);
    es, s := Next(1, es, Rpc(Stop.ServeEnds(0)), s);
    es, s := Next(1, es, Rpc(Stop.CloseQuit(MAIN)), s);
    es, s := Next(1, es, Rpc(Stop.Unlock(MAIN)), s);
  }

  /** A request registers once main has woken up: it runs as the database is closed. */
  lemma RequestSeesDatabaseClose(r: nat) returns (es: seq<Event>, s: State)
    ensures After(1, es) == Some(s) && NextClosesDb(s.main) && s.main.rpcUp
    ensures Enabled(s, RunDefer) && Apply(s, RunDefer).main.dbClosed && r in Apply(s, RunDefer).stop.requests
  {
    hide After;
    es, s := StopWaits();
    es, s := Next(1, es, Rpc(Stop.Wake(MAIN)), s);
    es, s := Next(1, es, Rpc(Stop.Register(r)), s);
    es, s := Next(1, es, StopReturns, s);
  }
}
