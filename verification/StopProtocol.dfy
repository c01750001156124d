/**
 Stopping the RPC server (jsonrpc/server.go). Any number of threads call `Stop`; the first through
 the mutex closes the listeners and the quit channel and then waits for the wait group, later ones
 return at once. Serve goroutines are counted when they start; requests count themselves in once
 authenticated and out when done. All steps interleave.
 */
module StopProtocol {
  import opened Wrappers

  datatype Caller =
    | Wanting            // called Stop, waiting for the mutex
    | Holding            // mutex held, quit not yet tested
    | Closing(next: nat) // closing listener `next`
    | Closed             // quit closed, mutex still held
    | Waiting            // in wg.Wait
    | Drained            // returned after waiting
    | TurnedAway         // returned early: quit was closed already

  datatype State = State(
    holder: Option<nat>,
    quitCloses: nat,
    closes: seq<nat>,      // how often each listener was closed
    serving: set<nat>,     // listeners whose serve goroutine runs
    requests: set<nat>,    // requests between wg.Add and wg.Done
    wg: int,
    callers: map<nat, Caller>)

  datatype Event =
    | Begin(t: nat) | Lock(t: nat) | Test(t: nat) | CloseListener(t: nat) | CloseQuit(t: nat)
    | Unlock(t: nat) | Wake(t: nat)
    | ServeEnds(k: nat) | Register(r: nat) | Finish(r: nat)

  predicate At(s: State, t: nat, c: Caller) { t in s.callers && s.callers[t] == c }

  predicate IsClosing(s: State, t: nat) { t in s.callers && s.callers[t].Closing? }

  function UpTo(n: nat): (s: set<nat>)
    ensures |s| == n && forall k | k in s :: k < n
  {
    if n == 0 then {} else UpTo(n - 1) + {n - 1}
  }

  /** `NewServer`: one serve goroutine per listener, each counted. */
  function Start(listeners: nat): State {
    State(None, 0, seq(listeners, i => 0), UpTo(listeners), {}, listeners, map[])
  }

  predicate Enabled(s: State, e: Event) {
    match e
    case Begin(t) => t !in s.callers
    case Lock(t) => At(s, t, Wanting) && s.holder == None
    case Test(t) => At(s, t, Holding)
    case CloseListener(t) => IsClosing(s, t) && s.callers[t].next < |s.closes|
    case CloseQuit(t) => At(s, t, Closing(|s.closes|))
    case Unlock(t) => At(s, t, Closed)
    case Wake(t) => At(s, t, Waiting) && s.wg == 0
    case ServeEnds(k) => k in s.serving
    case Register(r) => r !in s.requests
    case Finish(r) => r in s.requests
  }

  function Move(s: State, t: nat, c: Caller): State { s.(callers := s.callers[t := c]) }

  function Apply(s: State, e: Event): State
    requires Enabled(s, e)
  {
    match e
    case Begin(t) => Move(s, t, Wanting)
    case Lock(t) => Move(s, t, Holding).(holder := Some(t))
    case Test(t) =>
      if s.quitCloses > 0 then Move(s, t, TurnedAway).(holder := None) else Move(s, t, Closing(0))
    case CloseListener(t) =>
      var k := s.callers[t].next;
      Move(s, t, Closing(k + 1)).(closes := s.closes[k := s.closes[k] + 1])
    case CloseQuit(t) => Move(s, t, Closed).(quitCloses := s.quitCloses + 1)
    case Unlock(t) => Move(s, t, Waiting).(holder := None)
    case Wake(t) => Move(s, t, Drained)
    case ServeEnds(k) => s.(serving := s.serving - {k}, wg := s.wg - 1)
    case Register(r) => s.(requests := s.requests + {r}, wg := s.wg + 1)
    case Finish(r) => s.(requests := s.requests - {r}, wg := s.wg - 1)
  }

  function After(listeners: nat, es: seq<Event>): Option<State> {
    if es == [] then Some(Start(listeners))
    else match After(listeners, es[..|es| - 1])
      case None => None
      case Some(s) => if Enabled(s, es[|es| - 1]) then Some(Apply(s, es[|es| - 1])) else None
  }

  // ----- the invariant

  predicate InCritical(c: Caller) { c.Holding? || c.Closing? || c.Closed? }

  predicate HasClosed(c: Caller) { c.Closed? || c.Waiting? || c.Drained? }

  predicate ClosedUpTo(s: State, k: nat) {
    k <= |s.closes| && forall i | 0 <= i < |s.closes| :: s.closes[i] == if i < k then 1 else 0
  }

  ghost predicate NobodyCloses(s: State) { forall t | t in s.callers :: !s.callers[t].Closing? }

  ghost predicate Inv(s: State) {
    && s.wg == |s.serving| + |s.requests|
    && (s.holder.Some? ==> s.holder.value in s.callers)
    && (forall t | t in s.callers :: InCritical(s.callers[t]) <==> s.holder == Some(t))
    && s.quitCloses <= 1
    && (forall t | t in s.callers && s.callers[t].Closing? :: s.quitCloses == 0 && ClosedUpTo(s, s.callers[t].next))
    && (s.quitCloses == 0 && NobodyCloses(s) ==> ClosedUpTo(s, 0))
    && (s.quitCloses == 1 ==> ClosedUpTo(s, |s.closes|))
    && (forall t | t in s.callers && (HasClosed(s.callers[t]) || s.callers[t].TurnedAway?) :: s.quitCloses == 1)
    && (forall t, u | t in s.callers && u in s.callers && HasClosed(s.callers[t]) && HasClosed(s.callers[u]) :: t == u)
  }

  lemma EntryStepKeepsInv(s: State, e: Event)
    requires Inv(s) && Enabled(s, e) && (e.Begin? || e.Lock?)
    ensures Inv(Apply(s, e))
  {
    var s', t := Apply(s, e), e.t;
    assert forall u | u in s.callers && u != t :: s'.callers[u] == s.callers[u];
    if NobodyCloses(s') {
      forall u | u in s.callers && u != t ensures !s.callers[u].Closing? {
        assert u in s'.callers;
      }
    }
  }

  lemma TestStepKeepsInv(s: State, e: Event)
    requires Inv(s) && Enabled(s, e) && e.Test?
    ensures Inv(Apply(s, e))
  {
    var s', t := Apply(s, e), e.t;
    assert forall u | u in s.callers && u != t :: s'.callers[u] == s.callers[u];
    if NobodyCloses(s') {
      forall u | u in s.callers && u != t ensures !s.callers[u].Closing? {
        assert u in s'.callers;
      }
    }
  }

  lemma ExitStepKeepsInv(s: State, e: Event)
    requires Inv(s) && Enabled(s, e) && (e.Unlock? || e.Wake?)
    ensures Inv(Apply(s, e))
  {
    var s', t := Apply(s, e), e.t;
    assert forall u | u in s.callers && u != t :: s'.callers[u] == s.callers[u];
    if NobodyCloses(s') {
      forall u | u in s.callers && u != t ensures !s.callers[u].Closing? {
        assert u in s'.callers;
      }
    }
  }

  lemma CloseStepKeepsInv(s: State, e: Event)
    requires Inv(s) && Enabled(s, e) && (e.CloseListener? || e.CloseQuit?)
    ensures Inv(Apply(s, e))
  {
    var s', t := Apply(s, e), e.t;
    assert forall u | u in s.callers && u != t :: s'.callers[u] == s.callers[u];
    assert forall u | u in s.callers && u != t :: !s.callers[u].Closing?;
    if e.CloseListener? {
      assert s'.callers[t].Closing?;
      assert ClosedUpTo(s', s'.callers[t].next);
    }
  }

  lemma WorkStepKeepsInv(s: State, e: Event)
    requires Inv(s) && Enabled(s, e) && (e.ServeEnds? || e.Register? || e.Finish?)
    ensures Inv(Apply(s, e))
  {
    assert NobodyCloses(s) <==> NobodyCloses(Apply(s, e));
  }

  lemma {:induction false} RunsKeepInv(listeners: nat, es: seq<Event>)
    requires After(listeners, es).Some?
    ensures Inv(After(listeners, es).value) && |After(listeners, es).value.closes| == listeners
  {
    hide Inv, Apply, Enabled;
    if es == [] {
      StartHasInv(listeners);
    } else {
      RunsKeepInv(listeners, es[..|es| - 1]);
      var s, e := After(listeners, es[..|es| - 1]).value, es[|es| - 1];
      if e.ServeEnds? || e.Register? || e.Finish? {
        WorkStepKeepsInv(s, e);
      } else if e.CloseListener? || e.CloseQuit? {
        CloseStepKeepsInv(s, e);
      } else if e.Unlock? || e.Wake? {
        ExitStepKeepsInv(s, e);
      } else if e.Test? {
        TestStepKeepsInv(s, e);
      } else {
        EntryStepKeepsInv(s, e);
      }
      StepKeepsListeners(s, e);
    }
  }

  lemma StartHasInv(listeners: nat)
    ensures Inv(Start(listeners)) && |Start(listeners).closes| == listeners
  {
  }

  lemma StepKeepsListeners(s: State, e: Event)
    requires Enabled(s, e)
    ensures |Apply(s, e).closes| == |s.closes| && Apply(s, e).serving <= s.serving
  {
  }

  predicate Returned(c: Caller) { c.Drained? || c.TurnedAway? }

  /**
   However many threads call `Stop`, quit and every listener are closed at most once, by one thread,
   the listeners before quit, with at most one thread inside the mutex at any time, and exactly once as
   soon as any call has returned.
   */
  lemma ClosedExactlyOnce(listeners: nat, es: seq<Event>)
    requires After(listeners, es).Some?
    ensures var s := After(listeners, es).value;
            && s.quitCloses <= 1
            && |s.closes| == listeners && (forall i | 0 <= i < |s.closes| :: s.closes[i] <= 1)
            && (s.quitCloses == 1 ==> forall i | 0 <= i < |s.closes| :: s.closes[i] == 1)
            && (forall t, u | t in s.callers && u in s.callers
                              && InCritical(s.callers[t]) && InCritical(s.callers[u]) :: t == u)
            && (forall t, u | t in s.callers && u in s.callers && s.callers[t].Drained? && s.callers[u].Drained? ::
                  t == u)
            && (forall t | t in s.callers && Returned(s.callers[t]) ::
                  s.quitCloses == 1 && forall i | 0 <= i < |s.closes| :: s.closes[i] == 1)
  {
    RunsKeepInv(listeners, es);
    var s := After(listeners, es).value;
    if u :| u in s.callers && s.callers[u].Closing? {
      assert ClosedUpTo(s, s.callers[u].next);
    }
  }

  predicate AllDone(s: State) { s.serving == {} && s.requests == {} }

  /**
   The thread that closed returns only after some moment at which every serve goroutine and every
   registered request had finished; the serve goroutines never come back.
   */
  lemma {:induction false} ReturnsAfterDraining(listeners: nat, es: seq<Event>, t: nat)
    requires After(listeners, es).Some? && At(After(listeners, es).value, t, Drained)
    ensures exists i | 0 <= i < |es| ::
              After(listeners, es[..i]).Some? && At(After(listeners, es[..i]).value, t, Waiting)
              && AllDone(After(listeners, es[..i]).value)
    ensures After(listeners, es).value.serving == {}
  {
    hide Inv;
    var n := |es| - 1;
    var s := After(listeners, es[..n]).value;
    StepKeepsListeners(s, es[n]);
    if At(s, t, Drained) {
      ReturnsAfterDraining(listeners, es[..n], t);
      var i :| 0 <= i < n && After(listeners, es[..n][..i]).Some?
               && At(After(listeners, es[..n][..i]).value, t, Waiting) && AllDone(After(listeners, es[..n][..i]).value);
      assert es[..n][..i] == es[..i];
    } else {
      RunsKeepInv(listeners, es[..n]);
      NothingCounted(s);
      assert es[n] == Wake(t);
    }
  }

  lemma NothingCounted(s: State)
    requires Inv(s)
    ensures s.wg == 0 <==> AllDone(s)
  {
  }

  lemma {:induction false} ServingAreListeners(listeners: nat, es: seq<Event>)
    requires After(listeners, es).Some?
    ensures forall k | k in After(listeners, es).value.serving :: k < listeners
  {
    hide Apply, Enabled;
    if es == [] {
    } else {
      ServingAreListeners(listeners, es[..|es| - 1]);
      StepKeepsListeners(After(listeners, es[..|es| - 1]).value, es[|es| - 1]);
    }
  }

  /**
   Nothing deadlocks: while any call of `Stop` is unfinished, some step other than a new call or a
   new request is possible, and if it is the end of a serve goroutine, then of one whose listener
   has been closed.
   */
  lemma StopCanProceed(listeners: nat, es: seq<Event>, t: nat)
    requires After(listeners, es).Some?
    requires t in After(listeners, es).value.callers && !Returned(After(listeners, es).value.callers[t])
    ensures exists e :: Enabled(After(listeners, es).value, e) && !e.Begin? && !e.Register?
              && (e.ServeEnds? ==> e.k < listeners && After(listeners, es).value.closes == seq(listeners, _ => 1))
  {
    RunsKeepInv(listeners, es);
    ServingAreListeners(listeners, es);
    var s := After(listeners, es).value;
    if s.holder.Some? {
      var h := s.holder.value;
      var e := match s.callers[h]
               case Holding => Test(h)
               case Closing(k) => if k < |s.closes| then CloseListener(h) else CloseQuit(h)
               case _ => Unlock(h);
      assert Enabled(s, e);
    } else if s.callers[t].Wanting? {
      assert Enabled(s, Lock(t));
    } else {
      NothingCounted(s);
      if s.wg == 0 {
        assert Enabled(s, Wake(t));
      } else if k :| k in s.serving {
        assert s.closes == seq(listeners, _ => 1);
        assert Enabled(s, ServeEnds(k));
      } else {
        var r :| r in s.requests;
        assert Enabled(s, Finish(r));
      }
    }
  }

  /**
   Nothing outside waits for `Stop`: at any time any thread may call it, requests may register and
   finish, and serve goroutines may end.
   */
  lemma OutsideIsFree(listeners: nat, es: seq<Event>, t: nat, r: nat, k: nat)
    requires After(listeners, es).Some?
    ensures t !in After(listeners, es).value.callers ==> After(listeners, es + [Begin(t)]).Some?
    ensures r !in After(listeners, es).value.requests ==> After(listeners, es + [Register(r)]).Some?
    ensures r in After(listeners, es).value.requests ==> After(listeners, es + [Finish(r)]).Some?
    ensures k in After(listeners, es).value.serving ==> After(listeners, es + [ServeEnds(k)]).Some?
  {
    hide After;
    var s := After(listeners, es).value;
    if t !in s.callers {
      AfterSnoc(listeners, es, Begin(t), s);
    }
    if r in s.requests {
      AfterSnoc(listeners, es, Finish(r), s);
    } else {
      AfterSnoc(listeners, es, Register(r), s);
    }
    if k in s.serving {
      AfterSnoc(listeners, es, ServeEnds(k), s);
    }
  }

  /** A goroutine serves for every listener until it has ended, and a request runs until it has finished. */
  lemma {:induction false} RunningIff(listeners: nat, es: seq<Event>, k: nat, r: nat)
    requires After(listeners, es).Some?
    ensures k in After(listeners, es).value.serving <==> k < listeners && ServeEnds(k) !in es
    ensures r in After(listeners, es).value.requests <==> RegistersAfter(es, -1, r)
  {
    hide Apply, Enabled, RegistersAfter;
    if es == [] {
      StartsServing(listeners, k, r);
    } else {
      var n := |es| - 1;
      RunningIff(listeners, es[..n], k, r);
      assert es == es[..n] + [es[n]];
      StepServes(After(listeners, es[..n]).value, es[n], k);
      StepRegisters(After(listeners, es[..n]).value, es[n], r);
      RegistersAfterSnoc(es, -1, r);
    }
  }

  lemma StartsServing(listeners: nat, k: nat, r: nat)
    ensures k in Start(listeners).serving <==> k < listeners
    ensures !RegistersAfter([], -1, r) && r !in Start(listeners).requests
  {
    InUpTo(listeners, k);
  }

  lemma {:induction false} InUpTo(n: nat, k: nat)
    ensures k in UpTo(n) <==> k < n
  {
    if n == 0 {
    } else {
      InUpTo(n - 1, k);
    }
  }

  lemma StepServes(s: State, e: Event, k: nat)
    requires Enabled(s, e)
    ensures k in Apply(s, e).serving <==> k in s.serving && e != ServeEnds(k)
  {
  }

  // ----- exactly who waits, and for whom

  /** Step i is the test of thread t, and it finds the quit channel open. */
  ghost predicate FindsQuitOpen(listeners: nat, es: seq<Event>, t: nat, i: int) {
    0 <= i < |es| && es[i] == Test(t)
    && After(listeners, es[..i]).Some? && After(listeners, es[..i]).value.quitCloses == 0
  }

  predicate IsCloser(s: State, t: nat) {
    t in s.callers && (s.callers[t].Closing? || HasClosed(s.callers[t]))
  }

  lemma StepMakesCloser(s: State, e: Event, t: nat)
    requires Enabled(s, e)
    ensures IsCloser(Apply(s, e), t) <==> IsCloser(s, t) || (e == Test(t) && s.quitCloses == 0)
  {
  }

  lemma {:induction false} CloserIff(listeners: nat, es: seq<Event>, t: nat)
    requires After(listeners, es).Some?
    ensures IsCloser(After(listeners, es).value, t) <==> exists i :: FindsQuitOpen(listeners, es, t, i)
  {
    hide Apply, Enabled, IsCloser;
    if es == [] {
      StartHasNoCloser(listeners, t);
    } else {
      var n := |es| - 1;
      CloserIff(listeners, es[..n], t);
      StepMakesCloser(After(listeners, es[..n]).value, es[n], t);
      assert forall i | 0 <= i < n :: es[..n][..i] == es[..i];
      if i :| FindsQuitOpen(listeners, es[..n], t, i) {
        assert FindsQuitOpen(listeners, es, t, i);
      }
      if i :| FindsQuitOpen(listeners, es, t, i) {
        assert i == n || FindsQuitOpen(listeners, es[..n], t, i);
      }
      assert es[n] == Test(t) && After(listeners, es[..n]).value.quitCloses == 0
             ==> FindsQuitOpen(listeners, es, t, n);
    }
  }

  lemma StartHasNoCloser(listeners: nat, t: nat)
    ensures !IsCloser(Start(listeners), t)
  {
  }

  /**
   Which calls block until everything has finished: a call that has returned had waited exactly if it
   was the one whose test found the quit channel open. Every other returned call had not waited.
   */
  lemma WaitsIff(listeners: nat, es: seq<Event>, t: nat)
    requires After(listeners, es).Some?
    requires t in After(listeners, es).value.callers && Returned(After(listeners, es).value.callers[t])
    ensures After(listeners, es).value.callers[t].Drained? <==> exists i :: FindsQuitOpen(listeners, es, t, i)
  {
    hide After, FindsQuitOpen;
    CloserIff(listeners, es, t);
  }

  /** Request r registers after step w and does not finish from then on. */
  predicate RegistersAfter(es: seq<Event>, w: int, r: nat) {
    exists j | 0 <= j < |es| :: w < j && es[j] == Register(r) && NeverFinishes(es, j, r)
  }

  predicate NeverFinishes(es: seq<Event>, j: int, r: nat) {
    forall k | 0 <= k < |es| :: j < k ==> es[k] != Finish(r)
  }

  lemma RegistersAfterSnoc(es: seq<Event>, w: int, r: nat)
    requires -1 <= w < |es| - 1
    ensures var n := |es| - 1;
            RegistersAfter(es, w, r) <==>
            es[n] == Register(r) || (es[n] != Finish(r) && RegistersAfter(es[..n], w, r))
  {
    var n := |es| - 1;
    if RegistersAfter(es[..n], w, r) && es[n] != Finish(r) {
      var j :| 0 <= j < n && w < j && es[..n][j] == Register(r) && NeverFinishes(es[..n], j, r);
      assert es[j] == Register(r);
      forall k | 0 <= k < |es| && j < k ensures es[k] != Finish(r) {
        if k < n { assert es[..n][k] == es[k]; }
      }
    }
    if es[n] == Register(r) {
      assert NeverFinishes(es, n, r);
    }
    if j :| 0 <= j < |es| && w < j && es[j] == Register(r) && NeverFinishes(es, j, r) {
      if j < n {
        assert es[..n][j] == Register(r);
        assert forall k | 0 <= k < n :: es[..n][k] == es[k];
        assert NeverFinishes(es[..n], j, r);
      }
    }
  }

  lemma StepRegisters(s: State, e: Event, r: nat)
    requires Enabled(s, e)
    ensures r in Apply(s, e).requests <==> e == Register(r) || (e != Finish(r) && r in s.requests)
  {
  }

  /**
   Which requests outlive the wait: at any time after the waiting thread woke up, the requests still
   running are exactly those that registered after it did and have not finished since. When it wakes
   there are none.
   */
  lemma {:induction false} OutlivesStopIff(listeners: nat, es: seq<Event>, w: int, t: nat, r: nat)
    requires After(listeners, es).Some? && 0 <= w < |es| && es[w] == Wake(t)
    ensures r in After(listeners, es).value.requests <==> RegistersAfter(es, w, r)
  {
    hide Inv, RegistersAfter, Apply, Enabled;
    var n := |es| - 1;
    var s := After(listeners, es[..n]).value;
    StepRegisters(s, es[n], r);
    if n == w {
      RunsKeepInv(listeners, es[..n]);
      WakesWhenDone(s, t);
      NothingRegisters(es, w, r);
    } else {
      OutlivesStopIff(listeners, es[..n], w, t, r);
      RegistersAfterSnoc(es, w, r);
    }
  }

  lemma WakesWhenDone(s: State, t: nat)
    requires Inv(s) && Enabled(s, Wake(t))
    ensures AllDone(s)
  {
    NothingCounted(s);
  }

  lemma NothingRegisters(es: seq<Event>, w: int, r: nat)
    requires w == |es| - 1
    ensures !RegistersAfter(es, w, r)
  {
  }

  /** A call that has returned from waiting has woken up at some step. */
  lemma {:induction false} DrainedWoke(listeners: nat, es: seq<Event>, t: nat) returns (w: int)
    requires After(listeners, es).Some? && At(After(listeners, es).value, t, Drained)
    ensures 0 <= w < |es| && es[w] == Wake(t)
  {
    var n := |es| - 1;
    if At(After(listeners, es[..n]).value, t, Drained) {
      w := DrainedWoke(listeners, es[..n], t);
    } else {
      w := n;
    }
  }

  // ----- what the protocol does not promise

  lemma AfterSnoc(listeners: nat, es: seq<Event>, e: Event, s: State)
    requires After(listeners, es) == Some(s) && Enabled(s, e)
    ensures After(listeners, es + [e]) == Some(Apply(s, e))
  {
    assert (es + [e])[..|es|] == es;
  }

  /** One thread alone, one listener: up to `wg.Wait`, with the serve goroutine ended. */
  function StopAlone(t: nat): seq<Event> {
    [] + [Begin(t)] + [Lock(t)] + [Test(t)] + [CloseListener(t)] + [ServeEnds(0)] + [CloseQuit(t)] + [Unlock(t)]
  }

  lemma Next(es: seq<Event>, e: Event, s: State) returns (longer: seq<Event>, s': State)
    requires After(1, es) == Some(s) && Enabled(s, e)
    ensures longer == es + [e] && s' == Apply(s, e) && After(1, longer) == Some(s')
  {
    longer, s' := es + [e], Apply(s, e);
    AfterSnoc(1, es, e, s);
  }

  lemma FirstCallerTests(t: nat) returns (s: State)
    ensures After(1, [] + [Begin(t)] + [Lock(t)] + [Test(t)]) == Some(s)
    ensures s == Start(1).(holder := Some(t), callers := map[t := Closing(0)])
  {
    hide After;
    StartsClean();
    var es: seq<Event>;
    es, s := Next([], Begin(t), Start(1));
    es, s := Next(es, Lock(t), s);
    es, s := Next(es, Test(t), s);
  }

  lemma FirstCallerWaits(t: nat) returns (s: State)
    ensures After(1, StopAlone(t)) == Some(s)
    ensures s.holder == None && s.quitCloses == 1 && s.wg == 0 && s.requests == {}
    ensures s.callers.Keys == {t} && At(s, t, Waiting)
  {
    hide After;
    StartsClean();
    s := FirstCallerTests(t);
    var es := [] + [Begin(t)] + [Lock(t)] + [Test(t)];
    es, s := Next(es, CloseListener(t), s);
    es, s := Next(es, ServeEnds(0), s);
    es, s := Next(es, CloseQuit(t), s);
    es, s := Next(es, Unlock(t), s);
  }

  lemma StartsClean()
    ensures After(1, []) == Some(Start(1)) && 0 in UpTo(1)
  {
    assert UpTo(1) == UpTo(0) + {0};
  }

  /**
   A request that passes authentication late registers after the closing thread has returned: its
   work is not waited for.
   */
  lemma LateRequestIsNotAwaited(t: nat, r: nat)
    ensures var s := After(1, StopAlone(t) + [Wake(t)] + [Register(r)]);
            s.Some? && At(s.value, t, Drained) && r in s.value.requests
  {
    hide After, StopAlone;
    var s := FirstCallerWaits(t);
    AfterSnoc(1, StopAlone(t), Wake(t), s);
    AfterSnoc(1, StopAlone(t) + [Wake(t)], Register(r), Apply(s, Wake(t)));
  }

  /** A second caller returns while a registered request still runs. */
  lemma SecondCallerDoesNotWait(t: nat, u: nat, r: nat)
    requires t != u
    ensures var s := After(1, StopAlone(t) + [Register(r)] + [Begin(u)] + [Lock(u)] + [Test(u)]);
            s.Some? && At(s.value, u, TurnedAway) && r in s.value.requests
  {
    hide After, StopAlone;
    var s := FirstCallerWaits(t);
    var es := StopAlone(t);
    AfterSnoc(1, es, Register(r), s);
    s := Apply(s, Register(r));
    AfterSnoc(1, es + [Register(r)], Begin(u), s);
    s := Apply(s, Begin(u));
    AfterSnoc(1, es + [Register(r)] + [Begin(u)], Lock(u), s);
    s := Apply(s, Lock(u));
    AfterSnoc(1, es + [Register(r)] + [Begin(u)] + [Lock(u)], Test(u), s);
  }
}
