/**
 Shutdown signalling (signal.go). One listener goroutine waits for an interrupt or a shutdown
 request, closes `shutdownSignaled`, and then keeps receiving for ever; requesters block on an
 unbuffered channel; interrupts go through a channel of capacity one that drops what does not fit;
 every derived context has a goroutine that cancels it once the channel is closed.
 */
module Signals {
  import opened Wrappers

  datatype Listener =
    | Selecting  // first select
    | Received   // about to close shutdownSignaled
    | Looping    // select of the endless loop
    | Logging    // about to log and loop

  datatype State = State(
    listener: Listener,
    pending: bool,            // an interrupt is buffered
    senders: set<nat>,        // requesters blocked in requestShutdown
    closes: nat,              // how often shutdownSignaled was closed
    contexts: map<nat, bool>) // derived contexts, and whether cancelled

  datatype Event =
    | Interrupt | Request(t: nat)
    | TakeInterrupt | TakeRequest(t: nat) | CloseSignaled | Log
    | Derive(c: nat) | Cancel(c: nat)

  const INIT := State(Selecting, false, {}, 0, map[])

  predicate Ready(s: State) { s.listener.Selecting? || s.listener.Looping? }

  predicate Enabled(s: State, e: Event) {
    match e
    case Interrupt => true
    case Request(t) => t !in s.senders
    case TakeInterrupt => Ready(s) && s.pending
    case TakeRequest(t) => Ready(s) && t in s.senders
    case CloseSignaled => s.listener.Received?
    case Log => s.listener.Logging?
    case Derive(c) => c !in s.contexts
    case Cancel(c) => s.closes > 0 && c in s.contexts && !s.contexts[c]
  }

  function AfterReceive(l: Listener): Listener { if l.Selecting? then Received else Logging }

  function Apply(s: State, e: Event): State
    requires Enabled(s, e)
  {
    match e
    case Interrupt => s.(pending := true)
    case Request(t) => s.(senders := s.senders + {t})
    case TakeInterrupt => s.(pending := false, listener := AfterReceive(s.listener))
    case TakeRequest(t) => s.(senders := s.senders - {t}, listener := AfterReceive(s.listener))
    case CloseSignaled => s.(closes := s.closes + 1, listener := Looping)
    case Log => s.(listener := Looping)
    case Derive(c) => s.(contexts := s.contexts[c := false])
    case Cancel(c) => s.(contexts := s.contexts[c := true])
  }

  function After(es: seq<Event>): Option<State> {
    if es == [] then Some(INIT)
    else match After(es[..|es| - 1])
      case None => None
      case Some(s) => if Enabled(s, es[|es| - 1]) then Some(Apply(s, es[|es| - 1])) else None
  }

  ghost predicate Inv(s: State) {
    && s.closes == (if s.listener.Selecting? || s.listener.Received? then 0 else 1)
    && (forall c | c in s.contexts && s.contexts[c] :: s.closes == 1)
  }

  lemma StepKeepsInv(s: State, e: Event)
    requires Inv(s) && Enabled(s, e)
    ensures Inv(Apply(s, e))
  {
  }

  /** The channel is closed at most once, and a context is cancelled only after that. */
  lemma {:induction false} SignaledOnce(es: seq<Event>)
    requires After(es).Some?
    ensures var s := After(es).value;
            && Inv(s) && s.closes <= 1
            && (forall c | c in s.contexts && s.contexts[c] :: s.closes == 1)
  {
    if es == [] {
    } else {
      SignaledOnce(es[..|es| - 1]);
      StepKeepsInv(After(es[..|es| - 1]).value, es[|es| - 1]);
    }
  }

  // ----- the state, read off what has happened

  predicate IsReceive(e: Event) { e.TakeInterrupt? || e.TakeRequest? }

  predicate HasReceived(es: seq<Event>) { exists i | 0 <= i < |es| :: IsReceive(es[i]) }

  /** `begin` has happened, and `end` not since. */
  predicate Since(es: seq<Event>, begin: Event, end: Event) {
    exists i | 0 <= i < |es| :: es[i] == begin && NotAfter(es, i, end)
  }

  predicate NotAfter(es: seq<Event>, i: int, e: Event) { forall j | 0 <= j < |es| :: i < j ==> es[j] != e }

  lemma SinceGoesOn(es: seq<Event>, begin: Event, end: Event)
    requires es != [] && es[|es| - 1] != end && Since(es[..|es| - 1], begin, end)
    ensures Since(es, begin, end)
  {
    var n := |es| - 1;
    var i :| 0 <= i < n && es[..n][i] == begin && NotAfter(es[..n], i, end);
    forall j | 0 <= j < |es| && i < j ensures es[j] != end {
      assert j < n ==> es[..n][j] == es[j];
    }
    assert es[i] == begin && NotAfter(es, i, end);
  }

  lemma SinceBefore(es: seq<Event>, begin: Event, end: Event)
    requires es != [] && es[|es| - 1] != begin && Since(es, begin, end)
    ensures es[|es| - 1] != end && Since(es[..|es| - 1], begin, end)
  {
    var n := |es| - 1;
    var i :| 0 <= i < |es| && es[i] == begin && NotAfter(es, i, end);
    assert forall j | 0 <= j < n :: es[..n][j] == es[j];
    assert es[..n][i] == begin && NotAfter(es[..n], i, end);
  }

  lemma SinceNow(es: seq<Event>, begin: Event, end: Event)
    requires es != [] && es[|es| - 1] == begin
    ensures Since(es, begin, end)
  {
    assert NotAfter(es, |es| - 1, end);
  }

  lemma SinceSnoc(es: seq<Event>, begin: Event, end: Event)
    requires es != [] && begin != end
    ensures var n := |es| - 1;
            Since(es, begin, end) <==> es[n] == begin || (es[n] != end && Since(es[..n], begin, end))
  {
    hide Since;
    var n := |es| - 1;
    if es[n] == begin {
      SinceNow(es, begin, end);
    } else {
      if es[n] != end && Since(es[..n], begin, end) {
        SinceGoesOn(es, begin, end);
      }
      if Since(es, begin, end) {
        SinceBefore(es, begin, end);
      }
    }
  }

  lemma ReceivedSnoc(es: seq<Event>)
    requires es != []
    ensures HasReceived(es) <==> IsReceive(es[|es| - 1]) || HasReceived(es[..|es| - 1])
  {
    var n := |es| - 1;
    if HasReceived(es[..n]) {
      var i :| 0 <= i < n && IsReceive(es[..n][i]);
      assert IsReceive(es[i]);
    }
    if i :| 0 <= i < |es| && IsReceive(es[i]) {
      assert i < n ==> IsReceive(es[..n][i]);
    }
  }

  /** What a state says about the run that led to it. */
  ghost predicate Reflects(s: State, es: seq<Event>) {
    && (s.listener.Selecting? <==> !HasReceived(es))
    && (s.closes == 1 <==> CloseSignaled in es) && (s.closes == 0 <==> CloseSignaled !in es)
    && (s.listener.Received? <==> HasReceived(es) && CloseSignaled !in es)
    && (s.pending <==> Since(es, Interrupt, TakeInterrupt))
    && (forall t :: t in s.senders <==> Since(es, Request(t), TakeRequest(t)))
    && (forall c :: c in s.contexts <==> Derive(c) in es)
    && (forall c :: c in s.contexts && s.contexts[c] <==> Cancel(c) in es)
  }

  lemma StepReflects(es: seq<Event>, s: State)
    requires es != [] && Reflects(s, es[..|es| - 1]) && Inv(s) && Enabled(s, es[|es| - 1])
    ensures Reflects(Apply(s, es[|es| - 1]), es)
  {
    hide Since, HasReceived;
    var n := |es| - 1;
    var e := es[n];
    assert es == es[..n] + [e];
    ReceivedSnoc(es);
    SinceSnoc(es, Interrupt, TakeInterrupt);
    forall t: nat ensures t in Apply(s, e).senders <==> Since(es, Request(t), TakeRequest(t)) {
      SinceSnoc(es, Request(t), TakeRequest(t));
    }
  }

  /**
   In every run: the listener waits in its first select exactly as long as nothing was received, the
   channel is closed exactly if the closing step has been taken, the blocked requesters and the buffered
   interrupt are those not taken yet, and contexts are cancelled exactly by their own cancelling steps.
   */
  lemma {:induction false} StateReflectsRun(es: seq<Event>)
    requires After(es).Some?
    ensures Reflects(After(es).value, es)
  {
    hide Reflects, Apply, Enabled, Inv;
    if es == [] {
      StartReflects();
    } else {
      StateReflectsRun(es[..|es| - 1]);
      SignaledOnce(es[..|es| - 1]);
      StepReflects(es, After(es[..|es| - 1]).value);
    }
  }

  lemma StartReflects()
    ensures Reflects(INIT, [])
  {
  }

  predicate IsListenerStep(e: Event) { e.TakeInterrupt? || e.TakeRequest? || e.CloseSignaled? || e.Log? }

  lemma AfterSnoc(es: seq<Event>, e: Event)
    requires After(es).Some? && Enabled(After(es).value, e)
    ensures After(es + [e]) == Some(Apply(After(es).value, e))
  {
    assert (es + [e])[..|es|] == es;
  }

  /**
   The listener never finishes, and a request leads to shutdown: from every reachable state at most two
   steps of its own let any blocked requester go and leave the channel closed.
   */
  lemma NoRequesterIsStuck(es: seq<Event>, t: nat) returns (more: seq<Event>)
    requires After(es).Some? && t in After(es).value.senders
    ensures |more| <= 2 && (forall i | 0 <= i < |more| :: IsListenerStep(more[i]))
    ensures After(es + more).Some? && t !in After(es + more).value.senders && After(es + more).value.closes == 1
  {
    SignaledOnce(es);
    hide After;
    var s := After(es).value;
    if s.listener.Selecting? {
      AfterSnoc(es, TakeRequest(t));
      AfterSnoc(es + [TakeRequest(t)], CloseSignaled);
      more := [TakeRequest(t)] + [CloseSignaled];
      assert es + more == es + [TakeRequest(t)] + [CloseSignaled];
    } else if s.listener.Looping? {
      AfterSnoc(es, TakeRequest(t));
      more := [TakeRequest(t)];
    } else {
      var e := if s.listener.Received? then CloseSignaled else Log;
      AfterSnoc(es, e);
      AfterSnoc(es + [e], TakeRequest(t));
      more := [e] + [TakeRequest(t)];
      assert es + more == es + [e] + [TakeRequest(t)];
    }
  }

  /** So does an interrupt, buffered or received. */
  lemma InterruptLeadsToShutdown(es: seq<Event>) returns (more: seq<Event>)
    requires After(es).Some? && (After(es).value.pending || HasReceived(es))
    ensures |more| <= 2 && (forall i | 0 <= i < |more| :: IsListenerStep(more[i]))
    ensures After(es + more).Some? && After(es + more).value.closes == 1
  {
    SignaledOnce(es);
    StateReflectsRun(es);
    hide After, Since, HasReceived;
    var s := After(es).value;
    if s.listener.Selecting? {
      AfterSnoc(es, TakeInterrupt);
      AfterSnoc(es + [TakeInterrupt], CloseSignaled);
      more := [TakeInterrupt] + [CloseSignaled];
      assert es + more == es + [TakeInterrupt] + [CloseSignaled];
    } else if s.listener.Received? {
      AfterSnoc(es, CloseSignaled);
      more := [CloseSignaled];
    } else {
      more := [];
      assert es + more == es;
    }
  }

  /** And then every context can be cancelled, in one step of its own goroutine. */
  lemma ContextsFollow(es: seq<Event>, c: nat)
    requires After(es).Some? && After(es).value.closes == 1
    requires c in After(es).value.contexts && !After(es).value.contexts[c]
    ensures After(es + [Cancel(c)]).Some? && c in After(es + [Cancel(c)]).value.contexts
    ensures After(es + [Cancel(c)]).value.contexts[c]
  {
    AfterSnoc(es, Cancel(c));
  }

  /** Interrupts, requests and new contexts are never held up. */
  lemma OutsideIsFree(es: seq<Event>, t: nat, c: nat)
    requires After(es).Some?
    ensures After(es + [Interrupt]).Some?
    ensures t !in After(es).value.senders ==> After(es + [Request(t)]).Some?
    ensures c !in After(es).value.contexts ==> After(es + [Derive(c)]).Some?
  {
    hide After;
    AfterSnoc(es, Interrupt);
    if t !in After(es).value.senders {
      AfterSnoc(es, Request(t));
    }
    if c !in After(es).value.contexts {
      AfterSnoc(es, Derive(c));
    }
  }
}
