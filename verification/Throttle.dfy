/**
 The throttle on concurrent clients (jsonrpc/server.go). A client increments a shared counter and
 keeps the value it saw, compares that value with the threshold, is served or refused, and
 decrements the counter on its way out, also when the handler panics. The four steps of any number
 of clients interleave freely.
 */
module Throttle {
  import opened Wrappers

  datatype Phase =
    | Counted(snapshot: int)  // incremented, not yet compared
    | Serving(snapshot: int)  // inside the wrapped handler
    | Refused(snapshot: int)  // answering 429

  datatype State = State(active: int, clients: map<nat, Phase>)

  datatype Event = Enter(c: nat) | Compare(c: nat) | Leave(c: nat)

  const INIT := State(0, map[])

  predicate Enabled(s: State, e: Event) {
    match e
    case Enter(c) => c !in s.clients
    case Compare(c) => c in s.clients && s.clients[c].Counted?
    case Leave(c) => c in s.clients && !s.clients[c].Counted?
  }

  function Apply(threshold: int, s: State, e: Event): State
    requires Enabled(s, e)
  {
    match e
    case Enter(c) => State(s.active + 1, s.clients[c := Counted(s.active + 1)])
    case Compare(c) =>
      var snapshot := s.clients[c].snapshot;
      s.(clients := s.clients[c := if snapshot - 1 >= threshold then Refused(snapshot) else Serving(snapshot)])
    case Leave(c) => State(s.active - 1, s.clients - {c})
  }

  /** The state an interleaving leads to, or None if its steps are not possible in that order. */
  function After(threshold: int, es: seq<Event>): Option<State> {
    if es == [] then Some(INIT)
    else match After(threshold, es[..|es| - 1])
      case None => None
      case Some(s) => if Enabled(s, es[|es| - 1]) then Some(Apply(threshold, s, es[|es| - 1])) else None
  }

  ghost function Small(threshold: int, s: State): set<nat> {
    set c | c in s.clients && s.clients[c].snapshot <= threshold
  }

  ghost function Served(s: State): set<nat> {
    set c | c in s.clients && s.clients[c].Serving?
  }

  function Capacity(threshold: int): nat { if threshold > 0 then threshold else 0 }

  /**
   The inductive fact is about snapshots, not about who is served: of the clients in flight, at most
   `threshold` saw a value within the threshold.
   */
  ghost predicate Inv(threshold: int, s: State) {
    && s.active == |s.clients|
    && |Small(threshold, s)| <= Capacity(threshold)
    && (forall c | c in s.clients :: s.clients[c].snapshot >= 1)
    && (forall c | c in s.clients && s.clients[c].Serving? :: s.clients[c].snapshot <= threshold)
    && (forall c | c in s.clients && s.clients[c].Refused? :: s.clients[c].snapshot > threshold)
  }

  lemma SubsetSize<T>(a: set<T>, b: set<T>)
    requires a <= b
    ensures |a| <= |b|
  {
    assert b == a + (b - a);
  }

  lemma EnterKeepsInv(threshold: int, s: State, c: nat)
    requires Inv(threshold, s) && c !in s.clients
    ensures Inv(threshold, Apply(threshold, s, Enter(c)))
  {
    var s' := Apply(threshold, s, Enter(c));
    assert s'.clients.Keys == s.clients.Keys + {c};
    if s.active + 1 <= threshold {
      SubsetSize(Small(threshold, s'), s'.clients.Keys);
    } else {
      assert Small(threshold, s') == Small(threshold, s);
    }
  }

  lemma CompareKeepsInv(threshold: int, s: State, c: nat)
    requires Inv(threshold, s) && c in s.clients && s.clients[c].Counted?
    ensures Inv(threshold, Apply(threshold, s, Compare(c)))
  {
    var s' := Apply(threshold, s, Compare(c));
    assert s'.clients.Keys == s.clients.Keys;
    assert Small(threshold, s') == Small(threshold, s);
  }

  lemma LeaveKeepsInv(threshold: int, s: State, c: nat)
    requires Inv(threshold, s) && c in s.clients && !s.clients[c].Counted?
    ensures Inv(threshold, Apply(threshold, s, Leave(c)))
  {
    var s' := Apply(threshold, s, Leave(c));
    assert s'.clients.Keys == s.clients.Keys - {c};
    SubsetSize(Small(threshold, s'), Small(threshold, s));
  }

  lemma {:induction false} RunsKeepInv(threshold: int, es: seq<Event>)
    requires After(threshold, es).Some?
    ensures Inv(threshold, After(threshold, es).value)
  {
    hide Apply, Inv;
    if es == [] {
      StartHasInv(threshold);
    } else {
      RunsKeepInv(threshold, es[..|es| - 1]);
      var s := After(threshold, es[..|es| - 1]).value;
      match es[|es| - 1]
      case Enter(c) => EnterKeepsInv(threshold, s, c);
      case Compare(c) => CompareKeepsInv(threshold, s, c);
      case Leave(c) => LeaveKeepsInv(threshold, s, c);
    }
  }

  lemma StartHasInv(threshold: int)
    ensures Inv(threshold, INIT)
  {
    assert Small(threshold, INIT) == {};
  }

  /**
   In every state of every interleaving the counter is the number of clients in flight, at most
   `threshold` clients are inside the handler, and the counter is 0 exactly when nobody is in flight.
   */
  lemma ThrottleIsSafe(threshold: int, es: seq<Event>)
    requires After(threshold, es).Some?
    ensures var s := After(threshold, es).value;
            && s.active == |s.clients|
            && |Served(s)| <= Capacity(threshold)
            && (s.active == 0 <==> s.clients == map[])
  {
    var s := After(threshold, es).value;
    RunsKeepInv(threshold, es);
    SubsetSize(Served(s), Small(threshold, s));
    if s.active == 0 {
      assert s.clients.Keys == {};
    }
  }

  /** Event i is the entry of c, and c has not left since. */
  predicate InSince(es: seq<Event>, i: int, c: nat) {
    && 0 <= i < |es| && es[i] == Enter(c)
    && forall j | i < j < |es| :: es[j] != Leave(c)
  }

  /** A client's snapshot is one more than the number of clients in flight when it came in. */
  lemma {:induction false} SnapshotIsEntryCount(threshold: int, es: seq<Event>, i: int, c: nat)
    requires After(threshold, es).Some? && InSince(es, i, c)
    ensures var s := After(threshold, es).value;
            && After(threshold, es[..i]).Some?
            && c in s.clients
            && s.clients[c].snapshot == |After(threshold, es[..i]).value.clients| + 1
  {
    var n := |es| - 1;
    RunsKeepInv(threshold, es[..n]);
    if i == n {
    } else {
      assert es[..n][..i] == es[..i];
      SnapshotIsEntryCount(threshold, es[..n], i, c);
    }
  }

  /**
   The decision depends only on the moment of entry: a client is refused exactly when at least
   `threshold` others, served or not, were in flight when it came in.
   */
  lemma RefusedIffCrowded(threshold: int, es: seq<Event>, i: int, c: nat)
    requires After(threshold, es).Some? && InSince(es, i, c)
    ensures var s := After(threshold, es).value;
            && After(threshold, es[..i]).Some?
            && c in s.clients
            && (!s.clients[c].Counted? ==>
                  (s.clients[c].Refused? <==> |After(threshold, es[..i]).value.clients| >= threshold))
  {
    SnapshotIsEntryCount(threshold, es, i, c);
    RunsKeepInv(threshold, es);
  }

  /** Clients are in flight exactly from their entry to their exit. */
  lemma {:induction false} InFlightIff(threshold: int, es: seq<Event>, c: nat)
    requires After(threshold, es).Some?
    ensures c in After(threshold, es).value.clients <==> exists i :: InSince(es, i, c)
  {
    hide Apply, Enabled;
    if es == [] {
      assert forall i :: !InSince(es, i, c);
      StartsIdle();
      assert After(threshold, es).value.clients == map[];
    } else {
      var n := |es| - 1;
      InFlightIff(threshold, es[..n], c);
      StepMoves(threshold, After(threshold, es[..n]).value, es[n], c);
      if i :| InSince(es[..n], i, c) {
        assert es[n] != Leave(c) ==> InSince(es, i, c) by {
          assert forall j | 0 <= j < n :: es[..n][j] == es[j];
        }
      }
      if i :| InSince(es, i, c) {
        assert i < n ==> InSince(es[..n], i, c);
      }
      assert es[n] == Enter(c) ==> InSince(es, n, c);
    }
  }

  lemma StepMoves(threshold: int, s: State, e: Event, c: nat)
    requires Enabled(s, e)
    ensures c in Apply(threshold, s, e).clients <==> e == Enter(c) || (e != Leave(c) && c in s.clients)
  {
  }

  /**
   Nobody is held up: a client that is not in flight can come in, and one that is, served or refused,
   is out after at most two steps of its own.
   */
  lemma ClientsMoveFreely(threshold: int, es: seq<Event>, c: nat) returns (more: seq<Event>)
    requires After(threshold, es).Some?
    ensures c !in After(threshold, es).value.clients ==> more == [Enter(c)]
    ensures c in After(threshold, es).value.clients ==> more == [Leave(c)] || more == [Compare(c), Leave(c)]
    ensures After(threshold, es + more).Some?
    ensures c in After(threshold, es + more).value.clients <==> more == [Enter(c)]
  {
    hide After;
    var s := After(threshold, es).value;
    if c !in s.clients {
      AfterSnoc(threshold, es, Enter(c), s);
      more := [Enter(c)];
    } else if s.clients[c].Counted? {
      AfterSnoc(threshold, es, Compare(c), s);
      AfterSnoc(threshold, es + [Compare(c)], Leave(c), Apply(threshold, s, Compare(c)));
      more := [Compare(c), Leave(c)];
      assert es + more == es + [Compare(c)] + [Leave(c)];
    } else {
      AfterSnoc(threshold, es, Leave(c), s);
      more := [Leave(c)];
    }
  }

  lemma AfterSnoc(threshold: int, es: seq<Event>, e: Event, s: State)
    requires After(threshold, es) == Some(s) && Enabled(s, e)
    ensures After(threshold, es + [e]) == Some(Apply(threshold, s, e))
  {
    assert (es + [e])[..|es|] == es;
  }

  /** So a client can be refused although nobody is being served: the others have meanwhile left. */
  lemma RefusedWhileIdle(a: nat, b: nat)
    requires a != b
    ensures var s := After(1, [Enter(a), Enter(b), Compare(a), Leave(a), Compare(b)]);
            s.Some? && Served(s.value) == {} && s.value.clients == map[b := Refused(2)]
  {
    hide After;
    StartsIdle();
    AfterSnoc(1, [], Enter(a), INIT);
    assert [] + [Enter(a)] == [Enter(a)];
    var s1 := State(1, map[a := Counted(1)]);
    AfterSnoc(1, [Enter(a)], Enter(b), s1);
    var s2 := State(2, map[a := Counted(1), b := Counted(2)]);
    assert [Enter(a)] + [Enter(b)] == [Enter(a), Enter(b)];
    AfterSnoc(1, [Enter(a), Enter(b)], Compare(a), s2);
    var s3 := State(2, map[a := Serving(1), b := Counted(2)]);
    assert [Enter(a), Enter(b)] + [Compare(a)] == [Enter(a), Enter(b), Compare(a)];
    assert Apply(1, s2, Compare(a)).clients == s3.clients;
    AfterSnoc(1, [Enter(a), Enter(b), Compare(a)], Leave(a), s3);
    var s4 := State(1, map[b := Counted(2)]);
    assert [Enter(a), Enter(b), Compare(a)] + [Leave(a)] == [Enter(a), Enter(b), Compare(a), Leave(a)];
    assert Apply(1, s3, Leave(a)).clients == s4.clients;
    AfterSnoc(1, [Enter(a), Enter(b), Compare(a), Leave(a)], Compare(b), s4);
    assert [Enter(a), Enter(b), Compare(a), Leave(a)] + [Compare(b)]
           == [Enter(a), Enter(b), Compare(a), Leave(a), Compare(b)];
    assert Apply(1, s4, Compare(b)).clients == map[b := Refused(2)];
  }

  lemma StartsIdle()
    ensures After(1, []) == Some(INIT)
  {
  }
}
