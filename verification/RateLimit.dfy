/**
 The token budget (api/ratelimit.go). Callers are serialised by a mutex held for the whole call,
 sleeping included, so a run is a sequence of calls, each with the server replies it meets.
 */
module RateLimit {

  datatype Rule = Rule(limit: int, remaining: int, reset: int)

  datatype Reply = Unreadable | Core(rule: Rule)

  // A call that has used up its replies is asleep, with the mutex held.
  datatype CallResult = Granted(rule: Rule) | Failed | Asleep

  datatype Effect = Effect(rule: Rule, result: CallResult, loaded: seq<int>)

  /**
   One call: spend a token; with none left ask the server, again after a sleep while it has none
   either. `loaded` lists the budgets taken over, none or one.
   */
  function Call(rule: Rule, replies: seq<Reply>): Effect {
    if rule.remaining != 0 then
      var next := rule.(remaining := rule.remaining - 1);
      Effect(next, Granted(next), [])
    else if replies == [] then Effect(rule, Asleep, [])
    else match replies[0]
      case Unreadable => Effect(rule, Failed, [])
      case Core(core) =>
        if core.remaining == 0 then Call(rule, replies[1..])
        else
          var next := core.(remaining := core.remaining - 1);
          Effect(next, Granted(next), [core.remaining])
  }

  class Client {
    var rateLimit: Rule

    constructor ()
      ensures rateLimit == Rule(0, 0, 0)
    {
      rateLimit := Rule(0, 0, 0);
    }

    method RateLimit(replies: seq<Reply>) returns (r: CallResult)
      modifies this
      ensures var e := Call(old(rateLimit), replies); rateLimit == e.rule && r == e.result
    {
      var next := 0;
      while true
        invariant 0 <= next <= |replies|
        invariant rateLimit == old(rateLimit)
        invariant Call(rateLimit, replies) == Call(rateLimit, replies[next..])
        decreases |replies| - next
      {
        if rateLimit.remaining == 0 {
          if next == |replies| {
            return Asleep;
          }
          var reply := replies[next];
          next := next + 1;
          assert replies[next - 1..][1..] == replies[next..];
          if reply.Unreadable? {
            return Failed;
          }
          if reply.rule.remaining == 0 {
            continue;
          }
          rateLimit := reply.rule;
        }
        rateLimit := rateLimit.(remaining := rateLimit.remaining - 1);
        break;
      }
      r := Granted(rateLimit);
    }
  }

  // ----- the ledger of a run of calls

  /** Tokens handed out, budgets loaded so far, and tokens handed out since the last load. */
  datatype Ledger = Ledger(rule: Rule, granted: nat, loads: seq<int>, sinceLoad: nat)

  function Book(l: Ledger, e: Effect): Ledger {
    var grant := if e.result.Granted? then 1 else 0;
    Ledger(e.rule, l.granted + grant, l.loads + e.loaded,
           if e.loaded == [] then l.sinceLoad + grant else grant)
  }

  /**
   The ledger after a run of calls. A call that is left asleep holds the mutex, so in the program no
   call follows it; here one may, which only adds runs, and a sleeping call changes nothing.
   */
  function AfterCalls(calls: seq<seq<Reply>>): Ledger {
    if calls == [] then Ledger(Rule(0, 0, 0), 0, [], 0)
    else
      var l := AfterCalls(calls[..|calls| - 1]);
      Book(l, Call(l.rule, calls[|calls| - 1]))
  }

  function Sum(xs: seq<int>): int { if xs == [] then 0 else Sum(xs[..|xs| - 1]) + xs[|xs| - 1] }

  predicate NonNegative(xs: seq<int>) { forall i | 0 <= i < |xs| :: xs[i] >= 0 }

  /** A call that does not get a token changes nothing; one that does spends exactly one. */
  lemma {:induction false} CallEffect(rule: Rule, replies: seq<Reply>)
    ensures var e := Call(rule, replies);
            && (!e.result.Granted? ==> e.rule == rule && e.loaded == [] && rule.remaining == 0)
            && (e.result.Granted? ==> e.result.rule == e.rule)
            && |e.loaded| <= 1
            && (e.loaded != [] ==> rule.remaining == 0 && e.result.Granted? && e.loaded[0] != 0
                                   && e.rule.remaining == e.loaded[0] - 1
                                   && Core(e.rule.(remaining := e.loaded[0])) in replies)
            && (e.loaded == [] && e.result.Granted? ==>
                  e.rule == rule.(remaining := rule.remaining - 1) && rule.remaining != 0)
  {
    if rule.remaining != 0 || replies == [] || replies[0].Unreadable? || replies[0].rule.remaining != 0 {
    } else {
      CallEffect(rule, replies[1..]);
    }
  }

  predicate IsExhausted(r: Reply) { r.Core? && r.rule.remaining == 0 }

  /** Reply k is the first one that does not put the call to sleep. */
  predicate DecidesCall(replies: seq<Reply>, k: int) {
    0 <= k < |replies| && !IsExhausted(replies[k]) && forall j | 0 <= j < k :: IsExhausted(replies[j])
  }

  /**
   Exactly what a call does. With a token left it spends it and asks nothing. With none left the first
   reply that is not an empty budget decides: if it is unreadable the call fails at once, otherwise its
   budget is taken over and one token of it spent. If there is none, the call is asleep.
   */
  lemma {:induction false} CallExactly(rule: Rule, replies: seq<Reply>)
    ensures rule.remaining != 0 ==>
              var next := Rule(rule.limit, rule.remaining - 1, rule.reset);
              Call(rule, replies) == Effect(next, Granted(next), [])
    ensures rule.remaining == 0 ==>
              forall k | DecidesCall(replies, k) ::
                match replies[k]
                case Unreadable => Call(rule, replies) == Effect(rule, Failed, [])
                case Core(core) =>
                  var next := Rule(core.limit, core.remaining - 1, core.reset);
                  Call(rule, replies) == Effect(next, Granted(next), [core.remaining])
    ensures rule.remaining == 0 && (forall j | 0 <= j < |replies| :: IsExhausted(replies[j])) ==>
              Call(rule, replies) == Effect(rule, Asleep, [])
  {
    if rule.remaining != 0 || replies == [] {
    } else if !IsExhausted(replies[0]) {
      forall k | DecidesCall(replies, k) ensures k == 0 {
      }
    } else {
      CallExactly(rule, replies[1..]);
      forall k | DecidesCall(replies, k) ensures k > 0 && DecidesCall(replies[1..], k - 1) {
        assert forall j | 0 <= j < k - 1 :: replies[1..][j] == replies[j + 1];
      }
    }
  }

  /** Hence exactly when a call fails, is granted or sleeps. */
  lemma CallResultIff(rule: Rule, replies: seq<Reply>)
    ensures Call(rule, replies).result == Failed <==>
            rule.remaining == 0 && exists k :: DecidesCall(replies, k) && replies[k].Unreadable?
    ensures Call(rule, replies).result.Granted? <==>
            rule.remaining != 0 || exists k :: DecidesCall(replies, k) && replies[k].Core?
    ensures Call(rule, replies).result == Asleep <==>
            rule.remaining == 0 && forall k :: !DecidesCall(replies, k)
  {
    hide Call;
    CallExactly(rule, replies);
    if rule.remaining == 0 {
      var k := FirstDecision(replies);
      if k < |replies| {
        assert DecidesCall(replies, k);
      }
    }
  }

  lemma {:induction false} FirstDecision(replies: seq<Reply>) returns (k: nat)
    ensures k <= |replies| && (forall j | 0 <= j < k :: IsExhausted(replies[j]))
    ensures k < |replies| ==> !IsExhausted(replies[k])
  {
    if replies == [] || !IsExhausted(replies[0]) {
      k := 0;
    } else {
      k := FirstDecision(replies[1..]);
      assert forall j | 0 < j < |replies| :: replies[j] == replies[1..][j - 1];
      k := k + 1;
    }
  }

  /** The invariant of the ledger; it needs no assumption on what the server sends. */
  ghost predicate Balanced(l: Ledger) {
    && l.granted == Sum(l.loads) - l.rule.remaining
    && (l.loads == [] ==> l.rule.remaining == 0 && l.sinceLoad == 0)
    && (l.loads != [] ==> l.sinceLoad == l.loads[|l.loads| - 1] - l.rule.remaining)
    && (NonNegative(l.loads) ==> l.rule.remaining >= 0)
    && (forall i | 0 <= i < |l.loads| - 1 :: l.loads[i] >= 0)
    && (l.loads != [] && l.loads[|l.loads| - 1] < 0 ==> l.rule.remaining < 0)
  }

  lemma LoadsSnoc(xs: seq<int>, x: int)
    ensures Sum(xs + [x]) == Sum(xs) + x
    ensures NonNegative(xs + [x]) <==> NonNegative(xs) && x >= 0
  {
    assert (xs + [x])[..|xs|] == xs;
    assert forall i | 0 <= i < |xs| :: (xs + [x])[i] == xs[i];
  }

  /** When a budget is loaded the one before was spent, so none so far was negative. */
  lemma SpentMeansNonNegative(l: Ledger)
    requires Balanced(l) && l.rule.remaining == 0
    ensures NonNegative(l.loads)
  {
  }

  lemma BookKeepsBalance(l: Ledger, replies: seq<Reply>)
    requires Balanced(l)
    ensures Balanced(Book(l, Call(l.rule, replies)))
  {
    hide Call, Sum;
    var e := Call(l.rule, replies);
    CallEffect(l.rule, replies);
    if e.loaded == [] {
      assert Book(l, e).loads == l.loads;
    } else {
      assert Book(l, e).loads == l.loads + [e.loaded[0]];
      LoadsSnoc(l.loads, e.loaded[0]);
      SpentMeansNonNegative(l);
    }
  }

  lemma {:induction false} LedgerBalances(calls: seq<seq<Reply>>)
    ensures Balanced(AfterCalls(calls))
  {
    hide Call;
    if calls == [] {
    } else {
      var l := AfterCalls(calls[..|calls| - 1]);
      LedgerBalances(calls[..|calls| - 1]);
      BookKeepsBalance(l, calls[|calls| - 1]);
    }
  }

  /**
   Over any run of calls: tokens handed out are what was loaded minus what remains, and what was
   handed out since the last load is the last budget minus what remains. Budgets other than the
   last were used up exactly. With non-negative budgets what remains is never negative, so no more
   than the loaded amount is handed out between two loads.
   */
  lemma TokenLedger(calls: seq<seq<Reply>>)
    ensures var l := AfterCalls(calls);
            && l.granted == Sum(l.loads) - l.rule.remaining
            && (l.loads != [] ==> l.sinceLoad == l.loads[|l.loads| - 1] - l.rule.remaining)
            && (l.rule.remaining >= 0 <==> NonNegative(l.loads))
            && (NonNegative(l.loads) && l.loads != [] ==> l.sinceLoad <= l.loads[|l.loads| - 1])
  {
    LedgerBalances(calls);
  }

  /** At the moment a new budget is loaded, the previous one has been handed out to the last token. */
  lemma LoadsOnlyWhenSpent(calls: seq<seq<Reply>>, replies: seq<Reply>)
    requires Call(AfterCalls(calls).rule, replies).loaded != []
    ensures var l := AfterCalls(calls);
            && l.rule.remaining == 0 && l.granted == Sum(l.loads)
            && (l.loads != [] ==> l.sinceLoad == l.loads[|l.loads| - 1])
  {
    LedgerBalances(calls);
    CallEffect(AfterCalls(calls).rule, replies);
  }

  /**
   A negative budget ends the limit for good: from then on every call is granted without asking the
   server again.
   */
  lemma {:induction false} NegativeBudgetNeverReloads(calls: seq<seq<Reply>>, more: seq<seq<Reply>>)
    requires AfterCalls(calls).rule.remaining < 0
    ensures AfterCalls(calls + more).loads == AfterCalls(calls).loads
    ensures AfterCalls(calls + more).granted == AfterCalls(calls).granted + |more|
    ensures AfterCalls(calls + more).rule.remaining == AfterCalls(calls).rule.remaining - |more|
  {
    if more == [] {
      assert calls + more == calls;
    } else {
      var init := more[..|more| - 1];
      NegativeBudgetNeverReloads(calls, init);
      assert (calls + more)[..|calls + more| - 1] == calls + init;
    }
  }

  /** While tokens are left, calls spend them one by one, whatever the server would answer. */
  lemma {:induction false} SpendsWhatIsLeft(calls: seq<seq<Reply>>, more: seq<seq<Reply>>)
    requires 0 <= |more| <= AfterCalls(calls).rule.remaining
    ensures AfterCalls(calls + more).loads == AfterCalls(calls).loads
    ensures AfterCalls(calls + more).rule.remaining == AfterCalls(calls).rule.remaining - |more|
  {
    if more == [] {
      assert calls + more == calls;
    } else {
      var init := more[..|more| - 1];
      SpendsWhatIsLeft(calls, init);
      assert (calls + more)[..|calls + more| - 1] == calls + init;
    }
  }

  /**
   The limit has ended for good, no later calls ever loading a budget again, exactly if the budget is
   negative: from any other state some calls lead to a load.
   */
  lemma NeverReloadsIff(calls: seq<seq<Reply>>)
    ensures (forall more :: AfterCalls(calls + more).loads == AfterCalls(calls).loads)
            <==> AfterCalls(calls).rule.remaining < 0
  {
    hide AfterCalls;
    var left := AfterCalls(calls).rule.remaining;
    if left < 0 {
      forall more ensures AfterCalls(calls + more).loads == AfterCalls(calls).loads {
        NegativeBudgetNeverReloads(calls, more);
      }
    } else {
      var spend: seq<seq<Reply>> := seq(left, i => []);
      var answer := [Core(Rule(1, 1, 0))];
      SpendsWhatIsLeft(calls, spend);
      LoadsWhenSpent(calls + spend, answer, Rule(1, 1, 0));
      assert calls + (spend + [answer]) == calls + spend + [answer];
      assert AfterCalls(calls + (spend + [answer])).loads != AfterCalls(calls).loads;
    }
  }

  lemma LoadsWhenSpent(calls: seq<seq<Reply>>, replies: seq<Reply>, core: Rule)
    requires AfterCalls(calls).rule.remaining == 0 && core.remaining != 0 && replies == [Core(core)]
    ensures AfterCalls(calls + [replies]).loads == AfterCalls(calls).loads + [core.remaining]
    ensures AfterCalls(calls + [replies]).rule.remaining == core.remaining - 1
  {
    assert (calls + [replies])[..|calls|] == calls;
  }

  /** A concrete case: the server answers with -1, and the next call is granted without being answered. */
  lemma NegativeReplyEndsLimit(replies: seq<Reply>)
    requires replies == [Core(Rule(5000, -1, 0))]
    ensures AfterCalls([replies]).rule.remaining == -2
    ensures AfterCalls([replies] + [[]]) == Ledger(Rule(5000, -3, 0), 2, [-1], 2)
  {
    assert [replies][..0] == [] && AfterCalls([]) == Ledger(Rule(0, 0, 0), 0, [], 0);
    assert Call(Rule(0, 0, 0), replies) == Effect(Rule(5000, -2, 0), Granted(Rule(5000, -2, 0)), [-1]);
    assert AfterCalls([replies]) == Ledger(Rule(5000, -2, 0), 1, [-1], 1);
    assert ([replies] + [[]])[..1] == [replies];
  }
}
