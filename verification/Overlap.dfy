/**
 Several runs of `Update` at once. Requests of the RPC server run concurrently and nothing serialises
 them (jsonrpc/server.go), so between the lookup of one run's iteration and its write other runs may
 look up and write (server/update.go). A lookup and a write are each one step, taken or failing as
 the visit's answers say; a run is given by the pull requests it visits, in order.
 */
module Overlap {
  import opened Wrappers
  import opened Records
  import opened Timestamps
  import opened Pagination
  import opened Store
  import opened Sync

  // What a run has decided to do with the pull request it is at.
  datatype Plan = Idle | Creating(p: PullRequest) | Saving(p: PullRequest)

  /** A run is at its task number `next`, unless a failing answer of the remote has stopped it. */
  datatype Worker = Worker(next: nat, plan: Plan, stopped: bool)

  /** `log` holds the visited tasks of all runs, in the order in which the visits ended. */
  datatype State = State(db: Db, workers: seq<Worker>, log: seq<Task>)

  datatype Event = Look(w: nat) | Write(w: nat)

  function Start(runs: seq<seq<Task>>, db: Db): State {
    State(db, seq(|runs|, _ => Worker(0, Idle, false)), [])
  }

  predicate Enabled(runs: seq<seq<Task>>, s: State, e: Event) {
    && |s.workers| == |runs| && e.w < |runs|
    && !s.workers[e.w].stopped && s.workers[e.w].next < |runs[e.w]|
    && (e.Look? <==> s.workers[e.w].plan.Idle?)
  }

  function TaskAt(runs: seq<seq<Task>>, s: State, e: Event): Task
    requires Enabled(runs, s, e)
  {
    runs[e.w][s.workers[e.w].next]
  }

  datatype Decision = Aborts | Passes | Goes(plan: Plan)

  /** A visit up to and including its lookup. */
  function Decide(g: Guard, org: string, db: Db, t: Task): Decision {
    var v := t.visit;
    match v.detail
    case Err(_) => Aborts
    case Ok(api) =>
      match ConvertPullRequest(api, t.repo, org)
      case None => Passes
      case Some(p) =>
        if !v.lookupUp then Passes
        else if v.listed.url !in db.prs then Goes(Creating(p))
        else if ShouldUpdate(g, db.prs[v.listed.url].updatedAt, ListedTime(v)) then Goes(Saving(p))
        else Passes
  }

  /** The rest of it. Creating fails on a URL that has come to be known since the lookup. */
  function Written(db: Db, t: Task, plan: Plan): Outcome
    requires !plan.Idle?
  {
    FetchAndSave(t.repo, db, t.visit, plan.p, t.visit.writeUp && (plan.Saving? || plan.p.url !in db.prs))
  }

  /** Worker w has ended its visit of t. */
  function Ended(s: State, db: Db, w: nat, t: Task, stops: bool): State
    requires w < |s.workers|
  {
    State(db, s.workers[w := Worker(s.workers[w].next + 1, Idle, stops)], s.log + [t])
  }

  function Apply(g: Guard, org: string, runs: seq<seq<Task>>, s: State, e: Event): State
    requires Enabled(runs, s, e)
  {
    var t := TaskAt(runs, s, e);
    match e
    case Write(w) =>
      var o := Written(s.db, t, s.workers[w].plan);
      Ended(s, o.db, w, t, o.exit != Completed)
    case Look(w) =>
      match Decide(g, org, s.db, t)
      case Goes(plan) => s.(workers := s.workers[w := s.workers[w].(plan := plan)])
      case Passes => Ended(s, s.db, w, t, false)
      case Aborts => Ended(s, s.db, w, t, true)
  }

  function After(g: Guard, org: string, runs: seq<seq<Task>>, db: Db, es: seq<Event>): Option<State> {
    if es == [] then Some(Start(runs, db))
    else match After(g, org, runs, db, es[..|es| - 1])
      case None => None
      case Some(s) =>
        if Enabled(runs, s, es[|es| - 1]) then Some(Apply(g, org, runs, s, es[|es| - 1])) else None
  }

  /** A lookup directly followed by its write is one visit of the sequential synchroniser, exits included. */
  lemma UninterruptedIsStep(g: Guard, org: string, runs: seq<seq<Task>>, s: State, w: nat)
    requires Enabled(runs, s, Look(w))
    ensures var t := TaskAt(runs, s, Look(w));
            var looked := Apply(g, org, runs, s, Look(w));
            var done := if looked.workers[w].plan.Idle? then looked else Apply(g, org, runs, looked, Write(w));
            var one := Step(g, org, t.repo, s.db, t.visit);
            done == Ended(s, one.db, w, t, one.exit != Completed)
  {
    hide FetchAndSave, ConvertPullRequest;
    var t := TaskAt(runs, s, Look(w));
    if t.visit.detail.Ok? {
      RecordUrl(t, org);
    }
  }

  lemma RecordUrl(t: Task, org: string)
    requires t.visit.detail.Ok?
    ensures ConvertPullRequest(t.visit.detail.value, t.repo, org).Some? ==>
              ConvertPullRequest(t.visit.detail.value, t.repo, org).value.url == t.visit.detail.value.url
  {
    hide FieldTime;
  }

  // ----- one run alone

  lemma DecidedStep(g: Guard, org: string, db: Db, t: Task)
    ensures var one := Step(g, org, t.repo, db, t.visit);
            match Decide(g, org, db, t)
            case Aborts => one.db == db && one.exit != Completed
            case Passes => one == Outcome(db, Completed)
            case Goes(plan) => !plan.Idle? && Written(db, t, plan) == one
  {
    hide FetchAndSave, ConvertPullRequest;
    if t.visit.detail.Ok? {
      RecordUrl(t, org);
    }
  }

  /** The store after n visits one after the other, and whether the one before was completed. */
  ghost predicate IsSequential(g: Guard, org: string, ts: seq<Task>, db: Db, s: State) {
    && |s.workers| == 1 && s.workers[0].next <= |ts|
    && s.db == Fold(g, org, db, ts[..s.workers[0].next]) && s.log == ts[..s.workers[0].next]
    && (forall i | 0 <= i < s.workers[0].next ::
          (Step(g, org, ts[i].repo, Fold(g, org, db, ts[..i]), ts[i].visit).exit != Completed
           <==> s.workers[0].stopped && i == s.workers[0].next - 1))
    && (s.workers[0].stopped ==> s.workers[0].next > 0)
    && (!s.workers[0].plan.Idle? ==>
          && !s.workers[0].stopped && s.workers[0].next < |ts|
          && Decide(g, org, s.db, ts[s.workers[0].next]) == Goes(s.workers[0].plan))
  }

  lemma StepIsSequential(g: Guard, org: string, ts: seq<Task>, db: Db, s: State, e: Event)
    requires IsSequential(g, org, ts, db, s) && Enabled([ts], s, e)
    ensures IsSequential(g, org, ts, db, Apply(g, org, [ts], s, e))
  {
    hide Step, Decide, Written, Fold;
    var n := s.workers[0].next;
    DecidedStep(g, org, s.db, ts[n]);
    FoldSnoc(g, org, db, ts[..n], ts[n]);
    assert ts[..n + 1] == ts[..n] + [ts[n]];
  }

  /**
   One run alone, however far it has come, is the sequential synchroniser: it has visited the first
   tasks one after the other, and has stopped exactly if the last of them did not complete.
   */
  lemma {:induction false} AloneIsSequential(g: Guard, org: string, ts: seq<Task>, db: Db, es: seq<Event>)
    requires After(g, org, [ts], db, es).Some?
    ensures IsSequential(g, org, ts, db, After(g, org, [ts], db, es).value)
  {
    hide IsSequential, Apply, Enabled;
    if es == [] {
      StartIsSequential(g, org, ts, db);
    } else {
      var n := |es| - 1;
      AloneIsSequential(g, org, ts, db, es[..n]);
      StepIsSequential(g, org, ts, db, After(g, org, [ts], db, es[..n]).value, es[n]);
    }
  }

  lemma StartIsSequential(g: Guard, org: string, ts: seq<Task>, db: Db)
    ensures IsSequential(g, org, ts, db, Start([ts], db))
  {
  }

  lemma CanHappenIff(g: Guard, org: string, runs: seq<seq<Task>>, db: Db, es: seq<Event>, e: Event)
    requires After(g, org, runs, db, es).Some?
    ensures After(g, org, runs, db, es + [e]).Some? <==> Enabled(runs, After(g, org, runs, db, es).value, e)
  {
    hide Apply, Enabled;
    assert (es + [e])[..|es|] == es;
  }

  lemma {:induction false} WorkersStay(g: Guard, org: string, runs: seq<seq<Task>>, db: Db, es: seq<Event>)
    requires After(g, org, runs, db, es).Some?
    ensures |After(g, org, runs, db, es).value.workers| == |runs|
  {
    hide Decide, Written;
    if es == [] {
    } else {
      WorkersStay(g, org, runs, db, es[..|es| - 1]);
    }
  }

  /** A run goes on until it has stopped or visited everything, whatever the others do. */
  lemma RunGoesOn(g: Guard, org: string, runs: seq<seq<Task>>, db: Db, es: seq<Event>, w: nat)
    requires After(g, org, runs, db, es).Some? && w < |runs|
    ensures |After(g, org, runs, db, es).value.workers| == |runs|
    ensures var worker := After(g, org, runs, db, es).value.workers[w];
            !worker.stopped && worker.next < |runs[w]| <==>
            After(g, org, runs, db, es + [Look(w)]).Some? || After(g, org, runs, db, es + [Write(w)]).Some?
  {
    hide After;
    WorkersStay(g, org, runs, db, es);
    CanHappenIff(g, org, runs, db, es, Look(w));
    CanHappenIff(g, org, runs, db, es, Write(w));
  }

  // ----- coverage

  /** Task i of run w has been visited, and is t. */
  predicate Finished(runs: seq<seq<Task>>, s: State, w: int, i: int, t: Task) {
    0 <= w < |runs| && |s.workers| == |runs| && 0 <= i < |runs[w]| && i < s.workers[w].next && runs[w][i] == t
  }

  /** A plan is for what the task's details say, and to save only what is stored. */
  predicate PlanFits(org: string, db: Db, t: Task, plan: Plan) {
    plan.Idle? ||
    (t.visit.detail.Ok? && ConvertPullRequest(t.visit.detail.value, t.repo, org) == Some(plan.p)
     && (plan.Saving? ==> t.visit.listed.url in db.prs))
  }

  ghost predicate PlansFit(org: string, runs: seq<seq<Task>>, s: State) {
    && |s.workers| == |runs|
    && (forall w | 0 <= w < |runs| :: s.workers[w].next <= |runs[w]|)
    && (forall w | 0 <= w < |runs| && s.workers[w].next < |runs[w]| ::
          PlanFits(org, s.db, runs[w][s.workers[w].next], s.workers[w].plan))
  }

  /** What the table holds, in terms of what it held and what has been visited. */
  ghost predicate Covers(db: Db, now: Db, log: seq<Task>) {
    && db.prs.Keys <= now.prs.Keys
    && (forall u | u in now.prs :: u in db.prs || exists t :: t in log && Writes(t, u))
    && (forall t | t in log && Clean(t.visit) :: t.visit.listed.url in now.prs)
  }

  ghost predicate LogsFinished(runs: seq<seq<Task>>, s: State) {
    |s.workers| == |runs| && forall t :: t in s.log <==> exists w, i :: Finished(runs, s, w, i, t)
  }

  ghost predicate Inv(org: string, runs: seq<seq<Task>>, db: Db, s: State) {
    PlansFit(org, runs, s) && Covers(db, s.db, s.log) && LogsFinished(runs, s)
  }

  /** What a visit leaves behind, whether at its lookup or at its write. */
  ghost predicate Leaves(db: Db, after: Db, t: Task) {
    && db.prs.Keys <= after.prs.Keys
    && (forall u | u in after.prs :: u in db.prs || Writes(t, u))
    && (Clean(t.visit) ==> t.visit.listed.url in after.prs)
  }

  lemma WriteLeaves(org: string, db: Db, t: Task, plan: Plan)
    requires !plan.Idle? && PlanFits(org, db, t, plan)
    ensures Leaves(db, Written(db, t, plan).db, t)
  {
    hide ConvertPullRequest, ConvertedCommits, ConvertedReviews, UpsertReviews, Paged;
    RecordUrl(t, org);
  }

  lemma LookLeaves(g: Guard, org: string, db: Db, t: Task)
    requires !Decide(g, org, db, t).Goes?
    ensures Leaves(db, db, t)
  {
    hide Paged, FieldTime, ListedTime, ShouldUpdate;
  }

  lemma DecisionFits(g: Guard, org: string, db: Db, t: Task)
    requires Decide(g, org, db, t).Goes?
    ensures !Decide(g, org, db, t).plan.Idle? && PlanFits(org, db, t, Decide(g, org, db, t).plan)
  {
    hide ConvertPullRequest, ListedTime, ShouldUpdate;
  }

  lemma MoreIsCovered(db: Db, now: Db, log: seq<Task>, after: Db, t: Task)
    requires Covers(db, now, log) && Leaves(now, after, t)
    ensures Covers(db, after, log + [t])
  {
    hide Writes, Clean;
    forall u | u in after.prs ensures u in db.prs || exists x :: x in log + [t] && Writes(x, u) {
      if u in now.prs && u !in db.prs {
        var x :| x in log && Writes(x, u);
        assert x in log + [t];
      } else if u !in now.prs {
        assert t in log + [t];
      }
    }
  }

  lemma FinishedSnoc(runs: seq<seq<Task>>, s: State, w: nat, s': State, t: Task)
    requires |s.workers| == |s'.workers| == |runs| && w < |runs| && s.workers[w].next < |runs[w]|
    requires s'.workers[w].next == s.workers[w].next + 1
    requires forall v | 0 <= v < |runs| && v != w :: s'.workers[v] == s.workers[v]
    ensures (exists v, i :: Finished(runs, s', v, i, t))
            <==> (exists v, i :: Finished(runs, s, v, i, t)) || t == runs[w][s.workers[w].next]
  {
    if v, i :| Finished(runs, s, v, i, t) {
      assert Finished(runs, s', v, i, t);
    }
    if t == runs[w][s.workers[w].next] {
      assert Finished(runs, s', w, s.workers[w].next, t);
    }
    if v, i :| Finished(runs, s', v, i, t) {
      assert Finished(runs, s, v, i, t) || (v == w && i == s.workers[w].next);
    }
  }

  /** A plan stays fit while others write, since they remove nothing. */
  lemma PlansStayFit(org: string, runs: seq<seq<Task>>, s: State, s': State, w: nat)
    requires PlansFit(org, runs, s) && w < |runs| && |s'.workers| == |runs|
    requires s.db.prs.Keys <= s'.db.prs.Keys
    requires forall v | 0 <= v < |runs| && v != w :: s'.workers[v] == s.workers[v]
    requires s'.workers[w].next <= |runs[w]|
    requires s'.workers[w].next < |runs[w]| ==>
               PlanFits(org, s'.db, runs[w][s'.workers[w].next], s'.workers[w].plan)
    ensures PlansFit(org, runs, s')
  {
    hide ConvertPullRequest;
    forall v | 0 <= v < |runs| && s'.workers[v].next < |runs[v]|
      ensures PlanFits(org, s'.db, runs[v][s'.workers[v].next], s'.workers[v].plan)
    {
      if v != w {
        assert PlanFits(org, s.db, runs[v][s.workers[v].next], s.workers[v].plan);
      }
    }
  }

  lemma PlanningKeepsInv(g: Guard, org: string, runs: seq<seq<Task>>, db: Db, s: State, e: Event)
    requires Inv(org, runs, db, s) && Enabled(runs, s, e) && e.Look?
    requires Decide(g, org, s.db, TaskAt(runs, s, e)).Goes?
    ensures Inv(org, runs, db, Apply(g, org, runs, s, e))
  {
    hide Decide, PlanFits, PlansFit, Covers;
    var s' := Apply(g, org, runs, s, e);
    DecisionFits(g, org, s.db, TaskAt(runs, s, e));
    PlansStayFit(org, runs, s, s', e.w);
    forall t, w, i ensures Finished(runs, s', w, i, t) <==> Finished(runs, s, w, i, t) {
    }
  }

  lemma EndingKeepsInv(org: string, runs: seq<seq<Task>>, db: Db, s: State, w: nat, after: Db, stops: bool)
    requires Inv(org, runs, db, s) && w < |runs| && s.workers[w].next < |runs[w]|
    requires Leaves(s.db, after, runs[w][s.workers[w].next])
    ensures Inv(org, runs, db, Ended(s, after, w, runs[w][s.workers[w].next], stops))
  {
    hide Covers, Writes, Clean, Finished, PlansFit;
    var t := runs[w][s.workers[w].next];
    var s' := Ended(s, after, w, t, stops);
    MoreIsCovered(db, s.db, s.log, after, t);
    PlansStayFit(org, runs, s, s', w);
    forall x ensures x in s'.log <==> exists v, i :: Finished(runs, s', v, i, x) {
      FinishedSnoc(runs, s, w, s', x);
    }
  }

  lemma StepKeepsInv(g: Guard, org: string, runs: seq<seq<Task>>, db: Db, s: State, e: Event)
    requires Inv(org, runs, db, s) && Enabled(runs, s, e)
    ensures Inv(org, runs, db, Apply(g, org, runs, s, e))
  {
    hide Covers, LogsFinished, Leaves, Decide, Written, PlanFits, Ended;
    var t := TaskAt(runs, s, e);
    if e.Write? {
      var o := Written(s.db, t, s.workers[e.w].plan);
      WriteLeaves(org, s.db, t, s.workers[e.w].plan);
      EndingKeepsInv(org, runs, db, s, e.w, o.db, o.exit != Completed);
    } else if Decide(g, org, s.db, t).Goes? {
      PlanningKeepsInv(g, org, runs, db, s, e);
    } else {
      LookLeaves(g, org, s.db, t);
      EndingKeepsInv(org, runs, db, s, e.w, s.db, Decide(g, org, s.db, t).Aborts?);
    }
  }

  lemma {:induction false} RunsKeepInv(g: Guard, org: string, runs: seq<seq<Task>>, db: Db, es: seq<Event>)
    requires After(g, org, runs, db, es).Some?
    ensures Inv(org, runs, db, After(g, org, runs, db, es).value)
  {
    hide Inv, Apply, Enabled;
    if es == [] {
      StartHasInv(org, runs, db);
    } else {
      var n := |es| - 1;
      RunsKeepInv(g, org, runs, db, es[..n]);
      StepKeepsInv(g, org, runs, db, After(g, org, runs, db, es[..n]).value, es[n]);
    }
  }

  lemma StartHasInv(org: string, runs: seq<seq<Task>>, db: Db)
    ensures Inv(org, runs, db, Start(runs, db))
  {
    var s := Start(runs, db);
    assert forall t, w, i :: !Finished(runs, s, w, i, t);
  }

  ghost predicate AllFinished(runs: seq<seq<Task>>, s: State) {
    |s.workers| == |runs| && forall w | 0 <= w < |runs| :: s.workers[w].next == |runs[w]|
  }

  ghost function ListedByAny(runs: seq<seq<Task>>): set<string> {
    set w, t | 0 <= w < |runs| && t in runs[w] :: t.visit.listed.url
  }

  /**
   In every interleaving of any number of runs, whatever fails: no row is removed, every new row has
   the URL of details that some visit fetched, and what an error-free visit listed is there.
   */
  lemma OverlappingRunsCover(g: Guard, org: string, runs: seq<seq<Task>>, db: Db, es: seq<Event>)
    requires After(g, org, runs, db, es).Some?
    ensures var s := After(g, org, runs, db, es).value;
            && db.prs.Keys <= s.db.prs.Keys
            && (forall u | u in s.db.prs && u !in db.prs ::
                  exists w, i :: 0 <= w < |runs| && 0 <= i < |runs[w]| && Writes(runs[w][i], u))
            && (forall w, i | 0 <= w < |runs| && 0 <= i < |runs[w]| && i < s.workers[w].next
                              && Clean(runs[w][i].visit) :: runs[w][i].visit.listed.url in s.db.prs)
  {
    hide After, Writes, Clean, PlansFit;
    RunsKeepInv(g, org, runs, db, es);
    var s := After(g, org, runs, db, es).value;
    forall u | u in s.db.prs && u !in db.prs
      ensures exists w, i :: 0 <= w < |runs| && 0 <= i < |runs[w]| && Writes(runs[w][i], u)
    {
      var t :| t in s.log && Writes(t, u);
      var w, i :| Finished(runs, s, w, i, t);
      assert Writes(runs[w][i], u);
    }
    forall w, i | 0 <= w < |runs| && 0 <= i < |runs[w]| && i < s.workers[w].next && Clean(runs[w][i].visit)
      ensures runs[w][i].visit.listed.url in s.db.prs
    {
      assert Finished(runs, s, w, i, runs[w][i]);
    }
  }

  /** If nothing fails, the table holds in the end exactly the old URLs and all listed ones. */
  lemma CleanRunsCoverExactly(g: Guard, org: string, runs: seq<seq<Task>>, db: Db, es: seq<Event>)
    requires After(g, org, runs, db, es).Some? && AllFinished(runs, After(g, org, runs, db, es).value)
    requires forall w | 0 <= w < |runs| :: AllClean(runs[w])
    ensures After(g, org, runs, db, es).value.db.prs.Keys == db.prs.Keys + ListedByAny(runs)
  {
    hide After, Writes, Clean;
    OverlappingRunsCover(g, org, runs, db, es);
    var s := After(g, org, runs, db, es).value;
    forall u | u in s.db.prs && u !in db.prs ensures u in ListedByAny(runs) {
      var w, i :| 0 <= w < |runs| && 0 <= i < |runs[w]| && Writes(runs[w][i], u);
      assert Clean(runs[w][i].visit) && runs[w][i] in runs[w];
      CleanWrites(runs[w][i], u);
    }
    forall u | u in ListedByAny(runs) ensures u in s.db.prs {
      var w, t :| 0 <= w < |runs| && t in runs[w] && t.visit.listed.url == u;
      var i :| 0 <= i < |runs[w]| && runs[w][i] == t;
      assert Clean(runs[w][i].visit);
    }
  }

  lemma CleanWrites(t: Task, url: string)
    requires Clean(t.visit) && Writes(t, url)
    ensures url == t.visit.listed.url
  {
  }

  // ----- freshness

  /** Nothing that happened between lookup and write makes the write lose the better time. */
  predicate Undisturbed(g: Guard, db: Db, v: Visit, plan: Plan) {
    v.listed.url in db.prs ==>
      if plan.Saving? then !ShouldUpdate(g, ListedTime(v), db.prs[v.listed.url].updatedAt)
      else !ShouldUpdate(g, db.prs[v.listed.url].updatedAt, ListedTime(v))
  }

  /**
   A write leaves the extreme of the time it finds and the listed one exactly if what it finds is not
   past the listed time when it saves, and not behind it when it creates in vain.
   */
  lemma WriteKeepsExtremeIff(g: Guard, org: string, db: Db, t: Task, plan: Plan)
    requires Clean(t.visit) && HasValidTime(t.visit) && !plan.Idle? && PlanFits(org, db, t, plan)
    ensures var url := t.visit.listed.url;
            StoredTime(Written(db, t, plan).db, url) == Extreme(g, StoredTime(db, url), [ListedTime(t.visit)])
            <==> Undisturbed(g, db, t.visit, plan)
  {
    hide ListedTime, Extreme, HasValidTime, Written, Clean;
    var url := t.visit.listed.url;
    ExtremeOfOne(g, StoredTime(db, url), ListedTime(t.visit));
    TimeWritten(org, db, t, plan);
  }

  lemma TimeWritten(org: string, db: Db, t: Task, plan: Plan)
    requires Clean(t.visit) && HasValidTime(t.visit) && !plan.Idle? && PlanFits(org, db, t, plan)
    ensures StoredTime(Written(db, t, plan).db, t.visit.listed.url)
         == if plan.Saving? || t.visit.listed.url !in db.prs then Some(ListedTime(t.visit))
            else StoredTime(db, t.visit.listed.url)
    ensures plan.Creating? && t.visit.listed.url in db.prs ==> Written(db, t, plan).db == db
  {
    hide Parse, Paged, ConvertedCommits, ConvertedReviews, UpsertReviews;
    assert t.visit.listed.updatedAt != "" by {
      EmptyIsNoTime();
    }
  }

  lemma EmptyIsNoTime()
    ensures Parse("").None?
  {
  }

  ghost predicate AllUndisturbed(g: Guard, org: string, runs: seq<seq<Task>>, db: Db, es: seq<Event>) {
    forall k | 0 <= k < |es| && es[k].Write? :: UndisturbedAt(g, runs, After(g, org, runs, db, es[..k]), es[k])
  }

  predicate UndisturbedAt(g: Guard, runs: seq<seq<Task>>, before: Option<State>, e: Event) {
    before.Some? && Enabled(runs, before.value, e) ==>
      Undisturbed(g, before.value.db, TaskAt(runs, before.value, e).visit, before.value.workers[e.w].plan)
  }

  lemma WriteKeepsOthers(org: string, db: Db, t: Task, plan: Plan, url: string)
    requires Clean(t.visit) && t.visit.listed.url != url && !plan.Idle? && PlanFits(org, db, t, plan)
    ensures RowAt(Written(db, t, plan).db, url) == RowAt(db, url)
  {
    hide ConvertPullRequest, Paged, ConvertedCommits, ConvertedReviews, UpsertReviews;
    RecordUrl(t, org);
  }

  lemma LookTime(g: Guard, org: string, db: Db, t: Task)
    requires Clean(t.visit) && !Decide(g, org, db, t).Goes?
    ensures Extreme(g, StoredTime(db, t.visit.listed.url), [ListedTime(t.visit)])
         == StoredTime(db, t.visit.listed.url)
  {
    hide ListedTime, Paged, FieldTime, Extreme;
    ExtremeOfOne(g, StoredTime(db, t.visit.listed.url), ListedTime(t.visit));
  }

  lemma TimesOfOne(url: string, t: Task)
    ensures TimesOf(url, [t]) == if t.visit.listed.url == url then [ListedTime(t.visit)] else []
  {
    hide ListedTime;
    assert [t][..0] == [] && TimesOf(url, []) == [];
  }

  lemma FinishingTime(g: Guard, org: string, runs: seq<seq<Task>>, s: State, e: Event, url: string)
    requires Enabled(runs, s, e) && PlansFit(org, runs, s)
    requires Clean(TaskAt(runs, s, e).visit) && HasValidTime(TaskAt(runs, s, e).visit)
    requires e.Look? ==> !Decide(g, org, s.db, TaskAt(runs, s, e)).Goes?
    requires e.Write? ==> Undisturbed(g, s.db, TaskAt(runs, s, e).visit, s.workers[e.w].plan)
    ensures StoredTime(Apply(g, org, runs, s, e).db, url)
         == Extreme(g, StoredTime(s.db, url), TimesOf(url, [TaskAt(runs, s, e)]))
  {
    hide Clean, HasValidTime, Written, Undisturbed, Decide, Extreme, ListedTime, TimesOf, PlanFits;
    var t := TaskAt(runs, s, e);
    TimesOfOne(url, t);
    if t.visit.listed.url != url {
      ExtremeOfNone(g, StoredTime(s.db, url));
      if e.Write? {
        WriteKeepsOthers(org, s.db, t, s.workers[e.w].plan, url);
      }
    } else if e.Write? {
      WriteKeepsExtremeIff(g, org, s.db, t, s.workers[e.w].plan);
    } else {
      LookTime(g, org, s.db, t);
    }
  }

  lemma {:induction false} TimesConcat(url: string, a: seq<Task>, t: Task)
    ensures TimesOf(url, a + [t]) == TimesOf(url, a) + TimesOf(url, [t])
  {
    assert (a + [t])[..|a|] == a;
    assert [t][..0] == [] && TimesOf(url, []) == [];
  }

  /**
   If every write of an interleaving of error-free runs is undisturbed, the stored time of a URL is, at
   any time, the extreme of its old time and the times of the finished visits, as if they had run one
   by one.
   */
  lemma {:induction false} FreshnessWhenUndisturbed(g: Guard, org: string, runs: seq<seq<Task>>, db: Db,
                                                    es: seq<Event>, url: string)
    requires After(g, org, runs, db, es).Some? && AllUndisturbed(g, org, runs, db, es)
    requires forall w | 0 <= w < |runs| :: AllClean(runs[w]) && AllTimesValid(runs[w])
    ensures var s := After(g, org, runs, db, es).value;
            StoredTime(s.db, url) == Extreme(g, StoredTime(db, url), TimesOf(url, s.log))
  {
    hide Clean, HasValidTime, Written, Undisturbed, Decide, StoredTime, Extreme, TimesOf, PlansFit, Covers,
         LogsFinished;
    if es == [] {
      NoTimes(url);
      ExtremeOfNone(g, StoredTime(db, url));
    } else {
      var n := |es| - 1;
      var s, e := After(g, org, runs, db, es[..n]).value, es[n];
      assert forall k | 0 <= k < n :: es[..n][..k] == es[..k];
      FreshnessWhenUndisturbed(g, org, runs, db, es[..n], url);
      RunsKeepInv(g, org, runs, db, es[..n]);
      var t := TaskAt(runs, s, e);
      if e.Look? && Decide(g, org, s.db, t).Goes? {
      } else {
        assert e.Write? ==> UndisturbedAt(g, runs, After(g, org, runs, db, es[..n]), e);
        assert AllClean(runs[e.w]) && AllTimesValid(runs[e.w]);
        FinishingTime(g, org, runs, s, e, url);
        TimesConcat(url, s.log, t);
        ExtremeConcat(g, StoredTime(db, url), TimesOf(url, s.log), TimesOf(url, [t]));
      }
    }
  }

  lemma NoTimes(url: string)
    ensures TimesOf(url, []) == []
  {
  }

  // ----- runs over different pull requests never disturb each other

  predicate DisjointUrls(runs: seq<seq<Task>>) {
    forall v, w, i, j | 0 <= v < |runs| && 0 <= w < |runs| && v != w && 0 <= i < |runs[v]| && 0 <= j < |runs[w]| ::
      runs[v][i].visit.listed.url != runs[w][j].visit.listed.url
  }

  /** What each run has decided is what it would decide now. */
  ghost predicate PlansHold(g: Guard, org: string, runs: seq<seq<Task>>, s: State) {
    && |s.workers| == |runs|
    && forall w | 0 <= w < |runs| && s.workers[w].next < |runs[w]| && !s.workers[w].plan.Idle? ::
         Decide(g, org, s.db, runs[w][s.workers[w].next]) == Goes(s.workers[w].plan)
  }

  lemma DecidesByRow(g: Guard, org: string, db: Db, after: Db, t: Task)
    requires RowAt(db, t.visit.listed.url) == RowAt(after, t.visit.listed.url)
    ensures Decide(g, org, after, t) == Decide(g, org, db, t)
  {
    hide ConvertPullRequest, ListedTime;
  }

  lemma StepKeepsPlans(g: Guard, org: string, runs: seq<seq<Task>>, s: State, e: Event)
    requires DisjointUrls(runs) && PlansHold(g, org, runs, s) && PlansFit(org, runs, s) && Enabled(runs, s, e)
    requires forall w | 0 <= w < |runs| :: AllClean(runs[w])
    ensures PlansHold(g, org, runs, Apply(g, org, runs, s, e))
  {
    hide Clean, Written, Decide, PlanFits;
    var s' := Apply(g, org, runs, s, e);
    forall w | 0 <= w < |runs| && s'.workers[w].next < |runs[w]| && !s'.workers[w].plan.Idle?
      ensures Decide(g, org, s'.db, runs[w][s'.workers[w].next]) == Goes(s'.workers[w].plan)
    {
      if w != e.w && e.Write? {
        var t, other := TaskAt(runs, s, e), runs[w][s.workers[w].next];
        assert AllClean(runs[e.w]);
        WriteKeepsOthers(org, s.db, t, s.workers[e.w].plan, other.visit.listed.url);
        DecidesByRow(g, org, s.db, s'.db, other);
      }
    }
  }

  lemma {:induction false} PlansAlwaysHold(g: Guard, org: string, runs: seq<seq<Task>>, db: Db, es: seq<Event>)
    requires DisjointUrls(runs) && After(g, org, runs, db, es).Some?
    requires forall w | 0 <= w < |runs| :: AllClean(runs[w])
    ensures PlansHold(g, org, runs, After(g, org, runs, db, es).value)
  {
    hide Apply, Enabled, DisjointUrls, AllClean, PlansFit, Covers, LogsFinished;
    if es == [] {
    } else {
      var n := |es| - 1;
      PlansAlwaysHold(g, org, runs, db, es[..n]);
      RunsKeepInv(g, org, runs, db, es[..n]);
      StepKeepsPlans(g, org, runs, After(g, org, runs, db, es[..n]).value, es[n]);
    }
  }

  lemma HoldingIsUndisturbed(g: Guard, org: string, db: Db, t: Task, plan: Plan)
    requires !plan.Idle? && Decide(g, org, db, t) == Goes(plan)
    ensures Undisturbed(g, db, t.visit, plan)
  {
    hide ConvertPullRequest, ListedTime;
  }

  /** Error-free runs over different URLs keep the extreme in every interleaving. */
  lemma FreshnessWhenDisjoint(g: Guard, org: string, runs: seq<seq<Task>>, db: Db, es: seq<Event>, url: string)
    requires After(g, org, runs, db, es).Some? && DisjointUrls(runs)
    requires forall w | 0 <= w < |runs| :: AllClean(runs[w]) && AllTimesValid(runs[w])
    ensures var s := After(g, org, runs, db, es).value;
            StoredTime(s.db, url) == Extreme(g, StoredTime(db, url), TimesOf(url, s.log))
  {
    hide After, DisjointUrls, AllTimesValid, AllClean, Undisturbed, Decide;
    forall k | 0 <= k < |es| && es[k].Write?
      ensures UndisturbedAt(g, runs, After(g, org, runs, db, es[..k]), es[k])
    {
      var before := After(g, org, runs, db, es[..k]);
      if before.Some? && Enabled(runs, before.value, es[k]) {
        PlansAlwaysHold(g, org, runs, db, es[..k]);
        HoldingIsUndisturbed(g, org, before.value.db, TaskAt(runs, before.value, es[k]),
                             before.value.workers[es[k].w].plan);
      }
    }
    FreshnessWhenUndisturbed(g, org, runs, db, es, url);
  }

  // ----- runs over one pull request may lose the earlier time

  lemma Next(g: Guard, org: string, runs: seq<seq<Task>>, db: Db, es: seq<Event>, e: Event, s: State)
    returns (longer: seq<Event>, s': State)
    requires After(g, org, runs, db, es) == Some(s) && Enabled(runs, s, e)
    ensures longer == es + [e] && s' == Apply(g, org, runs, s, e) && After(g, org, runs, db, longer) == Some(s')
  {
    longer, s' := es + [e], Apply(g, org, runs, s, e);
    assert (es + [e])[..|es|] == es;
  }

  function VisitOn(day: string): Visit {
    Visit(ApiPullsRequest("u", 1, day), Ok(ApiPullRequest("u", 1, "bob", day, "", "", false, "open", 7, 0, "")),
          true, [], Ok([]), true)
  }

  lemma VisitOnIsClean(day: string, time: int)
    requires day != "" && Parse(day) == Some(time)
    ensures Clean(VisitOn(day)) && HasValidTime(VisitOn(day)) && ListedTime(VisitOn(day)) == time
    ensures VisitOn(day).listed.url == "u"
  {
  }

  /**
   A concrete interleaving: one run lists the pull request as of 2 May, another as of 1 May, and both
   look before either writes. The second create fails, and the stored time is 2 May, where any order
   of the two runs one after the other leaves 1 May.
   */
  lemma OverlapLosesEarlierTime(org: string, runs: seq<seq<Task>>, may1: string, may2: string)
    returns (es: seq<Event>, s: State)
    requires may1 == "2020-05-01T00:00:00Z" && may2 == "2020-05-02T00:00:00Z"
    requires runs == [[Task("dcrd", VisitOn(may2))], [Task("dcrd", VisitOn(may1))]]
    ensures After(AsWritten, org, runs, Db(map[], map[]), es) == Some(s) && AllFinished(runs, s)
    ensures StoredTime(s.db, "u") == Some(1588377600)
    ensures Extreme(AsWritten, None, TimesOf("u", s.log)) == Some(1588291200)
  {
    hide After, VisitOn, Clean, Written, HasValidTime, ListedTime, Decide, PlanFits;
    MayTimes(may1, may2);
    VisitOnIsClean(may1, 1588291200);
    VisitOnIsClean(may2, 1588377600);
    var db, s0, t0, t1 := Db(map[], map[]), Start(runs, Db(map[], map[])), runs[0][0], runs[1][0];
    StartsAt(AsWritten, org, runs, db);
    DecidesToCreate(AsWritten, org, db, t0);
    DecidesToCreate(AsWritten, org, db, t1);
    es, s := Next(AsWritten, org, runs, db, [], Look(0), s0);
    es, s := Next(AsWritten, org, runs, db, es, Look(1), s);
    var plan0, plan1 := s.workers[0].plan, s.workers[1].plan;
    TimeWritten(org, db, t0, plan0);
    es, s := Next(AsWritten, org, runs, db, es, Write(0), s);
    CreatingFits(org, db, s.db, t1, plan1);
    TimeWritten(org, s.db, t1, plan1);
    es, s := Next(AsWritten, org, runs, db, es, Write(1), s);
    TwoTimes(t0, t1);
    assert s.log == [t0, t1];
  }

  lemma StartsAt(g: Guard, org: string, runs: seq<seq<Task>>, db: Db)
    ensures After(g, org, runs, db, []) == Some(Start(runs, db))
  {
  }

  lemma DecidesToCreate(g: Guard, org: string, db: Db, t: Task)
    requires Clean(t.visit) && t.visit.listed.url !in db.prs
    ensures Decide(g, org, db, t).Goes? && Decide(g, org, db, t).plan.Creating?
    ensures PlanFits(org, db, t, Decide(g, org, db, t).plan)
  {
    hide FieldTime, Paged, ListedTime;
  }

  lemma CreatingFits(org: string, db: Db, after: Db, t: Task, plan: Plan)
    requires plan.Creating? && PlanFits(org, db, t, plan)
    ensures PlanFits(org, after, t, plan)
  {
  }

  lemma TwoTimes(s: Task, t: Task)
    requires s.visit.listed.url == t.visit.listed.url && ListedTime(t.visit) < ListedTime(s.visit)
    ensures Extreme(AsWritten, None, TimesOf(s.visit.listed.url, [s, t])) == Some(ListedTime(t.visit))
  {
    hide ListedTime, TimesOf, Extreme;
    var url, a, b := s.visit.listed.url, ListedTime(s.visit), ListedTime(t.visit);
    TimesOfOne(url, s);
    TimesOfOne(url, t);
    TimesConcat(url, [s], t);
    assert [s, t] == [s] + [t];
    ExtremeConcat(AsWritten, None, [a], [b]);
    ExtremeOfOne(AsWritten, None, a);
    ExtremeOfOne(AsWritten, Some(a), b);
  }
}
