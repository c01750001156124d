/**
 What one run of the synchroniser does to the store (server/update.go, server/convert.go).

 A run is described by the answers it meets: for every repository whether the context is already
 cancelled and the pages of its listing, and for every listed pull request the answers to the
 calls its iteration makes. Nothing is assumed about how answers relate to each other.
 */
module Sync {
  import opened Wrappers
  import opened Records
  import opened Encoding
  import opened Calendar
  import opened Timestamps
  import opened Pagination
  import opened Store

  datatype ApiRepository = ApiRepository(name: string, fullName: string)

  datatype ApiPullsRequest = ApiPullsRequest(url: string, number: int, updatedAt: string)

  datatype ApiPullRequest = ApiPullRequest(
    url: string, number: int, user: string, updatedAt: string, closedAt: string, mergedAt: string,
    merged: bool, state: string, additions: int, deletions: int, mergedBy: string)

  datatype ApiCommit = ApiCommit(
    sha: string, url: string, message: string, author: string, committer: string, additions: int, deletions: int)

  datatype ApiReview = ApiReview(id: int, user: string, state: string, submittedAt: string, commitID: string)

  /** The answers met while visiting one listed pull request. */
  datatype Visit = Visit(
    listed: ApiPullsRequest,
    detail: Result<ApiPullRequest, FetchError>,
    lookupUp: bool,
    commits: Pages<ApiCommit>,
    reviews: Result<seq<ApiReview>, FetchError>,
    writeUp: bool)

  datatype RepoVisit = RepoVisit(repo: ApiRepository, cancelled: bool, listing: Pages<Visit>)

  type Run = Result<seq<RepoVisit>, FetchError>

  datatype UpdateError = FetchReposFailed | Cancelled | FetchPullsFailed | FetchPullFailed | FetchCommitsFailed

  datatype Exit = Completed | Failed(error: UpdateError) | Panicked

  datatype Outcome = Outcome(db: Db, exit: Exit)

  // ----- conversions

  /** An empty timestamp stands for 0; any other must parse. */
  function FieldTime(s: string): Option<int> {
    if s == "" then Some(0) else Parse(s)
  }

  function ConvertPullRequest(api: ApiPullRequest, repo: string, org: string): Option<PullRequest> {
    match (FieldTime(api.mergedAt), FieldTime(api.updatedAt))
    case (Some(mergedAt), Some(updatedAt)) =>
      Some(PullRequest(repo, org, api.user, api.url, api.number, updatedAt, 0, mergedAt, false, api.state,
                       api.additions, api.deletions, "", [], []))
    case _ => None
  }

  function ConvertCommit(api: ApiCommit): Commit {
    Commit(api.sha, api.url, api.message, api.author, api.committer, api.additions, api.deletions)
  }

  function ConvertReview(api: ApiReview, repo: string, number: int): Review {
    Review(api.id, api.user, api.state, ParseTime(api.submittedAt), api.commitID, repo, number, 0, 0)
  }

  function ConvertedCommits(cs: seq<ApiCommit>): (r: seq<Commit>)
    ensures |r| == |cs| && forall i | 0 <= i < |cs| :: r[i] == ConvertCommit(cs[i])
  {
    seq(|cs|, i requires 0 <= i < |cs| => ConvertCommit(cs[i]))
  }

  function ConvertedReviews(vs: seq<ApiReview>, repo: string, number: int): (r: seq<Review>)
    ensures |r| == |vs| && forall i | 0 <= i < |vs| :: r[i] == ConvertReview(vs[i], repo, number)
  {
    seq(|vs|, i requires 0 <= i < |vs| => ConvertReview(vs[i], repo, number))
  }

  lemma EpochParses(z: string)
    requires z == "1970-01-01T00:00:00Z"
    ensures Parse(z) == Some(0)
  {
    assert Fields(z).date.year == 1970;
  }

  /**
   A stored MergedAt of 0 means exactly that the pull request carried no merge time, or that it
   was merged at the epoch itself.
   */
  lemma UnmergedIsZero(api: ApiPullRequest, repo: string, org: string)
    requires ConvertPullRequest(api, repo, org).Some?
    ensures ConvertPullRequest(api, repo, org).value.mergedAt == 0 <==>
            api.mergedAt == "" || api.mergedAt == "1970-01-01T00:00:00Z"
  {
    hide Parse, Format;
    var epoch := "1970-01-01T00:00:00Z";
    EpochParses(epoch);
    FormatParse(epoch);
    if api.mergedAt != "" && Parse(api.mergedAt) == Some(0) {
      FormatParse(api.mergedAt);
    }
  }

  // ----- one visit

  /**
   The direction of the freshness test. The code rewrites a stored row when the stored time is
   after the listed one; its comment states the opposite direction.
   */
  datatype Guard = AsWritten | AsDocumented

  predicate ShouldUpdate(g: Guard, stored: int, listed: int) {
    match g
    case AsWritten => stored > listed
    case AsDocumented => listed > stored
  }

  function ListedTime(v: Visit): int { ParseTime(v.listed.updatedAt) }

  /** Fetch commits and reviews, then save; `allowed` is whether the store accepts the write. */
  function FetchAndSave(repo: string, db: Db, v: Visit, p: PullRequest, allowed: bool): Outcome {
    if Paged(v.commits).err.Some? then Outcome(db, Failed(FetchCommitsFailed))
    else match v.reviews
      case Err(_) => Outcome(db, Panicked)
      case Ok(reviews) =>
        var full := p.(commits := ConvertedCommits(Paged(v.commits).items),
                       reviews := ConvertedReviews(reviews, repo, v.listed.number));
        Outcome(if allowed then Put(db, full) else db, Completed)
  }

  function Step(g: Guard, org: string, repo: string, db: Db, v: Visit): Outcome {
    match v.detail
    case Err(_) => Outcome(db, Failed(FetchPullFailed))
    case Ok(api) =>
      match ConvertPullRequest(api, repo, org)
      case None => Outcome(db, Completed)
      case Some(p) =>
        if !v.lookupUp then Outcome(db, Completed)
        else if v.listed.url !in db.prs then
          FetchAndSave(repo, db, v, p, v.writeUp && p.url !in db.prs)
        else if ShouldUpdate(g, db.prs[v.listed.url].updatedAt, ListedTime(v)) then
          FetchAndSave(repo, db, v, p, v.writeUp)
        else Outcome(db, Completed)
  }

  // ----- a whole run

  function Steps(g: Guard, org: string, repo: string, db: Db, vs: seq<Visit>): Outcome {
    if vs == [] then Outcome(db, Completed)
    else
      var before := Steps(g, org, repo, db, vs[..|vs| - 1]);
      if before.exit == Completed then Step(g, org, repo, before.db, vs[|vs| - 1]) else before
  }

  /** Cancellation is noticed only between repositories. */
  function RepoStep(g: Guard, org: string, db: Db, rv: RepoVisit): Outcome {
    if rv.cancelled then Outcome(db, Failed(Cancelled))
    else if Paged(rv.listing).err.Some? then Outcome(db, Failed(FetchPullsFailed))
    else Steps(g, org, rv.repo.name, db, Paged(rv.listing).items)
  }

  function RepoSteps(g: Guard, org: string, db: Db, rvs: seq<RepoVisit>): Outcome {
    if rvs == [] then Outcome(db, Completed)
    else
      var before := RepoSteps(g, org, db, rvs[..|rvs| - 1]);
      if before.exit == Completed then RepoStep(g, org, before.db, rvs[|rvs| - 1]) else before
  }

  function UpdateOutcome(g: Guard, org: string, db: Db, run: Run): Outcome {
    match run
    case Err(_) => Outcome(db, Failed(FetchReposFailed))
    case Ok(rvs) => RepoSteps(g, org, db, rvs)
  }

  lemma {:induction false} StepsStop(g: Guard, org: string, repo: string, db: Db, vs: seq<Visit>, n: nat)
    requires n <= |vs| && Steps(g, org, repo, db, vs[..n]).exit != Completed
    ensures Steps(g, org, repo, db, vs) == Steps(g, org, repo, db, vs[..n])
  {
    if n == |vs| {
      assert vs[..n] == vs;
    } else {
      assert vs[..|vs| - 1][..n] == vs[..n];
      StepsStop(g, org, repo, db, vs[..|vs| - 1], n);
    }
  }

  lemma {:induction false} RepoStepsStop(g: Guard, org: string, db: Db, rvs: seq<RepoVisit>, n: nat)
    requires n <= |rvs| && RepoSteps(g, org, db, rvs[..n]).exit != Completed
    ensures RepoSteps(g, org, db, rvs) == RepoSteps(g, org, db, rvs[..n])
  {
    if n == |rvs| {
      assert rvs[..n] == rvs;
    } else {
      assert rvs[..|rvs| - 1][..n] == rvs[..n];
      RepoStepsStop(g, org, db, rvs[..|rvs| - 1], n);
    }
  }

  // ----- a run is a prefix of its visits

  datatype Task = Task(repo: string, visit: Visit)

  function TasksOf(rv: RepoVisit): (ts: seq<Task>)
    ensures Paged(rv.listing).err.Some? ==> ts == []
    ensures Paged(rv.listing).err.None? ==> |ts| == |Paged(rv.listing).items|
    ensures forall i | 0 <= i < |ts| :: ts[i] == Task(rv.repo.name, Paged(rv.listing).items[i])
  {
    var r := Paged(rv.listing);
    if r.err.Some? then []
    else seq(|r.items|, i requires 0 <= i < |r.items| => Task(rv.repo.name, r.items[i]))
  }

  function AllTasks(rvs: seq<RepoVisit>): seq<Task> {
    if rvs == [] then [] else AllTasks(rvs[..|rvs| - 1]) + TasksOf(rvs[|rvs| - 1])
  }

  function TasksOfRun(run: Run): seq<Task> {
    match run
    case Err(_) => []
    case Ok(rvs) => AllTasks(rvs)
  }

  /** Visiting the tasks one after the other, whatever each visit's exit. */
  function Fold(g: Guard, org: string, db: Db, ts: seq<Task>): Db {
    if ts == [] then db
    else
      var t := ts[|ts| - 1];
      Step(g, org, t.repo, Fold(g, org, db, ts[..|ts| - 1]), t.visit).db
  }

  lemma FoldSnoc(g: Guard, org: string, db: Db, ts: seq<Task>, t: Task)
    ensures Fold(g, org, db, ts + [t]) == Step(g, org, t.repo, Fold(g, org, db, ts), t.visit).db
  {
    assert (ts + [t])[..|ts|] == ts;
  }

  lemma {:induction false} FoldConcat(g: Guard, org: string, db: Db, a: seq<Task>, b: seq<Task>)
    ensures Fold(g, org, db, a + b) == Fold(g, org, Fold(g, org, db, a), b)
  {
    hide Step;
    if b == [] {
      assert a + b == a;
    } else {
      var init, t := b[..|b| - 1], b[|b| - 1];
      FoldConcat(g, org, db, a, init);
      assert a + b == (a + init) + [t];
      FoldSnoc(g, org, db, a + init, t);
    }
  }

  lemma AbortChangesNothing(g: Guard, org: string, repo: string, db: Db, v: Visit)
    ensures Step(g, org, repo, db, v).exit != Completed ==> Step(g, org, repo, db, v).db == db
  {
  }

  ghost predicate IsPrefixFold(g: Guard, org: string, db: Db, ts: seq<Task>, k: int, r: Outcome) {
    && 0 <= k <= |ts|
    && r.db == Fold(g, org, db, ts[..k])
    && (r.exit == Completed ==> k == |ts|)
  }

  lemma {:induction false} StepsArePrefix(g: Guard, org: string, repo: string, db: Db, vs: seq<Visit>, ts: seq<Task>)
    returns (k: int)
    requires |ts| == |vs| && forall i | 0 <= i < |vs| :: ts[i] == Task(repo, vs[i])
    ensures IsPrefixFold(g, org, db, ts, k, Steps(g, org, repo, db, vs))
  {
    hide Step;
    if vs == [] {
      k := 0;
    } else {
      var n := |vs| - 1;
      k := StepsArePrefix(g, org, repo, db, vs[..n], ts[..n]);
      assert ts[..n][..k] == ts[..k];
      var before := Steps(g, org, repo, db, vs[..n]);
      if before.exit == Completed {
        AbortChangesNothing(g, org, repo, before.db, vs[n]);
        FoldSnoc(g, org, db, ts[..n], ts[n]);
        assert ts == ts[..n] + [ts[n]];
        if Step(g, org, repo, before.db, vs[n]).exit == Completed {
          k := n + 1;
          assert ts[..k] == ts;
        }
      }
    }
  }

  lemma {:induction false} RepoStepsArePrefix(g: Guard, org: string, db: Db, rvs: seq<RepoVisit>)
    returns (k: int)
    ensures IsPrefixFold(g, org, db, AllTasks(rvs), k, RepoSteps(g, org, db, rvs))
  {
    hide Steps, Fold, Step, Paged;
    if rvs == [] {
      k := 0;
      FoldNothing(g, org, db);
    } else {
      var n := |rvs| - 1;
      var init, own := AllTasks(rvs[..n]), TasksOf(rvs[n]);
      k := RepoStepsArePrefix(g, org, db, rvs[..n]);
      var before := RepoSteps(g, org, db, rvs[..n]);
      assert (init + own)[..k] == init[..k];
      if before.exit == Completed && !rvs[n].cancelled && Paged(rvs[n].listing).err.None? {
        var j := StepsArePrefix(g, org, rvs[n].repo.name, before.db, Paged(rvs[n].listing).items, own);
        assert init[..k] == init;
        FoldConcat(g, org, db, init, own[..j]);
        k := |init| + j;
        assert (init + own)[..k] == init + own[..j];
      }
    }
  }

  lemma FoldNothing(g: Guard, org: string, db: Db)
    ensures Fold(g, org, db, []) == db
  {
  }

  /**
   However a run ends, it leaves the store as visiting some prefix of its tasks does, and all of
   them when it completes: an aborted visit changes nothing, and nothing is rolled back.
   */
  lemma RunIsPrefix(g: Guard, org: string, db: Db, run: Run) returns (k: int)
    ensures IsPrefixFold(g, org, db, TasksOfRun(run), k, UpdateOutcome(g, org, db, run))
  {
    match run
    case Err(_) =>
      k := 0;
    case Ok(rvs) =>
      k := RepoStepsArePrefix(g, org, db, rvs);
  }

  // ----- what every run keeps

  /** The table facts that hold of an empty store and survive every run over slash-free names. */
  ghost predicate TableInvariant(db: Db) {
    && WellKeyed(db)
    && BareNames(db.prs)
    && (forall u | u in db.prs :: !db.prs[u].merged && db.prs[u].closedAt == 0 && db.prs[u].mergedBy == "")
  }

  lemma PutKeepsTable(db: Db, p: PullRequest)
    requires TableInvariant(db)
    requires SlashFree(p.repo) && !p.merged && p.closedAt == 0 && p.mergedBy == ""
    ensures TableInvariant(Put(db, p))
  {
    PutKeepsKeys(db, p);
  }

  lemma StepKeepsTable(g: Guard, org: string, repo: string, db: Db, v: Visit)
    requires TableInvariant(db) && SlashFree(repo)
    ensures TableInvariant(Step(g, org, repo, db, v).db)
  {
    hide TableInvariant, SlashFree, Put, FieldTime, ListedTime, ShouldUpdate, Paged;
    if v.detail.Ok? && v.reviews.Ok? {
      var p := ConvertPullRequest(v.detail.value, repo, org);
      if p.Some? {
        PutKeepsTable(db, p.value.(commits := ConvertedCommits(Paged(v.commits).items),
                                   reviews := ConvertedReviews(v.reviews.value, repo, v.listed.number)));
      }
    }
  }

  lemma {:induction false} FoldKeepsTable(g: Guard, org: string, db: Db, ts: seq<Task>)
    requires TableInvariant(db) && forall t | t in ts :: SlashFree(t.repo)
    ensures TableInvariant(Fold(g, org, db, ts))
  {
    hide TableInvariant, Step, SlashFree;
    if ts == [] {
    } else {
      var n := |ts| - 1;
      FoldKeepsTable(g, org, db, ts[..n]);
      StepKeepsTable(g, org, ts[n].repo, Fold(g, org, db, ts[..n]), ts[n].visit);
    }
  }

  /** Over any run, however it ends: names stay bare, and no row ever records a merge or closing. */
  lemma RunKeepsTable(g: Guard, org: string, db: Db, run: Run)
    requires TableInvariant(db)
    requires forall t | t in TasksOfRun(run) :: SlashFree(t.repo)
    ensures TableInvariant(UpdateOutcome(g, org, db, run).db)
  {
    hide *;
    var k := RunIsPrefix(g, org, db, run);
    PrefixOfRun(g, org, db, run, k);
    FoldKeepsTable(g, org, db, TasksOfRun(run)[..k]);
  }

  lemma PrefixOfRun(g: Guard, org: string, db: Db, run: Run, k: int)
    requires IsPrefixFold(g, org, db, TasksOfRun(run), k, UpdateOutcome(g, org, db, run))
    ensures 0 <= k <= |TasksOfRun(run)|
    ensures UpdateOutcome(g, org, db, run).db == Fold(g, org, db, TasksOfRun(run)[..k])
    ensures UpdateOutcome(g, org, db, run).exit == Completed ==> TasksOfRun(run)[..k] == TasksOfRun(run)
  {
  }

  // ----- frame and coverage

  ghost predicate Writes(t: Task, url: string) {
    t.visit.detail.Ok? && t.visit.detail.value.url == url
  }

  /** No row is removed, and a row changes only if some visit fetched details with its URL. */
  lemma {:induction false} FoldFrame(g: Guard, org: string, db: Db, ts: seq<Task>, url: string)
    ensures url in db.prs ==> url in Fold(g, org, db, ts).prs
    ensures (forall t | t in ts :: !Writes(t, url)) ==>
              (url in Fold(g, org, db, ts).prs <==> url in db.prs)
              && (url in db.prs ==> Fold(g, org, db, ts).prs[url] == db.prs[url])
  {
    if ts == [] {
    } else {
      var n := |ts| - 1;
      FoldFrame(g, org, db, ts[..n], url);
      StepFrame(g, org, ts[n].repo, Fold(g, org, db, ts[..n]), ts[n].visit, url);
      assert ts[n] in ts;
    }
  }

  lemma StepFrame(g: Guard, org: string, repo: string, db: Db, v: Visit, url: string)
    ensures var after := Step(g, org, repo, db, v).db;
            && (url in db.prs ==> url in after.prs)
            && (!Writes(Task(repo, v), url) ==>
                  && (url in after.prs <==> url in db.prs)
                  && (url in db.prs ==> after.prs[url] == db.prs[url]))
  {
    hide Paged, FieldTime, ParseTime, UpsertReviews, EncodeReviews, ConvertedReviews, ConvertedCommits;
  }

  /** An iteration in which every call succeeds and the detail is that of the listed pull request. */
  predicate Clean(v: Visit) {
    && v.detail.Ok? && v.detail.value.url == v.listed.url
    && FieldTime(v.detail.value.mergedAt).Some? && FieldTime(v.detail.value.updatedAt).Some?
    && v.lookupUp && v.writeUp && v.reviews.Ok? && Paged(v.commits).err.None?
  }

  predicate AllClean(ts: seq<Task>) { forall i | 0 <= i < |ts| :: Clean(ts[i].visit) }

  ghost function ListedUrls(ts: seq<Task>): set<string> { set t | t in ts :: t.visit.listed.url }

  lemma StepCovers(g: Guard, org: string, repo: string, db: Db, v: Visit)
    requires Clean(v)
    ensures Step(g, org, repo, db, v).exit == Completed
    ensures Step(g, org, repo, db, v).db.prs.Keys == db.prs.Keys + {v.listed.url}
  {
  }

  lemma {:induction false} FoldCovers(g: Guard, org: string, db: Db, ts: seq<Task>)
    requires AllClean(ts)
    ensures Fold(g, org, db, ts).prs.Keys == db.prs.Keys + ListedUrls(ts)
  {
    hide Step, Clean, ListedUrls;
    if ts == [] {
      NothingListed();
    } else {
      var n := |ts| - 1;
      FoldCovers(g, org, db, ts[..n]);
      StepCovers(g, org, ts[n].repo, Fold(g, org, db, ts[..n]), ts[n].visit);
      assert ts == ts[..n] + [ts[n]];
      ListedSnoc(ts[..n], ts[n]);
    }
  }

  lemma NothingListed()
    ensures ListedUrls([]) == {}
  {
  }

  lemma ListedSnoc(ts: seq<Task>, t: Task)
    ensures ListedUrls(ts + [t]) == ListedUrls(ts) + {t.visit.listed.url}
  {
  }

  /** The remote answers every call of the iteration; the database may do what it likes. */
  predicate Answered(v: Visit) {
    v.detail.Ok? && v.reviews.Ok? && Paged(v.commits).err.None?
  }

  predicate AllAnswered(ts: seq<Task>) { forall i | 0 <= i < |ts| :: Answered(ts[i].visit) }

  predicate AnsweredRun(run: Run) {
    && run.Ok?
    && (forall i | 0 <= i < |run.value| :: !run.value[i].cancelled && Paged(run.value[i].listing).err.None?)
    && AllAnswered(TasksOfRun(run))
  }

  predicate CleanRun(run: Run) { AnsweredRun(run) && AllClean(TasksOfRun(run)) }

  lemma AnsweredStepCompletes(g: Guard, org: string, repo: string, db: Db, v: Visit)
    requires Answered(v)
    ensures Step(g, org, repo, db, v).exit == Completed
  {
  }

  lemma {:induction false} AnsweredStepsComplete(g: Guard, org: string, repo: string, db: Db, vs: seq<Visit>)
    requires forall i | 0 <= i < |vs| :: Answered(vs[i])
    ensures Steps(g, org, repo, db, vs).exit == Completed
  {
    hide Step, Answered;
    if vs == [] {
    } else {
      var n := |vs| - 1;
      AnsweredStepsComplete(g, org, repo, db, vs[..n]);
      AnsweredStepCompletes(g, org, repo, Steps(g, org, repo, db, vs[..n]).db, vs[n]);
    }
  }

  lemma AnsweredSplit(a: seq<Task>, b: seq<Task>)
    requires AllAnswered(a + b)
    ensures AllAnswered(a) && AllAnswered(b)
  {
    hide Answered;
    assert forall i | 0 <= i < |a| :: (a + b)[i] == a[i];
    assert forall i | 0 <= i < |b| :: (a + b)[|a| + i] == b[i];
  }

  lemma AnsweredListingCompletes(g: Guard, org: string, db: Db, rv: RepoVisit)
    requires !rv.cancelled && Paged(rv.listing).err.None? && AllAnswered(TasksOf(rv))
    ensures RepoStep(g, org, db, rv).exit == Completed
  {
    hide Steps, Answered, Paged, TasksOf;
    var vs, own := Paged(rv.listing).items, TasksOf(rv);
    forall i | 0 <= i < |vs| ensures Answered(vs[i]) {
      assert own[i].visit == vs[i];
    }
    AnsweredStepsComplete(g, org, rv.repo.name, db, vs);
  }

  lemma {:induction false} AnsweredRepoStepsComplete(g: Guard, org: string, db: Db, rvs: seq<RepoVisit>)
    requires forall i | 0 <= i < |rvs| :: !rvs[i].cancelled && Paged(rvs[i].listing).err.None?
    requires AllAnswered(AllTasks(rvs))
    ensures RepoSteps(g, org, db, rvs).exit == Completed
  {
    hide RepoStep, AllAnswered, Paged, TasksOf;
    if rvs == [] {
    } else {
      var n := |rvs| - 1;
      AnsweredSplit(AllTasks(rvs[..n]), TasksOf(rvs[n]));
      AnsweredRepoStepsComplete(g, org, db, rvs[..n]);
      AnsweredListingCompletes(g, org, RepoSteps(g, org, db, rvs[..n]).db, rvs[n]);
    }
  }

  /** Database failures and unparseable timestamps never stop a run: only the remote and cancellation do. */
  lemma AnsweredRunCompletes(g: Guard, org: string, db: Db, run: Run)
    requires AnsweredRun(run)
    ensures UpdateOutcome(g, org, db, run).exit == Completed
  {
    hide AllAnswered, Paged, AllTasks, RepoSteps;
    AnsweredRepoStepsComplete(g, org, db, run.value);
  }

  /** What in the answers accounts for an exit. */
  ghost predicate HasCause(run: Run, exit: Exit) {
    match exit
    case Completed => run.Ok?
    case Failed(FetchReposFailed) => run.Err?
    case Failed(Cancelled) => run.Ok? && exists rv :: rv in run.value && rv.cancelled
    case Failed(FetchPullsFailed) => run.Ok? && exists rv :: rv in run.value && Paged(rv.listing).err.Some?
    case Failed(FetchPullFailed) => exists t :: t in TasksOfRun(run) && t.visit.detail.Err?
    case Failed(FetchCommitsFailed) => exists t :: t in TasksOfRun(run) && Paged(t.visit.commits).err.Some?
    case Panicked => exists t :: t in TasksOfRun(run) && t.visit.reviews.Err?
  }

  ghost predicate VisitCause(v: Visit, exit: Exit) {
    match exit
    case Completed => true
    case Failed(e) =>
      (e == FetchPullFailed && v.detail.Err?) || (e == FetchCommitsFailed && Paged(v.commits).err.Some?)
    case Panicked => v.reviews.Err?
  }

  lemma StepCause(g: Guard, org: string, repo: string, db: Db, v: Visit)
    ensures VisitCause(v, Step(g, org, repo, db, v).exit)
  {
  }

  lemma {:induction false} StepsCause(g: Guard, org: string, repo: string, db: Db, vs: seq<Visit>)
    ensures Steps(g, org, repo, db, vs).exit == Completed
            || exists i :: 0 <= i < |vs| && VisitCause(vs[i], Steps(g, org, repo, db, vs).exit)
  {
    hide Step, VisitCause;
    if vs == [] {
    } else {
      var n := |vs| - 1;
      StepsCause(g, org, repo, db, vs[..n]);
      var before := Steps(g, org, repo, db, vs[..n]);
      if before.exit == Completed {
        StepCause(g, org, repo, before.db, vs[n]);
      } else {
        var i :| 0 <= i < n && VisitCause(vs[..n][i], before.exit);
        assert vs[i] == vs[..n][i];
      }
    }
  }

  lemma OwnTasks(rv: RepoVisit)
    ensures AllTasks([rv]) == TasksOf(rv)
  {
    hide TasksOf;
    assert [rv][..0] == [] && AllTasks([]) == [];
  }

  lemma TaskCause(run: Run, i: int, exit: Exit)
    requires 0 <= i < |TasksOfRun(run)| && VisitCause(TasksOfRun(run)[i].visit, exit) && exit != Completed
    ensures HasCause(run, exit)
  {
    hide TasksOfRun, Paged;
    var t := TasksOfRun(run)[i];
    assert t in TasksOfRun(run);
  }

  lemma ListingCause(rv: RepoVisit)
    ensures rv.cancelled ==> HasCause(Ok([rv]), Failed(Cancelled))
    ensures Paged(rv.listing).err.Some? ==> HasCause(Ok([rv]), Failed(FetchPullsFailed))
    ensures HasCause(Ok([rv]), Completed)
  {
    hide Paged;
    assert rv in [rv];
  }

  lemma RepoStepCause(g: Guard, org: string, db: Db, rv: RepoVisit)
    ensures HasCause(Ok([rv]), RepoStep(g, org, db, rv).exit)
  {
    hide Steps, Paged, TasksOf, HasCause, VisitCause, AllTasks;
    OwnTasks(rv);
    ListingCause(rv);
    if !rv.cancelled && Paged(rv.listing).err.None? {
      var vs := Paged(rv.listing).items;
      StepsCause(g, org, rv.repo.name, db, vs);
      var exit := Steps(g, org, rv.repo.name, db, vs).exit;
      if exit != Completed {
        var i :| 0 <= i < |vs| && VisitCause(vs[i], exit);
        TaskCause(Ok([rv]), i, exit);
      }
    }
  }

  lemma CauseGrows(part: seq<RepoVisit>, rvs: seq<RepoVisit>, exit: Exit)
    requires forall rv | rv in part :: rv in rvs
    requires forall t | t in AllTasks(part) :: t in AllTasks(rvs)
    requires HasCause(Ok(part), exit)
    ensures HasCause(Ok(rvs), exit)
  {
    hide AllTasks, Paged;
  }

  lemma {:induction false} RepoStepsCause(g: Guard, org: string, db: Db, rvs: seq<RepoVisit>)
    ensures HasCause(Ok(rvs), RepoSteps(g, org, db, rvs).exit)
  {
    hide RepoStep, TasksOf, HasCause;
    if rvs == [] {
      NothingToDo();
    } else {
      var n := |rvs| - 1;
      RepoStepsCause(g, org, db, rvs[..n]);
      OwnTasks(rvs[n]);
      var before := RepoSteps(g, org, db, rvs[..n]);
      RepoStepCause(g, org, before.db, rvs[n]);
      if before.exit == Completed {
        CauseGrows([rvs[n]], rvs, RepoSteps(g, org, db, rvs).exit);
      } else {
        CauseGrows(rvs[..n], rvs, before.exit);
      }
    }
  }

  lemma NothingToDo()
    ensures HasCause(Ok([]), Completed)
  {
  }

  /** Every failing exit has its cause among the answers; the panic comes from a review call. */
  lemma ExitHasCause(g: Guard, org: string, db: Db, run: Run)
    ensures HasCause(run, UpdateOutcome(g, org, db, run).exit)
  {
    hide RepoSteps, AllTasks, Paged;
    if run.Ok? {
      RepoStepsCause(g, org, db, run.value);
    }
  }

  // ----- exactly what a visit does, and where a run stops

  /** The timestamps of the details are empty or parse. */
  predicate Converts(api: ApiPullRequest) {
    (api.mergedAt == "" || Parse(api.mergedAt).Some?) && (api.updatedAt == "" || Parse(api.updatedAt).Some?)
  }

  function TimeOrZero(s: string): int
    requires s == "" || Parse(s).Some?
  {
    if s == "" then 0 else Parse(s).value
  }

  /** The visit gets past its lookup with something to write: the row is absent, or the guard fires. */
  predicate HasToWrite(g: Guard, db: Db, v: Visit) {
    && v.detail.Ok? && Converts(v.detail.value) && v.lookupUp
    && (v.listed.url in db.prs ==>
          var stored, listed := db.prs[v.listed.url].updatedAt, ParseTime(v.listed.updatedAt);
          if g == AsWritten then stored > listed else listed > stored)
  }

  /** The remote fails a call that this visit makes. */
  predicate StopsRun(g: Guard, db: Db, v: Visit) {
    v.detail.Err? || (HasToWrite(g, db, v) && (Paged(v.commits).err.Some? || v.reviews.Err?))
  }

  /** How a run stopped there ends: by the first of the calls that fails. */
  function StoppedExit(v: Visit): Exit {
    if v.detail.Err? then Failed(FetchPullFailed)
    else if Paged(v.commits).err.Some? then Failed(FetchCommitsFailed)
    else Panicked
  }

  lemma VisitExit(g: Guard, org: string, repo: string, db: Db, v: Visit)
    ensures Step(g, org, repo, db, v).exit == Completed <==> !StopsRun(g, db, v)
    ensures StopsRun(g, db, v) ==> Step(g, org, repo, db, v) == Outcome(db, StoppedExit(v))
  {
    hide Parse, Paged, ConvertedCommits, ConvertedReviews;
  }

  /** The row of a pull request as the remote describes it, column by column. */
  function RemoteRow(org: string, repo: string, api: ApiPullRequest): PullRequestRow
    requires Converts(api)
  {
    PullRequestRow(repo, org, api.url, api.number, api.user, TimeOrZero(api.updatedAt), 0, TimeOrZero(api.mergedAt),
                   false, api.state, api.additions, api.deletions, "", [], [])
  }

  /** The rows of its reviews, all under the listed number. */
  function RemoteReviews(vs: seq<ApiReview>, repo: string, number: int): seq<ReviewRow> {
    seq(|vs|, i requires 0 <= i < |vs| =>
          ReviewRow(vs[i].id, vs[i].user, vs[i].state, ParseTime(vs[i].submittedAt), vs[i].commitID, repo, number))
  }

  /** All calls that the visit makes get through, and the database takes the write. */
  predicate Stores(g: Guard, db: Db, v: Visit) {
    && HasToWrite(g, db, v) && Paged(v.commits).err.None? && v.reviews.Ok? && v.writeUp
    && (v.listed.url in db.prs || v.detail.value.url !in db.prs)
  }

  /**
   Exactly what a visit writes: if all it needs gets through, the row and the reviews as the remote
   gives them, under the URL of the details; otherwise nothing.
   */
  lemma VisitEffect(g: Guard, org: string, repo: string, db: Db, v: Visit)
    ensures Stores(g, db, v) ==>
              var api := v.detail.value;
              Step(g, org, repo, db, v).db
              == Db(db.prs[api.url := RemoteRow(org, repo, api)],
                    UpsertReviews(db.reviews, RemoteReviews(v.reviews.value, repo, v.listed.number)))
    ensures !Stores(g, db, v) ==> Step(g, org, repo, db, v).db == db
  {
    hide Parse, Paged, ParseTime, UpsertReviews;
    if Stores(g, db, v) {
      var full := ConvertedReviews(v.reviews.value, repo, v.listed.number);
      assert EncodeReviews(full) == RemoteReviews(v.reviews.value, repo, v.listed.number);
    }
  }

  /** What is stored of a fetched commit: all but its sizes. */
  lemma CommitStored(c: ApiCommit)
    ensures EncodeCommit(ConvertCommit(c)) == CommitRow(c.author, c.committer, c.sha, c.url, c.message, 0, 0)
  {
  }

  /** The store as visit j of repository i finds it. */
  function StoreAt(g: Guard, org: string, db: Db, rvs: seq<RepoVisit>, i: int, j: int): Db
    requires 0 <= i < |rvs| && 0 <= j <= |Paged(rvs[i].listing).items|
  {
    Steps(g, org, rvs[i].repo.name, RepoSteps(g, org, db, rvs[..i]).db, Paged(rvs[i].listing).items[..j]).db
  }

  lemma {:induction false} StepsCompleteIff(g: Guard, org: string, repo: string, db: Db, vs: seq<Visit>)
    ensures Steps(g, org, repo, db, vs).exit == Completed
            <==> forall j | 0 <= j < |vs| :: !StopsRun(g, Steps(g, org, repo, db, vs[..j]).db, vs[j])
  {
    hide Step, StopsRun;
    if vs == [] {
    } else {
      var n := |vs| - 1;
      var before := Steps(g, org, repo, db, vs[..n]);
      StepsCompleteIff(g, org, repo, db, vs[..n]);
      VisitExit(g, org, repo, before.db, vs[n]);
      assert forall j | 0 <= j < n :: vs[..n][..j] == vs[..j] && vs[..n][j] == vs[j];
    }
  }

  /** Nothing in repository i stops the run. */
  ghost predicate PassesRepo(g: Guard, org: string, db: Db, rvs: seq<RepoVisit>, i: int)
    requires 0 <= i < |rvs|
  {
    && !rvs[i].cancelled && Paged(rvs[i].listing).err.None?
    && forall j | 0 <= j < |Paged(rvs[i].listing).items| ::
         !StopsRun(g, StoreAt(g, org, db, rvs, i, j), Paged(rvs[i].listing).items[j])
  }

  lemma RepoCompletesIff(g: Guard, org: string, db: Db, rvs: seq<RepoVisit>, i: int)
    requires 0 <= i < |rvs|
    ensures RepoStep(g, org, RepoSteps(g, org, db, rvs[..i]).db, rvs[i]).exit == Completed
            <==> PassesRepo(g, org, db, rvs, i)
  {
    hide Steps, RepoSteps, Paged, StopsRun;
    StepsCompleteIff(g, org, rvs[i].repo.name, RepoSteps(g, org, db, rvs[..i]).db, Paged(rvs[i].listing).items);
  }

  /** A run over its repositories completes exactly if nothing stops it in any of them. */
  lemma {:induction false} CompletesIff(g: Guard, org: string, db: Db, rvs: seq<RepoVisit>)
    ensures RepoSteps(g, org, db, rvs).exit == Completed
            <==> forall i | 0 <= i < |rvs| :: PassesRepo(g, org, db, rvs, i)
  {
    hide RepoStep, PassesRepo;
    if rvs == [] {
    } else {
      var n := |rvs| - 1;
      CompletesIff(g, org, db, rvs[..n]);
      RepoCompletesIff(g, org, db, rvs, n);
      forall i | 0 <= i < n ensures PassesRepo(g, org, db, rvs[..n], i) <==> PassesRepo(g, org, db, rvs, i) {
        SamePasses(g, org, db, rvs, n, i);
      }
    }
  }

  lemma SamePasses(g: Guard, org: string, db: Db, rvs: seq<RepoVisit>, n: int, i: int)
    requires 0 <= i < n <= |rvs|
    ensures PassesRepo(g, org, db, rvs[..n], i) <==> PassesRepo(g, org, db, rvs, i)
  {
    hide Steps, RepoSteps, Paged, StopsRun;
    assert rvs[..n][..i] == rvs[..i] && rvs[..n][i] == rvs[i];
  }

  /**
   The first thing that stops a run decides how it ends, and nothing after it happens: a cancellation
   noticed before a repository, its failing listing, or a failing call of a visit. The store is left as
   that point found it.
   */
  lemma StopsAtFirstCause(g: Guard, org: string, db: Db, rvs: seq<RepoVisit>, i: int)
    requires 0 <= i < |rvs| && RepoSteps(g, org, db, rvs[..i]).exit == Completed
    ensures var before := RepoSteps(g, org, db, rvs[..i]).db;
            && (rvs[i].cancelled ==> RepoSteps(g, org, db, rvs) == Outcome(before, Failed(Cancelled)))
            && (!rvs[i].cancelled && Paged(rvs[i].listing).err.Some? ==>
                  RepoSteps(g, org, db, rvs) == Outcome(before, Failed(FetchPullsFailed)))
            && (!rvs[i].cancelled && Paged(rvs[i].listing).err.None? ==>
                  var vs := Paged(rvs[i].listing).items;
                  forall j | 0 <= j < |vs| && Steps(g, org, rvs[i].repo.name, before, vs[..j]).exit == Completed
                             && StopsRun(g, StoreAt(g, org, db, rvs, i, j), vs[j]) ::
                    RepoSteps(g, org, db, rvs) == Outcome(StoreAt(g, org, db, rvs, i, j), StoppedExit(vs[j])))
  {
    hide Steps, Paged, StopsRun, StoppedExit;
    var before := RepoSteps(g, org, db, rvs[..i]).db;
    var own := RepoStep(g, org, before, rvs[i]);
    assert rvs[..i + 1][..i] == rvs[..i];
    assert RepoSteps(g, org, db, rvs[..i + 1]) == own;
    if own.exit != Completed {
      RepoStepsStop(g, org, db, rvs, i + 1);
    }
    if !rvs[i].cancelled && Paged(rvs[i].listing).err.None? {
      var vs := Paged(rvs[i].listing).items;
      forall j | 0 <= j < |vs| && Steps(g, org, rvs[i].repo.name, before, vs[..j]).exit == Completed
                 && StopsRun(g, StoreAt(g, org, db, rvs, i, j), vs[j])
        ensures RepoSteps(g, org, db, rvs) == Outcome(StoreAt(g, org, db, rvs, i, j), StoppedExit(vs[j]))
      {
        VisitStops(g, org, rvs[i].repo.name, before, vs, j);
        assert own == Steps(g, org, rvs[i].repo.name, before, vs);
        NotCompleted(vs[j]);
      }
    }
  }

  lemma NotCompleted(v: Visit)
    ensures StoppedExit(v) != Completed
  {
  }

  lemma VisitStops(g: Guard, org: string, repo: string, db: Db, vs: seq<Visit>, j: int)
    requires 0 <= j < |vs| && Steps(g, org, repo, db, vs[..j]).exit == Completed
    requires StopsRun(g, Steps(g, org, repo, db, vs[..j]).db, vs[j])
    ensures Steps(g, org, repo, db, vs) == Outcome(Steps(g, org, repo, db, vs[..j]).db, StoppedExit(vs[j]))
  {
    hide Step, StopsRun, StoppedExit;
    var before := Steps(g, org, repo, db, vs[..j]);
    assert vs[..j + 1][..j] == vs[..j];
    VisitExit(g, org, repo, before.db, vs[j]);
    NotCompleted(vs[j]);
    StepsStop(g, org, repo, db, vs, j + 1);
  }

  /** A run whose repositories could not be listed fails and changes nothing. */
  lemma NoReposNoRun(g: Guard, org: string, db: Db, run: Run)
    ensures run.Err? ==> UpdateOutcome(g, org, db, run) == Outcome(db, Failed(FetchReposFailed))
    ensures UpdateOutcome(g, org, db, run).exit == Failed(FetchReposFailed) <==> run.Err?
  {
    hide RepoSteps;
    if run.Ok? {
      RepoStepsCause(g, org, db, run.value);
    }
  }

  /** What a run visits: every listed pull request of every listing without error, under the bare name. */
  lemma {:induction false} TasksAre(rvs: seq<RepoVisit>, t: Task)
    ensures t in AllTasks(rvs)
            <==> exists i, j :: 0 <= i < |rvs| && IsListedAt(rvs[i], j, t)
  {
    hide Paged, IsListedAt;
    if rvs == [] {
    } else {
      var n := |rvs| - 1;
      TasksAre(rvs[..n], t);
      OwnTaskIff(rvs[n], t);
      if i, j :| 0 <= i < n && IsListedAt(rvs[..n][i], j, t) {
        assert IsListedAt(rvs[i], j, t);
      }
      if i, j :| 0 <= i < |rvs| && IsListedAt(rvs[i], j, t) {
        assert i < n ==> IsListedAt(rvs[..n][i], j, t);
      }
    }
  }

  predicate IsListedAt(rv: RepoVisit, j: int, t: Task) {
    && Paged(rv.listing).err.None? && 0 <= j < |Paged(rv.listing).items|
    && t.repo == rv.repo.name && t.visit == Paged(rv.listing).items[j]
  }

  lemma OwnTaskIff(rv: RepoVisit, t: Task)
    ensures t in TasksOf(rv) <==> exists j :: IsListedAt(rv, j, t)
  {
    hide Paged;
    if t in TasksOf(rv) {
      var j :| 0 <= j < |TasksOf(rv)| && TasksOf(rv)[j] == t;
      assert IsListedAt(rv, j, t);
    }
    if j :| IsListedAt(rv, j, t) {
      assert TasksOf(rv)[j] == t;
    }
  }

  /** Cancellation lets the current repository finish: the run stops exactly between two repositories. */
  lemma {:induction false} CancelBetweenRepos(g: Guard, org: string, db: Db, rvs: seq<RepoVisit>) returns (i: int)
    requires RepoSteps(g, org, db, rvs).exit == Failed(Cancelled)
    ensures 0 <= i < |rvs| && rvs[i].cancelled
    ensures RepoSteps(g, org, db, rvs[..i]).exit == Completed
    ensures RepoSteps(g, org, db, rvs).db == Fold(g, org, db, AllTasks(rvs[..i]))
  {
    hide Step, Steps, Paged, Fold, AllTasks;
    var n := |rvs| - 1;
    var before := RepoSteps(g, org, db, rvs[..n]);
    if before.exit == Completed {
      i := n;
      if !rvs[n].cancelled && Paged(rvs[n].listing).err.None? {
        StepsNeverCancel(g, org, rvs[n].repo.name, before.db, Paged(rvs[n].listing).items);
      }
      var k := RepoStepsArePrefix(g, org, db, rvs[..n]);
      assert AllTasks(rvs[..n])[..k] == AllTasks(rvs[..n]);
    } else {
      i := CancelBetweenRepos(g, org, db, rvs[..n]);
      assert rvs[..n][..i] == rvs[..i];
    }
  }

  lemma StepsNeverCancel(g: Guard, org: string, repo: string, db: Db, vs: seq<Visit>)
    ensures Steps(g, org, repo, db, vs).exit != Failed(Cancelled)
  {
    StepsCause(g, org, repo, db, vs);
  }

  /**
   A run without cancellation or error completes, and the URLs in the table are then exactly those
   it held before and those listed; rows of other URLs are as they were. Repeated URLs do no harm.
   */
  lemma CleanRunCovers(g: Guard, org: string, db: Db, run: Run)
    requires CleanRun(run)
    ensures UpdateOutcome(g, org, db, run) == Outcome(Fold(g, org, db, TasksOfRun(run)), Completed)
    ensures UpdateOutcome(g, org, db, run).db.prs.Keys == db.prs.Keys + ListedUrls(TasksOfRun(run))
    ensures forall u | u in db.prs && u !in ListedUrls(TasksOfRun(run)) ::
              UpdateOutcome(g, org, db, run).db.prs[u] == db.prs[u]
  {
    hide Fold, Step, Steps, AllTasks, RepoSteps, Paged, Answered;
    var ts := TasksOfRun(run);
    AnsweredRunCompletes(g, org, db, run);
    var k := RunIsPrefix(g, org, db, run);
    assert ts[..k] == ts;
    FoldCovers(g, org, db, ts);
    forall u | u in db.prs && u !in ListedUrls(ts) ensures Fold(g, org, db, ts).prs[u] == db.prs[u] {
      forall t | t in ts ensures !Writes(t, u) {
        var i :| 0 <= i < |ts| && ts[i] == t;
        assert Clean(ts[i].visit);
      }
      FoldFrame(g, org, db, ts, u);
    }
  }

  // ----- freshness

  predicate HasValidTime(v: Visit) {
    Parse(v.listed.updatedAt).Some? && v.detail.Ok? && v.detail.value.updatedAt == v.listed.updatedAt
  }

  predicate AllTimesValid(ts: seq<Task>) { forall i | 0 <= i < |ts| :: HasValidTime(ts[i].visit) }

  /** The update times at which `ts` list a URL, in order. */
  function TimesOf(url: string, ts: seq<Task>): seq<int> {
    if ts == [] then []
    else
      var v := ts[|ts| - 1].visit;
      TimesOf(url, ts[..|ts| - 1]) + if v.listed.url == url then [ListedTime(v)] else []
  }

  function StoredTime(db: Db, url: string): Option<int> {
    if url in db.prs then Some(db.prs[url].updatedAt) else None
  }

  function Min(a: int, b: int): int { if a <= b then a else b }

  function Max(a: int, b: int): int { if a <= b then b else a }

  /** The earliest (code as written) or latest (comment) of the stored time and the listed ones. */
  function Extreme(g: Guard, stored: Option<int>, times: seq<int>): Option<int> {
    if times == [] then stored
    else
      var t := times[|times| - 1];
      match Extreme(g, stored, times[..|times| - 1])
      case None => Some(t)
      case Some(x) => Some(if g == AsWritten then Min(x, t) else Max(x, t))
  }

  lemma StepTime(g: Guard, org: string, repo: string, db: Db, v: Visit, url: string)
    requires Clean(v) && HasValidTime(v)
    ensures StoredTime(Step(g, org, repo, db, v).db, url)
         == Extreme(g, StoredTime(db, url), if v.listed.url == url then [ListedTime(v)] else [])
  {
    hide Step, Clean, HasValidTime, Beats, NewRow, Extreme, ListedTime;
    StepContent(g, org, db, Task(repo, v), url);
    NewRowTime(org, Task(repo, v));
    ExtremeOfOne(g, StoredTime(db, url), ListedTime(v));
    ExtremeOfNone(g, StoredTime(db, url));
  }

  lemma ExtremeOfOne(g: Guard, stored: Option<int>, t: int)
    ensures Extreme(g, stored, [t]) == if Beats(g, stored, t) then Some(t) else stored
  {
    assert [t][..0] == [] && Extreme(g, stored, []) == stored;
  }

  lemma {:induction false} ExtremeConcat(g: Guard, stored: Option<int>, a: seq<int>, b: seq<int>)
    ensures Extreme(g, stored, a + b) == Extreme(g, Extreme(g, stored, a), b)
  {
    if b == [] {
      assert a + b == a;
    } else {
      ExtremeConcat(g, stored, a, b[..|b| - 1]);
      assert (a + b)[..|a + b| - 1] == a + b[..|b| - 1];
    }
  }

  /**
   Freshness: after error-free visits with valid times, the stored time of a URL is the earliest of
   its old stored time and all listed times under the guard as written, and the latest under the
   direction the comment states.
   */
  lemma {:induction false} FoldTime(g: Guard, org: string, db: Db, ts: seq<Task>, url: string)
    requires AllClean(ts) && AllTimesValid(ts)
    ensures StoredTime(Fold(g, org, db, ts), url) == Extreme(g, StoredTime(db, url), TimesOf(url, ts))
  {
    hide Step, Clean, HasValidTime, StoredTime, Extreme, ListedTime;
    if ts == [] {
      ExtremeOfNone(g, StoredTime(db, url));
    } else {
      var n := |ts| - 1;
      var v := ts[n].visit;
      var more := if v.listed.url == url then [ListedTime(v)] else [];
      FoldTime(g, org, db, ts[..n], url);
      StepTime(g, org, ts[n].repo, Fold(g, org, db, ts[..n]), v, url);
      ExtremeConcat(g, StoredTime(db, url), TimesOf(url, ts[..n]), more);
    }
  }

  lemma ExtremeOfNone(g: Guard, stored: Option<int>)
    ensures Extreme(g, stored, []) == stored
  {
  }

  /** `Extreme` is a bound of everything it was taken over, and one of those values. */
  lemma {:induction false} ExtremeIsExtreme(g: Guard, stored: Option<int>, times: seq<int>)
    ensures Extreme(g, stored, times).None? <==> stored.None? && times == []
    ensures Extreme(g, stored, times).Some? ==>
              var x := Extreme(g, stored, times).value;
              && (stored == Some(x) || x in times)
              && (stored.Some? ==> !ShouldUpdate(g, x, stored.value))
              && (forall i | 0 <= i < |times| :: !ShouldUpdate(g, x, times[i]))
  {
    if times == [] {
    } else {
      ExtremeIsExtreme(g, stored, times[..|times| - 1]);
    }
  }

  function TasksOfRuns(runs: seq<Run>): seq<Task> {
    if runs == [] then [] else TasksOfRuns(runs[..|runs| - 1]) + TasksOfRun(runs[|runs| - 1])
  }

  function AfterRuns(g: Guard, org: string, db: Db, runs: seq<Run>): Db {
    if runs == [] then db else UpdateOutcome(g, org, AfterRuns(g, org, db, runs[..|runs| - 1]), runs[|runs| - 1]).db
  }

  lemma {:induction false} CleanRunsAreFold(g: Guard, org: string, db: Db, runs: seq<Run>)
    requires forall i | 0 <= i < |runs| :: CleanRun(runs[i])
    ensures AfterRuns(g, org, db, runs) == Fold(g, org, db, TasksOfRuns(runs))
  {
    hide UpdateOutcome, Fold, CleanRun, TasksOfRun;
    if runs == [] {
      FoldNothing(g, org, db);
    } else {
      var n := |runs| - 1;
      CleanRunsAreFold(g, org, db, runs[..n]);
      CleanRunCovers(g, org, AfterRuns(g, org, db, runs[..n]), runs[n]);
      FoldConcat(g, org, db, TasksOfRuns(runs[..n]), TasksOfRun(runs[n]));
    }
  }

  lemma {:induction false} CleanRunsAreClean(runs: seq<Run>)
    requires forall i | 0 <= i < |runs| :: CleanRun(runs[i])
    ensures AllClean(TasksOfRuns(runs))
  {
    hide Clean, TasksOfRun;
    if runs == [] {
    } else {
      CleanRunsAreClean(runs[..|runs| - 1]);
      assert CleanRun(runs[|runs| - 1]);
    }
  }

  /**
   Over any sequence of error-free runs with valid times the stored time of a URL is the extreme of
   all times ever listed, so it only decreases under the guard as written and only increases under
   the documented one.
   */
  lemma FreshnessOverRuns(g: Guard, org: string, db: Db, runs: seq<Run>, url: string)
    requires forall i | 0 <= i < |runs| :: CleanRun(runs[i])
    requires AllTimesValid(TasksOfRuns(runs))
    ensures StoredTime(AfterRuns(g, org, db, runs), url)
         == Extreme(g, StoredTime(db, url), TimesOf(url, TasksOfRuns(runs)))
    ensures url in db.prs ==>
              && url in AfterRuns(g, org, db, runs).prs
              && !ShouldUpdate(g, AfterRuns(g, org, db, runs).prs[url].updatedAt, db.prs[url].updatedAt)
  {
    hide AfterRuns, Fold, Extreme, CleanRun, AllClean, AllTimesValid, TimesOf, TasksOfRuns;
    CleanRunsAreFold(g, org, db, runs);
    CleanRunsAreClean(runs);
    FoldTime(g, org, db, TasksOfRuns(runs), url);
    ExtremeIsExtreme(g, StoredTime(db, url), TimesOf(url, TasksOfRuns(runs)));
  }

  // ----- stale rows

  /** Details come back under the URL that was listed. */
  predicate SameUrls(ts: seq<Task>) {
    forall i | 0 <= i < |ts| :: ts[i].visit.detail.Ok? ==> ts[i].visit.detail.value.url == ts[i].visit.listed.url
  }

  /** Every visit to `url` lists a time for which a row stored at `stored` is left alone. */
  predicate NeverTriggers(g: Guard, ts: seq<Task>, url: string, stored: int) {
    forall i | 0 <= i < |ts| :: ts[i].visit.listed.url == url ==> !ShouldUpdate(g, stored, ListedTime(ts[i].visit))
  }

  lemma {:induction false} FoldLeavesAlone(g: Guard, org: string, db: Db, ts: seq<Task>, url: string)
    requires url in db.prs && SameUrls(ts) && NeverTriggers(g, ts, url, db.prs[url].updatedAt)
    ensures url in Fold(g, org, db, ts).prs && Fold(g, org, db, ts).prs[url] == db.prs[url]
  {
    if ts == [] {
    } else {
      var n := |ts| - 1;
      FoldLeavesAlone(g, org, db, ts[..n], url);
      StepLeavesAlone(g, org, ts[n].repo, Fold(g, org, db, ts[..n]), ts[n].visit, url);
    }
  }

  lemma StepLeavesAlone(g: Guard, org: string, repo: string, db: Db, v: Visit, url: string)
    requires url in db.prs
    requires v.detail.Ok? ==> v.detail.value.url == v.listed.url
    requires v.listed.url == url ==> !ShouldUpdate(g, db.prs[url].updatedAt, ListedTime(v))
    ensures url in Step(g, org, repo, db, v).db.prs && Step(g, org, repo, db, v).db.prs[url] == db.prs[url]
  {
  }

  /** The run lists a URL with no time before the given one. */
  predicate OnlyMovesForward(run: Run, url: string, stored: int) {
    && SameUrls(TasksOfRun(run))
    && forall i | 0 <= i < |TasksOfRun(run)| ::
         TasksOfRun(run)[i].visit.listed.url == url ==> stored <= ListedTime(TasksOfRun(run)[i].visit)
  }

  /**
   Under the guard as written a row is never refreshed while the remote only moves forward: through
   any run, however it ends, a stored row whose listed times are not before its stored time keeps
   its first content.
   */
  lemma StoredRowsGoStale(org: string, db: Db, run: Run, url: string)
    requires url in db.prs && OnlyMovesForward(run, url, db.prs[url].updatedAt)
    ensures url in UpdateOutcome(AsWritten, org, db, run).db.prs
    ensures UpdateOutcome(AsWritten, org, db, run).db.prs[url] == db.prs[url]
  {
    hide Fold, UpdateOutcome, TasksOfRun, ListedTime;
    var k := RunIsPrefix(AsWritten, org, db, run);
    PrefixOfRun(AsWritten, org, db, run, k);
    FoldLeavesAlone(AsWritten, org, db, TasksOfRun(run)[..k], url);
  }

  /** Hence through any sequence of such runs. */
  lemma {:induction false} StaleOverRuns(org: string, db: Db, runs: seq<Run>, url: string)
    requires url in db.prs && forall i | 0 <= i < |runs| :: OnlyMovesForward(runs[i], url, db.prs[url].updatedAt)
    ensures url in AfterRuns(AsWritten, org, db, runs).prs
    ensures AfterRuns(AsWritten, org, db, runs).prs[url] == db.prs[url]
  {
    hide UpdateOutcome, TasksOfRun, ListedTime, SameUrls;
    if runs == [] {
    } else {
      var n := |runs| - 1;
      StaleOverRuns(org, db, runs[..n], url);
      assert OnlyMovesForward(runs[n], url, db.prs[url].updatedAt);
      StoredRowsGoStale(org, AfterRuns(AsWritten, org, db, runs[..n]), runs[n], url);
    }
  }

  /** The row a clean visit stores; commits and reviews are kept in their own tables. */
  function NewRow(org: string, t: Task): PullRequestRow
    requires Clean(t.visit)
  {
    Bare(RowOf(ConvertPullRequest(t.visit.detail.value, t.repo, org).value))
  }

  /**
   A clean visit leaves the row equal to the remote's detail exactly when there was no row, or the
   guard fires, or the row said the same already.
   */
  lemma RowIsCurrentIff(g: Guard, org: string, db: Db, t: Task)
    requires Clean(t.visit)
    ensures var url := t.visit.listed.url;
            var after := Step(g, org, t.repo, db, t.visit).db;
            && url in after.prs
            && (after.prs[url] == NewRow(org, t) <==>
                  || url !in db.prs
                  || ShouldUpdate(g, db.prs[url].updatedAt, ListedTime(t.visit))
                  || db.prs[url] == NewRow(org, t))
  {
  }

  // ----- which visit's content stays

  predicate VisitsUrl(ts: seq<Task>, i: int, url: string) {
    0 <= i < |ts| && ts[i].visit.listed.url == url
  }

  /** A listed time beats what is stored, if anything is. */
  predicate Beats(g: Guard, stored: Option<int>, t: int) {
    stored.Some? ==> ShouldUpdate(g, stored.value, t)
  }

  /** Visit i beats the stored time and all visits to the URL before it, and none after it beats it. */
  ghost predicate Wins(g: Guard, stored: Option<int>, ts: seq<Task>, url: string, i: int) {
    && VisitsUrl(ts, i, url)
    && Beats(g, stored, ListedTime(ts[i].visit))
    && (forall j | VisitsUrl(ts, j, url) && j < i ::
          ShouldUpdate(g, ListedTime(ts[j].visit), ListedTime(ts[i].visit)))
    && (forall j | VisitsUrl(ts, j, url) && i < j ::
          !ShouldUpdate(g, ListedTime(ts[i].visit), ListedTime(ts[j].visit)))
  }

  /** What the table says of a URL. */
  function RowAt(db: Db, url: string): Option<PullRequestRow> {
    if url in db.prs then Some(db.prs[url]) else None
  }

  lemma StepContent(g: Guard, org: string, db: Db, t: Task, url: string)
    requires Clean(t.visit)
    ensures RowAt(Step(g, org, t.repo, db, t.visit).db, url)
         == if t.visit.listed.url == url && Beats(g, StoredTime(db, url), ListedTime(t.visit))
            then Some(NewRow(org, t)) else RowAt(db, url)
  {
    hide Paged, ConvertPullRequest, ParseTime, FieldTime, ConvertedReviews, ConvertedCommits, EncodeReviews;
    if t.visit.listed.url == url {
      RowIsCurrentIff(g, org, db, t);
    } else {
      StepFrame(g, org, t.repo, db, t.visit, url);
    }
  }

  lemma NewRowTime(org: string, t: Task)
    requires Clean(t.visit) && HasValidTime(t.visit)
    ensures NewRow(org, t).updatedAt == ListedTime(t.visit)
  {
    hide Paged, Fields, Format;
    assert t.visit.listed.updatedAt != "";
  }

  /** The visits and their winner before the last visit, seen from after it. */
  lemma WinnerSnoc(g: Guard, stored: Option<int>, ts: seq<Task>, url: string, w: Option<int>, beaten: bool)
    requires ts != []
    requires w.None? ==> forall j | VisitsUrl(ts[..|ts| - 1], j, url) :: !Beats(g, stored, ListedTime(ts[j].visit))
    requires w.Some? ==> VisitsUrl(ts[..|ts| - 1], w.value, url) && Wins(g, stored, ts[..|ts| - 1], url, w.value)
    requires beaten <==>
               && ts[|ts| - 1].visit.listed.url == url
               && Beats(g, if w.Some? then Some(ListedTime(ts[w.value].visit)) else stored,
                        ListedTime(ts[|ts| - 1].visit))
    ensures beaten ==> Wins(g, stored, ts, url, |ts| - 1)
    ensures !beaten && w.Some? ==> Wins(g, stored, ts, url, w.value)
    ensures !beaten && w.None? ==> forall j | VisitsUrl(ts, j, url) :: !Beats(g, stored, ListedTime(ts[j].visit))
  {
    hide ListedTime;
    var n := |ts| - 1;
    assert forall j | VisitsUrl(ts, j, url) && j < n :: VisitsUrl(ts[..n], j, url) && ts[..n][j] == ts[j];
  }

  /** The visit whose content stays, if any. */
  lemma {:induction false} FindWinner(g: Guard, org: string, db: Db, ts: seq<Task>, url: string)
    returns (w: Option<int>)
    requires AllClean(ts) && AllTimesValid(ts)
    ensures w.None? ==> forall j | VisitsUrl(ts, j, url) :: !Beats(g, StoredTime(db, url), ListedTime(ts[j].visit))
    ensures w.Some? ==> VisitsUrl(ts, w.value, url) && Wins(g, StoredTime(db, url), ts, url, w.value)
    ensures RowAt(Fold(g, org, db, ts), url) == if w.Some? then Some(NewRow(org, ts[w.value])) else RowAt(db, url)
  {
    hide Step, Clean, HasValidTime, NewRow, ListedTime, Beats, Wins;
    if ts == [] {
      w := None;
    } else {
      var n := |ts| - 1;
      var before := Fold(g, org, db, ts[..n]);
      w := FindWinner(g, org, db, ts[..n], url);
      StepContent(g, org, before, ts[n], url);
      if w.Some? {
        assert ts[..n][w.value] == ts[w.value];
        assert HasValidTime(ts[w.value].visit);
        NewRowTime(org, ts[w.value]);
      }
      var stored := StoredTime(before, url);
      var beaten := ts[n].visit.listed.url == url && Beats(g, stored, ListedTime(ts[n].visit));
      WinnerSnoc(g, StoredTime(db, url), ts, url, w, beaten);
      w := if beaten then Some(n) else w;
    }
  }

  lemma WinnerIsUnique(g: Guard, stored: Option<int>, ts: seq<Task>, url: string, i: int, j: int)
    requires Wins(g, stored, ts, url, i) && Wins(g, stored, ts, url, j)
    ensures i == j
  {
    hide ListedTime, Beats;
  }

  /**
   What a row says after error-free visits with valid times: if some listed time beats the stored one,
   exactly what the winning visit brought, and otherwise what it said before.
   */
  lemma FoldContent(g: Guard, org: string, db: Db, ts: seq<Task>, url: string)
    requires AllClean(ts) && AllTimesValid(ts)
    ensures (exists i :: Wins(g, StoredTime(db, url), ts, url, i))
            <==> exists i :: VisitsUrl(ts, i, url) && Beats(g, StoredTime(db, url), ListedTime(ts[i].visit))
    ensures forall i | Wins(g, StoredTime(db, url), ts, url, i) ::
              RowAt(Fold(g, org, db, ts), url) == Some(NewRow(org, ts[i]))
    ensures (forall i :: !Wins(g, StoredTime(db, url), ts, url, i)) ==>
              RowAt(Fold(g, org, db, ts), url) == RowAt(db, url)
  {
    hide Fold, Clean, HasValidTime, NewRow, ListedTime, Beats, RowAt;
    var w := FindWinner(g, org, db, ts, url);
    forall i | Wins(g, StoredTime(db, url), ts, url, i)
      ensures RowAt(Fold(g, org, db, ts), url) == Some(NewRow(org, ts[i]))
    {
      if w.Some? {
        WinnerIsUnique(g, StoredTime(db, url), ts, url, i, w.value);
      }
    }
  }

  /** The same over any sequence of error-free runs. */
  lemma ContentOverRuns(g: Guard, org: string, db: Db, runs: seq<Run>, url: string)
    requires forall i | 0 <= i < |runs| :: CleanRun(runs[i])
    requires AllTimesValid(TasksOfRuns(runs))
    ensures AllClean(TasksOfRuns(runs))
    ensures forall i | Wins(g, StoredTime(db, url), TasksOfRuns(runs), url, i) ::
              RowAt(AfterRuns(g, org, db, runs), url) == Some(NewRow(org, TasksOfRuns(runs)[i]))
    ensures (forall i :: !Wins(g, StoredTime(db, url), TasksOfRuns(runs), url, i)) ==>
              RowAt(AfterRuns(g, org, db, runs), url) == RowAt(db, url)
  {
    hide AfterRuns, Fold, CleanRun, AllTimesValid, TasksOfRuns, Wins, RowAt, NewRow, AllClean;
    CleanRunsAreFold(g, org, db, runs);
    CleanRunsAreClean(runs);
    FoldContent(g, org, db, TasksOfRuns(runs), url);
  }

  lemma MayTimes(a: string, b: string)
    requires a == "2020-05-01T00:00:00Z" && b == "2020-05-02T00:00:00Z"
    ensures Parse(a) == Some(1588291200) && Parse(b) == Some(1588377600)
  {
    assert Fields(a) == Stamp(Civil(2020, 5, 1), 0, 0, 0);
    assert Fields(b) == Stamp(Civil(2020, 5, 2), 0, 0, 0);
  }

  /**
   A concrete loss: a row stored on 1 May is still the old one after an error-free visit that lists
   an update of 2 May; under the documented direction it would be the new one.
   */
  lemma NewerRemoteIsIgnored(org: string, db: Db, t: Task, later: string)
    requires later == "2020-05-02T00:00:00Z"
    requires t == Task("dcrd", Visit(
                         ApiPullsRequest("u", 1, later),
                         Ok(ApiPullRequest("u", 1, "bob", later, "", "", false, "open", 7, 0, "")),
                         true, [], Ok([]), true))
    requires db == Db(map["u" := PullRequestRow("dcrd", org, "u", 1, "bob", 1588291200, 0, 0, false, "open",
                                                3, 0, "", [], [])],
                      map[])
    ensures Clean(t.visit) && HasValidTime(t.visit)
    ensures Step(AsWritten, org, "dcrd", db, t.visit).db == db
    ensures Step(AsDocumented, org, "dcrd", db, t.visit).db.prs["u"] == NewRow(org, t) != db.prs["u"]
  {
    MayTimes("2020-05-01T00:00:00Z", later);
    RowIsCurrentIff(AsDocumented, org, db, t);
  }

  // ----- idempotence

  /** An unchanged remote answers alike for the same URL. */
  predicate Agree(s: Task, t: Task) {
    s.visit.listed.url == t.visit.listed.url ==>
      && s.repo == t.repo && s.visit.detail == t.visit.detail
      && s.visit.listed.updatedAt == t.visit.listed.updatedAt
  }

  predicate AllAgree(ss: seq<Task>, ts: seq<Task>) {
    forall i, j | 0 <= i < |ss| && 0 <= j < |ts| :: Agree(ss[i], ts[j])
  }

  ghost predicate Settled(g: Guard, org: string, prs: map<string, PullRequestRow>, t: Task)
    requires Clean(t.visit)
  {
    && t.visit.listed.url in prs
    && (ShouldUpdate(g, prs[t.visit.listed.url].updatedAt, ListedTime(t.visit)) ==>
          prs[t.visit.listed.url] == NewRow(org, t))
  }

  lemma VisitSettles(g: Guard, org: string, db: Db, t: Task)
    requires Clean(t.visit)
    ensures Settled(g, org, Step(g, org, t.repo, db, t.visit).db.prs, t)
  {
  }

  lemma SettledAlike(g: Guard, org: string, prs: map<string, PullRequestRow>, s: Task, t: Task)
    requires Clean(s.visit) && Clean(t.visit) && Agree(s, t) && s.visit.listed.url == t.visit.listed.url
    requires Settled(g, org, prs, s)
    ensures Settled(g, org, prs, t)
  {
    hide ConvertPullRequest, ParseTime, ShouldUpdate;
  }

  lemma SettledStays(g: Guard, org: string, db: Db, t: Task, s: Task)
    requires Clean(t.visit) && Clean(s.visit) && Settled(g, org, db.prs, t) && Agree(s, t)
    ensures Settled(g, org, Step(g, org, s.repo, db, s.visit).db.prs, t)
  {
    hide Step, NewRow, ListedTime, ShouldUpdate, FieldTime, Paged;
    if t.visit.listed.url == s.visit.listed.url {
      VisitSettles(g, org, db, s);
      SettledAlike(g, org, Step(g, org, s.repo, db, s.visit).db.prs, s, t);
    } else {
      StepFrame(g, org, s.repo, db, s.visit, t.visit.listed.url);
    }
  }

  lemma SettledVisitIsIdle(g: Guard, org: string, db: Db, t: Task)
    requires Clean(t.visit) && Settled(g, org, db.prs, t)
    ensures Step(g, org, t.repo, db, t.visit).db.prs == db.prs
  {
  }

  lemma {:induction false} FoldSettles(g: Guard, org: string, db: Db, ts: seq<Task>)
    requires AllClean(ts) && AllAgree(ts, ts)
    ensures forall i | 0 <= i < |ts| :: Settled(g, org, Fold(g, org, db, ts).prs, ts[i])
  {
    hide Step, Clean, Settled, Agree;
    if ts == [] {
    } else {
      var n := |ts| - 1;
      FoldSettles(g, org, db, ts[..n]);
      var before := Fold(g, org, db, ts[..n]);
      VisitSettles(g, org, before, ts[n]);
      forall i | 0 <= i < n ensures Settled(g, org, Step(g, org, ts[n].repo, before, ts[n].visit).db.prs, ts[i]) {
        assert ts[..n][i] == ts[i];
        SettledStays(g, org, before, ts[i], ts[n]);
      }
    }
  }

  lemma {:induction false} SettledFoldIsIdle(g: Guard, org: string, db: Db, ts: seq<Task>)
    requires AllClean(ts) && forall i | 0 <= i < |ts| :: Settled(g, org, db.prs, ts[i])
    ensures Fold(g, org, db, ts).prs == db.prs
  {
    hide Step, Clean, Settled;
    if ts == [] {
    } else {
      var n := |ts| - 1;
      SettledFoldIsIdle(g, org, db, ts[..n]);
      SettledVisitIsIdle(g, org, Fold(g, org, db, ts[..n]), ts[n]);
    }
  }

  /** While all stored rows are what agreeing visits brought, one more such visit keeps it so. */
  lemma AgreeingVisit(g: Guard, org: string, db: Db, ts: seq<Task>, t: Task)
    requires AllClean(ts) && Clean(t.visit) && forall i | 0 <= i < |ts| :: Agree(ts[i], t)
    requires db.prs.Keys == ListedUrls(ts)
    requires forall i | 0 <= i < |ts| :: RowAt(db, ts[i].visit.listed.url) == Some(NewRow(org, ts[i]))
    ensures RowAt(Step(g, org, t.repo, db, t.visit).db, t.visit.listed.url) == Some(NewRow(org, t))
    ensures forall i | 0 <= i < |ts| ::
              RowAt(Step(g, org, t.repo, db, t.visit).db, ts[i].visit.listed.url) == Some(NewRow(org, ts[i]))
  {
    hide Step, Clean, NewRow, Agree, Beats;
    var url := t.visit.listed.url;
    forall i | 0 <= i < |ts|
      ensures RowAt(Step(g, org, t.repo, db, t.visit).db, ts[i].visit.listed.url) == Some(NewRow(org, ts[i]))
    {
      StepContent(g, org, db, t, ts[i].visit.listed.url);
      if ts[i].visit.listed.url == url {
        SameNewRow(org, ts[i], t);
      }
    }
    StepContent(g, org, db, t, url);
    if url in db.prs {
      var s :| s in ts && s.visit.listed.url == url;
      var i :| 0 <= i < |ts| && ts[i] == s;
      SameNewRow(org, ts[i], t);
    } else {
      NothingStored(g, db, url, ListedTime(t.visit));
    }
  }

  /** Over an empty store and an unchanged remote every listed row says what the remote says. */
  lemma {:induction false} FirstVisitsStoreRemote(g: Guard, org: string, ts: seq<Task>)
    requires AllClean(ts) && AllAgree(ts, ts)
    ensures forall i | 0 <= i < |ts| ::
              RowAt(Fold(g, org, Db(map[], map[]), ts), ts[i].visit.listed.url) == Some(NewRow(org, ts[i]))
  {
    hide Step, Clean, NewRow, Agree, RowAt, ListedUrls;
    if ts == [] {
    } else {
      var n, empty := |ts| - 1, Db(map[], map[]);
      FirstVisitsStoreRemote(g, org, ts[..n]);
      FoldCovers(g, org, empty, ts[..n]);
      AgreeingVisit(g, org, Fold(g, org, empty, ts[..n]), ts[..n], ts[n]);
      assert forall i | 0 <= i < n :: ts[..n][i] == ts[i];
    }
  }

  lemma SameNewRow(org: string, s: Task, t: Task)
    requires Clean(s.visit) && Clean(t.visit) && Agree(s, t) && s.visit.listed.url == t.visit.listed.url
    ensures NewRow(org, s) == NewRow(org, t)
  {
    hide ConvertPullRequest;
  }

  lemma NothingStored(g: Guard, db: Db, url: string, t: int)
    requires url !in db.prs
    ensures Beats(g, StoredTime(db, url), t)
  {
  }

  lemma NewRowIsRemote(org: string, t: Task)
    requires Clean(t.visit)
    ensures Converts(t.visit.detail.value) && NewRow(org, t) == RemoteRow(org, t.repo, t.visit.detail.value)
  {
    hide Parse, Paged;
  }

  /**
   After a first error-free run over an unchanging remote, every pull request of every listing is stored
   column by column as the remote describes it, under the bare name of its repository.
   */
  lemma FirstRunStoresRemote(g: Guard, org: string, run: Run, i: int, j: int)
    requires CleanRun(run) && AllAgree(TasksOfRun(run), TasksOfRun(run))
    requires 0 <= i < |run.value| && 0 <= j < |Paged(run.value[i].listing).items|
    ensures var v := Paged(run.value[i].listing).items[j];
            && v.detail.Ok? && Converts(v.detail.value)
            && RowAt(UpdateOutcome(g, org, Db(map[], map[]), run).db, v.listed.url)
               == Some(RemoteRow(org, run.value[i].repo.name, v.detail.value))
  {
    var rv := run.value[i];
    var t := Task(rv.repo.name, Paged(rv.listing).items[j]);
    ListedIsTask(run, i, j);
    hide Fold, UpdateOutcome, Clean, NewRow, RemoteRow, Converts, Agree, Paged, AllTasks, TasksOfRun;
    CleanRunCovers(g, org, Db(map[], map[]), run);
    FirstVisitsStoreRemote(g, org, TasksOfRun(run));
    var k :| 0 <= k < |TasksOfRun(run)| && TasksOfRun(run)[k] == t;
    assert Clean(TasksOfRun(run)[k].visit);
    VisitDetail(t.visit);
    NewRowIsRemote(org, t);
  }

  lemma VisitDetail(v: Visit)
    requires Clean(v)
    ensures v.detail.Ok?
  {
  }

  lemma ListedIsTask(run: Run, i: int, j: int)
    requires AnsweredRun(run) && 0 <= i < |run.value| && 0 <= j < |Paged(run.value[i].listing).items|
    ensures Task(run.value[i].repo.name, Paged(run.value[i].listing).items[j]) in TasksOfRun(run)
  {
    hide Paged, AllTasks, AllAnswered;
    var t := Task(run.value[i].repo.name, Paged(run.value[i].listing).items[j]);
    TasksAre(run.value, t);
    assert IsListedAt(run.value[i], j, t);
  }

  /** Everything `again` lists, by URL, was listed by `ts`. */
  predicate ListsAmong(again: seq<Task>, ts: seq<Task>) {
    forall j | 0 <= j < |again| :: exists i | 0 <= i < |ts| :: SameUrl(ts[i], again[j])
  }

  predicate SameUrl(s: Task, t: Task) { s.visit.listed.url == t.visit.listed.url }

  /**
   Idempotence: a second error-free run that lists, in any order and any paging, nothing but what the
   first listed, and meets an unchanged remote, leaves the pull request table exactly as it is,
   whichever way the guard points.
   */
  lemma UpdateIsIdempotent(g: Guard, org: string, db: Db, run: Run, again: Run)
    requires CleanRun(run) && CleanRun(again)
    requires AllAgree(TasksOfRun(run), TasksOfRun(run)) && AllAgree(TasksOfRun(run), TasksOfRun(again))
    requires ListsAmong(TasksOfRun(again), TasksOfRun(run))
    ensures var first := UpdateOutcome(g, org, db, run).db;
            UpdateOutcome(g, org, first, again).db.prs == first.prs
  {
    hide Step, Clean, Settled, Fold, UpdateOutcome, TasksOfRun, Agree, ListedUrls;
    var ts, ts' := TasksOfRun(run), TasksOfRun(again);
    CleanRunCovers(g, org, db, run);
    var first := UpdateOutcome(g, org, db, run).db;
    CleanRunCovers(g, org, first, again);
    FoldSettles(g, org, db, ts);
    forall j | 0 <= j < |ts'| ensures Settled(g, org, first.prs, ts'[j]) {
      assert exists i | 0 <= i < |ts| :: SameUrl(ts[i], ts'[j]);
      var i :| 0 <= i < |ts| && SameUrl(ts[i], ts'[j]);
      SettledAlike(g, org, first.prs, ts[i], ts'[j]);
    }
    SettledFoldIsIdle(g, org, first, ts');
  }

  ghost predicate Quiet(g: Guard, prs: map<string, PullRequestRow>, v: Visit) {
    v.listed.url in prs && !ShouldUpdate(g, prs[v.listed.url].updatedAt, ListedTime(v))
  }

  lemma {:induction false} FoldQuiets(g: Guard, org: string, db: Db, ts: seq<Task>)
    requires AllClean(ts) && AllTimesValid(ts)
    ensures forall i | 0 <= i < |ts| :: Quiet(g, Fold(g, org, db, ts).prs, ts[i].visit)
  {
    forall i | 0 <= i < |ts| ensures Quiet(g, Fold(g, org, db, ts).prs, ts[i].visit) {
      var url := ts[i].visit.listed.url;
      FoldTime(g, org, db, ts, url);
      ExtremeIsExtreme(g, StoredTime(db, url), TimesOf(url, ts));
      TimesInclude(ts, i);
    }
  }

  lemma {:induction false} TimesInclude(ts: seq<Task>, i: int)
    requires 0 <= i < |ts|
    ensures ListedTime(ts[i].visit) in TimesOf(ts[i].visit.listed.url, ts)
  {
    hide ListedTime;
    if i == |ts| - 1 {
    } else {
      TimesInclude(ts[..|ts| - 1], i);
    }
  }

  lemma {:induction false} QuietFoldIsIdle(g: Guard, org: string, db: Db, ts: seq<Task>)
    requires AllClean(ts) && forall i | 0 <= i < |ts| :: Quiet(g, db.prs, ts[i].visit)
    ensures Fold(g, org, db, ts) == db
  {
    if ts == [] {
    } else {
      QuietFoldIsIdle(g, org, db, ts[..|ts| - 1]);
    }
  }

  /** The same for whole listings, update time included. */
  predicate ListingsAmong(again: seq<Task>, ts: seq<Task>) {
    forall j | 0 <= j < |again| :: exists i | 0 <= i < |ts| :: ListsAlike(ts[i], again[j])
  }

  predicate ListsAlike(s: Task, t: Task) {
    SameUrl(s, t) && s.visit.listed.updatedAt == t.visit.listed.updatedAt
  }

  /**
   With valid times a second run whose listings were all met by the first writes nothing at all,
   reviews included, whatever else the remote now answers.
   */
  lemma SecondRunIsIdle(g: Guard, org: string, db: Db, run: Run, again: Run)
    requires CleanRun(run) && AllTimesValid(TasksOfRun(run)) && CleanRun(again)
    requires ListingsAmong(TasksOfRun(again), TasksOfRun(run))
    ensures var first := UpdateOutcome(g, org, db, run).db; UpdateOutcome(g, org, first, again).db == first
  {
    hide Step, Clean, Fold, UpdateOutcome, TasksOfRun, ShouldUpdate, ParseTime;
    var ts, ts' := TasksOfRun(run), TasksOfRun(again);
    CleanRunCovers(g, org, db, run);
    var first := UpdateOutcome(g, org, db, run).db;
    CleanRunCovers(g, org, first, again);
    FoldQuiets(g, org, db, ts);
    forall j | 0 <= j < |ts'| ensures Quiet(g, first.prs, ts'[j].visit) {
      assert exists i | 0 <= i < |ts| :: ListsAlike(ts[i], ts'[j]);
      var i :| 0 <= i < |ts| && ListsAlike(ts[i], ts'[j]);
      assert Quiet(g, first.prs, ts[i].visit);
    }
    QuietFoldIsIdle(g, org, first, ts');
  }
}
