/** The server's two operations over its store (server/update.go, server/userinfo.go, server/convert.go). */
module Server {
  import opened Wrappers
  import opened Records
  import opened Encoding
  import opened Calendar
  import opened Timestamps
  import opened Pagination
  import opened Store
  import opened Aggregation
  import opened Reports
  import opened Sync

  method ConvertCommits(apiCommits: seq<ApiCommit>) returns (commits: seq<Commit>)
    ensures commits == ConvertedCommits(apiCommits)
  {
    commits := [];
    for i := 0 to |apiCommits|
      invariant commits == ConvertedCommits(apiCommits)[..i]
    {
      commits := commits + [ConvertCommit(apiCommits[i])];
    }
  }

  method ConvertReviews(apiReviews: seq<ApiReview>, repo: string, number: int) returns (reviews: seq<Review>)
    ensures reviews == ConvertedReviews(apiReviews, repo, number)
  {
    reviews := [];
    for i := 0 to |apiReviews|
      invariant reviews == ConvertedReviews(apiReviews, repo, number)[..i]
    {
      reviews := reviews + [ConvertReview(apiReviews[i], repo, number)];
    }
  }

  datatype FetchedParts = Parts(commits: seq<Commit>, reviews: seq<Review>) | NoCommits | NoReviews

  class Server {
    const db: CockroachDB

    constructor (db: CockroachDB)
      ensures this.db == db
    {
      this.db := db;
    }

    /** Commits and reviews of one pull request; a failing review call panics the caller. */
    method FetchParts(repo: string, v: Visit) returns (r: FetchedParts)
      ensures r == if Paged(v.commits).err.Some? then NoCommits
                   else if v.reviews.Err? then NoReviews
                   else Parts(ConvertedCommits(Paged(v.commits).items),
                              ConvertedReviews(v.reviews.value, repo, v.listed.number))
    {
      var fetched := FetchAll(v.commits);
      if fetched.err.Some? {
        return NoCommits;
      }
      var commits := ConvertCommits(fetched.items);
      if v.reviews.Err? {
        return NoReviews;
      }
      var reviews := ConvertReviews(v.reviews.value, repo, v.listed.number);
      return Parts(commits, reviews);
    }

    /** The body of the inner loop: one listed pull request. */
    method SyncPullRequest(org: string, repo: string, v: Visit) returns (exit: Exit)
      requires db.Valid()
      modifies db
      ensures db.Valid()
      ensures Outcome(db.State(), exit) == Step(AsWritten, org, repo, old(db.State()), v)
    {
      if v.detail.Err? {
        return Failed(FetchPullFailed);
      }
      var converted := ConvertPullRequest(v.detail.value, repo, org);
      if converted.None? {
        return Completed;
      }
      var p := converted.value;
      var found := db.PullRequestByURL(v.listed.url, v.lookupUp);
      if found.Err? {
        if found.error != NotFound {
          return Completed;
        }
        var parts := FetchParts(repo, v);
        match parts {
          case NoCommits => return Failed(FetchCommitsFailed);
          case NoReviews => return Panicked;
          case Parts(commits, reviews) =>
            var _ := db.NewPullRequest(p.(commits := commits, reviews := reviews), v.writeUp);
        }
      } else if found.value.updatedAt > ListedTime(v) {
        var parts := FetchParts(repo, v);
        match parts {
          case NoCommits => return Failed(FetchCommitsFailed);
          case NoReviews => return Panicked;
          case Parts(commits, reviews) =>
            var _ := db.UpdatePullRequest(p.(commits := commits, reviews := reviews), v.writeUp);
        }
      }
      return Completed;
    }

    method Update(org: string, run: Run) returns (exit: Exit)
      requires db.Valid()
      modifies db
      ensures db.Valid()
      ensures Outcome(db.State(), exit) == UpdateOutcome(AsWritten, org, old(db.State()), run)
    {
      if run.Err? {
        return Failed(FetchReposFailed);
      }
      hide Step, Paged, TasksOf, Fold;
      var rvs := run.value;
      ghost var start := db.State();
      for i := 0 to |rvs|
        invariant db.Valid()
        invariant Outcome(db.State(), Completed) == RepoSteps(AsWritten, org, start, rvs[..i])
      {
        var rv := rvs[i];
        ghost var entry := db.State();
        assert rvs[..i + 1][..i] == rvs[..i];
        if rv.cancelled {
          RepoStepsStop(AsWritten, org, start, rvs, i + 1);
          return Failed(Cancelled);
        }
        var listing := FetchAll(rv.listing);
        if listing.err.Some? {
          RepoStepsStop(AsWritten, org, start, rvs, i + 1);
          return Failed(FetchPullsFailed);
        }
        var prs := listing.items;
        for j := 0 to |prs|
          invariant db.Valid()
          invariant Outcome(db.State(), Completed) == Steps(AsWritten, org, rv.repo.name, entry, prs[..j])
        {
          assert prs[..j + 1][..j] == prs[..j];
          exit := SyncPullRequest(org, rv.repo.name, prs[j]);
          if exit != Completed {
            StepsStop(AsWritten, org, rv.repo.name, entry, prs, j + 1);
            RepoStepsStop(AsWritten, org, start, rvs, i + 1);
            return;
          }
        }
        assert prs[..|prs|] == prs;
      }
      assert rvs[..|rvs|] == rvs;
      return Completed;
    }

    /**
     Any integers are accepted as year and month; either query may fail. The report is over the
     reviews whose own lookup is answered; a failing lookup does not fail the call.
     */
    method UserInformation(org: string, user: string, year: int, month: int,
                           prsUp: bool, reviewsUp: bool, answered: set<int>)
      returns (r: Result<UserInformationResult, StoreError>)
      requires db.Valid()
      ensures r.Ok? <==> prsUp && reviewsUp
      ensures r.Ok? ==> r.value.user == user && r.value.organization == org
      ensures r.Ok? ==>
                IsReport(db.State(), org, user, WindowStart(year, month), WindowEnd(year, month), answered, r.value)
    {
      var start, end := DateUnix(year, month, 0), DateUnix(year, month + 1, 0);
      var prs := db.PullRequestsByUserDates(user, start, end, prsUp);
      if prs.Err? {
        return Err(prs.error);
      }
      var reviews, rows := db.ReviewsByUserDates(user, start, end, reviewsUp, answered);
      if reviews.Err? {
        return Err(reviews.error);
      }
      var info := ConvertToUserInformation(prs.value, reviews.value);
      info := info.(user := user, organization := org);
      assert IsReportOf(db.State(), user, start, end, answered, prs.value, rows, reviews.value, info);
      return Ok(info);
    }
  }

  /**
   A pull request synchronised without a merge time is in no monthly report, other than that of
   January 1970, until it is written again.
   */
  lemma OpenPullRequestsStayOut(db: Db, org: string, t: Task, user: string, y: int, m: int, prs: seq<PullRequest>)
    requires Clean(t.visit) && t.visit.detail.value.mergedAt == ""
    requires t.visit.listed.url in db.prs && db.prs[t.visit.listed.url] == NewRow(org, t)
    requires IsUserPullRequests(prs, db.prs, user, WindowStart(y, m), WindowEnd(y, m))
    requires 12 * y + m != 12 * 1970 + 1
    ensures !Lists(prs, t.visit.listed.url)
  {
    hide WindowStart, WindowEnd;
    EpochWindow(y, m);
    forall p | p in prs ensures p.url != t.visit.listed.url {
      var i :| 0 <= i < |prs| && prs[i] == p;
      assert prs[i] == RecordOf(db.prs[prs[i].url]);
    }
  }

  /**
   Once stored open, never reported: a pull request that has no merge time when it is first stored is
   in no report but January 1970's after any later runs that list it with times not going back, even
   if it has been merged since.
   */
  lemma FirstSeenOpenStaysOut(org: string, db: Db, t: Task, runs: seq<Run>, org': string, user: string, y: int, m: int,
                              answered: set<int>, info: UserInformationResult, i: int)
    requires Clean(t.visit) && t.visit.detail.value.mergedAt == "" && t.visit.listed.url !in db.prs
    requires forall k | 0 <= k < |runs| ::
               OnlyMovesForward(runs[k], t.visit.listed.url, FieldTime(t.visit.detail.value.updatedAt).value)
    requires var first := Step(AsWritten, org, t.repo, db, t.visit).db;
             IsReport(AfterRuns(AsWritten, org, first, runs), org', user, WindowStart(y, m), WindowEnd(y, m),
                      answered, info)
    requires 12 * y + m != 12 * 1970 + 1
    requires 0 <= i < |info.prs|
    ensures info.prs[i].url != t.visit.listed.url
  {
    hide Step, AfterRuns, OnlyMovesForward, WindowStart, WindowEnd, Paged, Parse;
    var url := t.visit.listed.url;
    var first := Step(AsWritten, org, t.repo, db, t.visit).db;
    RowIsCurrentIff(AsWritten, org, db, t);
    assert first.prs[url] == NewRow(org, t);
    StaleOverRuns(org, first, runs, url);
    NoMergeTimeStaysOut(AfterRuns(AsWritten, org, first, runs), url, org', user, y, m, answered, info, i);
  }

  /**
   Exactly when a pull request stored without a merge time is shown after error-free runs with valid
   times: when some visit wins over what was stored, and brought the user as author and a merge time
   in the window.
   */
  lemma OpenShownIff(g: Guard, org: string, db: Db, runs: seq<Run>, url: string, org': string, user: string,
                     y: int, m: int, answered: set<int>, info: UserInformationResult)
    requires RowAt(db, url).Some? && RowAt(db, url).value.mergedAt == 0 && RowAt(db, url).value.url == url
    requires forall k | 0 <= k < |runs| :: CleanRun(runs[k])
    requires AllTimesValid(TasksOfRuns(runs))
    requires IsReport(AfterRuns(g, org, db, runs), org', user, WindowStart(y, m), WindowEnd(y, m), answered, info)
    requires 12 * y + m != 12 * 1970 + 1
    ensures AllClean(TasksOfRuns(runs))
    ensures Shows(info, url) <==>
            exists i :: VisitsUrl(TasksOfRuns(runs), i, url) && Wins(g, StoredTime(db, url), TasksOfRuns(runs), url, i)
              && MergedBy(TasksOfRuns(runs)[i], user, WindowStart(y, m), WindowEnd(y, m))
  {
    hide *;
    var ts, stored := TasksOfRuns(runs), StoredTime(db, url);
    var after, lo, hi := AfterRuns(g, org, db, runs), WindowStart(y, m), WindowEnd(y, m);
    ContentOverRuns(g, org, db, runs, url);
    if i :| Wins(g, stored, ts, url, i) {
      WinnerVisits(g, stored, ts, url, i);
      WinnerShownIff(g, org, after, stored, ts, url, i, org', user, lo, hi, answered, info);
      forall j | Wins(g, stored, ts, url, j) ensures i == j {
        WinnerIsUnique(g, stored, ts, url, i, j);
      }
    } else {
      OpenNotShown(after, url, org', user, y, m, answered, info);
    }
  }

  /** The case of a pull request first stored while open. */
  lemma FirstSeenOpenShownIff(g: Guard, org: string, db: Db, t: Task, runs: seq<Run>, org': string, user: string,
                              y: int, m: int, answered: set<int>, info: UserInformationResult)
    requires Clean(t.visit) && t.visit.detail.value.mergedAt == "" && t.visit.listed.url !in db.prs
    requires forall k | 0 <= k < |runs| :: CleanRun(runs[k])
    requires AllTimesValid(TasksOfRuns(runs))
    requires var first := Step(g, org, t.repo, db, t.visit).db;
             IsReport(AfterRuns(g, org, first, runs), org', user, WindowStart(y, m), WindowEnd(y, m), answered, info)
    requires 12 * y + m != 12 * 1970 + 1
    ensures AllClean(TasksOfRuns(runs))
    ensures var url, stored := t.visit.listed.url, FieldTime(t.visit.detail.value.updatedAt);
            Shows(info, url) <==>
            exists i :: VisitsUrl(TasksOfRuns(runs), i, url) && Wins(g, stored, TasksOfRuns(runs), url, i)
              && MergedBy(TasksOfRuns(runs)[i], user, WindowStart(y, m), WindowEnd(y, m))
  {
    hide *;
    var first := Step(g, org, t.repo, db, t.visit).db;
    StoredOpen(g, org, db, t);
    OpenShownIff(g, org, first, runs, t.visit.listed.url, org', user, y, m, answered, info);
  }

  lemma StoredOpen(g: Guard, org: string, db: Db, t: Task)
    requires Clean(t.visit) && t.visit.detail.value.mergedAt == "" && t.visit.listed.url !in db.prs
    ensures var first := Step(g, org, t.repo, db, t.visit).db;
            && StoredTime(first, t.visit.listed.url) == FieldTime(t.visit.detail.value.updatedAt)
            && RowAt(first, t.visit.listed.url).Some? && RowAt(first, t.visit.listed.url).value.mergedAt == 0
            && RowAt(first, t.visit.listed.url).value.url == t.visit.listed.url
  {
    hide Step, Paged, Parse;
    RowIsCurrentIff(g, org, db, t);
  }

  lemma WinnerShownIff(g: Guard, org: string, db: Db, stored: Option<int>, ts: seq<Task>, url: string, i: int,
                       org': string, user: string, lo: int, hi: int, answered: set<int>, info: UserInformationResult)
    requires AllClean(ts) && Wins(g, stored, ts, url, i) && VisitsUrl(ts, i, url)
    requires RowAt(db, url) == Some(NewRow(org, ts[i]))
    requires IsReport(db, org', user, lo, hi, answered, info)
    ensures Shows(info, url) <==> MergedBy(ts[i], user, lo, hi)
  {
    hide Clean, NewRow, IsReport, Shows, FieldTime;
    InfoOfNewRow(org, ts[i]);
    ShownIff(db, url, org', user, lo, hi, answered, info);
  }

  lemma OpenNotShown(db: Db, url: string, org: string, user: string, y: int, m: int, answered: set<int>,
                     info: UserInformationResult)
    requires RowAt(db, url).Some? && RowAt(db, url).value.mergedAt == 0 && RowAt(db, url).value.url == url
    requires IsReport(db, org, user, WindowStart(y, m), WindowEnd(y, m), answered, info)
    requires 12 * y + m != 12 * 1970 + 1
    ensures !Shows(info, url)
  {
    hide WindowStart, WindowEnd, IsReport, Shows;
    EpochWindow(y, m);
    ShownIff(db, url, org, user, WindowStart(y, m), WindowEnd(y, m), answered, info);
  }

  lemma WinnerVisits(g: Guard, stored: Option<int>, ts: seq<Task>, url: string, i: int)
    requires Wins(g, stored, ts, url, i)
    ensures VisitsUrl(ts, i, url)
  {
  }

  /** A report shows exactly the stored pull requests of its user merged in its interval. */
  lemma ShownIff(db: Db, url: string, org: string, user: string, lo: int, hi: int, answered: set<int>,
                 info: UserInformationResult)
    requires url in db.prs && db.prs[url].url == url
    requires IsReport(db, org, user, lo, hi, answered, info)
    ensures Shows(info, url) <==> db.prs[url].author == user && InRange(db.prs[url].mergedAt, lo, hi)
  {
    hide IsReviewQuery, IsJoin, GroupBy, Contributions;
    var prs: seq<PullRequest>, rows, reviews :| IsReportOf(db, user, lo, hi, answered, prs, rows, reviews, info);
    if i :| 0 <= i < |info.prs| && info.prs[i].url == url {
      assert info.prs[i] == InfoOfPullRequest(prs[i]);
      assert prs[i] == RecordOf(db.prs[prs[i].url]);
    }
    if db.prs[url].author == user && InRange(db.prs[url].mergedAt, lo, hi) {
      assert RecordOf(db.prs[url]) in prs;
      var i :| 0 <= i < |prs| && prs[i] == RecordOf(db.prs[url]);
      assert info.prs[i] == InfoOfPullRequest(prs[i]);
    }
  }

  lemma NoMergeTimeStaysOut(db: Db, url: string, org: string, user: string, y: int, m: int,
                            answered: set<int>, info: UserInformationResult, i: int)
    requires url in db.prs && db.prs[url].mergedAt == 0
    requires IsReport(db, org, user, WindowStart(y, m), WindowEnd(y, m), answered, info)
    requires 12 * y + m != 12 * 1970 + 1 && 0 <= i < |info.prs|
    ensures info.prs[i].url != url
  {
    hide WindowStart, WindowEnd, IsReviewQuery, IsJoin, GroupBy, Contributions;
    UnmergedStaysOut(db, org, user, y, m, answered, info, i);
    var prs: seq<PullRequest>, rows, reviews :|
      IsReportOf(db, user, WindowStart(y, m), WindowEnd(y, m), answered, prs, rows, reviews, info);
    assert info.prs[i] == InfoOfPullRequest(prs[i]);
    assert prs[i] == RecordOf(db.prs[prs[i].url]);
  }

  // ----- from the remote to the report

  /** The remote says that the pull request is by the user and has its merge time in the interval. */
  predicate MergedBy(t: Task, user: string, lo: int, hi: int)
    requires Clean(t.visit)
  {
    t.visit.detail.value.user == user && InRange(FieldTime(t.visit.detail.value.mergedAt).value, lo, hi)
  }

  /** How a report shows what the remote said of a pull request. */
  function InfoOfTask(t: Task): PullRequestInformation
    requires Clean(t.visit)
  {
    var api := t.visit.detail.value;
    PullRequestInformation(t.repo, api.url, api.number, api.additions, api.deletions, FieldTime(api.mergedAt).value,
                           api.state)
  }

  lemma InfoOfNewRow(org: string, t: Task)
    requires Clean(t.visit)
    ensures InfoOfPullRequest(RecordOf(NewRow(org, t))) == InfoOfTask(t)
    ensures NewRow(org, t).author == t.visit.detail.value.user && NewRow(org, t).url == t.visit.listed.url
    ensures NewRow(org, t).mergedAt == FieldTime(t.visit.detail.value.mergedAt).value
  {
    hide FieldTime, Paged;
  }

  /**
   A merged pull request whose row is current appears in the report of its author's window once, with
   the number, sizes, state and repository the remote gave.
   */
  lemma SyncedIsReported(db: Db, org: string, t: Task, org': string, user: string, lo: int, hi: int,
                         answered: set<int>, info: UserInformationResult)
    requires Clean(t.visit) && MergedBy(t, user, lo, hi)
    requires t.visit.listed.url in db.prs && db.prs[t.visit.listed.url] == NewRow(org, t)
    requires IsReport(db, org', user, lo, hi, answered, info)
    ensures exists i :: 0 <= i < |info.prs| && info.prs[i] == InfoOfTask(t)
              && forall j | 0 <= j < |info.prs| && j != i :: info.prs[j].url != t.visit.listed.url
  {
    hide IsReviewQuery, IsJoin, GroupBy, Contributions, NewRow, InfoOfTask, FieldTime, RecordOf, Paged;
    InfoOfNewRow(org, t);
    var row := NewRow(org, t);
    var prs: seq<PullRequest>, rows, reviews :| IsReportOf(db, user, lo, hi, answered, prs, rows, reviews, info);
    assert RecordOf(row) in prs;
    var i :| 0 <= i < |prs| && prs[i] == RecordOf(row);
    UrlOfRecord(row);
    assert info.prs[i] == InfoOfPullRequest(prs[i]) && prs[i].url == t.visit.listed.url;
    forall j | 0 <= j < |info.prs| && j != i ensures info.prs[j].url != t.visit.listed.url {
      assert prs[j].url != prs[i].url;
    }
  }

  lemma UrlOfRecord(row: PullRequestRow)
    ensures RecordOf(row).url == row.url
  {
  }

  /**
   The first synchronisation, over an unchanging remote: a user's report then shows exactly the
   listed pull requests that the remote says are the user's and merged in the interval, each once and
   as the remote describes it.
   */
  lemma FirstSyncReportsRemote(g: Guard, org: string, run: Run, org': string, user: string, lo: int, hi: int,
                               answered: set<int>, info: UserInformationResult)
    requires CleanRun(run) && AllAgree(TasksOfRun(run), TasksOfRun(run))
    requires IsReport(UpdateOutcome(g, org, Db(map[], map[]), run).db, org', user, lo, hi, answered, info)
    ensures forall i | 0 <= i < |TasksOfRun(run)| && MergedBy(TasksOfRun(run)[i], user, lo, hi) ::
              InfoOfTask(TasksOfRun(run)[i]) in info.prs
    ensures forall k | 0 <= k < |info.prs| ::
              exists i :: 0 <= i < |TasksOfRun(run)| && MergedBy(TasksOfRun(run)[i], user, lo, hi)
                && info.prs[k] == InfoOfTask(TasksOfRun(run)[i])
    ensures forall j, k | 0 <= j < k < |info.prs| :: info.prs[j].url != info.prs[k].url
  {
    hide UpdateOutcome, TasksOfRun, Fold, Clean, NewRow, InfoOfTask, IsReport, Agree, MergedBy, AnsweredRun;
    var empty, ts := Db(map[], map[]), TasksOfRun(run);
    CleanRunCovers(g, org, empty, run);
    FirstVisitsStoreRemote(g, org, ts);
    var db := Fold(g, org, empty, ts);
    forall i | 0 <= i < |ts| && MergedBy(ts[i], user, lo, hi) ensures InfoOfTask(ts[i]) in info.prs {
      assert RowAt(db, ts[i].visit.listed.url) == Some(NewRow(org, ts[i]));
      SyncedIsReported(db, org, ts[i], org', user, lo, hi, answered, info);
    }
    ItemsAreStored(db, org', user, lo, hi, answered, info);
    forall k | 0 <= k < |info.prs|
      ensures exists i :: 0 <= i < |ts| && MergedBy(ts[i], user, lo, hi) && info.prs[k] == InfoOfTask(ts[i])
    {
      var t :| t in ts && t.visit.listed.url == info.prs[k].url;
      var i :| 0 <= i < |ts| && ts[i] == t;
      assert RowAt(db, ts[i].visit.listed.url) == Some(NewRow(org, ts[i]));
      NewRowIsMergedBy(org, ts[i], user, lo, hi);
    }
  }

  /**
   Likewise its reviewed items show the sizes that the remote gave for a listed pull request of that
   number under the name the review is looked up by.
   */
  lemma FirstSyncReviewSizes(g: Guard, org: string, run: Run, user: string, lo: int, hi: int, answered: set<int>,
                             prs: seq<PullRequest>, rows: seq<ReviewRow>, reviews: seq<Review>,
                             info: UserInformationResult, k: int)
    requires CleanRun(run) && AllAgree(TasksOfRun(run), TasksOfRun(run))
    requires IsReportOf(UpdateOutcome(g, org, Db(map[], map[]), run).db, user, lo, hi, answered, prs, rows, reviews,
                        info)
    requires 0 <= k < |info.reviews|
    ensures exists i :: 0 <= i < |TasksOfRun(run)| && SizesFrom(info.reviews[k], TasksOfRun(run)[i])
  {
    hide UpdateOutcome, TasksOfRun, Fold, Clean, NewRow, IsReportOf, Agree, SizesFrom, AnsweredRun, StemsFrom;
    var empty, ts := Db(map[], map[]), TasksOfRun(run);
    CleanRunCovers(g, org, empty, run);
    FirstVisitsStoreRemote(g, org, ts);
    var db := Fold(g, org, empty, ts);
    ReviewsInReport(db, user, lo, hi, answered, prs, rows, reviews, info);
    var v := rows[KeptAt(rows, db.prs, answered)[k]];
    var u := MatchOf(info.reviews[k], v, db.prs);
    var t :| t in ts && t.visit.listed.url == u;
    var i :| 0 <= i < |ts| && ts[i] == t;
    assert RowAt(db, ts[i].visit.listed.url) == Some(NewRow(org, ts[i]));
    SizesOfMatch(org, info.reviews[k], v, ts[i]);
  }

  /** The item shows the sizes of the task's pull request, which has its number and its lookup name. */
  ghost predicate SizesFrom(item: ReviewInformation, t: Task) {
    && t.visit.detail.Ok?
    && item.additions == t.visit.detail.value.additions && item.deletions == t.visit.detail.value.deletions
    && item.number == t.visit.detail.value.number && IsLookupOf(t.repo, item.repository)
  }

  lemma MatchOf(item: ReviewInformation, v: ReviewRow, prs: map<string, PullRequestRow>) returns (u: string)
    requires StemsFrom(item, v, prs)
    ensures u in prs && Matches(prs[u], v)
    ensures item == ReviewInformation(v.repo, v.number, prs[u].additions, prs[u].deletions, v.state)
  {
    hide Matches;
    u :| u in prs && Matches(prs[u], v)
         && item == ReviewInformation(v.repo, v.number, prs[u].additions, prs[u].deletions, v.state);
  }

  lemma SizesOfMatch(org: string, item: ReviewInformation, v: ReviewRow, t: Task)
    requires Clean(t.visit) && Matches(NewRow(org, t), v)
    requires item == ReviewInformation(v.repo, v.number, NewRow(org, t).additions, NewRow(org, t).deletions, v.state)
    ensures SizesFrom(item, t)
  {
    hide NewRow, Matches, IsLookupOf, Parse, Paged;
    NewRowIsRemote(org, t);
    MatchesIff(NewRow(org, t), v);
  }

  lemma NewRowIsMergedBy(org: string, t: Task, user: string, lo: int, hi: int)
    requires Clean(t.visit) && NewRow(org, t).author == user && InRange(NewRow(org, t).mergedAt, lo, hi)
    ensures MergedBy(t, user, lo, hi) && InfoOfPullRequest(RecordOf(NewRow(org, t))) == InfoOfTask(t)
  {
    hide NewRow, RecordOf, FieldTime, Paged, InfoOfTask;
    InfoOfNewRow(org, t);
  }

  /** Every item of a report is that of a stored row of the user, and no URL appears twice. */
  lemma ItemsAreStored(db: Db, org: string, user: string, lo: int, hi: int, answered: set<int>,
                       info: UserInformationResult)
    requires IsReport(db, org, user, lo, hi, answered, info)
    ensures forall k | 0 <= k < |info.prs| ::
              var url := info.prs[k].url;
              && url in db.prs && db.prs[url].author == user && InRange(db.prs[url].mergedAt, lo, hi)
              && info.prs[k] == InfoOfPullRequest(RecordOf(db.prs[url]))
    ensures forall j, k | 0 <= j < k < |info.prs| :: info.prs[j].url != info.prs[k].url
  {
    hide IsReviewQuery, IsJoin, GroupBy, Contributions;
    var prs: seq<PullRequest>, rows, reviews :| IsReportOf(db, user, lo, hi, answered, prs, rows, reviews, info);
    forall k | 0 <= k < |info.prs| ensures info.prs[k] == InfoOfPullRequest(prs[k]) {
    }
  }

  /** A visit that writes stores each of its reviews under its ID, as the remote gave it. */
  lemma ReviewsAreStored(g: Guard, org: string, db: Db, t: Task, i: int)
    requires Clean(t.visit) && 0 <= i < |t.visit.reviews.value|
    requires t.visit.listed.url !in db.prs
             || ShouldUpdate(g, db.prs[t.visit.listed.url].updatedAt, ListedTime(t.visit))
    requires forall j | i < j < |t.visit.reviews.value| :: t.visit.reviews.value[j].id != t.visit.reviews.value[i].id
    ensures var v := t.visit.reviews.value[i];
            var after := Step(g, org, t.repo, db, t.visit).db.reviews;
            v.id in after
            && after[v.id] == ReviewRow(v.id, v.user, v.state, ParseTime(v.submittedAt), v.commitID, t.repo,
                                        t.visit.listed.number)
  {
    var full := ConvertedReviews(t.visit.reviews.value, t.repo, t.visit.listed.number);
    var rows := EncodeReviews(full);
    LastReviewWins(db.reviews, rows, i);
  }

  /**
   In a report over a store filled only by runs over slash-free repository names, a stored review of
   the user in the interval appears exactly when its repository name contains "decred", some
   synchronised pull request has that repository and number, and its lookup is answered. The reviews
   of all other repositories are dropped from every report.
   */
  lemma ReviewsSurviveIff(g: Guard, org: string, runs: seq<Run>, user: string, lo: int, hi: int, answered: set<int>,
                          prs: seq<PullRequest>, rows: seq<ReviewRow>, reviews: seq<Review>,
                          info: UserInformationResult, id: int)
    requires forall i, t | 0 <= i < |runs| && t in TasksOfRun(runs[i]) :: SlashFree(t.repo)
    requires var db := AfterRuns(g, org, Db(map[], map[]), runs);
             && IsReportOf(db, user, lo, hi, answered, prs, rows, reviews, info)
             && id in db.reviews && db.reviews[id].author == user && lo <= db.reviews[id].submittedAt <= hi
    ensures var db := AfterRuns(g, org, Db(map[], map[]), runs);
            var v := db.reviews[id];
            (exists k :: ReportedAs(info, k, v, rows, db.prs, answered))
            <==> && id in answered
                 && (exists before, after :: v.repo == before + "decred" + after)
                 && exists u :: u in db.prs && db.prs[u].repo == v.repo && db.prs[u].number == v.number
  {
    hide AfterRuns, SlashFree, TasksOfRun, IsReportOf, ReportedAs;
    var db := AfterRuns(g, org, Db(map[], map[]), runs);
    RunsKeepTable(g, org, runs);
    JoinOverBareNames(db.prs, db.reviews[id]);
    ReviewReportedIff(db, user, lo, hi, answered, prs, rows, reviews, info, id);
  }

  lemma {:induction false} RunsKeepTable(g: Guard, org: string, runs: seq<Run>)
    requires forall i, t | 0 <= i < |runs| && t in TasksOfRun(runs[i]) :: SlashFree(t.repo)
    ensures TableInvariant(AfterRuns(g, org, Db(map[], map[]), runs))
  {
    hide SlashFree, TasksOfRun, UpdateOutcome;
    if runs == [] {
    } else {
      var n := |runs| - 1;
      RunsKeepTable(g, org, runs[..n]);
      RunKeepsTable(g, org, AfterRuns(g, org, Db(map[], map[]), runs[..n]), runs[n]);
    }
  }
}
