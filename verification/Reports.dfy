/**
 The monthly report of a user (server/userinfo.go), from the table to the totals, and what a run
 of consecutive monthly reports says together.
 */
module Reports {
  import opened Records
  import opened Encoding
  import opened Sequences
  import opened Calendar
  import opened Store
  import opened Aggregation

  /**
   `info` reports the user's activity in [lo, hi] over the given tables, when `answered` are the IDs
   of the reviews whose pull request lookup got through.
   */
  ghost predicate IsReport(db: Db, org: string, user: string, lo: int, hi: int, answered: set<int>,
                           info: UserInformationResult) {
    && info.user == user && info.organization == org
    && exists prs, rows, reviews :: IsReportOf(db, user, lo, hi, answered, prs, rows, reviews, info)
  }

  ghost predicate IsReportOf(db: Db, user: string, lo: int, hi: int, answered: set<int>, prs: seq<PullRequest>,
                             rows: seq<ReviewRow>, reviews: seq<Review>, info: UserInformationResult) {
    && IsUserPullRequests(prs, db.prs, user, lo, hi)
    && IsReviewQuery(rows, db.reviews, user, lo, hi)
    && IsJoin(rows, db.prs, answered, reviews)
    && info.prs == InfosOfPullRequests(prs)
    && info.reviews == InfosOfReviews(reviews)
    && info.repoDetails == GroupBy(Contributions(prs, reviews))
  }

  // ----- windows tile time

  /** How many of the n month windows from index `first` hold the instant t. */
  function CountWindows(t: int, first: int, n: nat): nat {
    if n == 0 then 0
    else CountWindows(t, first, n - 1) + if InRange(t, Boundary(first + n - 1), Boundary(first + n)) then 1 else 0
  }

  ghost predicate IsInnerBoundary(t: int, first: int, n: nat) {
    exists k :: first < k < first + n && t == Boundary(k)
  }

  /**
   Between the outer boundaries an instant lies in exactly one window, or in two when it is itself
   an inner boundary; outside it lies in none.
   */
  lemma {:induction false} WindowsTile(t: int, first: int, n: nat)
    requires n > 0
    ensures CountWindows(t, first, n)
         == if !InRange(t, Boundary(first), Boundary(first + n)) then 0
            else if IsInnerBoundary(t, first, n) then 2 else 1
  {
    hide Boundary;
    var last := first + n - 1;
    BoundaryOrder(last, first + n);
    if n == 1 {
      assert CountWindows(t, first, 0) == 0;
    } else {
      WindowsTile(t, first, n - 1);
      BoundaryOrder(first, last);
      if t == Boundary(last) {
        assert IsInnerBoundary(t, first, n);
        if k :| first < k < last && t == Boundary(k) {
          BoundaryOrder(k, last);
        }
      } else if t < Boundary(last) {
        assert IsInnerBoundary(t, first, n) <==> IsInnerBoundary(t, first, n - 1);
      } else if k :| first < k < first + n && t == Boundary(k) {
        if k < last {
          BoundaryOrder(k, last);
        }
      }
    }
  }

  // ----- monthly totals

  /** `part` is, up to order, what of `span` has its time in [lo, hi]. */
  ghost predicate IsPart<T(!new)>(part: seq<T>, span: seq<T>, time: T -> int, lo: int, hi: int) {
    && Distinct(part) && Distinct(span)
    && forall x :: x in part <==> x in span && InRange(time(x), lo, hi)
  }

  function Within<T>(w: T -> int, time: T -> int, lo: int, hi: int): T -> int {
    (x: T) => if InRange(time(x), lo, hi) then w(x) else 0
  }

  lemma SumOfPart<T(!new)>(w: T -> int, part: seq<T>, span: seq<T>, time: T -> int, lo: int, hi: int)
    requires IsPart(part, span, time, lo, hi)
    ensures SumBy(w, part) == SumBy(Within(w, time, lo, hi), span)
  {
    var inside := (x: T) => InRange(time(x), lo, hi);
    var sub := Filter(inside, span);
    forall x ensures x in part <==> x in sub {
      FilterMembers(inside, span, x);
    }
    FilterKeepsDistinct(inside, span);
    SameElements(part, sub);
    SumByPermutation(w, part, sub);
    SumByFilter(w, inside, Within(w, time, lo, hi), span);
  }

  function MergeTime(): PullRequest -> int {
    (p: PullRequest) => p.mergedAt
  }

  /** A query over part of a span returns the part of the span's query in it. */
  lemma PartOfSpan(prs: map<string, PullRequestRow>, user: string, lo: int, hi: int, a: int, b: int,
                   part: seq<PullRequest>, span: seq<PullRequest>)
    requires IsUserPullRequests(part, prs, user, lo, hi)
    requires IsUserPullRequests(span, prs, user, a, b)
    requires a <= lo && hi <= b
    ensures IsPart(part, span, MergeTime(), lo, hi)
  {
  }

  function SumMonths(w: PullRequest -> int, months: seq<seq<PullRequest>>): int {
    if months == [] then 0 else SumMonths(w, months[..|months| - 1]) + SumBy(w, months[|months| - 1])
  }

  /** The results of the monthly queries from month index `first` on. */
  ghost predicate AreMonthlyQueries(months: seq<seq<PullRequest>>, prs: map<string, PullRequestRow>,
                                    user: string, first: int) {
    forall k | 0 <= k < |months| ::
      IsUserPullRequests(months[k], prs, user, Boundary(first + k), Boundary(first + k + 1))
  }

  function Times(w: PullRequest -> int, first: int, n: nat): PullRequest -> int {
    (p: PullRequest) => w(p) * CountWindows(p.mergedAt, first, n)
  }

  lemma NoMonths(w: PullRequest -> int, first: int, span: seq<PullRequest>)
    ensures SumBy(Times(w, first, 0), span) == 0
  {
    SumByBound(Times(w, first, 0), span, 0);
  }

  lemma OneMoreMonth(w: PullRequest -> int, first: int, n: nat, p: PullRequest)
    requires n > 0
    ensures Times(w, first, n)(p)
         == Times(w, first, n - 1)(p) + Within(w, MergeTime(), Boundary(first + n - 1), Boundary(first + n))(p)
  {
    hide Boundary;
    var before := CountWindows(p.mergedAt, first, n - 1);
    var now := if InRange(p.mergedAt, Boundary(first + n - 1), Boundary(first + n)) then 1 else 0;
    assert CountWindows(p.mergedAt, first, n) == before + now;
    assert w(p) * (before + now) == w(p) * before + w(p) * now;
  }

  lemma {:induction false} MonthsCount(w: PullRequest -> int, months: seq<seq<PullRequest>>,
                                       prs: map<string, PullRequestRow>, user: string, first: int,
                                       a: int, b: int, span: seq<PullRequest>)
    requires AreMonthlyQueries(months, prs, user, first)
    requires IsUserPullRequests(span, prs, user, a, b)
    requires a <= Boundary(first) && Boundary(first + |months|) <= b
    ensures SumMonths(w, months) == SumBy(Times(w, first, |months|), span)
  {
    hide Boundary, IsUserPullRequests, Times, Within, IsPart, SumBy;
    var n := |months|;
    if n == 0 {
      NoMonths(w, first, span);
    } else {
      var lo, hi := Boundary(first + n - 1), Boundary(first + n);
      BoundaryOrder(first + n - 1, first + n);
      if n > 1 {
        BoundaryOrder(first, first + n - 1);
      }
      MonthsCount(w, months[..n - 1], prs, user, first, a, b, span);
      PartOfSpan(prs, user, lo, hi, a, b, months[n - 1], span);
      SumOfPart(w, months[n - 1], span, MergeTime(), lo, hi);
      forall p | p in span
        ensures Times(w, first, n)(p) == Times(w, first, n - 1)(p) + Within(w, MergeTime(), lo, hi)(p)
      {
        OneMoreMonth(w, first, n, p);
      }
      SumByPointwise(Times(w, first, n - 1), Within(w, MergeTime(), lo, hi), Times(w, first, n), span);
    }
  }

  ghost function OnInnerBoundary(first: int, n: nat): PullRequest -> bool {
    (p: PullRequest) => IsInnerBoundary(p.mergedAt, first, n)
  }

  ghost function BoundaryExtra(w: PullRequest -> int, first: int, n: nat): PullRequest -> int {
    (p: PullRequest) => if IsInnerBoundary(p.mergedAt, first, n) then w(p) else 0
  }

  /**
   Month tiling: for every additive measure w of pull requests, n consecutive monthly queries
   measure what one query over the whole span measures, plus once more the pull requests merged
   exactly on an inner boundary.
   */
  lemma MonthTiling(w: PullRequest -> int, months: seq<seq<PullRequest>>, prs: map<string, PullRequestRow>,
                    user: string, first: int, span: seq<PullRequest>)
    requires |months| > 0 && AreMonthlyQueries(months, prs, user, first)
    requires IsUserPullRequests(span, prs, user, Boundary(first), Boundary(first + |months|))
    ensures SumMonths(w, months) == SumBy(w, span) + SumBy(w, Filter(OnInnerBoundary(first, |months|), span))
  {
    hide Boundary, SumBy, Filter, Times, BoundaryExtra, OnInnerBoundary, CountWindows, IsInnerBoundary;
    var n := |months|;
    MonthsCount(w, months, prs, user, first, Boundary(first), Boundary(first + n), span);
    ExtraOnBoundaries(w, first, n, span);
    forall p | p in span ensures Times(w, first, n)(p) == w(p) + BoundaryExtra(w, first, n)(p) {
      CountedTimes(w, first, n, p);
    }
    SumByPointwise(w, BoundaryExtra(w, first, n), Times(w, first, n), span);
  }

  lemma ExtraOnBoundaries(w: PullRequest -> int, first: int, n: nat, span: seq<PullRequest>)
    ensures SumBy(w, Filter(OnInnerBoundary(first, n), span)) == SumBy(BoundaryExtra(w, first, n), span)
  {
    SumByFilter(w, OnInnerBoundary(first, n), BoundaryExtra(w, first, n), span);
  }

  lemma CountedTimes(w: PullRequest -> int, first: int, n: nat, p: PullRequest)
    requires n > 0 && InRange(p.mergedAt, Boundary(first), Boundary(first + n))
    ensures Times(w, first, n)(p) == w(p) + BoundaryExtra(w, first, n)(p)
  {
    hide Boundary, IsInnerBoundary, InRange;
    WindowsTile(p.mergedAt, first, n);
  }

  ghost predicate Lists(prs: seq<PullRequest>, url: string) {
    exists p :: p in prs && p.url == url
  }

  ghost function MonthsListing(url: string, months: seq<seq<PullRequest>>): nat {
    if months == [] then 0
    else MonthsListing(url, months[..|months| - 1]) + if Lists(months[|months| - 1], url) then 1 else 0
  }

  lemma ListsWhenSelected(prs: seq<PullRequest>, db: Db, user: string, lo: int, hi: int, url: string)
    requires WellKeyed(db) && url in db.prs && db.prs[url].author == user
    requires IsUserPullRequests(prs, db.prs, user, lo, hi)
    ensures Lists(prs, url) <==> InRange(db.prs[url].mergedAt, lo, hi)
  {
    var p := RecordOf(db.prs[url]);
    assert p.url == url && p.mergedAt == db.prs[url].mergedAt;
    if q :| q in prs && q.url == url {
      var i :| 0 <= i < |prs| && prs[i] == q;
      assert q == p;
    }
    if InRange(p.mergedAt, lo, hi) {
      assert p in prs;
    }
  }

  /**
   A stored pull request of the user is listed in exactly one of n consecutive months when it was
   merged between the outer boundaries, in exactly two when merged on an inner boundary, and in
   none otherwise.
   */
  lemma {:induction false} ListedOnce(months: seq<seq<PullRequest>>, db: Db, user: string, first: int, url: string)
    requires WellKeyed(db) && url in db.prs && db.prs[url].author == user
    requires AreMonthlyQueries(months, db.prs, user, first)
    ensures MonthsListing(url, months) == CountWindows(db.prs[url].mergedAt, first, |months|)
  {
    hide Boundary, IsUserPullRequests, Lists, WellKeyed, InRange;
    if months == [] {
    } else {
      var n := |months| - 1;
      ListedOnce(months[..n], db, user, first, url);
      ListsWhenSelected(months[n], db, user, Boundary(first + n), Boundary(first + n + 1), url);
    }
  }

  // ----- the reports themselves

  function SizeOf(col: Column): PullRequest -> int {
    (p: PullRequest) => Amount(col, Merged(p))
  }

  lemma {:induction false} MergeTotal(col: Column, prs: seq<PullRequest>, reviews: seq<Review>)
    requires col == MergeAdditions || col == MergeDeletions
    ensures Total(col, Contributions(prs, reviews)) == SumBy(SizeOf(col), prs)
    decreases |prs| + |reviews|
  {
    var cs := Contributions(prs, reviews);
    if |reviews| > 0 {
      var init := reviews[..|reviews| - 1];
      MergeTotal(col, prs, init);
      assert cs[..|cs| - 1] == Contributions(prs, init);
    } else if |prs| > 0 {
      var init := prs[..|prs| - 1];
      MergeTotal(col, init, reviews);
      assert cs[..|cs| - 1] == Contributions(init, reviews);
    }
  }

  function SumReports(col: Column, infos: seq<UserInformationResult>): int {
    if infos == [] then 0
    else SumReports(col, infos[..|infos| - 1]) + ColumnSum(col, infos[|infos| - 1].repoDetails)
  }

  /** The reports of consecutive months, each with its own set of answered lookups. */
  ghost predicate AreMonthlyReports(infos: seq<UserInformationResult>, answered: seq<set<int>>, db: Db, org: string,
                                    user: string, first: int) {
    && |answered| == |infos|
    && forall k | 0 <= k < |infos| ::
         IsReport(db, org, user, Boundary(first + k), Boundary(first + k + 1), answered[k], infos[k])
  }

  /** The merge columns of a report in terms of the pull requests it reports. */
  ghost predicate Measures(info: UserInformationResult, prs: seq<PullRequest>) {
    && info.prs == InfosOfPullRequests(prs)
    && forall col | col == MergeAdditions || col == MergeDeletions ::
         Wrap64(ColumnSum(col, info.repoDetails)) == Wrap64(SumBy(SizeOf(col), prs))
         && (InRangeOf64(info) ==> ColumnSum(col, info.repoDetails) == SumBy(SizeOf(col), prs))
  }

  predicate Within64(info: UserInformationResult, bound: int) {
    && 0 <= bound && (|info.prs| + |info.reviews|) * bound < TWO_63
    && (forall i | 0 <= i < |info.prs| ::
          -bound <= info.prs[i].additions <= bound && -bound <= info.prs[i].deletions <= bound)
  }

  /** The number of reported items times the largest size of a reported pull request is below 2^63. */
  ghost predicate InRangeOf64(info: UserInformationResult) {
    exists bound :: Within64(info, bound)
  }

  lemma MergedIsExact(col: Column, prs: seq<PullRequest>, reviews: seq<Review>, info: UserInformationResult,
                      bound: int)
    requires col == MergeAdditions || col == MergeDeletions
    requires info.prs == InfosOfPullRequests(prs) && info.reviews == InfosOfReviews(reviews)
    requires Within64(info, bound)
    ensures ColumnSum(col, GroupBy(Contributions(prs, reviews))) == SumBy(SizeOf(col), prs)
  {
    hide ColumnSum, GroupBy, SumBy, Total;
    var cs := Contributions(prs, reviews);
    forall c | c in cs ensures -bound <= Amount(col, c) <= bound {
      var i :| 0 <= i < |cs| && cs[i] == c;
      if i < |prs| {
        assert info.prs[i] == InfoOfPullRequest(prs[i]);
      }
    }
    NoOverflow(col, cs, bound);
    MergeTotal(col, prs, reviews);
  }

  lemma QueryOfReport(info: UserInformationResult, answered: set<int>, db: Db, org: string, user: string,
                      lo: int, hi: int) returns (prs: seq<PullRequest>)
    requires IsReport(db, org, user, lo, hi, answered, info)
    ensures IsUserPullRequests(prs, db.prs, user, lo, hi) && Measures(info, prs)
  {
    hide IsUserPullRequests, Wrap64, ColumnSum, SumBy, GroupBy, Contributions, Total, IsReviewQuery, IsJoin, Within64;
    var rows, reviews;
    prs, rows, reviews :| IsReportOf(db, user, lo, hi, answered, prs, rows, reviews, info);
    forall col | col == MergeAdditions || col == MergeDeletions
      ensures Wrap64(ColumnSum(col, info.repoDetails)) == Wrap64(SumBy(SizeOf(col), prs))
      ensures InRangeOf64(info) ==> ColumnSum(col, info.repoDetails) == SumBy(SizeOf(col), prs)
    {
      ReportConservesTotals(col, Contributions(prs, reviews));
      MergeTotal(col, prs, reviews);
      if bound :| Within64(info, bound) {
        MergedIsExact(col, prs, reviews, info, bound);
      }
    }
  }

  lemma {:induction false} QueriesOfReports(infos: seq<UserInformationResult>, answered: seq<set<int>>, db: Db,
                                            org: string, user: string, first: int)
    returns (months: seq<seq<PullRequest>>)
    requires AreMonthlyReports(infos, answered, db, org, user, first)
    ensures |months| == |infos| && AreMonthlyQueries(months, db.prs, user, first)
    ensures forall k | 0 <= k < |infos| :: Measures(infos[k], months[k])
  {
    hide Boundary, IsUserPullRequests, IsReport, Measures;
    if infos == [] {
      months := [];
    } else {
      var n := |infos| - 1;
      var init := QueriesOfReports(infos[..n], answered[..n], db, org, user, first);
      var last := QueryOfReport(infos[n], answered[n], db, org, user, Boundary(first + n), Boundary(first + n + 1));
      months := init + [last];
      assert forall k | 0 <= k < n :: infos[..n][k] == infos[k];
    }
  }

  lemma {:induction false} MeasuredSums(col: Column, infos: seq<UserInformationResult>,
                                        months: seq<seq<PullRequest>>)
    requires col == MergeAdditions || col == MergeDeletions
    requires |months| == |infos| && forall k | 0 <= k < |infos| :: Measures(infos[k], months[k])
    ensures Wrap64(SumReports(col, infos)) == Wrap64(SumMonths(SizeOf(col), months))
    ensures (forall k | 0 <= k < |infos| :: InRangeOf64(infos[k])) ==>
              SumReports(col, infos) == SumMonths(SizeOf(col), months)
  {
    hide Wrap64, ColumnSum, SumBy, InRangeOf64;
    if infos == [] {
    } else {
      var n := |infos| - 1;
      MeasuredSums(col, infos[..n], months[..n]);
      assert Measures(infos[n], months[n]);
      WrapSums(SumReports(col, infos[..n]), SumMonths(SizeOf(col), months[..n]),
               ColumnSum(col, infos[n].repoDetails), SumBy(SizeOf(col), months[n]));
    }
  }

  lemma WrapSums(a: int, b: int, x: int, y: int)
    requires Wrap64(a) == Wrap64(b) && Wrap64(x) == Wrap64(y)
    ensures Wrap64(a + x) == Wrap64(b + y)
  {
    hide *;
    WrapBothTerms(a, x);
    WrapBothTerms(b, y);
  }

  /**
   End to end: the merge columns of n consecutive monthly reports add up, modulo 2^64, to the sizes
   of the user's pull requests merged in the whole span plus once more those on inner boundaries; and
   exactly so when in every report the number of items times the largest pull request is below 2^63.
   */
  lemma ReportsTile(col: Column, infos: seq<UserInformationResult>, answered: seq<set<int>>, db: Db, org: string,
                    user: string, first: int, span: seq<PullRequest>)
    requires col == MergeAdditions || col == MergeDeletions
    requires |infos| > 0 && AreMonthlyReports(infos, answered, db, org, user, first)
    requires IsUserPullRequests(span, db.prs, user, Boundary(first), Boundary(first + |infos|))
    ensures Wrap64(SumReports(col, infos))
         == Wrap64(SumBy(SizeOf(col), span) + SumBy(SizeOf(col), Filter(OnInnerBoundary(first, |infos|), span)))
    ensures (forall k | 0 <= k < |infos| :: InRangeOf64(infos[k])) ==>
              SumReports(col, infos)
              == SumBy(SizeOf(col), span) + SumBy(SizeOf(col), Filter(OnInnerBoundary(first, |infos|), span))
  {
    hide *;
    var months := QueriesOfReports(infos, answered, db, org, user, first);
    MeasuredSums(col, infos, months);
    MonthTiling(SizeOf(col), months, db.prs, user, first, span);
  }

  lemma MeasuresItems(info: UserInformationResult, prs: seq<PullRequest>)
    requires Measures(info, prs)
    ensures info.prs == InfosOfPullRequests(prs)
  {
  }

  ghost predicate Shows(info: UserInformationResult, url: string) {
    exists i :: 0 <= i < |info.prs| && info.prs[i].url == url
  }

  ghost function ReportsShowing(url: string, infos: seq<UserInformationResult>): nat {
    if infos == [] then 0
    else ReportsShowing(url, infos[..|infos| - 1]) + if Shows(infos[|infos| - 1], url) then 1 else 0
  }

  lemma {:induction false} ShowingIsListing(url: string, infos: seq<UserInformationResult>,
                                            months: seq<seq<PullRequest>>)
    requires |months| == |infos|
    requires forall k | 0 <= k < |infos| :: infos[k].prs == InfosOfPullRequests(months[k])
    ensures ReportsShowing(url, infos) == MonthsListing(url, months)
  {
    if infos == [] {
    } else {
      var n := |infos| - 1;
      ShowingIsListing(url, infos[..n], months[..n]);
      if i :| 0 <= i < |infos[n].prs| && infos[n].prs[i].url == url {
        assert months[n][i] in months[n];
      }
      if p :| p in months[n] && p.url == url {
        var i :| 0 <= i < |months[n]| && months[n][i] == p;
        assert infos[n].prs[i].url == url;
      }
    }
  }

  /**
   A stored pull request of the user is shown in as many of n consecutive reports as windows hold its
   merge time: one, two on an inner boundary, or none (`WindowsTile`).
   */
  lemma ReportedOnce(infos: seq<UserInformationResult>, answered: seq<set<int>>, db: Db, org: string,
                     user: string, first: int, url: string)
    requires AreMonthlyReports(infos, answered, db, org, user, first)
    requires WellKeyed(db) && url in db.prs && db.prs[url].author == user
    ensures ReportsShowing(url, infos) == CountWindows(db.prs[url].mergedAt, first, |infos|)
  {
    hide *;
    var months := QueriesOfReports(infos, answered, db, org, user, first);
    ListedOnce(months, db, user, first, url);
    forall k | 0 <= k < |infos| ensures infos[k].prs == InfosOfPullRequests(months[k]) {
      MeasuresItems(infos[k], months[k]);
    }
    ShowingIsListing(url, infos, months);
  }

  /** A pull request stored with MergedAt 0 is in no report except that of January 1970. */
  lemma UnmergedStaysOut(db: Db, org: string, user: string, y: int, m: int, answered: set<int>,
                         info: UserInformationResult, i: int)
    requires IsReport(db, org, user, WindowStart(y, m), WindowEnd(y, m), answered, info)
    requires 12 * y + m != 12 * 1970 + 1
    requires 0 <= i < |info.prs|
    ensures info.prs[i].mergedAt != 0
  {
    EpochWindow(y, m);
    var lo, hi := WindowStart(y, m), WindowEnd(y, m);
    var prs: seq<PullRequest>, rows, reviews :| IsReportOf(db, user, lo, hi, answered, prs, rows, reviews, info);
    assert info.prs[i].mergedAt == prs[i].mergedAt;
    assert InRange(prs[i].mergedAt, lo, hi);
  }

  // ----- reviews

  /** A reported item shows a review's own data and the sizes of a pull request it matches. */
  ghost predicate StemsFrom(item: ReviewInformation, v: ReviewRow, prs: map<string, PullRequestRow>) {
    exists u :: u in prs && Matches(prs[u], v)
      && item == ReviewInformation(v.repo, v.number, prs[u].additions, prs[u].deletions, v.state)
  }

  /**
   The reviewed items of a report are, in order, those of the kept rows: the user's reviews in the
   interval whose lookup was answered and found a pull request.
   */
  lemma ReviewsInReport(db: Db, user: string, lo: int, hi: int, answered: set<int>, prs: seq<PullRequest>,
                        rows: seq<ReviewRow>, reviews: seq<Review>, info: UserInformationResult)
    requires IsReportOf(db, user, lo, hi, answered, prs, rows, reviews, info)
    ensures |info.reviews| == |KeptAt(rows, db.prs, answered)|
    ensures forall k | 0 <= k < |info.reviews| ::
              var v := rows[KeptAt(rows, db.prs, answered)[k]];
              v.author == user && lo <= v.submittedAt <= hi && StemsFrom(info.reviews[k], v, db.prs)
  {
    hide IsUserPullRequests, IsJoin, GroupBy, Contributions, Matches, Kept;
    JoinIsSubsequence(rows, db.prs, answered, reviews);
    var at := KeptAt(rows, db.prs, answered);
    forall k | 0 <= k < |info.reviews| ensures StemsFrom(info.reviews[k], rows[at[k]], db.prs) {
      assert IsJoined(db.prs, rows[at[k]], reviews[k]);
      assert info.reviews[k] == InfoOfReview(reviews[k]);
    }
  }

  /** Item k of the report is the one review v contributes. */
  ghost predicate ReportedAs(info: UserInformationResult, k: int, v: ReviewRow, rows: seq<ReviewRow>,
                             prs: map<string, PullRequestRow>, answered: set<int>) {
    && 0 <= k < |info.reviews| && k < |KeptAt(rows, prs, answered)|
    && rows[KeptAt(rows, prs, answered)[k]] == v && StemsFrom(info.reviews[k], v, prs)
  }

  /**
   A stored review of the user in the interval is reported exactly if its lookup is answered and it
   has a matching pull request; a lookup that fails drops it without an error.
   */
  lemma ReviewReportedIff(db: Db, user: string, lo: int, hi: int, answered: set<int>, prs: seq<PullRequest>,
                          rows: seq<ReviewRow>, reviews: seq<Review>, info: UserInformationResult, id: int)
    requires WellKeyed(db) && IsReportOf(db, user, lo, hi, answered, prs, rows, reviews, info)
    requires id in db.reviews && db.reviews[id].author == user && lo <= db.reviews[id].submittedAt <= hi
    ensures (exists k :: ReportedAs(info, k, db.reviews[id], rows, db.prs, answered))
            <==> id in answered && HasMatch(db.prs, db.reviews[id])
  {
    hide IsUserPullRequests, IsJoin, GroupBy, Contributions, StemsFrom, HasMatch;
    ReviewsInReport(db, user, lo, hi, answered, prs, rows, reviews, info);
    var v, at := db.reviews[id], KeptAt(rows, db.prs, answered);
    assert v.id == id && v in rows;
    if Kept(db.prs, answered, v) {
      var i :| 0 <= i < |rows| && rows[i] == v;
      var k :| 0 <= k < |at| && at[k] == i;
      assert ReportedAs(info, k, v, rows, db.prs, answered);
    }
  }

  /** A concrete loss: both queries succeed, the pull request is there, and its review is not reported. */
  lemma UnansweredReviewIsLost(db: Db, org: string, row: PullRequestRow, v: ReviewRow,
                               info: UserInformationResult, full: UserInformationResult)
    requires row == PullRequestRow("decred-web", org, "u", 1, "ann", 4, 0, 4, false, "closed", 3, 2, "", [], [])
    requires v == ReviewRow(7, "bob", "APPROVED", 5, "c0", "decred-web", 1)
    requires db == Db(map["u" := row], map[7 := v])
    requires IsReport(db, org, "bob", 0, 9, {}, info) && IsReport(db, org, "bob", 0, 9, {7}, full)
    ensures HasMatch(db.prs, v) && info.reviews == []
    ensures full.reviews == [ReviewInformation("decred-web", 1, 3, 2, "APPROVED")]
  {
    hide IsUserPullRequests, GroupBy, Contributions;
    assert OccursAt("decred-web", ORG, 0);
    assert Matches(db.prs["u"], v);
    OnlyRow(db, v, org, {}, info);
    OnlyRow(db, v, org, {7}, full);
  }

  lemma OnlyRow(db: Db, v: ReviewRow, org: string, answered: set<int>, info: UserInformationResult)
    requires db.reviews == map[7 := v] && v.id == 7 && v.author == "bob" && v.submittedAt == 5
    requires IsReport(db, org, "bob", 0, 9, answered, info)
    ensures if Kept(db.prs, answered, v) then |info.reviews| == 1 && StemsFrom(info.reviews[0], v, db.prs)
            else info.reviews == []
  {
    hide IsUserPullRequests, GroupBy, Contributions, StemsFrom, HasMatch, IsJoin;
    var prs, rows: seq<ReviewRow>, reviews :| IsReportOf(db, "bob", 0, 9, answered, prs, rows, reviews, info);
    ReviewsInReport(db, "bob", 0, 9, answered, prs, rows, reviews, info);
    assert db.reviews[7] in rows;
    var last := |rows| - 1;
    assert rows[0].id == 7 && rows[last].id == 7;
    assert rows == [v];
    assert rows[..0] == [] && KeptAt(rows[..0], db.prs, answered) == [];
  }

  function SubmissionTime(): ReviewRow -> int {
    (v: ReviewRow) => v.submittedAt
  }

  ghost function KeptOne(prs: map<string, PullRequestRow>, answered: set<int>): ReviewRow -> int {
    (v: ReviewRow) => if Kept(prs, answered, v) then 1 else 0
  }

  lemma {:induction false} KeptAtCount(rows: seq<ReviewRow>, prs: map<string, PullRequestRow>, answered: set<int>)
    ensures |KeptAt(rows, prs, answered)| == SumBy(KeptOne(prs, answered), rows)
  {
    hide Kept;
    if rows == [] {
    } else {
      KeptAtCount(rows[..|rows| - 1], prs, answered);
    }
  }

  /** In how many reports a review appears if it has a match: windows that hold it and answered its lookup. */
  function TimesAnswered(v: ReviewRow, first: int, answered: seq<set<int>>): nat {
    if answered == [] then 0
    else
      var k := |answered| - 1;
      TimesAnswered(v, first, answered[..k])
      + if InRange(v.submittedAt, Boundary(first + k), Boundary(first + k + 1)) && v.id in answered[k] then 1 else 0
  }

  ghost function MatchedTimes(prs: map<string, PullRequestRow>, first: int, answered: seq<set<int>>): ReviewRow -> int {
    (v: ReviewRow) => if HasMatch(prs, v) then TimesAnswered(v, first, answered) else 0
  }

  function CountReviews(infos: seq<UserInformationResult>): nat {
    if infos == [] then 0 else CountReviews(infos[..|infos| - 1]) + |infos[|infos| - 1].reviews|
  }

  lemma ReviewsOfReport(info: UserInformationResult, answered: set<int>, db: Db, org: string, user: string,
                        lo: int, hi: int, a: int, b: int, span: seq<ReviewRow>)
    requires IsReport(db, org, user, lo, hi, answered, info)
    requires IsReviewQuery(span, db.reviews, user, a, b) && a <= lo && hi <= b
    ensures |info.reviews| == SumBy(Within(KeptOne(db.prs, answered), SubmissionTime(), lo, hi), span)
  {
    hide IsUserPullRequests, GroupBy, Contributions, Kept, IsJoin, KeptAt, SumBy, StemsFrom;
    var prs, rows, reviews :| IsReportOf(db, user, lo, hi, answered, prs, rows, reviews, info);
    ReviewsInReport(db, user, lo, hi, answered, prs, rows, reviews, info);
    KeptAtCount(rows, db.prs, answered);
    assert IsPart(rows, span, SubmissionTime(), lo, hi);
    SumOfPart(KeptOne(db.prs, answered), rows, span, SubmissionTime(), lo, hi);
  }

  /**
   Reviews over n consecutive reports: each of the user's reviews in the span that has a match is
   counted once for every month whose window holds it and whose lookup of it was answered.
   */
  lemma {:induction false} ReviewsOverMonths(infos: seq<UserInformationResult>, answered: seq<set<int>>, db: Db,
                                             org: string, user: string, first: int, a: int, b: int,
                                             span: seq<ReviewRow>)
    requires AreMonthlyReports(infos, answered, db, org, user, first)
    requires IsReviewQuery(span, db.reviews, user, a, b)
    requires a <= Boundary(first) && Boundary(first + |infos|) <= b
    ensures CountReviews(infos) == SumBy(MatchedTimes(db.prs, first, answered), span)
  {
    hide Boundary, IsReviewQuery, IsReport, HasMatch;
    var n := |infos|;
    if n == 0 {
      SumByBound(MatchedTimes(db.prs, first, answered), span, 0);
    } else {
      var lo, hi := Boundary(first + n - 1), Boundary(first + n);
      BoundaryOrder(first + n - 1, first + n);
      if n > 1 {
        BoundaryOrder(first, first + n - 1);
      }
      var init, last := answered[..n - 1], answered[n - 1];
      ReviewsOverMonths(infos[..n - 1], init, db, org, user, first, a, b, span);
      ReviewsOfReport(infos[n - 1], last, db, org, user, lo, hi, a, b, span);
      SumByPointwise(MatchedTimes(db.prs, first, init), Within(KeptOne(db.prs, last), SubmissionTime(), lo, hi),
                     MatchedTimes(db.prs, first, answered), span);
    }
  }

  ghost function MatchedOne(prs: map<string, PullRequestRow>): ReviewRow -> int {
    (v: ReviewRow) => if HasMatch(prs, v) then 1 else 0
  }

  ghost function ReviewedOnInnerBoundary(first: int, n: nat): ReviewRow -> bool {
    (v: ReviewRow) => IsInnerBoundary(v.submittedAt, first, n)
  }

  ghost function ReviewExtra(prs: map<string, PullRequestRow>, first: int, n: nat): ReviewRow -> int {
    (v: ReviewRow) => if IsInnerBoundary(v.submittedAt, first, n) && HasMatch(prs, v) then 1 else 0
  }

  lemma {:induction false} AnsweredInAllWindows(v: ReviewRow, first: int, answered: seq<set<int>>)
    requires forall k | 0 <= k < |answered| :: v.id in answered[k]
    ensures TimesAnswered(v, first, answered) == CountWindows(v.submittedAt, first, |answered|)
  {
    hide Boundary, InRange;
    if answered == [] {
    } else {
      AnsweredInAllWindows(v, first, answered[..|answered| - 1]);
    }
  }

  /**
   When no lookup fails, n consecutive reports count the span's matched reviews plus, once more,
   those submitted exactly on an inner boundary.
   */
  lemma ReviewsTile(infos: seq<UserInformationResult>, answered: seq<set<int>>, db: Db, org: string, user: string,
                    first: int, span: seq<ReviewRow>)
    requires |infos| > 0 && AreMonthlyReports(infos, answered, db, org, user, first)
    requires IsReviewQuery(span, db.reviews, user, Boundary(first), Boundary(first + |infos|))
    requires forall k, v | 0 <= k < |answered| && v in span :: v.id in answered[k]
    ensures CountReviews(infos)
         == SumBy(MatchedOne(db.prs), span)
            + SumBy(MatchedOne(db.prs), Filter(ReviewedOnInnerBoundary(first, |infos|), span))
  {
    hide Boundary, HasMatch, SumBy, Filter, AreMonthlyReports, TimesAnswered, CountWindows, IsInnerBoundary;
    var n, lo, hi := |infos|, Boundary(first), Boundary(first + |infos|);
    assert |answered| == n by {
      AnswersPerReport(infos, answered, db, org, user, first);
    }
    ReviewsOverMonths(infos, answered, db, org, user, first, lo, hi, span);
    SumByFilter(MatchedOne(db.prs), ReviewedOnInnerBoundary(first, n), ReviewExtra(db.prs, first, n), span);
    forall v | v in span
      ensures MatchedTimes(db.prs, first, answered)(v) == MatchedOne(db.prs)(v) + ReviewExtra(db.prs, first, n)(v)
    {
      assert InRange(v.submittedAt, lo, hi);
      AnsweredInAllWindows(v, first, answered);
      WindowsTile(v.submittedAt, first, n);
    }
    SumByPointwise(MatchedOne(db.prs), ReviewExtra(db.prs, first, n), MatchedTimes(db.prs, first, answered), span);
  }

  lemma AnswersPerReport(infos: seq<UserInformationResult>, answered: seq<set<int>>, db: Db, org: string,
                         user: string, first: int)
    requires AreMonthlyReports(infos, answered, db, org, user, first)
    ensures |answered| == |infos|
  {
  }
}
