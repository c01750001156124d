/**
 The per-repository totals of a user's report (server/convert.go). The loops search the rows
 built so far and overwrite the one they find; the specification is a group-by over the list
 of contributions, stated by filters and sums. Totals are 64-bit and wrap.
 */
module Aggregation {
  import opened Records
  import opened Sequences

  // ----- 64-bit sums

  const TWO_63 := 0x8000_0000_0000_0000
  const TWO_64 := 0x1_0000_0000_0000_0000

  /** The int64 value congruent to x modulo 2^64. */
  function Wrap64(x: int): int { (x + TWO_63) % TWO_64 - TWO_63 }

  function Add64(x: int, y: int): int { Wrap64(x + y) }

  predicate IsInt64(x: int) { -TWO_63 <= x < TWO_63 }

  lemma WrapIsCongruent(x: int)
    ensures IsInt64(Wrap64(x)) && (x - Wrap64(x)) % TWO_64 == 0
    ensures IsInt64(x) ==> Wrap64(x) == x
  {
  }

  /** The range is that of a signed 64-bit integer, and one past its end is its beginning. */
  lemma WrapsAtInt64()
    ensures IsInt64(9223372036854775807) && IsInt64(-9223372036854775808)
    ensures Wrap64(9223372036854775807 + 1) == -9223372036854775808
    ensures Wrap64(-9223372036854775808 - 1) == 9223372036854775807
  {
  }

  /** Wrapping early or late makes no difference to a sum. */
  lemma AddWrapped(x: int, y: int)
    ensures Wrap64(Wrap64(x) + y) == Wrap64(x + y)
  {
    var k := (x + TWO_63) / TWO_64;
    assert Wrap64(x) + y + TWO_63 == x + y + TWO_63 - k * TWO_64;
  }

  // ----- the report

  datatype RepositoryInformation = RepositoryInformation(
    prs: seq<string>, repository: string,
    commitAdditions: int, commitDeletions: int,
    mergeAdditions: int, mergeDeletions: int,
    reviewAdditions: int, reviewDeletions: int)

  // The date strings are not part of this model; `mergedAt` is the instant they show.
  datatype PullRequestInformation = PullRequestInformation(
    repository: string, url: string, number: int, additions: int, deletions: int, mergedAt: int, state: string)

  datatype ReviewInformation = ReviewInformation(
    repository: string, number: int, additions: int, deletions: int, state: string)

  datatype UserInformationResult = UserInformationResult(
    user: string, organization: string,
    prs: seq<PullRequestInformation>,
    repoDetails: seq<RepositoryInformation>,
    reviews: seq<ReviewInformation>)

  // ----- contributions and their group-by

  datatype Contribution =
    | Merged(pr: PullRequest)
    | Reviewed(review: Review)
  {
    function Repo(): string {
      match this
      case Merged(p) => p.repo
      case Reviewed(v) => v.repo
    }
  }

  datatype Column = MergeAdditions | MergeDeletions | ReviewAdditions | ReviewDeletions

  /** What one contribution adds to a column. */
  function Amount(col: Column, c: Contribution): int {
    match (col, c)
    case (MergeAdditions, Merged(p)) => p.additions
    case (MergeDeletions, Merged(p)) => p.deletions
    case (ReviewAdditions, Reviewed(v)) => v.additions
    case (ReviewDeletions, Reviewed(v)) => v.deletions
    case _ => 0
  }

  function AmountIn(col: Column): Contribution -> int {
    (c: Contribution) => Amount(col, c)
  }

  function Total(col: Column, cs: seq<Contribution>): int {
    SumBy(AmountIn(col), cs)
  }

  function IsTo(repo: string): Contribution -> bool {
    (c: Contribution) => c.Repo() == repo
  }

  /** The in-order subsequence of the contributions to one repository. */
  function Of(repo: string, cs: seq<Contribution>): seq<Contribution> {
    Filter(IsTo(repo), cs)
  }

  /** The URLs of the merged pull requests, in order. */
  function MergedUrls(cs: seq<Contribution>): seq<string> {
    if cs == [] then []
    else
      var c := cs[|cs| - 1];
      MergedUrls(cs[..|cs| - 1]) + if c.Merged? then [c.pr.url] else []
  }

  /** The repositories in order of first appearance. */
  function Repos(cs: seq<Contribution>): (rs: seq<string>)
    ensures forall i, j | 0 <= i < j < |rs| :: rs[i] != rs[j]
  {
    if cs == [] then []
    else
      var rs, r := Repos(cs[..|cs| - 1]), cs[|cs| - 1].Repo();
      if r in rs then rs else rs + [r]
  }

  /** The report row of a repository with the given contributions. */
  function RowFrom(repo: string, own: seq<Contribution>): RepositoryInformation {
    RepositoryInformation(
      MergedUrls(own), repo, 0, 0,
      WrappedTotal(MergeAdditions, own), WrappedTotal(MergeDeletions, own),
      WrappedTotal(ReviewAdditions, own), WrappedTotal(ReviewDeletions, own))
  }

  /** The report row of one repository. */
  function Row(repo: string, cs: seq<Contribution>): RepositoryInformation {
    RowFrom(repo, Of(repo, cs))
  }

  /** One row per repository, in order of first appearance. */
  function GroupBy(cs: seq<Contribution>): (rows: seq<RepositoryInformation>)
    ensures |rows| == |Repos(cs)|
    ensures forall i | 0 <= i < |rows| :: rows[i] == Row(Repos(cs)[i], cs)
  {
    seq(|Repos(cs)|, i requires 0 <= i < |Repos(cs)| => Row(Repos(cs)[i], cs))
  }

  function Contributions(prs: seq<PullRequest>, reviews: seq<Review>): (cs: seq<Contribution>)
    ensures |cs| == |prs| + |reviews|
    ensures forall i | 0 <= i < |prs| :: cs[i] == Merged(prs[i])
    ensures forall i | 0 <= i < |reviews| :: cs[|prs| + i] == Reviewed(reviews[i])
  {
    seq(|prs|, i requires 0 <= i < |prs| => Merged(prs[i]))
    + seq(|reviews|, i requires 0 <= i < |reviews| => Reviewed(reviews[i]))
  }

  // ----- the loops refine the group-by

  /** The row after one more contribution to its repository. */
  function Extend(row: RepositoryInformation, c: Contribution): RepositoryInformation {
    match c
    case Merged(p) =>
      row.(prs := row.prs + [p.url],
           mergeAdditions := Add64(row.mergeAdditions, p.additions),
           mergeDeletions := Add64(row.mergeDeletions, p.deletions))
    case Reviewed(v) =>
      row.(reviewAdditions := Add64(row.reviewAdditions, v.additions),
           reviewDeletions := Add64(row.reviewDeletions, v.deletions))
  }

  function Blank(repo: string): RepositoryInformation {
    RepositoryInformation([], repo, 0, 0, 0, 0, 0, 0)
  }

  lemma SnocExtends(col: Column, repo: string, cs: seq<Contribution>, c: Contribution)
    ensures Total(col, cs + [c]) == Total(col, cs) + Amount(col, c)
    ensures MergedUrls(cs + [c]) == if c.Merged? then MergedUrls(cs) + [c.pr.url] else MergedUrls(cs)
    ensures Of(repo, cs + [c]) == if c.Repo() == repo then Of(repo, cs) + [c] else Of(repo, cs)
    ensures Repos(cs + [c]) == if c.Repo() in Repos(cs) then Repos(cs) else Repos(cs) + [c.Repo()]
  {
    SumBySnoc(AmountIn(col), cs, c);
    FilterSnoc(IsTo(repo), cs, c);
    assert (cs + [c])[..|cs|] == cs;
  }

  function WrappedTotal(col: Column, cs: seq<Contribution>): int { Wrap64(Total(col, cs)) }

  lemma WrappedTotalExtends(col: Column, cs: seq<Contribution>, c: Contribution)
    ensures WrappedTotal(col, cs + [c]) == Add64(WrappedTotal(col, cs), Amount(col, c))
  {
    var total, amount := Total(col, cs), Amount(col, c);
    assert Total(col, cs + [c]) == total + amount by { SumBySnoc(AmountIn(col), cs, c); }
    AddWrapped(total, amount);
  }

  lemma WrappedTotalStays(col: Column, cs: seq<Contribution>, c: Contribution)
    requires Amount(col, c) == 0
    ensures WrappedTotal(col, cs + [c]) == WrappedTotal(col, cs)
  {
    SumBySnoc(AmountIn(col), cs, c);
  }

  lemma RowFromExtends(repo: string, own: seq<Contribution>, c: Contribution)
    ensures RowFrom(repo, own + [c]) == Extend(RowFrom(repo, own), c)
  {
    assert (own + [c])[..|own|] == own;
    match c
    case Merged(p) =>
      WrappedTotalExtends(MergeAdditions, own, c);
      WrappedTotalExtends(MergeDeletions, own, c);
      WrappedTotalStays(ReviewAdditions, own, c);
      WrappedTotalStays(ReviewDeletions, own, c);
    case Reviewed(v) =>
      assert MergedUrls(own + [c]) == MergedUrls(own);
      WrappedTotalStays(MergeAdditions, own, c);
      WrappedTotalStays(MergeDeletions, own, c);
      WrappedTotalExtends(ReviewAdditions, own, c);
      WrappedTotalExtends(ReviewDeletions, own, c);
  }

  lemma RowExtends(repo: string, cs: seq<Contribution>, c: Contribution)
    ensures Row(repo, cs + [c]) == if c.Repo() == repo then Extend(Row(repo, cs), c) else Row(repo, cs)
  {
    FilterSnoc(IsTo(repo), cs, c);
    if c.Repo() == repo {
      RowFromExtends(repo, Of(repo, cs), c);
    }
  }

  lemma {:induction false} NoRowYet(repo: string, cs: seq<Contribution>)
    requires repo !in Repos(cs)
    ensures Of(repo, cs) == [] && Row(repo, cs) == Blank(repo)
  {
    if cs == [] {
    } else {
      NoRowYet(repo, cs[..|cs| - 1]);
    }
  }

  /** One more contribution to a known repository overwrites its row in place. */
  lemma GroupByOverwrites(cs: seq<Contribution>, c: Contribution, k: int)
    requires 0 <= k < |Repos(cs)| && Repos(cs)[k] == c.Repo()
    ensures GroupBy(cs + [c]) == GroupBy(cs)[k := Extend(GroupBy(cs)[k], c)]
  {
    hide *;
    SnocExtends(MergeAdditions, "", cs, c);
    var rows, rows' := GroupBy(cs), GroupBy(cs + [c]);
    forall i | 0 <= i < |rows| ensures rows'[i] == rows[k := Extend(rows[k], c)][i] {
      RowExtends(Repos(cs)[i], cs, c);
    }
  }

  /** One more contribution to a new repository appends its row. */
  lemma GroupByAppends(cs: seq<Contribution>, c: Contribution)
    requires c.Repo() !in Repos(cs)
    ensures GroupBy(cs + [c]) == GroupBy(cs) + [Extend(Blank(c.Repo()), c)]
  {
    hide *;
    SnocExtends(MergeAdditions, "", cs, c);
    NoRowYet(c.Repo(), cs);
    RowExtends(c.Repo(), cs, c);
    var rows, rows' := GroupBy(cs), GroupBy(cs + [c]);
    forall i | 0 <= i < |rows| ensures rows'[i] == rows[i] {
      RowExtends(Repos(cs)[i], cs, c);
    }
  }

  lemma EmptyReport()
    ensures GroupBy([]) == []
  {
  }

  /** One pull request: search the rows built so far, overwrite the one found or append one. */
  method AddPullRequest(stats: seq<RepositoryInformation>, pr: PullRequest, ghost cs: seq<Contribution>)
    returns (out: seq<RepositoryInformation>)
    requires stats == GroupBy(cs)
    ensures out == GroupBy(cs + [Merged(pr)])
  {
    out := stats;
    var i := 0;
    while i < |out|
      invariant 0 <= i <= |out| && out == stats
      invariant forall k | 0 <= k < i :: stats[k].repository != pr.repo
    {
      if out[i].repository == pr.repo {
        GroupByOverwrites(cs, Merged(pr), i);
        var stat := out[i];
        stat := stat.(prs := stat.prs + [pr.url]);
        stat := stat.(mergeAdditions := Add64(stat.mergeAdditions, pr.additions));
        stat := stat.(mergeDeletions := Add64(stat.mergeDeletions, pr.deletions));
        out := out[i := stat];
        return;
      }
      i := i + 1;
    }
    GroupByAppends(cs, Merged(pr));
    assert [] + [pr.url] == [pr.url];
    out := out + [RepositoryInformation([pr.url], pr.repo, 0, 0, Wrap64(pr.additions), Wrap64(pr.deletions), 0, 0)];
  }

  /** One review, likewise; a new row starts without pull requests. */
  method AddReview(stats: seq<RepositoryInformation>, review: Review, ghost cs: seq<Contribution>)
    returns (out: seq<RepositoryInformation>)
    requires stats == GroupBy(cs)
    ensures out == GroupBy(cs + [Reviewed(review)])
  {
    out := stats;
    var i := 0;
    while i < |out|
      invariant 0 <= i <= |out| && out == stats
      invariant forall k | 0 <= k < i :: stats[k].repository != review.repo
    {
      if out[i].repository == review.repo {
        GroupByOverwrites(cs, Reviewed(review), i);
        var stat := out[i];
        stat := stat.(reviewAdditions := Add64(stat.reviewAdditions, review.additions));
        stat := stat.(reviewDeletions := Add64(stat.reviewDeletions, review.deletions));
        out := out[i := stat];
        return;
      }
      i := i + 1;
    }
    GroupByAppends(cs, Reviewed(review));
    out := out + [RepositoryInformation([], review.repo, 0, 0, 0, 0,
                                        Wrap64(review.additions), Wrap64(review.deletions))];
  }

  function InfoOfPullRequest(p: PullRequest): PullRequestInformation {
    PullRequestInformation(p.repo, p.url, p.number, p.additions, p.deletions, p.mergedAt, p.state)
  }

  function InfoOfReview(v: Review): ReviewInformation {
    ReviewInformation(v.repo, v.number, v.additions, v.deletions, v.state)
  }

  function InfosOfPullRequests(prs: seq<PullRequest>): (infos: seq<PullRequestInformation>)
    ensures |infos| == |prs| && forall i | 0 <= i < |prs| :: infos[i] == InfoOfPullRequest(prs[i])
  {
    seq(|prs|, i requires 0 <= i < |prs| => InfoOfPullRequest(prs[i]))
  }

  function InfosOfReviews(vs: seq<Review>): (infos: seq<ReviewInformation>)
    ensures |infos| == |vs| && forall i | 0 <= i < |vs| :: infos[i] == InfoOfReview(vs[i])
  {
    seq(|vs|, i requires 0 <= i < |vs| => InfoOfReview(vs[i]))
  }

  method ReportPullRequests(prs: seq<PullRequest>)
    returns (stats: seq<RepositoryInformation>, infos: seq<PullRequestInformation>)
    ensures stats == GroupBy(Contributions(prs, []))
    ensures infos == InfosOfPullRequests(prs)
  {
    hide *;
    stats, infos := [], [];
    EmptyReport();
    ghost var all := Contributions(prs, []);
    for n := 0 to |prs|
      invariant stats == GroupBy(all[..n])
      invariant infos == InfosOfPullRequests(prs)[..n]
    {
      stats := AddPullRequest(stats, prs[n], all[..n]);
      assert all[..n + 1] == all[..n] + [Merged(prs[n])];
      infos := infos + [InfoOfPullRequest(prs[n])];
    }
    assert all[..|prs|] == all;
  }

  method ReportReviews(base: seq<RepositoryInformation>, reviews: seq<Review>, ghost prs: seq<PullRequest>)
    returns (stats: seq<RepositoryInformation>, infos: seq<ReviewInformation>)
    requires base == GroupBy(Contributions(prs, []))
    ensures stats == GroupBy(Contributions(prs, reviews))
    ensures infos == InfosOfReviews(reviews)
  {
    hide *;
    stats, infos := base, [];
    ghost var all := Contributions(prs, reviews);
    assert all[..|prs|] == Contributions(prs, []);
    for n := 0 to |reviews|
      invariant stats == GroupBy(all[..|prs| + n])
      invariant infos == InfosOfReviews(reviews)[..n]
    {
      stats := AddReview(stats, reviews[n], all[..|prs| + n]);
      assert all[..|prs| + n + 1] == all[..|prs| + n] + [Reviewed(reviews[n])];
      infos := infos + [InfoOfReview(reviews[n])];
    }
    assert all[..|prs| + |reviews|] == all;
  }

  // ----- the report in terms of its inputs alone

  function PullRequestsTo(repo: string, prs: seq<PullRequest>): seq<PullRequest> {
    Filter((p: PullRequest) => p.repo == repo, prs)
  }

  function ReviewsOf(repo: string, reviews: seq<Review>): seq<Review> {
    Filter((v: Review) => v.repo == repo, reviews)
  }

  function Urls(prs: seq<PullRequest>): seq<string> {
    seq(|prs|, i requires 0 <= i < |prs| => prs[i].url)
  }

  /** The repository of every input, pull requests first. */
  function InputRepos(prs: seq<PullRequest>, reviews: seq<Review>): (names: seq<string>)
    ensures |names| == |prs| + |reviews|
  {
    seq(|prs|, i requires 0 <= i < |prs| => prs[i].repo)
    + seq(|reviews|, i requires 0 <= i < |reviews| => reviews[i].repo)
  }

  /** The row of a repository: URLs in order, no commit sizes, wrapped sums of its inputs' sizes. */
  function RowOfInputs(repo: string, prs: seq<PullRequest>, reviews: seq<Review>): RepositoryInformation {
    var ps, vs := PullRequestsTo(repo, prs), ReviewsOf(repo, reviews);
    RepositoryInformation(
      Urls(ps), repo, 0, 0,
      Wrap64(SumBy((p: PullRequest) => p.additions, ps)), Wrap64(SumBy((p: PullRequest) => p.deletions, ps)),
      Wrap64(SumBy((v: Review) => v.additions, vs)), Wrap64(SumBy((v: Review) => v.deletions, vs)))
  }

  /** The rows are one for every repository that occurs among the inputs. */
  ghost predicate NamesOccur(rows: seq<RepositoryInformation>, names: seq<string>) {
    && (forall i | 0 <= i < |rows| :: rows[i].repository in names)
    && (forall r | r in names :: exists i :: 0 <= i < |rows| && rows[i].repository == r)
  }

  /** Before name `later` occurs for the first time, `earlier` has occurred. */
  ghost predicate OccursBefore(earlier: string, later: string, names: seq<string>) {
    exists k :: 0 <= k < |names| && names[k] == earlier && later !in names[..k + 1]
  }

  /**
   The rows are one for every repository that occurs among the inputs, in order of first occurrence,
   each with what the inputs of that repository say.
   */
  ghost predicate IsReportOn(rows: seq<RepositoryInformation>, prs: seq<PullRequest>, reviews: seq<Review>) {
    && (forall i | 0 <= i < |rows| :: rows[i] == RowOfInputs(rows[i].repository, prs, reviews))
    && NamesOccur(rows, InputRepos(prs, reviews))
    && (forall i, j | 0 <= i < j < |rows| ::
          OccursBefore(rows[i].repository, rows[j].repository, InputRepos(prs, reviews)))
  }

  /** The items are those of the inputs, in order, field by field. */
  ghost predicate AreItemsOf(info: UserInformationResult, prs: seq<PullRequest>, reviews: seq<Review>) {
    && |info.prs| == |prs| && |info.reviews| == |reviews|
    && (forall i | 0 <= i < |prs| ::
          var p := prs[i];
          info.prs[i] == PullRequestInformation(p.repo, p.url, p.number, p.additions, p.deletions, p.mergedAt, p.state))
    && (forall i | 0 <= i < |reviews| ::
          var v := reviews[i];
          info.reviews[i] == ReviewInformation(v.repo, v.number, v.additions, v.deletions, v.state))
  }

  lemma UrlsSnoc(prs: seq<PullRequest>, p: PullRequest)
    ensures Urls(prs + [p]) == Urls(prs) + [p.url]
  {
  }

  lemma PullRequestsToSnoc(repo: string, prs: seq<PullRequest>, p: PullRequest)
    ensures PullRequestsTo(repo, prs + [p])
         == if p.repo == repo then PullRequestsTo(repo, prs) + [p] else PullRequestsTo(repo, prs)
  {
    FilterSnoc((x: PullRequest) => x.repo == repo, prs, p);
  }

  lemma ReviewsOfSnoc(repo: string, reviews: seq<Review>, v: Review)
    ensures ReviewsOf(repo, reviews + [v])
         == if v.repo == repo then ReviewsOf(repo, reviews) + [v] else ReviewsOf(repo, reviews)
  {
    FilterSnoc((x: Review) => x.repo == repo, reviews, v);
  }

  /** A row of inputs with one input more. */
  lemma PullRequestExtends(repo: string, prs: seq<PullRequest>, p: PullRequest)
    ensures RowOfInputs(repo, prs + [p], [])
         == if p.repo == repo then Extend(RowOfInputs(repo, prs, []), Merged(p)) else RowOfInputs(repo, prs, [])
  {
    hide Filter, SumBy, Urls, Wrap64;
    PullRequestsToSnoc(repo, prs, p);
    var ps := PullRequestsTo(repo, prs);
    if p.repo == repo {
      UrlsSnoc(ps, p);
      SumBySnoc((x: PullRequest) => x.additions, ps, p);
      SumBySnoc((x: PullRequest) => x.deletions, ps, p);
      AddWrapped(SumBy((x: PullRequest) => x.additions, ps), p.additions);
      AddWrapped(SumBy((x: PullRequest) => x.deletions, ps), p.deletions);
    }
  }

  lemma ReviewExtends(repo: string, prs: seq<PullRequest>, reviews: seq<Review>, v: Review)
    ensures RowOfInputs(repo, prs, reviews + [v])
         == if v.repo == repo then Extend(RowOfInputs(repo, prs, reviews), Reviewed(v))
            else RowOfInputs(repo, prs, reviews)
  {
    hide Filter, SumBy, Urls, Wrap64;
    ReviewsOfSnoc(repo, reviews, v);
    var vs := ReviewsOf(repo, reviews);
    if v.repo == repo {
      SumBySnoc((x: Review) => x.additions, vs, v);
      SumBySnoc((x: Review) => x.deletions, vs, v);
      AddWrapped(SumBy((x: Review) => x.additions, vs), v.additions);
      AddWrapped(SumBy((x: Review) => x.deletions, vs), v.deletions);
    }
  }

  lemma NoInputs(repo: string)
    ensures RowOfInputs(repo, [], []) == Row(repo, Contributions([], []))
  {
  }

  lemma ContributionsSnoc(prs: seq<PullRequest>, reviews: seq<Review>)
    ensures reviews != [] ==>
              Contributions(prs, reviews)
              == Contributions(prs, reviews[..|reviews| - 1]) + [Reviewed(reviews[|reviews| - 1])]
    ensures prs != [] ==>
              Contributions(prs, []) == Contributions(prs[..|prs| - 1], []) + [Merged(prs[|prs| - 1])]
  {
  }

  lemma {:induction false} RowIsOfPullRequests(repo: string, prs: seq<PullRequest>)
    ensures Row(repo, Contributions(prs, [])) == RowOfInputs(repo, prs, [])
  {
    hide *;
    if prs == [] {
      NoInputs(repo);
    } else {
      var init, p := prs[..|prs| - 1], prs[|prs| - 1];
      RowIsOfPullRequests(repo, init);
      ContributionsSnoc(prs, []);
      RowExtends(repo, Contributions(init, []), Merged(p));
      PullRequestExtends(repo, init, p);
      SplitLast(prs);
      ToRepo(p);
    }
  }

  lemma ToRepo(p: PullRequest)
    ensures Merged(p).Repo() == p.repo
  {
  }

  lemma ReviewToRepo(v: Review)
    ensures Reviewed(v).Repo() == v.repo
  {
  }

  lemma {:induction false} RowIsOfInputs(repo: string, prs: seq<PullRequest>, reviews: seq<Review>)
    ensures Row(repo, Contributions(prs, reviews)) == RowOfInputs(repo, prs, reviews)
  {
    hide *;
    if reviews == [] {
      RowIsOfPullRequests(repo, prs);
    } else {
      var init, v := reviews[..|reviews| - 1], reviews[|reviews| - 1];
      RowIsOfInputs(repo, prs, init);
      ContributionsSnoc(prs, reviews);
      RowExtends(repo, Contributions(prs, init), Reviewed(v));
      ReviewExtends(repo, prs, init, v);
      SplitLast(reviews);
      ReviewToRepo(v);
    }
  }

  /** A list of names is that of some contributions. */
  ghost predicate AreNames(names: seq<string>, cs: seq<Contribution>) {
    |names| == |cs| && forall k | 0 <= k < |cs| :: cs[k].Repo() == names[k]
  }

  lemma NamesOfInputs(prs: seq<PullRequest>, reviews: seq<Review>)
    ensures AreNames(InputRepos(prs, reviews), Contributions(prs, reviews))
  {
  }

  lemma RowNames(cs: seq<Contribution>)
    ensures forall i | 0 <= i < |GroupBy(cs)| :: GroupBy(cs)[i].repository == Repos(cs)[i]
  {
    hide Repos, RowFrom;
    forall i | 0 <= i < |GroupBy(cs)| ensures GroupBy(cs)[i].repository == Repos(cs)[i] {
      RowNamesRepo(Repos(cs)[i], cs);
    }
  }

  lemma GroupByNames(cs: seq<Contribution>, names: seq<string>)
    requires AreNames(names, cs)
    ensures NamesOccur(GroupBy(cs), names)
  {
    hide Row, FirstAt, Repos, GroupBy;
    var rows, repos := GroupBy(cs), Repos(cs);
    RowNames(cs);
    ReposByFirstAppearance(cs);
    forall i | 0 <= i < |rows| ensures rows[i].repository in names {
      assert repos[i] in repos && names[FirstAt(repos[i], cs)] == repos[i];
    }
    forall r | r in names ensures exists i :: 0 <= i < |rows| && rows[i].repository == r {
      var k :| 0 <= k < |names| && names[k] == r;
      assert cs[k].Repo() == r;
      assert r in repos;
      var i :| 0 <= i < |repos| && repos[i] == r;
      assert rows[i].repository == r;
    }
  }

  lemma GroupByOrder(cs: seq<Contribution>, names: seq<string>, i: int, j: int)
    requires AreNames(names, cs) && 0 <= i < j < |GroupBy(cs)|
    ensures OccursBefore(GroupBy(cs)[i].repository, GroupBy(cs)[j].repository, names)
  {
    hide Row, FirstAt, Repos, GroupBy;
    var repos := Repos(cs);
    RowNames(cs);
    ReposByFirstAppearance(cs);
    assert repos[i] in repos && repos[j] in repos;
    var k := FirstAt(repos[i], cs);
    forall m | 0 <= m < k + 1 ensures names[m] != repos[j] {
      assert cs[m].Repo() == names[m];
    }
    assert names[k] == repos[i] && repos[j] !in names[..k + 1];
  }

  /** The group-by is the report on its inputs. */
  lemma GroupByIsReport(prs: seq<PullRequest>, reviews: seq<Review>)
    ensures IsReportOn(GroupBy(Contributions(prs, reviews)), prs, reviews)
  {
    hide Row, RowOfInputs, Repos, GroupBy, AreNames, NamesOccur, OccursBefore, InputRepos;
    var cs, names := Contributions(prs, reviews), InputRepos(prs, reviews);
    var rows := GroupBy(cs);
    NamesOfInputs(prs, reviews);
    GroupByNames(cs, names);
    RowNames(cs);
    forall i | 0 <= i < |rows| ensures rows[i] == RowOfInputs(rows[i].repository, prs, reviews) {
      RowIsOfInputs(rows[i].repository, prs, reviews);
    }
    forall i, j | 0 <= i < j < |rows| ensures OccursBefore(rows[i].repository, rows[j].repository, names) {
      GroupByOrder(cs, names, i, j);
    }
  }

  lemma RowNamesRepo(repo: string, cs: seq<Contribution>)
    ensures Row(repo, cs).repository == repo
  {
  }

  /** `convertPRsandReviewsToUserInformation`: pull requests first, then reviews onto the same rows. */
  method ConvertToUserInformation(prs: seq<PullRequest>, reviews: seq<Review>) returns (info: UserInformationResult)
    ensures IsReportOn(info.repoDetails, prs, reviews) && AreItemsOf(info, prs, reviews)
    ensures info.repoDetails == GroupBy(Contributions(prs, reviews))
    ensures info.prs == InfosOfPullRequests(prs)
    ensures info.reviews == InfosOfReviews(reviews)
    ensures info.user == "" && info.organization == ""
  {
    var stats, prInfo := ReportPullRequests(prs);
    var repoStats, reviewInfo := ReportReviews(stats, reviews, prs);
    info := UserInformationResult("", "", prInfo, repoStats, reviewInfo);
    GroupByIsReport(prs, reviews);
  }

  // ----- what the report conserves

  function Cell(col: Column, row: RepositoryInformation): int {
    match col
    case MergeAdditions => row.mergeAdditions
    case MergeDeletions => row.mergeDeletions
    case ReviewAdditions => row.reviewAdditions
    case ReviewDeletions => row.reviewDeletions
  }

  function ColumnSum(col: Column, rows: seq<RepositoryInformation>): int {
    SumBy((row: RepositoryInformation) => Cell(col, row), rows)
  }

  /** The pull request lists of all rows, one after the other. */
  function AllUrls(rows: seq<RepositoryInformation>): seq<string> {
    if rows == [] then [] else AllUrls(rows[..|rows| - 1]) + rows[|rows| - 1].prs
  }

  function TotalFor(col: Column, cs: seq<Contribution>): string -> int {
    (repo: string) => Total(col, Of(repo, cs))
  }

  /** Among distinct repositories, one more contribution counts once or not at all. */
  lemma {:induction false} OneMoreAmongRepos(col: Column, repos: seq<string>, cs: seq<Contribution>, c: Contribution)
    requires Distinct(repos)
    ensures SumBy(TotalFor(col, cs + [c]), repos)
         == SumBy(TotalFor(col, cs), repos) + if c.Repo() in repos then Amount(col, c) else 0
  {
    if repos == [] {
    } else {
      var init, r := repos[..|repos| - 1], repos[|repos| - 1];
      OneMoreAmongRepos(col, init, cs, c);
      SnocExtends(col, r, cs, c);
      SnocExtends(col, r, Of(r, cs), c);
      assert c.Repo() in repos <==> c.Repo() in init || c.Repo() == r;
    }
  }

  lemma FirstOfItsRepo(col: Column, cs: seq<Contribution>, c: Contribution)
    requires c.Repo() !in Repos(cs)
    ensures TotalFor(col, cs + [c])(c.Repo()) == Amount(col, c)
  {
    NoRowYet(c.Repo(), cs);
    FilterSnoc(IsTo(c.Repo()), cs, c);
    SumBySnoc(AmountIn(col), [], c);
    assert [] + [c] == [c];
  }

  lemma PartitionExtends(col: Column, cs: seq<Contribution>, c: Contribution)
    requires SumBy(TotalFor(col, cs), Repos(cs)) == Total(col, cs)
    ensures SumBy(TotalFor(col, cs + [c]), Repos(cs + [c])) == Total(col, cs + [c])
  {
    hide *;
    OneMoreAmongRepos(col, Repos(cs), cs, c);
    SnocExtends(col, c.Repo(), cs, c);
    if c.Repo() !in Repos(cs) {
      FirstOfItsRepo(col, cs, c);
      SumBySnoc(TotalFor(col, cs + [c]), Repos(cs), c.Repo());
    }
  }

  /** The per-repository totals add up to the whole. */
  lemma {:induction false} ReposPartition(col: Column, cs: seq<Contribution>)
    ensures SumBy(TotalFor(col, cs), Repos(cs)) == Total(col, cs)
  {
    if cs == [] {
    } else {
      var init, c := cs[..|cs| - 1], cs[|cs| - 1];
      ReposPartition(col, init);
      assert cs == init + [c];
      PartitionExtends(col, init, c);
    }
  }

  /** Wrapping every term changes a sum only by wrapping it. */
  lemma {:induction false} WrapTerms(col: Column, repos: seq<string>, cs: seq<Contribution>,
                                     rows: seq<RepositoryInformation>)
    requires |rows| == |repos| && forall i | 0 <= i < |rows| :: rows[i] == Row(repos[i], cs)
    ensures Wrap64(ColumnSum(col, rows)) == Wrap64(SumBy(TotalFor(col, cs), repos))
  {
    if rows == [] {
    } else {
      var n := |rows| - 1;
      WrapTerms(col, repos[..n], cs, rows[..n]);
      var total := Total(col, Of(repos[n], cs));
      assert Cell(col, rows[n]) == Wrap64(total);
      WrapBoth(ColumnSum(col, rows[..n]), SumBy(TotalFor(col, cs), repos[..n]), total);
    }
  }

  lemma WrapBoth(x: int, y: int, z: int)
    requires Wrap64(x) == Wrap64(y)
    ensures Wrap64(x + Wrap64(z)) == Wrap64(y + z)
  {
    AddWrapped(x, z);
    AddWrapped(y, z);
    AddWrapped(z, x);
  }

  /**
   Conservation: modulo 2^64 every column of the report sums to that column over all inputs.
   */
  lemma ReportConservesTotals(col: Column, cs: seq<Contribution>)
    ensures Wrap64(ColumnSum(col, GroupBy(cs))) == Wrap64(Total(col, cs))
  {
    WrapTerms(col, Repos(cs), cs, GroupBy(cs));
    ReposPartition(col, cs);
  }

  lemma AllUrlsSnoc(rows: seq<RepositoryInformation>, row: RepositoryInformation)
    ensures AllUrls(rows + [row]) == AllUrls(rows) + row.prs
  {
    assert (rows + [row])[..|rows|] == rows;
  }

  lemma {:induction false} AllUrlsConcat(a: seq<RepositoryInformation>, b: seq<RepositoryInformation>)
    ensures AllUrls(a + b) == AllUrls(a) + AllUrls(b)
  {
    if b == [] {
      assert a + b == a;
    } else {
      hide *;
      var init, row := b[..|b| - 1], b[|b| - 1];
      AllUrlsConcat(a, init);
      SplitLast(b);
      ConcatAssociates(a, init, [row]);
      AllUrlsSnoc(a + init, row);
      AllUrlsSnoc(init, row);
      ConcatAssociates(AllUrls(a), AllUrls(init), row.prs);
    }
  }

  lemma AllUrlsUpdate(rows: seq<RepositoryInformation>, k: int, row: RepositoryInformation, more: seq<string>)
    requires 0 <= k < |rows| && row.prs == rows[k].prs + more
    ensures multiset(AllUrls(rows[k := row])) == multiset(AllUrls(rows)) + multiset(more)
  {
    var l, r := rows[..k], rows[k + 1..];
    assert rows == l + [rows[k]] + r && rows[k := row] == l + [row] + r;
    AllUrlsConcat(l + [rows[k]], r);
    AllUrlsConcat(l + [row], r);
    AllUrlsSnoc(l, rows[k]);
    AllUrlsSnoc(l, row);
  }

  lemma UrlsExtend(cs: seq<Contribution>, c: Contribution)
    requires multiset(AllUrls(GroupBy(cs))) == multiset(MergedUrls(cs))
    ensures multiset(AllUrls(GroupBy(cs + [c]))) == multiset(MergedUrls(cs + [c]))
  {
    hide SumBy, Filter, Repos, MergedUrls, Row, RowFrom, AllUrls, GroupBy, WrappedTotal;
    SnocExtends(MergeAdditions, "", cs, c);
    var rows, more := GroupBy(cs), if c.Merged? then [c.pr.url] else [];
    if c.Repo() in Repos(cs) {
      var k :| 0 <= k < |rows| && Repos(cs)[k] == c.Repo();
      GroupByOverwrites(cs, c, k);
      AllUrlsUpdate(rows, k, Extend(rows[k], c), more);
    } else {
      GroupByAppends(cs, c);
      AllUrlsSnoc(rows, Extend(Blank(c.Repo()), c));
    }
    assert multiset(MergedUrls(cs + [c])) == multiset(MergedUrls(cs)) + multiset(more);
  }

  /** The pull request lists of the rows are, together, a permutation of the input URLs. */
  lemma {:induction false} ReportConservesUrls(cs: seq<Contribution>)
    ensures multiset(AllUrls(GroupBy(cs))) == multiset(MergedUrls(cs))
  {
    if cs == [] {
    } else {
      var init, c := cs[..|cs| - 1], cs[|cs| - 1];
      assert cs == init + [c];
      ReportConservesUrls(init);
      UrlsExtend(init, c);
    }
  }

  // ----- order, permutations, concatenation, overflow

  /** The position of the first contribution to a repository, or the length if there is none. */
  function FirstAt(repo: string, cs: seq<Contribution>): (n: int)
    ensures 0 <= n <= |cs|
    ensures forall i | 0 <= i < n :: cs[i].Repo() != repo
    ensures n < |cs| ==> cs[n].Repo() == repo
  {
    if cs == [] || cs[0].Repo() == repo then 0 else 1 + FirstAt(repo, cs[1..])
  }

  /** Rows are exactly the contributing repositories, ordered by first appearance. */
  lemma {:induction false} ReposByFirstAppearance(cs: seq<Contribution>)
    ensures forall r :: r in Repos(cs) <==> FirstAt(r, cs) < |cs|
    ensures forall i, j | 0 <= i < j < |Repos(cs)| :: FirstAt(Repos(cs)[i], cs) < FirstAt(Repos(cs)[j], cs)
  {
    if cs == [] {
    } else {
      var n := |cs| - 1;
      var init, c := cs[..n], cs[n];
      ReposByFirstAppearance(init);
      assert cs == init + [c];
      forall r: string
        ensures FirstAt(r, init) < n ==> FirstAt(r, cs) == FirstAt(r, init)
        ensures FirstAt(r, init) == n ==> FirstAt(r, cs) == if c.Repo() == r then n else n + 1
      {
        FirstAtSnoc(r, init, c);
      }
    }
  }

  lemma FirstAtSnoc(r: string, cs: seq<Contribution>, c: Contribution)
    ensures FirstAt(r, cs) < |cs| ==> FirstAt(r, cs + [c]) == FirstAt(r, cs)
    ensures FirstAt(r, cs) == |cs| ==> FirstAt(r, cs + [c]) == if c.Repo() == r then |cs| else |cs| + 1
  {
    var all, n, m := cs + [c], FirstAt(r, cs), FirstAt(r, cs + [c]);
    assert forall i | 0 <= i < |cs| :: all[i] == cs[i];
    assert all[|cs|] == c;
    assert forall i | 0 <= i < n :: all[i].Repo() != r;
    assert n <= m;
    assert n < |cs| ==> all[n].Repo() == r;
  }

  predicate HasUrl(c: Contribution, url: string) { c.Merged? && c.pr.url == url }

  lemma {:induction false} CountUrl(cs: seq<Contribution>, url: string)
    ensures multiset(MergedUrls(cs))[url] == SumBy((c: Contribution) => if HasUrl(c, url) then 1 else 0, cs)
  {
    if cs == [] {
    } else {
      CountUrl(cs[..|cs| - 1], url);
    }
  }

  lemma MergedUrlsPermutation(a: seq<Contribution>, b: seq<Contribution>)
    requires multiset(a) == multiset(b)
    ensures multiset(MergedUrls(a)) == multiset(MergedUrls(b))
  {
    forall url: string ensures multiset(MergedUrls(a))[url] == multiset(MergedUrls(b))[url] {
      CountUrl(a, url);
      CountUrl(b, url);
      SumByPermutation((c: Contribution) => if HasUrl(c, url) then 1 else 0, a, b);
    }
  }

  /**
   The order of the inputs does not matter: a permutation reports the same repositories with the
   same totals, and the same pull requests up to order.
   */
  lemma OrderIndependence(a: seq<Contribution>, b: seq<Contribution>, repo: string)
    requires multiset(a) == multiset(b)
    ensures repo in Repos(a) <==> repo in Repos(b)
    ensures Row(repo, a).(prs := []) == Row(repo, b).(prs := [])
    ensures multiset(Row(repo, a).prs) == multiset(Row(repo, b).prs)
  {
    var x, y := Of(repo, a), Of(repo, b);
    FilterPermutation(IsTo(repo), a, b);
    MergedUrlsPermutation(x, y);
    SumByPermutation(AmountIn(MergeAdditions), x, y);
    SumByPermutation(AmountIn(MergeDeletions), x, y);
    SumByPermutation(AmountIn(ReviewAdditions), x, y);
    SumByPermutation(AmountIn(ReviewDeletions), x, y);
    ReposByFirstAppearance(a);
    ReposByFirstAppearance(b);
    SameRepos(a, b, repo);
    SameRepos(b, a, repo);
  }

  lemma SameRepos(a: seq<Contribution>, b: seq<Contribution>, repo: string)
    requires multiset(a) == multiset(b)
    ensures FirstAt(repo, a) < |a| ==> FirstAt(repo, b) < |b|
  {
    var n := FirstAt(repo, a);
    if n < |a| {
      assert a[n] in multiset(b);
      assert a[n] in b;
    }
  }

  /** Totals of a concatenation are the sums of the totals, repository by repository. */
  lemma TotalsOfConcat(col: Column, repo: string, a: seq<Contribution>, b: seq<Contribution>)
    ensures Total(col, Of(repo, a + b)) == Total(col, Of(repo, a)) + Total(col, Of(repo, b))
  {
    FilterConcat(IsTo(repo), a, b);
    SumByConcat(AmountIn(col), Of(repo, a), Of(repo, b));
  }

  lemma CellsOfConcat(col: Column, repo: string, a: seq<Contribution>, b: seq<Contribution>)
    ensures Cell(col, Row(repo, a + b)) == Add64(Cell(col, Row(repo, a)), Cell(col, Row(repo, b)))
  {
    TotalsOfConcat(col, repo, a, b);
    WrapBothTerms(Total(col, Of(repo, a)), Total(col, Of(repo, b)));
  }

  lemma WrapBothTerms(x: int, y: int)
    ensures Wrap64(Wrap64(x) + Wrap64(y)) == Wrap64(x + y)
  {
    AddWrapped(x, Wrap64(y));
    AddWrapped(y, x);
  }

  lemma {:induction false} ColumnsExactly(col: Column, repos: seq<string>, cs: seq<Contribution>,
                                          rows: seq<RepositoryInformation>)
    requires |rows| == |repos| && forall i | 0 <= i < |rows| :: Cell(col, rows[i]) == Total(col, Of(repos[i], cs))
    ensures ColumnSum(col, rows) == SumBy(TotalFor(col, cs), repos)
  {
    if rows == [] {
    } else {
      var n := |rows| - 1;
      ColumnsExactly(col, repos[..n], cs, rows[..n]);
    }
  }

  lemma FewerTerms(m: int, n: int, bound: int)
    requires 0 <= m <= n && 0 <= bound
    ensures m * bound <= n * bound
  {
  }

  lemma OwnTotalFits(col: Column, repo: string, cs: seq<Contribution>, bound: int)
    requires 0 <= bound && |cs| * bound < TWO_63
    requires forall c | c in cs :: -bound <= Amount(col, c) <= bound
    ensures IsInt64(Total(col, Of(repo, cs)))
  {
    var own := Of(repo, cs);
    forall c | c in own ensures c in cs {
      FilterMembers(IsTo(repo), cs, c);
    }
    SumByBound(AmountIn(col), own, bound);
    FilterIsShorter(IsTo(repo), cs);
    FewerTerms(|own|, |cs|, bound);
  }

  /**
   No overflow: when the number of inputs times the largest size stays below 2^63, every total in
   the report is the true sum, and columns add up exactly.
   */
  lemma NoOverflow(col: Column, cs: seq<Contribution>, bound: int)
    requires 0 <= bound && |cs| * bound < TWO_63
    requires forall c | c in cs :: -bound <= Amount(col, c) <= bound
    ensures forall repo :: Cell(col, Row(repo, cs)) == Total(col, Of(repo, cs))
    ensures ColumnSum(col, GroupBy(cs)) == Total(col, cs)
  {
    forall repo: string ensures Cell(col, Row(repo, cs)) == Total(col, Of(repo, cs)) {
      OwnTotalFits(col, repo, cs, bound);
      WrapIsCongruent(Total(col, Of(repo, cs)));
    }
    ColumnsExactly(col, Repos(cs), cs, GroupBy(cs));
    ReposPartition(col, cs);
  }
}
