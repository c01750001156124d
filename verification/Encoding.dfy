/** The codec between generic records and table rows (database/cockroachdb/encoding.go). */
module Encoding {
  import opened Records

  datatype CommitRow = CommitRow(
    author: string, committer: string, sha: string, url: string, message: string,
    additions: int, deletions: int)

  datatype ReviewRow = ReviewRow(
    id: int, author: string, state: string, submittedAt: int, commitID: string,
    repo: string, number: int)

  datatype PullRequestRow = PullRequestRow(
    repo: string, organization: string, url: string, number: int, author: string,
    updatedAt: int, closedAt: int, mergedAt: int, merged: bool, state: string,
    additions: int, deletions: int, mergedBy: string,
    commits: seq<CommitRow>, reviews: seq<ReviewRow>)

  function EncodeCommit(c: Commit): CommitRow {
    CommitRow(c.author, c.committer, c.sha, c.url, c.message, 0, 0)
  }

  function DecodeCommit(r: CommitRow): Commit {
    Commit(r.sha, r.url, r.message, r.author, r.committer, 0, 0)
  }

  function EncodeReview(v: Review): ReviewRow {
    ReviewRow(v.id, v.author, v.state, v.submittedAt, v.commitID, v.repo, v.number)
  }

  function DecodeReview(r: ReviewRow): Review {
    Review(r.id, r.author, r.state, r.submittedAt, r.commitID, r.repo, r.number, 0, 0)
  }

  function EncodeReviews(vs: seq<Review>): (rs: seq<ReviewRow>) {
    seq(|vs|, i requires 0 <= i < |vs| => EncodeReview(vs[i]))
  }

  /** The row that stores a pull request. */
  function RowOf(p: PullRequest): PullRequestRow {
    PullRequestRow(
      p.repo, p.organization, p.url, p.number, p.user, p.updatedAt, p.closedAt, p.mergedAt, p.merged,
      p.state, p.additions, p.deletions, p.mergedBy,
      seq(|p.commits|, i requires 0 <= i < |p.commits| => EncodeCommit(p.commits[i])),
      EncodeReviews(p.reviews))
  }

  /** The pull request a row stands for. */
  function RecordOf(r: PullRequestRow): PullRequest {
    PullRequest(
      r.repo, r.organization, r.author, r.url, r.number, r.updatedAt, r.closedAt, r.mergedAt, r.merged,
      r.state, r.additions, r.deletions, r.mergedBy,
      seq(|r.commits|, i requires 0 <= i < |r.commits| => DecodeCommit(r.commits[i])),
      seq(|r.reviews|, i requires 0 <= i < |r.reviews| => DecodeReview(r.reviews[i])))
  }

  method EncodePullRequest(p: PullRequest) returns (row: PullRequestRow)
    ensures row == RowOf(p)
  {
    var commits: seq<CommitRow> := [];
    for i := 0 to |p.commits|
      invariant commits == RowOf(p).commits[..i]
    {
      commits := commits + [EncodeCommit(p.commits[i])];
    }
    var reviews: seq<ReviewRow> := [];
    for i := 0 to |p.reviews|
      invariant reviews == RowOf(p).reviews[..i]
    {
      reviews := reviews + [EncodeReview(p.reviews[i])];
    }
    row := PullRequestRow(
      p.repo, p.organization, p.url, p.number, p.user, p.updatedAt, p.closedAt, p.mergedAt, p.merged,
      p.state, p.additions, p.deletions, p.mergedBy, commits, reviews);
  }

  method DecodePullRequest(row: PullRequestRow) returns (p: PullRequest)
    ensures p == RecordOf(row)
  {
    var commits: seq<Commit> := [];
    for i := 0 to |row.commits|
      invariant commits == RecordOf(row).commits[..i]
    {
      commits := commits + [DecodeCommit(row.commits[i])];
    }
    var reviews: seq<Review> := [];
    for i := 0 to |row.reviews|
      invariant reviews == RecordOf(row).reviews[..i]
    {
      reviews := reviews + [DecodeReview(row.reviews[i])];
    }
    p := PullRequest(
      row.repo, row.organization, row.author, row.url, row.number, row.updatedAt, row.closedAt, row.mergedAt,
      row.merged, row.state, row.additions, row.deletions, row.mergedBy, commits, reviews);
  }

  /** Every column of a row holds the field of its name; rows of commits and reviews likewise, in order. */
  ghost predicate ShowsRecord(r: PullRequestRow, p: PullRequest) {
    && r.repo == p.repo && r.organization == p.organization && r.url == p.url && r.number == p.number
    && r.author == p.user && r.updatedAt == p.updatedAt && r.closedAt == p.closedAt && r.mergedAt == p.mergedAt
    && r.merged == p.merged && r.state == p.state && r.additions == p.additions && r.deletions == p.deletions
    && r.mergedBy == p.mergedBy
    && |r.commits| == |p.commits| && |r.reviews| == |p.reviews|
    && (forall i | 0 <= i < |p.commits| ::
          var c := p.commits[i];
          r.commits[i] == CommitRow(c.author, c.committer, c.sha, c.url, c.message, 0, 0))
    && (forall i | 0 <= i < |p.reviews| ::
          var v := p.reviews[i];
          r.reviews[i] == ReviewRow(v.id, v.author, v.state, v.submittedAt, v.commitID, v.repo, v.number))
  }

  /** A row determines, and is determined by, what it shows. */
  lemma RowShows(p: PullRequest, r: PullRequestRow)
    ensures ShowsRecord(r, p) <==> r == RowOf(p)
  {
    var row := RowOf(p);
    if ShowsRecord(r, p) {
      assert r.commits == row.commits && r.reviews == row.reviews;
    }
  }

  // ----- round trips

  predicate SizesAreZero(p: PullRequest) {
    && (forall i | 0 <= i < |p.commits| :: p.commits[i].additions == 0 && p.commits[i].deletions == 0)
    && (forall i | 0 <= i < |p.reviews| :: p.reviews[i].additions == 0 && p.reviews[i].deletions == 0)
  }

  /** Equal except, possibly, in the sizes of commits and reviews. */
  predicate SameButSizes(p: PullRequest, q: PullRequest) {
    && p.(commits := [], reviews := []) == q.(commits := [], reviews := [])
    && |p.commits| == |q.commits| && |p.reviews| == |q.reviews|
    && (forall i | 0 <= i < |p.commits| ::
          p.commits[i].(additions := 0, deletions := 0) == q.commits[i].(additions := 0, deletions := 0))
    && (forall i | 0 <= i < |p.reviews| ::
          p.reviews[i].(additions := 0, deletions := 0) == q.reviews[i].(additions := 0, deletions := 0))
  }

  /** Storing and reading back zeroes the sizes of commits and reviews and changes nothing else. */
  lemma StoredRecord(p: PullRequest)
    ensures var q := RecordOf(RowOf(p)); SameButSizes(p, q) && SizesAreZero(q)
    ensures RecordOf(RowOf(p)) == p <==> SizesAreZero(p)
  {
    var q := RecordOf(RowOf(p));
    if SizesAreZero(p) {
      assert q.commits == p.commits;
      assert q.reviews == p.reviews;
    }
  }

  /** A concrete case: a commit that added 5 lines and deleted 2 reads back with neither. */
  lemma CommitSizesAreLost(p: PullRequest, c: Commit)
    requires c == Commit("5e4d", "u", "fix", "ann", "bob", 5, 2) && p.commits == [c]
    ensures RecordOf(RowOf(p)).commits == [c.(additions := 0, deletions := 0)] != p.commits
  {
    assert |RowOf(p).commits| == 1 && RowOf(p).commits[0] == EncodeCommit(c);
    assert p.commits[0].additions == 5;
  }

  /** Two records are stored alike exactly when they differ at most in those sizes. */
  lemma StoredAlike(p: PullRequest, q: PullRequest)
    ensures RowOf(p) == RowOf(q) <==> SameButSizes(p, q)
  {
    var x, y := RowOf(p), RowOf(q);
    if x == y {
      forall i | 0 <= i < |p.commits|
        ensures p.commits[i].(additions := 0, deletions := 0) == q.commits[i].(additions := 0, deletions := 0)
      {
        assert x.commits[i] == y.commits[i];
      }
      forall i | 0 <= i < |p.reviews|
        ensures p.reviews[i].(additions := 0, deletions := 0) == q.reviews[i].(additions := 0, deletions := 0)
      {
        assert x.reviews[i] == y.reviews[i];
      }
    }
    if SameButSizes(p, q) {
      forall i | 0 <= i < |p.commits| ensures x.commits[i] == y.commits[i] {
        assert p.commits[i].(additions := 0, deletions := 0) == q.commits[i].(additions := 0, deletions := 0);
      }
      forall i | 0 <= i < |p.reviews| ensures x.reviews[i] == y.reviews[i] {
        assert p.reviews[i].(additions := 0, deletions := 0) == q.reviews[i].(additions := 0, deletions := 0);
      }
      assert x.commits == y.commits && x.reviews == y.reviews;
    }
  }

  /** Storing what was read back stores the same row. */
  lemma StoringIsIdempotent(p: PullRequest)
    ensures RowOf(RecordOf(RowOf(p))) == RowOf(p)
    ensures RecordOf(RowOf(RecordOf(RowOf(p)))) == RecordOf(RowOf(p))
  {
    StoredRecord(p);
    StoredAlike(RecordOf(RowOf(p)), p);
  }
}
