/**
 The record store (database/cockroachdb/cockroachdb.go): pull requests keyed by URL, reviews keyed
 by ID. Queries return rows in no particular order. Every operation takes a flag `up` that says
 whether the database answers this call; when it does not, the call fails and changes nothing. The
 review query makes one more call per review; `answered` holds the IDs for which that call gets
 through, and a failing one only drops its review.
 */
module Store {
  import opened Wrappers
  import opened Records
  import opened Encoding
  import opened Calendar

  datatype StoreError = NotFound | DuplicateKey | Unavailable

  datatype Db = Db(prs: map<string, PullRequestRow>, reviews: map<int, ReviewRow>)

  /** A row as the pull request table holds it; commits and reviews live in tables of their own. */
  function Bare(row: PullRequestRow): PullRequestRow { row.(commits := [], reviews := []) }

  function UpsertReviews(m: map<int, ReviewRow>, rs: seq<ReviewRow>): map<int, ReviewRow> {
    if rs == [] then m
    else
      var r := rs[|rs| - 1];
      UpsertReviews(m, rs[..|rs| - 1])[r.id := r]
  }

  /** The store after saving a pull request together with its reviews. */
  function Put(db: Db, p: PullRequest): Db {
    Db(db.prs[p.url := Bare(RowOf(p))], UpsertReviews(db.reviews, EncodeReviews(p.reviews)))
  }

  ghost predicate WellKeyed(db: Db) {
    && (forall u | u in db.prs :: db.prs[u].url == u && Bare(db.prs[u]) == db.prs[u])
    && (forall k | k in db.reviews :: db.reviews[k].id == k)
  }

  /** Saving reviews touches no ID but theirs. */
  lemma {:induction false} OtherReviewsStay(m: map<int, ReviewRow>, rs: seq<ReviewRow>, id: int)
    requires forall i | 0 <= i < |rs| :: rs[i].id != id
    ensures id in UpsertReviews(m, rs) <==> id in m
    ensures id in m ==> UpsertReviews(m, rs)[id] == m[id]
  {
    if rs == [] {
    } else {
      OtherReviewsStay(m, rs[..|rs| - 1], id);
    }
  }

  /** Of several saved reviews with one ID the last wins. */
  lemma {:induction false} LastReviewWins(m: map<int, ReviewRow>, rs: seq<ReviewRow>, i: int)
    requires 0 <= i < |rs| && forall j | i < j < |rs| :: rs[j].id != rs[i].id
    ensures rs[i].id in UpsertReviews(m, rs) && UpsertReviews(m, rs)[rs[i].id] == rs[i]
  {
    if i == |rs| - 1 {
    } else {
      LastReviewWins(m, rs[..|rs| - 1], i);
    }
  }

  lemma PutKeepsKeys(db: Db, p: PullRequest)
    requires WellKeyed(db)
    ensures WellKeyed(Put(db, p))
  {
    UpsertKeepsKeys(db.reviews, EncodeReviews(p.reviews));
    assert Put(db, p).reviews == UpsertReviews(db.reviews, EncodeReviews(p.reviews));
  }

  lemma {:induction false} UpsertKeepsKeys(m: map<int, ReviewRow>, rs: seq<ReviewRow>)
    requires forall k | k in m :: m[k].id == k
    ensures forall k | k in UpsertReviews(m, rs) :: UpsertReviews(m, rs)[k].id == k
  {
    if rs == [] {
    } else {
      UpsertKeepsKeys(m, rs[..|rs| - 1]);
    }
  }

  // ----- queries

  predicate Selected(row: PullRequestRow, user: string, lo: int, hi: int) {
    row.author == user && InRange(row.mergedAt, lo, hi)
  }

  /** The rows of a user's pull requests merged in [lo, hi], each once, in some order. */
  ghost predicate IsPullRequestQuery(rows: seq<PullRequestRow>, prs: map<string, PullRequestRow>,
                                     user: string, lo: int, hi: int) {
    && (forall i, j | 0 <= i < j < |rows| :: rows[i].url != rows[j].url)
    && (forall i | 0 <= i < |rows| ::
          rows[i].url in prs && prs[rows[i].url] == rows[i] && Selected(rows[i], user, lo, hi))
    && (forall u | u in prs && Selected(prs[u], user, lo, hi) :: prs[u] in rows)
  }

  /** The same, as the decoded records the operation returns. */
  ghost predicate IsUserPullRequests(out: seq<PullRequest>, prs: map<string, PullRequestRow>,
                                     user: string, lo: int, hi: int) {
    && (forall i, j | 0 <= i < j < |out| :: out[i].url != out[j].url)
    && (forall i | 0 <= i < |out| ::
          out[i].url in prs && out[i] == RecordOf(prs[out[i].url])
          && out[i].user == user && lo <= out[i].mergedAt <= hi)
    && (forall u | u in prs && prs[u].author == user && lo <= prs[u].mergedAt <= hi :: RecordOf(prs[u]) in out)
  }

  ghost predicate IsReviewQuery(rows: seq<ReviewRow>, reviews: map<int, ReviewRow>, user: string, lo: int, hi: int) {
    && (forall i, j | 0 <= i < j < |rows| :: rows[i].id != rows[j].id)
    && (forall i | 0 <= i < |rows| ::
          rows[i].id in reviews && reviews[rows[i].id] == rows[i]
          && rows[i].author == user && lo <= rows[i].submittedAt <= hi)
    && (forall k | k in reviews && reviews[k].author == user && lo <= reviews[k].submittedAt <= hi ::
          reviews[k] in rows)
  }

  // ----- the review join

  const ORG := "decred"

  predicate OccursAt(s: string, sub: string, i: int) {
    0 <= i <= |s| - |sub| && s[i..i + |sub|] == sub
  }

  predicate Contains(s: string, sub: string) {
    exists i | 0 <= i <= |s| - |sub| :: OccursAt(s, sub, i)
  }

  /** The repository name a review is looked up under. */
  function LookupName(repo: string): string {
    if Contains(repo, ORG) then repo else ORG + "/" + repo
  }

  predicate Matches(row: PullRequestRow, v: ReviewRow) {
    row.repo == LookupName(v.repo) && row.number == v.number
  }

  ghost predicate HasMatch(prs: map<string, PullRequestRow>, v: ReviewRow) {
    exists u :: u in prs && Matches(prs[u], v)
  }

  /** The review a row contributes: its own data with the sizes of some matching pull request. */
  ghost predicate IsJoined(prs: map<string, PullRequestRow>, v: ReviewRow, out: Review) {
    exists u :: u in prs && Matches(prs[u], v)
      && out == DecodeReview(v).(additions := prs[u].additions, deletions := prs[u].deletions)
  }

  /** A review is kept if its lookup is answered and finds a pull request. */
  ghost predicate Kept(prs: map<string, PullRequestRow>, answered: set<int>, v: ReviewRow) {
    v.id in answered && HasMatch(prs, v)
  }

  /** `out` keeps those rows, in order, each joined with one match. */
  ghost predicate IsJoin(rows: seq<ReviewRow>, prs: map<string, PullRequestRow>, answered: set<int>,
                         out: seq<Review>) {
    if rows == [] then out == []
    else
      var init, v := rows[..|rows| - 1], rows[|rows| - 1];
      if Kept(prs, answered, v)
      then out != [] && IsJoin(init, prs, answered, out[..|out| - 1]) && IsJoined(prs, v, out[|out| - 1])
      else IsJoin(init, prs, answered, out)
  }

  /** The positions of the kept rows, in order. */
  ghost function KeptAt(rows: seq<ReviewRow>, prs: map<string, PullRequestRow>, answered: set<int>): (at: seq<int>)
    ensures |at| <= |rows|
    ensures forall k | 0 <= k < |at| :: 0 <= at[k] < |rows| && Kept(prs, answered, rows[at[k]])
    ensures forall j, k | 0 <= j < k < |at| :: at[j] < at[k]
    ensures forall i | 0 <= i < |rows| && Kept(prs, answered, rows[i]) :: i in at
  {
    if rows == [] then []
    else
      var n := |rows| - 1;
      var at := KeptAt(rows[..n], prs, answered);
      if Kept(prs, answered, rows[n]) then at + [n] else at
  }

  lemma KeptAtSnoc(rows: seq<ReviewRow>, prs: map<string, PullRequestRow>, answered: set<int>)
    requires rows != []
    ensures var n := |rows| - 1;
            KeptAt(rows, prs, answered)
            == KeptAt(rows[..n], prs, answered) + if Kept(prs, answered, rows[n]) then [n] else []
  {
  }

  /** The join returns exactly those rows, in order, each with the sizes of a matching pull request. */
  lemma {:induction false} JoinIsSubsequence(rows: seq<ReviewRow>, prs: map<string, PullRequestRow>,
                                             answered: set<int>, out: seq<Review>)
    requires IsJoin(rows, prs, answered, out)
    ensures |out| == |KeptAt(rows, prs, answered)|
    ensures forall k | 0 <= k < |out| :: IsJoined(prs, rows[KeptAt(rows, prs, answered)[k]], out[k])
  {
    hide Kept, IsJoined, KeptAt;
    if rows == [] {
    } else {
      var n := |rows| - 1;
      var at := KeptAt(rows[..n], prs, answered);
      var init := if Kept(prs, answered, rows[n]) then out[..|out| - 1] else out;
      JoinIsSubsequence(rows[..n], prs, answered, init);
      KeptAtSnoc(rows, prs, answered);
      forall k | 0 <= k < |init| ensures IsJoined(prs, rows[KeptAt(rows, prs, answered)[k]], out[k]) {
        assert KeptAt(rows, prs, answered)[k] == at[k];
        assert rows[at[k]] == rows[..n][at[k]] && out[k] == init[k];
      }
    }
  }

  /** `Contains` is containment anywhere: some text before, the part, some text after. */
  lemma ContainsIff(s: string, sub: string)
    ensures Contains(s, sub) <==> exists before, after :: s == before + sub + after
  {
    if Contains(s, sub) {
      var i :| 0 <= i <= |s| - |sub| && OccursAt(s, sub, i);
      assert s == s[..i] + sub + s[i + |sub|..];
    }
    if before, after :| s == before + sub + after {
      assert OccursAt(s, sub, |before|);
    }
  }

  /** The name of the pull request table a review of this repository is matched with. */
  ghost predicate IsLookupOf(name: string, repo: string) {
    if exists before, after :: repo == before + "decred" + after then name == repo else name == "decred/" + repo
  }

  /** Which stored pull requests a review matches: those of its number under that name. */
  lemma MatchesIff(row: PullRequestRow, v: ReviewRow)
    ensures Matches(row, v) <==> row.number == v.number && IsLookupOf(row.repo, v.repo)
  {
    ContainsIff(v.repo, "decred");
  }

  /** The name counts wherever it stands in the repository's name. */
  lemma LookupNames()
    ensures LookupName("dcrd") == "decred/dcrd"
    ensures LookupName("decred-web") == "decred-web" && LookupName("web-decred") == "web-decred"
  {
    assert OccursAt("decred-web", "decred", 0);
    assert OccursAt("web-decred", "decred", 4);
    assert !Contains("dcrd", "decred");
  }

  predicate SlashFree(s: string) { '/' !in s }

  ghost predicate BareNames(prs: map<string, PullRequestRow>) {
    forall u | u in prs :: SlashFree(prs[u].repo)
  }

  /**
   Over a table of bare repository names a review finds its pull request only when its own
   repository name contains "decred": the prefixed name of any other repository is never stored.
   */
  lemma JoinOverBareNames(prs: map<string, PullRequestRow>, v: ReviewRow)
    requires BareNames(prs)
    ensures HasMatch(prs, v) <==>
            && (exists before, after :: v.repo == before + "decred" + after)
            && exists u :: u in prs && prs[u].repo == v.repo && prs[u].number == v.number
  {
    ContainsIff(v.repo, "decred");
    if !Contains(v.repo, ORG) {
      assert LookupName(v.repo)[|ORG|] == '/';
    }
    if Contains(v.repo, ORG) && exists u :: u in prs && prs[u].repo == v.repo && prs[u].number == v.number {
      var u :| u in prs && prs[u].repo == v.repo && prs[u].number == v.number;
      assert Matches(prs[u], v);
    }
  }

  /** A concrete case: the review finds nothing although its pull request is stored beside it. */
  lemma BareRepositoryIsUnmatched(row: PullRequestRow, v: ReviewRow)
    requires row.repo == v.repo == "dcrd" && row.number == v.number
    ensures !HasMatch(map[row.url := row], v)
  {
    assert LookupName("dcrd")[6] == '/';
  }

  // ----- the store

  /** The keys of a table in some order; no query promises more. */
  method AnyOrder<K(==)>(keys: set<K>) returns (order: seq<K>)
    ensures forall i, j | 0 <= i < j < |order| :: order[i] != order[j]
    ensures forall k :: k in order <==> k in keys
  {
    order := [];
    var todo := keys;
    while todo != {}
      invariant todo <= keys
      invariant forall i, j | 0 <= i < j < |order| :: order[i] != order[j]
      invariant forall k :: k in order <==> k in keys && k !in todo
    {
      var k :| k in todo;
      todo := todo - {k};
      order := order + [k];
    }
  }

  class CockroachDB {
    var prs: map<string, PullRequestRow>
    var reviews: map<int, ReviewRow>

    constructor ()
      ensures Valid() && State() == Db(map[], map[])
    {
      prs, reviews := map[], map[];
    }

    ghost function State(): Db
      reads this
    {
      Db(prs, reviews)
    }

    ghost predicate Valid()
      reads this
    {
      WellKeyed(State())
    }

    method Save(p: PullRequest)
      requires Valid()
      modifies this
      ensures Valid()
      ensures State() == Put(old(State()), p)
    {
      PutKeepsKeys(State(), p);
      var row := EncodePullRequest(p);
      prs := prs[row.url := Bare(row)];
      var i := 0;
      while i < |row.reviews|
        invariant 0 <= i <= |row.reviews|
        invariant prs == Put(old(State()), p).prs
        invariant reviews == UpsertReviews(old(reviews), row.reviews[..i])
      {
        reviews := reviews[row.reviews[i].id := row.reviews[i]];
        i := i + 1;
        assert row.reviews[..i][..i - 1] == row.reviews[..i - 1];
      }
      assert row.reviews[..i] == row.reviews;
    }

    method NewPullRequest(p: PullRequest, up: bool) returns (err: Option<StoreError>)
      requires Valid()
      modifies this
      ensures Valid()
      ensures err == if !up then Some(Unavailable) else if p.url in old(prs) then Some(DuplicateKey) else None
      ensures State() == if err == None then Put(old(State()), p) else old(State())
    {
      if !up {
        return Some(Unavailable);
      }
      if p.url in prs {
        return Some(DuplicateKey);
      }
      Save(p);
      return None;
    }

    method UpdatePullRequest(p: PullRequest, up: bool) returns (err: Option<StoreError>)
      requires Valid()
      modifies this
      ensures Valid()
      ensures err == if up then None else Some(Unavailable)
      ensures State() == if up then Put(old(State()), p) else old(State())
    {
      if !up {
        return Some(Unavailable);
      }
      Save(p);
      return None;
    }

    method PullRequestByURL(url: string, up: bool) returns (r: Result<PullRequest, StoreError>)
      ensures r == if !up then Err(Unavailable)
                   else if url in prs then Ok(RecordOf(prs[url]))
                   else Err(NotFound)
    {
      if !up {
        return Err(Unavailable);
      }
      if url !in prs {
        return Err(NotFound);
      }
      var p := DecodePullRequest(prs[url]);
      return Ok(p);
    }

    method FindPullRequests(user: string, lo: int, hi: int) returns (rows: seq<PullRequestRow>)
      requires Valid()
      ensures IsPullRequestQuery(rows, prs, user, lo, hi)
    {
      var order := AnyOrder(prs.Keys);
      rows := [];
      for n := 0 to |order|
        invariant forall i, j | 0 <= i < j < |rows| :: rows[i].url != rows[j].url
        invariant forall i | 0 <= i < |rows| ::
            rows[i].url in order[..n] && prs[rows[i].url] == rows[i] && Selected(rows[i], user, lo, hi)
        invariant forall u | u in order[..n] && Selected(prs[u], user, lo, hi) :: prs[u] in rows
      {
        if Selected(prs[order[n]], user, lo, hi) {
          rows := rows + [prs[order[n]]];
        }
        assert order[..n + 1] == order[..n] + [order[n]];
      }
      assert order[..|order|] == order;
    }

    method PullRequestsByUserDates(user: string, lo: int, hi: int, up: bool)
      returns (r: Result<seq<PullRequest>, StoreError>)
      requires Valid()
      ensures r.Ok? <==> up
      ensures r.Ok? ==> IsUserPullRequests(r.value, prs, user, lo, hi)
    {
      if !up {
        return Err(Unavailable);
      }
      var rows := FindPullRequests(user, lo, hi);
      var out: seq<PullRequest> := [];
      for i := 0 to |rows|
        invariant |out| == i
        invariant forall k | 0 <= k < i :: out[k] == RecordOf(rows[k])
      {
        var p := DecodePullRequest(rows[i]);
        out := out + [p];
      }
      forall u | u in prs && prs[u].author == user && lo <= prs[u].mergedAt <= hi
        ensures RecordOf(prs[u]) in out
      {
        assert Selected(prs[u], user, lo, hi);
        var k :| 0 <= k < |rows| && rows[k] == prs[u];
        assert out[k] == RecordOf(prs[u]);
      }
      return Ok(out);
    }

    method FindReviews(user: string, lo: int, hi: int) returns (rows: seq<ReviewRow>)
      requires Valid()
      ensures IsReviewQuery(rows, reviews, user, lo, hi)
    {
      var order := AnyOrder(reviews.Keys);
      rows := [];
      for n := 0 to |order|
        invariant forall i, j | 0 <= i < j < |rows| :: rows[i].id != rows[j].id
        invariant forall i | 0 <= i < |rows| ::
            rows[i].id in order[..n] && reviews[rows[i].id] == rows[i]
            && rows[i].author == user && lo <= rows[i].submittedAt <= hi
        invariant forall k | k in order[..n] && reviews[k].author == user
                             && lo <= reviews[k].submittedAt <= hi :: reviews[k] in rows
      {
        var k := order[n];
        assert k in order;
        var row := reviews[k];
        assert row.id == k && k !in order[..n];
        if row.author == user && InRange(row.submittedAt, lo, hi) {
          rows := rows + [row];
        }
        assert order[..n + 1] == order[..n] + [order[n]];
      }
      assert order[..|order|] == order;
    }

    /** Some pull request row of this repository and number. */
    method FindByNumber(repo: string, number: int, up: bool) returns (r: Result<PullRequestRow, StoreError>)
      ensures r.Ok? <==> up && exists u :: u in prs && prs[u].repo == repo && prs[u].number == number
      ensures r.Err? ==> r.error == if up then NotFound else Unavailable
      ensures r.Ok? ==> exists u :: u in prs && prs[u] == r.value && prs[u].repo == repo && prs[u].number == number
    {
      if !up {
        return Err(Unavailable);
      }
      r := Err(NotFound);
      var order := AnyOrder(prs.Keys);
      for n := 0 to |order|
        invariant r.Ok? || r == Err(NotFound)
        invariant r.Err? ==> forall u | u in order[..n] :: !(prs[u].repo == repo && prs[u].number == number)
        invariant r.Ok? ==>
            exists u :: u in prs && prs[u] == r.value && prs[u].repo == repo && prs[u].number == number
      {
        if prs[order[n]].repo == repo && prs[order[n]].number == number {
          r := Ok(prs[order[n]]);
        }
        assert order[..n + 1] == order[..n] + [order[n]];
      }
      assert order[..|order|] == order;
    }

    /** Succeeds whenever the query does: a review whose lookup fails, for whatever reason, is skipped. */
    method ReviewsByUserDates(user: string, lo: int, hi: int, up: bool, answered: set<int>)
      returns (r: Result<seq<Review>, StoreError>, ghost rows: seq<ReviewRow>)
      requires Valid()
      ensures r.Ok? <==> up
      ensures r.Ok? ==> IsReviewQuery(rows, reviews, user, lo, hi) && IsJoin(rows, prs, answered, r.value)
    {
      rows := [];
      if !up {
        return Err(Unavailable), rows;
      }
      var found := FindReviews(user, lo, hi);
      rows := found;
      var out: seq<Review> := [];
      var i := 0;
      while i < |found|
        invariant 0 <= i <= |found|
        invariant IsJoin(found[..i], prs, answered, out)
      {
        var v := found[i];
        i := i + 1;
        assert found[..i][..i - 1] == found[..i - 1];
        var repo := LookupName(v.repo);
        var m := FindByNumber(repo, v.number, v.id in answered);
        if m.Err? {
          assert !Kept(prs, answered, v);
          continue;
        }
        ghost var u :| u in prs && prs[u] == m.value && prs[u].repo == repo && prs[u].number == v.number;
        assert Matches(prs[u], v);
        assert Kept(prs, answered, v);
        var joined := DecodeReview(v).(additions := m.value.additions, deletions := m.value.deletions);
        assert IsJoined(prs, v, joined);
        assert (out + [joined])[..|out|] == out;
        out := out + [joined];
      }
      assert found[..i] == found;
      return Ok(out), rows;
    }
  }
}
