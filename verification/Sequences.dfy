/** Sums and filters over sequences, and how they react to rearranging the elements. */
module Sequences {

  function SumBy<T>(w: T -> int, s: seq<T>): int {
    if s == [] then 0 else SumBy(w, s[..|s| - 1]) + w(s[|s| - 1])
  }

  function Filter<T>(p: T -> bool, s: seq<T>): seq<T> {
    if s == [] then []
    else
      var x := s[|s| - 1];
      if p(x) then Filter(p, s[..|s| - 1]) + [x] else Filter(p, s[..|s| - 1])
  }

  ghost predicate Distinct<T(!new)>(s: seq<T>) {
    forall i, j | 0 <= i < j < |s| :: s[i] != s[j]
  }

  lemma SplitLast<T>(s: seq<T>)
    requires s != []
    ensures s == s[..|s| - 1] + [s[|s| - 1]]
  {
  }

  lemma ConcatAssociates<T>(a: seq<T>, b: seq<T>, c: seq<T>)
    ensures (a + b) + c == a + (b + c)
  {
  }

  lemma SumBySnoc<T>(w: T -> int, s: seq<T>, x: T)
    ensures SumBy(w, s + [x]) == SumBy(w, s) + w(x)
  {
    assert (s + [x])[..|s|] == s;
  }

  lemma FilterSnoc<T>(p: T -> bool, s: seq<T>, x: T)
    ensures Filter(p, s + [x]) == if p(x) then Filter(p, s) + [x] else Filter(p, s)
  {
    assert (s + [x])[..|s|] == s;
  }

  lemma {:induction false} SumByConcat<T>(w: T -> int, a: seq<T>, b: seq<T>)
    ensures SumBy(w, a + b) == SumBy(w, a) + SumBy(w, b)
  {
    if b == [] {
      assert a + b == a;
    } else {
      var init := b[..|b| - 1];
      SumByConcat(w, a, init);
      assert (a + b)[..|a + b| - 1] == a + init;
    }
  }

  lemma {:induction false} FilterConcat<T>(p: T -> bool, a: seq<T>, b: seq<T>)
    ensures Filter(p, a + b) == Filter(p, a) + Filter(p, b)
  {
    if b == [] {
      assert a + b == a;
    } else {
      var init := b[..|b| - 1];
      FilterConcat(p, a, init);
      assert (a + b)[..|a + b| - 1] == a + init;
    }
  }

  lemma {:induction false} FilterMembers<T>(p: T -> bool, s: seq<T>, x: T)
    ensures x in Filter(p, s) <==> x in s && p(x)
    ensures multiset(Filter(p, s))[x] == if p(x) then multiset(s)[x] else 0
  {
    if s == [] {
    } else {
      FilterMembers(p, s[..|s| - 1], x);
      assert s == s[..|s| - 1] + [s[|s| - 1]];
    }
  }

  /** Taking one element out of a permutation leaves a permutation. */
  lemma RemoveOne<T>(a: seq<T>, b: seq<T>, x: T) returns (k: int)
    requires multiset(a + [x]) == multiset(b)
    ensures 0 <= k < |b| && b[k] == x
    ensures multiset(a) == multiset(b[..k] + b[k + 1..])
  {
    assert x in multiset(b);
    k :| 0 <= k < |b| && b[k] == x;
    assert b == b[..k] + [x] + b[k + 1..];
    assert multiset(a) == multiset(a + [x]) - multiset{x};
  }

  /** A sum depends only on which elements occur and how often. */
  lemma {:induction false} SumByPermutation<T>(w: T -> int, a: seq<T>, b: seq<T>)
    requires multiset(a) == multiset(b)
    ensures SumBy(w, a) == SumBy(w, b)
  {
    if a == [] {
      assert |multiset(b)| == 0;
    } else {
      hide *;
      var init, x := a[..|a| - 1], a[|a| - 1];
      SplitLast(a);
      var k := RemoveOne(init, b, x);
      SumByPermutation(w, init, b[..k] + b[k + 1..]);
      SumBySnoc(w, init, x);
      SumByRemove(w, b, k);
    }
  }

  lemma SumByRemove<T>(w: T -> int, s: seq<T>, k: int)
    requires 0 <= k < |s|
    ensures SumBy(w, s) == SumBy(w, s[..k] + s[k + 1..]) + w(s[k])
  {
    hide *;
    var l, x, r := s[..k], s[k], s[k + 1..];
    assert s == l + [x] + r;
    SumByConcat(w, l, r);
    SumByConcat(w, l + [x], r);
    SumBySnoc(w, l, x);
  }

  lemma FilterPermutation<T(!new)>(p: T -> bool, a: seq<T>, b: seq<T>)
    requires multiset(a) == multiset(b)
    ensures multiset(Filter(p, a)) == multiset(Filter(p, b))
  {
    forall x: T ensures multiset(Filter(p, a))[x] == multiset(Filter(p, b))[x] {
      FilterMembers(p, a, x);
      FilterMembers(p, b, x);
    }
  }

  lemma {:induction false} DistinctCounts<T(!new)>(s: seq<T>, x: T)
    requires Distinct(s)
    ensures multiset(s)[x] == if x in s then 1 else 0
  {
    if s == [] {
    } else {
      var n := |s| - 1;
      assert s == s[..n] + [s[n]];
      DistinctCounts(s[..n], x);
    }
  }

  /** Two enumerations of the same elements without repetition are permutations of each other. */
  lemma SameElements<T(!new)>(a: seq<T>, b: seq<T>)
    requires Distinct(a) && Distinct(b)
    requires forall x :: x in a <==> x in b
    ensures multiset(a) == multiset(b)
  {
    forall x: T ensures multiset(a)[x] == multiset(b)[x] {
      DistinctCounts(a, x);
      DistinctCounts(b, x);
    }
  }

  lemma {:induction false} FilterKeepsDistinct<T(!new)>(p: T -> bool, s: seq<T>)
    requires Distinct(s)
    ensures Distinct(Filter(p, s))
  {
    if s == [] {
    } else {
      var n := |s| - 1;
      FilterKeepsDistinct(p, s[..n]);
      FilterMembers(p, s[..n], s[n]);
    }
  }

  /** Summing a filtered sequence is summing with the other weights set to zero. */
  lemma {:induction false} SumByFilter<T>(w: T -> int, p: T -> bool, v: T -> int, s: seq<T>)
    requires forall x: T | x in s :: v(x) == if p(x) then w(x) else 0
    ensures SumBy(w, Filter(p, s)) == SumBy(v, s)
  {
    if s == [] {
    } else {
      var init := s[..|s| - 1];
      SumByFilter(w, p, v, init);
      if p(s[|s| - 1]) {
        SumBySnoc(w, Filter(p, init), s[|s| - 1]);
      }
    }
  }

  lemma {:induction false} SumByBound<T>(w: T -> int, s: seq<T>, bound: int)
    requires 0 <= bound
    requires forall x: T | x in s :: -bound <= w(x) <= bound
    ensures -(|s| * bound) <= SumBy(w, s) <= |s| * bound
  {
    if s == [] {
    } else {
      var init := s[..|s| - 1];
      SumByBound(w, init, bound);
      assert |s| * bound == |init| * bound + bound;
    }
  }

  lemma {:induction false} FilterIsShorter<T>(p: T -> bool, s: seq<T>)
    ensures |Filter(p, s)| <= |s|
  {
    if s == [] {
    } else {
      FilterIsShorter(p, s[..|s| - 1]);
    }
  }

  lemma {:induction false} SumByPointwise<T>(u: T -> int, v: T -> int, w: T -> int, s: seq<T>)
    requires forall x | x in s :: w(x) == u(x) + v(x)
    ensures SumBy(w, s) == SumBy(u, s) + SumBy(v, s)
  {
    if s == [] {
    } else {
      SumByPointwise(u, v, w, s[..|s| - 1]);
    }
  }

  lemma {:induction false} SumBySame<T>(u: T -> int, v: T -> int, s: seq<T>)
    requires forall x | x in s :: u(x) == v(x)
    ensures SumBy(u, s) == SumBy(v, s)
  {
    if s == [] {
    } else {
      SumBySame(u, v, s[..|s| - 1]);
    }
  }
}
