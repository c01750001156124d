/**
 Paged listings (api/pullrequests.go). A server answers page k with a list or a failure; pages
 past the last one given are empty. The loop asks for page 1, 2, ... until a page is empty or fails.
 */
module Pagination {
  import opened Wrappers

  datatype FetchError = FetchError

  // The answers to pages 1, 2, ..., in that order.
  type Pages<T> = seq<Result<seq<T>, FetchError>>

  function PageAt<T>(pages: Pages<T>, page: int): Result<seq<T>, FetchError>
    requires page >= 1
  {
    if page <= |pages| then pages[page - 1] else Ok([])
  }

  datatype Fetched<T> = Fetched(items: seq<T>, err: Option<FetchError>)

  /** `FetchPullsRequest` and `FetchPullRequestCommits`: what is returned beside an error is what came before it. */
  method FetchAll<T>(pages: Pages<T>) returns (r: Fetched<T>)
    ensures r == Paged(pages)
  {
    var total: seq<T> := [];
    var page := 1;
    while true
      invariant 1 <= page <= |pages| + 1
      invariant Paged(pages) == Prepend(total, Paged(pages[page - 1..]))
      decreases |pages| + 1 - page
    {
      var answer := PageAt(pages, page);
      if answer.Err? {
        return Fetched(total, Some(answer.error));
      }
      if |answer.value| == 0 {
        break;
      }
      assert pages[page - 1..][1..] == pages[page..];
      total := total + answer.value;
      page := page + 1;
    }
    return Fetched(total, None);
  }

  function Prepend<T>(items: seq<T>, r: Fetched<T>): Fetched<T> { r.(items := items + r.items) }

  /** The pages up to the first empty or failing one. */
  function Paged<T>(pages: Pages<T>): Fetched<T> {
    if pages == [] then Fetched([], None)
    else match pages[0]
      case Err(e) => Fetched([], Some(e))
      case Ok(items) => if items == [] then Fetched([], None) else Prepend(items, Paged(pages[1..]))
  }

  function Flatten<T>(lists: seq<seq<T>>): seq<T> {
    if lists == [] then [] else lists[0] + Flatten(lists[1..])
  }

  function Served<T>(lists: seq<seq<T>>): Pages<T> {
    seq(|lists|, i requires 0 <= i < |lists| => Ok(lists[i]))
  }

  ghost predicate NonEmptyLists<T>(lists: seq<seq<T>>) {
    forall i | 0 <= i < |lists| :: lists[i] != []
  }

  /**
   However a list is cut into non-empty pages, the loop returns the list in order; if a later page
   fails it returns the pages before it, a prefix, beside the error; and what follows the first
   empty page is never seen.
   */
  lemma {:induction false} PagingRefines<T>(lists: seq<seq<T>>, rest: Pages<T>)
    requires NonEmptyLists(lists)
    ensures Paged(Served(lists) + rest) == Prepend(Flatten(lists), Paged(rest))
    ensures Paged(Served(lists)) == Fetched(Flatten(lists), None)
    ensures forall e, tail :: rest == [Err(e)] + tail ==>
              Paged(Served(lists) + rest) == Fetched(Flatten(lists), Some(e))
    ensures forall tail :: rest == [Ok([])] + tail ==> Paged(Served(lists) + rest) == Fetched(Flatten(lists), None)
  {
    var all := Served(lists) + rest;
    if lists == [] {
      assert all == rest;
    } else {
      PagingRefines(lists[1..], rest);
      assert all[1..] == Served(lists[1..]) + rest;
      assert Served(lists)[1..] == Served(lists[1..]);
      var r := Paged(rest);
      assert lists[0] + (Flatten(lists[1..]) + r.items) == Flatten(lists) + r.items;
    }
  }

  /** The listing is complete exactly when no page before the end of the data is empty or fails. */
  lemma {:induction false} PagingComplete<T>(pages: Pages<T>, lists: seq<seq<T>>)
    requires |lists| == |pages| && forall i | 0 <= i < |pages| && pages[i].Ok? :: pages[i].value == lists[i]
    requires NonEmptyLists(lists)
    ensures Paged(pages).err == None <==> forall i | 0 <= i < |pages| :: pages[i].Ok?
    ensures Paged(pages) == Fetched(Flatten(lists), None) <==> forall i | 0 <= i < |pages| :: pages[i].Ok?
  {
    if pages == [] || pages[0].Err? {
    } else {
      PagingComplete(pages[1..], lists[1..]);
      assert (forall i | 0 <= i < |pages| :: pages[i].Ok?)
             <==> (forall i | 0 <= i < |pages[1..]| :: pages[1..][i].Ok?) by {
        assert forall i | 0 < i < |pages| :: pages[i] == pages[1..][i - 1];
      }
    }
  }
}
