/**
 Listings page by page: the collector that keeps the best `limit + 1` items in a heap, and the plain
 form that cuts a page out of the sorted list. A key is the rank of its sort text, then the id.
 */
module Pagination {
  import opened Wrappers

  datatype Key = Key(rank: nat, id: nat)

  datatype Keyed<T> = Keyed(key: Key, item: T)

  predicate Less(a: Key, b: Key) {
    a.rank < b.rank || (a.rank == b.rank && a.id < b.id)
  }

  // A token names the last key seen; an empty or malformed one is no token.
  predicate Behind(key: Key, token: Option<Key>) {
    token.Some? ==> Less(token.value, key)
  }

  predicate Sorted<T>(items: seq<Keyed<T>>) {
    forall i, j :: 0 <= i < j < |items| ==> Less(items[i].key, items[j].key)
  }

  /** Key order is by the rank of the sort text first and by the id among equal ranks. */
  lemma SortedIff<T>(items: seq<Keyed<T>>)
    ensures Sorted(items) <==>
            forall i, j :: 0 <= i < j < |items| ==>
              items[i].key.rank <= items[j].key.rank && (items[i].key.rank == items[j].key.rank ==> items[i].key.id < items[j].key.id)
  {
  }

  datatype Page<T> = Page(items: seq<T>, next: Option<Key>)

  const DEFAULT_PAGE_SIZE := 100
  const MAX_PAGE_SIZE := 1000

  function EffectivePageSize(pageSize: nat): (limit: nat)
    ensures pageSize == 0 ==> limit == 100
    ensures 1 <= pageSize <= 1000 ==> limit == pageSize
    ensures pageSize > 1000 ==> limit == 1000
  {
    if pageSize == 0 then DEFAULT_PAGE_SIZE else if pageSize < MAX_PAGE_SIZE then pageSize else MAX_PAGE_SIZE
  }

  function Take<T>(s: seq<T>, n: nat): seq<T> {
    if |s| <= n then s else s[..n]
  }

  function Items<T>(keyed: seq<Keyed<T>>): seq<T> {
    seq(|keyed|, i requires 0 <= i < |keyed| => keyed[i].item)
  }

  // ---- The plain form ----

  // The number of items at or before the token.
  function StartOf<T>(sorted: seq<Keyed<T>>, token: Option<Key>): (n: nat)
    ensures n <= |sorted|
  {
    if sorted == [] || Behind(sorted[0].key, token) then 0 else 1 + StartOf(sorted[1..], token)
  }

  function PageOf<T>(remaining: seq<Keyed<T>>, limit: nat): Page<T> {
    Page(Items(Take(remaining, limit)),
         if |remaining| > limit && limit > 0 then Some(remaining[limit - 1].key) else None)
  }

  function Paginate<T>(sorted: seq<Keyed<T>>, limit: nat, token: Option<Key>): Page<T> {
    PageOf(sorted[StartOf(sorted, token)..], limit)
  }

  // ---- The collector ----

  // The heap is kept here as its content in ascending order; its top is the last item.
  function SortIn<T>(heap: seq<Keyed<T>>, x: Keyed<T>): (more: seq<Keyed<T>>)
    ensures |more| == |heap| + 1
  {
    if heap == [] || !Less(x.key, heap[|heap| - 1].key) then heap + [x]
    else SortIn(heap[..|heap| - 1], x) + [heap[|heap| - 1]]
  }

  function Pushed<T>(heap: seq<Keyed<T>>, limit: nat, token: Option<Key>, x: Keyed<T>): seq<Keyed<T>> {
    if !Behind(x.key, token) then heap
    else if |heap| <= limit then SortIn(heap, x)
    else if Less(x.key, heap[|heap| - 1].key) then SortIn(heap[..|heap| - 1], x)
    else heap
  }

  function PushedAll<T>(limit: nat, token: Option<Key>, items: seq<Keyed<T>>): seq<Keyed<T>> {
    if items == [] then [] else Pushed(PushedAll(limit, token, items[..|items| - 1]), limit, token, items[|items| - 1])
  }

  /** The collector of one page. */
  class PageCollector<T> {
    const limit: nat
    const cursor: Option<Key>
    var heap: seq<Keyed<T>>

    constructor (limit: nat, token: Option<Key>)
      ensures this.limit == limit && cursor == token && heap == []
    {
      this.limit := limit;
      cursor := token;
      heap := [];
    }

    method Push(key: Key, item: T)
      modifies this
      ensures heap == Pushed(old(heap), limit, cursor, Keyed(key, item))
    {
      if !Behind(key, cursor) {
        return;
      }
      if |heap| <= limit {
        heap := SortIn(heap, Keyed(key, item));
      } else {
        var top := heap[|heap| - 1];
        if Less(key, top.key) {
          heap := heap[..|heap| - 1];
          heap := SortIn(heap, Keyed(key, item));
        }
      }
    }

    method IntoPage() returns (page: Page<T>)
      ensures page == PageOf(heap, limit)
    {
      var items := heap;
      var hasMore := |items| > limit;
      if hasMore {
        items := items[..limit];
      }
      var next: Option<Key> := None;
      if hasMore && |items| > 0 {
        next := Some(items[|items| - 1].key);
      }
      page := Page(Items(items), next);
    }
  }

  // ---- Sorted lists ----

  predicate DistinctKeys<T>(items: seq<Keyed<T>>) {
    forall i, j :: 0 <= i < j < |items| ==> items[i].key != items[j].key
  }

  ghost predicate Within<T>(a: seq<Keyed<T>>, b: seq<Keyed<T>>) {
    forall x <- a :: x in b
  }

  ghost predicate SameItems<T>(a: seq<Keyed<T>>, b: seq<Keyed<T>>) {
    Within(a, b) && Within(b, a)
  }

  function SortAll<T>(items: seq<Keyed<T>>): seq<Keyed<T>> {
    if items == [] then [] else SortIn(SortAll(items[..|items| - 1]), items[|items| - 1])
  }

  lemma {:induction false} SortInContent<T>(s: seq<Keyed<T>>, x: Keyed<T>)
    ensures forall y <- SortIn(s, x) :: y in s || y == x
    ensures x in SortIn(s, x) && forall y <- s :: y in SortIn(s, x)
  {
    if s != [] && Less(x.key, s[|s| - 1].key) {
      var front := s[..|s| - 1];
      SortInContent(front, x);
      assert s == front + [s[|s| - 1]];
    }
  }

  lemma {:induction false} SortInSorted<T>(s: seq<Keyed<T>>, x: Keyed<T>)
    requires Sorted(s) && forall y <- s :: y.key != x.key
    ensures Sorted(SortIn(s, x))
  {
    if s != [] {
      var front, last := s[..|s| - 1], s[|s| - 1];
      assert last in s;
      if Less(x.key, last.key) {
        SortInSorted(front, x);
        SortInContent(front, x);
        var r := SortIn(front, x);
        forall i | 0 <= i < |r| ensures Less(r[i].key, last.key) {
          assert r[i] in r;
          assert r[i] in front || r[i] == x;
        }
      }
    }
  }

  lemma {:induction false} SortAllContent<T>(items: seq<Keyed<T>>)
    ensures SameItems(SortAll(items), items)
  {
    if items != [] {
      var front, last := items[..|items| - 1], items[|items| - 1];
      SortAllContent(front);
      SortInContent(SortAll(front), last);
      assert items == front + [last];
    }
  }

  lemma {:induction false} SortAllSorted<T>(items: seq<Keyed<T>>)
    requires DistinctKeys(items)
    ensures Sorted(SortAll(items))
  {
    if items != [] {
      var front, last := items[..|items| - 1], items[|items| - 1];
      SortAllSorted(front);
      SortAllContent(front);
      forall y <- SortAll(front) ensures y.key != last.key {
        assert y in front;
      }
      SortInSorted(SortAll(front), last);
    }
  }

  lemma LastApart<T>(a: seq<Keyed<T>>)
    requires a != [] && Sorted(a)
    ensures a[|a| - 1] !in a[..|a| - 1]
  {
    forall i | 0 <= i < |a| - 1 ensures a[i] != a[|a| - 1] {
      assert Less(a[i].key, a[|a| - 1].key);
    }
  }

  lemma SameLast<T>(a: seq<Keyed<T>>, b: seq<Keyed<T>>)
    requires Sorted(a) && Sorted(b) && SameItems(a, b) && a != [] && b != []
    ensures a[|a| - 1] == b[|b| - 1]
  {
    var x, y := a[|a| - 1], b[|b| - 1];
    assert x in a && y in b;
    var i :| 0 <= i < |b| && b[i] == x;
    var j :| 0 <= j < |a| && a[j] == y;
    assert i < |b| - 1 ==> Less(x.key, y.key);
    assert j < |a| - 1 ==> Less(y.key, x.key);
  }

  lemma SameFront<T>(a: seq<Keyed<T>>, b: seq<Keyed<T>>)
    requires Sorted(a) && a != [] && b != [] && a[|a| - 1] == b[|b| - 1] && Within(a, b)
    ensures Within(a[..|a| - 1], b[..|b| - 1])
  {
    LastApart(a);
    var c, d := a[..|a| - 1], b[..|b| - 1];
    forall z <- c ensures z in d {
      assert z in a && z in b;
      assert b == d + [b[|b| - 1]];
    }
  }

  // A sorted list is determined by what is in it.
  lemma {:induction false} SortedUnique<T>(a: seq<Keyed<T>>, b: seq<Keyed<T>>)
    requires Sorted(a) && Sorted(b) && SameItems(a, b)
    ensures a == b
  {
    assert |b| > 0 ==> b[0] in b;
    if a != [] {
      assert a[0] in b;
      SameLast(a, b);
      SameFront(a, b);
      SameFront(b, a);
      SortedUnique(a[..|a| - 1], b[..|b| - 1]);
      assert a == a[..|a| - 1] + [a[|a| - 1]] && b == b[..|b| - 1] + [b[|b| - 1]];
    }
  }

  // ---- The collector keeps the first items of the sorted list ----

  lemma {:induction false} TakeSortIn<T>(s: seq<Keyed<T>>, x: Keyed<T>, n: nat)
    requires Sorted(s) && 0 < n <= |s|
    ensures Take(SortIn(s, x), n) == if Less(x.key, s[n - 1].key) then SortIn(s[..n - 1], x) else s[..n]
  {
    var front, last := s[..|s| - 1], s[|s| - 1];
    if !Less(x.key, last.key) {
      assert Take(s + [x], n) == s[..n];
      assert n < |s| ==> Less(s[n - 1].key, last.key);
    } else if n < |s| {
      TakeSortIn(front, x, n);
      assert front[..n - 1] == s[..n - 1] && front[..n] == s[..n];
    } else {
      assert s[..n - 1] == front;
      assert Take(SortIn(front, x) + [last], n) == SortIn(front, x);
    }
  }

  lemma FullHeap<T>(s: seq<Keyed<T>>, limit: nat)
    requires |s| > limit
    ensures Take(s, limit + 1) == s[..limit + 1]
    ensures s[..limit + 1][..limit] == s[..limit]
  {
    if |s| == limit + 1 {
      assert s[..limit + 1] == s;
    }
  }

  // One push keeps the first limit + 1 of what has been let through so far.
  lemma PushKeepsFirst<T>(s: seq<Keyed<T>>, limit: nat, token: Option<Key>, x: Keyed<T>)
    requires Sorted(s)
    ensures Pushed(Take(s, limit + 1), limit, token, x) == Take(if Behind(x.key, token) then SortIn(s, x) else s, limit + 1)
  {
    if |s| > limit {
      FullHeap(s, limit);
      TakeSortIn(s, x, limit + 1);
    }
  }

  function Eligible<T>(items: seq<Keyed<T>>, token: Option<Key>): seq<Keyed<T>> {
    if items == [] then []
    else Eligible(items[..|items| - 1], token) + if Behind(items[|items| - 1].key, token) then [items[|items| - 1]] else []
  }

  lemma {:induction false} EligibleContent<T>(items: seq<Keyed<T>>, token: Option<Key>)
    ensures forall x <- Eligible(items, token) :: x in items && Behind(x.key, token)
    ensures forall x <- items :: Behind(x.key, token) ==> x in Eligible(items, token)
  {
    if items != [] {
      EligibleContent(items[..|items| - 1], token);
      assert items == items[..|items| - 1] + [items[|items| - 1]];
    }
  }

  lemma {:induction false} EligibleDistinct<T>(items: seq<Keyed<T>>, token: Option<Key>)
    requires DistinctKeys(items)
    ensures DistinctKeys(Eligible(items, token))
  {
    if items != [] {
      var front, last := items[..|items| - 1], items[|items| - 1];
      EligibleDistinct(front, token);
      EligibleContent(front, token);
      var e := Eligible(front, token);
      forall k | 0 <= k < |e| ensures e[k].key != last.key {
        assert e[k] in front;
      }
    }
  }

  lemma {:induction false} PushedAllKeepsFirst<T>(limit: nat, token: Option<Key>, items: seq<Keyed<T>>)
    requires DistinctKeys(items)
    ensures PushedAll(limit, token, items) == Take(SortAll(Eligible(items, token)), limit + 1)
  {
    if items != [] {
      var front, last := items[..|items| - 1], items[|items| - 1];
      PushedAllKeepsFirst(limit, token, front);
      EligibleDistinct(front, token);
      SortAllSorted(Eligible(front, token));
      PushKeepsFirst(SortAll(Eligible(front, token)), limit, token, last);
      if Behind(last.key, token) {
        var eligible := Eligible(items, token);
        assert eligible[..|eligible| - 1] == Eligible(front, token);
      } else {
        assert Eligible(front, token) + [] == Eligible(front, token);
      }
    }
  }

  // ---- The plain form cuts the list behind the token ----

  lemma {:induction false} StartSplits<T>(sorted: seq<Keyed<T>>, token: Option<Key>)
    requires Sorted(sorted)
    ensures var n := StartOf(sorted, token);
            && (forall i :: 0 <= i < n ==> !Behind(sorted[i].key, token))
            && (forall i :: n <= i < |sorted| ==> Behind(sorted[i].key, token))
  {
    if sorted != [] {
      if Behind(sorted[0].key, token) {
        forall i | 0 < i < |sorted| ensures Behind(sorted[i].key, token) {
          assert Less(sorted[0].key, sorted[i].key);
        }
      } else {
        var rest := sorted[1..];
        assert forall i, j :: 0 <= i < j < |rest| ==> rest[i] == sorted[i + 1] && rest[j] == sorted[j + 1];
        StartSplits(rest, token);
        assert forall i :: 0 < i < |sorted| ==> sorted[i] == rest[i - 1];
      }
    }
  }

  lemma RemainingIsEligible<T>(items: seq<Keyed<T>>, sorted: seq<Keyed<T>>, token: Option<Key>)
    requires DistinctKeys(items) && Sorted(sorted) && SameItems(items, sorted)
    ensures SortAll(Eligible(items, token)) == sorted[StartOf(sorted, token)..]
  {
    var eligible, n := Eligible(items, token), StartOf(sorted, token);
    EligibleContent(items, token);
    EligibleDistinct(items, token);
    SortAllSorted(eligible);
    SortAllContent(eligible);
    StartSplits(sorted, token);
    var a, b := SortAll(eligible), sorted[n..];
    forall x <- a ensures x in b {
      assert x in eligible && x in sorted;
      var i :| 0 <= i < |sorted| && sorted[i] == x;
      assert b[i - n] == x;
    }
    forall x <- b ensures x in a {
      assert x in sorted;
    }
    SortedUnique(a, b);
  }

  lemma PageOfFirst<T>(remaining: seq<Keyed<T>>, limit: nat)
    ensures PageOf(Take(remaining, limit + 1), limit) == PageOf(remaining, limit)
  {
    if |remaining| > limit {
      assert Take(remaining, limit + 1)[..limit] == remaining[..limit];
    }
  }

  // The first `count` items behind the token are those of a page that starts at position n.
  ghost predicate IsPage<T>(sorted: seq<Keyed<T>>, token: Option<Key>, n: nat, page: seq<T>) {
    && n + |page| <= |sorted|
    && (forall i :: 0 <= i < |sorted| ==> (Behind(sorted[i].key, token) <==> n <= i))
    && (forall i :: 0 <= i < |page| ==> page[i] == sorted[n + i].item)
  }

  /**
   A page holds the items next behind the token in key order: as many as were asked for, or all there are. It
   carries a token, the key of its last item, exactly if items are left.
   */
  lemma PageMeaning<T>(sorted: seq<Keyed<T>>, limit: nat, token: Option<Key>) returns (n: nat)
    requires Sorted(sorted) && limit > 0
    ensures var page := Paginate(sorted, limit, token);
            && IsPage(sorted, token, n, page.items)
            && |page.items| == (if |sorted| - n < limit then |sorted| - n else limit)
            && page.next == if n + limit < |sorted| then Some(sorted[n + limit - 1].key) else None
  {
    n := StartOf(sorted, token);
    StartSplits(sorted, token);
  }

  /** Pushing the items in any order gives the page and the token that cutting the sorted list gives. */
  lemma CollectorRefinesPaginate<T>(items: seq<Keyed<T>>, sorted: seq<Keyed<T>>, limit: nat, token: Option<Key>)
    requires DistinctKeys(items) && Sorted(sorted) && SameItems(items, sorted)
    ensures PageOf(PushedAll(limit, token, items), limit) == Paginate(sorted, limit, token)
  {
    PushedAllKeepsFirst(limit, token, items);
    RemainingIsEligible(items, sorted, token);
    PageOfFirst(sorted[StartOf(sorted, token)..], limit);
  }

  /** The listing as the program writes it: every indexed item is pushed, in the order of the index. */
  method ListPage<T>(items: seq<Keyed<T>>, pageSize: nat, token: Option<Key>, ghost sorted: seq<Keyed<T>>) returns (page: Page<T>)
    requires DistinctKeys(items) && Sorted(sorted) && SameItems(items, sorted)
    ensures page == Paginate(sorted, EffectivePageSize(pageSize), token)
  {
    var limit := EffectivePageSize(pageSize);
    var collector := new PageCollector<T>(limit, token);
    for k := 0 to |items|
      invariant collector.limit == limit && collector.cursor == token
      invariant collector.heap == PushedAll(limit, token, items[..k])
    {
      collector.Push(items[k].key, items[k].item);
      assert items[..k + 1][..k] == items[..k];
    }
    assert items[..|items|] == items;
    CollectorRefinesPaginate(items, sorted, limit, token);
    page := collector.IntoPage();
  }

  // ---- Following the tokens ----

  lemma TokenMovesOn<T>(sorted: seq<Keyed<T>>, i: nat)
    requires Sorted(sorted) && i < |sorted|
    ensures StartOf(sorted, Some(sorted[i].key)) == i + 1
  {
    var token := Some(sorted[i].key);
    StartSplits(sorted, token);
    var n := StartOf(sorted, token);
    assert i < n;
    assert i + 1 < |sorted| ==> Less(sorted[i].key, sorted[i + 1].key);
  }

  // The items of the page at the token and of all pages after it.
  function Walk<T>(sorted: seq<Keyed<T>>, limit: nat, token: Option<Key>): seq<T>
    requires Sorted(sorted)
    decreases |sorted| - StartOf(sorted, token)
  {
    var page := Paginate(sorted, limit, token);
    if page.next.None? then page.items
    else
      TokenMovesOn(sorted, StartOf(sorted, token) + limit - 1);
      page.items + Walk(sorted, limit, page.next)
  }

  lemma ItemsConcat<T>(a: seq<Keyed<T>>, b: seq<Keyed<T>>)
    ensures Items(a + b) == Items(a) + Items(b)
  {
  }

  // A full page, and what is behind it.
  lemma FullPage<T>(sorted: seq<Keyed<T>>, limit: nat, token: Option<Key>)
    requires Sorted(sorted) && limit > 0 && |sorted| - StartOf(sorted, token) > limit
    ensures var n, page := StartOf(sorted, token), Paginate(sorted, limit, token);
            && page.next.Some? && StartOf(sorted, page.next) == n + limit
            && page.items + Items(sorted[n + limit..]) == Items(sorted[n..])
  {
    var n := StartOf(sorted, token);
    TokenMovesOn(sorted, n + limit - 1);
    var rest := sorted[n..];
    assert rest == rest[..limit] + sorted[n + limit..];
    ItemsConcat(rest[..limit], sorted[n + limit..]);
  }

  lemma {:induction false} WalkFrom<T>(sorted: seq<Keyed<T>>, limit: nat, token: Option<Key>)
    requires Sorted(sorted) && limit > 0
    ensures Walk(sorted, limit, token) == Items(sorted[StartOf(sorted, token)..])
    decreases |sorted| - StartOf(sorted, token)
  {
    if |sorted| - StartOf(sorted, token) > limit {
      FullPage(sorted, limit, token);
      WalkFrom(sorted, limit, Paginate(sorted, limit, token).next);
    }
  }

  /** Following the tokens from the start visits every item exactly once, in key order, whatever page size is asked for. */
  lemma WalkVisitsAll<T>(sorted: seq<Keyed<T>>, pageSize: nat)
    requires Sorted(sorted)
    ensures Walk(sorted, EffectivePageSize(pageSize), None) == Items(sorted)
  {
    WalkFrom(sorted, EffectivePageSize(pageSize), None);
    assert sorted[0..] == sorted;
  }

  /** A page size of zero, taken as it is, would end the walk at once: the effective size is what makes listings complete. */
  lemma WalkNeedsPositiveLimit<T>(sorted: seq<Keyed<T>>, limit: nat)
    requires Sorted(sorted)
    ensures Walk(sorted, limit, None) == Items(sorted) <==> limit > 0 || sorted == []
  {
    if limit > 0 {
      WalkFrom(sorted, limit, None);
      assert sorted[0..] == sorted;
    } else {
      assert Walk(sorted, 0, None) == [];
      assert |Items(sorted)| == |sorted|;
    }
  }
}
