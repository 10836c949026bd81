/** The paging arithmetic the three list endpoints share:
    `skip = (page - 1) * limit`, `totalPages = ceil(total / limit)`,
    `hasNextPage = page < totalPages`, `hasPrevPage = page > 1`. */
module Pagination {
  import opened Wrappers
  import opened Ordering

  /** The `page` and `limit` query parameters; `None` stands for a parameter
      that is absent or empty. */
  datatype PageQuery = PageQuery(page: Option<int>, limit: Option<int>)

  const DefaultPage := 1
  const DefaultLimit := 10

  function PageOf(q: PageQuery): int { q.page.GetOr(DefaultPage) }
  function LimitOf(q: PageQuery): int { q.limit.GetOr(DefaultLimit) }

  /** Page and limit are both at least one. */
  predicate ValidQuery(q: PageQuery) {
    PageOf(q) >= 1 && LimitOf(q) >= 1
  }

  /** The pagination block of a list response. */
  datatype PageInfo = PageInfo(
    currentPage: int,
    totalPages: nat,
    totalItems: nat,
    hasNextPage: bool,
    hasPrevPage: bool)

  /** `Math.ceil(n / d)` for a positive divisor: the fewest pages of `d`
      items that hold `n` items. */
  function CeilDiv(n: nat, d: nat): (q: nat)
    requires d >= 1
    ensures q * d >= n
    ensures n > 0 ==> (q - 1) * d < n
    ensures q == 0 <==> n == 0
  {
    var q := (n + d - 1) / d;
    assert q * d <= n + d - 1 < (q + 1) * d;
    q
  }

  /** How many items the listing passes over before the requested page. */
  function Skip(page: int, limit: int): int {
    (page - 1) * limit
  }

  /** The pagination block for `page` of `total` items in pages of `limit`. */
  function Paginate(page: int, limit: int, total: nat): (p: PageInfo)
    requires limit >= 1
    ensures p.currentPage == page && p.totalItems == total
    ensures p.totalPages * limit >= total
    ensures total > 0 ==> (p.totalPages - 1) * limit < total
    ensures total == 0 ==> p.totalPages == 0
  {
    var totalPages := CeilDiv(total, limit);
    PageInfo(page, totalPages, total, page < totalPages, page > 1)
  }

  /** `.skip(skip).limit(limit)` on an already ordered result. */
  function Window<T>(items: seq<T>, skip: nat, limit: nat): (w: seq<T>)
    ensures |w| <= limit
    ensures |w| == if skip >= |items| then 0 else if skip + limit <= |items| then limit else |items| - skip
    ensures forall k :: 0 <= k < |w| ==> w[k] == items[skip + k]
  {
    if skip >= |items| then []
    else if skip + limit <= |items| then items[skip..skip + limit]
    else items[skip..]
  }

  /** A next page exists exactly when items remain beyond this page. */
  lemma HasNextIffMoreItems(page: int, limit: int, total: nat)
    requires page >= 1 && limit >= 1
    ensures Paginate(page, limit, total).hasNextPage <==> Skip(page, limit) + limit < total
  {
    var t := CeilDiv(total, limit);
    if page < t {
      assert page <= t - 1;
      MulMonotone(page, t - 1, limit);
    } else {
      MulMonotone(t, page, limit);
    }
  }

  lemma MulMonotone(a: int, b: int, c: nat)
    requires a <= b
    ensures a * c <= b * c
  {
  }

  /** A previous page exists exactly when this page skips some items. */
  lemma HasPrevIffSkips(page: int, limit: int, total: nat)
    requires page >= 1 && limit >= 1
    ensures Paginate(page, limit, total).hasPrevPage <==> Skip(page, limit) > 0
  {
    if page > 1 {
      MulMonotone(1, page - 1, limit);
    }
  }

  /** A page holds some item exactly when it is one of the first
      `totalPages` pages. */
  lemma PageNonEmptyIffInRange<T>(items: seq<T>, page: int, limit: int)
    requires page >= 1 && limit >= 1
    ensures |Window(items, Skip(page, limit), limit)| > 0 <==> page <= Paginate(page, limit, |items|).totalPages
  {
    var t := CeilDiv(|items|, limit);
    if page <= t {
      MulMonotone(page - 1, t - 1, limit);
    } else {
      MulMonotone(t, page - 1, limit);
    }
  }

  /** One page of a list endpoint: the items sorted newest first by `key`,
      then `skip` and `limit` applied. */
  function NewestPage<T>(items: seq<T>, key: T -> int, q: PageQuery): (w: seq<T>)
    requires ValidQuery(q)
    ensures |w| <= LimitOf(q)
    ensures |w| == if |items| <= Skip(PageOf(q), LimitOf(q)) then 0
                   else Min(LimitOf(q), |items| - Skip(PageOf(q), LimitOf(q)))
    ensures NewestFirst(w, key)
    ensures forall x :: x in w ==> x in items
  {
    MulMonotone(0, PageOf(q) - 1, LimitOf(q));
    var sorted := SortNewestFirst(items, key);
    assert |sorted| == |multiset(sorted)| == |items|;
    WindowOfSorted(items, sorted, key, Skip(PageOf(q), LimitOf(q)), LimitOf(q));
    Window(sorted, Skip(PageOf(q), LimitOf(q)), LimitOf(q))
  }

  /** A window of a newest-first permutation of `items` is newest first and
      holds only elements of `items`. */
  lemma WindowOfSorted<T>(items: seq<T>, sorted: seq<T>, key: T -> int, skip: nat, limit: nat)
    requires NewestFirst(sorted, key) && multiset(sorted) == multiset(items)
    ensures NewestFirst(Window(sorted, skip, limit), key)
    ensures forall x :: x in Window(sorted, skip, limit) ==> x in items
  {
    var w := Window(sorted, skip, limit);
    if skip < |sorted| {
      SliceNewestFirst(sorted, key, skip, skip + |w|);
      assert w == sorted[skip..skip + |w|];
    }
    forall x | x in w
      ensures x in items
    {
      assert x in multiset(sorted);
    }
  }

  /** Pages 1 to `k` of `items`, concatenated. */
  function Pages<T>(items: seq<T>, limit: nat, k: nat): seq<T>
    requires limit >= 1
  {
    if k == 0 then [] else Pages(items, limit, k - 1) + Window(items, Skip(k, limit), limit)
  }

  function Min(a: int, b: int): int { if a <= b then a else b }

  /** The first `k` pages are the first `k * limit` items, in order. */
  lemma {:induction false} PagesArePrefix<T>(items: seq<T>, limit: nat, k: nat)
    requires limit >= 1
    ensures Pages(items, limit, k) == items[..Min(k * limit, |items|)]
  {
    if k > 0 {
      PagesArePrefix(items, limit, k - 1);
      var skip := (k - 1) * limit;
      NextPageStart(k, limit);
      WindowIsSlice(items, skip, limit);
      PrefixSplit(items, Min(skip, |items|), Min(skip + limit, |items|));
    }
  }

  lemma NextPageStart(k: nat, limit: nat)
    requires k >= 1
    ensures Skip(k, limit) == (k - 1) * limit >= 0
    ensures (k - 1) * limit + limit == k * limit
  {
    MulMonotone(0, k - 1, limit);
  }

  /** A window is the slice between its clamped ends. */
  lemma WindowIsSlice<T>(items: seq<T>, skip: nat, limit: nat)
    ensures Window(items, skip, limit) == items[Min(skip, |items|)..Min(skip + limit, |items|)]
  {
  }

  lemma PrefixSplit<T>(items: seq<T>, a: nat, b: nat)
    requires a <= b <= |items|
    ensures items[..b] == items[..a] + items[a..b]
  {
  }

  /** Walking every page from 1 to `totalPages` lists each item exactly once,
      in order: nothing is skipped and nothing repeats. */
  lemma AllPagesListEverything<T>(items: seq<T>, limit: nat)
    requires limit >= 1
    ensures Pages(items, limit, Paginate(1, limit, |items|).totalPages) == items
  {
    var t := CeilDiv(|items|, limit);
    PagesArePrefix(items, limit, t);
  }

  /** Pages 1 to `k` when every page is read by a query of its own: page `i`
      is cut from `orders[i - 1]`, the arrangement the database chose for
      that query. */
  function PagesOfOrders<T>(orders: seq<seq<T>>, limit: nat, k: nat): seq<T>
    requires limit >= 1 && k <= |orders|
  {
    if k == 0 then [] else PagesOfOrders(orders, limit, k - 1) + Window(orders[k - 1], Skip(k, limit), limit)
  }

  /** Every arrangement is a newest-first permutation of `items`: all that
      `sort({ createdAt: -1 })` promises about one query's result. */
  ghost predicate Arrangements<T>(orders: seq<seq<T>>, items: seq<T>, key: T -> int) {
    forall i :: 0 <= i < |orders| ==> NewestFirst(orders[i], key) && multiset(orders[i]) == multiset(items)
  }

  /** Queries that all see the same arrangement give that arrangement's pages. */
  lemma {:induction false} PagesOfOneOrder<T>(orders: seq<seq<T>>, s: seq<T>, limit: nat, k: nat)
    requires limit >= 1 && k <= |orders|
    requires forall i :: 0 <= i < |orders| ==> orders[i] == s
    ensures PagesOfOrders(orders, limit, k) == Pages(s, limit, k)
  {
    if k > 0 {
      PagesOfOneOrder(orders, s, limit, k - 1);
    }
  }

  /** Reading pages 1 to `totalPages` by separate queries lists every item
      exactly once, newest first, whatever arrangement each query gets,
      provided items that share a key are identical. */
  lemma SeparateQueriesListEverything<T>(items: seq<T>, key: T -> int, orders: seq<seq<T>>, limit: nat)
    requires limit >= 1
    requires TiesIdentical(items, key) && Arrangements(orders, items, key)
    requires |orders| == Paginate(1, limit, |items|).totalPages
    ensures PagesOfOrders(orders, limit, |orders|) == SortNewestFirst(items, key)
  {
    var sorted := SortNewestFirst(items, key);
    TiesOfPermutation(items, sorted, key);
    forall i | 0 <= i < |orders|
      ensures orders[i] == sorted
    {
      NewestFirstUnique(sorted, orders[i], key);
    }
    assert |sorted| == |multiset(sorted)| == |items|;
    PagesOfOneOrder(orders, sorted, limit, |orders|);
    AllPagesListEverything(sorted, limit);
  }

  /** Without that proviso the listing can repeat and lose items: with two
      different items of equal key both arrangements are newest first, and
      page 1 of one followed by page 2 of the other lists the first item
      twice and the second never. */
  lemma TiedPagesMayRepeat<T>(x: T, y: T, key: T -> int)
    requires x != y && key(x) == key(y)
    ensures Arrangements([[x, y], [y, x]], [x, y], key)
    ensures 2 == Paginate(1, 1, 2).totalPages
    ensures PagesOfOrders([[x, y], [y, x]], 1, 2) == [x, x]
  {
    assert multiset([y, x]) == multiset([x, y]);
    var orders := [[x, y], [y, x]];
    assert Window(orders[0], Skip(1, 1), 1) == [x];
    assert Window(orders[1], Skip(2, 1), 1) == [x];
    assert PagesOfOrders(orders, 1, 0) == [];
    assert PagesOfOrders(orders, 1, 1) == [] + [x];
  }
}
