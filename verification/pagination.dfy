/** The `Pagination` calculator: total items, items per page and the current
    page, with the derived page count, the current page's item range and the
    page-number windows used to render pagination controls.

    The PHP class is a mutable object whose fields are private; here it is an
    immutable `State` and every setter returns the new state. The class
    invariant is `Valid`. */
module Pagination {
  import opened PhpRange
  import opened PaginationOffset

  /** The three stored fields; `getTotalItems`, `getItemsPerPage` and
      `getCurrentPage` are the field accessors. */
  datatype State = State(totalItems: int, itemsPerPage: int, currentPage: int)

  function Min(a: int, b: int): int {
    if a <= b then a else b
  }

  function Max(a: int, b: int): int {
    if a >= b then a else b
  }

  function Abs(a: int): int {
    if a < 0 then -a else a
  }

  // ---------------------------------------------------------------------
  // Integer arithmetic behind PHP's `floor` and `ceil` of a quotient
  // ---------------------------------------------------------------------

  /** `(int) floor(a / b)` for a positive divisor, negative `a` included. */
  function FloorDiv(a: int, b: int): (q: int)
    requires b >= 1
    ensures q * b <= a < (q + 1) * b
  {
    a / b
  }

  /** `(int) ceil(a / b)` for a positive divisor, negative `a` included. */
  function CeilDiv(a: int, b: int): (q: int)
    requires b >= 1
    ensures (q - 1) * b < a <= q * b
  {
    var q := (a + b - 1) / b;
    assert q * b <= a + b - 1 < (q + 1) * b;
    q
  }

  lemma MulMonotone(a: int, b: int, c: int)
    requires a <= b && c >= 0
    ensures a * c <= b * c
  {
    assert b * c - a * c == (b - a) * c;
  }

  /** Only one quotient satisfies the floor bounds. */
  lemma FloorDivUnique(a: int, b: int, q: int)
    requires b >= 1 && q * b <= a < (q + 1) * b
    ensures FloorDiv(a, b) == q
  {
    var f := FloorDiv(a, b);
    if f < q {
      MulMonotone(f + 1, q, b);
    } else if q < f {
      MulMonotone(q + 1, f, b);
    }
  }

  // ---------------------------------------------------------------------
  // Clamping and pages
  // ---------------------------------------------------------------------

  /** `getClamp`: `min(hi, max(lo, value))`. When `lo > hi` the upper bound
      wins. */
  function Clamp(value: int, lo: int, hi: int): (r: int)
    ensures r <= hi
    ensures lo <= hi ==> lo <= r
    ensures lo <= value <= hi ==> r == value
    ensures lo <= hi && value < lo ==> r == lo
    ensures hi < value || hi < lo ==> r == hi
  {
    Min(hi, Max(lo, value))
  }

  /** Item `i` belongs to page `p` when the page size is `ipp`. */
  predicate OnPage(ipp: int, p: int, i: int) {
    (p - 1) * ipp < i <= p * ipp
  }

  /** Every item lies on at most one page. */
  lemma OnPageUnique(ipp: int, p: int, q: int, i: int)
    requires ipp >= 1 && OnPage(ipp, p, i) && OnPage(ipp, q, i)
    ensures p == q
  {
    if p < q {
      MulMonotone(p, q - 1, ipp);
    } else if q < p {
      MulMonotone(q, p - 1, ipp);
    }
  }

  /** The ceiling quotient of a count is a count, and is 0 only for 0. */
  lemma CeilDivOfCount(a: int, b: int)
    requires a >= 0 && b >= 1
    ensures CeilDiv(a, b) >= 0
    ensures CeilDiv(a, b) == 0 <==> a == 0
  {
    var n := CeilDiv(a, b);
    if n < 0 {
      MulMonotone(n, -1, b);
    }
    if n > 0 && a == 0 {
      MulMonotone(0, n - 1, b);
    }
  }

  /** The inputs the source assumes of its callers: a non-negative total and
      a positive page size. */
  predicate Sized(s: State) {
    s.totalItems >= 0 && s.itemsPerPage >= 1
  }

  /** Outside `Sized` the source computes something definite, and it breaks
      the class invariant: with a total of -25 at 20 per page,
      `getTotalPages` is `ceil(-1.25) == -1`, `hasPages` is true because
      that is not 0, and `setCurrentPage(1)` stores
      `getClamp(1, 1, -1) == -1`. */
  lemma NegativeTotalBreaksInvariant()
    ensures CeilDiv(-25, 20) == -1
    ensures Clamp(1, 1, CeilDiv(-25, 20)) == -1
  {
    assert (-25 + 20 - 1) / 20 == -1;
  }

  /** A negative total above `-itemsPerPage` gives `ceil` of a quotient in
      `(-1, 0)`, which is 0 pages, whatever the page size: with a total of -5
      at 20 per page, `getTotalPages` is `(int) ceil(-0.25) == 0`. `hasPages`
      compares exactly this count with 0. */
  lemma SmallNegativeTotalHasNoPages()
    ensures CeilDiv(-5, 20) == 0
    ensures forall b, t :: b >= 1 && -b < t <= 0 ==> CeilDiv(t, b) == 0
  {
  }

  /** `getTotalPages`: the ceiling of `totalItems / itemsPerPage`, i.e. the
      least page count whose pages hold every item. */
  function TotalPages(s: State): (n: int)
    requires Sized(s)
    ensures n >= 0
    ensures n == 0 <==> s.totalItems == 0
    ensures (n - 1) * s.itemsPerPage < s.totalItems <= n * s.itemsPerPage
  {
    var n := CeilDiv(s.totalItems, s.itemsPerPage);
    CeilDivOfCount(s.totalItems, s.itemsPerPage);
    n
  }

  /** `hasPages`: there is at least one page. */
  function HasPages(s: State): (b: bool)
    requires Sized(s)
    ensures b <==> s.totalItems > 0
  {
    TotalPages(s) != 0
  }

  /** `hasPage`: `page` is between 1 and the page count, i.e. the page's
      first item exists. */
  function HasPage(s: State, page: int): (b: bool)
    requires Sized(s)
    ensures b <==> 1 <= page && (page - 1) * s.itemsPerPage < s.totalItems
    ensures b ==> HasPages(s)
  {
    PageWithinCount(s, page);
    1 <= page && page <= TotalPages(s)
  }

  /** A page is within the page count exactly when its first item exists. */
  lemma PageWithinCount(s: State, page: int)
    requires Sized(s)
    ensures page <= TotalPages(s) <==> (page - 1) * s.itemsPerPage < s.totalItems
  {
    var n := TotalPages(s);
    if page <= n {
      MulMonotone(page - 1, n - 1, s.itemsPerPage);
    } else {
      MulMonotone(n, page - 1, s.itemsPerPage);
    }
  }

  /** The class invariant: the current page is 0 exactly when there are no
      pages, and otherwise one of the existing pages. */
  predicate Valid(s: State) {
    && Sized(s)
    && (HasPages(s) ==> 1 <= s.currentPage <= TotalPages(s))
    && (!HasPages(s) ==> s.currentPage == 0)
  }

  // ---------------------------------------------------------------------
  // Setters
  // ---------------------------------------------------------------------

  /** `setCurrentPage`: with no pages the current page becomes 0 and the call
      reports false; otherwise the request is clamped into `[1, totalPages]`
      and the call reports whether it was left unchanged. */
  function SetCurrentPage(s: State, page: int): (r: (State, bool))
    requires Sized(s)
    ensures r.0.totalItems == s.totalItems && r.0.itemsPerPage == s.itemsPerPage
    ensures Valid(r.0)
    ensures r.1 <==> HasPage(s, page)
    ensures HasPages(s) ==> (r.1 <==> r.0.currentPage == page)
    ensures !HasPages(s) ==> r.0.currentPage == 0
    ensures HasPage(s, page) ==> r.0.currentPage == page
    ensures HasPages(s) && page < 1 ==> r.0.currentPage == 1
    ensures HasPages(s) && page > TotalPages(s) ==> r.0.currentPage == TotalPages(s)
  {
    if !HasPages(s) then
      (s.(currentPage := 0), false)
    else
      var p := Clamp(page, 1, TotalPages(s));
      (s.(currentPage := p), page == p)
  }

  /** `setCurrentItem`: the current page becomes the page holding the item,
      after clamping the item into `[1, totalItems]`. On an empty collection
      the clamp yields 0 and `floor(-1 / itemsPerPage) + 1` yields page 0. */
  function SetCurrentItem(s: State, item: int): (r: State)
    requires Sized(s)
    ensures r.totalItems == s.totalItems && r.itemsPerPage == s.itemsPerPage
    ensures Valid(r)
    ensures s.totalItems == 0 ==> r.currentPage == 0
    ensures s.totalItems > 0 ==> OnPage(s.itemsPerPage, r.currentPage, Clamp(item, 1, s.totalItems))
  {
    var c := Clamp(item, 1, s.totalItems);
    var p := FloorDiv(c - 1, s.itemsPerPage) + 1;
    ItemPageExists(s, c - 1);
    s.(currentPage := p)
  }

  /** What a PHP setter hands back to its caller: nothing (`null`) or a
      boolean. */
  datatype ReturnValue = Null | Bool(value: bool)

  /** `setCurrentItem` as written, return value included. Its documentation
      announces a boolean that is false when the item was out of range and
      had to be fitted, but the body has no `return`, so every call yields
      `null`. */
  function SetCurrentItemAsWritten(s: State, item: int): (r: (State, ReturnValue))
    requires Sized(s)
    ensures r.0 == SetCurrentItem(s, item)
    ensures !r.1.Bool?
  {
    (SetCurrentItem(s, item), Null)
  }

  /** The documented report never arrives: for an item that has to be
      fitted, the caller receives `null` instead of `false`, and for an item
      in range it receives `null` instead of `true`. */
  lemma SetCurrentItemNeverReports(s: State, item: int)
    requires Sized(s)
    ensures SetCurrentItemAsWritten(s, item).1 != Bool(1 <= item <= s.totalItems)
  {
  }

  /** `setCurrentItem` as documented: the same page change, and a result that
      is true exactly when the item exists and so was not fitted. It mirrors
      `setCurrentPage`: an empty collection always reports false. */
  function SetCurrentItemChecked(s: State, item: int): (r: (State, bool))
    requires Sized(s)
    ensures r.0 == SetCurrentItem(s, item)
    ensures r.1 <==> 1 <= item <= s.totalItems
  {
    if !HasPages(s) then
      (SetCurrentItem(s, item), false)
    else
      (SetCurrentItem(s, item), Clamp(item, 1, s.totalItems) == item)
  }

  /** The page `floor(k / itemsPerPage) + 1` of a zero-based item index `k`:
      an existing page for an existing item, and page 0 for index -1. */
  lemma ItemPageExists(s: State, k: int)
    requires Sized(s) && -1 <= k < s.totalItems
    ensures k == -1 ==> FloorDiv(k, s.itemsPerPage) + 1 == 0
    ensures k >= 0 ==> HasPage(s, FloorDiv(k, s.itemsPerPage) + 1)
  {
    var p := FloorDiv(k, s.itemsPerPage) + 1;
    if k == -1 {
      FloorDivUnique(-1, s.itemsPerPage, -1);
    } else {
      if p < 1 {
        MulMonotone(p, 0, s.itemsPerPage);
      }
    }
  }

  /** `getCurrentPageOffsets`: the inclusive item range of the current page,
      or the `(0, 0)` sentinel when there are no pages. Every page but the
      last is full; the last holds the remainder. */
  function CurrentPageOffsets(s: State): (o: Offset)
    requires Valid(s)
    ensures !HasPages(s) ==> IsEmpty(o)
    ensures HasPages(s) ==> 1 <= o.firstItem <= o.lastItem <= s.totalItems
    ensures HasPages(s) ==> forall i :: Contains(o, i) <==> i <= s.totalItems && OnPage(s.itemsPerPage, s.currentPage, i)
    ensures HasPages(s) && s.currentPage < TotalPages(s) ==> CountItems(o) == s.itemsPerPage
    ensures HasPages(s) && s.currentPage == TotalPages(s) ==>
      CountItems(o) == s.totalItems - (TotalPages(s) - 1) * s.itemsPerPage
  {
    if !HasPages(s) then
      Empty
    else
      var p := s.currentPage;
      var ipp := s.itemsPerPage;
      PageBounds(s, p);
      Offset((p - 1) * ipp + 1, Min(p * ipp, s.totalItems))
  }

  /** Where the items of an existing page start and end. */
  lemma PageBounds(s: State, p: int)
    requires Sized(s) && 1 <= p <= TotalPages(s)
    ensures 0 <= (p - 1) * s.itemsPerPage < s.totalItems
    ensures p < TotalPages(s) ==> p * s.itemsPerPage < s.totalItems
  {
    PageWithinCount(s, p);
    if p < TotalPages(s) {
      PageWithinCount(s, p + 1);
    }
    MulMonotone(0, p - 1, s.itemsPerPage);
  }

  /** `setTotalItems`: stores the new total and re-clamps the current page
      against the new page count through `setCurrentPage`. */
  function SetTotalItems(s: State, totalItems: int): (r: State)
    requires s.itemsPerPage >= 1 && totalItems >= 0
    ensures r.totalItems == totalItems && r.itemsPerPage == s.itemsPerPage
    ensures Valid(r)
    ensures totalItems == 0 ==> r.currentPage == 0
    ensures totalItems > 0 && s.currentPage < 1 ==> r.currentPage == 1
    ensures HasPage(r, s.currentPage) ==> r.currentPage == s.currentPage
    ensures totalItems > 0 && s.currentPage > TotalPages(r) ==> r.currentPage == TotalPages(r)
  {
    SetCurrentPage(s.(totalItems := totalItems), s.currentPage).0
  }

  /** The constructor: the current page starts at 1, then `setTotalItems`
      assigns the total and re-clamps it (the total is unassigned before that
      call, so any placeholder works). */
  function New(totalItems: int, itemsPerPage: int): (r: State)
    requires totalItems >= 0 && itemsPerPage >= 1
    ensures r.totalItems == totalItems && r.itemsPerPage == itemsPerPage
    ensures Valid(r)
    ensures r.currentPage == (if totalItems == 0 then 0 else 1)
  {
    SetTotalItems(State(0, itemsPerPage, 1), totalItems)
  }

  /** `setItemsPerPage`: remembers the first item of the current page, changes
      the page size and moves to the page that now holds that item. */
  function SetItemsPerPage(s: State, itemsPerPage: int): (r: State)
    requires Valid(s) && itemsPerPage >= 1
    ensures r.totalItems == s.totalItems && r.itemsPerPage == itemsPerPage
    ensures Valid(r)
    ensures !HasPages(s) ==> r.currentPage == 0
    ensures HasPages(s) ==> Contains(CurrentPageOffsets(r), CurrentPageOffsets(s).firstItem)
  {
    var first := CurrentPageOffsets(s).firstItem;
    SetCurrentItem(s.(itemsPerPage := itemsPerPage), first)
  }

  // ---------------------------------------------------------------------
  // Page windows
  // ---------------------------------------------------------------------

  /** `getPagesIterator`: every page number in increasing order. */
  function PagesIterator(s: State): (r: seq<int>)
    requires Sized(s)
    ensures |r| == TotalPages(s)
    ensures Run(r, 1)
  {
    if !HasPages(s) then [] else Range(1, TotalPages(s))
  }

  /** The inclusive bounds `(left, right)` of the near-pages window, computed
      as `getNearPagesIterator` does once it knows the window is smaller than
      the page count: `floor((pagesCount - 1) / 2)` pages to the left of the
      current page and `ceil((pagesCount - 1) / 2)` to the right, then a shift
      back inside when one side runs off (the first end is checked first). */
  function NearBounds(current: int, totalPages: int, pagesCount: int): (b: (int, int))
    requires 1 <= current <= totalPages && pagesCount < totalPages
    ensures 1 <= pagesCount ==>
      && b.1 - b.0 + 1 == pagesCount
      && 1 <= b.0 <= current <= b.1 <= totalPages
    // Too close to the first page for the left share: the window starts on page 1.
    ensures 1 <= pagesCount && 2 * current < pagesCount ==> b.0 == 1
    // Too close to the last page for the right share: the window ends on the last page.
    ensures 1 <= pagesCount && 2 * (totalPages - current) < pagesCount - 1 ==> b.1 == totalPages
    // Otherwise the right share equals the left share or exceeds it by one.
    ensures (1 <= pagesCount && 2 * current >= pagesCount && 2 * (totalPages - current) >= pagesCount - 1) ==>
      current - b.0 <= b.1 - current <= current - b.0 + 1
    // A non-positive count reverses the bounds around the current page.
    ensures pagesCount < 1 ==> b.0 - b.1 + 1 == 2 - pagesCount && b.1 <= current <= b.0
  {
    var left := current - FloorDiv(pagesCount - 1, 2);
    var right := current + CeilDiv(pagesCount - 1, 2);
    if left < 1 then
      (1, right + Abs(left) + 1)
    else if right > totalPages then
      (left - (right - totalPages), totalPages)
    else
      (left, right)
  }

  /** `getNearPagesIterator`: a run of `pagesCount` consecutive pages around
      the current page, or every page when `pagesCount` reaches the page
      count. With `pagesCount <= 0` PHP's `range` counts down and the result
      is `2 - pagesCount` pages in decreasing order. */
  function NearPagesIterator(s: State, pagesCount: int): (r: seq<int>)
    requires Valid(s)
    ensures !HasPages(s) ==> r == []
    ensures HasPages(s) && pagesCount >= TotalPages(s) ==> |r| == TotalPages(s) && Run(r, 1)
    ensures HasPages(s) && 1 <= pagesCount < TotalPages(s) ==>
      && |r| == pagesCount
      && Run(r, r[0])
      && 1 <= r[0]
      && r[pagesCount - 1] <= TotalPages(s)
      && s.currentPage in r
    ensures HasPages(s) && 1 <= pagesCount < TotalPages(s) && 2 * s.currentPage < pagesCount ==>
      r[0] == 1
    ensures HasPages(s) && 1 <= pagesCount < TotalPages(s) && 2 * (TotalPages(s) - s.currentPage) < pagesCount - 1 ==>
      r[pagesCount - 1] == TotalPages(s)
    ensures (HasPages(s) && 1 <= pagesCount < TotalPages(s)
      && 2 * s.currentPage >= pagesCount && 2 * (TotalPages(s) - s.currentPage) >= pagesCount - 1) ==>
      s.currentPage - r[0] <= r[pagesCount - 1] - s.currentPage <= s.currentPage - r[0] + 1
    ensures HasPages(s) && pagesCount < 1 ==>
      |r| == 2 - pagesCount && RunDown(r, r[0]) && s.currentPage in r
  {
    if !HasPages(s) then
      []
    else if pagesCount >= TotalPages(s) then
      PagesIterator(s)
    else
      var b := NearBounds(s.currentPage, TotalPages(s), pagesCount);
      RangeMembership(b.0, b.1, s.currentPage);
      Range(b.0, b.1)
  }

  // ---------------------------------------------------------------------
  // Properties relating several operations
  // ---------------------------------------------------------------------

  /** The pages listed by `getPagesIterator` are exactly those `hasPage`
      accepts. */
  lemma PagesIteratorMatchesHasPage(s: State, page: int)
    requires Sized(s)
    ensures page in PagesIterator(s) <==> HasPage(s, page)
  {
    var r := PagesIterator(s);
    if HasPage(s, page) {
      assert r[page - 1] == page;
    }
  }

  /** Requesting the same page twice changes nothing the second time and
      reports the same outcome. */
  lemma SetCurrentPageIdempotent(s: State, page: int)
    requires Sized(s)
    ensures SetCurrentPage(SetCurrentPage(s, page).0, page) == SetCurrentPage(s, page)
  {
  }

  /** Shrinking the collection to nothing forces page 0; growing it again
      restores page 1, whatever the page was before. */
  lemma EmptyThenRegrow(s: State, totalItems: int)
    requires s.itemsPerPage >= 1 && totalItems > 0
    ensures SetTotalItems(s, 0).currentPage == 0
    ensures SetTotalItems(SetTotalItems(s, 0), totalItems).currentPage == 1
  {
  }

  /** Selecting any item of the current page keeps the state as it is: the
      item range of a page and the page of an item are inverse. */
  lemma SetCurrentItemOnOwnPage(s: State, item: int)
    requires Valid(s) && Contains(CurrentPageOffsets(s), item)
    ensures SetCurrentItem(s, item) == s
  {
    if HasPages(s) {
      var r := SetCurrentItem(s, item);
      OnPageUnique(s.itemsPerPage, r.currentPage, s.currentPage, item);
    }
  }

  /** Setting the page size to the size already in use keeps the state. */
  lemma SetItemsPerPageUnchanged(s: State)
    requires Valid(s)
    ensures SetItemsPerPage(s, s.itemsPerPage) == s
  {
    if HasPages(s) {
      SetCurrentItemOnOwnPage(s, CurrentPageOffsets(s).firstItem);
    }
  }

  /** The item count of page `p`, read through `getCurrentPageOffsets`. */
  function PageCount(s: State, p: int): int
    requires Sized(s) && HasPage(s, p)
  {
    CountItems(CurrentPageOffsets(s.(currentPage := p)))
  }

  /** The item counts of pages `1..p` added up. */
  function CountUpTo(s: State, p: int): int
    requires Sized(s) && 0 <= p <= TotalPages(s)
  {
    if p == 0 then 0 else CountUpTo(s, p - 1) + PageCount(s, p)
  }

  /** The first `p` pages hold `min(p * itemsPerPage, totalItems)` items; in
      particular all pages together hold every item exactly once. */
  lemma {:induction false} CountUpToPage(s: State, p: int)
    requires Sized(s) && 0 <= p <= TotalPages(s)
    ensures CountUpTo(s, p) == Min(p * s.itemsPerPage, s.totalItems)
  {
    if p > 0 {
      CountUpToPage(s, p - 1);
      var n := TotalPages(s);
      if p < n {
        MulMonotone(p, n - 1, s.itemsPerPage);
      }
      MulMonotone(p - 1, n - 1, s.itemsPerPage);
    }
  }

  /** Summed over every page, the page sizes give the total. */
  lemma PagesPartitionItems(s: State)
    requires Sized(s)
    ensures CountUpTo(s, TotalPages(s)) == s.totalItems
  {
    CountUpToPage(s, TotalPages(s));
  }
}
