# Vanilla Pagination, modelled in Dafny

This project models the arithmetic of the two classes of the Vanilla Pagination
library.

`Pagination` holds a total item count, a page size (items per page) and a
current page. From these it derives:

- the page count, as a ceiling division;
- the current page's inclusive item range;
- the list of all pages;
- a "near pages" window of a given length around the current page.

Page and item requests are clamped into range instead of failing. The total
and the page size, by contrast, are stored as given, without validation. For a
non-negative total and a positive page size, the class keeps one invariant: the
current page is 0 exactly when there are no pages, and is an existing page
otherwise.

`PaginationOffset` is the inclusive item range `(firstItem, lastItem)` of one
page. The pair `(0, 0)` is the sentinel for "no items". It can count its items
and enumerate them.

Files:

- `range.dfy` (module `PhpRange`): PHP's built-in `range($a, $b)`. Both classes
  use it for their results. It includes both ends and counts down when `$a > $b`.
- `pagination_offset.dfy` (module `PaginationOffset`): the `Offset` datatype,
  `CountItems` (`countItems`) and `Items` (`getIterator`).
- `pagination.dfy` (module `Pagination`): an immutable `State(totalItems,
  itemsPerPage, currentPage)`. Each PHP setter is a pure function returning the
  new state. `setCurrentPage` returns the state paired with its boolean result.
  The class invariant is the predicate `Valid`. The getters `getTotalItems`,
  `getItemsPerPage` and `getCurrentPage` are the datatype's fields.
- `scenarios.dfy` (module `Scenarios`): the concrete values from the
  repository's test cases, stated as lemmas.

Arithmetic: PHP computes `floor` and `ceil` of a floating-point quotient.
`FloorDiv` and `CeilDiv` compute them exactly on integers. Dafny's `/` is
Euclidean, which equals `floor` for a positive divisor, including the `-1 /
itemsPerPage` case.

Which operations assume the invariant:

- `SetCurrentPage` and `SetCurrentItem` require only `Sized`: a non-negative
  total and a positive page size. Each re-establishes the invariant. The
  constructor reaches `SetCurrentPage` through `SetTotalItems`, before the
  invariant holds. `SetItemsPerPage` calls `SetCurrentItem` on a state whose
  current page may not fit the new page size.
- `SetTotalItems` requires a positive page size and a non-negative new total;
  the old total and page are not constrained.
- The getters `TotalPages`, `HasPages`, `HasPage` and `PagesIterator` require
  only `Sized`.
- `CurrentPageOffsets`, `SetItemsPerPage` and `NearPagesIterator` require
  `Valid`. No other state is reachable from valid arguments, because the PHP
  fields are private.

One edge case is worth stating. On an empty collection, `setCurrentItem`
clamps the item into `[1, 0]`, which always gives 0. Then `floor(-1 /
itemsPerPage) + 1` always gives page 0. So `setItemsPerPage` on an empty
collection keeps page 0, and `SetCurrentItem` states this.

## Model

| member | source | states |
|---|---|---|
| PhpRange.Range | src/VanillaPagination/Pagination.php:181 | `range(a, b)` has `abs(b - a) + 1` elements, running up from `a` by one when `a <= b` and down from `a` by one when `b < a` |
| PhpRange.RangeMembership | src/VanillaPagination/PaginationOffset.php:45 | an integer is in `range(a, b)` exactly when it lies between the two ends, in either direction |
| PaginationOffset.CountItems | src/VanillaPagination/PaginationOffset.php:52-61 | the `(0, 0)` sentinel counts 0; a well-ordered range counts as many items as the set of integers between its ends; a reversed range counts two minus the number of integers between its ends, so 0 or fewer |
| PaginationOffset.Items | src/VanillaPagination/PaginationOffset.php:37-46 | the sentinel yields nothing; a well-ordered range yields `firstItem, firstItem+1, ..., lastItem`; any other pair yields exactly the integers between its ends |
| PaginationOffset.CardinalityOfInterval | src/VanillaPagination/PaginationOffset.php:60 | the integers of `[a, b]` number `b - a + 1`, which is the count `countItems` returns |
| PaginationOffset.CountMatchesItems | src/VanillaPagination/PaginationOffset.php:37-61 | for the sentinel and every well-ordered range, `countItems()` equals the length of what `getIterator()` yields |
| PaginationOffset.ReversedCountDisagrees | src/VanillaPagination/PaginationOffset.php:45-60 | a reversed non-sentinel range is enumerated downwards, and then `countItems()` differs from the number of items enumerated |
| Pagination.Clamp | src/VanillaPagination/Pagination.php:50-53 | the result never exceeds the upper bound; it keeps an in-range value, raises a low value to the lower bound and lowers a high one to the upper bound; with crossed bounds the upper bound wins |
| Pagination.FloorDiv | src/VanillaPagination/Pagination.php:89 | `floor(a / b)` is the quotient `q` with `q*b <= a < (q+1)*b` |
| Pagination.CeilDiv | src/VanillaPagination/Pagination.php:167 | `ceil(a / b)` is the quotient `q` with `(q-1)*b < a <= q*b` |
| Pagination.TotalPages | src/VanillaPagination/Pagination.php:165-168 | the page count is the ceiling of `totalItems / itemsPerPage`: the least count whose pages hold every item; it is 0 exactly when there are no items |
| Pagination.HasPages | src/VanillaPagination/Pagination.php:243-246 | there are pages exactly when the total is positive |
| Pagination.HasPage | src/VanillaPagination/Pagination.php:233-237 | a page exists exactly when it is at least 1 and its first item exists |
| Pagination.SetCurrentPage | src/VanillaPagination/Pagination.php:63-75 | with no pages the page becomes 0; otherwise an existing page is kept as requested, a page below 1 becomes 1 and one past the end becomes the last page; the result is true exactly when the requested page exists, which with pages present is exactly when the stored page equals the request; the invariant holds afterwards |
| Pagination.SetCurrentItem | src/VanillaPagination/Pagination.php:86-90 | the new page is the page holding the item after clamping it into `[1, totalItems]`; on an empty collection the page becomes 0; the invariant holds afterwards |
| Pagination.NegativeTotalBreaksInvariant | src/VanillaPagination/Pagination.php:165-168 | outside the preconditions the source is definite but breaks the invariant: a total of -25 at 20 per page gives page count -1, which counts as having pages, and clamping page 1 into `[1, -1]` stores -1 |
| Pagination.SmallNegativeTotalHasNoPages | src/VanillaPagination/Pagination.php:165-168 | outside the preconditions, for every positive page size a total in `(-itemsPerPage, 0]` gives `(int) ceil` of a quotient in `(-1, 0]`, which is a page count of 0 |
| Pagination.SetCurrentItemAsWritten | src/VanillaPagination/Pagination.php:77-90 | the call changes the page exactly as `SetCurrentItem` does and hands back no boolean at all (`null`), whatever the item |
| Pagination.SetCurrentItemNeverReports | src/VanillaPagination/Pagination.php:77-90 | for every state and item, the caller does not receive the documented report of whether the item was in range |
| Pagination.SetCurrentItemChecked | src/VanillaPagination/Pagination.php:77-90 | the documented behaviour: the same page change, and a result that is true exactly when `1 <= item <= totalItems`, so false whenever the item had to be fitted |
| Scenarios.FittedItemReportsNull | src/VanillaPagination/Pagination.php:86-90 | with 200 items at 20 per page, item 0 is fitted to page 1 and the call yields `null`, while the documented variant yields `false` |
| Pagination.CurrentPageOffsets | src/VanillaPagination/Pagination.php:105-115 | the `(0, 0)` sentinel when there are no pages; otherwise `1 <= first <= last <= totalItems`, the range holds exactly the existing items of the current page, and every page but the last holds `itemsPerPage` items while the last holds the remainder |
| Pagination.SetTotalItems | src/VanillaPagination/Pagination.php:122-128 | the total is replaced and the invariant restored: page 0 for an empty collection, page 1 when pages reappear, the same page when it still exists, the last page when it no longer does |
| Pagination.New | src/VanillaPagination/Pagination.php:33-39 | a new pagination stores both arguments, satisfies the invariant, and starts on page 1, or on page 0 when there are no items |
| Pagination.SetItemsPerPage | src/VanillaPagination/Pagination.php:144-150 | the page size is replaced, the invariant holds, and the new current page is the one whose item range contains the previous first item; with no pages the page stays 0 |
| Pagination.PagesIterator | src/VanillaPagination/Pagination.php:174-182 | the page list has one entry per page and runs `1, 2, ..., totalPages` |
| Pagination.NearBounds | src/VanillaPagination/Pagination.php:204-221 | a window shorter than the page count spans exactly `pagesCount` pages inside `[1, totalPages]` and contains the current page; near the first page it starts on page 1, near the last it ends on the last page, and otherwise the right share equals the left share or exceeds it by one; a non-positive count gives reversed bounds, spanning `2 - pagesCount` pages, around the current page |
| Pagination.NearPagesIterator | src/VanillaPagination/Pagination.php:191-224 | empty without pages; all pages when `pagesCount` reaches the page count; otherwise a consecutive increasing run of `pagesCount` pages inside `[1, totalPages]` that contains the current page, anchored and split as `NearBounds` states; with `pagesCount < 1` a decreasing run of `2 - pagesCount` pages through the current page |
| Pagination.PagesIteratorMatchesHasPage | src/VanillaPagination/Pagination.php:174-182 | the page list contains exactly the pages `hasPage` accepts |
| Pagination.SetCurrentPageIdempotent | src/VanillaPagination/Pagination.php:63-75 | requesting the same page twice gives the same state and the same result as requesting it once |
| Pagination.EmptyThenRegrow | src/VanillaPagination/Pagination.php:122-128 | setting the total to 0 forces page 0, and setting a positive total afterwards gives page 1 |
| Pagination.SetCurrentItemOnOwnPage | src/VanillaPagination/Pagination.php:86-115 | selecting any item in the current page's range leaves the state unchanged, so the page of an item and the item range of a page are inverse |
| Pagination.SetItemsPerPageUnchanged | src/VanillaPagination/Pagination.php:144-150 | setting the page size that is already in use leaves the state unchanged |
| Pagination.CountUpToPage | src/VanillaPagination/Pagination.php:105-115 | the item counts of pages `1..p` add up to `min(p * itemsPerPage, totalItems)` |
| Pagination.PagesPartitionItems | src/VanillaPagination/Pagination.php:105-168 | the item counts of all pages add up to the total, so the pages cover every item exactly once |
| Scenarios.OffsetExamples | tests/VanillaPagination/PaginationOffsetTest.php:18-44 | `(0,0)`, `(1,1)` and `(1,20)` count 0, 1 and 20 items; `(0,0)`, `(1,1)` and `(1,5)` enumerate `[]`, `[1]` and `[1..5]` |
| Scenarios.TwoHundredByTwenty | tests/VanillaPagination/PaginationTest.php:22-73 | 200 items at 20 per page give 10 pages, ranges 1..20, 21..40 and 181..200; pages 0 and 11 are refused and clamped to 1 and 10 |
| Scenarios.ResizeClampStep | tests/VanillaPagination/PaginationTest.php:151-157 | at 150 items and 40 per page, page 5 is clamped to page 4, items 121..150 |
| Scenarios.ResizeFollowsFirstItem | tests/VanillaPagination/PaginationTest.php:160-166 | changing to 20 per page from page 4 moves to page 7, items 121..140 |
| Scenarios.ResizeEmpty | tests/VanillaPagination/PaginationTest.php:169-176 | emptying the collection and then changing the page size keeps page 0 |
| Scenarios.PagesExamples | tests/VanillaPagination/PaginationTest.php:183-202 | 199, 20 and 0 items at 20 per page list pages 1..10, page 1 alone, and nothing |
| Scenarios.NearPagesOfSevenAtFirst | tests/VanillaPagination/PaginationTest.php:240-241 | with 10 pages and a window of 7, page 1 shows 1..7 |
| Scenarios.NearPagesOfSevenInMiddle | tests/VanillaPagination/PaginationTest.php:252-253 | with 10 pages and a window of 7, page 5 shows 2..8 |
| Scenarios.NearPagesOfSevenAtLast | tests/VanillaPagination/PaginationTest.php:267-268 | with 10 pages and a window of 7, page 10 shows 4..10 |
| Scenarios.NearPagesOfEight | tests/VanillaPagination/PaginationTest.php:285-286 | with 10 pages and a window of 8, page 6 shows 3..10 |
| Scenarios.NearPagesSmall | tests/VanillaPagination/PaginationTest.php:210-236 | a window longer than the page count shows every page, and an empty collection shows none |

## Findings

| source | as written | input that shows it | evidently intended | confidence | as-written member | corrected member |
|---|---|---|---|---|---|---|
| src/VanillaPagination/Pagination.php:77-90 | the doc comment promises a boolean that is false when the item was out of range and fitted, but the body has no `return`, so every call yields `null` | `new Pagination(200, 20)`, then `setCurrentItem(0)`: item 0 is fitted to 1 and the call yields `null`, not `false` | return false when there are no pages, as `setCurrentPage` does at lines 65-68, and otherwise whether the clamped item equals the requested one, as `setCurrentPage` does at line 74 | not executed; high (read from the code) | Pagination.SetCurrentItemAsWritten | Pagination.SetCurrentItemChecked |

`SetItemsPerPage` calls `SetCurrentItem`, the state change both halves share,
and `setItemsPerPage` ignores the return value anyway. So the correction does
not change any state.

## Left out

- `getInnerPagesIterator` and its spacer windows are not modelled, because `Pagination.php` has no such method.
- PHP's `(int)` casts of non-integer input are not modelled, and neither is the floating-point division that feeds `floor` and `ceil`. Page numbers, counts and sizes are integers, and the quotients are computed exactly.
- `ArrayIterator` wrapping is not modelled. The iterators are modelled as the sequences they would yield.
- Negative totals and page sizes of 0 or less are preconditions (`Sized`). The source does not validate them, and apart from the two lemmas named here the model does not follow its code outside `Sized`. A page size of 0 divides by zero. The constructor does so in `getTotalPages` (`Pagination.php` line 167), reached through `setTotalItems` and `setCurrentPage`. `setItemsPerPage(0)` reads the offsets with the old page size, stores 0, and then divides by zero in `setCurrentItem` (line 89). On PHP 8 both throw `DivisionByZeroError`. On PHP 5 and 7, the versions whose PHPUnit provides the `PHPUnit_Framework_TestCase` class the repository's tests extend, the division only warns and yields `false`, `INF` or `NAN`. `(int) ceil(...)` of that is 0, so the constructor leaves no pages and page 0. `(int) floor(...) + 1` is 1, so `setItemsPerPage(0)` stores page 1 while there are no pages, which breaks the invariant. A total of `-itemsPerPage` or less gives a negative page count. For example, a total of -25 at 20 per page gives `getTotalPages() == -1`, so `hasPages()` is true and the current page becomes -1, which breaks the invariant; `NegativeTotalBreaksInvariant` states this case. A negative total above `-itemsPerPage` gives `ceil` of a quotient in `(-1, 0)`, which is 0 pages, so `hasPages()` is false, the current page becomes 0 and the invariant holds; `SmallNegativeTotalHasNoPages` states the page count of 0 for every such total and page size.
- PHP's integer width is not modelled. PHP integers are 64-bit and overflow to floating point, and `floor` and `ceil` work on doubles, which hold integers exactly only below 2^53. The model's unbounded integers agree with the source only while the total, the page size and `currentPage * itemsPerPage` stay below 2^53.
- Object identity and mutation are not modelled. Each setter returns a new `State`, so "nothing else changes" is stated through the fields of the result.
