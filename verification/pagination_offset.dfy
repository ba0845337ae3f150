/** The inclusive, 1-based item range `(firstItem, lastItem)` of one page.
    The pair `(0, 0)` is the sentinel for "no items". */
module PaginationOffset {
  import opened PhpRange

  /** The constructor stores both fields verbatim, without validation. */
  datatype Offset = Offset(firstItem: int, lastItem: int)

  /** The `(0, 0)` sentinel of an empty collection. */
  predicate IsEmpty(o: Offset) {
    o.firstItem == 0 && o.lastItem == 0
  }

  /** Item `i` lies inside the inclusive range. */
  predicate Contains(o: Offset, i: int) {
    o.firstItem <= i <= o.lastItem
  }

  /** `countItems()`: the number of items in the range, 0 for the sentinel.
      A reversed pair counts two minus the number of integers between its
      ends, which is 0 or less. */
  function CountItems(o: Offset): (n: int)
    ensures IsEmpty(o) ==> n == 0
    ensures !IsEmpty(o) && o.firstItem <= o.lastItem ==> n == |Interval(o.firstItem, o.lastItem)|
    ensures !IsEmpty(o) && o.lastItem < o.firstItem ==> n <= 0
    ensures !IsEmpty(o) && o.lastItem < o.firstItem ==> n == 2 - |Interval(o.lastItem, o.firstItem)|
  {
    if IsEmpty(o) then 0
    else if o.firstItem <= o.lastItem then
      CardinalityOfInterval(o.firstItem, o.lastItem);
      o.lastItem - o.firstItem + 1
    else
      CardinalityOfInterval(o.lastItem, o.firstItem);
      o.lastItem - o.firstItem + 1
  }

  /** `getIterator()`: the items of the range in order; nothing for the
      sentinel. */
  function Items(o: Offset): (r: seq<int>)
    ensures IsEmpty(o) ==> r == []
    ensures !IsEmpty(o) && o.firstItem <= o.lastItem ==>
      |r| == o.lastItem - o.firstItem + 1 && Run(r, o.firstItem)
    ensures !IsEmpty(o) ==> forall i :: i in r <==> Contains(o, i) || o.lastItem <= i <= o.firstItem
  {
    if IsEmpty(o) then []
    else
      assert forall i :: i in Range(o.firstItem, o.lastItem) <==> Contains(o, i) || o.lastItem <= i <= o.firstItem by {
        forall i {
          RangeMembership(o.firstItem, o.lastItem, i);
        }
      }
      Range(o.firstItem, o.lastItem)
  }

  /** The value returned for a collection with no pages. */
  const Empty := Offset(0, 0)

  /** `a <= i <= b`, named so that set comprehensions over it have a trigger. */
  predicate Between(a: int, b: int, i: int) {
    a <= i <= b
  }

  /** The set of integers in `[a, b]`. */
  function Interval(a: int, b: int): set<int> {
    set i | a <= i <= b && Between(a, b, i)
  }

  /** The integers of `[a, b]` number `b - a + 1`. */
  lemma {:induction false} CardinalityOfInterval(a: int, b: int)
    requires a <= b
    ensures |Interval(a, b)| == b - a + 1
    decreases b - a
  {
    if a < b {
      CardinalityOfInterval(a + 1, b);
      assert Interval(a, b) == {a} + Interval(a + 1, b);
    } else {
      assert Interval(a, b) == {a};
    }
  }

  /** For the sentinel and for every well-ordered range, `countItems()` is
      the length of what `getIterator()` yields. */
  lemma CountMatchesItems(o: Offset)
    requires IsEmpty(o) || o.firstItem <= o.lastItem
    ensures CountItems(o) == |Items(o)|
  {
  }

  /** A reversed range that is not the sentinel is enumerated downwards by
      `getIterator()`, yet `countItems()` reports a non-positive count. */
  lemma ReversedCountDisagrees(o: Offset)
    requires !IsEmpty(o) && o.lastItem < o.firstItem
    ensures |Items(o)| == o.firstItem - o.lastItem + 1
    ensures RunDown(Items(o), o.firstItem)
    ensures CountItems(o) != |Items(o)|
  {
  }
}
