/** Concrete scenarios with the values the repository's own test cases use. */
module Scenarios {
  import opened PhpRange
  import opened PaginationOffset
  import opened Pagination

  /** `(0, 0)` counts 0 items, `(1, 1)` one, `(1, 20)` twenty; their
      iterators yield `[]`, `[1]` and `[1, 2, 3, 4, 5]` for `(1, 5)`. */
  lemma OffsetExamples()
    ensures CountItems(Offset(0, 0)) == 0 && Items(Offset(0, 0)) == []
    ensures CountItems(Offset(1, 1)) == 1 && Items(Offset(1, 1)) == [1]
    ensures CountItems(Offset(1, 20)) == 20
    ensures Items(Offset(1, 5)) == [1, 2, 3, 4, 5]
  {
  }

  /** 200 items at 20 per page: page 1 of 10 spans items 1..20; pages 0 and
      11 are refused and clamped to 1 and 10. */
  lemma TwoHundredByTwenty()
    ensures New(200, 20).currentPage == 1
    ensures TotalPages(New(200, 20)) == 10
    ensures CurrentPageOffsets(New(200, 20)) == Offset(1, 20)
    ensures SetCurrentPage(New(200, 20), 2) == (State(200, 20, 2), true)
    ensures CurrentPageOffsets(State(200, 20, 2)) == Offset(21, 40)
    ensures SetCurrentPage(New(200, 20), 0) == (State(200, 20, 1), false)
    ensures SetCurrentPage(New(200, 20), 11) == (State(200, 20, 10), false)
    ensures CurrentPageOffsets(State(200, 20, 10)) == Offset(181, 200)
  {
  }

  /** The resize walk-through, first step: 150 items at 40 per page make 4
      pages, so page 5 is clamped to page 4, items 121..150. */
  lemma ResizeClampStep()
    ensures SetCurrentPage(State(150, 40, 1), 5).0 == State(150, 40, 4)
    ensures CurrentPageOffsets(State(150, 40, 4)) == Offset(121, 150)
  {
    assert TotalPages(State(150, 40, 1)) == 4;
  }

  /** The resize walk-through, second step: at 20 per page the first item
      121 is on page 7, items 121..140. */
  lemma ResizeFollowsFirstItem()
    ensures SetItemsPerPage(State(150, 40, 4), 20) == State(150, 20, 7)
    ensures CurrentPageOffsets(State(150, 20, 7)) == Offset(121, 140)
  {
    var s := State(150, 40, 4);
    assert TotalPages(s) == 4;
    assert CurrentPageOffsets(s).firstItem == 121;
    assert TotalPages(State(150, 20, 7)) == 8;
    FloorDivUnique(120, 20, 6);
    assert SetCurrentItem(State(150, 20, 4), 121) == State(150, 20, 7);
  }

  /** Emptying the collection and then resizing keeps page 0. */
  lemma ResizeEmpty()
    ensures SetItemsPerPage(SetTotalItems(State(150, 20, 7), 0), 50) == State(0, 50, 0)
  {
    assert SetTotalItems(State(150, 20, 7), 0) == State(0, 20, 0);
    FloorDivUnique(-1, 50, -1);
  }

  /** Page lists: 199 items at 20 per page give pages 1..10, 20 items one
      page and 0 items none. */
  lemma PagesExamples()
    ensures PagesIterator(New(199, 20)) == [1, 2, 3, 4, 5, 6, 7, 8, 9, 10]
    ensures PagesIterator(New(20, 20)) == [1]
    ensures PagesIterator(New(0, 20)) == []
  {
    assert TotalPages(New(199, 20)) == 10;
  }

  /** 200 items at 20 per page, window of 7, page 1: the window is pushed
      right to 1..7. */
  lemma NearPagesOfSevenAtFirst()
    ensures NearPagesIterator(State(200, 20, 1), 7) == [1, 2, 3, 4, 5, 6, 7]
  {
    assert TotalPages(State(200, 20, 1)) == 10;
    assert FloorDiv(6, 2) == 3 && CeilDiv(6, 2) == 3;
    assert NearBounds(1, 10, 7) == (1, 7);
  }

  /** 200 items at 20 per page, window of 7, page 5: three pages either side,
      2..8. */
  lemma NearPagesOfSevenInMiddle()
    ensures NearPagesIterator(State(200, 20, 5), 7) == [2, 3, 4, 5, 6, 7, 8]
  {
    assert TotalPages(State(200, 20, 5)) == 10;
    assert FloorDiv(6, 2) == 3 && CeilDiv(6, 2) == 3;
    assert NearBounds(5, 10, 7) == (2, 8);
  }

  /** 200 items at 20 per page, window of 7, page 10: the window is pushed
      left to 4..10. */
  lemma NearPagesOfSevenAtLast()
    ensures NearPagesIterator(State(200, 20, 10), 7) == [4, 5, 6, 7, 8, 9, 10]
  {
    assert TotalPages(State(200, 20, 10)) == 10;
    assert FloorDiv(6, 2) == 3 && CeilDiv(6, 2) == 3;
    assert NearBounds(10, 10, 7) == (4, 10);
  }

  /** A window of 8 gives the right side the extra page: page 6 of 10 shows
      3..10. */
  lemma NearPagesOfEight()
    ensures NearPagesIterator(State(200, 20, 6), 8) == [3, 4, 5, 6, 7, 8, 9, 10]
  {
    assert TotalPages(State(200, 20, 6)) == 10;
    assert FloorDiv(7, 2) == 3 && CeilDiv(7, 2) == 4;
    assert NearBounds(6, 10, 8) == (3, 10);
  }

  /** A window at least as long as the page count shows every page; an empty
      collection shows none. */
  lemma NearPagesSmall()
    ensures NearPagesIterator(State(60, 20, 2), 4) == [1, 2, 3]
    ensures NearPagesIterator(State(0, 20, 0), 5) == []
  {
    assert TotalPages(State(60, 20, 2)) == 3;
  }

  /** Asking 200 items at 20 per page for item 0 fits it to item 1 and
      page 1, and the caller receives `null`, not the documented `false`. */
  lemma FittedItemReportsNull()
    ensures SetCurrentItemAsWritten(State(200, 20, 1), 0) == (State(200, 20, 1), Null)
    ensures SetCurrentItemChecked(State(200, 20, 1), 0) == (State(200, 20, 1), false)
  {
    FloorDivUnique(0, 20, 0);
  }
}
