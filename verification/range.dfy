/** PHP's built-in `range($a, $b)` on integers, which both pagination classes
    use to enumerate pages and items. It includes both ends and counts DOWN
    when `$a > $b`. */
module PhpRange {

  /** `r` is the run of consecutive integers `from, from+1, ...`. */
  predicate Run(r: seq<int>, from: int) {
    forall j :: 0 <= j < |r| ==> r[j] == from + j
  }

  /** `r` is the run of consecutive integers `from, from-1, ...`. */
  predicate RunDown(r: seq<int>, from: int) {
    forall j :: 0 <= j < |r| ==> r[j] == from - j
  }

  /** `range(a, b)`: every integer between `a` and `b` inclusive, in the
      direction from `a` to `b`. */
  function Range(a: int, b: int): (r: seq<int>)
    ensures |r| == (if a <= b then b - a + 1 else a - b + 1)
    ensures a <= b ==> Run(r, a)
    ensures b < a ==> RunDown(r, a)
    decreases if a <= b then b - a else a - b
  {
    if a == b then [a]
    else if a < b then [a] + Range(a + 1, b)
    else [a] + Range(a - 1, b)
  }

  /** A range holds exactly the integers between its ends, whichever the
      direction. */
  lemma RangeMembership(a: int, b: int, x: int)
    ensures x in Range(a, b) <==> (a <= x <= b || b <= x <= a)
  {
    var r := Range(a, b);
    if a <= x <= b {
      assert r[x - a] == x;
    } else if b <= x <= a {
      assert r[a - x] == x;
    }
  }
}
