/**
 * The page-number strip under paged lists: page 1, a window of one page on
 * each side of the current page, the last page, and an ellipsis wherever
 * pages are skipped; plus the Previous/Next buttons' targets.
 */
module Pagination {

  /** One entry of the strip: a page number or the '...' marker. */
  datatype PageEntry = Page(n: int) | Gap

  /** Neighbours shown on each side of the current page. */
  const Delta: int := 1

  function Max(a: int, b: int): int { if a >= b then a else b }
  function Min(a: int, b: int): int { if a <= b then a else b }

  /** First page of the window. */
  function Left(current: int): int { Max(2, current - Delta) }

  /** Last page of the window. */
  function Right(current: int, total: int): int { Min(total - 1, current + Delta) }

  /** The pages `lo..hi`, in order. */
  function Window(lo: int, hi: int): (r: seq<PageEntry>)
    ensures |r| == (if lo <= hi then hi - lo + 1 else 0)
    ensures forall k :: 0 <= k < |r| ==> r[k] == Page(lo + k)
    decreases hi - lo
  {
    if lo > hi then [] else Window(lo, hi - 1) + [Page(hi)]
  }

  /** Page 1, then '...' when the window starts after page 2. */
  function Head(current: int): seq<PageEntry>
  {
    [Page(1)] + (if Left(current) > 2 then [Gap] else [])
  }

  /** '...' when the window ends before the page preceding the last, then the last page when there is more than one. */
  function Tail(current: int, total: int): seq<PageEntry>
  {
    (if Right(current, total) < total - 1 then [Gap] else [])
    + (if total > 1 then [Page(total)] else [])
  }

  /** The strip for `current` of `total` pages. */
  function PageRange(current: int, total: int): seq<PageEntry>
  {
    Head(current) + Window(Left(current), Right(current, total)) + Tail(current, total)
  }

  /** getPageRange: pushes page 1, the leading ellipsis, the window page by page, the trailing ellipsis and the last page. */
  method GetPageRange(current: int, total: int) returns (range: seq<PageEntry>)
    ensures range == PageRange(current, total)
  {
    var left := Max(2, current - Delta);
    var right := Min(total - 1, current + Delta);
    range := [Page(1)];
    if left > 2 {
      range := range + [Gap];
    }
    ghost var head := range;
    var i := left;
    while i <= right
      invariant left <= i <= Max(left, right + 1)
      invariant range == head + Window(left, i - 1)
      decreases right - i
    {
      range := range + [Page(i)];
      i := i + 1;
    }
    assert Window(left, i - 1) == Window(left, right);
    if right < total - 1 {
      range := range + [Gap];
    }
    if total > 1 {
      range := range + [Page(total)];
    }
  }

  /** Page numbers never decrease from left to right, and never repeat. */
  predicate Increasing(r: seq<PageEntry>)
  {
    forall i, j :: 0 <= i < j < |r| && r[i].Page? && r[j].Page? ==> r[i].n < r[j].n
  }

  predicate PagesWithin(r: seq<PageEntry>, lo: int, hi: int)
  {
    forall k :: 0 <= k < |r| && r[k].Page? ==> lo <= r[k].n <= hi
  }

  lemma IncreasingAppend(a: seq<PageEntry>, b: seq<PageEntry>, m: int)
    requires Increasing(a) && Increasing(b)
    requires forall k :: 0 <= k < |a| && a[k].Page? ==> a[k].n < m
    requires forall k :: 0 <= k < |b| && b[k].Page? ==> m <= b[k].n
    ensures Increasing(a + b)
  {
    forall i, j | 0 <= i < j < |a + b| && (a + b)[i].Page? && (a + b)[j].Page?
      ensures (a + b)[i].n < (a + b)[j].n
    {
      if j < |a| {
        assert (a + b)[i] == a[i] && (a + b)[j] == a[j];
      } else if i >= |a| {
        assert (a + b)[i] == b[i - |a|] && (a + b)[j] == b[j - |a|];
      } else {
        assert (a + b)[i] == a[i] && (a + b)[j] == b[j - |a|];
      }
    }
  }

  /** The strip always starts at page 1. */
  lemma StartsAtOne(current: int, total: int)
    ensures |PageRange(current, total)| >= 1 && PageRange(current, total)[0] == Page(1)
  {
  }

  /** The last page closes the strip exactly when there is more than one page; otherwise only markers follow page 1. */
  lemma EndsAtTotal(current: int, total: int)
    ensures var r := PageRange(current, total);
      (total > 1 ==> r[|r| - 1] == Page(total)) &&
      (total <= 1 ==> forall k :: 0 < k < |r| ==> r[k] == Gap)
  {
  }

  lemma WindowIncreasing(lo: int, hi: int)
    ensures Increasing(Window(lo, hi))
    ensures PagesWithin(Window(lo, hi), lo, hi)
  {
  }

  /** Page numbers strictly increase along the strip. */
  lemma PagesIncrease(current: int, total: int)
    ensures Increasing(PageRange(current, total))
  {
    var left := Left(current);
    var right := Right(current, total);
    var h := Head(current);
    var w := Window(left, right);
    var t := Tail(current, total);
    assert Increasing(h) && PagesWithin(h, 1, 1);
    WindowIncreasing(left, right);
    IncreasingAppend(h, w, 2);
    var top := Max(1, right);
    assert PagesWithin(h + w, 1, top) by {
      forall k | 0 <= k < |h + w| && (h + w)[k].Page? ensures 1 <= (h + w)[k].n <= top {
        if k >= |h| { assert (h + w)[k] == w[k - |h|]; } else { assert (h + w)[k] == h[k]; }
      }
    }
    assert Increasing(t) && PagesWithin(t, top + 1, total);
    IncreasingAppend(h + w, t, top + 1);
  }

  /** Which pages are shown: 1, the window, and the last page when there is more than one. */
  lemma ShownPages(current: int, total: int, p: int)
    ensures Page(p) in PageRange(current, total) <==>
      (p == 1 || (Left(current) <= p <= Right(current, total)) || (total > 1 && p == total))
  {
    var left := Left(current);
    var right := Right(current, total);
    var w := Window(left, right);
    if left <= p <= right {
      assert w[p - left] == Page(p);
    }
    if Page(p) in w {
      var k :| 0 <= k < |w| && w[k] == Page(p);
    }
  }

  /** A page inside the range is always shown. */
  lemma CurrentShown(current: int, total: int)
    requires 1 <= current <= total
    ensures Page(current) in PageRange(current, total)
  {
    ShownPages(current, total, current);
  }

  /** At most five page numbers: 1, three around the current page, and the last. */
  lemma AtMostFivePages(current: int, total: int)
    ensures |Window(Left(current), Right(current, total))| <= 3
    ensures var r := PageRange(current, total);
      |r| <= 7 && forall k :: 0 <= k < |r| && r[k].Gap? ==> k == 1 || k == |r| - 2
    ensures Count(PageRange(current, total)) <= 5
  {
    var left := Left(current);
    var right := Right(current, total);
    var h := Head(current);
    var w := Window(left, right);
    var t := Tail(current, total);
    CountAppend(h, w);
    CountAppend(h + w, t);
    WindowCount(left, right);
  }

  /** The number of page numbers in a strip. */
  function Count(r: seq<PageEntry>): (c: nat)
    ensures c <= |r|
  {
    if r == [] then 0 else (if r[0].Page? then 1 else 0) + Count(r[1..])
  }

  lemma {:induction false} CountAppend(a: seq<PageEntry>, b: seq<PageEntry>)
    ensures Count(a + b) == Count(a) + Count(b)
  {
    if a == [] {
      assert a + b == b;
    } else {
      assert (a + b)[1..] == a[1..] + b;
      CountAppend(a[1..], b);
    }
  }

  lemma {:induction false} WindowCount(lo: int, hi: int)
    ensures Count(Window(lo, hi)) == |Window(lo, hi)|
    decreases hi - lo
  {
    if lo <= hi {
      WindowCount(lo, hi - 1);
      CountAppend(Window(lo, hi - 1), [Page(hi)]);
    }
  }

  /** For a page inside the range, an ellipsis follows page 1 exactly when page 2 is not shown, and precedes the last page exactly when the page before it is not shown. */
  lemma GapsMarkSkippedPages(current: int, total: int)
    requires 1 <= current <= total
    ensures var r := PageRange(current, total);
      (|r| > 1 && r[1] == Gap <==> Left(current) > 2) &&
      (total > 1 ==> (r[|r| - 2] == Gap <==> Right(current, total) < total - 1))
    ensures total >= 3 ==> Left(current) <= current + 1 && Left(current) <= Right(current, total)
  {
  }

  /** Previous: one page back, never below page 1. */
  function PreviousPage(current: int): (p: int)
    ensures p >= 1
    ensures current > 1 ==> p == current - 1
    ensures current <= 1 ==> p == 1
  {
    Max(1, current - 1)
  }

  /** Next: one page on, never beyond the last page. */
  function NextPage(current: int, totalPages: int): (p: int)
    ensures p <= totalPages
    ensures current < totalPages ==> p == current + 1
    ensures current >= totalPages ==> p == totalPages
  {
    Min(totalPages, current + 1)
  }

  /** From a page inside the range the buttons stay inside it, and Previous undoes Next away from the last page. */
  lemma ButtonsStayInRange(current: int, totalPages: int)
    requires 1 <= current <= totalPages
    ensures 1 <= PreviousPage(current) <= totalPages
    ensures 1 <= NextPage(current, totalPages) <= totalPages
    ensures current < totalPages ==> PreviousPage(NextPage(current, totalPages)) == current
  {
  }
}
