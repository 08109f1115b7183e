/**
 * The arithmetic of the Pagination component (src/shared/components/Pagination.js):
 * page count, the "Showing X to Y of N" range, the window of at most five
 * numbered buttons around the current page, and which controls show.
 */
module PaginationControl {
  import opened Wrappers
  import opened JsMath
  import QueryEngine

  /** How many numbered buttons the window holds at most. */
  const ShowMax := 5

  /** `Math.ceil(totalItems / pageSize)` */
  function TotalPages(totalItems: int, pageSize: int): (pages: int)
    requires pageSize > 0
    ensures (pages - 1) * pageSize < totalItems <= pages * pageSize
  {
    CeilDivIsCeiling(totalItems, pageSize);
    CeilDiv(totalItems, pageSize)
  }

  /** The 1-based position of the first item shown, 0 when there are none. */
  function StartItem(totalItems: int, currentPage: int, pageSize: int): int {
    if totalItems > 0 then (currentPage - 1) * pageSize + 1 else 0
  }

  /** The 1-based position of the last item shown. */
  function EndItem(totalItems: int, currentPage: int, pageSize: int): int {
    Min(currentPage * pageSize, totalItems)
  }

  /** The pages `lo, lo + 1, ..., hi`; empty when `hi < lo`. */
  function Range(lo: int, hi: int): seq<int>
    decreases hi - lo
  {
    if hi < lo then [] else Range(lo, hi - 1) + [hi]
  }

  /** The window's first page: two before the current one, moved back when the end is clipped. */
  function WindowStart(currentPage: int, totalPages: int): int {
    var start := Max(1, currentPage - 2);
    var end := Min(totalPages, start + ShowMax - 1);
    if end - start + 1 < ShowMax then Max(1, end - ShowMax + 1) else start
  }

  /** The window's last page, fixed before the start is moved back. */
  function WindowEnd(currentPage: int, totalPages: int): int {
    Min(totalPages, Max(1, currentPage - 2) + ShowMax - 1)
  }

  /** The numbered buttons for `currentPage` out of `totalPages`. */
  function PageWindow(currentPage: int, totalPages: int): seq<int> {
    Range(WindowStart(currentPage, totalPages), WindowEnd(currentPage, totalPages))
  }

  /** `getPageNumbers()`: computes the window bounds, then pushes each page of it. */
  method GetPageNumbers(currentPage: int, totalPages: int) returns (pages: seq<int>)
    ensures pages == PageWindow(currentPage, totalPages)
  {
    var start := Max(1, currentPage - 2);
    var end := Min(totalPages, start + ShowMax - 1);
    if end - start + 1 < ShowMax {
      start := Max(1, end - ShowMax + 1);
    }
    pages := [];
    var i := start;
    while i <= end
      invariant start <= i <= Max(end + 1, start)
      invariant pages == Range(start, i - 1)
      decreases end - i + 1
    {
      pages := pages + [i];
      i := i + 1;
    }
  }

  lemma {:induction false} RangeShape(lo: int, hi: int)
    ensures |Range(lo, hi)| == Max(hi - lo + 1, 0)
    ensures forall i :: 0 <= i < |Range(lo, hi)| ==> Range(lo, hi)[i] == lo + i
    decreases hi - lo
  {
    if hi >= lo {
      RangeShape(lo, hi - 1);
    }
  }

  /**
   * The window is consecutive pages within 1..totalPages, as many as there
   * are pages up to five; it holds the current page when that is a page,
   * centres it when it can, and is every page when there are at most five.
   */
  lemma WindowShape(currentPage: int, totalPages: int)
    ensures var w := PageWindow(currentPage, totalPages);
            && |w| == Min(Max(totalPages, 0), ShowMax)
            && (forall i :: 0 <= i < |w| ==> w[i] == w[0] + i)
            && (forall i :: 0 <= i < |w| ==> 1 <= w[i] <= totalPages)
            && (1 <= currentPage <= totalPages ==> currentPage in w)
            && (3 <= currentPage <= totalPages - 2 ==> w == Range(currentPage - 2, currentPage + 2))
            && (totalPages <= ShowMax ==> w == Range(1, totalPages))
  {
    var lo, hi := WindowStart(currentPage, totalPages), WindowEnd(currentPage, totalPages);
    RangeShape(lo, hi);
    if 1 <= currentPage <= totalPages {
      assert Range(lo, hi)[currentPage - lo] == currentPage;
    }
  }

  /**
   * What the component renders around the numbered buttons: the info text,
   * the navigation row (only with more than one page), the disabled states
   * of previous/next, the first- and last-page buttons outside the window
   * and the ellipses beside them.
   */
  datatype Controls = Controls(
    showInfo: bool,
    showNav: bool,
    prevDisabled: bool,
    nextDisabled: bool,
    showFirst: bool,
    leadingEllipsis: bool,
    showLast: bool,
    trailingEllipsis: bool,
    pages: seq<int>)

  /**
   * The controls for a page of `pageSize` items out of `totalItems`. An empty
   * window compares as `undefined`, which is never greater or smaller than a
   * number.
   */
  function ControlsFor(currentPage: int, pageSize: int, totalItems: int): (c: Controls)
    requires pageSize > 0
    ensures c.pages == PageWindow(currentPage, TotalPages(totalItems, pageSize))
    ensures c.showNav <==> totalItems > pageSize
  {
    var totalPages := TotalPages(totalItems, pageSize);
    var w := PageWindow(currentPage, totalPages);
    var first := if |w| > 0 then Some(w[0]) else None;
    var last := if |w| > 0 then Some(w[|w| - 1]) else None;
    Controls(
      totalItems > 0,
      totalPages > 1,
      currentPage == 1,
      currentPage == totalPages,
      first.Some? && first.value > 1,
      first.Some? && first.value > 2,
      last.Some? && last.value < totalPages,
      last.Some? && last.value < totalPages - 1,
      w)
  }

  /** The page buttons in display order: the first page, the window, the last page. */
  function Buttons(c: Controls, totalPages: int): seq<int> {
    (if c.showFirst then [1] else []) + c.pages + (if c.showLast then [totalPages] else [])
  }

  /** Consecutive pages within 1..totalPages, at least one. */
  ghost predicate Spans(w: seq<int>, totalPages: int) {
    && |w| > 0
    && (forall i :: 0 <= i < |w| ==> w[i] == w[0] + i)
    && 1 <= w[0] && w[|w| - 1] <= totalPages
  }

  /** First page, window, last page: strictly increasing from 1 to totalPages. */
  lemma ButtonsIncrease(w: seq<int>, totalPages: int)
    requires Spans(w, totalPages)
    ensures var b := (if w[0] > 1 then [1] else []) + w + (if w[|w| - 1] < totalPages then [totalPages] else []);
            && b[0] == 1 && b[|b| - 1] == totalPages
            && (forall i, j :: 0 <= i < j < |b| ==> b[i] < b[j])
  {
    var head := if w[0] > 1 then [1] else [];
    var tail := if w[|w| - 1] < totalPages then [totalPages] else [];
    var b := head + w + tail;
    forall i, j | 0 <= i < j < |b|
      ensures b[i] < b[j]
    {
      if i < |head| {
        if j >= |head| + |w| { assert b[j] == totalPages; } else { assert b[j] == w[j - |head|]; }
      } else if i < |head| + |w| {
        assert b[i] == w[i - |head|];
        if j < |head| + |w| { assert b[j] == w[j - |head|]; } else { assert b[j] == totalPages; }
      }
    }
  }

  /** A page between the window's ends is one of its buttons. */
  lemma WindowHolds(w: seq<int>, totalPages: int, p: int)
    requires Spans(w, totalPages) && w[0] <= p <= w[|w| - 1]
    ensures p in w
  {
    assert w[p - w[0]] == p;
  }

  /** No page strictly between 1 and the window's first page is a button, and likewise at the end. */
  lemma GapsAreHidden(w: seq<int>, totalPages: int, p: int)
    requires Spans(w, totalPages)
    requires 1 < p < w[0] || w[|w| - 1] < p < totalPages
    ensures p !in (if w[0] > 1 then [1] else []) + w + (if w[|w| - 1] < totalPages then [totalPages] else [])
  {
    forall k | 0 <= k < |w| ensures w[k] != p {
    }
  }

  /**
   * With more than one page and the current page in range, the buttons run
   * strictly upward from page 1 to the last page, every other page sits
   * behind an ellipsis, and an ellipsis shows only where pages are hidden.
   */
  lemma NavigationCoversAllPages(currentPage: int, pageSize: int, totalItems: int)
    requires pageSize > 0
    requires 1 <= currentPage <= TotalPages(totalItems, pageSize)
    requires TotalPages(totalItems, pageSize) > 1
    ensures var totalPages := TotalPages(totalItems, pageSize);
            var c := ControlsFor(currentPage, pageSize, totalItems);
            var b := Buttons(c, totalPages);
            && c.showNav
            && |b| > 0 && b[0] == 1 && b[|b| - 1] == totalPages
            && (forall i, j :: 0 <= i < j < |b| ==> b[i] < b[j])
            && (forall p :: 1 <= p <= totalPages && p !in b ==>
                  (c.leadingEllipsis && p < c.pages[0]) || (c.trailingEllipsis && p > c.pages[|c.pages| - 1]))
            && (c.leadingEllipsis ==> 2 !in b)
            && (c.trailingEllipsis ==> totalPages - 1 !in b)
  {
    var totalPages := TotalPages(totalItems, pageSize);
    var c := ControlsFor(currentPage, pageSize, totalItems);
    var w := c.pages;
    WindowShape(currentPage, totalPages);
    assert Spans(w, totalPages);
    ButtonsIncrease(w, totalPages);
    var b := Buttons(c, totalPages);
    forall p | 1 <= p <= totalPages && p !in b
      ensures (c.leadingEllipsis && p < w[0]) || (c.trailingEllipsis && p > w[|w| - 1])
    {
      if w[0] <= p <= w[|w| - 1] {
        WindowHolds(w, totalPages, p);
      }
    }
    if c.leadingEllipsis {
      GapsAreHidden(w, totalPages, 2);
    }
    if c.trailingEllipsis {
      GapsAreHidden(w, totalPages, totalPages - 1);
    }
  }

  /**
   * The previous and next buttons are disabled exactly on the first and the
   * last page; when enabled on a page in range they lead to a page in range.
   */
  lemma PrevNextStayInRange(currentPage: int, pageSize: int, totalItems: int)
    requires pageSize > 0
    requires 1 <= currentPage <= TotalPages(totalItems, pageSize)
    ensures var totalPages := TotalPages(totalItems, pageSize);
            var c := ControlsFor(currentPage, pageSize, totalItems);
            && (c.prevDisabled <==> currentPage == 1)
            && (c.nextDisabled <==> currentPage == totalPages)
            && (!c.prevDisabled ==> 1 <= currentPage - 1 <= totalPages)
            && (!c.nextDisabled ==> 1 <= currentPage + 1 <= totalPages)
  {
  }

  /**
   * "Showing X to Y of N" names exactly the items the server returns for the
   * same page: for a page in range, X is one past the slice's offset and Y
   * its end, so Y - X + 1 rows are listed.
   */
  lemma ShownRangeIsServedPage(totalItems: nat, currentPage: int, pageSize: int)
    requires pageSize > 0 && totalItems > 0
    requires 1 <= currentPage <= TotalPages(totalItems, pageSize)
    ensures var bounds := QueryEngine.PageBounds(totalItems, currentPage, pageSize);
            && StartItem(totalItems, currentPage, pageSize) == bounds.0 + 1
            && EndItem(totalItems, currentPage, pageSize) == bounds.1
            && 1 <= StartItem(totalItems, currentPage, pageSize) <= EndItem(totalItems, currentPage, pageSize) <= totalItems
  {
    var totalPages := TotalPages(totalItems, pageSize);
    MulMonotone(currentPage - 1, totalPages - 1, pageSize);
    assert (currentPage - 1) * pageSize + pageSize == currentPage * pageSize;
  }
}
