// The pagination arithmetic of renderPaginations, identical in src/js/home.js
// and js/discover.js: how many pages there are, which page numbers fit in
// the measured width, where the ellipses go, and which items are active or
// disabled. Widths are the integer pixel measurements the scripts read.
module Pagination {

  const PerPage: nat := 24

  function Max(a: int, b: int): int { if a >= b then a else b }
  function Min(a: int, b: int): int { if a <= b then a else b }

  /** Math.ceil(total / NUM_PER_PAGE). */
  function TotalPages(total: nat): (tp: nat)
    ensures tp * PerPage >= total
    ensures tp * PerPage < total + PerPage
  {
    (total + PerPage - 1) / PerPage
  }

  /** The offset sent with the request for `page` (the count sent is always PerPage). */
  function RequestStart(page: int): int
  {
    (page - 1) * PerPage
  }

  /**
   * The requests tile the result list: item k is fetched by exactly one page,
   * k / 24 + 1, and that page exists whenever item k does.
   */
  lemma PageOfItem(k: nat, total: nat)
    requires k < total
    ensures var p := k / PerPage + 1;
      1 <= p <= TotalPages(total) && RequestStart(p) <= k < RequestStart(p) + PerPage
  {
    var d := k / PerPage;
    assert d * PerPage <= k < d * PerPage + PerPage;
    assert k < TotalPages(total) * PerPage;
    assert d < TotalPages(total);
  }

  /** No other page fetches item k. */
  lemma OnlyPageOfItem(k: nat, q: int)
    requires RequestStart(q) <= k < RequestStart(q) + PerPage
    ensures q == k / PerPage + 1
  {
    var d := k / PerPage;
    assert d * PerPage <= k < d * PerPage + PerPage;
    assert (q - 1) * PerPage <= k < (q - 1) * PerPage + PerPage;
  }

  /** home.js hides the pagination exactly when everything fits on one page. */
  function PaginationHidden(total: nat): (hidden: bool)
    ensures hidden <==> total <= PerPage
  {
    TotalPages(total) <= 1
  }

  /** The page numbers that fit, and the range of numbered links between first and last. */
  datatype Window = Window(totalPages: int, maxVisible: int, ellipsis: bool, startPage: int, endPage: int)

  /** The prev/next and first/last slots kept free before page numbers are fitted. */
  function Reserved(totalPages: int): int
  {
    if totalPages > 1 then 4 else 2
  }

  /** Math.min(Math.max(1, Math.floor((cw - reserved * iw) / iw)), totalPages). */
  function MaxVisible(totalPages: int, containerWidth: int, itemWidth: int): int
    requires itemWidth > 0
  {
    Min(Max(1, (containerWidth - Reserved(totalPages) * itemWidth) / itemWidth), totalPages)
  }

  /** The window renderPaginations computes. */
  function WindowOf(total: nat, currentPage: int, containerWidth: int, itemWidth: int): Window
    requires itemWidth > 0
  {
    var tp := TotalPages(total);
    var mv := MaxVisible(tp, containerWidth, itemWidth);
    if tp <= mv + 2 then Window(tp, mv, false, 1, tp)
    else
      var side := (mv - 2) / 2;
      var s := Max(2, currentPage - side);
      var e := Min(tp - 1, currentPage + side);
      var missing := mv - 2 - (e - s + 1);
      if e - s + 1 < mv - 2 && s == 2 then Window(tp, mv, true, 2, Min(tp - 1, e + missing))
      else if e - s + 1 < mv - 2 && e == tp - 1 then Window(tp, mv, true, Max(2, s - missing), e)
      else Window(tp, mv, true, s, e)
  }

  /** The facts about a window that the link rules rely on. */
  predicate WellPlaced(w: Window)
  {
    && w.totalPages >= 0
    && (w.totalPages > 0 ==> 1 <= w.maxVisible <= w.totalPages)
    && (w.ellipsis <==> w.totalPages > w.maxVisible + 2)
    && (w.ellipsis ==> w.totalPages >= 3 && 2 <= w.startPage && w.endPage <= w.totalPages - 1)
    && (!w.ellipsis ==> w.startPage == 1 && w.endPage == w.totalPages)
  }

  /**
   * maxVisible is at least 1 and at most the page count; ellipsis mode holds
   * iff the pages outnumber maxVisible + 2, and then the numbered range stays
   * strictly between the first and the last page and holds at most
   * maxVisible - 1 numbers; otherwise every page is numbered.
   */
  lemma WindowShape(total: nat, currentPage: int, containerWidth: int, itemWidth: int)
    requires itemWidth > 0
    ensures WellPlaced(WindowOf(total, currentPage, containerWidth, itemWidth))
    ensures var w := WindowOf(total, currentPage, containerWidth, itemWidth);
      w.ellipsis ==> w.endPage - w.startPage + 1 <= w.maxVisible - 1
  {
    var w := WindowOf(total, currentPage, containerWidth, itemWidth);
    var tp := TotalPages(total);
    var mv := MaxVisible(tp, containerWidth, itemWidth);
    if tp > mv + 2 {
      var side := (mv - 2) / 2;
      assert 2 * side <= mv - 2;
    }
  }

  /**
   * With room for at least two numbers, the current page (when it exists) is
   * always one of the links: the first, the last, or inside the numbered range.
   */
  lemma CurrentPageInWindow(total: nat, currentPage: int, containerWidth: int, itemWidth: int)
    requires itemWidth > 0
    requires 1 <= currentPage <= TotalPages(total)
    requires MaxVisible(TotalPages(total), containerWidth, itemWidth) >= 2
    ensures var w := WindowOf(total, currentPage, containerWidth, itemWidth);
      currentPage == 1 || currentPage == w.totalPages || w.startPage <= currentPage <= w.endPage
  {
  }

  /** One entry of the rendered pagination list. */
  datatype PageItem = Prev(disabled: bool) | Link(page: int, active: bool) | Gap | Next(disabled: bool)

  /** The numbered links startPage..endPage. */
  function Numbers(first: int, last: int, currentPage: int): (r: seq<PageItem>)
    decreases if last < first then 0 else last - first + 1
  {
    if last < first then [] else Numbers(first, last - 1, currentPage) + [Link(last, last == currentPage)]
  }

  /** The first link and the leading ellipsis. */
  function Head(w: Window, currentPage: int): seq<PageItem>
  {
    if w.startPage > 1 then [Link(1, currentPage == 1)] + (if w.startPage > 2 then [Gap] else []) else []
  }

  /** The trailing ellipsis and the last link. */
  function Tail(w: Window, currentPage: int): seq<PageItem>
  {
    if w.endPage < w.totalPages then
      (if w.endPage < w.totalPages - 1 then [Gap] else []) + [Link(w.totalPages, currentPage == w.totalPages)]
    else []
  }

  /** The items renderPaginations appends, in order. */
  function Layout(w: Window, currentPage: int): seq<PageItem>
  {
    [Prev(currentPage == 1)] + Head(w, currentPage) + Numbers(w.startPage, w.endPage, currentPage)
      + Tail(w, currentPage) + [Next(currentPage == w.totalPages)]
  }

  /**
   * The width arithmetic of renderPaginations, with its variables reassigned
   * step by step as in the script.
   */
  method ComputeWindow(total: nat, currentPage: int, containerWidth: int, itemWidth: int)
    returns (w: Window)
    requires itemWidth > 0
    ensures w == WindowOf(total, currentPage, containerWidth, itemWidth)
  {
    var totalPages := (total + PerPage - 1) / PerPage;
    var reserved := 2;
    if totalPages > 1 {
      reserved := reserved + 2;
    }
    var maxVisible := Max(1, (containerWidth - reserved * itemWidth) / itemWidth);
    maxVisible := Min(maxVisible, totalPages);
    var showFirst, showLast := true, true;
    if totalPages <= maxVisible + 2 {
      showFirst := false;
      showLast := false;
    }
    var startPage := 1;
    var endPage := totalPages;
    if showFirst && showLast {
      var side := (maxVisible - 2) / 2;
      startPage := Max(2, currentPage - side);
      endPage := Min(totalPages - 1, currentPage + side);
      if endPage - startPage + 1 < maxVisible - 2 {
        if startPage == 2 {
          endPage := Min(totalPages - 1, endPage + (maxVisible - 2 - (endPage - startPage + 1)));
        } else if endPage == totalPages - 1 {
          startPage := Max(2, startPage - (maxVisible - 2 - (endPage - startPage + 1)));
        }
      }
    } else if showFirst {
      // showFirst and showLast are always set together
      assert false;
    } else if showLast {
      assert false;
    } else {
      startPage := 1;
      endPage := totalPages;
    }
    w := Window(totalPages, maxVisible, showFirst && showLast, startPage, endPage);
  }

  /** The items appended to the pagination element for a computed window. */
  method RenderItems(w: Window, currentPage: int) returns (items: seq<PageItem>)
    ensures items == Layout(w, currentPage)
    ensures items[0] == Prev(currentPage == 1) && items[|items| - 1] == Next(currentPage == w.totalPages)
  {
    items := [Prev(currentPage == 1)];
    if w.startPage > 1 {
      items := items + [Link(1, currentPage == 1)];
      if w.startPage > 2 {
        items := items + [Gap];
      }
    }
    var head := items;
    assert head == [Prev(currentPage == 1)] + Head(w, currentPage);
    var i := w.startPage;
    while i <= w.endPage
      invariant w.startPage <= i <= Max(w.startPage, w.endPage + 1)
      invariant items == head + Numbers(w.startPage, i - 1, currentPage)
      decreases w.endPage - i + 1
    {
      items := items + [Link(i, i == currentPage)];
      i := i + 1;
    }
    var body := items;
    if w.endPage < w.totalPages {
      if w.endPage < w.totalPages - 1 {
        items := items + [Gap];
      }
      items := items + [Link(w.totalPages, currentPage == w.totalPages)];
    }
    assert items == body + Tail(w, currentPage);
    items := items + [Next(currentPage == w.totalPages)];
  }

  /** renderPaginations for one pagination element. */
  method RenderPagination(total: nat, currentPage: int, containerWidth: int, itemWidth: int)
    returns (w: Window, items: seq<PageItem>)
    requires itemWidth > 0
    ensures w == WindowOf(total, currentPage, containerWidth, itemWidth)
    ensures items == Layout(w, currentPage)
  {
    w := ComputeWindow(total, currentPage, containerWidth, itemWidth);
    items := RenderItems(w, currentPage);
  }

  // ---------------------------------------------------------------------
  // Properties of the rendered list
  // ---------------------------------------------------------------------

  /** The page numbers of the links, in order. */
  function PagesOf(items: seq<PageItem>): seq<int>
  {
    if items == [] then [] else (if items[0].Link? then [items[0].page] else []) + PagesOf(items[1..])
  }

  lemma {:induction false} PagesOfAppend(a: seq<PageItem>, b: seq<PageItem>)
    ensures PagesOf(a + b) == PagesOf(a) + PagesOf(b)
  {
    if a != [] {
      assert (a + b)[1..] == a[1..] + b;
      PagesOfAppend(a[1..], b);
    } else {
      assert a + b == b;
    }
  }

  predicate Increasing(s: seq<int>)
  {
    forall i, j :: 0 <= i < j < |s| ==> s[i] < s[j]
  }

  function Range(first: int, last: int): seq<int>
    decreases if last < first then 0 else last - first + 1
  {
    if last < first then [] else Range(first, last - 1) + [last]
  }

  lemma {:induction false} RangeFacts(first: int, last: int)
    ensures Increasing(Range(first, last))
    ensures forall k :: 0 <= k < |Range(first, last)| ==> first <= Range(first, last)[k] <= last
    decreases if last < first then 0 else last - first + 1
  {
    if last >= first {
      RangeFacts(first, last - 1);
    }
  }

  lemma {:induction false} NumbersPages(first: int, last: int, currentPage: int)
    ensures PagesOf(Numbers(first, last, currentPage)) == Range(first, last)
    decreases if last < first then 0 else last - first + 1
  {
    if last >= first {
      NumbersPages(first, last - 1, currentPage);
      PagesOfAppend(Numbers(first, last - 1, currentPage), [Link(last, last == currentPage)]);
    }
  }

  /** Prev and Next buttons name no page. */
  lemma ButtonPages(b: bool)
    ensures PagesOf([Prev(b)]) == [] && PagesOf([Next(b)]) == []
  {
  }

  /** The head names page 1 exactly when the window starts after it. */
  lemma HeadPages(w: Window, currentPage: int)
    ensures PagesOf(Head(w, currentPage)) == if w.startPage > 1 then [1] else []
  {
    if w.startPage > 1 {
      PagesOfAppend([Link(1, currentPage == 1)], if w.startPage > 2 then [Gap] else []);
    }
  }

  /** The tail names the last page exactly when the window ends before it. */
  lemma TailPages(w: Window, currentPage: int)
    ensures PagesOf(Tail(w, currentPage)) == if w.endPage < w.totalPages then [w.totalPages] else []
  {
    if w.endPage < w.totalPages {
      PagesOfAppend(if w.endPage < w.totalPages - 1 then [Gap] else [], [Link(w.totalPages, currentPage == w.totalPages)]);
    }
  }

  /** The pages named by the links of a layout: 1 when shown first, the range, and the last page when shown last. */
  lemma LayoutPages(w: Window, currentPage: int)
    ensures PagesOf(Layout(w, currentPage)) ==
      (if w.startPage > 1 then [1] else []) + Range(w.startPage, w.endPage)
        + (if w.endPage < w.totalPages then [w.totalPages] else [])
  {
    var p, q := [Prev(currentPage == 1)], [Next(currentPage == w.totalPages)];
    var h := Head(w, currentPage);
    var n := Numbers(w.startPage, w.endPage, currentPage);
    var t := Tail(w, currentPage);
    var first := if w.startPage > 1 then [1] else [];
    var range := Range(w.startPage, w.endPage);
    var last := if w.endPage < w.totalPages then [w.totalPages] else [];
    calc {
      PagesOf(Layout(w, currentPage));
      PagesOf(p + h + n + t + q);
      { PagesOfAppend(p + h + n + t, q); }
      PagesOf(p + h + n + t) + PagesOf(q);
      { PagesOfAppend(p + h + n, t); PagesOfAppend(p + h, n); PagesOfAppend(p, h); }
      PagesOf(p) + PagesOf(h) + PagesOf(n) + PagesOf(t) + PagesOf(q);
      { ButtonPages(currentPage == 1); ButtonPages(currentPage == w.totalPages); }
      [] + PagesOf(h) + PagesOf(n) + PagesOf(t) + [];
      { HeadPages(w, currentPage); NumbersPages(w.startPage, w.endPage, currentPage); TailPages(w, currentPage); }
      [] + first + range + last + [];
      { assert [] + first == first; assert first + range + last + [] == first + range + last; }
      first + range + last;
    }
  }

  /** All elements lie between low and high. */
  predicate Within(s: seq<int>, low: int, high: int)
  {
    forall k :: 0 <= k < |s| ==> low <= s[k] <= high
  }

  /** A number below an increasing run, put in front, keeps it increasing. */
  lemma ConsSmaller(x: int, s: seq<int>, low: int, high: int)
    requires Increasing(s) && Within(s, low, high) && x < low && x <= high
    ensures Increasing([x] + s) && Within([x] + s, x, high)
  {
    var z := [x] + s;
    forall i, j | 0 <= i < j < |z| ensures z[i] < z[j] {
      assert z[j] == s[j - 1];
      if i > 0 {
        assert z[i] == s[i - 1];
      }
    }
    forall k | 0 <= k < |z| ensures x <= z[k] <= high {
      if k > 0 {
        assert z[k] == s[k - 1];
      }
    }
  }

  /** A number above an increasing run, put after it, keeps it increasing. */
  lemma SnocLarger(s: seq<int>, x: int, low: int, high: int)
    requires Increasing(s) && Within(s, low, high) && high < x && low <= x
    ensures Increasing(s + [x]) && Within(s + [x], low, x)
  {
    var z := s + [x];
    forall i, j | 0 <= i < j < |z| ensures z[i] < z[j] {
      assert z[i] == s[i];
      if j < |s| {
        assert z[j] == s[j];
      }
    }
    forall k | 0 <= k < |z| ensures low <= z[k] <= x {
      if k < |s| {
        assert z[k] == s[k];
      }
    }
  }

  /** A range with 1 before it stays increasing, and below every page after `last`. */
  lemma FirstThenRange(first: int, last: int, top: int)
    requires 1 <= first && last <= top
    requires first > 1 ==> top >= 2
    ensures var ar := (if first > 1 then [1] else []) + Range(first, last);
      Increasing(ar) && Within(ar, 1, top) && (last < top ==> Within(ar, 1, top - 1))
  {
    RangeFacts(first, last);
    var r := Range(first, last);
    assert Within(r, first, last);
    if first > 1 {
      ConsSmaller(1, r, first, top);
      assert (if first > 1 then [1] else []) + r == [1] + r;
    } else {
      assert (if first > 1 then [1] else []) + r == r;
    }
  }

  /** A range with 1 before it and the last page after it stays increasing and in bounds. */
  lemma Sandwich(first: int, last: int, top: int)
    requires 1 <= first && last <= top
    requires first > 1 ==> top >= 2
    requires last < top ==> top >= 1
    ensures var pages := (if first > 1 then [1] else []) + Range(first, last) + (if last < top then [top] else []);
      Increasing(pages) && Within(pages, 1, top)
  {
    var ar := (if first > 1 then [1] else []) + Range(first, last);
    FirstThenRange(first, last, top);
    if last < top {
      SnocLarger(ar, top, 1, top - 1);
      assert ar + (if last < top then [top] else []) == ar + [top];
    } else {
      assert ar + (if last < top then [top] else []) == ar;
    }
  }

  /**
   * Every page number appears at most once, in increasing order, and only
   * pages that exist are linked.
   */
  lemma LinksIncreasing(total: nat, currentPage: int, containerWidth: int, itemWidth: int)
    requires itemWidth > 0
    ensures var w := WindowOf(total, currentPage, containerWidth, itemWidth);
      var pages := PagesOf(Layout(w, currentPage));
      Increasing(pages) && forall k :: 0 <= k < |pages| ==> 1 <= pages[k] <= w.totalPages
  {
    var w := WindowOf(total, currentPage, containerWidth, itemWidth);
    WindowShape(total, currentPage, containerWidth, itemWidth);
    LayoutPages(w, currentPage);
    Sandwich(w.startPage, w.endPage, w.totalPages);
  }

  /** A link is marked active exactly when it is the current page. */
  lemma ActiveIffCurrent(w: Window, currentPage: int, k: nat)
    requires k < |Layout(w, currentPage)| && Layout(w, currentPage)[k].Link?
    ensures Layout(w, currentPage)[k].active <==> Layout(w, currentPage)[k].page == currentPage
  {
    var h := Head(w, currentPage);
    var n := Numbers(w.startPage, w.endPage, currentPage);
    NumbersActive(w.startPage, w.endPage, currentPage);
    var items := Layout(w, currentPage);
    if 1 + |h| <= k < 1 + |h| + |n| {
      assert items[k] == n[k - 1 - |h|];
    }
  }

  lemma {:induction false} NumbersActive(first: int, last: int, currentPage: int)
    ensures forall k :: 0 <= k < |Numbers(first, last, currentPage)| ==>
      Numbers(first, last, currentPage)[k].Link? &&
      (Numbers(first, last, currentPage)[k].active <==> Numbers(first, last, currentPage)[k].page == currentPage)
    decreases if last < first then 0 else last - first + 1
  {
    if last >= first {
      NumbersActive(first, last - 1, currentPage);
    }
  }

  /**
   * With room for two numbers or more, the current page is shown as the
   * active link.
   */
  lemma CurrentPageShown(total: nat, currentPage: int, containerWidth: int, itemWidth: int)
    requires itemWidth > 0
    requires 1 <= currentPage <= TotalPages(total)
    requires MaxVisible(TotalPages(total), containerWidth, itemWidth) >= 2
    ensures Link(currentPage, true) in Layout(WindowOf(total, currentPage, containerWidth, itemWidth), currentPage)
  {
    var w := WindowOf(total, currentPage, containerWidth, itemWidth);
    CurrentPageInWindow(total, currentPage, containerWidth, itemWidth);
    WindowShape(total, currentPage, containerWidth, itemWidth);
    var items := Layout(w, currentPage);
    var h := Head(w, currentPage);
    var n := Numbers(w.startPage, w.endPage, currentPage);
    var t := Tail(w, currentPage);
    assert items == [Prev(currentPage == 1)] + h + n + t + [Next(currentPage == w.totalPages)];
    if w.startPage <= currentPage <= w.endPage {
      NumbersContain(w.startPage, w.endPage, currentPage);
      assert Link(currentPage, true) in n;
    } else if currentPage == 1 {
      assert h[0] == Link(1, true);
    } else {
      assert currentPage == w.totalPages && w.endPage < w.totalPages;
      assert t[|t| - 1] == Link(w.totalPages, true);
    }
  }

  lemma {:induction false} NumbersContain(first: int, last: int, currentPage: int)
    requires first <= currentPage <= last
    ensures Link(currentPage, true) in Numbers(first, last, currentPage)
    decreases if last < first then 0 else last - first + 1
  {
    if currentPage < last {
      NumbersContain(first, last - 1, currentPage);
    }
  }

  /**
   * When only one number fits (maxVisible = 1) and the ellipses are shown,
   * side is -1 and the current page is left out: 96 results on four pages,
   * a 50px bar of 10px items, page 2 selected.
   */
  lemma NarrowBarHidesCurrentPage()
    ensures WindowOf(96, 2, 50, 10) == Window(4, 1, true, 3, 1)
    ensures Layout(WindowOf(96, 2, 50, 10), 2) ==
      [Prev(false), Link(1, false), Gap, Gap, Link(4, false), Next(false)]
    ensures Link(2, true) !in Layout(WindowOf(96, 2, 50, 10), 2)
  {
    assert TotalPages(96) == 4;
    assert MaxVisible(4, 50, 10) == 1;
    var w := WindowOf(96, 2, 50, 10);
    assert Numbers(3, 1, 2) == [];
    assert Layout(w, 2) == [Prev(false), Link(1, false), Gap, Gap, Link(4, false), Next(false)];
  }
}
