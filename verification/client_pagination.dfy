/**
 * The client's page bar: the window of page links it shows around the
 * current page, the link targets, and where the previous/next buttons lead.
 */
module ClientPagination {
  import opened Wrappers
  import opened Text

  /**
   * The pagination fields of a paged response (its `items` are not needed
   * here). `totalPages` is None for the JSON null the server sends for a
   * limit of 0.
   */
  datatype PageInfo = PageInfo(currentPage: int, limit: int, totalItems: int, totalPages: Option<nat>)

  /** One numbered link: the page it requests, its URL, and whether it is drawn highlighted. */
  datatype PageLink = PageLink(page: int, target: string, highlighted: bool)

  /** What the bar renders: the previous button, the links, the next button. */
  datatype PageBar = PageBar(prevDisabled: bool, links: seq<PageLink>, nextDisabled: bool)

  function Max(a: int, b: int): int { if a < b then b else a }
  function Min(a: int, b: int): int { if a < b then a else b }

  /** The first page of the window the bar draws around `current`. */
  function First(current: int): int { Max(1, current - 3) }

  /** The last page of the window the bar draws around `current`. */
  function Last(current: int, totalPages: nat): int { Min(totalPages, current + 4) }

  /** `pagination?.totalPages ?? 1`: the page count the links are drawn for, 1 when the server sent null. */
  function ShownPages(totalPages: Option<nat>): (n: nat)
    ensures totalPages.Some? ==> n == totalPages.value
    ensures totalPages.None? ==> n == 1
  {
    totalPages.GetOr(1)
  }

  /** How many pages `a..b` holds. */
  function Span(a: int, b: int): nat { if a <= b then b - a + 1 else 0 }

  /** `Array.from({length: n}, (_, i) => i + 1)`: the pages 1..n. */
  function AllPages(n: nat): (r: seq<int>)
    ensures |r| == n
    ensures forall i :: 0 <= i < n ==> r[i] == i + 1
  {
    seq(n, i requires 0 <= i < n => i + 1)
  }

  /** How `Array.prototype.slice` reads one bound: a negative bound counts from the end, and both are clamped to the length. */
  function SliceBound(k: int, n: nat): nat {
    if k < 0 then Max(n + k, 0) else Min(k, n)
  }

  /** `Array.prototype.slice(start, end)`. */
  function Slice<T>(s: seq<T>, start: int, end: int): seq<T> {
    var from := SliceBound(start, |s|);
    var to := SliceBound(end, |s|);
    if from < to then s[from..to] else []
  }

  /**
   * The page numbers the bar links to: the pages 1..T sliced from
   * `current - 4` (or 0) to `current + 4` (or T). For any current page
   * from -4 up, the links are the contiguous ascending pages
   * First(current)..Last(current, T). Only a current page below -4, which
   * a response never carries, reaches slice's count-from-the-end rule.
   */
  function Window(current: int, totalPages: nat): (r: seq<int>)
    ensures forall i :: 0 <= i < |r| ==> 1 <= r[i] <= totalPages
    ensures -4 <= current ==> |r| == Span(First(current), Last(current, totalPages))
    ensures -4 <= current ==> forall i :: 0 <= i < |r| ==> r[i] == First(current) + i
    ensures current < -4 ==> |r| == Max(0, totalPages + current + 4)
    ensures current < -4 ==> forall i :: 0 <= i < |r| ==> r[i] == i + 1
    ensures totalPages == 0 ==> r == []
  {
    var pages := AllPages(totalPages);
    var r := Slice(pages,
                   if current - 4 > 0 then current - 4 else 0,
                   if current + 4 < totalPages then current + 4 else totalPages);
    r
  }

  /** The window holds exactly the pages First..Last, at most eight of them, and the current page once when it exists. */
  lemma {:induction false} WindowPages(current: int, totalPages: nat)
    requires 1 <= current
    ensures |Window(current, totalPages)| <= 8
    ensures forall p :: p in Window(current, totalPages) <==> First(current) <= p <= Last(current, totalPages)
    ensures current <= totalPages ==>
      exists i :: 0 <= i < |Window(current, totalPages)| && Window(current, totalPages)[i] == current
    ensures forall i, j :: 0 <= i < j < |Window(current, totalPages)| ==>
      Window(current, totalPages)[i] < Window(current, totalPages)[j]
  {
    var r := Window(current, totalPages);
    var a := First(current);
    forall p | First(current) <= p <= Last(current, totalPages) ensures p in r {
      assert r[p - a] == p;
    }
    if current <= totalPages {
      assert r[current - a] == current;
    }
  }

  /** The URL a page link targets: `?page=<page>&limit=<limit>`. */
  function Target(page: int, limit: int): string {
    "?page=" + IntToString(page) + "&limit=" + IntToString(limit)
  }

  lemma NoAmpersand(i: int)
    ensures '&' !in IntToString(i)
  {
  }

  /** Distinct (page, limit) pairs lead to distinct URLs. */
  lemma {:induction false} TargetInjective(p1: int, l1: int, p2: int, l2: int)
    ensures Target(p1, l1) == Target(p2, l2) ==> p1 == p2 && l1 == l2
  {
    if Target(p1, l1) == Target(p2, l2) {
      var a1, b1 := IntToString(p1), "limit=" + IntToString(l1);
      var a2, b2 := IntToString(p2), "limit=" + IntToString(l2);
      TargetParts(p1, l1);
      TargetParts(p2, l2);
      NoAmpersand(p1);
      NoAmpersand(p2);
      SplitAtSeparator(a1, a2, b1, b2, '&');
      IntToStringInjective(p1, p2);
      assert b1[6..] == IntToString(l1);
      assert b2[6..] == IntToString(l2);
      IntToStringInjective(l1, l2);
    }
  }

  lemma TargetParts(p: int, l: int)
    ensures Target(p, l)[6..] == IntToString(p) + (['&'] + ("limit=" + IntToString(l)))
  {
    var a, b := IntToString(p), IntToString(l);
    assert Target(p, l) == "?page=" + (a + (['&'] + ("limit=" + b)));
  }

  /** The page the previous button asks for, if it asks for one: the page before the current one, never below 1. */
  function PrevRequest(current: int): (r: Option<int>)
    ensures r.Some? <==> current > 1
    ensures r.Some? ==> r.value == current - 1 && 1 <= r.value
  {
    if current > 1 then Some(current - 1) else None
  }

  /**
   * `Number(null)`: a relational comparison such as `currentPage < null`
   * reads null as 0.
   */
  function Numeric(totalPages: Option<nat>): int {
    if totalPages.Some? then totalPages.value else 0
  }

  /**
   * The page the next button asks for, if it asks for one: the page after the
   * current one, never beyond the last. Against a null `totalPages` the
   * comparison is with 0, so from any page of a response, which is at least
   * 1, it asks for nothing.
   */
  function NextRequest(current: int, totalPages: Option<nat>): (r: Option<int>)
    ensures totalPages.Some? ==> (r.Some? <==> current < totalPages.value)
    ensures totalPages.None? ==> (r.Some? <==> current < 0)
    ensures r.Some? ==> r.value == current + 1
    ensures r.Some? && totalPages.Some? ==> r.value <= totalPages.value
  {
    if current < Numeric(totalPages) then Some(current + 1) else None
  }

  /**
   * The rendered bar; a missing `pagination` renders nothing. The links are
   * drawn for `totalPages ?? 1` pages. The next button is disabled by the
   * strict comparison `currentPage === totalPages`, which null never meets.
   */
  function Bar(pagination: Option<PageInfo>): (r: Option<PageBar>)
    ensures r.None? <==> pagination.None?
    ensures r.Some? ==> |r.value.links| == |Window(pagination.value.currentPage, ShownPages(pagination.value.totalPages))|
    ensures r.Some? ==> forall i :: 0 <= i < |r.value.links| ==>
      1 <= r.value.links[i].page <= ShownPages(pagination.value.totalPages)
    ensures r.Some? && pagination.value.totalPages.None? ==> !r.value.nextDisabled
  {
    match pagination
    case None => None
    case Some(info) =>
      var c := info.currentPage;
      var pages := Window(c, ShownPages(info.totalPages));
      var links := seq(|pages|, i requires 0 <= i < |pages| =>
        PageLink(pages[i], Target(pages[i], info.limit), pages[i] == c));
      Some(PageBar(c == 1, links, info.totalPages.Some? && c == info.totalPages.value))
  }

  /** When the current page is among the pages drawn, exactly one link is highlighted, and it is the current page's. */
  lemma {:induction false} OneHighlightedLink(info: PageInfo)
    requires 1 <= info.currentPage <= ShownPages(info.totalPages)
    ensures Bar(Some(info)).Some?
    ensures exists i :: 0 <= i < |Bar(Some(info)).value.links| && Bar(Some(info)).value.links[i].highlighted
    ensures forall i :: 0 <= i < |Bar(Some(info)).value.links| && Bar(Some(info)).value.links[i].highlighted ==>
      Bar(Some(info)).value.links[i].page == info.currentPage
    ensures forall i, j :: 0 <= i < j < |Bar(Some(info)).value.links| ==>
      !(Bar(Some(info)).value.links[i].highlighted && Bar(Some(info)).value.links[j].highlighted)
  {
    var c := info.currentPage;
    var links := Bar(Some(info)).value.links;
    var pages := Window(c, ShownPages(info.totalPages));
    WindowPages(c, ShownPages(info.totalPages));
    var k :| 0 <= k < |pages| && pages[k] == c;
    assert links[k].highlighted;
  }

  /**
   * From a page of a response, the previous button is drawn disabled exactly
   * when clicking it requests nothing, and so is the next button when the
   * current page is within the page count. Past the count, as on page 1 of
   * an empty table (a count of 0), and when the count is null, the next
   * button is drawn enabled although clicking it requests nothing.
   */
  lemma DisabledExactlyWhenIdle(info: PageInfo)
    requires 1 <= info.currentPage
    ensures Bar(Some(info)).value.prevDisabled <==> PrevRequest(info.currentPage).None?
    ensures info.totalPages.Some? && info.currentPage <= info.totalPages.value ==>
      (Bar(Some(info)).value.nextDisabled <==> NextRequest(info.currentPage, info.totalPages).None?)
    ensures info.totalPages.Some? && info.currentPage > info.totalPages.value ==>
      !Bar(Some(info)).value.nextDisabled && NextRequest(info.currentPage, info.totalPages).None?
    ensures info.totalPages.None? ==>
      !Bar(Some(info)).value.nextDisabled && NextRequest(info.currentPage, info.totalPages).None?
  {
  }
}
