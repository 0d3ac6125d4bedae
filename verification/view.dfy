/** The navigation state of the document view (`shell/ev-view.c`): the
    current page and its clamping, the find cursor that walks the search
    results page by page, the rubberband selection, scrolling, zooming and
    the centring of a page in the window. Widget calls the view makes are
    recorded as a list of `Effect`s instead of being performed. */
module View {
  import opened Glib

  /** The part of `EvView` these operations read and write. */
  datatype View = View(
    hasDocument: bool,
    canFind: bool,        // the document implements the find interface
    currentPage: int,
    findPage: int,
    findResult: int,
    hasSelection: bool,
    scale: real)

  /** Calls into the pixbuf cache, signal emissions and widget requests. */
  datatype Effect =
    | SetPageRange(first: int, last: int)
    | PageChanged
    | QueueResize
    | ScrollToTop
    | UpdateFindStatus
      /** A call to `jump_to_find_result`, which scrolls to the current
          result only when the page has more results than the cursor's
          index; otherwise the call shows nothing. */
    | ShowFindResult

  /** `set_document_page`. The target is clamped to the pages of the
      document; the page-range request, the page-changed signal, the loss of
      the selection and the scroll to the top happen only when the page
      really changes; a searchable document has its find cursor moved to
      the first result of the page. Without a document nothing happens. */
  function SetDocumentPage(v: View, newPage: int, nPages: int): (r: (View, seq<Effect>))
    ensures !v.hasDocument ==> r == (v, [])
    ensures v.hasDocument ==> r.0.currentPage == Clamp(newPage, 1, nPages)
    ensures v.hasDocument && nPages >= 1 ==> 1 <= r.0.currentPage <= nPages
    ensures PageChanged in r.1 <==> r.0.currentPage != v.currentPage
    ensures SetPageRange(r.0.currentPage, r.0.currentPage) in r.1 <==> PageChanged in r.1
    ensures ScrollToTop in r.1 <==> PageChanged in r.1
    ensures r.0.hasSelection <==> v.hasSelection && PageChanged !in r.1
    ensures v.hasDocument && v.canFind ==> r.0.findPage == r.0.currentPage && r.0.findResult == 0
    ensures !(v.hasDocument && v.canFind) ==> r.0.findPage == v.findPage && r.0.findResult == v.findResult
    ensures r.0.hasDocument == v.hasDocument && r.0.canFind == v.canFind && r.0.scale == v.scale
  {
    var page := Clamp(newPage, 1, nPages);
    if !v.hasDocument then (v, [])
    else
      var changed := v.currentPage != page;
      var v1 := if changed then v.(currentPage := page, hasSelection := false) else v;
      var e1 := if changed then [SetPageRange(page, page), PageChanged, QueueResize, ScrollToTop] else [];
      if v.canFind then (v1.(findPage := page, findResult := 0), e1 + [UpdateFindStatus])
      else (v1, e1)
  }

  /** Going to the page the view is already on changes nothing further. */
  lemma SetDocumentPageIdempotent(v: View, newPage: int, nPages: int)
    ensures var (v1, _) := SetDocumentPage(v, newPage, nPages);
      var (v2, e2) := SetDocumentPage(v1, newPage, nPages);
      v2 == v1 && PageChanged !in e2
  {
  }

  /** `ev_view_get_page`: the document's own page, or 1 without one. */
  function GetPage(v: View, documentPage: int): int
  {
    if v.hasDocument then documentPage else 1
  }

  // ---------------------------------------------------------------------
  // Find cursor

  /** The cursor step of `ev_view_find_next`: the next result of the page,
      or, past the last one, the first result of the next page, the last
      page wrapping to the first. The flag says whether the page moved. */
  function FindNextCursor(page: int, result: int, nResults: int, nPages: int): (r: (int, int, bool))
    ensures r.2 <==> result + 1 >= nResults
    ensures !r.2 ==> r.0 == page && r.1 == result + 1
    ensures r.2 ==> r.1 == 0 && r.0 == (if page >= nPages then 1 else page + 1)
    ensures 1 <= page <= nPages ==> 1 <= r.0 <= nPages
  {
    if result + 1 >= nResults then
      var p := page + 1;
      (if p > nPages then 1 else p, 0, true)
    else (page, result + 1, false)
  }

  /** The cursor step of `ev_view_find_previous`: the previous result, or,
      before the first one, result 0 of the previous page, the first page
      wrapping to the last. */
  function FindPreviousCursor(page: int, result: int, nPages: int): (r: (int, int, bool))
    ensures r.2 <==> result < 1
    ensures !r.2 ==> r.0 == page && r.1 == result - 1
    ensures r.2 ==> r.1 == 0 && r.0 == (if page <= 1 then nPages else page - 1)
    ensures 1 <= page <= nPages ==> 1 <= r.0 <= nPages
  {
    if result - 1 < 0 then
      var p := page - 1;
      (if p < 1 then nPages else p, 0, true)
    else (page, result - 1, false)
  }

  /** Stepping back after stepping forward to another page returns to the
      page the cursor came from. */
  lemma FindPreviousUndoesNext(page: int, result: int, nResults: int, nPages: int)
    requires 1 <= page <= nPages
    requires result + 1 >= nResults
    ensures var n := FindNextCursor(page, result, nResults, nPages);
      var p := FindPreviousCursor(n.0, n.1, nPages);
      p.0 == page && p.1 == 0
  {
  }

  /** The `i`-th page `jump_to_find_page` asks about: `i` pages after the
      find page, wrapped once past the last page. */
  function Candidate(i: int, findPage: int, nPages: int): (p: int)
    ensures 0 <= i <= nPages && 1 <= findPage <= nPages ==> 1 <= p <= nPages
  {
    var p := i + findPage;
    if p > nPages then p - nPages else p
  }

  /** The first `nPages` candidates are all the pages of the document. */
  lemma EveryPageIsCandidate(q: int, findPage: int, nPages: int) returns (i: int)
    requires 1 <= q <= nPages && 1 <= findPage <= nPages
    ensures 0 <= i < nPages && Candidate(i, findPage, nPages) == q
  {
    i := if q >= findPage then q - findPage else q - findPage + nPages;
  }

  /** How the scan of `jump_to_find_page` ends: at a page whose search is
      still pending (-1), at a page with results (1), or having found
      neither; `index` is the loop counter it stopped at. */
  datatype ScanOutcome = Pending(page: int, index: int) | Found(page: int, index: int) | Exhausted

  /** The loop of `jump_to_find_page` from counter `i` on; `hasResults` is
      `ev_document_find_page_has_results`. It stops at the first candidate
      reporting -1 or 1 and asks about no page after it. */
  function Scan(i: int, findPage: int, nPages: int, hasResults: int -> int): (r: ScanOutcome)
    requires 0 <= i
    ensures r.Pending? ==> hasResults(r.page) == -1
    ensures r.Found? ==> hasResults(r.page) == 1
    ensures !r.Exhausted? ==> i <= r.index <= nPages && r.page == Candidate(r.index, findPage, nPages)
    ensures !r.Exhausted? ==>
      forall k :: i <= k < r.index ==> hasResults(Candidate(k, findPage, nPages)) !in {-1, 1}
    ensures r.Exhausted? ==>
      forall k :: i <= k <= nPages ==> hasResults(Candidate(k, findPage, nPages)) !in {-1, 1}
    decreases nPages + 1 - i
  {
    if i > nPages then Exhausted
    else
      var page := Candidate(i, findPage, nPages);
      var h := hasResults(page);
      if h == -1 then Pending(page, i)
      else if h == 1 then Found(page, i)
      else Scan(i + 1, findPage, nPages, hasResults)
  }

  /** The scan misses nothing: when some page is pending or has results, it
      does not come back empty-handed. */
  lemma ScanFindsAnyReportingPage(q: int, findPage: int, nPages: int, hasResults: int -> int)
    requires 1 <= q <= nPages && 1 <= findPage <= nPages
    requires hasResults(q) in {-1, 1}
    ensures !Scan(0, findPage, nPages, hasResults).Exhausted?
    ensures 1 <= Scan(0, findPage, nPages, hasResults).page <= nPages
  {
    var i := EveryPageIsCandidate(q, findPage, nPages);
  }

  /** `jump_to_find_page`: a pending page becomes the find page; a page
      with results becomes the current page (through `SetDocumentPage`) and
      `jump_to_find_result` is called for it, which shows the result under
      the cursor only when the page has more results than its index. */
  function JumpToFindPage(v: View, nPages: int, hasResults: int -> int): (r: (View, seq<Effect>))
    ensures var s := Scan(0, v.findPage, nPages, hasResults);
      && (s.Exhausted? ==> r == (v, []))
      && (s.Pending? ==> r == (v.(findPage := s.page), []))
      && (s.Found? ==> r.0 == SetDocumentPage(v, s.page, nPages).0 && ShowFindResult in r.1)
    ensures v.hasDocument && v.canFind && 1 <= v.findPage <= nPages ==> 1 <= r.0.findPage <= nPages
  {
    match Scan(0, v.findPage, nPages, hasResults)
    case Exhausted => (v, [])
    case Pending(page, _) => (v.(findPage := page), [])
    case Found(page, _) =>
      var (v', effects) := SetDocumentPage(v, page, nPages);
      (v', effects + [ShowFindResult])
  }

  /** `ev_view_find_next`: the next result on the same page is shown in
      place; past the last one the cursor moves on and the view jumps to
      the next page worth showing. */
  function FindNext(v: View, nResults: int, nPages: int, hasResults: int -> int): (r: (View, seq<Effect>))
    ensures var c := FindNextCursor(v.findPage, v.findResult, nResults, nPages);
      && (!c.2 ==> r == (v.(findResult := c.1), [ShowFindResult]))
      && (c.2 ==> r == JumpToFindPage(v.(findPage := c.0, findResult := 0), nPages, hasResults))
    ensures v.hasDocument && v.canFind && 1 <= v.findPage <= nPages ==> 1 <= r.0.findPage <= nPages
  {
    var (page, result, moved) := FindNextCursor(v.findPage, v.findResult, nResults, nPages);
    if moved then JumpToFindPage(v.(findPage := page, findResult := 0), nPages, hasResults)
    else (v.(findResult := result), [ShowFindResult])
  }

  /** `ev_view_find_previous`, the mirror image of `FindNext`. */
  function FindPrevious(v: View, nPages: int, hasResults: int -> int): (r: (View, seq<Effect>))
    ensures var c := FindPreviousCursor(v.findPage, v.findResult, nPages);
      && (!c.2 ==> r == (v.(findResult := c.1), [ShowFindResult]))
      && (c.2 ==> r == JumpToFindPage(v.(findPage := c.0, findResult := 0), nPages, hasResults))
    ensures v.hasDocument && v.canFind && 1 <= v.findPage <= nPages ==> 1 <= r.0.findPage <= nPages
  {
    var (page, result, moved) := FindPreviousCursor(v.findPage, v.findResult, nPages);
    if moved then JumpToFindPage(v.(findPage := page, findResult := 0), nPages, hasResults)
    else (v.(findResult := result), [ShowFindResult])
  }

  // ---------------------------------------------------------------------
  // Rubberband selection

  datatype Point = Point(x: int, y: int)

  /** A `GdkRectangle`. */
  datatype Area = Area(x: int, y: int, width: int, height: int)

  predicate Contains(a: Area, p: Point)
  {
    a.x <= p.x < a.x + a.width && a.y <= p.y < a.y + a.height
  }

  /** The selection rectangle of `ev_view_motion_notify_event` while a
      button is held: spanned by where the drag started and where the
      pointer is. It is the smallest rectangle containing both points. */
  function Rubberband(start: Point, pointer: Point): (r: Area)
    ensures r.width >= 1 && r.height >= 1
    ensures Contains(r, start) && Contains(r, pointer)
    ensures forall a :: Contains(a, start) && Contains(a, pointer) ==>
      a.width >= r.width && a.height >= r.height
  {
    Area(Min(start.x, pointer.x), Min(start.y, pointer.y),
         Abs(start.x - pointer.x) + 1, Abs(start.y - pointer.y) + 1)
  }

  /** The rectangle does not depend on the direction of the drag. */
  lemma RubberbandSymmetric(a: Point, b: Point)
    ensures Rubberband(a, b) == Rubberband(b, a)
  {
  }

  // ---------------------------------------------------------------------
  // Colour

  /** `ev_gdk_color_to_rgb`: the high byte of each 16-bit channel packed
      under an opaque alpha byte. */
  function ColorToRgb(red: bv16, green: bv16, blue: bv16): (rgb: bv32)
    ensures rgb >> 24 == 0xff
    ensures (rgb >> 16) & 0xff == (red >> 8) as bv32
    ensures (rgb >> 8) & 0xff == (green >> 8) as bv32
    ensures rgb & 0xff == (blue >> 8) as bv32
  {
    var result: bv32 := 0xff0000 | ((red as bv32) & 0xff00);
    var result := result << 8;
    result | (((green as bv32) & 0xff00) | ((blue as bv32) >> 8))
  }

  /** The packing agrees with the byte layout `0xAARRGGBB` built channel by
      channel. */
  lemma ColorToRgbLayout(red: bv16, green: bv16, blue: bv16)
    ensures ColorToRgb(red, green, blue) ==
      0xff000000 | (((red >> 8) as bv32) << 16) | (((green >> 8) as bv32) << 8) | ((blue >> 8) as bv32)
  {
  }

  // ---------------------------------------------------------------------
  // Scrolling and adjustments

  /** A `GtkAdjustment`. */
  datatype Adjustment = Adjustment(
    value: real, lower: real, upper: real,
    pageSize: real, stepIncrement: real, pageIncrement: real)

  datatype ScrollType = StepBackward | StepForward | PageBackward | PageForward | OtherScroll

  /** What `ev_view_scroll_view` does: move to another page, or set the
      value of the scrolled adjustment. */
  datatype ScrollAction = GoToPage(page: int) | SetValue(value: real)

  /** `ev_view_scroll_view`; `adj` is the adjustment of the scrolled
      direction and `page` is `ev_view_get_page`. Page scrolls move one page;
      any other scroll moves by a step in its direction, or not at all, and
      is kept inside the scrollable range. */
  function ScrollView(scroll: ScrollType, adj: Adjustment, page: int): (r: ScrollAction)
    ensures scroll == PageBackward ==> r == GoToPage(page - 1)
    ensures scroll == PageForward ==> r == GoToPage(page + 1)
    ensures scroll != PageBackward && scroll != PageForward ==> r.SetValue?
    ensures r.SetValue? && adj.lower <= adj.upper - adj.pageSize ==>
      adj.lower <= r.value <= adj.upper - adj.pageSize
    ensures r.SetValue? && adj.lower <= adj.value <= adj.upper - adj.pageSize && adj.stepIncrement >= 0.0 ==>
      && (scroll == StepForward ==> adj.value <= r.value <= adj.value + adj.stepIncrement)
      && (scroll == StepBackward ==> adj.value - adj.stepIncrement <= r.value <= adj.value)
      && (scroll == OtherScroll ==> r.value == adj.value)
  {
    match scroll
    case PageBackward => GoToPage(page - 1)
    case PageForward => GoToPage(page + 1)
    case _ =>
      var value :=
        if scroll == StepBackward then adj.value - adj.stepIncrement
        else if scroll == StepForward then adj.value + adj.stepIncrement
        else adj.value;
      SetValue(ClampReal(value, adj.lower, adj.upper - adj.pageSize))
  }

  /** Paging forward while `ev_view_get_page` reports the last page, with
      the view on that page, changes nothing: the target is clamped back to
      the page the view is on. `set_document_page` does not update the
      document's page, so the view's page alone does not guarantee this. */
  lemma PageForwardAtLastPage(v: View, adj: Adjustment, nPages: int, documentPage: int)
    requires v.hasDocument && nPages >= 1 && v.currentPage == nPages && documentPage == nPages
    ensures var a := ScrollView(PageForward, adj, GetPage(v, documentPage));
      var (v', effects) := SetDocumentPage(v, a.page, nPages);
      v'.currentPage == nPages && PageChanged !in effects
  {
  }

  /** `view_set_adjustment_values` for one direction. The adjustment spans
      the larger of the allocation and the requisition, one allocation per
      page; a value past the new end is pulled back to it, and the flag
      says whether that happened. Without an adjustment nothing happens. */
  function SetAdjustmentValues(adj: Option<Adjustment>, allocation: int, requisition: int)
    : (r: (Option<Adjustment>, bool))
    ensures adj.None? ==> r == (None, false)
    ensures adj.Some? ==> r.0.Some?
    ensures adj.Some? ==> var a := r.0.value;
      && a.lower == 0.0 && a.pageSize == allocation as real
      && a.upper == Max(allocation, requisition) as real
      && a.stepIncrement == allocation as real * 0.1
      && a.pageIncrement == allocation as real * 0.9
      && a.value <= a.upper - a.pageSize
      && (r.1 <==> adj.value.value > a.upper - a.pageSize)
      && (r.1 ==> a.value == a.upper - a.pageSize)
      && (!r.1 ==> a.value == adj.value.value)
    ensures adj.Some? && adj.value.value >= 0.0 ==> r.0.value.value >= 0.0
  {
    match adj
    case None => (None, false)
    case Some(a) =>
      var a1 := a.(pageSize := allocation as real,
                   stepIncrement := allocation as real * 0.1,
                   pageIncrement := allocation as real * 0.9,
                   lower := 0.0,
                   upper := Max(allocation, requisition) as real);
      if a1.value > a1.upper - a1.pageSize then (Some(a1.(value := a1.upper - a1.pageSize)), true)
      else (Some(a1), false)
  }

  /** Setting the values again for the same sizes changes nothing and
      reports no value change: the first call already left the value
      within the new range. */
  lemma SetAdjustmentValuesIdempotent(adj: Option<Adjustment>, allocation: int, requisition: int)
    ensures var (a1, _) := SetAdjustmentValues(adj, allocation, requisition);
      SetAdjustmentValues(a1, allocation, requisition) == (a1, false)
  {
  }

  // ---------------------------------------------------------------------
  // Zoom

  const MinScale: real := 0.05409
  const MaxScale: real := 18.4884
  const ZoomInFactor: real := 1.2
  const ZoomOutFactor: real := 1.0 / ZoomInFactor

  /** `ev_view_zoom`: the new scale, absolute or relative to the current
      one, always within `[MinScale, MaxScale]` and exact when the request
      is. */
  function Zoom(scale: real, factor: real, relative: bool): (r: real)
    ensures MinScale <= r <= MaxScale
    ensures var target := if relative then scale * factor else factor;
      (MinScale <= target <= MaxScale ==> r == target)
      && (target > MaxScale ==> r == MaxScale)
      && (target < MinScale ==> r == MinScale)
  {
    ClampReal(if relative then scale * factor else factor, MinScale, MaxScale)
  }

  /** `ev_view_zoom_out` undoes `ev_view_zoom_in` whenever zooming in was
      not cut short by the upper bound. */
  lemma ZoomOutUndoesZoomIn(scale: real)
    requires MinScale <= scale && scale * ZoomInFactor <= MaxScale
    ensures Zoom(Zoom(scale, ZoomInFactor, true), ZoomOutFactor, true) == scale
  {
    assert Zoom(scale, ZoomInFactor, true) == scale * ZoomInFactor;
    assert scale * ZoomInFactor * ZoomOutFactor == scale;
  }

  // ---------------------------------------------------------------------
  // Page offsets

  /** `GtkBorder`: the page's shadow and frame widths. */
  datatype Border = Border(left: int, right: int, top: int, bottom: int)

  /** One axis of `ev_view_get_offsets`: the spacing, plus half of whatever
      room the page, its border and the spacing on both sides leave in the
      window. */
  function Offset(spacing: int, allocation: int, size: int, before: int, after: int): (o: int)
    ensures o >= spacing
    ensures var target := size + before + after + spacing * 2;
      && (allocation <= target ==> o == spacing)
      && (allocation >= target ==>
            var lead := o - spacing;
            var trail := allocation - target - lead;
            0 <= lead <= trail <= lead + 1)
  {
    var target := size + before + after + spacing * 2;
    spacing + Max(0, CDiv(allocation - target, 2))
  }

  /** `ev_view_get_offsets`: both offsets, each at least the spacing. */
  function GetOffsets(spacing: int, allocWidth: int, allocHeight: int,
                      width: int, height: int, border: Border): (r: (int, int))
    ensures r.0 >= spacing && r.1 >= spacing
    ensures r.0 == Offset(spacing, allocWidth, width, border.left, border.right)
    ensures r.1 == Offset(spacing, allocHeight, height, border.top, border.bottom)
  {
    (Offset(spacing, allocWidth, width, border.left, border.right),
     Offset(spacing, allocHeight, height, border.top, border.bottom))
  }
}
