/** Incremental text search of the PDF backend (`pdf/ev-poppler.cc`).
    A search records, per page, the match rectangles Poppler reports; an
    idle callback visits one page per run, starting at the page the search
    began on and wrapping around the end of the document, and removes itself
    once it is back at the start page. */
module PdfFind {
  import opened Glib
  import opened PdfGeometry

  /** `PdfDocumentSearch`. `pages` is indexed by 0-based page number;
      `running` is the idle source being installed. */
  datatype Search = Search(
    text: string,
    pages: seq<seq<Rect>>,
    startPage: int,
    searchPage: int,
    running: bool)

  /** The cursor and start page name pages of the document. */
  predicate Valid(s: Search)
  {
    0 <= s.startPage < |s.pages| && 0 <= s.searchPage < |s.pages|
  }

  /** `pdf_document_search_new`: no page has matches yet, and the idle
      callback is installed to start at `startPage`. */
  function SearchNew(nPages: nat, startPage: int, text: string): (s: Search)
    ensures |s.pages| == nPages
    ensures forall i :: 0 <= i < nPages ==> s.pages[i] == []
    ensures s.text == text && s.running
    ensures s.startPage == startPage && s.searchPage == startPage
    ensures 0 <= startPage < nPages <==> Valid(s)
  {
    Search(text, seq(nPages, _ => []), startPage, startPage, true)
  }

  /** One run of `pdf_document_search_idle_callback`. `matches` is what
      `poppler_page_find_text` returns for the page under the cursor. The
      boolean is the callback's return value: keep the idle source. */
  function SearchStep(s: Search, matches: seq<Rect>): (r: (Search, bool))
    requires Valid(s)
    ensures Valid(r.0)
    ensures r.0.pages == s.pages[s.searchPage := matches]
    ensures r.0.searchPage == (s.searchPage + 1) % |s.pages|
    ensures r.0.text == s.text && r.0.startPage == s.startPage
    ensures r.1 <==> r.0.searchPage != s.startPage
    ensures r.0.running == (s.running && r.1)
  {
    var next := if s.searchPage + 1 == |s.pages| then 0 else s.searchPage + 1;
    var s' := s.(pages := s.pages[s.searchPage := matches], searchPage := next);
    if next != s.startPage then (s', true) else (s'.(running := false), false)
  }

  /** The search after `k` runs of the idle callback; `find` gives the
      matches of each page. */
  function RunSteps(s: Search, find: int -> seq<Rect>, k: nat): (r: Search)
    requires Valid(s)
    ensures Valid(r) && |r.pages| == |s.pages| && r.startPage == s.startPage
  {
    if k == 0 then s
    else
      var prev := RunSteps(s, find, k - 1);
      SearchStep(prev, find(prev.searchPage)).0
  }

  /** The page reached `k` pages after `start`, wrapping at `n`. */
  function PageAfter(start: int, k: int, n: int): int
  {
    if start + k < n then start + k else start + k - n
  }

  /** How many pages after `start` page `p` lies, wrapping at `n`. */
  function Offset(p: int, start: int, n: int): int
  {
    if p >= start then p - start else p - start + n
  }

  /** The search visits each page exactly once: after `k <= n` runs the
      cursor is `k` pages past the start, the pages already passed hold
      their matches, the others are still empty, and the callback asked to
      run again every time except on the `n`-th run. */
  lemma {:induction false} SearchVisitsEachPageOnce(nPages: nat, start: int, text: string,
                                                    find: int -> seq<Rect>, k: nat)
    requires 0 <= start < nPages && k <= nPages
    ensures var s := RunSteps(SearchNew(nPages, start, text), find, k);
      && s.searchPage == PageAfter(start, k, nPages)
      && (forall p :: 0 <= p < nPages ==>
            s.pages[p] == if Offset(p, start, nPages) < k then find(p) else [])
      && (s.running <==> (k < nPages))
  {
    var s0 := SearchNew(nPages, start, text);
    if k > 0 {
      SearchVisitsEachPageOnce(nPages, start, text, find, k - 1);
      var prev := RunSteps(s0, find, k - 1);
      var step := SearchStep(prev, find(prev.searchPage));
      assert Offset(prev.searchPage, start, nPages) == k - 1;
      assert step.1 <==> k < nPages;
    }
  }

  /** The backend's search slot: at most one search at a time. */
  datatype Finder = Finder(search: Option<Search>)

  /** `pdf_document_find_begin`: asking again for the string being searched
      keeps the running search and its results; any other string replaces
      it by a fresh search starting at `page`. */
  function FindBegin(f: Finder, nPages: nat, page: int, text: string): (r: Finder)
    ensures f.search.Some? && f.search.value.text == text ==> r == f
    ensures !(f.search.Some? && f.search.value.text == text) ==>
      r.search == Some(SearchNew(nPages, page, text))
    ensures r.search.Some? && r.search.value.text == text
  {
    if f.search.Some? && f.search.value.text == text then f
    else Finder(Some(SearchNew(nPages, page, text)))
  }

  /** The slot is either empty or holds a search over the document's pages. */
  predicate FinderValid(f: Finder, nPages: nat)
  {
    f.search.Some? ==> Valid(f.search.value) && |f.search.value.pages| == nPages
  }

  /** Beginning a search on a page of the document keeps the slot valid; a
      new string forgets every result of the old search, while repeating
      the current string keeps them all. */
  lemma FindBeginResults(f: Finder, nPages: nat, page: int, text: string)
    requires FinderValid(f, nPages) && 0 <= page < nPages
    ensures var r := FindBegin(f, nPages, page, text);
      && FinderValid(r, nPages)
      && (f.search.Some? && f.search.value.text == text ==>
            forall p :: 0 <= p < nPages ==> NResults(r, p) == NResults(f, p))
      && (!(f.search.Some? && f.search.value.text == text) ==>
            forall p :: 0 <= p < nPages ==> NResults(r, p) == 0)
  {
  }

  /** `pdf_document_find_get_n_results`: the number of matches recorded for
      `page`, or 0 without a search. */
  function NResults(f: Finder, page: int): (n: nat)
    requires f.search.Some? ==> 0 <= page < |f.search.value.pages|
    ensures f.search.None? ==> n == 0
  {
    match f.search
    case None => 0
    case Some(s) => |s.pages[page]|
  }

  /** `pdf_document_find_page_has_results`. */
  function PageHasResults(f: Finder, page: int): (b: bool)
    requires f.search.Some? ==> 0 <= page < |f.search.value.pages|
    ensures b <==> NResults(f, page) > 0
  {
    f.search.Some? && f.search.value.pages[page] != []
  }

  /** `pdf_document_find_get_result`: the `n`-th match of `page`, flipped
      into the viewer's coordinates, or nothing when there is no search or
      no such match. */
  function GetResult(f: Finder, page: int, n: int, height: real): (r: Option<Rect>)
    requires f.search.Some? ==> 0 <= page < |f.search.value.pages|
    ensures r.Some? <==> 0 <= n < NResults(f, page)
    ensures r.Some? ==> FlipY(r.value, height) == f.search.value.pages[page][n]
  {
    match f.search
    case None => None
    case Some(s) =>
      if 0 <= n < |s.pages[page]| then Some(FlipY(s.pages[page][n], height))
      else None
  }

  /** `pdf_document_find_cancel`: the slot is emptied, after which no page
      reports any result. */
  function FindCancel(f: Finder): (r: Finder)
    ensures r.search.None?
    ensures forall page :: NResults(r, page) == 0 && !PageHasResults(r, page)
  {
    Finder(None)
  }

  /** The `pages_done` count of `pdf_document_find_get_progress` as written:
      one more than the pages searched while the cursor is past the start
      page, and the whole document whenever the cursor sits on it. */
  function PagesDoneAsWritten(s: Search): (d: int)
    requires Valid(s)
    ensures 1 <= d <= |s.pages|
    ensures s.searchPage == s.startPage ==> d == |s.pages|
  {
    if s.searchPage > s.startPage then s.searchPage - s.startPage + 1
    else if s.searchPage == s.startPage then |s.pages|
    else |s.pages| - s.startPage + s.searchPage
  }

  /** The count as written, run by run: before any run it already reports
      the whole document; while the cursor has not wrapped it reports one
      page more than the `k` pages searched; after the wrap it reports `k`. */
  lemma {:induction false} ProgressAsWrittenOvercounts(nPages: nat, start: int, text: string,
                                                       find: int -> seq<Rect>, k: nat)
    requires 0 <= start < nPages && k <= nPages
    ensures var d := PagesDoneAsWritten(RunSteps(SearchNew(nPages, start, text), find, k));
      && (k == 0 ==> d == nPages)
      && (0 < k && start + k < nPages ==> d == k + 1)
      && (start + k >= nPages ==> d == k)
  {
    SearchVisitsEachPageOnce(nPages, start, text, find, k);
  }

  /** The number of pages the search has visited: the offset of the cursor
      from the start page, which is the whole document once the callback has
      stopped. */
  function PagesDone(s: Search): (d: int)
    requires Valid(s)
    ensures 0 <= d <= |s.pages|
    ensures d == |s.pages| <==> s.searchPage == s.startPage && !s.running
    ensures d < |s.pages| ==> PageAfter(s.startPage, d, |s.pages|) == s.searchPage
  {
    if s.searchPage == s.startPage && !s.running then |s.pages|
    else Offset(s.searchPage, s.startPage, |s.pages|)
  }

  /** After `k` runs the corrected count is exactly `k`. */
  lemma {:induction false} PagesDoneCountsSteps(nPages: nat, start: int, text: string,
                             find: int -> seq<Rect>, k: nat)
    requires 0 <= start < nPages && k <= nPages
    ensures PagesDone(RunSteps(SearchNew(nPages, start, text), find, k)) == k
  {
    SearchVisitsEachPageOnce(nPages, start, text, find, k);
  }

  /** `pdf_document_find_get_progress` as written: 0 without a search,
      otherwise the as-written count over the page count, which is never
      below one page and is the whole document whenever the cursor sits on
      the start page, before the first run included. */
  function FindProgressAsWritten(f: Finder): (p: real)
    requires f.search.Some? ==> Valid(f.search.value)
    ensures f.search.None? ==> p == 0.0
    ensures f.search.Some? ==>
      && 1.0 / (|f.search.value.pages| as real) <= p <= 1.0
      && p * (|f.search.value.pages| as real) == PagesDoneAsWritten(f.search.value) as real
    ensures f.search.Some? && f.search.value.searchPage == f.search.value.startPage ==> p == 1.0
  {
    match f.search
    case None => 0.0
    case Some(s) =>
      var done, total := PagesDoneAsWritten(s) as real, |s.pages| as real;
      FractionBounds(done, total);
      FractionAtLeastOne(done, total);
      done / total
  }

  /** `pdf_document_find_get_progress` with the corrected count: the
      fraction of the document searched, 0 without a search. */
  function FindProgress(f: Finder): (p: real)
    requires f.search.Some? ==> Valid(f.search.value)
    ensures 0.0 <= p <= 1.0
    ensures f.search.None? ==> p == 0.0
    ensures f.search.Some? ==>
      p * (|f.search.value.pages| as real) == PagesDone(f.search.value) as real
  {
    match f.search
    case None => 0.0
    case Some(s) =>
      var done, total := PagesDone(s) as real, |s.pages| as real;
      FractionBounds(done, total);
      done / total
  }
}
