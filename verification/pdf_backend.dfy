/** The pure translations of the PDF backend (`pdf/ev-poppler.cc`) between
    Poppler's vocabulary and the viewer's: errors, link destinations,
    document information flags, the resumable font scan and the growable
    buffer attachments are saved into. */
module PdfBackend {
  import opened Glib

  // ---------------------------------------------------------------------
  // Errors

  datatype ErrorDomain = PopplerDomain | DocumentDomain | OtherDomain(name: string)

  datatype ErrorCode = Invalid | Encrypted | OtherCode(code: int)

  datatype Error = Error(domain: ErrorDomain, code: ErrorCode, message: string)

  /** `convert_error`: what the caller's error slot receives. A Poppler
      error becomes a document error that is `Encrypted` exactly when the
      Poppler one was, and `Invalid` for every other code; errors from
      other domains pass through untouched. */
  function ConvertError(e: Option<Error>): (r: Option<Error>)
    ensures e.None? <==> r.None?
    ensures e.Some? && e.value.domain == PopplerDomain ==>
      && r.value.domain == DocumentDomain
      && r.value.message == e.value.message
      && (r.value.code == Encrypted <==> e.value.code == Encrypted)
      && (r.value.code == Encrypted || r.value.code == Invalid)
    ensures e.Some? && e.value.domain != PopplerDomain ==> r == e
  {
    match e
    case None => None
    case Some(err) =>
      if err.domain == PopplerDomain then
        var code := if err.code == Encrypted then Encrypted else Invalid;
        Some(Error(DocumentDomain, code, err.message))
      else e
  }

  /** Converting never leaves a Poppler error behind, and converting a
      converted error changes nothing. */
  lemma ConvertErrorIdempotent(e: Option<Error>)
    ensures var r := ConvertError(e); (r.Some? ==> r.value.domain != PopplerDomain) && ConvertError(r) == r
  {
  }

  // ---------------------------------------------------------------------
  // Link destinations

  datatype DestType = Xyz | Fit | FitH | FitV | FitR | FitB | FitBH | FitBV | Named | Unknown

  /** `PopplerDest`: `pageNum` counts pages from 1. */
  datatype PopplerDest = PopplerDest(
    kind: DestType, pageNum: int,
    left: real, bottom: real, right: real, top: real, zoom: real,
    namedDest: string)

  /** `EvLinkDest`: `page` counts pages from 0. */
  datatype LinkDest =
    | DestXyz(page: int, left: real, top: real, zoom: real)
    | DestFit(page: int)
    | DestFitH(page: int, top: real)
    | DestFitV(page: int, left: real)
    | DestFitR(page: int, left: real, bottom: real, right: real, top: real)
    | DestNamed(name: string)
    | DestPage(page: int)

  /** `ev_link_dest_from_dest`. */
  function LinkDestFromDest(d: PopplerDest): (r: LinkDest)
    ensures r.DestNamed? <==> d.kind == Named
    ensures r.DestNamed? ==> r.name == d.namedDest
    ensures !r.DestNamed? ==> r.page == d.pageNum - 1
    ensures d.kind in {FitB, FitBH, FitBV, Unknown} <==> r.DestPage?
    ensures d.kind == Xyz <==> r.DestXyz?
    ensures d.kind == Fit <==> r.DestFit?
    ensures d.kind == FitH <==> r.DestFitH?
    ensures d.kind == FitV <==> r.DestFitV?
    ensures d.kind == FitR <==> r.DestFitR?
    ensures r.DestXyz? ==> r.left == d.left && r.top == d.top && r.zoom == d.zoom
    ensures r.DestFitH? ==> r.top == d.top
    ensures r.DestFitV? ==> r.left == d.left
    ensures r.DestFitR? ==> r.left == d.left && r.bottom == d.bottom && r.right == d.right && r.top == d.top
  {
    match d.kind
    case Xyz => DestXyz(d.pageNum - 1, d.left, d.top, d.zoom)
    case Fit => DestFit(d.pageNum - 1)
    case FitH => DestFitH(d.pageNum - 1, d.top)
    case FitV => DestFitV(d.pageNum - 1, d.left)
    case FitR => DestFitR(d.pageNum - 1, d.left, d.bottom, d.right, d.top)
    case Named => DestNamed(d.namedDest)
    case _ => DestPage(d.pageNum - 1)
  }

  /** The translation keeps the kind of destination apart: two Poppler
      destinations of different implemented kinds never map to the same
      viewer destination. */
  lemma LinkDestKeepsKind(a: PopplerDest, b: PopplerDest)
    requires LinkDestFromDest(a) == LinkDestFromDest(b)
    requires a.kind !in {FitB, FitBH, FitBV, Unknown} && b.kind !in {FitB, FitBH, FitBV, Unknown}
    ensures a.kind == b.kind
    ensures a.kind != Named ==> a.pageNum == b.pageNum
  {
  }

  // ---------------------------------------------------------------------
  // Document information

  datatype LayoutKind = SinglePage | OneColumn | TwoColumnLeft | TwoColumnRight | TwoPageLeft | TwoPageRight

  /** Poppler's `page-layout` property: unset, or one of the layouts. */
  datatype PopplerLayout = LayoutUnset | Layout(kind: LayoutKind)

  /** The layout switch of `pdf_document_get_info` as written. The case for
      a right-hand two-column layout has no `break`, so it falls into the
      next case and ends as a left-hand two-page layout. `None` means the
      switch assigns nothing and the field keeps its zero-initialised value. */
  function LayoutFromPoppler(l: PopplerLayout): (r: Option<LayoutKind>)
    ensures l.LayoutUnset? <==> r.None?
    ensures l.Layout? && l.kind != TwoColumnRight ==> r == Some(l.kind)
    ensures l == Layout(TwoColumnRight) ==> r == Some(TwoPageLeft)
  {
    match l
    case LayoutUnset => None
    case Layout(k) => if k == TwoColumnRight then Some(TwoPageLeft) else Some(k)
  }

  /** The missing `break` merges two layouts and loses one. */
  lemma LayoutFallThrough()
    ensures LayoutFromPoppler(Layout(TwoColumnRight)) == LayoutFromPoppler(Layout(TwoPageLeft))
    ensures forall l :: LayoutFromPoppler(l) != Some(TwoColumnRight)
  {
  }

  /** The layout switch with the `break` restored. */
  function LayoutFromPopplerIntended(l: PopplerLayout): (r: Option<LayoutKind>)
    ensures l.LayoutUnset? <==> r.None?
    ensures l.Layout? ==> r == Some(l.kind)
  {
    match l
    case LayoutUnset => None
    case Layout(k) => Some(k)
  }

  /** With the `break` in place no two layouts collide and every viewer
      layout is reachable. */
  lemma LayoutIntendedBijective(a: PopplerLayout, b: PopplerLayout, k: LayoutKind)
    ensures LayoutFromPopplerIntended(a) == LayoutFromPopplerIntended(b) ==> a == b
    ensures LayoutFromPopplerIntended(Layout(k)) == Some(k)
  {
  }

  datatype ModeKind = NoMode | UseOutlines | UseThumbs | FullScreen | UseOC | UseAttachments

  /** Poppler's `page-mode` property. */
  datatype PopplerMode = ModeUnset | Mode(kind: ModeKind)

  /** The mode switch of `pdf_document_get_info`: outlines mode has no case,
      so it and the unset mode leave the field at its zero value. */
  function ModeFromPoppler(m: PopplerMode): (r: Option<ModeKind>)
    ensures r.None? <==> (m.ModeUnset? || m == Mode(UseOutlines))
    ensures r.Some? ==> m == Mode(r.value)
  {
    match m
    case ModeUnset => None
    case Mode(k) => if k == UseOutlines then None else Some(k)
  }

  datatype ViewerPreference =
    HideToolbar | HideMenubar | HideWindowUI | FitWindow | CenterWindow | DisplayDocTitle | DirectionRtl

  datatype UiHint =
    UiHideToolbar | UiHideMenubar | UiHideWindowUI | UiFitWindow | UiCenterWindow | UiDisplayDocTitle | UiDirectionRtl

  /** The hint bit matching each Poppler viewer-preference bit. */
  function HintFor(p: ViewerPreference): UiHint
  {
    match p
    case HideToolbar => UiHideToolbar
    case HideMenubar => UiHideMenubar
    case HideWindowUI => UiHideWindowUI
    case FitWindow => UiFitWindow
    case CenterWindow => UiCenterWindow
    case DisplayDocTitle => UiDisplayDocTitle
    case DirectionRtl => UiDirectionRtl
  }

  /** Adds `bit` to `flags` when `cond` holds: one `if (... & X) flags |= Y`. */
  function SetIf<T>(flags: set<T>, cond: bool, bit: T): set<T>
  {
    if cond then flags + {bit} else flags
  }

  /** The `ui_hints` field of `pdf_document_get_info`: starts empty and
      gains each hint whose viewer preference is set. */
  function UiHints(prefs: set<ViewerPreference>): (r: set<UiHint>)
    ensures forall p :: HintFor(p) in r <==> p in prefs
    ensures r == set p | p in prefs :: HintFor(p)
  {
    var h := SetIf({}, HideToolbar in prefs, UiHideToolbar);
    var h := SetIf(h, HideMenubar in prefs, UiHideMenubar);
    var h := SetIf(h, HideWindowUI in prefs, UiHideWindowUI);
    var h := SetIf(h, FitWindow in prefs, UiFitWindow);
    var h := SetIf(h, CenterWindow in prefs, UiCenterWindow);
    var h := SetIf(h, DisplayDocTitle in prefs, UiDisplayDocTitle);
    SetIf(h, DirectionRtl in prefs, UiDirectionRtl)
  }

  datatype PopplerPermission = MayPrint | MayModify | MayCopy | MayAddNotes

  datatype Permission = OkToPrint | OkToModify | OkToCopy | OkToAddNotes

  /** The permission bit matching each Poppler permission bit. */
  function PermissionFor(p: PopplerPermission): Permission
  {
    match p
    case MayPrint => OkToPrint
    case MayModify => OkToModify
    case MayCopy => OkToCopy
    case MayAddNotes => OkToAddNotes
  }

  /** The `permissions` field of `pdf_document_get_info`. */
  function Permissions(perms: set<PopplerPermission>): (r: set<Permission>)
    ensures forall p :: PermissionFor(p) in r <==> p in perms
    ensures r == set p | p in perms :: PermissionFor(p)
  {
    var q := SetIf({}, MayPrint in perms, OkToPrint);
    var q := SetIf(q, MayModify in perms, OkToModify);
    var q := SetIf(q, MayCopy in perms, OkToCopy);
    SetIf(q, MayAddNotes in perms, OkToAddNotes)
  }

  /** The Poppler document properties `pdf_document_get_info` translates. */
  datatype PopplerInfo = PopplerInfo(
    layout: PopplerLayout,
    mode: PopplerMode,
    viewerPreferences: set<ViewerPreference>,
    permissions: set<PopplerPermission>)

  datatype DocumentInfo = DocumentInfo(
    layout: Option<LayoutKind>,
    mode: Option<ModeKind>,
    uiHints: set<UiHint>,
    permissions: set<Permission>,
    nPages: int)

  /** The translated part of `pdf_document_get_info`; the layout keeps the
      fall-through of the source. */
  function GetInfo(p: PopplerInfo, nPages: int): (r: DocumentInfo)
    ensures r.layout == LayoutFromPoppler(p.layout) && r.mode == ModeFromPoppler(p.mode)
    ensures forall v :: HintFor(v) in r.uiHints <==> v in p.viewerPreferences
    ensures forall q :: PermissionFor(q) in r.permissions <==> q in p.permissions
    ensures r.nPages == nPages
  {
    DocumentInfo(LayoutFromPoppler(p.layout), ModeFromPoppler(p.mode),
                 UiHints(p.viewerPreferences), Permissions(p.permissions), nPages)
  }

  // ---------------------------------------------------------------------
  // Font scan

  /** `fonts_scanned_pages` and whether a `PopplerFontInfo` is held. */
  datatype FontScan = FontScan(scannedPages: int, hasFontInfo: bool)

  const FontScanStart := FontScan(0, false)

  /** `pdf_document_fonts_scan` for a chunk of `nPages` pages; `more` is
      what `poppler_font_info_scan` answers and is returned unchanged. The
      counter grows by the chunk, or drops to 0 together with the font info
      once Poppler reports that nothing is left. */
  function FontsScan(s: FontScan, nPages: int, more: bool): (r: (FontScan, bool))
    ensures r.1 == more
    ensures more ==> r.0.scannedPages == s.scannedPages + nPages && r.0.hasFontInfo
    ensures !more ==> r.0 == FontScanStart
  {
    var counted := s.(scannedPages := s.scannedPages + nPages, hasFontInfo := true);
    if more then (counted, true) else (FontScanStart, false)
  }

  /** `pdf_document_fonts_get_progress`. */
  function FontsProgress(s: FontScan, docPages: int): (p: real)
    requires docPages != 0
    ensures p * docPages as real == s.scannedPages as real
  {
    s.scannedPages as real / docPages as real
  }

  /** Scans chunk after chunk, `answers[i]` being Poppler's answer to the
      `i`-th scan. */
  function ScanAll(s: FontScan, chunk: int, answers: seq<bool>): FontScan
    decreases |answers|
  {
    if answers == [] then s else ScanAll(FontsScan(s, chunk, answers[0]).0, chunk, answers[1..])
  }

  /** As long as Poppler reports more fonts, the counter is the number of
      scans times the chunk; a scan that reports the end starts it over. */
  lemma {:induction false} ScanAllCounts(s: FontScan, chunk: int, answers: seq<bool>)
    ensures (forall i :: 0 <= i < |answers| ==> answers[i]) ==>
      ScanAll(s, chunk, answers).scannedPages == s.scannedPages + |answers| * chunk
    ensures answers != [] && !answers[|answers| - 1] ==> ScanAll(s, chunk, answers) == FontScanStart
    decreases |answers|
  {
    if answers != [] {
      ScanAllCounts(FontsScan(s, chunk, answers[0]).0, chunk, answers[1..]);
    }
  }

  /** The counter as written counts the pages asked for, not the pages
      scanned, and is cleared when the scan ends. Scanning from the start,
      once the chunks asked for exceed the document the progress reads more
      than 1, and after the end it reads 0 instead of 1. */
  lemma {:induction false} FontsProgressAsWrittenOverruns(docPages: int, chunk: int, answers: seq<bool>)
    requires docPages > 0
    ensures (forall i :: 0 <= i < |answers| ==> answers[i]) ==>
      FontsProgress(ScanAll(FontScanStart, chunk, answers), docPages) * docPages as real
        == (|answers| * chunk) as real
    ensures (forall i :: 0 <= i < |answers| ==> answers[i]) && |answers| * chunk > docPages ==>
      FontsProgress(ScanAll(FontScanStart, chunk, answers), docPages) > 1.0
    ensures answers != [] && !answers[|answers| - 1] ==>
      FontsProgress(ScanAll(FontScanStart, chunk, answers), docPages) == 0.0
  {
    ScanAllCounts(FontScanStart, chunk, answers);
    var r := ScanAll(FontScanStart, chunk, answers);
    var p := FontsProgress(r, docPages);
    assert p * docPages as real == r.scannedPages as real;
    if forall i :: 0 <= i < |answers| ==> answers[i] {
      var asked := |answers| * chunk;
      assert r.scannedPages == asked;
      if asked > docPages {
        FractionAboveOne(p, docPages as real, asked as real);
      }
    }
    if answers != [] && !answers[|answers| - 1] {
      assert r.scannedPages == 0;
    }
  }

  /** A fraction whose part exceeds the positive whole exceeds 1. */
  lemma FractionAboveOne(q: real, whole: real, part: real)
    requires whole > 0.0 && q * whole == part && part > whole
    ensures q > 1.0
  {
    assert (q - 1.0) * whole == part - whole;
  }

  /** The scan with the counter the progress figure evidently wants: the
      pages scanned so far, never more than the document holds, and the
      whole document once Poppler reports that nothing is left. */
  function FontsScanIntended(s: FontScan, nPages: int, docPages: int, more: bool): (r: (FontScan, bool))
    ensures r.1 == more
    ensures more ==> r.0.hasFontInfo && r.0.scannedPages == Min(s.scannedPages + nPages, docPages)
    ensures !more ==> !r.0.hasFontInfo && r.0.scannedPages == docPages
  {
    if more then (FontScan(Min(s.scannedPages + nPages, docPages), true), true)
    else (FontScan(docPages, false), false)
  }

  /** `ScanAll` with the corrected counter. */
  function ScanAllIntended(s: FontScan, chunk: int, docPages: int, answers: seq<bool>): FontScan
    decreases |answers|
  {
    if answers == [] then s
    else ScanAllIntended(FontsScanIntended(s, chunk, docPages, answers[0]).0, chunk, docPages, answers[1..])
  }

  /** The corrected counter stays within the document, grows by the chunk
      while Poppler reports more, and is the whole document once it reports
      the end. */
  lemma {:induction false} ScanAllIntendedCounts(s: FontScan, chunk: int, docPages: int, answers: seq<bool>)
    requires chunk >= 0 && 0 <= s.scannedPages <= docPages
    ensures var r := ScanAllIntended(s, chunk, docPages, answers);
      && 0 <= r.scannedPages <= docPages
      && ((forall i :: 0 <= i < |answers| ==> answers[i]) ==>
            r.scannedPages == Min(s.scannedPages + |answers| * chunk, docPages))
      && (answers != [] && !answers[|answers| - 1] ==> r.scannedPages == docPages)
    decreases |answers|
  {
    if answers != [] {
      var s1 := FontsScanIntended(s, chunk, docPages, answers[0]).0;
      ScanAllIntendedCounts(s1, chunk, docPages, answers[1..]);
      if forall i :: 0 <= i < |answers| ==> answers[i] {
        assert forall i :: 0 <= i < |answers[1..]| ==> answers[1..][i] by {
          forall i | 0 <= i < |answers[1..]| ensures answers[1..][i] { assert answers[1..][i] == answers[i + 1]; }
        }
        assert (|answers| - 1) * chunk + chunk == |answers| * chunk;
      }
      if |answers| > 1 {
        assert answers[1..][|answers[1..]| - 1] == answers[|answers| - 1];
      }
    }
  }

  /** With the corrected counter the progress never leaves [0, 1] and
      reads 1 once Poppler reports the end: on 45 pages in chunks of 20 it
      reads 20/45, 40/45, then 1. */
  lemma ScanAllIntendedInRange(s: FontScan, chunk: int, docPages: int, answers: seq<bool>)
    requires docPages > 0 && chunk >= 0 && 0 <= s.scannedPages <= docPages
    ensures var p := FontsProgress(ScanAllIntended(s, chunk, docPages, answers), docPages);
      && 0.0 <= p <= 1.0
      && (answers != [] && !answers[|answers| - 1] ==> p == 1.0)
  {
    ScanAllIntendedCounts(s, chunk, docPages, answers);
    var r := ScanAllIntended(s, chunk, docPages, answers);
    FractionBounds(r.scannedPages as real, docPages as real);
    if answers != [] && !answers[|answers| - 1] {
      WholeFraction(docPages as real);
    }
  }

  // ---------------------------------------------------------------------
  // Attachment buffer

  /** `SaveToBufferData`: the bytes written so far and the capacity. */
  datatype SaveBuffer = SaveBuffer(data: seq<Byte>, max: nat)

  const InitialMax: nat := 1024

  const EmptyBuffer := SaveBuffer([], InitialMax)

  predicate BufferValid(b: SaveBuffer) { |b.data| <= b.max }

  /** `attachment_save_to_buffer_callback`: the chunk is appended; the
      capacity is left alone when it fits and otherwise grows to the larger
      of twice the old capacity and the new length. */
  function Append(b: SaveBuffer, chunk: seq<Byte>): (r: SaveBuffer)
    requires BufferValid(b)
    ensures BufferValid(r)
    ensures r.data == b.data + chunk
    ensures |b.data| + |chunk| <= b.max ==> r.max == b.max
    ensures |b.data| + |chunk| > b.max ==> r.max == Max(2 * b.max, |b.data| + |chunk|)
    ensures r.max >= b.max
  {
    var max := if |b.data| + |chunk| > b.max then Max(b.max * 2, |b.data| + |chunk|) else b.max;
    SaveBuffer(b.data + chunk, max)
  }

  function Flatten(chunks: seq<seq<Byte>>): seq<Byte>
  {
    if chunks == [] then [] else chunks[0] + Flatten(chunks[1..])
  }

  /** Feeds every chunk to the callback in order. */
  function AppendAll(b: SaveBuffer, chunks: seq<seq<Byte>>): (r: SaveBuffer)
    requires BufferValid(b)
    ensures BufferValid(r)
    ensures r.data == b.data + Flatten(chunks)
    ensures r.max >= b.max
    decreases |chunks|
  {
    if chunks == [] then b
    else
      var b' := Append(b, chunks[0]);
      assert b.data + Flatten(chunks) == b'.data + Flatten(chunks[1..]);
      AppendAll(b', chunks[1..])
  }

  /** `attachment_save_to_buffer`: Poppler hands the attachment over in
      `chunks`; `ok` is whether it reports success. On success the buffer
      holds the attachment exactly, and its size is the number of bytes;
      on failure nothing is returned. */
  function SaveToBuffer(chunks: seq<seq<Byte>>, ok: bool): (r: Option<(seq<Byte>, nat)>)
    ensures r.None? <==> !ok
    ensures r.Some? ==> r.value.0 == Flatten(chunks) && r.value.1 == |Flatten(chunks)|
  {
    if !ok then None
    else
      var b := AppendAll(EmptyBuffer, chunks);
      Some((b.data, |b.data|))
  }
}
