/** The decisions of the PostScript backend (`ps/ps-document.c`) that do
    not depend on the Ghostscript process: recognising compressed files,
    choosing the bounding box and orientation of a page, classifying a
    scanned document, loading it, paging, and queueing sections of the file
    for the interpreter. File-system and interpreter answers are oracles;
    the DPI and zoom arithmetic is the pair of functions `scaleX`/`scaleY`. */
module PsDocument {
  import opened Glib

  // ---------------------------------------------------------------------
  // Compression

  datatype Compression = Uncompressed | Gzip | Bzip2

  /** Whether three header bytes start a gzip or `compress` file. */
  predicate GzipMagic(h: seq<Byte>)
    requires |h| >= 3
  {
    h[0] == 0x1F && (h[1] == 0x9D || h[1] == 0x8B)
  }

  /** Whether three header bytes spell `BZh`. */
  predicate Bzip2Magic(h: seq<Byte>)
    requires |h| >= 3
  {
    h[0] == 0x42 && h[1] == 0x5A && h[2] == 0x68
  }

  /** The test at the head of `check_filecompressed`. `header` is the start
      of the file, `None` when it cannot be opened; fewer than three bytes
      is a short read and means an uncompressed file. */
  function Classify(header: Option<seq<Byte>>): (c: Compression)
    ensures c == Gzip <==> header.Some? && |header.value| >= 3 && GzipMagic(header.value)
    ensures c == Bzip2 <==>
      header.Some? && |header.value| >= 3 && !GzipMagic(header.value) && Bzip2Magic(header.value)
  {
    match header
    case None => Uncompressed
    case Some(h) =>
      if |h| < 3 then Uncompressed
      else if GzipMagic(h) then Gzip
      else if Bzip2Magic(h) then Bzip2
      else Uncompressed
  }

  /** The magic bytes each compressor writes. */
  function Magic(c: Compression): seq<Byte>
  {
    match c
    case Uncompressed => []
    case Gzip => [0x1F, 0x8B]
    case Bzip2 => [0x42, 0x5A, 0x68]
  }

  /** A file that starts with a compressor's magic bytes, and is long
      enough for the three-byte read, is recognised as compressed by it. */
  lemma ClassifyMagic(c: Compression, rest: seq<Byte>)
    requires c != Uncompressed && |Magic(c)| + |rest| >= 3
    ensures Classify(Some(Magic(c) + rest)) == c
  {
  }

  /** `check_filecompressed`: the file to read, and the decompressed copy
      it is (`gs_filename_unc`). An uncompressed file is read as it is;
      a compressed one through `decompressed`, the copy the decompression
      produced or `None` when it failed. */
  function CheckFileCompressed(filename: string, header: Option<seq<Byte>>, decompressed: Option<string>)
    : (r: (Option<string>, Option<string>))
    ensures Classify(header) == Uncompressed ==> r == (Some(filename), None)
    ensures Classify(header) != Uncompressed ==> r.0 == r.1
  {
    if Classify(header) == Uncompressed then (Some(filename), None)
    else (decompressed, decompressed)
  }

  // ---------------------------------------------------------------------
  // Scanned documents

  datatype Orientation = OrientationNone | Portrait | UpsideDown | Landscape | Seascape

  datatype BBox = BBox(llx: int, lly: int, urx: int, ury: int)

  /** A box that encloses some area. */
  predicate Proper(b: BBox) { b.urx > b.llx && b.ury > b.lly }

  datatype PaperSize = PaperSize(width: int, height: int)

  /** One page of a scanned document: its `%%PageMedia` size if any, its
      bounding box and orientation. */
  datatype Page = Page(size: Option<PaperSize>, bbox: BBox, orientation: Orientation)

  /** The `struct document` produced by scanning a PostScript file. */
  datatype ScannedDoc = ScannedDoc(epsf: bool, numpages: int, pages: Option<seq<Page>>, bbox: BBox)

  /** What the scanner guarantees: a page table, when present, has one
      entry per page. */
  predicate DocValid(d: ScannedDoc)
  {
    d.pages.Some? ==> |d.pages.value| == d.numpages
  }

  /** The classification at the end of `document_load`: a document with
      page structure the viewer can page through. */
  function IsStructured(d: ScannedDoc): (b: bool)
    ensures b ==> d.numpages >= 1
    ensures !d.epsf ==> (b <==> d.numpages > 0)
    ensures d.epsf ==> (b <==> d.numpages > 1)
  {
    (!d.epsf && d.numpages > 0) || (d.epsf && d.numpages > 1)
  }

  // ---------------------------------------------------------------------
  // Document state

  /** The displayed area of the page: `llx`, `lly`, `urx`, `ury`, the size
      in pixels and the orientation. */
  datatype Geometry = Geometry(llx: int, lly: int, urx: int, ury: int,
                               width: int, height: int, orientation: Orientation)

  datatype Status = Blank | NotReadable | NotPostScript | DocumentLoaded | Earlier(message: string)

  /** The part of `PSDocument` the loading and paging code reads and writes. */
  datatype PsState = PsState(
    filename: Option<string>,        // gs_filename
    uncompressed: Option<string>,    // gs_filename_unc
    doc: Option<ScannedDoc>,
    structured: bool,
    sendFilenameToGs: bool,
    readingFromPipe: bool,
    currentPage: int,
    loaded: bool,
    geometry: Geometry,
    changed: bool,
    status: Status)

  predicate StateValid(s: PsState)
  {
    s.doc.Some? ==> DocValid(s.doc.value)
  }

  /** `compute_dimensions` goes past its early returns. */
  predicate ComputesDimensions(s: PsState, page: int)
  {
    s.doc.Some? && page >= 0 && s.doc.value.numpages > page
  }

  /** What `compute_dimensions` needs of its caller: a structured
      document has a page table, and its current page indexes it. */
  predicate DimensionsDefined(s: PsState, page: int)
  {
    StateValid(s) && (ComputesDimensions(s, page) && s.structured ==>
      s.doc.value.pages.Some? && 0 <= s.currentPage < s.doc.value.numpages)
  }

  /** The bounding box cascade of `compute_dimensions`: the page's paper
      size, else the page's own box if proper, else the document's box if
      proper, else A4, entry 12 of the paper size table. */
  function BoxFor(d: ScannedDoc, page: int, paperSizes: seq<PaperSize>): (b: BBox)
    requires DocValid(d) && 0 <= page < d.numpages && |paperSizes| > 12
    ensures d.pages.Some? && d.pages.value[page].size.Some? ==>
      var size := d.pages.value[page].size.value; b == BBox(0, 0, size.width, size.height)
    ensures d.pages.Some? && d.pages.value[page].size.None? && Proper(d.pages.value[page].bbox) ==>
      b == d.pages.value[page].bbox
    ensures (d.pages.None? || (d.pages.value[page].size.None? && !Proper(d.pages.value[page].bbox))) ==>
      && (Proper(d.bbox) ==> b == d.bbox)
      && (!Proper(d.bbox) ==> b == BBox(0, 0, paperSizes[12].width, paperSizes[12].height))
  {
    if d.pages.Some? && d.pages.value[page].size.Some? then
      var size := d.pages.value[page].size.value;
      BBox(0, 0, size.width, size.height)
    else if d.pages.Some? && Proper(d.pages.value[page].bbox) then d.pages.value[page].bbox
    else if Proper(d.bbox) then d.bbox
    else BBox(0, 0, paperSizes[12].width, paperSizes[12].height)
  }

  /** With positive paper sizes the cascade always ends at a proper box. */
  lemma BoxForProper(d: ScannedDoc, page: int, paperSizes: seq<PaperSize>)
    requires DocValid(d) && 0 <= page < d.numpages && |paperSizes| > 12
    requires paperSizes[12].width > 0 && paperSizes[12].height > 0
    requires d.pages.Some? && d.pages.value[page].size.Some? ==>
      d.pages.value[page].size.value.width > 0 && d.pages.value[page].size.value.height > 0
    ensures Proper(BoxFor(d, page, paperSizes))
  {
  }

  /** The orientation `compute_dimensions` uses: that of the current page
      of a structured document, portrait when none is given. */
  function OrientationFor(s: PsState): (o: Orientation)
    requires s.doc.Some? && DocValid(s.doc.value)
    requires s.structured ==> s.doc.value.pages.Some? && 0 <= s.currentPage < s.doc.value.numpages
    ensures o != OrientationNone
    ensures s.structured && s.doc.value.pages.value[s.currentPage].orientation != OrientationNone ==>
      o == s.doc.value.pages.value[s.currentPage].orientation
    ensures !s.structured ==> o == Portrait
  {
    var o := if s.structured then s.doc.value.pages.value[s.currentPage].orientation else OrientationNone;
    if o == OrientationNone then Portrait else o
  }

  /** The geometry `compute_dimensions` computes for `page`. A landscape or
      seascape page takes its pixel width from the box's height and its
      pixel height from the box's width. */
  function NewGeometry(s: PsState, page: int, paperSizes: seq<PaperSize>,
                       scaleX: int -> int, scaleY: int -> int): (g: Geometry)
    requires DimensionsDefined(s, page) && ComputesDimensions(s, page) && |paperSizes| > 12
    ensures var b := BoxFor(s.doc.value, page, paperSizes);
      && g.llx == b.llx && g.lly == b.lly && g.urx == b.urx && g.ury == b.ury
      && g.orientation == OrientationFor(s)
      && ((g.orientation == Portrait || g.orientation == UpsideDown) ==>
            g.width == scaleX(b.urx - b.llx) && g.height == scaleY(b.ury - b.lly))
      && ((g.orientation == Landscape || g.orientation == Seascape) ==>
            g.width == scaleX(b.ury - b.lly) && g.height == scaleY(b.urx - b.llx))
  {
    var b := BoxFor(s.doc.value, page, paperSizes);
    var o := OrientationFor(s);
    var swapped := o == Landscape || o == Seascape;
    var w := if swapped then scaleX(b.ury - b.lly) else scaleX(b.urx - b.llx);
    var h := if swapped then scaleY(b.urx - b.llx) else scaleY(b.ury - b.lly);
    Geometry(b.llx, b.lly, b.urx, b.ury, w, h, o)
  }

  /** `compute_dimensions`: past its guards, the geometry of `page` is
      stored and `changed` raised exactly when some field differs from the
      stored one; nothing else is touched. */
  function ComputeDimensions(s: PsState, page: int, paperSizes: seq<PaperSize>,
                             scaleX: int -> int, scaleY: int -> int): (r: PsState)
    requires DimensionsDefined(s, page) && |paperSizes| > 12
    ensures !ComputesDimensions(s, page) ==> r == s
    ensures ComputesDimensions(s, page) ==>
      && r.geometry == NewGeometry(s, page, paperSizes, scaleX, scaleY)
      && (r.changed <==> s.changed || s.geometry != r.geometry)
    ensures r == s.(geometry := r.geometry, changed := r.changed)
  {
    if !ComputesDimensions(s, page) then s
    else
      var g := NewGeometry(s, page, paperSizes, scaleX, scaleY);
      if g != s.geometry then s.(geometry := g, changed := true) else s
  }

  /** Computing the same page twice raises `changed` at most once: the
      second computation finds nothing to change. */
  lemma ComputeDimensionsStable(s: PsState, page: int, paperSizes: seq<PaperSize>,
                                scaleX: int -> int, scaleY: int -> int)
    requires DimensionsDefined(s, page) && |paperSizes| > 12
    ensures var r := ComputeDimensions(s, page, paperSizes, scaleX, scaleY);
      ComputeDimensions(r, page, paperSizes, scaleX, scaleY) == r
  {
  }

  // ---------------------------------------------------------------------
  // Loading

  /** The file-system answers `document_load` relies on. */
  datatype FileSystem = FileSystem(
    readable: string -> bool,               // file_readable
    header: string -> Option<seq<Byte>>,    // first bytes, None when it cannot be opened
    decompress: string -> Option<string>,   // the decompressed copy, None on failure
    opens: string -> bool,                  // fopen succeeds
    scan: string -> Option<ScannedDoc>)     // psscan

  /** The scanner's side of the bargain: the documents it returns are
      well formed, and a structured one has a page table. */
  ghost predicate FileSystemValid(fs: FileSystem)
  {
    forall f :: fs.scan(f).Some? ==>
      DocValid(fs.scan(f).value) && (IsStructured(fs.scan(f).value) ==> fs.scan(f).value.pages.Some?)
  }

  /** The name `document_load` stores: an absolute path as it is, anything
      else appended to the working directory. */
  function AbsolutePath(fname: string, cwd: string): (p: string)
    ensures |fname| > 0 && fname[0] == '/' ==> p == fname
    ensures !(|fname| > 0 && fname[0] == '/') ==> p == cwd + "/" + fname
    ensures |cwd| > 0 && cwd[0] == '/' ==> |p| > 0 && p[0] == '/'
    ensures fname <= p[|p| - |fname|..] && |fname| <= |p|
  {
    if |fname| > 0 && fname[0] == '/' then fname else cwd + "/" + fname
  }

  /** Making an absolute name absolute again changes nothing. */
  lemma AbsolutePathIdempotent(fname: string, cwd: string, cwd': string)
    requires |cwd| > 0 && cwd[0] == '/'
    ensures AbsolutePath(AbsolutePath(fname, cwd), cwd') == AbsolutePath(fname, cwd)
  {
  }

  /** `ps_document_cleanup`, apart from stopping the interpreter. */
  function Cleanup(s: PsState): (r: PsState)
    ensures r.filename.None? && r.uncompressed.None? && r.doc.None?
    ensures r.currentPage == 0 && !r.loaded
    ensures r.structured == s.structured && r.sendFilenameToGs == s.sendFilenameToGs
    ensures r.status == s.status && r.geometry == s.geometry
  {
    s.(filename := None, uncompressed := None, doc := None, currentPage := 0, loaded := false)
  }

  /** `document_load`. `None` for `fname` is a NULL name; `"-"` reads the
      document from a pipe. The boolean is the function's result. */
  function DocumentLoad(s: PsState, fname: Option<string>, cwd: string, fs: FileSystem,
                        paperSizes: seq<PaperSize>, scaleX: int -> int, scaleY: int -> int)
    : (r: (PsState, bool))
    requires FileSystemValid(fs) && |paperSizes| > 12
    ensures StateValid(r.0)
    ensures fname.None? ==> !r.1 && r.0.status == Blank
    ensures fname.Some? ==> (r.0.readingFromPipe <==> fname.value == "-")
    ensures r.1 ==> r.0.loaded && r.0.currentPage == 0 && r.0.status == DocumentLoaded
    ensures r.1 ==> r.0.filename == Some(AbsolutePath(fname.value, cwd))
    ensures !r.1 ==> r.0.filename.None? && r.0.doc.None? && !r.0.loaded
    ensures fname == Some("-") ==> r.1 && r.0.doc.None? && !r.0.structured && !r.0.sendFilenameToGs
    ensures r.1 && fname != Some("-") ==>
      && r.0.doc.Some?
      && (r.0.structured <==> IsStructured(r.0.doc.value))
      && (r.0.sendFilenameToGs <==> !r.0.structured)
    ensures fname.Some? && fname.value != "-" && !fs.readable(fname.value) ==>
      !r.1 && r.0.status == NotReadable
  {
    var s0 := Cleanup(s);
    if fname.None? then (s0.(status := Blank), false)
    else
      var name := fname.value;
      var s1 := s0.(structured := false, sendFilenameToGs := true, currentPage := 0, loaded := false,
                    filename := Some(AbsolutePath(name, cwd)), readingFromPipe := name == "-");
      if name == "-" then
        var s2 := s1.(sendFilenameToGs := false, loaded := true);
        (ComputeDimensions(s2, s2.currentPage, paperSizes, scaleX, scaleY).(status := DocumentLoaded), true)
      else
        var full := AbsolutePath(name, cwd);
        var (file, unc, status) :=
          if !fs.readable(name) then (None, None, NotReadable)
          else
            var (f, u) := CheckFileCompressed(full, fs.header(full), fs.decompress(full));
            (f, u, s1.status);
        var s2 := s1.(uncompressed := unc, status := status);
        if file.None? || !fs.opens(file.value) then (Cleanup(s2), false)
        else
          match fs.scan(file.value)
          case None => (Cleanup(s2).(status := NotPostScript), false)
          case Some(d) =>
            var st := IsStructured(d);
            var s3 := s2.(doc := Some(d), structured := st, sendFilenameToGs := !st, loaded := true);
            (ComputeDimensions(s3, s3.currentPage, paperSizes, scaleX, scaleY).(status := DocumentLoaded), true)
  }

  /** `ps_document_get_n_pages`. */
  function GetNPages(s: PsState): int
  {
    if s.filename.None? || s.doc.None? then -1
    else if s.structured then s.doc.value.numpages
    else 1
  }

  /** After a successful load from a file the document has at least one
      page; a document read from a pipe reports none (-1); a failed load
      reports none either. */
  lemma PagesAfterLoad(s: PsState, fname: Option<string>, cwd: string, fs: FileSystem,
                                          paperSizes: seq<PaperSize>, scaleX: int -> int, scaleY: int -> int)
    requires FileSystemValid(fs) && |paperSizes| > 12
    ensures var (r, ok) := DocumentLoad(s, fname, cwd, fs, paperSizes, scaleX, scaleY);
      && (ok && fname != Some("-") ==> GetNPages(r) >= 1)
      && (ok && fname == Some("-") ==> GetNPages(r) == -1)
      && (!ok ==> GetNPages(r) == -1)
  {
  }

  // ---------------------------------------------------------------------
  // Paging

  /** `ps_document_get_page`: the 1-based number of the current page. */
  function GetPage(s: PsState): int
  {
    s.currentPage + 1
  }

  /** `ps_document_set_page` as written: the 0-based current page is set
      from the 1-based `page`, but the dimensions are computed for the
      0-based index `page`, one page further on. */
  function SetPage(s: PsState, page: int, paperSizes: seq<PaperSize>,
                   scaleX: int -> int, scaleY: int -> int): (r: PsState)
    requires DimensionsDefined(s.(currentPage := page - 1), page) && |paperSizes| > 12
    ensures r.currentPage == page - 1
    ensures ComputesDimensions(s, page) ==>
      r.geometry == NewGeometry(s.(currentPage := page - 1), page, paperSizes, scaleX, scaleY)
    ensures !ComputesDimensions(s, page) ==> r.geometry == s.geometry && r.changed == s.changed
  {
    ComputeDimensions(s.(currentPage := page - 1), page, paperSizes, scaleX, scaleY)
  }

  /** `get_page` after `set_page(p)` gives `p` back. */
  lemma GetPageAfterSetPage(s: PsState, page: int, paperSizes: seq<PaperSize>,
                            scaleX: int -> int, scaleY: int -> int)
    requires DimensionsDefined(s.(currentPage := page - 1), page) && |paperSizes| > 12
    ensures GetPage(SetPage(s, page, paperSizes, scaleX, scaleY)) == page
  {
  }

  /** Going to the last page never recomputes the dimensions: the guard
      `numpages > page` fails, and the geometry of the previously shown
      page stays in place. */
  lemma SetPageLastPageStale(s: PsState, paperSizes: seq<PaperSize>,
                             scaleX: int -> int, scaleY: int -> int)
    requires s.doc.Some? && StateValid(s) && s.doc.value.numpages >= 1 && |paperSizes| > 12
    ensures var r := SetPage(s, s.doc.value.numpages, paperSizes, scaleX, scaleY);
      r.geometry == s.geometry && r.changed == s.changed
  {
  }

  /** `ps_document_set_page` with the 0-based index passed on. */
  function SetPageIntended(s: PsState, page: int, paperSizes: seq<PaperSize>,
                           scaleX: int -> int, scaleY: int -> int): (r: PsState)
    requires DimensionsDefined(s.(currentPage := page - 1), page - 1) && |paperSizes| > 12
    ensures r.currentPage == page - 1
  {
    ComputeDimensions(s.(currentPage := page - 1), page - 1, paperSizes, scaleX, scaleY)
  }

  /** With the index corrected, every page of the document, the last one
      included, gets its own bounding box and the orientation of the page
      now current. */
  lemma SetPageIntendedShowsPage(s: PsState, page: int, paperSizes: seq<PaperSize>,
                                 scaleX: int -> int, scaleY: int -> int)
    requires s.doc.Some? && StateValid(s) && 1 <= page <= s.doc.value.numpages && |paperSizes| > 12
    requires s.structured ==> s.doc.value.pages.Some?
    ensures var r := SetPageIntended(s, page, paperSizes, scaleX, scaleY);
      var b := BoxFor(s.doc.value, page - 1, paperSizes);
      && r.geometry.llx == b.llx && r.geometry.lly == b.lly
      && r.geometry.urx == b.urx && r.geometry.ury == b.ury
      && r.geometry.orientation == OrientationFor(s.(currentPage := page - 1))
      && GetPage(r) == page
  {
  }

  // ---------------------------------------------------------------------
  // Interpreter input queue

  /** A `record_list` entry: a stretch of the file to send. */
  datatype Section = Section(begin: int, len: nat, seekNeeded: bool, close: bool)

  /** The interpreter bookkeeping `send_ps` and `is_interpreter_ready` use. */
  datatype Interpreter = Interpreter(
    pid: int,
    busy: bool,
    inputOpen: bool,        // interpreter_input >= 0
    queue: seq<Section>,    // ps_input, head first
    bytesLeft: int,
    bufferBytesLeft: int,
    hasBuffer: bool,
    writeWatched: bool)     // an input handler is installed

  /** `send_ps`: without a pipe to the interpreter nothing happens.
      Otherwise the section goes to the tail of the queue; if the queue was
      empty it becomes the section being written. */
  function SendPs(g: Interpreter, begin: int, len: nat, close: bool): (r: Interpreter)
    ensures !g.inputOpen ==> r == g
    ensures g.inputOpen ==> r.queue == g.queue + [Section(begin, len, true, close)] && r.hasBuffer
    ensures g.inputOpen && g.queue == [] ==>
      r.bytesLeft == len && r.bufferBytesLeft == 0 && r.writeWatched
    ensures g.inputOpen && g.queue != [] ==>
      r == g.(queue := r.queue, hasBuffer := true)
    ensures r.pid == g.pid && r.busy == g.busy && r.inputOpen == g.inputOpen
  {
    if !g.inputOpen then g
    else
      var g1 := g.(hasBuffer := true, queue := g.queue + [Section(begin, len, true, close)]);
      if g.queue == [] then g1.(bytesLeft := len, bufferBytesLeft := 0, writeWatched := true)
      else g1
  }

  /** The sections a list of `send_ps` calls queues, in call order. */
  function Sections(requests: seq<(int, nat, bool)>): (q: seq<Section>)
    ensures |q| == |requests|
    ensures forall i :: 0 <= i < |q| ==>
      q[i] == Section(requests[i].0, requests[i].1, true, requests[i].2)
  {
    seq(|requests|, i requires 0 <= i < |requests| => Section(requests[i].0, requests[i].1, true, requests[i].2))
  }

  /** Several `send_ps` calls in a row. */
  function SendAll(g: Interpreter, requests: seq<(int, nat, bool)>): Interpreter
    decreases |requests|
  {
    if requests == [] then g
    else SendAll(SendPs(g, requests[0].0, requests[0].1, requests[0].2), requests[1..])
  }

  /** The queue is first in, first out: the sections come out in the order
      they were sent, behind those already waiting, and the section being
      written when more arrive is left alone. */
  lemma {:induction false} SendAllFifo(g: Interpreter, requests: seq<(int, nat, bool)>)
    requires g.inputOpen
    ensures SendAll(g, requests).queue == g.queue + Sections(requests)
    ensures g.queue != [] ==>
      SendAll(g, requests).bytesLeft == g.bytesLeft
      && SendAll(g, requests).bufferBytesLeft == g.bufferBytesLeft
    decreases |requests|
  {
    if requests != [] {
      var g1 := SendPs(g, requests[0].0, requests[0].1, requests[0].2);
      SendAllFifo(g1, requests[1..]);
      assert Sections(requests) == [Section(requests[0].0, requests[0].1, true, requests[0].2)] + Sections(requests[1..]);
    }
  }

  /** `is_interpreter_ready`: a running interpreter that is not busy and
      has nothing left to read. */
  predicate IsInterpreterReady(g: Interpreter)
  {
    g.pid != -1 && !g.busy && g.queue == []
  }

  /** Once something has been sent, the interpreter is not ready until the
      queue drains. */
  lemma SendPsNotReady(g: Interpreter, begin: int, len: nat, close: bool)
    requires g.inputOpen
    ensures !IsInterpreterReady(SendPs(g, begin, len, close))
  {
  }
}
