/** The viewer's jobs (links, render, thumbnail, fonts, transfer) as pure
    transitions of a job record over an abstract document backend.

    A backend call is a function-typed field of `Backend`: nothing is known
    about what it returns beyond being a function of its arguments. Every run
    also returns the trace of document-mutex operations and backend calls it
    made, so that lock balance is a property of ordinary (non-ghost) data. */
module Jobs {
  import opened Glib

  type Uri = string

  /** Products of backend calls, left uninterpreted. */
  type Pixbuf(==)
  type LinksModel(==)
  type Mapping(==)
  type Region(==)
  type Error(==)
  type LinkDest(==)

  /** The optional interfaces a document implementation may provide. */
  datatype Capabilities = Capabilities(asyncRenderer: bool, links: bool, selection: bool)

  datatype Document = Document(id: nat, caps: Capabilities)

  datatype RenderContext = RenderContext(page: int, scale: real, rotation: int)

  datatype Rectangle = Rectangle(x1: real, y1: real, x2: real, y2: real)

  datatype Color = Color(red: int, green: int, blue: int)

  /** The calls a job makes into the document backend, file helpers and VFS. */
  datatype Backend = Backend(
    linksModel: Document -> LinksModel,
    renderPixbuf: (Document, RenderContext) -> Pixbuf,
    formFieldMapping: (Document, int) -> Mapping,
    linkMapping: (Document, int) -> Mapping,
    selectionMap: (Document, RenderContext) -> Region,
    renderSelection: (Document, RenderContext, Rectangle, Color, Color) -> Pixbuf,
    selectionRegion: (Document, RenderContext, Rectangle) -> Region,
    thumbnail: (Document, int, int, int, bool) -> Pixbuf,
    fontsScan: (Document, int) -> bool,
    load: (Document, Uri) -> Option<Error>,
    isLocal: Uri -> bool,
    shortName: Uri -> string,
    factory: Uri -> (Option<Document>, Option<Error>)
  )

  /** What a render job was asked to produce. */
  datatype RenderRequest = RenderRequest(
    rc: RenderContext,
    targetWidth: int,
    targetHeight: int,
    text: Color,
    base: Color,
    includeForm: bool,
    includeLinks: bool,
    includeText: bool,
    includeSelection: bool,
    selectionPoints: Option<Rectangle>)

  /** What a render job has produced so far. */
  datatype RenderOutput = RenderOutput(
    pixbuf: Option<Pixbuf>,
    formFields: Option<Mapping>,
    links: Option<Mapping>,
    textMapping: Option<Region>,
    selection: Option<Pixbuf>,
    selectionRegion: Option<Region>)

  const NoOutput: RenderOutput := RenderOutput(None, None, None, None, None, None)

  /** The job variants, each with its own inputs and results. */
  datatype Kind =
    | LinksJob(model: Option<LinksModel>)
    | RenderJob(request: RenderRequest, output: RenderOutput, callbackConnected: bool)
    | ThumbnailJob(page: int, rotation: int, requestedWidth: int, thumbnail: Option<Pixbuf>)
    | FontsJob(scanCompleted: bool)
    | XferJob(uri: Uri, localUri: Option<Uri>, error: Option<Error>, dest: Option<LinkDest>)

  /** The fields every job shares, plus `emitted`: how often "finished" was emitted. */
  datatype Job = Job(document: Option<Document>, finished: bool, async: bool, emitted: nat, kind: Kind)

  datatype Op =
    | GetLinksModel | RenderPixbuf | GetFormFieldMapping | GetLinks | GetSelectionMap
    | RenderSelection | GetSelectionRegion | AsyncRenderPixbuf | GetThumbnail | FontsScan
    | Load | TmpFilename | XferUri | FactoryGetDocument

  /** One step of a run: taking or releasing the document mutex, or a call. */
  datatype Event = Lock | Unlock | Call(op: Op)

  datatype Step = Step(job: Job, trace: seq<Event>)

  /** Pages scanned per fonts job. */
  const FontsChunk: int := 20

  // ---------------------------------------------------------------------
  // Lock discipline

  predicate NoLocking(t: seq<Event>) {
    forall i :: 0 <= i < |t| ==> t[i].Call?
  }

  /** The mutex is taken first, released last, and only calls happen between. */
  predicate Bracketed(t: seq<Event>) {
    && |t| >= 2
    && t[0] == Lock
    && t[|t| - 1] == Unlock
    && NoLocking(t[1..|t| - 1])
  }

  function Count(t: seq<Event>, e: Event): nat {
    if |t| == 0 then 0 else (if t[0] == e then 1 else 0) + Count(t[1..], e)
  }

  lemma {:induction false} CountConcat(a: seq<Event>, b: seq<Event>, e: Event)
    ensures Count(a + b, e) == Count(a, e) + Count(b, e)
    decreases |a|
  {
    if |a| == 0 {
      assert a + b == b;
    } else {
      assert (a + b)[1..] == a[1..] + b;
      CountConcat(a[1..], b, e);
    }
  }

  lemma {:induction false} NoLockingCounts(t: seq<Event>)
    requires NoLocking(t)
    ensures Count(t, Lock) == 0 && Count(t, Unlock) == 0
    decreases |t|
  {
    if |t| > 0 {
      assert NoLocking(t[1..]) by {
        forall i | 0 <= i < |t[1..]| ensures t[1..][i].Call? {
          assert t[1..][i] == t[i + 1];
        }
      }
      NoLockingCounts(t[1..]);
    }
  }

  /** A bracketed trace locks the document mutex exactly once and unlocks it exactly once. */
  lemma {:induction false} BracketedIsBalanced(t: seq<Event>)
    requires Bracketed(t)
    ensures Count(t, Lock) == 1 && Count(t, Unlock) == 1
  {
    var mid := t[1..|t| - 1];
    assert t == [Lock] + mid + [Unlock];
    NoLockingCounts(mid);
    CountConcat([Lock] + mid, [Unlock], Lock);
    CountConcat([Lock] + mid, [Unlock], Unlock);
    CountConcat([Lock], mid, Lock);
    CountConcat([Lock], mid, Unlock);
  }

  /** Wraps the calls of a guarded section in lock/unlock. */
  function Guarded(calls: seq<Op>): (t: seq<Event>)
    ensures Bracketed(t)
    ensures |t| == |calls| + 2
    ensures forall i :: 0 <= i < |calls| ==> t[i + 1] == Call(calls[i])
  {
    [Lock] + Calls(calls) + [Unlock]
  }

  function Calls(ops: seq<Op>): (t: seq<Event>)
    ensures NoLocking(t)
    ensures |t| == |ops|
    ensures forall i :: 0 <= i < |ops| ==> t[i] == Call(ops[i])
    ensures forall o :: Call(o) in t <==> o in ops
  {
    seq(|ops|, i requires 0 <= i < |ops| => Call(ops[i]))
  }

  function If(c: bool, ops: seq<Op>): seq<Op> { if c then ops else [] }

  // ---------------------------------------------------------------------
  // Construction

  function LinksNew(doc: Document): Job {
    Job(Some(doc), false, false, 0, LinksJob(None))
  }

  function ThumbnailNew(doc: Document, page: int, rotation: int, requestedWidth: int): Job {
    Job(Some(doc), false, false, 0, ThumbnailJob(page, rotation, requestedWidth, None))
  }

  function FontsNew(doc: Document): Job {
    Job(Some(doc), false, false, 0, FontsJob(false))
  }

  function XferNew(uri: Uri, dest: Option<LinkDest>): Job {
    Job(None, false, false, 0, XferJob(uri, None, None, dest))
  }

  /** `ev_job_render_new`: refuses a selection render without selection
      points, keeps the points only for a selection render, and marks the job
      asynchronous exactly when the document renders asynchronously. */
  function RenderNew(doc: Document, rc: RenderContext, width: int, height: int,
                     selectionPoints: Option<Rectangle>, text: Color, base: Color,
                     includeForm: bool, includeLinks: bool, includeText: bool,
                     includeSelection: bool): (r: Option<Job>)
    ensures r.None? <==> includeSelection && selectionPoints.None?
    ensures r.Some? ==> r.value.document == Some(doc)
    ensures r.Some? ==> (r.value.async <==> doc.caps.asyncRenderer)
    ensures r.Some? ==> !r.value.finished && r.value.emitted == 0
    ensures r.Some? ==> r.value.kind.RenderJob? && r.value.kind.output == NoOutput
    ensures r.Some? ==> r.value.kind.request.selectionPoints ==
                        (if includeSelection then selectionPoints else None)
    ensures r.Some? ==> WellFormed(r.value)
  {
    if includeSelection && selectionPoints.None? then None
    else
      var request := RenderRequest(rc, width, height, text, base,
                                   includeForm, includeLinks, includeText, includeSelection,
                                   if includeSelection then selectionPoints else None);
      Some(Job(Some(doc), false, doc.caps.asyncRenderer, 0, RenderJob(request, NoOutput, false)))
  }

  /** What every run relies on: a document to work on (except for the transfer
      job, which may create it) and selection points for a selection render. */
  predicate WellFormed(j: Job) {
    && (!j.kind.XferJob? ==> j.document.Some?)
    && (j.kind.RenderJob? && j.kind.request.includeSelection ==> j.kind.request.selectionPoints.Some?)
  }

  // ---------------------------------------------------------------------
  // Runs

  /** `ev_job_links_run`: fetches the outline model under the mutex. */
  function RunLinks(j: Job, b: Backend): (r: Step)
    requires j.kind.LinksJob? && j.document.Some?
    ensures Bracketed(r.trace)
    ensures r.job.finished
    ensures r.job.kind.LinksJob? && r.job.kind.model == Some(b.linksModel(j.document.value))
    ensures r.job.document == j.document && r.job.emitted == j.emitted
  {
    var doc := j.document.value;
    Step(j.(finished := true, kind := LinksJob(Some(b.linksModel(doc)))), Guarded([GetLinksModel]))
  }

  /** The calls a synchronous render makes, in order. */
  function RenderCalls(req: RenderRequest, caps: Capabilities): seq<Op> {
    [RenderPixbuf]
    + If(req.includeForm, [GetFormFieldMapping])
    + If(req.includeLinks && caps.links, [GetLinks])
    + If(req.includeText && caps.selection, [GetSelectionMap])
    + If(req.includeSelection && caps.selection, [RenderSelection, GetSelectionRegion])
  }

  /** `ev_job_render_run`. An asynchronous job only starts the backend render
      and connects the completion callback; a synchronous job fills each
      result field only under its flag and capability and is then finished. */
  function RunRender(j: Job, b: Backend): (r: Step)
    requires j.kind.RenderJob? && j.document.Some? && WellFormed(j)
    ensures Bracketed(r.trace)
    ensures r.job.kind.RenderJob? && r.job.kind.request == j.kind.request
    ensures r.job.document == j.document && r.job.emitted == j.emitted && r.job.async == j.async
    ensures j.async ==> r.job.finished == j.finished && r.job.kind.callbackConnected
    ensures j.async ==> r.job.kind.output == j.kind.output
    ensures j.async ==> r.trace == [Lock, Call(AsyncRenderPixbuf), Unlock]
    ensures !j.async ==> r.job.finished
    ensures !j.async ==> var doc, req, out := j.document.value, j.kind.request, r.job.kind.output;
      && out.pixbuf == Some(b.renderPixbuf(doc, req.rc))
      && out.formFields == (if req.includeForm then Some(b.formFieldMapping(doc, req.rc.page))
                            else j.kind.output.formFields)
      && out.links == (if req.includeLinks && doc.caps.links then Some(b.linkMapping(doc, req.rc.page))
                       else j.kind.output.links)
      && out.textMapping == (if req.includeText && doc.caps.selection then Some(b.selectionMap(doc, req.rc))
                             else j.kind.output.textMapping)
      && (req.includeSelection && doc.caps.selection ==>
            && out.selection == Some(b.renderSelection(doc, req.rc, req.selectionPoints.value, req.text, req.base))
            && out.selectionRegion == Some(b.selectionRegion(doc, req.rc, req.selectionPoints.value)))
      && (!(req.includeSelection && doc.caps.selection) ==>
            out.selection == j.kind.output.selection && out.selectionRegion == j.kind.output.selectionRegion)
  {
    var doc, req, out := j.document.value, j.kind.request, j.kind.output;
    if j.async then
      Step(j.(kind := j.kind.(callbackConnected := true)), Guarded([AsyncRenderPixbuf]))
    else
      var caps := doc.caps;
      var withSelection := req.includeSelection && caps.selection;
      var out' := RenderOutput(
        Some(b.renderPixbuf(doc, req.rc)),
        if req.includeForm then Some(b.formFieldMapping(doc, req.rc.page)) else out.formFields,
        if req.includeLinks && caps.links then Some(b.linkMapping(doc, req.rc.page)) else out.links,
        if req.includeText && caps.selection then Some(b.selectionMap(doc, req.rc)) else out.textMapping,
        if withSelection then Some(b.renderSelection(doc, req.rc, req.selectionPoints.value, req.text, req.base))
        else out.selection,
        if withSelection then Some(b.selectionRegion(doc, req.rc, req.selectionPoints.value))
        else out.selectionRegion);
      Step(j.(finished := true, kind := j.kind.(output := out')), Guarded(RenderCalls(req, caps)))
  }

  /** `render_finished_cb`: disconnects itself, keeps the pixbuf, marks the
      job finished and emits "finished" once. */
  function RenderFinished(j: Job, pixbuf: Pixbuf): (r: Job)
    requires j.kind.RenderJob? && j.kind.callbackConnected
    ensures r.kind.RenderJob? && !r.kind.callbackConnected
    ensures r.finished && r.emitted == j.emitted + 1
    ensures r.kind.output == j.kind.output.(pixbuf := Some(pixbuf))
    ensures r.kind.request == j.kind.request && r.document == j.document
  {
    j.(finished := true, emitted := j.emitted + 1,
       kind := j.kind.(callbackConnected := false, output := j.kind.output.(pixbuf := Some(pixbuf))))
  }

  /** `ev_job_thumbnail_run`: asks for a bordered thumbnail under the mutex. */
  function RunThumbnail(j: Job, b: Backend): (r: Step)
    requires j.kind.ThumbnailJob? && j.document.Some?
    ensures Bracketed(r.trace) && r.job.finished
    ensures r.job.kind.ThumbnailJob?
    ensures r.job.kind.thumbnail ==
            Some(b.thumbnail(j.document.value, j.kind.page, j.kind.rotation, j.kind.requestedWidth, true))
    ensures r.job.document == j.document && r.job.emitted == j.emitted
  {
    var k := j.kind;
    var t := b.thumbnail(j.document.value, k.page, k.rotation, k.requestedWidth, true);
    Step(j.(finished := true, kind := k.(thumbnail := Some(t))), Guarded([GetThumbnail]))
  }

  /** `ev_job_fonts_run`: scans one chunk of 20 pages; the scan is complete
      when the backend reports that nothing remains. */
  function RunFonts(j: Job, b: Backend): (r: Step)
    requires j.kind.FontsJob? && j.document.Some?
    ensures Bracketed(r.trace) && r.job.finished
    ensures r.job.kind.FontsJob?
    ensures r.job.kind.scanCompleted <==> !b.fontsScan(j.document.value, 20)
    ensures r.job.document == j.document && r.job.emitted == j.emitted
  {
    Step(j.(finished := true, kind := FontsJob(!b.fontsScan(j.document.value, FontsChunk))),
         Guarded([FontsScan]))
  }

  /** The local name a remote document is staged under. */
  function StagedUri(tmpName: string, b: Backend, uri: Uri): Uri {
    "file:" + tmpName + "-" + b.shortName(uri)
  }

  /** `ev_job_xfer_run`, with `tmpName` the name `ev_tmp_filename` hands out.
      It clears the previous error; a job that already holds a document
      reloads it in place; otherwise a remote source without a local copy is
      staged to a temporary file first, and a new document is built. No
      document mutex is taken. */
  function RunXfer(j: Job, b: Backend, tmpName: string): (r: Step)
    requires j.kind.XferJob?
    ensures NoLocking(r.trace)
    ensures r.job.finished
    ensures r.job.kind.XferJob? && r.job.kind.uri == j.kind.uri && r.job.kind.dest == j.kind.dest
    ensures r.job.emitted == j.emitted
    ensures j.document.Some? ==>
      && r.job.document == j.document
      && r.job.kind.localUri == j.kind.localUri
      && r.job.kind.error == b.load(j.document.value, j.kind.localUri.GetOr(j.kind.uri))
      && r.trace == [Call(Load)]
    ensures j.document.None? ==>
      var staged := !b.isLocal(j.kind.uri) && j.kind.localUri.None?;
      && r.job.kind.localUri == (if staged then Some(StagedUri(tmpName, b, j.kind.uri)) else j.kind.localUri)
      && (r.job.document, r.job.kind.error) == b.factory(r.job.kind.localUri.GetOr(j.kind.uri))
      && (Call(XferUri) in r.trace <==> staged)
  {
    var k := j.kind.(error := None);
    if j.document.Some? then
      var err := b.load(j.document.value, k.localUri.GetOr(k.uri));
      Step(j.(finished := true, kind := k.(error := err)), Calls([Load]))
    else
      var staged := !b.isLocal(k.uri) && k.localUri.None?;
      var local := if staged then Some(StagedUri(tmpName, b, k.uri)) else k.localUri;
      var built := b.factory(local.GetOr(k.uri));
      Step(j.(document := built.0, finished := true, kind := k.(localUri := local, error := built.1)),
           Calls(If(staged, [TmpFilename, XferUri]) + [FactoryGetDocument]))
  }

  /** Runs a job of any kind. Every path except the asynchronous render sets
      `finished`; every kind except the transfer runs inside one
      lock/unlock pair of the document mutex. */
  function Run(j: Job, b: Backend, tmpName: string): (r: Step)
    requires WellFormed(j)
    ensures !(j.kind.RenderJob? && j.async) ==> r.job.finished
    ensures j.kind.RenderJob? && j.async ==> r.job.finished == j.finished
    ensures j.kind.XferJob? ==> NoLocking(r.trace)
    ensures !j.kind.XferJob? ==> Count(r.trace, Lock) == 1 && Count(r.trace, Unlock) == 1
    ensures r.job.emitted == j.emitted
  {
    var r := match j.kind
      case LinksJob(_) => RunLinks(j, b)
      case RenderJob(_, _, _) => RunRender(j, b)
      case ThumbnailJob(_, _, _, _) => RunThumbnail(j, b)
      case FontsJob(_) => RunFonts(j, b)
      case XferJob(_, _, _, _) => RunXfer(j, b, tmpName);
    if !j.kind.XferJob? then BracketedIsBalanced(r.trace); r else r
  }

  // ---------------------------------------------------------------------
  // Properties across several calls

  /** A fresh synchronous render fills exactly the fields its flags and the
      document's capabilities ask for. */
  lemma FreshRenderPopulation(doc: Document, rc: RenderContext, width: int, height: int,
                              points: Option<Rectangle>, text: Color, base: Color,
                              form: bool, links: bool, textMap: bool, selection: bool, b: Backend)
    requires !doc.caps.asyncRenderer
    requires selection ==> points.Some?
    ensures var j := RenderNew(doc, rc, width, height, points, text, base, form, links, textMap, selection).value;
            var out := RunRender(j, b).job.kind.output;
      && RunRender(j, b).job.finished
      && out.pixbuf.Some?
      && (out.formFields.Some? <==> form)
      && (out.links.Some? <==> links && doc.caps.links)
      && (out.textMapping.Some? <==> textMap && doc.caps.selection)
      && (out.selection.Some? <==> selection && doc.caps.selection)
      && (out.selectionRegion.Some? <==> selection && doc.caps.selection)
  {
  }

  /** An asynchronous render is finished only by the backend's callback,
      which emits "finished" exactly once and cannot fire again. */
  lemma AsyncRenderCompletes(doc: Document, rc: RenderContext, width: int, height: int,
                             points: Option<Rectangle>, text: Color, base: Color,
                             form: bool, links: bool, textMap: bool, selection: bool,
                             b: Backend, pixbuf: Pixbuf)
    requires doc.caps.asyncRenderer
    requires selection ==> points.Some?
    ensures var j := RenderNew(doc, rc, width, height, points, text, base, form, links, textMap, selection).value;
            var started := RunRender(j, b).job;
            var done := RenderFinished(started, pixbuf);
      && !started.finished && started.kind.callbackConnected
      && done.finished && done.emitted == 1
      && done.kind.output.pixbuf == Some(pixbuf)
      && !done.kind.callbackConnected
  {
  }

  /** A transfer job re-run after it built a document (for instance after a
      password prompt) reloads that same document from the same location
      and neither stages the source again nor builds a new document. */
  lemma XferRetryReloads(j: Job, b: Backend, tmp1: string, tmp2: string)
    requires j.kind.XferJob? && j.document.None?
    ensures var first := RunXfer(j, b, tmp1);
            first.job.document.Some? ==>
              var second := RunXfer(first.job, b, tmp2);
              && second.job.document == first.job.document
              && second.job.kind.localUri == first.job.kind.localUri
              && second.job.kind.error ==
                 b.load(first.job.document.value, first.job.kind.localUri.GetOr(j.kind.uri))
              && Call(XferUri) !in second.trace
              && Call(FactoryGetDocument) !in second.trace
  {
  }

  /** A remote source is staged at most once: once a local copy is named,
      later runs use it and never transfer again. */
  lemma XferStagesOnce(j: Job, b: Backend, tmp1: string, tmp2: string)
    requires j.kind.XferJob? && j.document.None? && j.kind.localUri.None?
    requires !b.isLocal(j.kind.uri)
    ensures var first := RunXfer(j, b, tmp1);
            var second := RunXfer(first.job.(document := None), b, tmp2);
      && first.job.kind.localUri == Some(StagedUri(tmp1, b, j.kind.uri))
      && Call(XferUri) in first.trace
      && second.job.kind.localUri == first.job.kind.localUri
      && Call(XferUri) !in second.trace
  {
  }
}
