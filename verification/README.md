# A Dafny model of the core of the evince document viewer

This project models the deterministic core of an early evince, the GNOME document viewer. It has five parts.

- **Jobs** (`Jobs`, shell/ev-jobs.c): the background jobs the viewer queues.
  - The variants are links, render, thumbnail, fonts and transfer.
  - Each run is a pure transition of a job record against an abstract document backend. Every backend call is an uninterpreted function field of `Backend`.
  - Each run also returns a trace of document-mutex operations and calls. The model proves from that trace when `finished` is set, which result fields are filled, and that the mutex is taken and released exactly once.
- **PDF backend** (`PdfFind`, `PdfBackend` and `PdfGeometry`, pdf/ev-poppler.cc):
  - the incremental text search, with its wrap-around cursor and its progress figure;
  - the resumable font-scan counter;
  - the growable buffer that attachments are saved into;
  - the translation of Poppler errors, link destinations, layouts, modes, viewer preferences and permissions;
  - the flip of the y axis between Poppler's coordinates and the viewer's.
- **Document view** (`View`, shell/ev-view.c):
  - page clamping and change detection;
  - the find-result cursor and the scan for the next page with results;
  - the rubberband selection rectangle and the 16-to-8-bit colour packing;
  - scrolling, adjustments, zoom clamping and the centring offsets of a page.
- **PostScript backend** (`PsDocument`, ps/ps-document.c):
  - recognising compressed files by their magic bytes;
  - the bounding-box cascade, orientation and `changed` flag of `compute_dimensions`;
  - loading a document and classifying it as structured;
  - page numbering;
  - the FIFO queue of file sections sent to the Ghostscript interpreter.
- **File helpers** (`FileHelpers`, libdocument/ev-file-helpers.c):
  - the per-process temporary directory and its memoisation;
  - unique `prefix-N` temporary file names;
  - the guards that decide whether a file may be deleted;
  - the early exits and arguments of the compression helper.

Everything outside the program is a parameter: the backend, the file system, the process id, the scanner and the spawned programs. `Glib` holds the few GLib and C facilities the code relies on:
- `Option`;
- `MIN`, `MAX` and `ABS`;
- `CLAMP`, which compares against the upper bound first;
- C's truncating division.

## Model

| member | source | states |
|---|---|---|
| Jobs.BracketedIsBalanced | shell/ev-jobs.c:201-204 | A trace that starts with a lock, ends with an unlock and makes only calls in between locks the document mutex exactly once and unlocks it exactly once. |
| Jobs.RenderNew | shell/ev-jobs.c:209-248 | A selection render without selection points is refused. The job is asynchronous exactly when the document renders asynchronously. Selection points are kept only for a selection render. The new job is unfinished and has produced nothing. |
| Jobs.RunLinks | shell/ev-jobs.c:197-205 | The links job fetches the outline model inside one lock/unlock pair and is then finished. |
| Jobs.RunRender | shell/ev-jobs.c:262-303 | An asynchronous render only starts the backend and connects the completion callback; it does not finish the job. A synchronous render fills each output field exactly under its flag and capability, leaves the other fields alone, and finishes. Both paths run inside one lock/unlock pair. |
| Jobs.RenderFinished | shell/ev-jobs.c:250-259 | The completion callback disconnects itself, stores the pixbuf, sets `finished` and emits "finished" exactly once more. |
| Jobs.RunThumbnail | shell/ev-jobs.c:324-339 | The thumbnail job asks for a bordered thumbnail of its page, rotation and width under the mutex, and is finished. |
| Jobs.RunFonts | shell/ev-jobs.c:358-372 | The fonts job scans a chunk of 20 pages. The scan is complete exactly when the backend reports that nothing remains. |
| Jobs.RunXfer | shell/ev-jobs.c:430-484 | The previous error is cleared. A job that already has a document reloads it from the local URI if set, else the URI, and builds no new document. A remote source without a local copy is staged as `file:<tmp>-<short name>`. The document is then built from the local URI if set, else the URI. No mutex is taken. |
| Jobs.Run | shell/ev-jobs.c:197-484 | Every run path except the asynchronous render sets `finished`. Every kind except the transfer locks and unlocks the document mutex exactly once. The transfer never locks it. |
| Jobs.FreshRenderPopulation | shell/ev-jobs.c:275-299 | On a freshly created synchronous render, each output field is present if and only if its flag, and the capability it needs, are set. |
| Jobs.AsyncRenderCompletes | shell/ev-jobs.c:243-259 | An asynchronous render is unfinished after its run. The callback then finishes it with the delivered pixbuf, after exactly one emission, and is no longer connected. |
| Jobs.XferRetryReloads | shell/ev-jobs.c:437-451 | Re-running a transfer job that has built a document reloads that same document from the same location. The re-run neither transfers again nor builds a new document. |
| Jobs.XferStagesOnce | shell/ev-jobs.c:454-479 | A remote source is copied once. A later run reuses the staged local URI and does not transfer again. |
| PdfGeometry.FlipY | pdf/ev-poppler.cc:1033-1037 | The flip keeps the x values and the height of the rectangle. It mirrors y1 and y2 about the page height, and keeps the rectangle well ordered exactly when it was. |
| PdfGeometry.FlipYInvolution | pdf/ev-poppler.cc:619-623 | Flipping twice against the same height gives the rectangle back. So the viewer-to-Poppler conversion of the text query undoes the Poppler-to-viewer conversion of links and find results. |
| PdfGeometry.FlipYCovers | pdf/ev-poppler.cc:1322-1325 | A flipped rectangle covers a point exactly when the original covers the mirrored point. |
| PdfGeometry.FormArea | pdf/ev-poppler.cc:1520-1526 | A form field's area is flipped and then moved by the crop-box origin. Its width, height and ordering are kept. |
| PdfGeometry.FormAreaInvertible | pdf/ev-poppler.cc:1522-1525 | Moving back by the crop box and flipping again recovers the Poppler area. |
| PdfGeometry.RotatedSizeInvolution | pdf/ev-poppler.cc:1097-1102 | The thumbnail size is either unchanged or swapped, and has the same area. Applying the same rotation twice restores the original size. |
| PdfFind.SearchNew | pdf/ev-poppler.cc:1231-1261 | A new search has one empty result list per page and starts its cursor at the start page. It is valid exactly when the start page is a page of the document. |
| PdfFind.SearchStep | pdf/ev-poppler.cc:1192-1227 | One run records the matches of the cursor's page and advances the cursor by one, wrapping to 0. It asks to run again exactly when the cursor has not come back to the start page. |
| PdfFind.SearchVisitsEachPageOnce | pdf/ev-poppler.cc:1209-1226 | After k ≤ n runs, the cursor is k pages past the start, modulo n. Exactly the pages the cursor has passed hold their matches. The search keeps running exactly while k < n, so every page is searched once. |
| PdfFind.FindBegin | pdf/ev-poppler.cc:1264-1286 | Beginning a search for the string already being searched changes nothing. Any other string replaces the search by a fresh one at the given page. |
| PdfFind.FindBeginResults | pdf/ev-poppler.cc:1276-1285 | Beginning a search keeps the slot valid. Repeating the current string keeps every result count. A new string drops every result. |
| PdfFind.NResults | pdf/ev-poppler.cc:1289-1298 | Without a search the count is 0. With one, `GetResult` and `PageHasResults` tie the count to the page's stored matches. |
| PdfFind.PageHasResults | pdf/ev-poppler.cc:1332-1338 | A page has results exactly when its result count is positive. |
| PdfFind.GetResult | pdf/ev-poppler.cc:1301-1329 | A result exists exactly for an index below the page's result count. Flipping it back gives the stored match. |
| PdfFind.FindCancel | pdf/ev-poppler.cc:1365-1373 | After cancelling, no page has results and every count is 0. |
| PdfFind.PagesDoneAsWritten | pdf/ev-poppler.cc:1352-1359 | The page count the progress figure uses, as written, lies in 1..n. It equals n whenever the cursor sits on the start page. |
| PdfFind.ProgressAsWrittenOvercounts | pdf/ev-poppler.cc:1352-1359 | For every document and start page, the count as written reports all n pages before any run. After k runs it reports k + 1 while the cursor has not wrapped, and k after the wrap. |
| PdfFind.PagesDone | pdf/ev-poppler.cc:1348-1361 | The corrected count lies in 0..n. It is n exactly when the search has come back to the start page and stopped. Below n, the cursor lies that many pages past the start page, wrapping at n. `PagesDoneCountsSteps` states its value after k runs. |
| PdfFind.PagesDoneCountsSteps | pdf/ev-poppler.cc:1348-1361 | After k runs of the search, the corrected count is exactly k. |
| PdfFind.FindProgressAsWritten | pdf/ev-poppler.cc:1341-1362 | The progress figure as written. It is 0 without a search. Otherwise it is the as-written count over n, within [1/n, 1], and exactly 1 whenever the cursor sits on the start page, before the first run included. |
| PdfFind.FindProgress | pdf/ev-poppler.cc:1341-1362 | The corrected progress figure of the second finding below. It is 0 without a search, and otherwise the corrected count over n, within [0, 1]. |
| PdfBackend.ConvertError | pdf/ev-poppler.cc:188-211 | A NULL error stays NULL. A Poppler error becomes a document error that keeps its message, with code ENCRYPTED exactly when the Poppler code was ENCRYPTED and INVALID otherwise. Errors of other domains pass through unchanged. |
| PdfBackend.ConvertErrorIdempotent | pdf/ev-poppler.cc:194-209 | No Poppler error is left after conversion, and converting again changes nothing. |
| PdfBackend.LinkDestFromDest | pdf/ev-poppler.cc:798-856 | Every page destination uses `page_num - 1`. XYZ, FIT, FITH, FITV and FITR each map to the viewer destination of the same kind and only to it. Their position fields are copied: left, top and zoom for XYZ, top for FITH, left for FITV, all four sides for FITR. A named destination keeps its name. FITB, FITBH, FITBV and UNKNOWN fall back to a plain page destination. |
| PdfBackend.LinkDestKeepsKind | pdf/ev-poppler.cc:805-845 | Two implemented destinations that translate to the same viewer destination have the same kind and, unless named, the same page. |
| PdfBackend.LayoutFromPoppler | pdf/ev-poppler.cc:516-536 | As written, every layout maps to its namesake, except TWO_COLUMN_RIGHT, which falls through to TWO_PAGE_LEFT. An unset layout assigns nothing. |
| PdfBackend.LayoutFallThrough | pdf/ev-poppler.cc:526-530 | As written, TWO_COLUMN_RIGHT and TWO_PAGE_LEFT give the same layout, and no input yields TWO_COLUMN_RIGHT. |
| PdfBackend.LayoutFromPopplerIntended | pdf/ev-poppler.cc:516-536 | With the `break` restored, every layout maps to its namesake. |
| PdfBackend.LayoutIntendedBijective | pdf/ev-poppler.cc:516-536 | With the `break` restored, the mapping is injective and reaches every viewer layout. |
| PdfBackend.ModeFromPoppler | pdf/ev-poppler.cc:538-555 | The mode is assigned exactly when it is set and is not USE_OUTLINES, which has no case. An assigned mode is the Poppler mode of the same name. |
| PdfBackend.UiHints | pdf/ev-poppler.cc:557-578 | The UI hints start empty. Each hint is set exactly when the matching viewer preference is set. |
| PdfBackend.Permissions | pdf/ev-poppler.cc:580-592 | The permissions start empty. Each permission is set exactly when the matching Poppler permission is set. |
| PdfBackend.GetInfo | pdf/ev-poppler.cc:471-605 | The document information combines the as-written layout, the mode, the hint and permission sets, and the page count. |
| PdfBackend.FontsScan | pdf/ev-poppler.cc:672-699 | A scan returns Poppler's answer. While more remains, the counter grows by the chunk. Once Poppler reports the end, the counter and the font info are reset. |
| PdfBackend.FontsProgress | pdf/ev-poppler.cc:661-669 | Progress times the page count equals the number of pages scanned. |
| PdfBackend.ScanAllCounts | pdf/ev-poppler.cc:688-696 | While every scan reports more, the counter is the number of scans times the chunk. A sequence ending with the report of the end leaves the initial state. |
| PdfBackend.FontsProgressAsWrittenOverruns | pdf/ev-poppler.cc:661-696 | Scanning from the start, while Poppler reports more the progress is the pages asked for over the page count, so it exceeds 1 once those exceed the document. After Poppler reports the end, the progress reads 0. |
| PdfBackend.FontsScanIntended | pdf/ev-poppler.cc:672-699 | The corrected scan returns Poppler's answer. While more remains, the counter grows by the chunk but never past the page count. At the end, the font info is dropped and the counter is the whole document. |
| PdfBackend.ScanAllIntendedCounts | pdf/ev-poppler.cc:688-696 | With the corrected counter, the count stays within the document. After k "more" answers it is the smaller of k times the chunk and the page count. After the end it is the page count. |
| PdfBackend.ScanAllIntendedInRange | pdf/ev-poppler.cc:661-696 | With the corrected counter, the progress stays within [0, 1] and reads 1 once Poppler reports the end. |
| PdfBackend.Append | pdf/ev-poppler.cc:305-326 | An append keeps the length within capacity and concatenates the chunk. Capacity is unchanged when the chunk fits, and otherwise grows to the larger of twice the old capacity and the new length. |
| PdfBackend.AppendAll | pdf/ev-poppler.cc:344-347 | Feeding chunks in order leaves exactly their concatenation, within capacity. |
| PdfBackend.SaveToBuffer | pdf/ev-poppler.cc:329-356 | On success the result is the attachment's bytes and their count. On failure nothing is returned. |
| View.SetDocumentPage | shell/ev-view.c:1125-1176 | The page is clamped to [1, n]. The page-range request, page-changed signal, selection loss and scroll to top happen exactly when the page changes. A searchable document has its find cursor reset to result 0 of the page. Without a document nothing happens. |
| View.SetDocumentPageIdempotent | shell/ev-view.c:1131-1157 | Going to the same page again changes nothing and emits no page change. |
| View.FindNextCursor | shell/ev-view.c:1492-1500 | The next result is on the same page while results remain. Otherwise the cursor goes to result 0 of the next page, wrapping from the last page to 1, and stays within [1, n]. |
| View.FindPreviousCursor | shell/ev-view.c:1518-1526 | The previous result is on the same page while its index is positive. Otherwise the cursor goes to result 0 of the previous page, wrapping from 1 to n, and stays within [1, n]. |
| View.FindPreviousUndoesNext | shell/ev-view.c:1492-1526 | A step back after a step forward onto another page returns to result 0 of the original page. |
| View.Candidate | shell/ev-view.c:1239-1242 | Every page the jump loop asks about lies within [1, n]. |
| View.EveryPageIsCandidate | shell/ev-view.c:1235-1242 | Each page of the document is among the first n candidates. |
| View.Scan | shell/ev-view.c:1235-1254 | The loop stops at the first candidate reporting -1 or 1, after asking about every earlier candidate, or finds none among all n + 1. |
| View.ScanFindsAnyReportingPage | shell/ev-view.c:1235-1254 | If any page reports -1 or 1, the scan stops at a page of the document. |
| View.JumpToFindPage | shell/ev-view.c:1229-1255 | A pending page becomes the find page. A page with results becomes the current page, and its first result is shown. Otherwise nothing changes. |
| View.FindNext | shell/ev-view.c:1484-1507 | Within the page, the next result is shown in place. Past the last result, the cursor moves on and the view jumps. The find page stays within [1, n]. |
| View.FindPrevious | shell/ev-view.c:1510-1533 | Within the page, the previous result is shown in place. Before the first result, the cursor moves back and the view jumps. The find page stays within [1, n]. |
| View.Rubberband | shell/ev-view.c:800-803 | The selection rectangle contains both the drag start and the pointer, is at least 1×1, and is the smallest such rectangle. |
| View.RubberbandSymmetric | shell/ev-view.c:800-803 | The rectangle does not depend on the direction of the drag. |
| View.ColorToRgb | shell/ev-view.c:419-427 | The alpha byte is 0xff, and each colour byte is the high byte of its 16-bit channel. |
| View.ColorToRgbLayout | shell/ev-view.c:419-427 | The packing equals the bitwise or of `0xff000000`, `(r>>8)<<16`, `(g>>8)<<8` and `b>>8`. |
| View.ScrollView | shell/ev-view.c:924-960 | Page scrolls go one page back or forward. Any other scroll moves by at most one step in its direction, is clamped to [lower, upper − page size], and leaves the value alone for other scroll types. |
| View.PageForwardAtLastPage | shell/ev-view.c:928-931 | When `ev_view_get_page` reports the last page and the view is on it, paging forward leaves the view on that page with no page change. The document's page is a separate input, since `set_document_page` never updates it. |
| View.SetAdjustmentValues | shell/ev-view.c:161-197 | Without an adjustment nothing happens. Otherwise the range is [0, max(allocation, requisition)] with the page size set to the allocation. A value past the end is pulled back to it, and that pull is reported as a value change. |
| View.SetAdjustmentValuesIdempotent | shell/ev-view.c:161-197 | A second call with the same sizes leaves the adjustment as the first call left it and reports no value change. |
| View.Zoom | shell/ev-view.c:1369-1387 | The new scale is the requested absolute or relative scale, clamped to [MIN_SCALE, MAX_SCALE]. |
| View.ZoomOutUndoesZoomIn | shell/ev-view.c:1389-1401 | Zooming out undoes zooming in whenever zooming in was not cut off by MAX_SCALE. |
| View.Offset | shell/ev-view.c:249-254 | An offset is at least the spacing. The page is centred, with the spare room split so that the leading part is at most one pixel less than the trailing part. |
| View.GetOffsets | shell/ev-view.c:233-255 | Both offsets are at least the spacing, each computed from its own axis. |
| PsDocument.Classify | ps/ps-document.c:802-812 | A file is gzip/compress exactly when three bytes could be read and they start 0x1F, then 0x9D or 0x8B. It is bzip2 exactly when they spell `BZh` and it is not gzip. Everything else, a short read included, is uncompressed. |
| PsDocument.ClassifyMagic | ps/ps-document.c:804-811 | A file starting with a compressor's magic bytes is recognised as compressed by that compressor. |
| PsDocument.CheckFileCompressed | ps/ps-document.c:792-858 | An uncompressed file is read under its own name and has no decompressed copy. A compressed one is read through the decompressed copy, or not at all when decompression failed. |
| PsDocument.IsStructured | ps/ps-document.c:1068-1072 | A document is structured exactly when it has pages, or, for EPSF, more than one. A structured document has at least one page. |
| PsDocument.BoxFor | ps/ps-document.c:881-908 | The box is the first of: the page's paper size, the page's own box if proper, the document's box if proper, and A4 (`paper_sizes[12]`). |
| PsDocument.BoxForProper | ps/ps-document.c:881-908 | With positive paper sizes, the cascade always ends at a proper box. |
| PsDocument.OrientationFor | ps/ps-document.c:873-879 | The orientation is that of the current page of a structured document, and never NONE: portrait stands in for none. |
| PsDocument.NewGeometry | ps/ps-document.c:910-925 | The geometry takes its box from the cascade. A landscape or seascape page takes its width from the box height and its height from the box width. |
| PsDocument.ComputeDimensions | ps/ps-document.c:861-943 | Past its guards, the new geometry is stored, and `changed` is raised exactly when a field differs. Nothing else changes, and the guards leave the state untouched. |
| PsDocument.ComputeDimensionsStable | ps/ps-document.c:930-942 | Computing the same page twice changes nothing the second time. |
| PsDocument.AbsolutePath | ps/ps-document.c:1016-1025 | A name starting with `/` is kept. Any other name is appended to the working directory with a `/`. The result ends with the name, and is absolute when the working directory is. |
| PsDocument.AbsolutePathIdempotent | ps/ps-document.c:1016-1025 | Making an absolute name absolute again changes nothing. |
| PsDocument.Cleanup | ps/ps-document.c:235-267 | The file names and the scanned document are dropped, the current page is reset to 0, and the document is marked not loaded. |
| PsDocument.DocumentLoad | ps/ps-document.c:996-1080 | A NULL name fails with an empty status. Reading from a pipe is set exactly for `-`, and that load succeeds without a scanned document. An unreadable file fails. On success the absolute name is stored, page 0 is current and the document is classified. On failure nothing is kept. |
| PsDocument.PagesAfterLoad | ps/ps-document.c:1196-1200 | After a successful load from a file the page count is at least 1. A pipe, or a failed load, reports -1. |
| PsDocument.SetPage | ps/ps-document.c:1204-1213 | As written, the current page becomes `page - 1`, but the dimensions are computed for index `page`. |
| PsDocument.GetPageAfterSetPage | ps/ps-document.c:1211-1222 | `get_page` after `set_page(p)` gives `p`. |
| PsDocument.SetPageLastPageStale | ps/ps-document.c:1211-1212 | As written, going to the last page never recomputes the geometry: the previous page's geometry and `changed` flag remain. |
| PsDocument.SetPageIntended | ps/ps-document.c:1204-1213 | With the index corrected, the current page becomes `page - 1`. |
| PsDocument.SetPageIntendedShowsPage | ps/ps-document.c:1211-1212 | With the index corrected, every page, the last included, gets its own bounding box and the current page's orientation, and `get_page` gives `page` back. |
| PsDocument.SendPs | ps/ps-document.c:313-349 | Without a pipe nothing happens. Otherwise the section joins the tail of the queue. It becomes the section being written, with `bytes_left = len`, only when the queue was empty. |
| PsDocument.SendAllFifo | ps/ps-document.c:334-348 | A series of sends queues the sections in call order, behind those already waiting, and leaves the section being written alone. |
| PsDocument.SendPsNotReady | ps/ps-document.c:430-433 | After a section is queued, the interpreter is not ready until the queue drains. |
| FileHelpers.CandidateInjective | libdocument/ev-file-helpers.c:140-145 | Two candidate names in one directory are equal only when their prefixes and counts are. |
| FileHelpers.TmpDir | libdocument/ev-file-helpers.c:79-96 | The directory is computed as `<tmp>/evince-<pid>` on first use, and cached. |
| FileHelpers.DotDir | libdocument/ev-file-helpers.c:60-76 | A cached directory is returned with nothing changed. Otherwise the returned directory becomes the cached one, and the temporary directory and the file counter are left alone. |
| FileHelpers.Shutdown | libdocument/ev-file-helpers.c:104-114 | Both cached directories are forgotten. The file counter is kept. |
| FileHelpers.TmpDirMemoised | libdocument/ev-file-helpers.c:79-114 | The temporary directory is the same on every call between shutdowns. After a shutdown it is computed afresh, with the same name. |
| FileHelpers.FirstFree | libdocument/ev-file-helpers.c:136-148 | The loop ends, at the first candidate from the counter on that does not exist. Every candidate it skipped exists. |
| FileHelpers.TmpFilename | libdocument/ev-file-helpers.c:131-151 | The name returned does not exist. It is the first free `<prefix or "document">-<count>` in the temporary directory, and the counter ends one past it. |
| FileHelpers.TmpFilenameFresh | libdocument/ev-file-helpers.c:140-142 | Two successive calls never return the same name, whatever the prefixes and the files in between. |
| FileHelpers.TmpFilenameUnlinkable | libdocument/ev-file-helpers.c:155-166 | Every name handed out by `ev_tmp_filename` passes the case-insensitive temp-directory check, so it may be deleted. |
| FileHelpers.TmpUriUnlink | libdocument/ev-file-helpers.c:187-203 | NULL does nothing. A non-native URI is refused without deleting. Only a native URI is deleted. |
| FileHelpers.XferUriSimple | libdocument/ev-file-helpers.c:206-233 | A NULL source fails without copying. Otherwise the result is that of the copy. |
| FileHelpers.CompressionRun | libdocument/ev-file-helpers.c:242-326 | The helper gives up, changing nothing, for no compression or a missing program. It spawns exactly when the program, the local file name and the temporary file all exist. It runs bzip2 for bzip2 and gzip otherwise, with `-c` to compress and `-cd` to decompress. It yields the temporary file's URI exactly when no error was reported. |
| FileHelpers.CompressionRunSymmetric | libdocument/ev-file-helpers.c:242-326 | Compressing and decompressing the same URI both give up or both spawn. They run the same program on the same file and return the same URI with the same helper state. Their command lines differ only in `-c` against `-cd`. |
| FileHelpers.CompressFile | libdocument/ev-file-helpers.c:328-346 | A NULL URI is refused, with nothing spawned and no state changed. |

## Left out

- The pixbuf cache and the job queue: their implementation is not part of this model; the viewer's calls into them are recorded as `Effect`s.
- PostScript interpreter process management: fork/exec, pipes, signals, X client messages and the byte-level write loop `input`.
  - `SendPs` models only the queue bookkeeping.
  - The interpreter's pid and busy flag are plain fields.
- The mutex/condition-variable pixbuf handoff of the PostScript backend: this is concurrency over process-wide globals.
- Floating point:
  - DPI and zoom rounding in `compute_dimensions` are the oracle functions `scaleX`/`scaleY`;
  - render and thumbnail sizes, zoom-to-fit and the find percentage text are not modelled;
  - zoom, scroll values and the adjustment increments are exact `real`s, so `0.1`, `0.9` and `1.0/1.2` are exact.
- Widget, painting, cursor, clipboard and signal code of the view.
- Poppler, GTK tree-model and GnomeVFS/GIO calls (outline tree, font model, attachments list, PostScript export, form get/set). These are uninterpreted functions or oracle parameters where a modelled operation depends on them.
- pixbuf/pixbuf-document.c and backend/ev-jobs.h are not part of this model.
- Real I/O in the file helpers: directory creation, `g_file_copy`, spawning and copying the pipe. Also left out: `ev_file_helpers_shutdown` removing the temporary directory with `g_rmdir`; `ev_dot_dir` calling `exit (1)` when it cannot create its directory; and the `g_assert` in `ev_tmp_dir` that the directory exists. The copy outcome is the `copy` parameter, and the spawn/copy error is `Tools.errorSet`.
- `check_filecompressed`: the decompression itself (mkstemp, `system`, the error file) is collapsed into `FileSystem.decompress`. The message passed to `interpreter_failed` is not modelled.
- Bit values of the flags: UI hints and permissions are sets of enum values, because the header values of the bits are not among the modelled files.
- PdfBackend.ConvertError: the Poppler message is passed to `g_set_error` as a printf format. The model copies it verbatim and does not model format directives in the message.
- PdfBackend.FontsProgress: requires a non-zero page count, because the C division by zero yields NaN or infinity, which is not modelled.
- View.Rubberband: event coordinates are `double`s truncated into a `GdkRectangle`. The model takes integer points.
- View.ScrollView: `gtk_adjustment_set_value`'s own clamping is not modelled.
- View.SetDocumentPage: `ev_document_get_page_size`, the cursor code and the disabled `#if 0` block have no effect and are not modelled.
- View.GetPage (`ev_view_get_page`) is modelled but carries no contract of its own: it only selects between the document's page and 1.
- The find cursor in the view is 1-based. The PDF backend's page index is 0-based. Each module keeps its own convention, and the two are not connected.
- FileHelpers.TmpFilename: `count` is a `gint` that could overflow after 2^31 names; the model uses an unbounded counter.
- FileHelpers.Join: `g_build_filename`'s collapsing of repeated separators is not modelled; a directory ending in `/` yields `//`.
- PsDocument.DocumentLoad: the model assumes that the scanner returns documents whose page table has one entry per page, and that a structured document has a page table (`FileSystemValid`).
- PsDocument.SendPs: `len` is an `unsigned int` in C; the model uses a natural number.
- PsDocument.GetNPages, PsDocument.GetPage and PsDocument.IsInterpreterReady carry no contract of their own. `PagesAfterLoad`, `GetPageAfterSetPage` and `SendPsNotReady` state their properties.
- The as-written layout is what `GetInfo` uses; the corrected mapping exists only as `LayoutFromPopplerIntended`.
- PdfFind.SearchStep: the document-mutex lock and unlock around `poppler_page_find_text` are not modelled; the same bracket is modelled for the jobs in `Jobs`. The `ev_document_find_changed` emission is not returned either; its receiving side is `View.JumpToFindPage`, which takes the page as a parameter.
- PsDocument.Cleanup: stopping the interpreter, the `fclose` of `gs_psfile` and the `unlink` of the decompressed copy are file-system and process effects and are not modelled. Only the fields that are cleared are.
- FileHelpers.TmpUriUnlink and FileHelpers.XferUriSimple have no partner lemma. Each only guards one file-system call, so its guard contract is its whole behaviour.
- PdfBackend.FontsScanIntended: the corrected counter stays at the page count after the end, so a later scan of the same document reads 1 from the start. The source's reset to 0 would restart it, and the corrected model does not restart.

## Findings

| source | as written | input that shows it | evidently intended | confidence | as-written member | corrected member |
|---|---|---|---|---|---|---|
| pdf/ev-poppler.cc:527 | The TWO_COLUMN_RIGHT case has no `break`, so it falls through and the layout becomes TWO_PAGE_LEFT | a document whose page layout is TwoColumnRight | TWO_COLUMN_RIGHT maps to EV_DOCUMENT_LAYOUT_TWO_COLUMN_RIGHT | high, not executed | PdfBackend.LayoutFallThrough | PdfBackend.LayoutIntendedBijective |
| pdf/ev-poppler.cc:1353-1356 | `pages_done = search_page - start_page + 1` while the cursor is past the start page; `n_pages` when it sits on the start page | 10 pages, search from page 0: after one page is searched the progress reads 2/10, and before any page it reads 10/10 | `pages_done` is the number of pages already searched; `FindProgressAsWritten` is the figure as written and `FindProgress` divides the corrected count | high, not executed | PdfFind.ProgressAsWrittenOvercounts | PdfFind.PagesDoneCountsSteps |
| pdf/ev-poppler.cc:688-696 | `fonts_scanned_pages` grows by the chunk asked for before Poppler answers, and is reset to 0 when Poppler reports the end | 45 pages in chunks of 20: if Poppler reports more after the chunk holding pages 41 to 45, progress reads 60/45; when it then reports the end, progress reads 0 | the counter counts pages actually scanned, capped at the page count, and progress reads 1 once the scan is complete; the counter is wrong, not the expectation | medium, not executed | PdfBackend.FontsProgressAsWrittenOverruns | PdfBackend.ScanAllIntendedInRange |
| ps/ps-document.c:1211-1212 | `set_page` stores `page - 1` but calls `compute_dimensions (gs, page)` with the 1-based number | `set_page(numpages)` on any document: the guard `numpages > page` fails and the previous page's geometry stays | `compute_dimensions (gs, gs->current_page)` | medium, not executed | PsDocument.SetPageLastPageStale | PsDocument.SetPageIntendedShowsPage |
