# Verified model of the Spark-agnostic Airflow provider

A Dafny project that models the parts of the Overture Airflow provider whose correctness is hard to see, and proves what
they promise. `dafny verify dfyconfig.toml` checks it.

- **CSV results in the browser** (`CsvUtils`, `CsvRoundTrip`, `AthenaPreview`). A query result is one CSV file fetched in
  byte ranges. Each chunk is cut at its last safe line break and the rest is carried over. The loader shows what parsing the
  whole file would show, and the exact condition is proved for files that do not end in a line break. The parser is compared
  with a printer after section 2 of RFC 4180: the round trip holds exactly for rows that do not end in a quoted cell.
- **One writer per task instance** (`GlueRuns`, `GlueGuard`, `SingleWriter`, `RetryGuard`, `OperatorHooks`). A retried Glue
  task scans the run list of the job for runs an earlier try left behind, stops them, waits for their end and only then
  launches. The two loop-heavy functions are methods against a service whose run history moves on at every call; the whole
  protocol is a transition system with any number of task instances. The key that runs are stamped with is the digest of a
  JSON text, which is proved to identify the task instance.
- **Geometry decoding** (`Wkb`, `WkbRoundTrip`, `WkbLimits`, `WkbHex`, `MapUtils`). The recursive reader of section 8 of OGC
  06-103r4 with the EWKB flags against an encoder, its memory bound on arbitrary bytes, and the marker position against the
  box of the map.
- **Failures** (`Failures`), **worker sizing** and the poll budget (`Sizing`), the **bundle tree** (`S3Tree`), racing
  **asset uploads** (`RunnerAssets`) and the **wheel cache** (`WheelNames`, `WheelCache`).

`Wrappers` and `Texts` hold the option type and a few questions about strings.

Where the source loops or updates state, the model is a method or a class whose contract ties it to a specification
function; the properties are proved about those functions. The platforms (Glue, S3, the Databricks workspace, Airflow's
XCom) are state with small contracts: what they answer, refuse or do on their own is given by functions, so each theorem
holds for all such behaviours.

## What was found

Each of these is proved, with the exact condition where there is one.

- A first chunk that ends inside an open quote is parsed as if the quote ended there, and the end of the file is never parsed
  (`AthenaPreview.UnbrokenTable`, `AthenaPreview.OpenQuoteLosesText`).
- The marker of a geometry collection is the origin, which may lie off the map (`MapUtils.AverageInsideBounds`,
  `MapUtils.CollectionMarkerOutside`).
- A CSV row whose last cell is quoted comes back with an extra empty field (`CsvRoundTrip.RoundTripExact`).
- A result whose first part holds nothing but line breaks is shown as empty, whatever follows
  (`AthenaPreview.LoadedNothing`, `AthenaPreview.StreamingRefinesWholeParse`).
- The last line of a result that needed a second chunk is never shown unless a line break ends it
  (`AthenaPreview.StreamingExact`).
- The second chance for the base type of a geometry never finds one (`WkbRoundTrip.NoBaseTypeInThousands`).
- EWKB geometries with Z alone or M alone, and no SRID, are read with the wrong stride (`WkbRoundTrip.TypeWordRead`); ISO
  Z, M and ZM codes, which the comment in the source mentions, are rejected (`WkbRoundTrip.IsoCodesRejected`).
- The single-writer guard fails when a scan is cut short by the page cap (`SingleWriter.NeverSafeWhenCrowded`), which the
  source logs as a warning.
- The key is called collision-free; the canonical text is not over strings with lone surrogates
  (`RetryGuard.SurrogatesCollide`, `RetryGuard.CanonicalCollides`).
- A run is launched and yet retried exactly if its early XCom cannot be pushed (`OperatorHooks.Execute`,
  `OperatorHooks.LaunchedYetRetried`).
- The poll budget is one attempt short for a waiter that polls at once (`Sizing.MaxAttemptsIsLeast`).
- The `_truncated` flag misses a cut listing that holds the object named like the prefix (`S3Tree.TruncatedExactly`).
- The native wheel of a package requested with `~=`, `!=`, a marker or a URL is dropped (`WheelCache.RequestedWheelGoesToPip`,
  `WheelCache.TildeDropsTheWheel`).
- A requirement for pip can be listed twice (`WheelCache.PipRepeatsExactly`, `WheelCache.NativeTwice`), and the job runner
  wheel that is returned may be gone (`WheelCache.RunnerIsThere`).

## Model

| member | source | states |
|---|---|---|
| CsvUtils.SplitCsvLines | src/overture_airflow_provider/plugins/bundle_inspector/static/bundle_inspector/csv-utils.js:44-71 | The scanner loop returns `Rows(text)`: the fields of the non-empty lines of a quote-parity automaton that reads one character at a time (no escaped-quote skip, no look-ahead) |
| CsvUtils.LineEnd | src/overture_airflow_provider/plugins/bundle_inspector/static/bundle_inspector/csv-utils.js:51-64 | The inner loop stops exactly where the automaton completes the line, quote open or not |
| CsvUtils.SplitCsvRow | src/overture_airflow_provider/plugins/bundle_inspector/static/bundle_inspector/csv-utils.js:6-40 | The splitter loop returns `Fields(line)`, a recursion over the line |
| CsvUtils.ReadQuoted | src/overture_airflow_provider/plugins/bundle_inspector/static/bundle_inspector/csv-utils.js:12-26 | The loop over a quoted field returns its unescaped value and stops after its closing quote or at the end |
| CsvUtils.ParseCsv | src/overture_airflow_provider/plugins/bundle_inspector/static/bundle_inspector/csv-utils.js:74-78 | Columns and rows together are all rows of the text; a text without rows gives neither |
| CsvUtils.FeedQuoted | src/overture_airflow_provider/plugins/bundle_inspector/static/bundle_inspector/csv-utils.js:44-71 | The quote flag of the automaton is the parity of all quotes read |
| CsvUtils.RowsConcat | src/overture_airflow_provider/plugins/bundle_inspector/static/bundle_inspector/csv-utils.js:44-71 | Parsing distributes over concatenation after any unquoted CR or LF |
| CsvUtils.NoRows | src/overture_airflow_provider/plugins/bundle_inspector/static/bundle_inspector/csv-utils.js:44-71 | A text has no rows exactly if it holds nothing but CR and LF |
| CsvRoundTrip.ParsePrinted | src/overture_airflow_provider/plugins/bundle_inspector/static/bundle_inspector/csv-utils.js:6-71 | What parsing a printed table returns, for every table that section 2 of RFC 4180 lets one print: rows that print as nothing are dropped, rows whose last cell is quoted get one trailing empty field, all else comes back |
| CsvRoundTrip.RoundTripExact | src/overture_airflow_provider/plugins/bundle_inspector/static/bundle_inspector/csv-utils.js:6-71 | Parsing inverts printing exactly if every row prints as something and ends in a bare cell |
| CsvRoundTrip.LastQuotedCellGrowsTheRow | src/overture_airflow_provider/plugins/bundle_inspector/static/bundle_inspector/csv-utils.js:6-40 | Concrete family: a row of one quoted cell comes back with two fields |
| AthenaPreview.FindSafeBreak | src/overture_airflow_provider/plugins/bundle_inspector/static/bundle_inspector/components/athena-preview.js:91-113 | The loop, with its escaped-quote skip and CR look-ahead, returns `LastSafeBreak(text)` |
| AthenaPreview.LastSafeBreakIsLast | src/overture_airflow_provider/plugins/bundle_inspector/static/bundle_inspector/components/athena-preview.js:91-113 | That is the largest index of an LF preceded by an even number of quotes, or -1 |
| AthenaPreview.LastSafeBreakConcat | src/overture_airflow_provider/plugins/bundle_inspector/static/bundle_inspector/components/athena-preview.js:91-113 | After a text that ends in a safe break, the last safe break of the rest is the last of the whole |
| AthenaPreview.CutIsUnique | src/overture_airflow_provider/plugins/bundle_inspector/static/bundle_inspector/components/athena-preview.js:527-545 | There is one way to cut a text into a part that ends in a safe break and a rest without one: the loader's |
| AthenaPreview.CutCarriedOver | src/overture_airflow_provider/plugins/bundle_inspector/static/bundle_inspector/components/athena-preview.js:427-457 | Cutting the remainder together with the next chunk cuts the whole text read so far, and the rows of the parts add up |
| AthenaPreview.ResultLoader.RunQuery | src/overture_airflow_provider/plugins/bundle_inspector/static/bundle_inspector/components/athena-preview.js:459-574 | Whole new state of the loader after the first chunk, with its branches for no break, whole file, no rows and failed fetch, and whether the button that loads more is there |
| AthenaPreview.ResultLoader.LoadMore | src/overture_airflow_provider/plugins/bundle_inspector/static/bundle_inspector/components/athena-preview.js:427-457 | Whole new state after one more click, with its branches for no button, nothing left, no break and failed fetch, which takes the button away |
| AthenaPreview.NothingLost | src/overture_airflow_provider/plugins/bundle_inspector/static/bundle_inspector/components/athena-preview.js:427-555 | After every fetch, the text parsed so far followed by `remainder` is the text fetched so far, the byte count is its length, and the table is the rows of the parsed part |
| AthenaPreview.LoadedNothing | src/overture_airflow_provider/plugins/bundle_inspector/static/bundle_inspector/components/athena-preview.js:548-552 | A first part without rows ends the loading: the table stays empty and the button away, whatever follows in the file |
| AthenaPreview.StreamingRefinesWholeParse | src/overture_airflow_provider/plugins/bundle_inspector/static/bundle_inspector/components/athena-preview.js:427-574 | For a file that ends in an unquoted LF, cut into any chunks, the first with a safe break or the whole file: header and rows are those of the whole file if and only if the first part has a row or the file has none; if it has one, nothing is left over |
| AthenaPreview.StreamingExact | src/overture_airflow_provider/plugins/bundle_inspector/static/bundle_inspector/components/athena-preview.js:427-574 | For any file so cut: the rows are right if and only if the file came in one chunk, or has no rows, or its first part has a row and only CR characters follow its last safe break |
| AthenaPreview.UnbrokenFirstChunkExact | src/overture_airflow_provider/plugins/bundle_inspector/static/bundle_inspector/components/athena-preview.js:527-574 | First chunk without a safe break and without an open quote: the rows are right if and only if it has a row and ends at a row boundary, or the file has none |
| AthenaPreview.UnbrokenTable | src/overture_airflow_provider/plugins/bundle_inspector/static/bundle_inspector/components/athena-preview.js:527-574 | Any first chunk without a safe break, be a quote open or not: the table is the rows of that chunk by itself, then the rows of the rest of the file parsed as if it began there, up to its last safe break seen from there; what follows is left over |
| AthenaPreview.OpenQuoteLosesText | src/overture_airflow_provider/plugins/bundle_inspector/static/bundle_inspector/components/athena-preview.js:527-574 | If that chunk leaves a quote open and the file ends in an unquoted LF, an end of the file that holds an odd number of quotes is never parsed |
| AthenaPreview.CutExact | src/overture_airflow_provider/plugins/bundle_inspector/static/bundle_inspector/components/athena-preview.js:527-545 | Outside quotes, parsing distributes over a cut if and only if the cut is at a row boundary |
| AthenaPreview.CutInsideRow | src/overture_airflow_provider/plugins/bundle_inspector/static/bundle_inspector/components/athena-preview.js:527-545 | A cut inside a row makes one row too many |
| Wkb.ReadGeometry | src/overture_airflow_provider/plugins/bundle_inspector/static/bundle_inspector/wkb.js:20-48 | The recursive dispatch, its readers looping, returns `Decode`: the geometry and the offset after it, or an error |
| Wkb.ReadCoordArray | src/overture_airflow_provider/plugins/bundle_inspector/static/bundle_inspector/wkb.js:61-71 | The loop returns `CoordArray` |
| Wkb.ReadPolygon | src/overture_airflow_provider/plugins/bundle_inspector/static/bundle_inspector/wkb.js:78-88 | The loop returns the rings of `Rings` |
| Wkb.ReadMulti | src/overture_airflow_provider/plugins/bundle_inspector/static/bundle_inspector/wkb.js:90-100 | The loop returns the coordinates of the decoded parts and the offset after the last |
| Wkb.ReadGeometryCollection | src/overture_airflow_provider/plugins/bundle_inspector/static/bundle_inspector/wkb.js:102-112 | The loop returns the decoded parts and the offset after the last |
| WkbRoundTrip.Uint32Layout | src/overture_airflow_provider/plugins/bundle_inspector/static/bundle_inspector/wkb.js:21-25 | Which byte counts for what in a 32-bit word, for both byte orders |
| WkbRoundTrip.Float64Layout | src/overture_airflow_provider/plugins/bundle_inspector/static/bundle_inspector/wkb.js:50-54 | Which byte of the buffer is which of a double, for both byte orders |
| WkbRoundTrip.ByteOrders | src/overture_airflow_provider/plugins/bundle_inspector/static/bundle_inspector/wkb.js:21-22 | A node is little-endian exactly if its first byte is 1 |
| WkbRoundTrip.RoundTrip | src/overture_airflow_provider/plugins/bundle_inspector/static/bundle_inspector/wkb.js:20-112 | Decoding an encoding that stands anywhere in a buffer returns the geometry and the offset after the encoding: all seven kinds, any nesting, each node with its own byte order, SRID and (where the decoder tells them) Z and M. The encoder writes each byte of words and doubles, each flag and the coordinates of parts by itself, with nothing of the decoder's |
| WkbRoundTrip.RoundTripParts | src/overture_airflow_provider/plugins/bundle_inspector/static/bundle_inspector/wkb.js:90-112 | The same for any number of encodings in a row |
| WkbRoundTrip.TypeWordRead | src/overture_airflow_provider/plugins/bundle_inspector/static/bundle_inspector/wkb.js:24-36 | Base type and SRID flag of every EWKB type word are read right; the stride is right if and only if the layout is not Z alone or M alone without SRID |
| WkbRoundTrip.UnrecognisedStride | src/overture_airflow_provider/plugins/bundle_inspector/static/bundle_inspector/wkb.js:28-33 | In the layouts left the thousands digit test fires on the flag value: stride 32 where 24 was written |
| WkbLimits.LineEndsWhereWritten | src/overture_airflow_provider/plugins/bundle_inspector/static/bundle_inspector/wkb.js:20-76 | Consequence: a non-empty line string is read to where it ends if and only if its layout is recognised |
| WkbLimits.PointEndsWhereWritten | src/overture_airflow_provider/plugins/bundle_inspector/static/bundle_inspector/wkb.js:20-59 | A point is read to where it ends if and only if its layout is recognised |
| WkbLimits.RingEndsWhereWritten | src/overture_airflow_provider/plugins/bundle_inspector/static/bundle_inspector/wkb.js:20-88 | A polygon of one ring is read to where it ends if and only if its layout is recognised or the ring is empty |
| WkbRoundTrip.IsoCodesRejected | src/overture_airflow_provider/plugins/bundle_inspector/static/bundle_inspector/wkb.js:28-47 | Every ISO type code for Z, M or ZM is an error |
| WkbRoundTrip.IsoDimensionsRead | src/overture_airflow_provider/plugins/bundle_inspector/static/bundle_inspector/wkb.js:29-31 | although their dimensions, and so the stride, are read right |
| WkbRoundTrip.NoBaseTypeInThousands | src/overture_airflow_provider/plugins/bundle_inspector/static/bundle_inspector/wkb.js:33 | The second chance for the base type, the type word modulo 1000, never finds one |
| Wkb.PositionsForward | src/overture_airflow_provider/plugins/bundle_inspector/static/bundle_inspector/wkb.js:61-71 | As many positions as counted, one stride apart |
| WkbLimits.GeometryFits | src/overture_airflow_provider/plugins/bundle_inspector/static/bundle_inspector/wkb.js:20-112 | Any bytes: five plus sixteen times the number of decoded vertices never exceeds the bytes read, nor the bytes there are |
| WkbLimits.PlanarEndsInside | src/overture_airflow_provider/plugins/bundle_inspector/static/bundle_inspector/wkb.js:20-112 | Any bytes whose type words are 2D: success leaves the offset strictly advanced and inside the buffer |
| WkbLimits.FlatIsPlanar | src/overture_airflow_provider/plugins/bundle_inspector/static/bundle_inspector/wkb.js:20-112 | Every encoding without Z and M, nested to any depth, is such a geometry |
| WkbLimits.VerticesAreCounted | src/overture_airflow_provider/plugins/bundle_inspector/static/bundle_inspector/wkb.js:73-76 | The vertices counted for a line string are those that were written |
| WkbHex.ParseWkbHex | src/overture_airflow_provider/plugins/bundle_inspector/static/bundle_inspector/wkb.js:5-18 | The loop over hex pairs and the catch-all: the geometry at the start of the bytes, or null |
| WkbHex.HexRoundTrip | src/overture_airflow_provider/plugins/bundle_inspector/static/bundle_inspector/wkb.js:5-18 | Any spelling of an encoding with the sixteen digits in either case, with white space before any of its characters and any text after it, decodes to the geometry |
| WkbHex.DigitsExactly | src/overture_airflow_provider/plugins/bundle_inspector/static/bundle_inspector/wkb.js:10 | The digits and their values, against the two alphabets |
| WkbHex.OddPairs | src/overture_airflow_provider/plugins/bundle_inspector/static/bundle_inspector/wkb.js:10 | What `parseInt` makes of two characters that are not both digits |
| WkbHex.SpacesExactly | src/overture_airflow_provider/plugins/bundle_inspector/static/bundle_inspector/wkb.js:7 | The code points that are stripped |
| MapUtils.CollectBounds | src/overture_airflow_provider/plugins/bundle_inspector/static/bundle_inspector/map-utils.js:39-56 | The nested loops per type, for coordinates of any shape: exceptions where a loop cannot iterate, and the map library's own answer for an argument that is no position |
| MapUtils.WellTypedBounds | src/overture_airflow_provider/plugins/bundle_inspector/static/bundle_inspector/map-utils.js:39-56 | If the coordinates fit the type, the bounds are extended by exactly the vertices of the geometry, whatever the library does with other arguments |
| MapUtils.VertexAverage | src/overture_airflow_provider/plugins/bundle_inspector/static/bundle_inspector/wkb.js:145-152 | The generic recursive walk returns the mean of the same vertices, or the origin when there are none; it throws exactly on an `undefined` inside |
| MapUtils.AverageInsideBounds | src/overture_airflow_provider/plugins/bundle_inspector/static/bundle_inspector/wkb.js:145-152 | For any geometry with a vertex: the bounds that `collectBounds` builds exist and hold the marker, whatever the map library does with an argument that is no position, if and only if the coordinates fit their type and, for a collection, whose marker is the origin, the origin happens to lie among its parts |
| MapUtils.MarkersInsideFeatureBounds | src/overture_airflow_provider/plugins/bundle_inspector/static/bundle_inspector/map-utils.js:59-64 | For any features: the bounds the map is fitted to exist and hold the marker of every feature but collections and those without a vertex, whatever the library does, if and only if the coordinates of all features fit their types |
| MapUtils.TooDeepNoBounds | src/overture_airflow_provider/plugins/bundle_inspector/static/bundle_inspector/map-utils.js:39-56 | Concrete input: a multi-point with coordinates one level too deep has a vertex and no bounds, with a library that lets it pass |
| MapUtils.FlatCoordinates | src/overture_airflow_provider/plugins/bundle_inspector/static/bundle_inspector/map-utils.js:39-56 | Concrete input: a position where an array of positions should be hands its two numbers to the library, or throws one level further down |
| MapUtils.CollectionMarkerOutside | src/overture_airflow_provider/plugins/bundle_inspector/static/bundle_inspector/wkb.js:145-152 | Concrete input: a collection of one point away from the origin has its marker outside its bounds |
| GlueRuns.FindActiveGlueRuns | src/overture_airflow_provider/_glue.py:442-489 | Against a run history that changes at every call: the scan read pages until one ended the list or held a run older than the cutoff, or up to the page cap; the cap is reported exactly if it read that many pages and none of them did; what is returned are exactly the runs with the key that are starting, running, stopping or waiting on these pages before the first old run; unless the cap was hit the scan reached the oldest run or one before the cutoff |
| GlueRuns.ScanPage | src/overture_airflow_provider/_glue.py:470-478 | The loop over one page stops at the first run that started before the cutoff |
| GlueRuns.ScanFindsTheLive | src/overture_airflow_provider/_glue.py:442-489 | After a finished scan every run with the key that has not ended now was found, unless an old run hides it |
| GlueRuns.ScanFindsOnlyTheKey | src/overture_airflow_provider/_glue.py:474-478 | Only runs with the key are found |
| GlueRuns.AllMatches | src/overture_airflow_provider/_glue.py:38-478 | What counts as active, state by state: of the runs looked at, exactly those with the key that are starting, running, stopping or waiting |
| GlueRuns.ScanIsFilter | src/overture_airflow_provider/_glue.py:442-489 | On a history that stands still a scan that stopped early equals the filter of the whole history if and only if no live run with the key is left below |
| GlueRuns.PagedScanIsFilter | src/overture_airflow_provider/_glue.py:442-489 | and it does for a newest-first history without live runs older than the cutoff, however it is cut into pages |
| GlueGuard.ToStopExactly | src/overture_airflow_provider/_glue.py:541 | The ids to stop are exactly those of the runs found that were not seen stopping already |
| GlueGuard.StopInBatches | src/overture_airflow_provider/_glue.py:541-559 | The requests hold at most 25 ids each and concatenate to exactly the ids to stop, all reported ids having been asked for and ended; or to a part of them, when a reported run answered that it is active, and is |
| GlueGuard.ExamineErrors | src/overture_airflow_provider/_glue.py:545-559 | Every reported run is asked for once, in order, up to the first that answers with an active state: either all answered that they had ended, and have, or the refusal names that run and that state |
| GlueGuard.AwaitEnd | src/overture_airflow_provider/_glue.py:561-581 | Normal end: the last answer of every run was that it had ended, and it has. Otherwise the deadline has passed, every run was asked for, and the pending runs named are exactly those whose last answer was an active state, each given after the last sleep. The number of sleeps is bounded by timeout and interval |
| GlueGuard.StopStaleGlueRuns | src/overture_airflow_provider/_glue.py:492-581 | Normal return: the ids found on the pages that were read, each of them an ended run now, exactly the non-STOPPING ones asked to stop, and every run of the task instance ended but behind an old run, unless all pages up to the cap were read and the list went on. It raises only for a reported run that answered that it has not ended, before any wait, or after the timeout for exactly the runs whose last answer was so |
| GlueGuard.SubmitGlueJob | src/overture_airflow_provider/_glue.py:676-705 | For a job that exists all that the guard is to do is done before the launch, and the launch is all that follows; a failure of the guard is raised and launches nothing; without a job or a key only the launch happens |
| GlueGuard.OneWriterAfterLaunch | src/overture_airflow_provider/_glue.py:676-705 | After a launch whose scan was not cut off, if all runs of the task instance older than the lookback have ended, all of them but the new one have |
| SingleWriter.SingleWriterExactly | src/overture_airflow_provider/_glue.py:492-732 | All interleavings of tries, crashes, clears, cancels, other writers, run progress and time, pages of any length: of any two runs of a task instance one has ended, in every reachable state, if and only if no run outlives the lookback, as long as no scan is cut short by the page cap |
| SingleWriter.OrderlyIsCalm | src/overture_airflow_provider/_glue.py:464-489 | No scan is cut short if pages are full and no more runs than the page cap are younger than the cutoff when it begins |
| SingleWriter.NeverSafeWhenCrowded | src/overture_airflow_provider/_glue.py:464-489 | Without that bound there is a run of the system with two writers for every configuration: the scan gives up after the page cap and the submit goes on |
| SingleWriter.LongRunTwoWriters | src/overture_airflow_provider/_glue.py:460-473 | The run of the system in which a run that outlives the lookback is overlooked |
| SingleWriter.StepKeeps | src/overture_airflow_provider/_glue.py:492-732 | Every one of the twelve steps keeps the invariant |
| SingleWriter.RetryStops | src/overture_airflow_provider/_glue.py:442-559 | For every configuration: a retry finds the run of the first try and asks it to stop |
| SingleWriter.RetryReplaces | src/overture_airflow_provider/_glue.py:561-705 | and, when that run has ended, launches and records one of its own |
| SingleWriter.CancelStops | src/overture_airflow_provider/_operator.py:306-332 | A cancel stops the recorded run |
| SingleWriter.AllAskedBeforePolling | src/overture_airflow_provider/_glue.py:541-561 | Whatever others do meanwhile: when polling begins, exactly the runs that the scan did not see stopping have been asked to stop, and all that it found are waited for |
| SingleWriter.PollSeesOneEnded | src/overture_airflow_provider/_glue.py:561-581 | A poll that goes on has seen one run ended, and the launch waits for all of them |
| SingleWriter.PageIsTheGuards | src/overture_airflow_provider/_glue.py:470-478 | A page step of the system collects what the loops of the guard make of the same page |
| SingleWriter.FullPagePossible | src/overture_airflow_provider/_glue.py:464-470 | A scan can always go on with a full page, or the last one |
| SingleWriter.PageKeepsPhase | src/overture_airflow_provider/_glue.py:464-489 | A page read between arbitrary other steps keeps what the scan knows, and a scan that ends has found every live run |
| SingleWriter.PhaseLater | src/overture_airflow_provider/_glue.py:492-732 | What a try knows in its phase survives everything that does not launch a run of its task instance |
| SingleWriter.ReachedOwned | src/overture_airflow_provider/_glue.py:442-732 | In every reachable state, with no condition on page cap or lookback: whatever a try has found, is to stop, waits for or has launched, and whatever is recorded for it, are runs with its key |
| SingleWriter.StepIsolation | src/overture_airflow_provider/_glue.py:476-581 | In every reachable state, crowded and overlong runs or not, no step of one task instance changes a run without its key, nor the phase or record of another, and what it adds to the list carries its key |
| RetryGuard.CanonicalRoundTrip | src/overture_airflow_provider/_retry_guard.py:97-101 | A reader for section 7 of RFC 8259 recovers the identity from the canonical JSON, its strings as UTF-16 |
| RetryGuard.CanonicalCollides | src/overture_airflow_provider/_retry_guard.py:97-101 | Over all Python strings: the texts are the same if and only if the ids agree in UTF-16 and the map indices agree |
| RetryGuard.CanonicalInjective | src/overture_airflow_provider/_retry_guard.py:75-101 | Over strings of Unicode scalar values: the texts are the same if and only if the identities are |
| RetryGuard.SurrogatesCollide | src/overture_airflow_provider/_retry_guard.py:97-101 | Concrete collision outside them: a character and its two surrogates one by one |
| RetryGuard.EscapeIsAscii | src/overture_airflow_provider/_retry_guard.py:100 | The escaped text is printable ASCII |
| RetryGuard.EscapeExactly | src/overture_airflow_provider/_retry_guard.py:100 | The seven short escapes; all other printable characters as they are, the rest in hexadecimal digits |
| RetryGuard.SurrogatesAreHalves | src/overture_airflow_provider/_retry_guard.py:100 | The surrogates are the halves of the characters outside the basic plane |
| RetryGuard.KeyIdentifies | src/overture_airflow_provider/_retry_guard.py:45-101 | For contexts with three string ids and a map index: with a digest that tells their texts apart, two of them have the same key exactly if all four attributes are the same |
| RetryGuard.KeyFallbacks | src/overture_airflow_provider/_retry_guard.py:56-62 | A missing map index counts as -1; a missing run id as that of the DAG run, or, where that is missing, empty or otherwise false, as that of the context |
| RetryGuard.NoKeyExactly | src/overture_airflow_provider/_retry_guard.py:51-69 | There is no key exactly if there is no task instance or an attribute, after these fallbacks, is not of its type |
| RetryGuard.StopPathStaysWithin | src/overture_airflow_provider/_glue.py:476-581 | With such a digest nothing that a try of one task instance does, in any reachable state, changes a run stamped for another |
| OperatorHooks.Execute | src/overture_airflow_provider/_operator.py:161-215 | A deferred task did all that the guard is to do, launched one run, the newest, and recorded it unless that push raises; a failure of the guard has launched nothing; a launched run is retried if and only if its early XCom cannot be pushed; every failure of `execute` on Glue is retryable |
| OperatorHooks.LaunchedYetRetried | src/overture_airflow_provider/_operator.py:192-206 | It does happen: the first run of a job, when no XCom can be pushed |
| OperatorHooks.CancelRecordedRun | src/overture_airflow_provider/_operator.py:306-332 | One stop request for exactly the recorded run, or none |
| Failures.CompleteGlueJob | src/overture_airflow_provider/_glue.py:841-889 | A run that did no work raises the retryable failure, any other that did not succeed a plain one, each naming the run, its error and its output |
| Failures.ResumeFailed | src/overture_airflow_provider/_operator.py:246-287 | The `__fail__` path with its five exception arms comes to `Resumed` |
| Failures.ResumeEscapes | src/overture_airflow_provider/_operator.py:246-287 | Any traceback and error, any answer of Glue and any run: what escapes is retryable if and only if the run that the text tells of is known, did not succeed, has a capacity message and no execution time; else it is non-retryable, or an error of the final XCom push of a run that succeeded |
| Failures.ResumeNamesTheRun | src/overture_airflow_provider/_operator.py:223-287 | A failed run is named in what escapes, with its own error and its output; a failure of the trigger is told as such, without a run |
| Failures.RunStateFoundAnywhere | src/overture_airflow_provider/_operator.py:255-258 | The run state is found in the error as well as in any line of the traceback |
| Failures.RetryableExactly | src/overture_airflow_provider/_failures.py:193-225 | A failure is retryable exactly if it is not the trigger's and capacity kept the run from starting, or nothing was launched without an error of the platform |
| Failures.RunIdIsTold | src/overture_airflow_provider/_operator.py:249-258 | The run that is looked up is the first run id in the traceback lines and the error, or in `Trigger failed` if there is none, and only if a run state stands somewhere in them |
| Sizing.CalculateInstances | src/overture_airflow_provider/cluster_sizing.py:326-387 | Both loops return the first type, in catalog order, of least count or of least distance to the desired workers; the three input errors; neither the fall through nor the last error can happen |
| Sizing.RequiredIsLeast | src/overture_airflow_provider/cluster_sizing.py:363-366 | The count is the least that reaches the floor and has the desired cores |
| Sizing.RequiredMeets | src/overture_airflow_provider/cluster_sizing.py:363-368 | The cores are always met, and one worker fewer falls short unless the floor binds |
| Sizing.NoneCloser | src/overture_airflow_provider/cluster_sizing.py:361-373 | With desired workers, no type has a count closer to them, on either side, and none before the chosen one has one as close |
| Sizing.FewWorkersDesired | src/overture_airflow_provider/cluster_sizing.py:361-382 | When no more workers are desired than the floor, both loops choose the same type |
| Sizing.CountMonotone | src/overture_airflow_provider/cluster_sizing.py:375-382 | Without desired workers the count is monotone in the cores |
| Sizing.NotMonotoneWithWorkers | src/overture_airflow_provider/cluster_sizing.py:361-373 | With desired workers it is not: a concrete catalog |
| Sizing.GlueFromDesiredCores | src/overture_airflow_provider/_glue.py:347-350 | Glue's default of one worker asks for the fewest; at least two workers of one of Glue's four types, with the desired cores and not one too many |
| Sizing.LookbackIsLeast | src/overture_airflow_provider/_glue.py:423-428 | A scan overlooks no run that keeps to its queue wait and timeout if and only if it looks back at least the lookback |
| Sizing.MaxAttemptsIsLeast | src/overture_airflow_provider/_glue.py:431-439 | A poll budget outlasts every such run if and only if it is at least the computed number of attempts, for a waiter that waits before its first poll, and at least one more for one that polls at once |
| S3Tree.ListTree | src/overture_airflow_provider/plugins/bundle_inspector/s3.py:145-201 | The loops over listing and keys return the trimmed tree of the build, the key count and the truncation flag |
| S3Tree.BuildAt | src/overture_airflow_provider/plugins/bundle_inspector/s3.py:173-184 | Told from the texts of the keys: a directory is in the tree exactly if some key begins with its names, each followed by a slash, and its files are what such keys have after that, where it is not empty and holds no slash, in listing order |
| S3Tree.BuildConserves | src/overture_airflow_provider/plugins/bundle_inspector/s3.py:173-184 | The rejoined paths of the tree are, as a multiset, the keys that do not end in a slash |
| S3Tree.KeptAreSmallest | src/overture_airflow_provider/plugins/bundle_inspector/s3.py:190-195 | A directory keeps its smallest names in order, the rest is what is dropped, nothing is lost |
| S3Tree.TreeAt | src/overture_airflow_provider/plugins/bundle_inspector/s3.py:186-198 | In the trimmed tree every such directory is where it was, with the smallest of its own files, the number of those omitted, and its directories in order of their names |
| S3Tree.TreeTotals | src/overture_airflow_provider/plugins/bundle_inspector/s3.py:186-198 | Kept and omitted files over the whole tree are as many as the keys that do not end in a slash |
| S3Tree.JoinSplit | src/overture_airflow_provider/plugins/bundle_inspector/s3.py:176 | Joining the parts of a key gives the key |
| S3Tree.SplitExactly | src/overture_airflow_provider/plugins/bundle_inspector/s3.py:176 | The parts are the one way to write a key as names without slashes, joined |
| S3Tree.LeqExactly | src/overture_airflow_provider/plugins/bundle_inspector/s3.py:190-195 | The order of the names: where two first differ decides, and a name comes after its beginnings |
| S3Tree.KeptSize | src/overture_airflow_provider/plugins/bundle_inspector/s3.py:190-195 | How many files a directory keeps: as many as allowed, or, for a negative bound, all but so many |
| S3Tree.TruncatedExactly | src/overture_airflow_provider/plugins/bundle_inspector/s3.py:162-200 | The flag is raised if and only if the listing is full and does not hold the object named like the prefix: beside that object a cut listing passes for a whole one |
| RunnerAssets.PathCarriesHash | src/overture_airflow_provider/runner_assets.py:274-294 | A workspace path belongs to one asset, one folder and one hash |
| RunnerAssets.TrimSlashesExactly | src/overture_airflow_provider/runner_assets.py:294 | `rstrip` cuts the slashes at the end, all of them and nothing else |
| RunnerAssets.FolderOfPath | src/overture_airflow_provider/runner_assets.py:371 | The folder that is made is the path up to its last slash |
| RunnerAssets.UploadAssets | src/overture_airflow_provider/runner_assets.py:351-382 | While others write: it raises if and only if one of its own calls failed, so losing the race is no failure; what is returned is in the workspace with the hash of the task's own file, nothing is overwritten, only paths of its own assets are created, and nothing is imported into a folder that was not made |
| RunnerAssets.RaceIsSafe | src/overture_airflow_provider/runner_assets.py:324-382 | All interleavings of any number of tasks: no object is overwritten, no path is created twice, every task that returned finds its paths holding its hash |
| RunnerAssets.RunsAreBounded | src/overture_airflow_provider/runner_assets.py:355-380 | and every such run ends after at most three calls per asset and task |
| RunnerAssets.ReturnedWhenDone | src/overture_airflow_provider/runner_assets.py:355-382 | A task returns exactly when all its assets are behind it |
| RunnerAssets.NeverStuck | src/overture_airflow_provider/runner_assets.py:355-382 | and until then it can always make its next call, whatever the others did |
| RunnerAssets.FailedCall | src/overture_airflow_provider/runner_assets.py:355-380 | A failed import may have created the object; any other failed call did nothing |
| WheelCache.Cache.Sort | src/overture_airflow_provider/spark_agnostic_helpers.py:154-217 | The loop sorts the files into cached, to upload, left to pip, dropped and kept on disk; it fails if and only if a wheel that ships cannot be looked up |
| WheelCache.Cache.DownloadAndCache | src/overture_airflow_provider/spark_agnostic_helpers.py:97-234 | It raises if and only if some wheel that ships cannot be looked up, or is missing from the store and cannot be uploaded. Told from the file names: a pure wheel that no substring forces is returned, once, and no other; a forced one and a native one that was requested are listed for pip; a file stays on disk exactly if it is no wheel, or ships and is new to the store or the job runner. Cached wheels come first; the store gains exactly the shipped ones, also when a call fails only some of them; forced packages leave the caller's list |
| WheelCache.RouteOfWheel | src/overture_airflow_provider/spark_agnostic_helpers.py:169-228 | Where a wheel named after PEP 427 goes, told from its name, the requests and the substrings |
| WheelCache.UnrequestedLeavesNoTrace | src/overture_airflow_provider/spark_agnostic_helpers.py:169-183 | A native wheel that nobody requested changes neither what is shipped nor what is left to pip |
| WheelCache.TakeForced | src/overture_airflow_provider/spark_agnostic_helpers.py:126-129 | The two loops at the start, `list.remove` included, leave the unforced packages in order |
| WheelCache.PackagesSplit | src/overture_airflow_provider/spark_agnostic_helpers.py:126-129 | Every package is in one of the two lists as often as given, in the forced one exactly if one of the substrings stands in its name |
| WheelNames.PureExactly | src/overture_airflow_provider/spark_agnostic_helpers.py:64-73 | A wheel is pure exactly if `-none-any.whl` stands somewhere in its name, in any case |
| WheelNames.ForcedExactly | src/overture_airflow_provider/spark_agnostic_helpers.py:91-95 | A name is forced exactly if one of the substrings stands in it |
| WheelNames.LowerAt | src/overture_airflow_provider/spark_agnostic_helpers.py:144 | `lower`, letter by letter |
| WheelNames.HyphensAt | src/overture_airflow_provider/spark_agnostic_helpers.py:85 | The underscores become hyphens and nothing else changes |
| WheelNames.TrimmedExactly | src/overture_airflow_provider/spark_agnostic_helpers.py:135-144 | White space around a name is dropped, and nothing else |
| WheelNames.SpacesExactly | src/overture_airflow_provider/spark_agnostic_helpers.py:142 | The code points that `strip` takes for white space |
| Texts.ContainsExactly | src/overture_airflow_provider/spark_agnostic_helpers.py:93 | `in` on strings, told by positions |
| WheelNames.CutSixIsUncut | src/overture_airflow_provider/spark_agnostic_helpers.py:135-143 | The six cuts together leave the text before the first `<`, `>`, `[` or `==` |
| WheelNames.RequestedNameExactly | src/overture_airflow_provider/spark_agnostic_helpers.py:131-144 | For all requirement texts: the requested name is the one the text starts with, normalised, if and only if nothing but white space stands before the first of these marks |
| WheelNames.OtherQualifiers | src/overture_airflow_provider/spark_agnostic_helpers.py:135-143 | So it is not with `~=`, `!=`, a marker or a URL |
| WheelNames.ParseWheelBack | src/overture_airflow_provider/spark_agnostic_helpers.py:75-89 | A file name built after PEP 427 gives back its name and version |
| WheelCache.RequestedWheelGoesToPip | src/overture_airflow_provider/spark_agnostic_helpers.py:131-183 | A native wheel of a requested package goes to pip in the downloaded version if and only if nothing but white space stands between the name and the first such mark; else it is dropped |
| WheelCache.TildeDropsTheWheel | src/overture_airflow_provider/spark_agnostic_helpers.py:131-183 | Concrete input: `numba~=0.59` loses its native wheel |
| WheelCache.SecondRunUploadsNothing | src/overture_airflow_provider/spark_agnostic_helpers.py:202-228 | The same wheels again upload nothing and return the same wheels |
| WheelCache.OnlyPureUploaded | src/overture_airflow_provider/spark_agnostic_helpers.py:169-200 | No native wheel and none forced through pip is ever uploaded, not even by a run that fails on the way |
| WheelCache.PipCovers | src/overture_airflow_provider/spark_agnostic_helpers.py:169-200 | Every native wheel of a requested package and every forced wheel is left to pip, and nothing else is |
| WheelCache.PipRepeats | src/overture_airflow_provider/spark_agnostic_helpers.py:169-200 | A requirement is listed twice if and only if the forced ones repeat, or a native wheel comes whose requirement is listed and whose bare name is not |
| WheelCache.PipRepeatsExactly | src/overture_airflow_provider/spark_agnostic_helpers.py:169-200 | The same told from the files alone: some native wheel of a requested package comes after a file or forced package that asks for the same requirement, while nobody asks for its bare name |
| WheelCache.NativeTwice | src/overture_airflow_provider/spark_agnostic_helpers.py:169-183 | Concrete input: the wheels of `numba==0.59.0` for two platforms |
| WheelCache.RunnerIsThere | src/overture_airflow_provider/spark_agnostic_helpers.py:158-165 | The job runner wheel that is returned is still on disk if and only if it ships |

## Left out

- AthenaPreview.StreamingExact: one character stands for one byte; a chunk that cuts a multi-byte UTF-8 character is decoded wrongly by the source and is outside the claim.
- AthenaPreview.UnbrokenFirstChunkExact: for a first chunk that ends inside an open quote there is no such condition; `AthenaPreview.UnbrokenTable` and `AthenaPreview.OpenQuoteLosesText` say what is shown then and what is lost.
- AthenaPreview.ResultLoader.RunQuery: the Athena query itself, error texts and tables of the page are not part of this model, and neither are errors while a table or map is drawn.
- WkbRoundTrip.RoundTrip: doubles are opaque groups of eight bytes; `NaN` payloads and number formatting are not modelled.
- WkbLimits.RingEndsWhereWritten: polygons of one ring; with more rings, the count of a later one is read from the middle of a vertex, so that the end can come out right by accident.
- MapUtils.CollectBounds: coordinates are reals; the range check of the map library is not modelled, and neither is a geometry that is null. `detectGeometryColumn` is left out.
- GlueRuns.GlueClient.BatchStopJobRun: the ids it reports are among those it was asked to stop; exceptions of the Glue API itself are not modelled.
- GlueGuard.AwaitEnd: pending runs are polled in the order found instead of sorted by id; the poll interval is positive.
- GlueGuard.SubmitGlueJob: Glue does not turn down a launch; building the job arguments, the Scala placeholder, tags and console links are left out.
- SingleWriter.SingleWriterExactly: a launch takes effect when it is made, so a request still under way when its try dies is not covered, nor is a zombie worker that in truth lives on, nor a job that is deleted and created again. Run ids are positions in the run list. One stop request and the look at its errors may interleave with anything, but a refused run is modelled by the try ending or by the run ending, not by its error code. It is a safety property; that a retry succeeds in the end depends on Glue.
- RetryGuard.KeyIdentifies: SHA-256 is a function that is assumed to tell the two texts apart; attribute accesses that raise are left out.
- OperatorHooks.CancelRecordedRun: `on_kill` and `_cancel_run_then_delegate`, which call it from other places, are left out.
- OperatorHooks.Execute: Glue only; Databricks and Wherobots have no scan before the submit. The recorded run is the slot's value, not its JSON text.
- Failures.ResumeEscapes: the two regular expressions are parameters, and Glue's client raises no exception of Airflow's. Output tails are not cut to their last 2000 characters. `execute_complete`, hints and message texts are left out, as are exceptions that are not `Exception`.
- Sizing.MaxAttemptsIsLeast: exact arithmetic; the source divides floating point numbers. The waiter of the Amazon provider is not part of this model.
- WheelCache.PipRepeatsExactly: file names without `=`, as PEP 427 has them; `WheelCache.PipRepeats` holds for all.
- Sizing.CalculateInstances: core counts that are booleans are not told from integers. Cluster size tables and Wherobots ranges are left out.
- S3Tree.ListTree: directories are values in insertion order, not dicts updated in place through references. `list_prefix` and the level filters are left out.
- RunnerAssets.RaceIsSafe: Databricks only; the S3 upload of runners checks and then overwrites, with the same content for the same hash.
- WheelCache.Cache.DownloadAndCache: upper and lower case are those of ASCII; the comma-joined string is a list; the download itself and the JAR cache are left out.
- Airflow, DAG and TaskGroup wiring, version tables, report links, MapLibre and FastAPI code are not part of this model.
