# FindCallsFrom and IL2CPPOutputFileAnalyzer, modelled in Dafny

Two small Unity editor analysis tools are modelled here.

**FindCallsFrom** reads the frames of a capture from the profiler into a trace
(`GetDataRaw`). For every thread of every frame it does the following:

- It rebuilds the depth of each sample from the "children still to come"
  stack.
- It drops samples with a negative duration, but their children counts still
  feed the stack. Only the first such sample of the run is logged.
- It caches each marker id's name index.
- It gives each thread a display name that is stable across frames. Within a
  frame, the name carries an occurrence index. Only threads met for the first
  time are counted, so a new thread can get the display name that a thread
  named in an earlier frame already holds in the same frame
  (`Ingest.MappedAndNewThreadCanShareName`). The model keeps this behaviour
  as the source has it; two threads named for the first time in one frame
  always get different names (`Ingest.NewThreadsGetDistinctNames`).

`PullFromProfiler` then does the following:

- It finds the index of the target marker name (`checkMarkerName`, by default
  `GC.Alloc`).
- It scans each thread with a map from depth to the latest marker at that
  depth.
- Each occurrence of the target counts its caller, the latest marker one level
  up.
- It writes one `"name", "count"` line per caller to `callinfo.csv`.

**IL2CPPOutputFileAnalyzer** reads every `*_CodeGen.c` file of a directory.
From each it takes two values:

- the module name, two lines below the `const Il2CppCodeGenModule` header;
- the method count, on the line just before the first later `s_methodPointers`
  line.

It writes one `"name", "count"` line per module to `moduleInfo.csv`.

The modules:

- `Text` (`text.dfy`) holds the .NET string operations used and the
  two-column CSV line with its parser and round trip.
- `Depth` (`depth.dfy`) specifies the depth stack. It proves that on the
  preorder-with-arity encoding of a forest, the reader gives every node its
  depth.
- `Capture` (`capture.dfy`) is the profiler's data as a value.
- `Profile` (`profile.dfy`) is the trace: a class with the name tables and
  the frames.
- `Ingest` (`ingest.dfy`) is `GetDataRaw`. Its methods are proved equal to
  the specification functions `Collect`, `ReadThread`, `ReadFrame` and
  `ReadFrames`, and the properties are lemmas about those functions.
- `Callers` (`callers.dfy`) is the scan, the counts, the report and the
  window class.
- `Il2Cpp` (`il2cpp.dfy`) is the line parser `ParsingFile`, proved equal to
  the function `Scan`, and the Analyze button.

Effects are data:

- A profiler capture is a `Capture` value.
- A file is a `SourceFile`: its path, whether it exists, and its lines as
  `ReadLine` returns them.
- `Debug.Log` lines are a `LogEntry` list.
- The text written to a CSV file is the `Option<string>` result of
  `PullFromProfiler` and `Analyze`; `None` means nothing is written.
- Exceptions thrown by `ParsingFile` are its `Crash` outcome.

## Model

| member | source | states |
|---|---|---|
| Text.TrimsToEmpty | FindCallsFrom.cs/Editor/FindCallsFrom.cs:207 | `name.Trim() == ""` holds exactly when every character of the name is whitespace |
| Text.ParseIntOfNatToString | IL2CPPOutputFileAnalyzer/IL2CPPOutputFileAnalyzer.cs:97 | `int.Parse` of the decimal rendering of a count up to 2^31-1 gives the count back |
| Text.CsvLineRoundTrip | FindCallsFrom.cs/Editor/FindCallsFrom.cs:117 | a `"a", "b"` CRLF line with quote-free fields parses back to its two fields and the rest of the text |
| Text.CsvReportRoundTrip | FindCallsFrom.cs/Editor/FindCallsFrom.cs:114-118 | the report built by appending one line per row parses back to exactly its rows, in order |
| Depth.Close | FindCallsFrom.cs/Editor/FindCallsFrom.cs:279-287 | the pop loop never grows the stack and keeps entries positive; every entry it pops had at most one child left, and it either empties the stack or stops at the topmost entry with more than one left, decrementing it and leaving everything below unchanged |
| Depth.Step | FindCallsFrom.cs/Editor/FindCallsFrom.cs:272-288 | a sample with children grows the stack by exactly one; a leaf never grows it; entries stay at least 1 |
| Depth.Run | FindCallsFrom.cs/Editor/FindCallsFrom.cs:253 | one depth per sample, the first being one more than the starting stack size, every depth at least 1 |
| Depth.Compose | FindCallsFrom.cs/Editor/FindCallsFrom.cs:233-288 | reading two runs of samples one after the other gives the stack and depths of reading them as one run |
| Depth.RunAt | FindCallsFrom.cs/Editor/FindCallsFrom.cs:253 | the depth of sample i is one more than the size of the stack left by the samples before it |
| Depth.ThreadStart | FindCallsFrom.cs/Editor/FindCallsFrom.cs:231-253 | with the stack cleared per thread, the first sample after the placeholder is at depth 1, and every stack entry stays at least 1 |
| Depth.DepthRisesByAtMostOne | FindCallsFrom.cs/Editor/FindCallsFrom.cs:272-288 | a sample is at most one level deeper than the sample before it |
| Depth.ExampleSiblings | FindCallsFrom.cs/Editor/FindCallsFrom.cs:272-288 | children counts [2,0,0] (a root and two leaves) give depths [1,2,2] |
| Depth.LeafClosesTwo | FindCallsFrom.cs/Editor/FindCallsFrom.cs:279-287 | under two open ancestors with one child left each, a leaf pops both, so the next sample is at depth 1 |
| Depth.ExampleClose | FindCallsFrom.cs/Editor/FindCallsFrom.cs:272-288 | children counts [1,1,0,0] give depths [1,2,3,1] |
| Depth.TreeRun | FindCallsFrom.cs/Editor/FindCallsFrom.cs:230-288 | reading a subtree's preorder-with-arity encoding gives every node its tree depth below the open ancestors and leaves the stack as one leaf would |
| Depth.ForestRun | FindCallsFrom.cs/Editor/FindCallsFrom.cs:230-288 | after a parent pushed its child count, reading its children gives them their depths and closes the parent |
| Depth.ThreadRun | FindCallsFrom.cs/Editor/FindCallsFrom.cs:230-288 | a thread whose samples encode a forest gets each marker's depth in that forest (top level 1) and ends with an empty stack |
| Capture.View | FindCallsFrom.cs/Editor/FindCallsFrom.cs:182 | the view past the last thread of a frame, or of a frame not captured, is invalid, which ends the thread loop |
| Capture.Body | FindCallsFrom.cs/Editor/FindCallsFrom.cs:233 | the samples read are exactly the samples after the first, the thread-name placeholder, in order |
| Profile.Intern | FindCallsFrom.cs/Editor/FindCallsFrom.cs:226 | a name already in the table gets its first index and leaves the table unchanged; a new name is appended and gets the next index; the table stays duplicate-free |
| Profile.InternStable | FindCallsFrom.cs/Editor/FindCallsFrom.cs:265 | interning the same name twice is interning it once, and names interned before keep their indices |
| Profile.AppendThread | FindCallsFrom.cs/Editor/FindCallsFrom.cs:228 | adding a thread changes only the last frame, whose thread list gains the thread at its end and whose timing is kept |
| Profile.ProfileData.constructor | FindCallsFrom.cs/Editor/FindCallsFrom.cs:164-165 | a new trace is empty and records the first frame index as its offset |
| Profile.ProfileData.AddMarkerName | FindCallsFrom.cs/Editor/FindCallsFrom.cs:265 | the marker-name table interns the name and returns its index, keeping the trace valid |
| Profile.ProfileData.AddThreadName | FindCallsFrom.cs/Editor/FindCallsFrom.cs:226 | the thread-name table interns the display name and returns its index, keeping the trace valid |
| Profile.ProfileData.Add | FindCallsFrom.cs/Editor/FindCallsFrom.cs:192 | the frame is appended after all earlier frames |
| Profile.ProfileData.AddThread | FindCallsFrom.cs/Editor/FindCallsFrom.cs:228 | the thread is appended to the last frame, nothing else changes, the trace stays valid |
| Ingest.ThreadNameWithIndexInjective | FindCallsFrom.cs/Editor/FindCallsFrom.cs:220 | different occurrence indices or composite names give different display names |
| Ingest.ResolveThreadName | FindCallsFrom.cs/Editor/FindCallsFrom.cs:198-223 | a mapped thread id keeps its display name and changes no table; an unmapped blank-named thread is skipped, and skipping happens in no other case; an unmapped named thread gets its composite name's next per-frame occurrence index and is added to the mapping |
| Ingest.NewThreadsGetDistinctNames | FindCallsFrom.cs/Editor/FindCallsFrom.cs:216-222 | within a frame, two threads named for the first time never get the same display name |
| Ingest.FirstInFrame | FindCallsFrom.cs/Editor/FindCallsFrom.cs:178 | an unmapped named thread whose composite name the per-frame counts do not hold yet (as after the reset) gets occurrence index 1 |
| Ingest.ReadThreadCountsGrow | FindCallsFrom.cs/Editor/FindCallsFrom.cs:216-218 | reading a thread never lowers a per-frame name count, the condition `NewThreadsGetDistinctNames` places on two threads of one frame |
| Ingest.MappedAndNewThreadCanShareName | FindCallsFrom.cs/Editor/FindCallsFrom.cs:178 | since only unmapped threads are counted, a new thread in a later frame can get the display name already held by a mapped thread of the same name |
| Ingest.ResolveMarker | FindCallsFrom.cs/Editor/FindCallsFrom.cs:256-267 | a cached marker id gives its cached index and changes nothing; an unseen id gets its name interned and cached; the cache only grows and stays valid |
| Ingest.Collect | FindCallsFrom.cs/Editor/FindCallsFrom.cs:233-288 | reading a thread only extends the cache and yields markers whose name indices and depths are in range |
| Ingest.DroppedSamplesKeepDepths | FindCallsFrom.cs/Editor/FindCallsFrom.cs:237-253 | the kept markers' depths are exactly the depths of the whole run of samples at the kept positions, as if no sample had been dropped |
| Ingest.NoDropAllDepths | FindCallsFrom.cs/Editor/FindCallsFrom.cs:253 | without negative durations the markers' depths are the samples' depths |
| Ingest.FirstKeptAtDepthOne | FindCallsFrom.cs/Editor/FindCallsFrom.cs:233-253 | when the first sample after the placeholder is kept, the thread's first marker is at depth 1 |
| Ingest.DroppedParentDeepensFirstKept | FindCallsFrom.cs/Editor/FindCallsFrom.cs:237-275 | a dropped first sample with children still pushes its count, so the first kept marker, its child, is at depth 2 |
| Ingest.MarkersNamedByCache | FindCallsFrom.cs/Editor/FindCallsFrom.cs:256-267 | every marker carries the name index that the final cache holds for its marker id |
| Ingest.SameIdSameIndex | FindCallsFrom.cs/Editor/FindCallsFrom.cs:256-267 | two markers with the same marker id, in two threads read one after the other, get the same name index |
| Ingest.ReadFramesExtendsCache | FindCallsFrom.cs/Editor/FindCallsFrom.cs:172-292 | across all frames and threads of a run the marker-name table only grows at its end and every cached marker id keeps its name index, so with `MarkersNamedByCache` one id has one index in the whole run |
| Ingest.CloseStack | FindCallsFrom.cs/Editor/FindCallsFrom.cs:279-287 | the pop loop computes `Close` |
| Ingest.MarkerNameIndex | FindCallsFrom.cs/Editor/FindCallsFrom.cs:257-267 | the lookup through `markerIdToNameIndex` and `AddMarkerName` updates the table and the cache as `ResolveMarker` says |
| Ingest.FeedAllSpec | FindCallsFrom.cs/Editor/FindCallsFrom.cs:233-288 | the sample loop from a cleared stack ends with the stack of `Replay`, the markers and cache of `Collect`, the flag lowered exactly when a negative duration was met, and the log line of the run's first negative duration only |
| Ingest.ReadSample | FindCallsFrom.cs/Editor/FindCallsFrom.cs:234-288 | one pass of the sample loop performs one `Feed` step on the stack, cache, markers, flag and log |
| Ingest.ReadSamples | FindCallsFrom.cs/Editor/FindCallsFrom.cs:231-289 | the sample loop of one thread yields `Collect`'s markers and cache, lowers the flag on a negative duration, and logs only a first error |
| Ingest.ReadThreadView | FindCallsFrom.cs/Editor/FindCallsFrom.cs:198-289 | one valid thread view updates the trace, the cache, the name tables, the flag and the log as `ReadThread` says: an unseen unnamed thread is logged and skipped, any other is named, read and appended to the last frame |
| Ingest.ReadFrameViews | FindCallsFrom.cs/Editor/FindCallsFrom.cs:175-292 | the thread loop of a frame adds the frame at thread 0, reads threads up to the first invalid view with fresh per-frame counts, and ends in the state `ReadFrame` gives |
| Ingest.GetDataRaw | FindCallsFrom.cs/Editor/FindCallsFrom.cs:159-300 | a fresh valid trace with the given offset whose tables, frames and log are those of `ReadFrames` over the range |
| Ingest.FrameCount | FindCallsFrom.cs/Editor/FindCallsFrom.cs:172-193 | the trace holds one frame per index of the range, captured or not |
| Ingest.ReadFramesLogsFirstErrorOnce | FindCallsFrom.cs/Editor/FindCallsFrom.cs:237-250 | reading frames keeps the invariant that the first-error flag is down exactly when one invalid-marker line was logged |
| Ingest.AtMostOneInvalidMarkerLine | FindCallsFrom.cs/Editor/FindCallsFrom.cs:162 | a whole run logs at most one invalid-marker-time line |
| Ingest.ReadThreadKeepsNames | FindCallsFrom.cs/Editor/FindCallsFrom.cs:198-223 | reading one thread only adds to the thread-id mapping, never changes an entry |
| Ingest.ThreadNamesAreStable | FindCallsFrom.cs/Editor/FindCallsFrom.cs:200-202 | once a thread id has a display name it keeps it in every later frame of the run |
| Callers.LastAt | FindCallsFrom.cs/Editor/FindCallsFrom.cs:84-91 | the marker `callHierarchy` holds for a depth is the latest marker of the thread at that depth (none after it at that depth), and no entry means no marker at that depth |
| Callers.Inc | FindCallsFrom.cs/Editor/FindCallsFrom.cs:98-106 | the caller's count goes up by one (from 0 when absent), the key set gains the caller, other counts are unchanged |
| Callers.TallyCounts | FindCallsFrom.cs/Editor/FindCallsFrom.cs:93-107 | from empty counts, the keys are exactly the callers found and each count is the number of occurrences attributed to that caller |
| Callers.SumTally | FindCallsFrom.cs/Editor/FindCallsFrom.cs:98-106 | the counts sum to the number of target occurrences that had a caller |
| Callers.CallersOfMissingTarget | FindCallsFrom.cs/Editor/FindCallsFrom.cs:93 | with a target index of -1 no marker matches and no caller is counted |
| Callers.CallersInRange | FindCallsFrom.cs/Editor/FindCallsFrom.cs:117 | on a well-formed trace every counted caller indexes the marker-name table |
| Callers.CallerExamples | FindCallsFrom.cs/Editor/FindCallsFrom.cs:93-107 | a target at depth 2 under a marker at depth 1 counts that marker; a target at depth 1 counts nothing |
| Callers.ReportRoundTrip | FindCallsFrom.cs/Editor/FindCallsFrom.cs:114-118 | the report reads back as exactly one row per `callCounts` entry, with no header, each holding the caller's name and its count |
| Callers.GetFrameRangeFromProfiler | FindCallsFrom.cs/Editor/FindCallsFrom.cs:126-142 | with a window, the first index is the driver's first made one-based, and the last is the driver's last made one-based, less one when the driver's first is below its last; without a window, frame 1 to 1 and false |
| Callers.PulledRange | FindCallsFrom.cs/Editor/FindCallsFrom.cs:55-57 | the range read starts at the driver's first frame and ends one frame past its last (two when it has at most one frame) |
| Callers.TargetIndex | FindCallsFrom.cs/Editor/FindCallsFrom.cs:59-69 | -1 exactly when the name is absent, otherwise the first position holding the name |
| Callers.FindCallsFromWindow.constructor | FindCallsFrom.cs/Editor/FindCallsFrom.cs:20-21 | the target is `GC.Alloc` and the counts are empty |
| Callers.FindCallsFromWindow.FindNameIndex | FindCallsFrom.cs/Editor/FindCallsFrom.cs:59-69 | the loop finds the first index of the target or -1, and its counter `curIndex` is never negative |
| Callers.FindCallsFromWindow.Visit | FindCallsFrom.cs/Editor/FindCallsFrom.cs:84-107 | one marker keeps `callHierarchy` equal to the latest marker per depth and adds to the counts exactly the caller `ThreadCallers` lists for it |
| Callers.FindCallsFromWindow.CountThread | FindCallsFrom.cs/Editor/FindCallsFrom.cs:81-110 | one thread's scan adds to the counts exactly the callers `ThreadCallers` lists |
| Callers.FindCallsFromWindow.CountCalls | FindCallsFrom.cs/Editor/FindCallsFrom.cs:76-112 | the scan of all threads of all frames adds exactly the callers `Callers` lists |
| Callers.FindCallsFromWindow.Report | FindCallsFrom.cs/Editor/FindCallsFrom.cs:114-118 | the output has one line per `callCounts` entry, each listed once, in the map's enumeration order |
| Callers.FindCallsFromWindow.CountAndReport | FindCallsFrom.cs/Editor/FindCallsFrom.cs:76-118 | from cleared counts: the counts are the callers' tally, every key indexes the name table, the output lists every entry once, and a target index of -1 gives an empty output |
| Callers.FindCallsFromWindow.ReadPulled | FindCallsFrom.cs/Editor/FindCallsFrom.cs:55-57 | the trace read is that of the window's range widened by one frame on each side, and its frames only index its tables |
| Callers.FindCallsFromWindow.PullFromProfiler | FindCallsFrom.cs/Editor/FindCallsFrom.cs:36-124 | without a window nothing is written; with one, the counts are the tally of the target's callers over the widened range, and `callinfo.csv` gets one line per counted caller; a target missing from the trace still writes an empty file |
| Callers.FindCallsFromWindow.PullFromProfilerIntended | FindCallsFrom.cs/Editor/FindCallsFrom.cs:71-74 | with the guard on `nameIndex`, a target missing from the trace writes nothing; otherwise as `PullFromProfiler` |
| Il2Cpp.CleanName | IL2CPPOutputFileAnalyzer/IL2CPPOutputFileAnalyzer.cs:93 | a cleaned module name contains no double quote |
| Text.RemoveAll | IL2CPPOutputFileAnalyzer/IL2CPPOutputFileAnalyzer.cs:93 | `Replace` with an empty string removes every occurrence of the character and keeps every other character as often as it occurred |
| Text.RemoveAllAppend | IL2CPPOutputFileAnalyzer/IL2CPPOutputFileAnalyzer.cs:93 | removal distributes over concatenation; with `RemoveAllSingle` (one character is dropped exactly when it is the removed one) this fixes the result: the other characters, in their original order |
| Il2Cpp.ParsingFile | IL2CPPOutputFileAnalyzer/IL2CPPOutputFileAnalyzer.cs:70-106 | the read loop computes `Scan` from the first line; a path not ending in `_CodeGen.c` gives null |
| Il2Cpp.ScanPlain | IL2CPPOutputFileAnalyzer/IL2CPPOutputFileAnalyzer.cs:81-101 | lines that neither start a header nor (once a name is set) hold `s_methodPointers` are only remembered as the previous line |
| Il2Cpp.NoHeaderNoModuleName | IL2CPPOutputFileAnalyzer/IL2CPPOutputFileAnalyzer.cs:77-102 | a file with no header line gives a module with no name and 0 methods |
| Il2Cpp.EmptyNameReadsNoCount | IL2CPPOutputFileAnalyzer/IL2CPPOutputFileAnalyzer.cs:95 | a header whose name cleans to "" does not enable the count, so the file gives that empty name and 0 methods |
| Il2Cpp.HeaderAtEndCrashes | IL2CPPOutputFileAnalyzer/IL2CPPOutputFileAnalyzer.cs:91-93 | a header with fewer than two lines after it throws |
| Il2Cpp.ScanThroughHeader | IL2CPPOutputFileAnalyzer/IL2CPPOutputFileAnalyzer.cs:89-101 | nothing is recorded before the first header; the header branch consumes three lines, sets the name to the second line after the header (trimmed, unquoted, comma-trimmed), and leaves that name line, not the header, as the previous line |
| Il2Cpp.ScanToPointers | IL2CPPOutputFileAnalyzer/IL2CPPOutputFileAnalyzer.cs:95-101 | once a non-empty name is set, parsing stops at the first later `s_methodPointers` line, with the count parsed from the line just before it; that is the remembered previous line when the stop comes first; a count that does not parse throws |
| Il2Cpp.LaterHeaderOverwritesName | IL2CPPOutputFileAnalyzer/IL2CPPOutputFileAnalyzer.cs:89-95 | a second header replaces the name, and a file without a `s_methodPointers` line keeps 0 methods |
| Il2Cpp.ScanNameQuoteFree | IL2CPPOutputFileAnalyzer/IL2CPPOutputFileAnalyzer.cs:93 | every parsed module name is free of double quotes |
| Il2Cpp.ScanCountBounded | IL2CPPOutputFileAnalyzer/IL2CPPOutputFileAnalyzer.cs:97 | every parsed method count fits in an `int` |
| Il2Cpp.BuildReport | IL2CPPOutputFileAnalyzer/IL2CPPOutputFileAnalyzer.cs:57-61 | the loop appends one line per module, in order |
| Il2Cpp.Analyze | IL2CPPOutputFileAnalyzer/IL2CPPOutputFileAnalyzer.cs:35-61 | nothing is written when the directory is missing, a file throws, or no module is found; otherwise the report of the modules in directory order |
| Il2Cpp.CrashIsFinal | IL2CPPOutputFileAnalyzer/IL2CPPOutputFileAnalyzer.cs:43-50 | once a file throws, the whole analysis fails whatever files follow |
| Il2Cpp.ReportRoundTrip | IL2CPPOutputFileAnalyzer/IL2CPPOutputFileAnalyzer.cs:52-61 | a written report reads back as one row per parsed module, in directory order, with its name (or "") and its method count |

## Left out

- The Unity editor UI is not modelled: window plumbing, menu items, the text fields that edit `checkMarkerName` and the directory path, progress bars and the `Stopwatch`. The reflection lookup of the profiler window is a boolean `profilerWindow` input.
- `ProfilerDriver` and `RawFrameDataView` are not part of this model. The profiler is a `Capture` value; a missing frame or thread is an invalid view.
- Sample durations and frame times are floating point in the source. Only the sign of a duration is kept; frame start time and frame time are opaque integers.
- `Debug.Log` output is the `LogEntry` list. It records the raw frame index where the source prints `OffsetToDisplayFrame(frameIndex)`, and it records neither the duration nor the message text.
- `ProfileData`, `ProfileFrame`, `ProfileThread`, `ProfileMarker`, `GetThreadNameWithGroup`, `ThreadNameWithIndex`, `OffsetToDisplayFrame` and `Finalise` are not part of this model:
  - The name tables are a duplicate-free interner.
  - The two naming helpers are stand-ins ("group.name" and "index:name").
  - Frames and threads are values appended when complete. The source adds them through shared references before filling them, and nothing reads them in between.
  - `Finalise` is not modelled.
- File and directory I/O are data:
  - `File.Exists` and `Directory.Exists` are booleans.
  - `Directory.GetFiles` is a list in enumeration order.
  - A file is the list of its lines.
  - The CSV output file is the returned text.
- `Text.Trim`: `string.Trim()` is modelled on the ASCII whitespace characters, not the full Unicode whitespace set. `StartsWith`/`EndsWith` are ordinal, not culture-sensitive.
- `Text.ParseInt`: `int.Parse` is modelled as optional surrounding whitespace around decimal digits whose value fits in an `int`. Signs, thousands separators and culture settings are not modelled. A count it rejects is modelled as the thrown exception, `Crash`.
- `Callers.Inc`: counts are unbounded naturals; a 32-bit overflow of a count is not modelled.
- `Callers.FindCallsFromWindow.Report`: the enumeration order of `callCounts` is left open. The ghost `order` records whichever order was used, and the contracts hold for every order.
- `Il2Cpp.ParsingFile`: the `line == null` test inside the loop is not modelled. While the stream is not at its end, `ReadLine` returns a line, so the test cannot succeed.
- The CSV output file is written on every run with a profiler window. That overwrite, and writer disposal, are not modelled beyond the returned text.

## Findings

| source | as written | input that shows it | evidently intended | confidence | as-written member | corrected member |
|---|---|---|---|---|---|---|
| FindCallsFrom.cs/Editor/FindCallsFrom.cs:71 | the "target not found" guard tests `curIndex`, which starts at 0 and only grows, so it never fires | any capture whose marker names do not include `checkMarkerName`: the run goes on, counts nothing and writes an empty `callinfo.csv` | test `nameIndex == -1` and return without writing a report | not executed | Callers.FindCallsFromWindow.PullFromProfiler | Callers.FindCallsFromWindow.PullFromProfilerIntended |
