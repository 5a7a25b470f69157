# otlprobe core, modelled in Dafny

otlprobe is a terminal OpenTelemetry receiver. It accepts OTLP logs, metrics and
traces over gRPC and HTTP and flattens every leaf record into one `Signal`. A
Signal carries a one-line summary and labelled property lists. Signals go into
a fixed-size history buffer, and a dashboard shows them newest first. On the
dashboard a cursor selects a row and a filter narrows and highlights the rows;
a popup lists the selected Signal's properties. With `-non-interactive` the
program prints the matching Signals instead.

This project models the following, as pure functions over immutable data:

- `wrappers.dfy` (`Wrappers`): `Option` and `Result`.
- `text.dfy` (`Text`): the Go string helpers the program relies on. These are
  substring search, ASCII lower-casing, splitting on one separator, Go's
  string order, `unicode.IsControl` and decimal rendering. Each comes with a
  reference definition or a round-trip lemma.
- `sorting.dfy` (`Sorting`): the insertion sort that `sort.Slice` runs on
  short lists, for any comparator. It proves:
  - the result is a permutation;
  - no two neighbours are out of order;
  - the sort changes nothing on a list already in that state;
  - for a strict weak order, the result is sorted.
- `props.dfy` (`Props`): `PropsContainer`, its `add*` helpers and `get` with
  its case-insensitive, dot-segment key comparator.
- `bucket.dfy` (`Bucket`): `Signal` and `BucketFixedSize`.
- `pdata.dfy` (`Pdata`): the decoded OTLP trees, keeping only the fields the
  normaliser reads.
- `sever.dfy` (`Sever`): `processLogs`, `processMetrics` and `processTraces`.
  Sending on the channel is modelled as appending to the output sequence.
- `keys.dfy`, `popup.dfy`, `bowser.dfy` and `highlight.dfy` (`Keys`, `Popup`,
  `Dashboard`, `Highlight`): the dashboard as a state machine:
  - key handling and Signal admission;
  - the popup's geometry, line list and text fill;
  - the highlight mask of a row.
- `cli.dfy` (`Cli`): the rules of `main`: port selection, the
  non-interactive printout and when the event loop quits.
- `bucket_test.dfy` and `props_test.dfy`: the repository's unit-test
  scenarios, proved.

Two behaviours of the code shape the model:

- A visible popup gets every key first, Escape included (bowser.go:167-173).
  Escape therefore closes the popup before it can stop editing or stop
  following.
- All data points of one histogram share one "Metric" list: each point
  appends its flag to it (sever.go:205). Once the payload has been
  processed, every Signal of that histogram shows all the flags. The model
  describes the lists as they look after `processMetrics` returns.

## Model

| member | source | states |
|---|---|---|
| Bucket.New | bucket.go:35-39 | A new buffer has the given capacity, nothing held and a zero counter. |
| Bucket.Get | bucket.go:60-65 | `get(i)` finds a Signal exactly when `i` is below the number held. |
| Bucket.Append | bucket.go:41-50 | After an append, the new Signal is the most recent. The length grows by one, stopping at the capacity. The counter grows by one. The capacity stays. |
| Bucket.AppendShifts | bucket.go:41-50 | Every Signal already held moves one place further back. |
| Bucket.Clear | bucket.go:52-54 | Clearing empties the buffer but keeps the capacity and the append counter. |
| Bucket.AppendAllNewest | bucket.go:41-50 | After any sequence of appends, the buffer holds the newest `size` items of its old contents followed by the appended ones. The counter counts every append. |
| Bucket.LenAfterAppends | bucket.go:41-58 | The length after appends is the old length plus the number appended, capped at the capacity. |
| Bucket.GetRecent | bucket.go:41-65 | After appends into an empty buffer, `get(i)` is the `i`-th most recent append while `i` is within both the history and the capacity, and nothing beyond that. |
| Bucket.ClearActsNew | bucket.go:35-54 | A cleared buffer holds the same contents as a new one after the same appends. Only its counter remembers the past. |
| Bucket.FullAppendDropsOldest | bucket.go:43-45 | Appending to a full buffer drops exactly the oldest Signal and keeps the order of the rest. |
| BucketTest.FirstAppendThenClear | bucket_test.go:10-30 | The test's first phase: one append gives length 1, the Signal at 0 and nothing at 1; clearing gives length 0. |
| BucketTest.TenIntoFive | bucket_test.go:32-47 | The test's second phase: ten appends into the cleared buffer of five leave five Signals, the tenth at 0 and the sixth at 4. |
| Props.NewProps | props.go:30-34 | A new list has the given label and no pairs. |
| Props.Add | props.go:46-48 | `addString` appends one pair at the end and leaves the label and every earlier pair untouched. |
| Props.AddMap | props.go:36-44 | `addMap` appends one pair per attribute, in map order. The key is `prefix.key`, or the bare key for an empty prefix. The value is the attribute's text. |
| Props.RenderedValuesRoundTrip | props.go:50-68 | The stored texts of `addBool` and `addUInt32` read back to the typed value. For `addTimestamp`, the text is "N/A" exactly for the zero timestamp whenever the time's rendering is not itself "N/A", and any other text is the rendering. |
| Props.KeyLessStrictPartialOrder | props.go:71-82 | The comparator is irreflexive, asymmetric and transitive. Two keys whose segment lists are prefixes of one another compare equal. |
| Props.NegativelyTransitive | props.go:71-82 | On keys with no prefix relation between their segment lists, comparing equal is transitive. |
| Props.PrefixFreeWeakOrder | props.go:71-82 | On keys none of whose segment lists is a prefix of another's, the comparator is a strict weak order. |
| Props.Get | props.go:70-85 | `get` returns as many pairs as are stored. |
| Props.GetPermutes | props.go:70-85 | `get` returns a permutation of the stored pairs. |
| Props.AddThenGet | props.go:46-85 | A pair that has been added is among the pairs `get` returns, together with all the earlier ones. |
| Props.GetLocallySorted | props.go:70-85 | No two neighbours in `get`'s result are out of order under the comparator. |
| Props.GetIdempotent | props.go:70-85 | Sorting `get`'s result again changes nothing. `get` sorts the container in place, so later calls see exactly what the first call returned. |
| Props.GetSortedWhenPrefixFree | props.go:70-85 | When no key's segment list is a prefix of another's, `get` returns the pairs fully sorted. |
| Sorting.SortByPermutes | props.go:71-83 | The insertion sort returns a permutation of its input. |
| Sorting.SortLocallySorted | props.go:71-83 | With an asymmetric comparator, no two neighbours of the result are out of order. |
| Sorting.SortKeepsLocallySorted | props.go:71-83 | A list with no neighbours out of order is left exactly as it is. |
| Sorting.SortSorted | props.go:71-83 | With a strict weak order, the result is sorted. |
| Sorting.SortIdempotent | props.go:71-83 | With an asymmetric comparator, sorting a sorted result again changes nothing. |
| Text.Split | props.go:72-73 | `strings.Split` on one separator gives at least one part. No part holds the separator, and joining the parts gives back the text. |
| Text.SplitJoin | props.go:72-73 | Splitting undoes joining when no part holds the separator. |
| Text.ToLower | props.go:72-73 | Lower-casing keeps the length and lower-cases each letter. |
| Text.StrLessTransitive | props.go:79 | Go's string `<` is transitive. |
| Text.StrLessTotal | props.go:79 | Go's string `<` orders any two different strings. |
| Text.Index | bowser.go:83 | `strings.Index` returns -1 or the first position where the text occurs. |
| Text.IndexFindsContains | main.go:48 | `strings.Index` finds a position exactly when `strings.Contains` holds. |
| Text.ContainsEmpty | bowser.go:55 | The empty filter occurs in every text, and only the empty filter occurs in the empty text. |
| Text.DecimalRoundTrip | props.go:58-60 | The `%d` rendering of a natural number reads back to that number. |
| Text.IntRoundTrip | sever.go:158-159 | The `%v` rendering of an integer is well-formed and reads back to that integer. |
| PropsTest.ResourceListContents | props_test.go:21-26 | The test's "resource" list holds its pairs in insertion order with the rendered values. |
| PropsTest.ResourceListOrder | props_test.go:38-48 | `get` on the "resource" list returns the order the test expects. |
| PropsTest.LocListContents | props_test.go:28-36 | The test's "signal" list holds its pairs in insertion order with the rendered values. |
| PropsTest.LocListOrder | props_test.go:50-63 | `get` on the "signal" list returns the order the test expects. `sort.test.a.c.a` stays before `sort.test.a.c` because the two compare equal. |
| PropsTest.MixedCaseExample | props.go:71-82 | Keys `b.a`, `B.c`, `a` come back as `a`, `b.a`, `B.c`, because case is ignored. |
| PropsTest.IncomparabilityNotTransitive | props.go:74-82 | With `a` between `a.b` and `a.c`, comparing equal is not transitive, so the comparator is not a strict weak order. |
| PropsTest.PrefixKeysMayStayUnsorted | props.go:71-83 | `get` leaves `a.c`, `a`, `a.b` as they are, although `a.b` sorts before `a.c`. |
| Sever.ResourceProps | sever.go:131-133 | The "Resource" list holds the attributes under `Attributes.`, in order, then the dropped-attribute count in decimal. |
| Sever.ScopeProps | sever.go:137-138 | The "Scope" list holds the scope name alone. |
| Sever.Walk | sever.go:128-140 | The nested resource, scope and leaf loops visit the leaves in payload order. The output is the concatenation of every leaf's Signals. |
| Sever.RecordProps | sever.go:268-277 | The "Record" list is labelled `Record` and holds eight pairs beyond the attributes. |
| Sever.RecordPropsLayout | sever.go:268-277 | The "Record" list holds the attributes, then both timestamps ("N/A" for zero), the ids, the sampled flag, the severity and the body text, in that order. |
| Sever.LogSignal | sever.go:278-283 | A log Signal is stamped with the record's time. Its summary is `severity: body`. Its lists are Record, Scope, Resource. |
| Sever.ProcessLogs | sever.go:253-288 | `processLogs` sends exactly one Signal per log record, in payload order. The `i`-th Signal is the one built from the `i`-th record. |
| Sever.MetricProps | sever.go:142-146 | The "Metric" list holds type, name, unit and description, in that order. |
| Sever.ValueTextReadsBack | sever.go:157-162 | The text stored for an integer value is a decimal integer that reads back to the value. |
| Sever.ToUInt32 | sever.go:155 | Go's `uint32(n)` keeps every count below 2^32. |
| Sever.PointProps | sever.go:152-164 | The "DataPoint" list is labelled `DataPoint` and holds three pairs beyond the attributes, four for Gauge points. |
| Sever.PointPropsLayout | sever.go:152-164 | The "DataPoint" list starts with the no-recorded-value flag. Gauge points then carry the exemplar count. Then come the attributes, and the list ends with the value and its type. |
| Sever.SumMetricProps | sever.go:174-175 | A Sum's "Metric" list is the common four pairs, then temporality and monotonicity. |
| Sever.AddFlags | sever.go:205 | Each histogram point appends its flag to the shared list, in point order, after the pairs already there. |
| Sever.MetricSignals | sever.go:148-220 | A metric yields one Signal per Gauge, Sum or Histogram data point and none otherwise. Each Signal is a metric Signal with Scope and Resource as its last two lists. |
| Sever.GaugeSignal | sever.go:149-172 | A Gauge point's Signal has the point's time and the summary `name=value`. Its lists are DataPoint (with the exemplar count), Metric, Scope, Resource. |
| Sever.SumSignal | sever.go:173-197 | A Sum point's Signal has the summary `name=value [dump]`. Its DataPoint list has no exemplar count, and its Metric list ends with temporality and monotonicity. |
| Sever.HistogramSignal | sever.go:198-213 | A Histogram point's Signal has the summary `name=HISTOGRAM` and lists Metric, Scope, Resource. The Metric list ends with one flag per point of the histogram. |
| Sever.GaugeCpu | sever.go:149-172 | A Gauge `cpu` whose point holds the integer 42 gives a Signal summarised `cpu=42`. |
| Sever.SumCpu | sever.go:173-192 | A Sum `cpu` whose point holds a double rendered `1.5` gives a summary that starts `cpu=1.5`. |
| Sever.OtherMetricsSilent | sever.go:214-219 | Exponential histograms, summaries and empty metrics yield no Signal. |
| Sever.MetricSignalsCount | sever.go:140-220 | Over a payload, the number of metric Signals equals the number of Gauge, Sum and Histogram data points. |
| Sever.ProcessMetrics | sever.go:127-225 | `processMetrics` sends the Signals of every metric in payload order, one per data point. |
| Sever.SpanSignal | sever.go:330-338 | A span Signal is stamped with the start time. Its lists are Span (the attributes), Scope, Resource. |
| Sever.ProcessTraces | sever.go:316-343 | `processTraces` sends exactly one Signal per span, in payload order. |
| Sever.SpanSummaryEndsWithEvents | sever.go:335 | A span summary ends with `, ` and the event count, which reads back. |
| Popup.Margin | popup.go:38-51 | The margin is 5% of the dimension rounded down, at least 2, and 0 when 2 does not fit. |
| Popup.Center | popup.go:36-56 | The frame sits one margin in from every edge. On any screen at least 2 wide (or high), the frame leaves two cells on each side. Contents and visibility stay. |
| Popup.NewPopUp | popup.go:20-28 | A new popup is hidden, empty and centred. |
| Popup.Show | popup.go:30-34 | `show` stores the lists, makes the popup visible and leaves the frame where it is. |
| Popup.ResizeAsWritten | popup.go:58-65 | As written, the corner moves to `size - 5` exactly when the new size differs from `x1 - 5` or `y1 - 5`. |
| Popup.Resize | popup.go:58-65 | As intended, the far corner always moves to `size - 5`, and nothing else changes. |
| Popup.ResizeAgrees | popup.go:58-65 | The two agree unless the old corner lies exactly five cells past the new size. |
| Popup.ResizeAsWrittenStale | popup.go:58-65 | A popup centred on 100x50 and resized to 90x43 keeps its corner at column 95 as written, but moves to 85 as intended. |
| Popup.EventKey | popup.go:123-131 | Escape, and only Escape, is consumed and hides the popup. Any other key changes nothing. |
| Popup.SectionLines | popup.go:89-96 | One list's lines are its name after a plus sign, one `key: value` line per pair (after a vertical bar) and a blank line. |
| Popup.Lines | popup.go:88-97 | The line list starts with an empty line and has two lines per list plus one per pair. |
| Popup.SectionsAt | popup.go:89-97 | Each list's lines come right after the lines of the lists before it. |
| Popup.LinesAt | popup.go:88-97 | Line `1 + offset` names list `i`, and the `j` lines after it show the `j`-th pair `get` returns. |
| Popup.Inner | popup.go:100-101 | The text area's width is the number of cells strictly inside the frame. |
| Popup.Piece | popup.go:103-107 | A row shows `w` bytes of the line from the current byte, padded with spaces. |
| Popup.FillRow | popup.go:101-113 | The cell loop writes the next bytes of the current line and then spaces. It reports `lf` exactly when the line ran out in this row. |
| Popup.Fill | popup.go:99-119 | The row loop writes the rows of the text area top to bottom. A row in which the line ran out moves on to the next line. |
| Popup.FullLineTakesTwoRows | popup.go:104-118 | A line exactly as wide as the text area takes its row and then a blank row. |
| Popup.FillLayout | popup.go:99-119 | The fill lays every line out in `w`-byte pieces, each line ending with a short or empty piece. It is clipped or padded with blank rows to the height. |
| Popup.Refresh | popup.go:67-121 | A hidden popup draws nothing. A visible one fills its text area with the laid-out line list. |
| Dashboard.NewBrowser | bowser.go:32-49 | A new dashboard is following, with no selection, not editing, the given filter and a hidden popup. |
| Dashboard.Receive | bowser.go:51-62 | An arriving Signal is appended exactly when the dashboard is following and the filter matches. Otherwise nothing changes. |
| Dashboard.AdmitsWithoutDescription | bowser.go:54-55 | For Signals without a description, admission means following and a filter that is empty or occurs in the summary. |
| Dashboard.AdmissionExample | bowser.go:54-57 | While following, a Signal summarised `X` is admitted under the empty filter and under `X`, and refused under `Y`. |
| Dashboard.EventKey | bowser.go:165-240 | The key branches in order: the popup first, then Down, Up, `F`, Escape, `/`, Enter, Backspace, then a printable character. Each states its new state and whether the key was consumed. The cursor stays between -1 and the range. Outside editing the filter never changes. |
| Dashboard.Press | bowser.go:165-240 | Any number of presses keep the state valid, the buffer and the screen size. |
| Dashboard.UpRepeatedly | bowser.go:184-196 | Pressing Up `n` times moves the cursor `n` rows, stopping at the lower of the oldest held and the top of the view. |
| Dashboard.CursorClamp | bowser.go:184-196 | With three Signals held, Up stops at row 2 on a 10-row view and at row 1 on a 2-row view. |
| Dashboard.Resize | bowser.go:67-75 | A resize records the new size and passes it to the popup's `resize` as the code has it (popup.go:58-65). Nothing else changes. |
| Dashboard.ResizeMovesPopup | bowser.go:67-75 | After a resize, the popup's corner sits five cells in from the new edges, except exactly when it lay five cells past them. |
| Highlight.Occurrences | bowser.go:82-99 | The search finds only real occurrences at or after its start, left to right and never overlapping. |
| Highlight.OccurrencesSkipNone | bowser.go:82-99 | No occurrence at or after the start comes before the first one found, and when none is found there is none at all. |
| Highlight.MarkRun | bowser.go:88-97 | Marking a match marks its cells within the row. A match that reaches the right edge marks the last cell, and the search resumes at the end of the text. |
| Highlight.Mask | bowser.go:79-100 | The corrected mask marks exactly the cells inside a found occurrence, plus the last cell when an occurrence runs past the edge. An empty filter marks nothing. |
| Highlight.ScanMeetsSpec | bowser.go:81-99 | The outer search loop adds exactly the marks of the occurrences still to be found. |
| Highlight.MarkRunAsWritten | bowser.go:88-97 | As written, a run fails (an out-of-range write) exactly when one of its cells is at index `width`, or when the row has no cells and a match starts past 0 (the write to `hl[-1]`). A run that does not fail computes what the corrected run computes. |
| Highlight.ScanAsWrittenMeetsSpec | bowser.go:81-99 | The search loop as written fails exactly when an occurrence still to be found holds cell `width`, or when the row has no cells and there is an occurrence. Otherwise it yields the corrected loop's result. |
| Highlight.MaskAsWritten | bowser.go:79-100 | `drawRow`'s mask as written fails exactly when the filter is non-empty and one of its occurrences holds cell `width` (or the row has no cells). Otherwise it is the corrected mask. |
| Highlight.MarkRunAgrees | bowser.go:88-97 | When the match fits within the row, the run as written equals the corrected run. |
| Highlight.ScanAgrees | bowser.go:81-99 | When the text fits within the row, the search loop as written equals the corrected one. |
| Highlight.MaskAgreesWhenTextFits | bowser.go:79-100 | When the text is no longer than the row, the mask as written is the corrected mask. |
| Highlight.EdgeMatch | bowser.go:88-96 | `abcdef` filtered by `f` on a 5-cell row: as written the mask write fails; corrected, only the last cell is marked. |
| Highlight.AlphaBeta | bowser.go:79-100 | `alpha-beta` filtered by `beta` on 10 cells marks cells 6 to 9, and the code as written agrees. |
| Cli.EffectivePort | main.go:26-32 | A disabled binding gets port 0; an enabled one gets its flag value. |
| Cli.SelectPorts | main.go:26-38 | Start-up succeeds exactly when neither port is negative and at least one is non-zero, and it then uses those ports. Both off is refused as "disabled" before the negative-port check. |
| Cli.DefaultPorts | main.go:18-38 | The default flags start both servers. Disabling one leaves the other. |
| Cli.PrintoutFacts | main.go:44-51 | Every printed line reports a received matching Signal under its arrival number. The numbers strictly increase, and every matching Signal is printed. |
| Cli.NonInteractive | main.go:44-53 | The loop prints exactly the reference printout: every Signal advances the count and matching ones are printed. |
| Cli.Step | main.go:81-96 | A resize never quits. Ctrl+C always quits. Escape quits exactly when no popup is open, the filter is not being edited and the dashboard is not following. No other key quits. |
| Cli.EscapeTwiceQuits | main.go:88-94 | Escape while following only stops following, and a second Escape quits. |

## Left out

- Network and I/O: the gRPC and HTTP servers, request decoding and responses (sever.go:30-125, 227-251, 290-314), the channel and its goroutines, and the heartbeat widget. These are transport and concurrency, not logic. The normaliser takes the decoded payload as input.
- Drawing: row painting, the status bar, `drawText`, the popup frame and `screen.Sync`. These are terminal output. The model covers what is drawn where (the highlight mask, the popup's text area) and not the terminal calls.
- Library renderings: a timestamp's text, a double's `%v` text and the `%v` dump of a data-point list are `Formatter` parameters. They are floating-point and time formatting done by libraries.
- Non-interactive printout: `Cli.NonInteractive` records the time, not its `[0:23]` text, for the same reason.
- Attribute values that are doubles, bytes, maps or slices are carried as their rendered text (`Props.AttrValue.Rendered`).
- `Sever.ProcessMetrics` requires every histogram point to have a bucket count and a bound (`HistogramReadable`). The code reads the first of each and panics when there is none.
- `Props.Get` models `sort.Slice` as the insertion sort Go runs on lists of at most 12 pairs. Longer lists go through pattern-defeating quicksort, which can order pairs that compare equal differently.
- Text is one byte per cell, ASCII only. `strings.ToLower` and UTF-8 decoding of multi-byte characters are not modelled.
- `Keys.RuneOf` gives NUL for a special key. tcell reports a control character or NUL there, and either way it is a control character that is never typed into the filter.
- `Bucket.New` requires a capacity of at least 1, and `Bucket.Get` a non-negative index. Capacity 0 panics on the first append; a negative index reads past the end.
- `Dashboard.Valid` requires a height of at least 1, and `Dashboard.Resize` and `Cli.Sane` a non-negative width and a height of at least 1. With height 0, Up moves the cursor to -2 and Enter reads the buffer at a negative index.
- `Dashboard.Resize` always stores the size. The code stores it only when it changed, which yields the same state.
- `Highlight.Mask` takes a width of at least 0; the code's `make` panics on a negative width.
- `Sever.MetricSignals` describes the shared histogram "Metric" list as it looks once the payload is processed. How it looks between two sends depends on when the consumer reads it.

## Findings

| source | as written | input that shows it | evidently intended | confidence | as-written member | corrected member |
|---|---|---|---|---|---|---|
| bowser.go:88-96 | The edge test is `p > width`, so a match cell at index `width` is written to `hl[width]`, one past the end of the mask (index out of range). | width 5, text `abcdef`, filter `f`: the match starts at 5. | Test `p >= width`: mark the last visible cell and stop. | not executed | Highlight.MaskAsWritten (shown by Highlight.EdgeMatch) | Highlight.Mask |
| popup.go:60-62 | `resize` (which the dashboard calls on every screen resize, as `Dashboard.Resize` models) compares the new size with `x1 - 5` but stores `w - 5`, so a frame whose corner is exactly five cells past the new size is not moved. | A popup centred on 100x50 (corner 95, 48) after the screen becomes 90x43 keeps its corner at column 95, off the screen. | Always move the corner to `w - 5`, `h - 5` (the comparison should be with `x1 + 5`, or none at all). | not executed | Popup.ResizeAsWritten (shown by Popup.ResizeAsWrittenStale) | Popup.Resize |
