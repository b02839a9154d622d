# Traffic statistics page — a Dafny model

The statistics page of the SDN traffic dashboard (`my-app/src/app/statistics/page.tsx`)
polls per-protocol counters (packets and bytes per protocol name). It keeps a bounded
history of timestamped snapshots in the browser's storage and draws two charts:
- a trend line chart of bytes per protocol over a selectable time window;
- a pie chart of the latest counters' byte shares.

It also pages through a list of captured packet summaries, ten rows per page. The
noise protocols `dns` and `other` are never charted. Every protocol has a fixed colour,
and every protocol outside the palette shares a grey.

The model is functional: immutable datatypes and pure functions. The clock (`Date.now()`),
the fetched counters, the storage contents and the JSON serialiser and parser are
parameters.

| file | module | what it holds |
|---|---|---|
| `wrappers.dfy` | `Wrappers` | `Option`, `Min`, `Max` |
| `seqs.dfy` | `Seqs` | `Array.prototype.filter` as `Filter`, subsequences, "newest n" |
| `traffic.dfy` | `Traffic` | counters object, history records, time ranges, packet summaries, the constants 120 and 10 |
| `history.dfy` | `HistoryStore` | snapshot, bounded append, load and save |
| `window.dfy` | `Window` | the time-window filter |
| `aggregate.dfy` | `Aggregate` | denylist, byte series, line chart, pie breakdown and percentages |
| `colors.dfy` | `Colors` | the palette lookup |
| `pagination.dfy` | `Pagination` | page count, JavaScript `slice`, page change |
| `dashboard.dfy` | `Dashboard` | the page as a state machine: open, refresh, packets arriving, page requests, rendering |

A counters object is modelled as a sequence of `Counter(protocol, stats)` pairs in
property order. That order is what `Object.keys`, `Object.values` and object spread
visit. `Traffic.Lookup` is property access. `Traffic.DistinctProtocols` is the fact that
an object has no two own properties with the same name.

## Model

| member | source | states |
|---|---|---|
| `Traffic.Lookup` | my-app/src/app/statistics/page.tsx:170 | Property access: the value found is stored under that name, and nothing is found exactly when no property has that name |
| `Traffic.LookupOwnProperty` | my-app/src/app/statistics/page.tsx:212 | In an object, every own property name reads back its own stats |
| `HistoryStore.Sample` | my-app/src/app/statistics/page.tsx:76-79 | The snapshot carries the fetched counters unchanged; its timestamp is the clock reading in whole seconds, rounded down |
| `HistoryStore.Append` | my-app/src/app/statistics/page.tsx:77-84 | The new history has length min(n+1, 120) and is the newest 120 entries of the old history plus the snapshot. The snapshot is last, and nothing is dropped when the old history was below 120 |
| `HistoryStore.AppendKeepsChronological` | my-app/src/app/statistics/page.tsx:76-84 | Appending a snapshot no older than any stored entry keeps the timestamps non-decreasing |
| `HistoryStore.AppendAllKeepsMostRecent` | my-app/src/app/statistics/page.tsx:75-92 | After one or more appends, the history is exactly the newest min(total, 120) of all entries ever held, in order |
| `HistoryStore.FromEmptyKeepsMostRecent` | my-app/src/app/statistics/page.tsx:75-92 | Starting from an empty history, the buffer holds the newest min(n, 120) of the n snapshots taken |
| `HistoryStore.SuffixKeepsChronological` | my-app/src/app/statistics/page.tsx:82-84 | Trimming the front of a chronological history leaves it chronological |
| `HistoryStore.AppendAllKeepsChronological` | my-app/src/app/statistics/page.tsx:75-84 | Snapshots appended in time order give a chronological history, however many are trimmed |
| `HistoryStore.Load` | my-app/src/app/statistics/page.tsx:55-65 | Nothing stored, an empty string or an unparsable value restores the empty history; otherwise the parsed history is restored |
| `HistoryStore.Save` | my-app/src/app/statistics/page.tsx:85-90 | A successful write stores the serialised history; a failed write is swallowed and leaves the previous value |
| `HistoryStore.SaveThenLoad` | my-app/src/app/statistics/page.tsx:56-90 | A written history is restored unchanged on the next load, when the serialiser round-trips |
| `Window.Cutoff` | my-app/src/app/statistics/page.tsx:126-131 | The cutoff plus the lookback is the clock reading in whole seconds, rounded down |
| `Window.LookbackSeconds` | my-app/src/app/statistics/page.tsx:127-130 | The lookback is 60 times the minutes the range names (300, 900, 1800, 3600); every range other than 5m, 30m and 1h gets the 900-second default |
| `Window.Select` | my-app/src/app/statistics/page.tsx:125-132 | The window keeps exactly the entries with timestamp >= now - lookback: each such entry as many times as the history holds it, and no other entry. It is an order-preserving subsequence of the history |
| `Window.SelectIdempotent` | my-app/src/app/statistics/page.tsx:131 | Filtering the window again with the same range and clock reading returns it unchanged |
| `Window.SelectKeepsChronological` | my-app/src/app/statistics/page.tsx:131 | The window of a chronological history is chronological |
| `Window.SelectIsSuffix` | my-app/src/app/statistics/page.tsx:131 | For a chronological history, the window is a suffix: its newest entries |
| `Window.SelectNothingInRange` | my-app/src/app/statistics/page.tsx:131 | An empty history, or one with no entry in range, gives the empty window rather than an error |
| `Window.WiderRangeSeesMore` | my-app/src/app/statistics/page.tsx:127-131 | Every entry in a narrower range's window is also in a wider range's window |
| `Seqs.Filter` | my-app/src/app/statistics/page.tsx:131 | `Array.prototype.filter`: each passing value occurs in the result as often as in the input, and each failing value never does |
| `Seqs.FilterIsSubsequence` | my-app/src/app/statistics/page.tsx:131 | The filter's result keeps the input order: it is the input with some elements deleted |
| `Seqs.FilterUpwardClosedIsSuffix` | my-app/src/app/statistics/page.tsx:131 | When the predicate, once true along the sequence, stays true, the filter returns a suffix |
| `Seqs.NewestThenAppend` | my-app/src/app/statistics/page.tsx:82-84 | Trimming to the newest n, appending, then trimming again equals appending, then trimming once |
| `Aggregate.FilteredProtocols` | my-app/src/app/statistics/page.tsx:119-122 | The result has no `dns` or `other` property; every other property reads the same as in the input; no property is added or reordered |
| `Aggregate.LookupAfterDenylist` | my-app/src/app/statistics/page.tsx:120-121 | Removing the denied counters leaves every other name reading its original value |
| `Aggregate.FilteredProtocolsDistinct` | my-app/src/app/statistics/page.tsx:120-121 | The object rest of an object is again an object: no repeated property name |
| `Aggregate.BytesOf` | my-app/src/app/statistics/page.tsx:170 | A protocol's bytes in a counters object: 0 when the object has no property of that name, and otherwise, names being distinct, the bytes stored under it |
| `Aggregate.Series` | my-app/src/app/statistics/page.tsx:170 | One point per window entry; point i is the protocol's bytes in snapshot i, or 0 when that snapshot lacks the protocol |
| `Aggregate.SeriesOfConcat` | my-app/src/app/statistics/page.tsx:170 | The series of two consecutive stretches of history are the two series joined |
| `Aggregate.LineChart` | my-app/src/app/statistics/page.tsx:163-175 | One x-axis point per window entry, and one dataset per charted protocol in property order. No dataset is `dns` or `other`. Each holds that protocol's series, its line colour at opacity 1 and its fill colour at opacity 0.1 |
| `Aggregate.TotalBytes` | my-app/src/app/statistics/page.tsx:205 | The sum of bytes over an object's properties is at least each property's bytes |
| `Aggregate.TotalBytesZero` | my-app/src/app/statistics/page.tsx:205 | The sum of bytes is 0 exactly when every property carries 0 bytes |
| `Aggregate.TotalExcludesDenylist` | my-app/src/app/statistics/page.tsx:205 | The pie total is the sum over the charted protocols: the full total minus the bytes of `dns` and `other` |
| `Aggregate.Percent` | my-app/src/app/statistics/page.tsx:224 | The share is 0 when the total is 0; otherwise share times total equals 100 times value, and the share lies in [0, 100] for a part of the total |
| `Aggregate.Breakdown` | my-app/src/app/statistics/page.tsx:204-213 | One slice per charted protocol, in property order and never `dns` or `other`, with that protocol's bytes, its share of the charted total and its colour at opacity 0.7 |
| `Aggregate.BreakdownBytesSumToTotal` | my-app/src/app/statistics/page.tsx:205-212 | The slice values add up to the total the shares divide by |
| `Aggregate.BreakdownPercentages` | my-app/src/app/statistics/page.tsx:204-224 | The shares add up to exactly 100 when any bytes were counted, and are all 0 when the total is 0 |
| `Aggregate.ChartColorsAsWritten` | my-app/src/app/statistics/page.tsx:171-213 | For every protocol name that is not an `Object.prototype` member, the colours both charts draw with agree with the page's colour lookup as written |
| `Pagination.TotalPages` | my-app/src/app/statistics/page.tsx:236 | At least one page; the pages hold every row, and the last page is not empty unless there are no rows |
| `Pagination.RelativeIndex` | my-app/src/app/statistics/page.tsx:238 | How `slice` reads an index: a non-negative index is clamped to the length, and a negative one counts back from the end, clamped at 0 |
| `Pagination.JsSlice` | my-app/src/app/statistics/page.tsx:238 | `Array.prototype.slice`: for non-negative bounds, the clamped range; empty when the end is not past the start |
| `Pagination.PageItems` | my-app/src/app/statistics/page.tsx:237-240 | At most 10 rows, namely rows (p-1)*10 up to p*10. A page before the last is full, a valid page of a non-empty list is non-empty, and page 0 or a page past the last is empty |
| `Pagination.ChangePage` | my-app/src/app/statistics/page.tsx:241-244 | A request inside [1, totalPages] is taken; any other is ignored; a valid current page stays valid |
| `Pagination.PagesUpToIsPrefix` | my-app/src/app/statistics/page.tsx:237-240 | The first n pages together are the first n*10 rows |
| `Pagination.PagesCoverItems` | my-app/src/app/statistics/page.tsx:236-240 | Paging through every page shows each row exactly once, in order |
| `Pagination.TwentyFiveRows` | my-app/src/app/statistics/page.tsx:236-244 | 25 rows give 3 pages; page 3 holds the last 5 rows; asking for page 0 or 4 changes nothing |
| `Colors.ProtocolColor` | my-app/src/app/statistics/page.tsx:147-157 | A palette protocol gets its own colour and every other protocol gets grey (199, 199, 199), always at the requested opacity |
| `Colors.UnknownProtocolsShareColor` | my-app/src/app/statistics/page.tsx:156 | All protocols outside the palette look alike |
| `Colors.PaletteColorsDistinct` | my-app/src/app/statistics/page.tsx:148-156 | A palette protocol's colour differs from every other protocol's colour, including the grey |
| `Colors.ProtocolColorAsWritten` | my-app/src/app/statistics/page.tsx:148-156 | The lookup on a plain object literal: own palette entries first, then inherited `Object.prototype` members, then the grey |
| `Colors.InheritedNameEscapesFallback` | my-app/src/app/statistics/page.tsx:156 | For the protocol name `toString`, the lookup as written yields an inherited function rather than the grey the corrected lookup gives |
| `Dashboard.Open` | my-app/src/app/statistics/page.tsx:40-65 | The page starts with no counters or packets, range 15m, page 1 and no error. The history is restored from storage, and the trend window is computed at the opening clock reading |
| `Dashboard.Refresh` | my-app/src/app/statistics/page.tsx:68-98 | A successful fetch replaces the counters, appends a snapshot, writes the history and recomputes the trend window at that clock reading. A failed fetch raises only the error flag. Range, page and packets are untouched |
| `Dashboard.ReceivePackets` | my-app/src/app/statistics/page.tsx:106-111 | The packet list is replaced and nothing else in the page state changes |
| `Dashboard.SelectRange` | my-app/src/app/statistics/page.tsx:45 | The range is set. Setting the current range changes nothing; a new range recomputes the trend window at the given clock reading. Nothing else changes |
| `Dashboard.RequestPage` | my-app/src/app/statistics/page.tsx:241-244 | The page becomes the requested one when it is valid for the current packet list, and is otherwise unchanged. Nothing else changes |
| `Dashboard.Render` | my-app/src/app/statistics/page.tsx:125-240 | The line chart draws the window as computed at the last change of the history or range, not at the current time. The pie draws the latest counters and the table the current page. The page count is max(1, ceil(n/10)) |
| `Dashboard.FailedRefreshKeepsCharts` | my-app/src/app/statistics/page.tsx:93-132 | A failed refresh leaves both charts unchanged; in particular the trend window does not age, however late the failure comes |
| `Dashboard.PageStaysValid` | my-app/src/app/statistics/page.tsx:241-244 | No refresh, range change or page request makes the current page invalid |
| `Dashboard.RefreshBoundsHistory` | my-app/src/app/statistics/page.tsx:75-92 | After a successful refresh the history is non-empty, holds at most 120 entries and ends with the new counters; after a failed one it is unchanged |
| `Dashboard.RefreshKeepsChronological` | my-app/src/app/statistics/page.tsx:75-84 | A refresh at a clock reading no earlier than every stored entry keeps the history chronological |
| `Dashboard.RefreshThenReopen` | my-app/src/app/statistics/page.tsx:55-92 | With a round-tripping serialiser and a successful write, reopening the page restores exactly the refreshed history |
| `Dashboard.RunAppendsSamples` | my-app/src/app/statistics/page.tsx:68-92 | A run of refreshes appends exactly the snapshots of its successful fetches, through the bounded append |
| `Dashboard.RunFlagsFailures` | my-app/src/app/statistics/page.tsx:93-94 | After a run, the error flag is set exactly when it was set before or some fetch failed; range, page and packets are unchanged |
| `Dashboard.RunFromNothingKeepsNewest` | my-app/src/app/statistics/page.tsx:75-92 | Opened with nothing stored, the history after any run is the newest min(n, 120) of its n snapshots |
| `Dashboard.ThreeSnapshotScenario` | my-app/src/app/statistics/page.tsx:125-224 | Scenario: snapshots at 0 s, 10 s and 20 s, in the default range with the window computed at the last refresh. The window holds all three; the one dataset is `http` with bytes 500, 900, 200; `dns` appears in neither chart; the pie is 100 % `http` |

## Left out

- Network access (`fetch` of the counters and the packet list, the `res.ok` check and the
  JSON bodies): the fetched counters arrive as `Dashboard.FetchOutcome`. A failed packet
  request throws outside any handler, so it changes no state and is not modelled.
- `Date.now()`: the clock reading is the parameter `nowMs`. It is assumed to be a
  whole number of milliseconds, so `Math.floor(nowMs / 1000)` is integer division.
- `localStorage` and `JSON.stringify`/`JSON.parse`: they are the parameters
  `serialize`, `parse` and `writable`. A stored value that parses to something other
  than a history (for instance `null`) is outside the model, because `parse` yields
  a history or nothing.
- `formatBytes`, `toLocaleTimeString`, `toLocaleString` and the two-decimal `toFixed`
  of the tooltip percentage: these are floating-point and locale formatting. X-axis
  labels are kept as the raw timestamps.
- Aggregate.TotalBytes: counters and their sum are exact unbounded integers. The page adds
  JavaScript numbers (doubles), which are exact only up to 2^53 and round beyond it.
- Aggregate.Percent: the share is exact real arithmetic, not IEEE-754 doubles. The
  claim that shares sum to 100 therefore holds exactly, where the page would be off by
  rounding.
- Aggregate.LineChart: draws with the corrected `Colors.ProtocolColor`, not the lookup as
  written. They differ only for a protocol named like an `Object.prototype` member (see
  Findings); `Aggregate.ChartColorsAsWritten` states that they agree for every other name.
- Aggregate.Breakdown: draws its slices with the corrected `Colors.ProtocolColor`, for
  the same reason as the line chart.
- Dashboard.Render: the page reads the clock once in the setter that appends a snapshot
  and once more when it recomputes the window on the next render. The model takes the
  two as one reading, `nowMs` of the refresh.
- Chart.js construction and destruction, the chart options, the protocol cards, the
  table's cell rendering and row tint, the loading flag and the refresh button's
  disabled state: these are rendering, with no computation beyond the members above.
- Overlapping refreshes and React's batching of state updates: each refresh is
  modelled as one atomic transition, applied in order.
- The other pages and the configuration of the repository (home page, switches
  pages, navigation bar, proxy rewrite) are not part of this model.
- Two behaviours of the page worth knowing:
  - The window is computed with `Array.filter`, so it is a suffix only when the
    history is chronological (`Window.SelectIsSuffix` requires that).
  - The error flag is never cleared once set; `Dashboard.RunFlagsFailures` states it
    as the code has it.
- No control on the page calls the range setter, so the rendered range is always
  15m. `Dashboard.SelectRange` models the setter for completeness.

## Findings

| source | as written | input that shows it | evidently intended | confidence | as-written member | corrected member |
|---|---|---|---|---|---|---|
| my-app/src/app/statistics/page.tsx:148-156 | `colors[protocol] \|\| grey` on a plain object literal also finds names inherited from `Object.prototype`. These are truthy functions, so they bypass the grey fallback | a protocol (or a packet's `protocol_identified`) named `toString`, `constructor` or `valueOf` | every protocol outside the six-entry palette is drawn grey | not executed | `Colors.ProtocolColorAsWritten` (shown by `Colors.InheritedNameEscapesFallback`) | `Colors.ProtocolColor` |
