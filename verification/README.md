# Event count vs alert count by manager — Dafny model

This project models the aggregation core of `EventCountvsAlertCountByManager.py`, the
script that pulls alerts from the APEX AIOps / Moogsoft alert-search API and reports, per
calendar month and per ingress source ("manager"), how many alerts were seen and how many
raw events they folded. The model covers three things:

- **Window loop and cursor threading** (`Windowing`). Starting at a start instant, the loop
  walks contiguous four-hour windows, sending the bounds `t` and `t + 14400`, while the window start is before
  "now". It makes exactly one request per window. The `search_after` cursor returned by one
  request is sent with the next one, also across window boundaries.
- **Accumulator fold** (`Aggregation`). Each page is folded into the two-level map
  `month -> manager -> {event_count, alert_count}` under the month of the *window's* start.
  A missing `manager` counts as `"Unknown"`, a missing `event_count` as 0, and every record
  adds one alert. Both map levels are insertion-ordered (`OrderedMap`), as Python dicts are.
- **Report** (`Ranking`, `Report`). For each month, in insertion order, the manager rows are
  sorted by total events, largest first, with the stable ordering of Python's
  `sorted(..., reverse=True)`. A month with no managers gets the "No events recorded"
  line, and the model proves that no run ever reaches that line.

Instants are whole seconds. The endpoint is a function parameter
`fetch: (Window, Option<Token>) -> Response`. The calendar is a parameter
`monthOf: int -> Month`, and "now" is a fixed parameter. Every request is logged
as an `Exchange`, so window progression and cursor threading are stated on that log. The
accumulator is related to reference counts defined directly over the fetched pages
(`AlertsFor`, `EventsFor`, `RecordsFor`).

Files: `wrappers.dfy` (Option), `ordered_map.dfy` (insertion-ordered map), `alerts.dfy`
(records, responses, counts), `aggregation.dfy` (fold and reference counts),
`windowing.dfy` (window loop and the imperative method), `ranking.dfy` (stable
descending sort), `report.dfy` (report sections, end-to-end lemmas), `scenario.dfy`
(worked ALPHA/BETA example).

Behaviours of the script a reader may not expect, which the model keeps:

- The report lists months in dictionary insertion order. That order is chronological only
  if the month of an instant is monotone, which the model does not assume.
- Equal event totals keep the managers' insertion order. The sort is stable; ties are not
  in an arbitrary order.
- `event_count` is not checked to be non-negative. The model uses unbounded `int`, as
  Python does.
- The last window ends at `start + k*4h`, which may be after "now". It is not clipped.

## Model

| member | source | states |
|---|---|---|
| `Aggregation.MissingResultUnchanged` | DeDuplication/EventCountvsAlertCountByManager.py:88 | a response without `data`, or whose `data` has no `result`, leaves the accumulator exactly as it was |
| `Alerts.EffectiveManager` | DeDuplication/EventCountvsAlertCountByManager.py:95 | a record counts for the manager it names; it counts for "Unknown" exactly when it names none or names "Unknown" itself |
| `Alerts.EffectiveEvents` | DeDuplication/EventCountvsAlertCountByManager.py:96 | a record contributes no events exactly when its `event_count` is missing or 0, so the two cannot be told apart |
| `Aggregation.MissingEventCountStillCounts` | DeDuplication/EventCountvsAlertCountByManager.py:96-98 | a record without `event_count` still adds one alert to its manager's entry, which exists afterwards, and leaves the event total unchanged |
| `Windowing.RunCursorReset` | DeDuplication/EventCountvsAlertCountByManager.py:89-101 | after a response without `data` or without `search_after` the next request carries no cursor, even across a window boundary, and only then; otherwise it carries the returned `search_after` |
| `Aggregation.Add` | DeDuplication/EventCountvsAlertCountByManager.py:94-98 | folding one record keeps both map levels well formed, never leaves a month without a manager, keeps the existing month order, and creates no month but the window's |
| `Aggregation.AddAt` | DeDuplication/EventCountvsAlertCountByManager.py:95-98 | only the entry (window month, effective manager) changes: it gains the record's events (0 if missing) and exactly one alert, and exists afterwards; all other entries read the same |
| `Aggregation.FoldPage` | DeDuplication/EventCountvsAlertCountByManager.py:94-98 | folding a page keeps the accumulator well formed, keeps every month non-empty, and keeps earlier months in place |
| `Aggregation.FoldPageAt` | DeDuplication/EventCountvsAlertCountByManager.py:94-98 | after a page, entry (m, g) of the page's month grows by the number of the page's records attributed to g and the sum of their events; entries of other months are unchanged; an entry appears only if some record is attributed to it |
| `Aggregation.FoldPageMonth` | DeDuplication/EventCountvsAlertCountByManager.py:88-98 | a page creates no month other than its window's, and creates that one only if it holds a record (an empty or missing `result` creates nothing) |
| `Aggregation.FoldPages` | DeDuplication/EventCountvsAlertCountByManager.py:78-98 | folding the pages of successive windows keeps the accumulator well formed, keeps every month non-empty, and keeps earlier months in place |
| `Aggregation.FoldPagesAt` | DeDuplication/EventCountvsAlertCountByManager.py:91-98 | over a sequence of pages, entry (m, g) grows by the count and event sum of the records attributed to g in pages whose window month is m |
| `Aggregation.FoldPagesPresent` | DeDuplication/EventCountvsAlertCountByManager.py:91-98 | entry (m, g) exists after the pages iff it existed before or some record of a month-m page is attributed to g |
| `Aggregation.FoldPagesMonth` | DeDuplication/EventCountvsAlertCountByManager.py:91-98 | month m exists after the pages iff it existed before or some month-m page holds a record |
| `Aggregation.AggregateFromEmpty` | DeDuplication/EventCountvsAlertCountByManager.py:71-98 | starting from the empty map, (m, g) exists iff some record is attributed to it; it reads as the reference alert count and event sum; a month exists iff a window of it returned a record; every month has a manager |
| `Aggregation.UnknownAttribution` | DeDuplication/EventCountvsAlertCountByManager.py:95 | records attributed to g are those naming g, plus, when g is "Unknown", those without a `manager`; so records naming another manager never reach "Unknown" |
| `Windowing.Loop` | DeDuplication/EventCountvsAlertCountByManager.py:78-106 | the loop keeps the accumulator well formed, keeps every month non-empty, and keeps earlier months in place |
| `Windowing.Run` | DeDuplication/EventCountvsAlertCountByManager.py:71-106 | a whole run from an empty accumulator ends well formed, with every month holding at least one manager |
| `Windowing.LoopWindows` | DeDuplication/EventCountvsAlertCountByManager.py:76-106 | request i sends the bounds `current + i*4h` and `current + (i+1)*4h`; every window starts before now; the next start would not |
| `Windowing.RunWindows` | DeDuplication/EventCountvsAlertCountByManager.py:76-106 | windows from `start` are contiguous and strictly increasing, so each is fetched exactly once; each starts before now; the loop stops at the first `start + k*4h` not before now; no request at all iff `start >= now` |
| `Windowing.LoopCursors` | DeDuplication/EventCountvsAlertCountByManager.py:85-101 | the first request carries the loop's cursor; request i+1 carries the cursor of response i; each response is the endpoint's answer to its request |
| `Windowing.RunCursors` | DeDuplication/EventCountvsAlertCountByManager.py:74-101 | in a run the first request has no cursor, and later ones follow the chain above, across window boundaries |
| `Windowing.RunPageMonths` | DeDuplication/EventCountvsAlertCountByManager.py:91 | page i of a run is keyed by the month of the i-th window start, `start + i*4h`, whatever the endpoint returned (not by anything in the records) |
| `Windowing.LoopFolds` | DeDuplication/EventCountvsAlertCountByManager.py:88-98 | the loop's accumulator is the fold of the fetched pages, each keyed by its window start's month, not by anything in the records |
| `Windowing.RunCounts` | DeDuplication/EventCountvsAlertCountByManager.py:88-106 | a run's accumulator has (m, g) iff some fetched record of a month-m window is attributed to g; the entry holds their count and event sum; a month exists iff a window of it returned a record |
| `Windowing.FoldRecords` | DeDuplication/EventCountvsAlertCountByManager.py:94-98 | the imperative `for alert in results` loop computes the page fold |
| `Windowing.FetchEventsFromAlerts` | DeDuplication/EventCountvsAlertCountByManager.py:63-106 | the imperative window loop yields exactly the accumulator and request log of `Run`, and leaves no month without managers |
| `Ranking.InsertDesc` | DeDuplication/EventCountvsAlertCountByManager.py:115 | inserting into a non-increasing sequence keeps it non-increasing and adds exactly one row |
| `Ranking.SortByEventsDesc` | DeDuplication/EventCountvsAlertCountByManager.py:115 | the sorted rows are a permutation of the input, ordered by total events non-increasing |
| `Ranking.SortStable` | DeDuplication/EventCountvsAlertCountByManager.py:115 | rows with equal totals keep their input (insertion) order, as `sorted(..., reverse=True)` does |
| `Ranking.NonIncreasingSorted` | DeDuplication/EventCountvsAlertCountByManager.py:115-117 | adjacent order implies every listed row's total is at least every later one's |
| `Report.RowsOf` | DeDuplication/EventCountvsAlertCountByManager.py:115 | the rows list every manager of the month, no manager twice, in insertion order, each with its own counts |
| `Report.SectionFor` | DeDuplication/EventCountvsAlertCountByManager.py:111-120 | "no events" exactly when the month has no manager; otherwise a stable permutation of the month's entries, ordered by events non-increasing |
| `Report.BuildReport` | DeDuplication/EventCountvsAlertCountByManager.py:111-120 | section i is for the i-th month in insertion order, and is the "no events" line exactly when that month has no manager entry |
| `Report.NoEventsUnreachable` | DeDuplication/EventCountvsAlertCountByManager.py:119-120 | no run's report contains the "No events recorded for this month" section |
| `Report.ReportRowIsEntry` | DeDuplication/EventCountvsAlertCountByManager.py:116-117 | each printed row is an existing (month, manager) entry with its counts |
| `Report.RunReportRows` | DeDuplication/EventCountvsAlertCountByManager.py:111-117 | each row of a run's report shows its manager's positive record count and event sum for that month |
| `Report.RunReportComplete` | DeDuplication/EventCountvsAlertCountByManager.py:111-117 | every (month, manager) with a fetched record appears as a row of that month's section |
| `Scenario.ExampleFold` | DeDuplication/EventCountvsAlertCountByManager.py:94-98 | the page A:10, A:5, B:1 folds into A = 2 alerts / 15 events, then B = 1 / 1, in that order |
| `Scenario.ExampleReport` | DeDuplication/EventCountvsAlertCountByManager.py:111-117 | a single-window run over that page reports A (2 alerts, 15 events) before B (1 alert, 1 event) |

## Left out

- The HTTP request in `fetch_moog_alerts` is not modelled: payload, headers, endpoint,
  `limit` 4000, field list and JSON decoding. It is network and library I/O. The endpoint
  is the `fetch` parameter, a total function of (window, cursor).
- Transport and JSON decoding failures are not modelled. In the source they abort the run,
  with no partial report.
- The console output is not modelled: raw responses, cursor progress lines and report
  formatting. The 0.5 s `time.sleep` is also left out. The report is a sequence of
  `Section` values.
- The clock is not modelled. The source re-reads `datetime.now` at every loop check; the
  model takes "now" as one fixed value.
- The start instant is a parameter. The source computes it as the first of the month, minus
  90 days, at midnight UTC, which is calendar arithmetic.
- Month formatting is a parameter. `strftime('%Y-%m')` of an instant is the function
  `monthOf`, and window bounds stay integers rather than formatted strings.
- Whether the endpoint treats the `inRange` bounds `dateFrom` and `dateTo` as inclusive or
  exclusive is not modelled: the endpoint is the opaque `fetch` parameter.
- The API key and URL constants are configuration only and are not modelled.
- `alert_id` is requested from the API but never read, so records do not carry it.
- JSON `null` field values are not modelled; the model only distinguishes present from
  absent. In the source, `manager: null` is keyed by `None`, and a null `event_count` or
  `result`, or a null `data`, raises an exception.
