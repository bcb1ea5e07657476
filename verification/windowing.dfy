/**
 The window loop of `fetch_events_from_alerts`: contiguous four-hour windows
 from a start instant until "now", one fetch per window, the pagination
 cursor of each response handed to the next request, and each page folded
 into the accumulator under the month of its window's start.

 Instants are whole seconds. The endpoint is the parameter `fetch`, the
 calendar the parameter `monthOf`, and the clock the fixed parameter `now`.
 */
module Windowing {
  import opened Wrappers
  import opened Alerts
  import opened Aggregation

  /** Four hours, in seconds. */
  const WindowSeconds: int := 14400

  /** The bounds of creation time sent with one request (`dateFrom`, `dateTo`). */
  datatype Window = Window(from: int, to: int)

  /** One request to the endpoint and the response it got. */
  datatype Exchange = Exchange(window: Window, cursor: Option<Token>, response: Response)

  /** The final accumulator and the requests made, in order. */
  datatype Outcome = Outcome(acc: Acc, log: seq<Exchange>)

  /** The endpoint: the response to a request for a window with a cursor. */
  type Fetcher = (Window, Option<Token>) -> Response

  /** The calendar month (`YYYY-MM`) of an instant. */
  type MonthOf = int -> Month

  /**
   The loop from window start `current` on, with pagination cursor `cursor`
   and accumulator `acc`. It stops once the window start reaches `now`.
   */
  function Loop(current: int, now: int, cursor: Option<Token>, acc: Acc, fetch: Fetcher, monthOf: MonthOf): (o: Outcome)
    ensures ValidAcc(acc) ==> ValidAcc(o.acc)
    ensures EveryMonthHasManager(acc) ==> EveryMonthHasManager(o.acc)
    ensures acc.keys <= o.acc.keys
    decreases now - current
  {
    if current < now then
      var window := Window(current, current + WindowSeconds);
      var response := fetch(window, cursor);
      var acc' := FoldPage(acc, monthOf(current), Results(response));
      var rest := Loop(current + WindowSeconds, now, NextCursor(response), acc', fetch, monthOf);
      Outcome(rest.acc, [Exchange(window, cursor, response)] + rest.log)
    else
      Outcome(acc, [])
  }

  /** A whole run: from `start` with no cursor and an empty accumulator. */
  function Run(start: int, now: int, fetch: Fetcher, monthOf: MonthOf): (o: Outcome)
    ensures ValidAcc(o.acc)
    ensures EveryMonthHasManager(o.acc)
  {
    Loop(start, now, None, EmptyAcc(), fetch, monthOf)
  }

  /** The pages a log fetched, each keyed by the month of its window's start. */
  function PagesOf(log: seq<Exchange>, monthOf: MonthOf): seq<Page> {
    seq(|log|, i requires 0 <= i < |log| => Page(monthOf(log[i].window.from), Results(log[i].response)))
  }

  /**
   Request i is for the bounds `current + i*4h` and `current + (i+1)*4h`, i = 0, 1, ...;
   every window starts before `now`, and the one after the last would not.
   */
  lemma {:induction false} LoopWindows(current: int, now: int, cursor: Option<Token>, acc: Acc, fetch: Fetcher, monthOf: MonthOf)
    ensures var log := Loop(current, now, cursor, acc, fetch, monthOf).log;
      && (forall i :: 0 <= i < |log| ==>
            log[i].window == Window(current + i * WindowSeconds, current + (i + 1) * WindowSeconds))
      && (forall i :: 0 <= i < |log| ==> log[i].window.from < now)
      && now <= current + |log| * WindowSeconds
    decreases now - current
  {
    if current < now {
      var response := fetch(Window(current, current + WindowSeconds), cursor);
      var acc' := FoldPage(acc, monthOf(current), Results(response));
      LoopWindows(current + WindowSeconds, now, NextCursor(response), acc', fetch, monthOf);
    }
  }

  /**
   Request i + 1 carries exactly the cursor of response i, across window
   boundaries; the first request carries the loop's initial cursor; and each
   response is the endpoint's answer to its request.
   */
  lemma {:induction false} LoopCursors(current: int, now: int, cursor: Option<Token>, acc: Acc, fetch: Fetcher, monthOf: MonthOf)
    ensures var log := Loop(current, now, cursor, acc, fetch, monthOf).log;
      && (|log| > 0 ==> log[0].cursor == cursor)
      && (forall i :: 0 < i < |log| ==> log[i].cursor == NextCursor(log[i - 1].response))
      && (forall i :: 0 <= i < |log| ==> log[i].response == fetch(log[i].window, log[i].cursor))
    decreases now - current
  {
    if current < now {
      var response := fetch(Window(current, current + WindowSeconds), cursor);
      var acc' := FoldPage(acc, monthOf(current), Results(response));
      LoopCursors(current + WindowSeconds, now, NextCursor(response), acc', fetch, monthOf);
    }
  }

  /** The final accumulator is the fold of the fetched pages, each under its window's month. */
  lemma {:induction false} LoopFolds(current: int, now: int, cursor: Option<Token>, acc: Acc, fetch: Fetcher, monthOf: MonthOf)
    ensures var o := Loop(current, now, cursor, acc, fetch, monthOf);
      o.acc == FoldPages(acc, PagesOf(o.log, monthOf))
    decreases now - current
  {
    if current < now {
      var window := Window(current, current + WindowSeconds);
      var response := fetch(window, cursor);
      var acc' := FoldPage(acc, monthOf(current), Results(response));
      var rest := Loop(current + WindowSeconds, now, NextCursor(response), acc', fetch, monthOf);
      var page := Page(monthOf(current), Results(response));
      LoopFolds(current + WindowSeconds, now, NextCursor(response), acc', fetch, monthOf);
      LoopAdvance(current, now, cursor, acc, fetch, monthOf, []);
      assert [] + [Exchange(window, cursor, response)] + rest.log == [Exchange(window, cursor, response)] + rest.log;
      assert PagesOf([Exchange(window, cursor, response)] + rest.log, monthOf) == [page] + PagesOf(rest.log, monthOf);
      FoldPagesCons(acc, page, PagesOf(rest.log, monthOf));
    } else {
      assert PagesOf([], monthOf) == [];
    }
  }

  lemma FoldPagesCons(acc: Acc, p: Page, ps: seq<Page>)
    ensures FoldPages(acc, [p] + ps) == FoldPages(FoldPage(acc, p.month, p.records), ps)
  {
    assert ([p] + ps)[1..] == ps;
  }

  /** The whole run, window by window. */
  lemma RunWindows(start: int, now: int, fetch: Fetcher, monthOf: MonthOf)
    ensures var log := Run(start, now, fetch, monthOf).log;
      && (forall i :: 0 <= i < |log| ==>
            log[i].window == Window(start + i * WindowSeconds, start + (i + 1) * WindowSeconds))
      && (forall i :: 0 < i < |log| ==> log[i].window.from == log[i - 1].window.to)
      && (forall i, j :: 0 <= i < j < |log| ==> log[i].window.from < log[j].window.from)
      && (forall i :: 0 <= i < |log| ==> log[i].window.from < now)
      && now <= start + |log| * WindowSeconds
      && (|log| == 0 <==> now <= start)
  {
    LoopWindows(start, now, None, EmptyAcc(), fetch, monthOf);
  }

  /**
   Page i of a run is keyed by the month of `start + i*4h`: its month depends
   only on the window's position, whatever the endpoint returned.
   */
  lemma RunPageMonths(start: int, now: int, fetch: Fetcher, monthOf: MonthOf)
    ensures var ps := PagesOf(Run(start, now, fetch, monthOf).log, monthOf);
      forall i :: 0 <= i < |ps| ==> ps[i].month == monthOf(start + i * WindowSeconds)
  {
    RunWindows(start, now, fetch, monthOf);
  }

  /** The whole run, request by request: the first request has no cursor. */
  lemma RunCursors(start: int, now: int, fetch: Fetcher, monthOf: MonthOf)
    ensures var log := Run(start, now, fetch, monthOf).log;
      && (|log| > 0 ==> log[0].cursor == None)
      && (forall i :: 0 < i < |log| ==> log[i].cursor == NextCursor(log[i - 1].response))
      && (forall i :: 0 <= i < |log| ==> log[i].response == fetch(log[i].window, log[i].cursor))
  {
    LoopCursors(start, now, None, EmptyAcc(), fetch, monthOf);
  }

  /**
   Pagination restarts after a response without `data` or without
   `search_after`: the next request, even for the next window, carries no
   cursor. Otherwise it carries exactly the returned `search_after`.
   */
  lemma RunCursorReset(start: int, now: int, fetch: Fetcher, monthOf: MonthOf)
    ensures var log := Run(start, now, fetch, monthOf).log;
      forall i :: 0 < i < |log| ==>
        && (log[i].cursor.None? <==>
              log[i - 1].response.data.None? || log[i - 1].response.data.value.searchAfter.None?)
        && (log[i - 1].response.data.Some? ==> log[i].cursor == log[i - 1].response.data.value.searchAfter)
  {
    RunCursors(start, now, fetch, monthOf);
  }

  /**
   The whole run's accumulator against the reference counts over the pages
   it fetched: an entry exists exactly for the (month, manager) pairs some
   fetched record is attributed to and holds their number and event sum; a
   month exists exactly when some window of that month returned a record.
   */
  lemma RunCounts(start: int, now: int, fetch: Fetcher, monthOf: MonthOf)
    ensures var o := Run(start, now, fetch, monthOf);
      var ps := PagesOf(o.log, monthOf);
      && (forall m, g :: Present(o.acc, m, g) <==> AlertsFor(ps, m, g) > 0)
      && (forall m, g :: Lookup(o.acc, m, g) == Counts(EventsFor(ps, m, g), AlertsFor(ps, m, g)))
      && (forall m :: m in o.acc.entries <==> RecordsFor(ps, m) > 0)
  {
    var o := Run(start, now, fetch, monthOf);
    LoopFolds(start, now, None, EmptyAcc(), fetch, monthOf);
    AggregateFromEmpty(PagesOf(o.log, monthOf));
  }

  /**
   One iteration of the loop: after fetching the window at `current` and
   folding its page, the rest of the loop yields the same accumulator, and
   the requests made so far followed by the rest are the same requests.
   */
  lemma LoopAdvance(current: int, now: int, cursor: Option<Token>, acc: Acc, fetch: Fetcher, monthOf: MonthOf, done: seq<Exchange>)
    requires current < now
    ensures var window := Window(current, current + WindowSeconds);
      var response := fetch(window, cursor);
      var rest := Loop(current + WindowSeconds, now, NextCursor(response), FoldPage(acc, monthOf(current), Results(response)), fetch, monthOf);
      && rest.acc == Loop(current, now, cursor, acc, fetch, monthOf).acc
      && (done + [Exchange(window, cursor, response)]) + rest.log == done + Loop(current, now, cursor, acc, fetch, monthOf).log
  {
    var window := Window(current, current + WindowSeconds);
    var response := fetch(window, cursor);
    var rest := Loop(current + WindowSeconds, now, NextCursor(response), FoldPage(acc, monthOf(current), Results(response)), fetch, monthOf);
    assert Loop(current, now, cursor, acc, fetch, monthOf).log == [Exchange(window, cursor, response)] + rest.log;
    assert (done + [Exchange(window, cursor, response)]) + rest.log == done + ([Exchange(window, cursor, response)] + rest.log);
  }

  /** The source's `for alert in results` loop over one page. */
  method FoldRecords(acc0: Acc, month: Month, results: seq<AlertRecord>) returns (acc: Acc)
    ensures acc == FoldPage(acc0, month, results)
  {
    acc := acc0;
    var j := 0;
    while j < |results|
      invariant 0 <= j <= |results|
      invariant FoldPage(acc, month, results[j..]) == FoldPage(acc0, month, results)
      decreases |results| - j
    {
      assert results[j..][1..] == results[j + 1..];
      acc := Add(acc, month, results[j]);
      j := j + 1;
    }
  }

  /**
   The loop as the source writes it: a `while` over windows, with the page of
   each window folded in by `FoldRecords`. It computes exactly `Run`.
   */
  method FetchEventsFromAlerts(start: int, now: int, fetch: Fetcher, monthOf: MonthOf) returns (acc: Acc, log: seq<Exchange>)
    ensures acc == Run(start, now, fetch, monthOf).acc
    ensures log == Run(start, now, fetch, monthOf).log
    ensures EveryMonthHasManager(acc)
  {
    acc := EmptyAcc();
    log := [];
    ghost var target := Run(start, now, fetch, monthOf);
    var cursor: Option<Token> := None;
    var current := start;
    while current < now
      invariant Loop(current, now, cursor, acc, fetch, monthOf).acc == target.acc
      invariant log + Loop(current, now, cursor, acc, fetch, monthOf).log == target.log
      decreases now - current
    {
      var next := current + WindowSeconds;
      var window := Window(current, next);
      var response := fetch(window, cursor);
      LoopAdvance(current, now, cursor, acc, fetch, monthOf, log);
      acc := FoldRecords(acc, monthOf(current), Results(response));
      log := log + [Exchange(window, cursor, response)];
      cursor := NextCursor(response);
      current := next;
    }
    assert log == log + [];
  }
}
