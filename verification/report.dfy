/**
 The final report: one section per month in the order the months were first
 recorded, each listing its managers by total events, largest first, or
 stating that no events were recorded for that month.
 */
module Report {
  import opened OrderedMap
  import opened Alerts
  import opened Aggregation
  import opened Ranking
  import opened Windowing

  datatype Section = MonthSection(month: Month, rows: seq<Row>) | NoEvents(month: Month)

  /**
   The manager entries of a month in insertion order, as `managers.items()`
   lists them: each manager of the month exactly once, with its counts.
   */
  function RowsOf(managers: Managers): (rows: seq<Row>)
    requires Valid(managers)
    ensures |rows| == |managers.keys|
    ensures forall i :: 0 <= i < |rows| ==> rows[i].manager == managers.keys[i]
    ensures forall i :: 0 <= i < |rows| ==> rows[i].manager in managers.entries && rows[i].counts == managers.entries[rows[i].manager]
    ensures forall i, j :: 0 <= i < j < |rows| ==> rows[i].manager != rows[j].manager
    ensures forall g :: g in managers.entries ==> exists i :: 0 <= i < |rows| && rows[i].manager == g
  {
    seq(|managers.keys|, i requires 0 <= i < |managers.keys| => Row(managers.keys[i], managers.entries[managers.keys[i]]))
  }

  /**
   The section of one month: the "no events" line exactly when the month has
   no manager entry; otherwise a permutation of its manager entries, ordered
   by total events non-increasing, with ties in insertion order.
   */
  function SectionFor(month: Month, managers: Managers): (s: Section)
    requires Valid(managers)
    ensures s.month == month
    ensures s.NoEvents? <==> managers.entries == map[]
    ensures s.MonthSection? ==>
      && multiset(s.rows) == multiset(RowsOf(managers))
      && SortedDesc(s.rows)
      && StableFor(s.rows, RowsOf(managers))
  {
    if managers.entries == map[] then NoEvents(month)
    else
      var rows := RowsOf(managers);
      var sorted := SortByEventsDesc(rows);
      NonIncreasingSorted(sorted);
      SortStable(rows);
      MonthSection(month, sorted)
  }

  /** The report of an accumulator: one section per month, in month insertion order. */
  function BuildReport(acc: Acc): (r: seq<Section>)
    requires ValidAcc(acc)
    ensures |r| == |acc.keys|
    ensures forall i :: 0 <= i < |r| ==> acc.keys[i] in acc.entries && r[i] == SectionFor(acc.keys[i], acc.entries[acc.keys[i]])
    ensures forall i :: 0 <= i < |r| ==> r[i].month == acc.keys[i]
    ensures forall i :: 0 <= i < |r| ==> (r[i].NoEvents? <==> acc.entries[acc.keys[i]].entries == map[])
  {
    seq(|acc.keys|, i requires 0 <= i < |acc.keys| => SectionFor(acc.keys[i], acc.entries[acc.keys[i]]))
  }

  /**
   No run reaches the "No events recorded for this month" branch: a month
   is only ever created together with a manager entry.
   */
  lemma NoEventsUnreachable(start: int, now: int, fetch: Fetcher, monthOf: MonthOf)
    ensures forall s :: s in BuildReport(Run(start, now, fetch, monthOf).acc) ==> s.MonthSection?
  {
    var o := Run(start, now, fetch, monthOf);
    var report := BuildReport(o.acc);
    forall s | s in report
      ensures s.MonthSection?
    {
      var i :| 0 <= i < |report| && report[i] == s;
      assert o.acc.entries[o.acc.keys[i]].entries != map[];
    }
  }

  /** A report row shows an existing entry of the accumulator: its month, its manager and its counts. */
  lemma ReportRowIsEntry(acc: Acc, i: int, j: int)
    requires ValidAcc(acc)
    requires 0 <= i < |acc.keys|
    requires acc.entries[acc.keys[i]].entries != map[] && 0 <= j < |acc.entries[acc.keys[i]].keys|
    ensures var s := BuildReport(acc)[i];
      && s.MonthSection? && j < |s.rows|
      && Present(acc, s.month, s.rows[j].manager)
      && s.rows[j].counts == Lookup(acc, s.month, s.rows[j].manager)
  {
    var s := BuildReport(acc)[i];
    assert |s.rows| == |multiset(s.rows)| == |multiset(RowsOf(acc.entries[acc.keys[i]]))|;
    var rows := RowsOf(acc.entries[acc.keys[i]]);
    assert s.rows[j] in multiset(rows);
    var k :| 0 <= k < |rows| && rows[k] == s.rows[j];
  }

  /**
   End to end: every row of a run's report shows, for its month and manager,
   the number of fetched records attributed to that manager in windows of
   that month and the sum of their events, and that number is positive.
   */
  lemma RunReportRows(start: int, now: int, fetch: Fetcher, monthOf: MonthOf)
    ensures var o := Run(start, now, fetch, monthOf);
      var ps := PagesOf(o.log, monthOf);
      var report := BuildReport(o.acc);
      forall i, j :: 0 <= i < |report| && report[i].MonthSection? && 0 <= j < |report[i].rows| ==>
        var m, g := report[i].month, report[i].rows[j].manager;
        && report[i].rows[j].counts == Counts(EventsFor(ps, m, g), AlertsFor(ps, m, g))
        && AlertsFor(ps, m, g) > 0
  {
    var o := Run(start, now, fetch, monthOf);
    var ps := PagesOf(o.log, monthOf);
    var report := BuildReport(o.acc);
    RunCounts(start, now, fetch, monthOf);
    forall i, j | 0 <= i < |report| && report[i].MonthSection? && 0 <= j < |report[i].rows|
      ensures report[i].rows[j].counts == Counts(EventsFor(ps, report[i].month, report[i].rows[j].manager), AlertsFor(ps, report[i].month, report[i].rows[j].manager))
      ensures AlertsFor(ps, report[i].month, report[i].rows[j].manager) > 0
    {
      assert |report[i].rows| == |multiset(report[i].rows)| == |multiset(RowsOf(o.acc.entries[o.acc.keys[i]]))|;
      ReportRowIsEntry(o.acc, i, j);
    }
  }

  /**
   End to end: every month in which some window returned a record has a
   section, and within it every manager that some such record is attributed
   to has a row.
   */
  lemma RunReportComplete(start: int, now: int, fetch: Fetcher, monthOf: MonthOf, m: Month, g: Manager)
    requires AlertsFor(PagesOf(Run(start, now, fetch, monthOf).log, monthOf), m, g) > 0
    ensures var report := BuildReport(Run(start, now, fetch, monthOf).acc);
      exists i, j :: 0 <= i < |report| && report[i].MonthSection? && 0 <= j < |report[i].rows| &&
        report[i].month == m && report[i].rows[j].manager == g
  {
    var o := Run(start, now, fetch, monthOf);
    var report := BuildReport(o.acc);
    RunCounts(start, now, fetch, monthOf);
    assert Present(o.acc, m, g);
    var i :| 0 <= i < |o.acc.keys| && o.acc.keys[i] == m;
    var managers := o.acc.entries[m];
    var rows := RowsOf(managers);
    var k :| 0 <= k < |managers.keys| && managers.keys[k] == g;
    assert rows[k] in multiset(report[i].rows);
    var j :| 0 <= j < |report[i].rows| && report[i].rows[j] == rows[k];
  }
}
