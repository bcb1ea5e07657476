/**
 The worked example of the report: a run of a single four-hour window whose
 page holds a record of manager A with 10 events, one of A with 5 and one of
 B with 1 — for any month, any start instant and any two distinct managers.
 */
module Scenario {
  import opened Wrappers
  import opened OrderedMap
  import opened Alerts
  import opened Aggregation
  import opened Ranking
  import opened Windowing
  import opened Report

  function ExamplePage(alpha: Manager, beta: Manager): seq<AlertRecord> {
    [AlertRecord(Some(alpha), Some(10)), AlertRecord(Some(alpha), Some(5)), AlertRecord(Some(beta), Some(1))]
  }

  lemma FirstRecord(month: Month, alpha: Manager)
    ensures var a := Add(EmptyAcc(), month, AlertRecord(Some(alpha), Some(10)));
      && a.keys == [month]
      && a.entries[month].keys == [alpha] && a.entries[month].entries[alpha] == Counts(10, 1)
  {
  }

  lemma SecondRecord(a: Acc, month: Month, alpha: Manager)
    requires ValidAcc(a) && a.keys == [month]
    requires a.entries[month].keys == [alpha] && a.entries[month].entries[alpha] == Counts(10, 1)
    ensures var a' := Add(a, month, AlertRecord(Some(alpha), Some(5)));
      && a'.keys == [month]
      && a'.entries[month].keys == [alpha] && a'.entries[month].entries[alpha] == Counts(15, 2)
  {
  }

  lemma ThirdRecord(a: Acc, month: Month, alpha: Manager, beta: Manager)
    requires alpha != beta
    requires ValidAcc(a) && a.keys == [month]
    requires a.entries[month].keys == [alpha] && a.entries[month].entries[alpha] == Counts(15, 2)
    ensures var a' := Add(a, month, AlertRecord(Some(beta), Some(1)));
      && a'.keys == [month]
      && a'.entries[month].keys == [alpha, beta]
      && a'.entries[month].entries[alpha] == Counts(15, 2)
      && a'.entries[month].entries[beta] == Counts(1, 1)
  {
  }

  lemma FoldThree(a: Acc, month: Month, rs: seq<AlertRecord>)
    requires |rs| == 3
    ensures FoldPage(a, month, rs) == Add(Add(Add(a, month, rs[0]), month, rs[1]), month, rs[2])
  {
    var a1 := Add(a, month, rs[0]);
    var a2 := Add(a1, month, rs[1]);
    FoldPageCons(a, month, rs);
    FoldPageCons(a1, month, rs[1..]);
    FoldPageCons(a2, month, rs[2..]);
    assert rs[1..][1..] == rs[2..] && rs[2..][1..] == [];
  }

  lemma FoldPageCons(a: Acc, month: Month, rs: seq<AlertRecord>)
    requires rs != []
    ensures FoldPage(a, month, rs) == FoldPage(Add(a, month, rs[0]), month, rs[1..])
  {
  }

  /** The page folded from scratch. */
  lemma ExampleFold(month: Month, alpha: Manager, beta: Manager)
    requires alpha != beta
    ensures var a := FoldPage(EmptyAcc(), month, ExamplePage(alpha, beta));
      && a.keys == [month]
      && a.entries[month].keys == [alpha, beta]
      && a.entries[month].entries[alpha] == Counts(15, 2)
      && a.entries[month].entries[beta] == Counts(1, 1)
  {
    var rs := ExamplePage(alpha, beta);
    var a1 := Add(EmptyAcc(), month, rs[0]);
    FirstRecord(month, alpha);
    var a2 := Add(a1, month, rs[1]);
    SecondRecord(a1, month, alpha);
    var a3 := Add(a2, month, rs[2]);
    ThirdRecord(a2, month, alpha, beta);
    FoldThree(EmptyAcc(), month, rs);
  }

  function ExampleFetch(alpha: Manager, beta: Manager): Fetcher {
    (w: Window, c: Option<Token>) => Response(Some(PageData(Some(ExamplePage(alpha, beta)), None)))
  }

  /** A run shorter than one window makes one request and folds its page. */
  lemma ExampleRun(start: int, now: int, month: Month, alpha: Manager, beta: Manager)
    requires start < now <= start + WindowSeconds
    ensures Run(start, now, ExampleFetch(alpha, beta), (t: int) => month).acc == FoldPage(EmptyAcc(), month, ExamplePage(alpha, beta))
  {
    var fetch, monthOf := ExampleFetch(alpha, beta), (t: int) => month;
    var response := fetch(Window(start, start + WindowSeconds), None);
    assert Results(response) == ExamplePage(alpha, beta);
    LoopAdvance(start, now, None, EmptyAcc(), fetch, monthOf, []);
  }

  lemma ExampleRanking(alpha: Manager, beta: Manager)
    ensures var rows := [Row(alpha, Counts(15, 2)), Row(beta, Counts(1, 1))];
      SortByEventsDesc(rows) == rows
  {
    var rows := [Row(alpha, Counts(15, 2)), Row(beta, Counts(1, 1))];
    assert rows[1..] == [rows[1]] && rows[1..][1..] == [];
  }

  lemma ExampleSection(acc: Acc, month: Month, alpha: Manager, beta: Manager)
    requires ValidAcc(acc) && acc.keys == [month]
    requires acc.entries[month].keys == [alpha, beta]
    requires acc.entries[month].entries[alpha] == Counts(15, 2) && acc.entries[month].entries[beta] == Counts(1, 1)
    ensures BuildReport(acc) == [MonthSection(month, [Row(alpha, Counts(15, 2)), Row(beta, Counts(1, 1))])]
  {
    var rows := [Row(alpha, Counts(15, 2)), Row(beta, Counts(1, 1))];
    assert RowsOf(acc.entries[month]) == rows;
    ExampleRanking(alpha, beta);
  }

  /**
   The report of the example: A with 2 alerts and 15 events, listed before
   B with 1 alert and 1 event.
   */
  lemma ExampleReport(start: int, now: int, month: Month, alpha: Manager, beta: Manager)
    requires start < now <= start + WindowSeconds
    requires alpha != beta
    ensures BuildReport(Run(start, now, ExampleFetch(alpha, beta), (t: int) => month).acc) ==
      [MonthSection(month, [Row(alpha, Counts(15, 2)), Row(beta, Counts(1, 1))])]
  {
    var acc := FoldPage(EmptyAcc(), month, ExamplePage(alpha, beta));
    ExampleRun(start, now, month, alpha, beta);
    ExampleFold(month, alpha, beta);
    ExampleSection(acc, month, alpha, beta);
  }
}
