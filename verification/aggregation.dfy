/**
 The accumulator `month -> manager -> counts` and the fold of pages of alert
 records into it, with an independent reference definition of what every
 (month, manager) entry must hold.
 */
module Aggregation {
  import opened Wrappers
  import opened OrderedMap
  import opened Alerts

  type Managers = OMap<Manager, Counts>

  /** Months in order of first insertion, each with its managers in order of first insertion. */
  type Acc = OMap<Month, Managers>

  ghost predicate ValidAcc(a: Acc) {
    && Valid(a)
    && forall m :: m in a.entries ==> Valid(a.entries[m])
  }

  /** The report's "no events recorded" case is exactly a month without managers. */
  ghost predicate EveryMonthHasManager(a: Acc) {
    forall m :: m in a.entries ==> a.entries[m].entries != map[]
  }

  function EmptyAcc(): (a: Acc)
    ensures ValidAcc(a)
    ensures EveryMonthHasManager(a)
    ensures a.keys == []
  {
    Empty()
  }

  predicate Present(a: Acc, m: Month, g: Manager) {
    m in a.entries && g in a.entries[m].entries
  }

  /** The counts of an entry, or the default zero counts when it does not exist. */
  function Lookup(a: Acc, m: Month, g: Manager): Counts {
    if Present(a, m, g) then a.entries[m].entries[g] else Zero
  }

  /**
   Folds one record fetched for a window of month `month`: only the entry of
   (month, effective manager) changes, gaining the record's events and one
   alert; the month and the manager are created on first use.
   */
  function Add(a: Acc, month: Month, r: AlertRecord): (a': Acc)
    ensures ValidAcc(a) ==> ValidAcc(a')
    ensures EveryMonthHasManager(a) ==> EveryMonthHasManager(a')
    ensures a.keys <= a'.keys
    ensures forall m :: m in a'.entries <==> m in a.entries || m == month
  {
    var managers := if month in a.entries then a.entries[month] else Empty();
    var g := EffectiveManager(r);
    var c := if g in managers.entries then managers.entries[g] else Zero;
    Put(a, month, Put(managers, g, Plus(c, Unit(r))))
  }

  /**
   Adding a record changes only the entry of (month, effective manager): it
   gains the record's events and one alert, and exists afterwards.
   */
  lemma AddAt(a: Acc, month: Month, r: AlertRecord, m: Month, g: Manager)
    ensures Lookup(Add(a, month, r), m, g) ==
      (if m == month && g == EffectiveManager(r) then Plus(Lookup(a, m, g), Unit(r)) else Lookup(a, m, g))
    ensures Present(Add(a, month, r), m, g) <==> Present(a, m, g) || (m == month && g == EffectiveManager(r))
  {
    var managers := if month in a.entries then a.entries[month] else Empty();
    var h := EffectiveManager(r);
    var c := if h in managers.entries then managers.entries[h] else Zero;
    var managers' := Put(managers, h, Plus(c, Unit(r)));
    assert Add(a, month, r).entries == a.entries[month := managers'];
    assert managers'.entries == managers.entries[h := Plus(c, Unit(r))];
    if m == month {
      assert Lookup(a, m, h) == c;
    }
  }

  /**
   A record without `event_count` still counts as one alert of its manager
   and leaves that manager's event total as it was.
   */
  lemma MissingEventCountStillCounts(a: Acc, month: Month, r: AlertRecord)
    requires r.eventCount.None?
    ensures var g := EffectiveManager(r);
      && Lookup(Add(a, month, r), month, g).events == Lookup(a, month, g).events
      && Lookup(Add(a, month, r), month, g).alerts == Lookup(a, month, g).alerts + 1
      && Present(Add(a, month, r), month, g)
  {
    var g := EffectiveManager(r);
    AddAt(a, month, r, month, g);
    assert Unit(r) == Counts(0, 1);
  }

  lemma PlusAssociative(c: Counts, d: Counts, e: Counts)
    ensures Plus(Plus(c, d), e) == Plus(c, Plus(d, e))
  {
  }

  lemma PlusZero(c: Counts)
    ensures Plus(c, Zero) == c
  {
  }

  lemma ZeroPlus(c: Counts)
    ensures Plus(Zero, c) == c
  {
  }

  lemma PlusFields(events: int, alerts: nat, c: Counts, d: Counts)
    requires events == c.events + d.events && alerts == c.alerts + d.alerts
    ensures Counts(events, alerts) == Plus(c, d)
  {
  }

  /** Folding a part into `before` and then the rest, is folding both at once. */
  lemma AccumulateStep(before: Counts, after: Counts, part: Counts, rest: Counts, here: bool)
    requires after == if here then Plus(before, part) else before
    ensures Plus(after, rest) == Plus(before, if here then Plus(part, rest) else rest)
  {
  }

  /** Folds the records of one page, in order, all under the month of the page's window. */
  function FoldPage(a: Acc, month: Month, rs: seq<AlertRecord>): (a': Acc)
    ensures ValidAcc(a) ==> ValidAcc(a')
    ensures EveryMonthHasManager(a) ==> EveryMonthHasManager(a')
    ensures a.keys <= a'.keys
    decreases |rs|
  {
    if rs == [] then a else FoldPage(Add(a, month, rs[0]), month, rs[1..])
  }

  /** The records of one fetched page, tagged with the month of the window they were fetched for. */
  datatype Page = Page(month: Month, records: seq<AlertRecord>)

  /** Folds the pages of successive windows, in order, each under its own month. */
  function FoldPages(a: Acc, ps: seq<Page>): (a': Acc)
    ensures ValidAcc(a) ==> ValidAcc(a')
    ensures EveryMonthHasManager(a) ==> EveryMonthHasManager(a')
    ensures a.keys <= a'.keys
    decreases |ps|
  {
    if ps == [] then a else FoldPages(FoldPage(a, ps[0].month, ps[0].records), ps[1..])
  }

  /**
   A response without `data`, or whose `data` has no `result`, contributes no
   records: the accumulator leaves that window unchanged.
   */
  lemma MissingResultUnchanged(a: Acc, month: Month, resp: Response)
    requires resp.data.None? || resp.data.value.result.None?
    ensures FoldPage(a, month, Results(resp)) == a
  {
  }

  // Reference definitions: what the accumulator should hold, counted directly.

  /** Number of records attributed to manager `g`. */
  function AlertsIn(rs: seq<AlertRecord>, g: Manager): nat {
    if rs == [] then 0
    else (if EffectiveManager(rs[0]) == g then 1 else 0) + AlertsIn(rs[1..], g)
  }

  /** Sum of the events of the records attributed to manager `g`. */
  function EventsIn(rs: seq<AlertRecord>, g: Manager): int {
    if rs == [] then 0
    else (if EffectiveManager(rs[0]) == g then EffectiveEvents(rs[0]) else 0) + EventsIn(rs[1..], g)
  }

  /** Number of records in pages of month `m` attributed to manager `g`. */
  function AlertsFor(ps: seq<Page>, m: Month, g: Manager): nat {
    if ps == [] then 0
    else (if ps[0].month == m then AlertsIn(ps[0].records, g) else 0) + AlertsFor(ps[1..], m, g)
  }

  /** Sum of the events of the records in pages of month `m` attributed to manager `g`. */
  function EventsFor(ps: seq<Page>, m: Month, g: Manager): int {
    if ps == [] then 0
    else (if ps[0].month == m then EventsIn(ps[0].records, g) else 0) + EventsFor(ps[1..], m, g)
  }

  /** Number of records, of any manager, in pages of month `m`. */
  function RecordsFor(ps: seq<Page>, m: Month): nat {
    if ps == [] then 0
    else (if ps[0].month == m then |ps[0].records| else 0) + RecordsFor(ps[1..], m)
  }

  /** Number of records that name manager `g` explicitly. */
  function NamedCount(rs: seq<AlertRecord>, g: Manager): nat {
    if rs == [] then 0
    else (if rs[0].manager == Some(g) then 1 else 0) + NamedCount(rs[1..], g)
  }

  /** Number of records without a `manager` field. */
  function MissingManagerCount(rs: seq<AlertRecord>): nat {
    if rs == [] then 0
    else (if rs[0].manager.None? then 1 else 0) + MissingManagerCount(rs[1..])
  }

  /**
   Folding a page adds to the entry (m, g) of the page's month exactly the
   counts of the records attributed to g, leaves entries of other months
   untouched, and creates the entry only if some record is attributed to it.
   */
  lemma {:induction false} FoldPageAt(a: Acc, month: Month, rs: seq<AlertRecord>, m: Month, g: Manager)
    ensures Lookup(FoldPage(a, month, rs), m, g) ==
      (if m == month then Plus(Lookup(a, m, g), Counts(EventsIn(rs, g), AlertsIn(rs, g))) else Lookup(a, m, g))
    ensures Present(FoldPage(a, month, rs), m, g) <==> Present(a, m, g) || (m == month && AlertsIn(rs, g) > 0)
    decreases |rs|
  {
    if rs == [] {
      assert Lookup(FoldPage(a, month, rs), m, g) == Lookup(a, m, g);
      assert Counts(EventsIn(rs, g), AlertsIn(rs, g)) == Zero;
      PlusZero(Lookup(a, m, g));
    } else {
      var a1 := Add(a, month, rs[0]);
      AddAt(a, month, rs[0], m, g);
      FoldPageAt(a1, month, rs[1..], m, g);
      assert FoldPage(a, month, rs) == FoldPage(a1, month, rs[1..]);
      var here := EffectiveManager(rs[0]) == g;
      assert AlertsIn(rs, g) == (if here then 1 else 0) + AlertsIn(rs[1..], g);
      assert EventsIn(rs, g) == (if here then EffectiveEvents(rs[0]) else 0) + EventsIn(rs[1..], g);
      if m == month {
        var before, after := Lookup(a, m, g), Lookup(a1, m, g);
        var rest := Counts(EventsIn(rs[1..], g), AlertsIn(rs[1..], g));
        assert Lookup(FoldPage(a, month, rs), m, g) == Plus(after, rest);
        if here {
          assert after == Plus(before, Unit(rs[0]));
          assert Plus(Unit(rs[0]), rest) == Counts(EventsIn(rs, g), AlertsIn(rs, g));
          PlusAssociative(before, Unit(rs[0]), rest);
        } else {
          assert after == before;
          assert rest == Counts(EventsIn(rs, g), AlertsIn(rs, g));
        }
      } else {
        assert Lookup(FoldPage(a, month, rs), m, g) == Lookup(a, m, g);
      }
    }
  }

  /** Folding a page creates no month other than its own, and its own only when it holds a record. */
  lemma {:induction false} FoldPageMonth(a: Acc, month: Month, rs: seq<AlertRecord>, m: Month)
    ensures m in FoldPage(a, month, rs).entries <==> m in a.entries || (m == month && |rs| > 0)
    decreases |rs|
  {
    if rs != [] {
      FoldPageMonth(Add(a, month, rs[0]), month, rs[1..], m);
    }
  }

  /** The same for a sequence of pages, against the per-month reference counts. */
  lemma {:induction false} FoldPagesAt(a: Acc, ps: seq<Page>, m: Month, g: Manager)
    ensures Lookup(FoldPages(a, ps), m, g) == Plus(Lookup(a, m, g), Counts(EventsFor(ps, m, g), AlertsFor(ps, m, g)))
    decreases |ps|
  {
    if ps == [] {
      assert Counts(EventsFor(ps, m, g), AlertsFor(ps, m, g)) == Zero;
      PlusZero(Lookup(a, m, g));
    } else {
      var p, tail := ps[0], ps[1..];
      var a1 := FoldPage(a, p.month, p.records);
      var page := Counts(EventsIn(p.records, g), AlertsIn(p.records, g));
      var rest := Counts(EventsFor(tail, m, g), AlertsFor(tail, m, g));
      FoldPagesAt(a1, tail, m, g);
      FoldPageAt(a, p.month, p.records, m, g);
      FoldPagesUnfold(a, ps, m, g);
      ForUnfold(ps, m, g);
      AccumulateStep(Lookup(a, m, g), Lookup(a1, m, g), page, rest, p.month == m);
    }
  }

  lemma FoldPagesUnfold(a: Acc, ps: seq<Page>, m: Month, g: Manager)
    requires ps != []
    ensures Lookup(FoldPages(a, ps), m, g) == Lookup(FoldPages(FoldPage(a, ps[0].month, ps[0].records), ps[1..]), m, g)
  {
  }

  lemma ForUnfold(ps: seq<Page>, m: Month, g: Manager)
    requires ps != []
    ensures Counts(EventsFor(ps, m, g), AlertsFor(ps, m, g)) ==
      var page := Counts(EventsIn(ps[0].records, g), AlertsIn(ps[0].records, g));
      var rest := Counts(EventsFor(ps[1..], m, g), AlertsFor(ps[1..], m, g));
      if ps[0].month == m then Plus(page, rest) else rest
  {
    var here := ps[0].month == m;
    var e, n := EventsIn(ps[0].records, g), AlertsIn(ps[0].records, g);
    assert EventsFor(ps, m, g) == (if here then e else 0) + EventsFor(ps[1..], m, g);
    assert AlertsFor(ps, m, g) == (if here then n else 0) + AlertsFor(ps[1..], m, g);
    var rest := Counts(EventsFor(ps[1..], m, g), AlertsFor(ps[1..], m, g));
    if here {
      PlusFields(EventsFor(ps, m, g), AlertsFor(ps, m, g), Counts(e, n), rest);
    } else {
      assert Counts(EventsFor(ps, m, g), AlertsFor(ps, m, g)) == rest;
    }
  }

  lemma {:induction false} FoldPagesPresent(a: Acc, ps: seq<Page>, m: Month, g: Manager)
    ensures Present(FoldPages(a, ps), m, g) <==> Present(a, m, g) || AlertsFor(ps, m, g) > 0
    decreases |ps|
  {
    if ps != [] {
      var p := ps[0];
      FoldPageAt(a, p.month, p.records, m, g);
      FoldPagesPresent(FoldPage(a, p.month, p.records), ps[1..], m, g);
    }
  }

  lemma {:induction false} FoldPagesMonth(a: Acc, ps: seq<Page>, m: Month)
    ensures m in FoldPages(a, ps).entries <==> m in a.entries || RecordsFor(ps, m) > 0
    decreases |ps|
  {
    if ps != [] {
      FoldPageMonth(a, ps[0].month, ps[0].records, m);
      FoldPagesMonth(FoldPage(a, ps[0].month, ps[0].records), ps[1..], m);
    }
  }

  /**
   Aggregating pages from scratch: an entry exists exactly for the (month,
   manager) pairs that some record is attributed to, and every (month,
   manager) reads as the sum of the events and the number of the records
   attributed to it (zero for an absent entry); a month exists exactly when
   some record was fetched for it, and no month is left without managers.
   */
  lemma AggregateFromEmpty(ps: seq<Page>)
    ensures var a := FoldPages(EmptyAcc(), ps);
      && (forall m, g :: Present(a, m, g) <==> AlertsFor(ps, m, g) > 0)
      && (forall m, g :: Lookup(a, m, g) == Counts(EventsFor(ps, m, g), AlertsFor(ps, m, g)))
      && (forall m :: m in a.entries <==> RecordsFor(ps, m) > 0)
      && EveryMonthHasManager(a)
  {
    var a := FoldPages(EmptyAcc(), ps);
    forall m, g
      ensures Present(a, m, g) <==> AlertsFor(ps, m, g) > 0
      ensures Lookup(a, m, g) == Counts(EventsFor(ps, m, g), AlertsFor(ps, m, g))
    {
      FoldPagesAt(EmptyAcc(), ps, m, g);
      ZeroPlus(Counts(EventsFor(ps, m, g), AlertsFor(ps, m, g)));
      FoldPagesPresent(EmptyAcc(), ps, m, g);
    }
    forall m
      ensures m in a.entries <==> RecordsFor(ps, m) > 0
    {
      FoldPagesMonth(EmptyAcc(), ps, m);
    }
  }

  /**
   The "Unknown" entry of a manager receives the records without a `manager`
   field and those naming "Unknown" literally; any other manager receives
   exactly the records that name it.
   */
  lemma {:induction false} UnknownAttribution(rs: seq<AlertRecord>, g: Manager)
    ensures AlertsIn(rs, g) == NamedCount(rs, g) + (if g == UnknownManager then MissingManagerCount(rs) else 0)
    decreases |rs|
  {
    if rs != [] {
      UnknownAttribution(rs[1..], g);
    }
  }
}
