/**
 The records and responses of the alert-search endpoint, as far as the
 aggregation reads them. A JSON field that may be missing is an `Option`.
 */
module Alerts {
  import opened Wrappers

  type Manager = string
  type Month = string

  /** The opaque `search_after` pagination token. */
  type Token = string

  /** The manager a record is attributed to when it carries none. */
  const UnknownManager: Manager := "Unknown"

  /** One alert as returned with the fields `manager` and `event_count`. */
  datatype AlertRecord = AlertRecord(manager: Option<Manager>, eventCount: Option<int>)

  /** The `data` object of a response: the page of records and the next cursor. */
  datatype PageData = PageData(result: Option<seq<AlertRecord>>, searchAfter: Option<Token>)

  /** A decoded response body; `data` may be missing. */
  datatype Response = Response(data: Option<PageData>)

  /** The records of a page; a missing `data` or `result` reads as no records. */
  function Results(resp: Response): seq<AlertRecord> {
    match resp.data
    case None => []
    case Some(d) => d.result.GetOr([])
  }

  /** The cursor for the next request; absent when `data` or `search_after` is missing. */
  function NextCursor(resp: Response): Option<Token> {
    match resp.data
    case None => None
    case Some(d) => d.searchAfter
  }

  /**
   The manager a record counts for: the one it names, or "Unknown" when it
   names none, so a record naming "Unknown" is indistinguishable from one
   without a `manager`.
   */
  function EffectiveManager(r: AlertRecord): (g: Manager)
    ensures r.manager.Some? ==> g == r.manager.value
    ensures g == UnknownManager <==> r.manager.None? || r.manager == Some(UnknownManager)
  {
    r.manager.GetOr(UnknownManager)
  }

  /**
   The events a record contributes: its `event_count`, or none when it has no
   such field, so a missing count and an explicit 0 cannot be told apart.
   */
  function EffectiveEvents(r: AlertRecord): (e: int)
    ensures e == 0 <==> r.eventCount.None? || r.eventCount == Some(0)
  {
    r.eventCount.GetOr(0)
  }

  /** The per-(month, manager) accumulator value. */
  datatype Counts = Counts(events: int, alerts: nat)

  /** The value a fresh accumulator entry starts from. */
  const Zero: Counts := Counts(0, 0)

  function Plus(c: Counts, d: Counts): Counts {
    Counts(c.events + d.events, c.alerts + d.alerts)
  }

  /** What folding one record adds: its events, and one alert whatever its events. */
  function Unit(r: AlertRecord): Counts {
    Counts(EffectiveEvents(r), 1)
  }
}
