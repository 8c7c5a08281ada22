/**
 * The body of the GraphQL response handler (src/monitor.ts:82-123) as a
 * specification: what one pass over a parsed `publicParkingAvailability`
 * payload sends, and what it leaves as the new availability state.
 */
module Tracker {

  import opened Wrappers
  import opened Records
  import Calendar
  import Report

  /** `status.sold_out`, reduced to what `?? false` and `!` make of it. */
  datatype SoldOut =
    | Missing                  // no `sold_out` key, or a status that is not an object
    | Null                     // `sold_out: null`
    | Present(truthy: bool)    // any other value, by its truthiness

  /** The shapes of one date's details that the handler tells apart. */
  datatype Details =
    | NotAnObject              // a number, string, boolean or null
    | NoStatus                 // an object or array without a `status` key
    | NullStatus               // `status: null`: reading `sold_out` from it throws
    | WithStatus(soldOut: SoldOut)

  /** One `[date, details]` pair of `Object.entries`. */
  type Entry = (string, Details)

  /** A response body: not JSON, or JSON with or without a truthy availability object. */
  datatype Body = NotJson | Json(availability: Option<seq<Entry>>)

  datatype Response = Response(url: string, body: Body)

  /** One call of sendNotification. */
  datatype Notification = Notification(subject: string, message: string)

  const ALERT_SUBJECT: string := "🚗 Weekend Parking Available!"
  const STARTUP_SUBJECT: string := "📊 Startup Parking Report"

  function AlertMessage(date: string): string {
    "🚗 Parking is now available for " + date + " at Stevens Pass. Book now!"
  }

  function Alert(date: string): Notification {
    Notification(ALERT_SUBJECT, AlertMessage(date))
  }

  /** Different dates give different alerts. */
  lemma AlertInjective(d1: string, d2: string)
    requires Alert(d1) == Alert(d2)
    ensures d1 == d2
  {
    var pre := "🚗 Parking is now available for ";
    var m1, m2 := AlertMessage(d1), AlertMessage(d2);
    assert |d1| == |d2|;
    assert m1[|pre|..|pre| + |d1|] == d1;
    assert m2[|pre|..|pre| + |d2|] == d2;
  }

  /** `status.sold_out ?? false`, as a truth value. */
  function SoldOutFlag(soldOut: SoldOut): bool {
    match soldOut
    case Missing => false
    case Null => false
    case Present(truthy) => truthy
  }

  /** `!soldOut`: the availability recorded for an entry (line 103). */
  function Available(soldOut: SoldOut): bool {
    !SoldOutFlag(soldOut)
  }

  /** `text.includes(part)` */
  predicate Contains(text: string, part: string) {
    exists i :: 0 <= i <= |text| && part <= text[i..]
  }

  /** No date occurs twice among the payload's entries, as with the keys of a parsed JSON object. */
  predicate DistinctDates(entries: seq<Entry>) {
    forall i, j :: 0 <= i < j < |entries| ==> entries[i].0 != entries[j].0
  }

  /** The date filter of line 92 at time `now`. */
  function WeekendFilter(now: int): string -> bool {
    date => Calendar.IsFutureWeekend(date, now)
  }

  /** An entry that the pass records: a date the filter keeps, with a usable status. */
  predicate Recorded(e: Entry, keep: string -> bool) {
    keep(e.0) && e.1.WithStatus?
  }

  function RowOf(e: Entry): (string, bool)
    requires e.1.WithStatus?
  {
    (e.0, Available(e.1.soldOut))
  }

  /** The rows (date, available) recorded so far, and whether the pass has thrown. */
  datatype Scan = Scan(rows: seq<(string, bool)>, threw: bool)

  /** The loop of lines 91-113 over a prefix of the entries, `keep` being its date filter. */
  function ScanEntries(entries: seq<Entry>, keep: string -> bool): Scan
  {
    if entries == [] then Scan([], false)
    else
      var s := ScanEntries(entries[..|entries| - 1], keep);
      var e := entries[|entries| - 1];
      if s.threw || !keep(e.0) then s
      else match e.1
        case NullStatus => Scan(s.rows, true)
        case WithStatus(_) => Scan(s.rows + [RowOf(e)], false)
        case _ => s
  }

  /** `newAvailability` after assigning the rows in order. */
  function Build(rows: seq<(string, bool)>): Entries
  {
    if rows == [] then [] else Assign(Build(rows[..|rows| - 1]), rows[|rows| - 1].0, rows[|rows| - 1].1)
  }

  /** The alert condition of line 109. */
  predicate Flips(prev: map<string, bool>, row: (string, bool)) {
    row.0 in prev && !prev[row.0] && row.1
  }

  /** The alerts sent while the rows are recorded, in row order. */
  function Alerts(prev: map<string, bool>, rows: seq<(string, bool)>): seq<Notification>
  {
    if rows == [] then []
    else
      var row := rows[|rows| - 1];
      Alerts(prev, rows[..|rows| - 1]) + if Flips(prev, row) then [Alert(row.0)] else []
  }

  function StartupReport(rows: seq<(string, bool)>): Notification {
    Notification(STARTUP_SUBJECT, Report.Join(Report.ReportLines(Report.STARTUP_HEADER, rows)))
  }

  /** What one handled response amounts to. */
  datatype Outcome =
    | Ignored                                          // not a GraphQL response, not JSON, or no availability
    | Threw(sent: seq<Notification>)                   // the pass threw; state is kept
    | Updated(state: Entries, sent: seq<Notification>) // the pass completed; state is replaced

  /** The payload the handler iterates over, if any (lines 83-87). */
  function Payload(response: Response): Option<seq<Entry>> {
    if !Contains(response.url, "graphql") then None
    else match response.body
      case NotJson => None
      case Json(availability) => availability
  }

  /** One pass over the entries of a payload, from the state view `prev`. */
  function Pass(prev: map<string, bool>, entries: seq<Entry>, now: int): Outcome
  {
    var s := ScanEntries(entries, WeekendFilter(now));
    if s.threw then Threw(Alerts(prev, s.rows))
    else Updated(Build(s.rows), Alerts(prev, s.rows) + [StartupReport(s.rows)])
  }

  function HandleResponse(prev: map<string, bool>, response: Response, now: int): Outcome {
    match Payload(response)
    case None => Ignored
    case Some(entries) => Pass(prev, entries, now)
  }

  // ---------------------------------------------------------------------------
  // The scan
  // ---------------------------------------------------------------------------

  /** `row` is the row of some recorded entry. */
  predicate FromEntry(row: (string, bool), entries: seq<Entry>, keep: string -> bool) {
    exists j :: 0 <= j < |entries| && Recorded(entries[j], keep) && row == RowOf(entries[j])
  }

  /** Every recorded row comes from a recorded entry. */
  lemma {:induction false} ScanRowsSound(entries: seq<Entry>, keep: string -> bool)
    ensures forall row :: row in ScanEntries(entries, keep).rows ==> FromEntry(row, entries, keep)
  {
    if entries != [] {
      var init := entries[..|entries| - 1];
      ScanRowsSound(init, keep);
      var si := ScanEntries(init, keep);
      var rows := ScanEntries(entries, keep).rows;
      forall row | row in rows ensures FromEntry(row, entries, keep) {
        if row in si.rows {
          assert FromEntry(row, init, keep);
          var j :| 0 <= j < |init| && Recorded(init[j], keep) && row == RowOf(init[j]);
          assert entries[j] == init[j];
        } else {
          assert row == RowOf(entries[|entries| - 1]);
        }
      }
    }
  }

  /**
   * The startup report of a pass at `now` reads back line by line: the header,
   * then each recorded row in order. A date the filter keeps is a strict
   * `YYYY-MM-DD` string, so no line break hides inside a row.
   */
  lemma StartupReportShape(entries: seq<Entry>, now: int)
    ensures var rows := ScanEntries(entries, WeekendFilter(now)).rows;
      var lines := Report.Split(StartupReport(rows).message);
      |lines| == 1 + |rows| && lines[0] == Report.STARTUP_HEADER
      && forall i :: 0 <= i < |rows| ==> Report.ParseEntryLine(lines[i + 1]) == Some(rows[i])
  {
    var keep := WeekendFilter(now);
    var rows := ScanEntries(entries, keep).rows;
    ScanRowsSound(entries, keep);
    forall i | 0 <= i < |rows| ensures Report.NoNewline(rows[i].0) {
      assert FromEntry(rows[i], entries, keep);
      var j :| 0 <= j < |entries| && Recorded(entries[j], keep) && rows[i] == RowOf(entries[j]);
      assert Calendar.IsFutureWeekend(rows[i].0, now);
      Calendar.ParseDateChars(rows[i].0);
    }
    Report.RenderedReportShape(Report.STARTUP_HEADER, rows);
  }

  /** A scan that does not throw records every recorded entry. */
  lemma {:induction false} ScanRowsComplete(entries: seq<Entry>, keep: string -> bool)
    ensures var s := ScanEntries(entries, keep);
      !s.threw ==> forall j :: 0 <= j < |entries| && Recorded(entries[j], keep) ==> RowOf(entries[j]) in s.rows
  {
    if entries != [] {
      var init := entries[..|entries| - 1];
      ScanRowsComplete(init, keep);
      var s := ScanEntries(entries, keep);
      var si := ScanEntries(init, keep);
      if !s.threw {
        assert !si.threw;
        forall j | 0 <= j < |entries| && Recorded(entries[j], keep) ensures RowOf(entries[j]) in s.rows {
          if j < |init| {
            assert init[j] == entries[j];
            assert RowOf(init[j]) in si.rows;
          }
        }
      }
    }
  }

  /** The scan throws exactly when some kept entry has a null status. */
  lemma {:induction false} ScanThrowsIff(entries: seq<Entry>, keep: string -> bool)
    ensures ScanEntries(entries, keep).threw <==>
      exists j :: 0 <= j < |entries| && keep(entries[j].0) && entries[j].1.NullStatus?
  {
    if entries != [] {
      var init := entries[..|entries| - 1];
      ScanThrowsIff(init, keep);
      if exists j :: 0 <= j < |init| && keep(init[j].0) && init[j].1.NullStatus? {
        var j :| 0 <= j < |init| && keep(init[j].0) && init[j].1.NullStatus?;
        assert entries[j] == init[j];
      }
      if exists j :: 0 <= j < |entries| && keep(entries[j].0) && entries[j].1.NullStatus? {
        var j :| 0 <= j < |entries| && keep(entries[j].0) && entries[j].1.NullStatus?;
        if j < |init| {
          assert init[j] == entries[j];
        }
      }
    }
  }

  /** Distinct payload dates give rows with distinct dates. */
  lemma {:induction false} ScanRowsDistinct(entries: seq<Entry>, keep: string -> bool)
    requires DistinctDates(entries)
    ensures DistinctKeys(ScanEntries(entries, keep).rows)
  {
    if entries != [] {
      var init := entries[..|entries| - 1];
      var last := entries[|entries| - 1];
      assert DistinctDates(init) by {
        forall i, j | 0 <= i < j < |init| ensures init[i].0 != init[j].0 {
          assert init[i] == entries[i] && init[j] == entries[j];
        }
      }
      ScanRowsDistinct(init, keep);
      var si := ScanEntries(init, keep);
      var s := ScanEntries(entries, keep);
      if s.rows != si.rows {
        assert s.rows == si.rows + [RowOf(last)];
        ScanRowsSound(init, keep);
        forall i, k | 0 <= i < k < |s.rows| ensures Keys(s.rows)[i] != Keys(s.rows)[k] {
          if k == |si.rows| {
            assert s.rows[i] == si.rows[i];
            assert FromEntry(si.rows[i], init, keep);
            var j :| 0 <= j < |init| && Recorded(init[j], keep) && si.rows[i] == RowOf(init[j]);
            assert init[j] == entries[j] && entries[j].0 != entries[|init|].0;
          } else {
            assert Keys(si.rows)[i] != Keys(si.rows)[k];
          }
        }
      }
    }
  }

  /** The rows of the recorded entries, in payload order, throwing aside. */
  function RecordedRows(entries: seq<Entry>, keep: string -> bool): seq<(string, bool)>
  {
    if entries == [] then []
    else
      var e := entries[|entries| - 1];
      RecordedRows(entries[..|entries| - 1], keep) + if Recorded(e, keep) then [RowOf(e)] else []
  }

  /** Entry `k` is the first one whose null status the filter lets through. */
  predicate FirstNullStatus(entries: seq<Entry>, keep: string -> bool, k: int) {
    && 0 <= k < |entries| && keep(entries[k].0) && entries[k].1.NullStatus?
    && forall j :: 0 <= j < k ==> !(keep(entries[j].0) && entries[j].1.NullStatus?)
  }

  /**
   * The loop records the rows of the recorded entries in payload order: all
   * of them when it completes, and those before the first kept null status
   * when it throws there.
   */
  lemma {:induction false} ScanRowsInOrder(entries: seq<Entry>, keep: string -> bool)
    ensures var s := ScanEntries(entries, keep);
      && (!s.threw ==> s.rows == RecordedRows(entries, keep))
      && (s.threw ==> exists k :: FirstNullStatus(entries, keep, k) && s.rows == RecordedRows(entries[..k], keep))
  {
    if entries != [] {
      var init := entries[..|entries| - 1];
      var e := entries[|entries| - 1];
      ScanRowsInOrder(init, keep);
      var si := ScanEntries(init, keep);
      if si.threw {
        var k :| FirstNullStatus(init, keep, k) && si.rows == RecordedRows(init[..k], keep);
        assert init[..k] == entries[..k];
        assert FirstNullStatus(entries, keep, k) by {
          forall j | 0 <= j <= k ensures entries[j] == init[j] { }
        }
      } else if keep(e.0) && e.1.NullStatus? {
        ScanThrowsIff(init, keep);
        assert entries[..|init|] == init;
        assert FirstNullStatus(entries, keep, |init|) by {
          forall j | 0 <= j < |init| ensures entries[j] == init[j] { }
        }
      }
    }
  }

  // ---------------------------------------------------------------------------
  // The new state
  // ---------------------------------------------------------------------------

  /** The object built from the rows never holds a key twice. */
  lemma {:induction false} BuildDistinct(rows: seq<(string, bool)>)
    ensures DistinctKeys(Build(rows))
  {
    if rows != [] {
      BuildDistinct(rows[..|rows| - 1]);
      AssignDistinct(Build(rows[..|rows| - 1]), rows[|rows| - 1].0, rows[|rows| - 1].1);
    }
  }

  /** The object built from the rows holds exactly the rows' dates. */
  lemma {:induction false} BuildKeys(rows: seq<(string, bool)>, date: string)
    ensures date in AsMap(Build(rows)) <==> date in Keys(rows)
  {
    if rows != [] {
      var init := rows[..|rows| - 1];
      var last := rows[|rows| - 1];
      BuildKeys(init, date);
      AssignMap(Build(init), last.0, last.1);
      KeyInSnoc(rows, date);
    }
  }

  /** Rows with distinct dates are assigned each to a new key, so the object lists them as they are. */
  lemma {:induction false} BuildDistinctRows(rows: seq<(string, bool)>)
    requires DistinctKeys(rows)
    ensures Build(rows) == rows
  {
    if rows != [] {
      var init := rows[..|rows| - 1];
      var last := rows[|rows| - 1];
      DistinctKeysPrefix(rows, |init|);
      BuildDistinctRows(init);
      assert last.0 !in Keys(init);
      AssignAbsent(init, last.0, last.1);
      assert init + [last] == rows;
    }
  }

  /** With distinct dates, the object built from the rows holds each row's value. */
  lemma BuildAt(rows: seq<(string, bool)>, k: int)
    requires DistinctKeys(rows) && 0 <= k < |rows|
    ensures rows[k].0 in AsMap(Build(rows)) && AsMap(Build(rows))[rows[k].0] == rows[k].1
  {
    BuildDistinctRows(rows);
    AsMapAt(rows, k);
  }

  // ---------------------------------------------------------------------------
  // The alerts
  // ---------------------------------------------------------------------------

  /**
   * Every notification sent for the rows is an alert, and an alert for `date`
   * is sent exactly when a row for `date` is available and `prev` holds false.
   */
  lemma {:induction false} AlertsIff(prev: map<string, bool>, rows: seq<(string, bool)>, date: string)
    ensures forall n :: n in Alerts(prev, rows) ==> n.subject == ALERT_SUBJECT
    ensures Alert(date) in Alerts(prev, rows) <==> exists row :: row in rows && row.0 == date && Flips(prev, row)
  {
    if rows != [] {
      var init := rows[..|rows| - 1];
      var last := rows[|rows| - 1];
      AlertsIff(prev, init, date);
      assert rows == init + [last];
      if Alert(date) in Alerts(prev, rows) && Alert(date) !in Alerts(prev, init) {
        AlertInjective(date, last.0);
      }
    }
  }

  /** Rows with distinct dates send each alert at most once. */
  lemma {:induction false} AlertsDistinct(prev: map<string, bool>, rows: seq<(string, bool)>)
    requires DistinctKeys(rows)
    ensures var alerts := Alerts(prev, rows);
      forall i, j :: 0 <= i < j < |alerts| ==> alerts[i] != alerts[j]
  {
    if rows != [] {
      var init := rows[..|rows| - 1];
      var last := rows[|rows| - 1];
      DistinctKeysPrefix(rows, |init|);
      AlertsDistinct(prev, init);
      if Flips(prev, last) {
        forall row | row in init ensures row.0 != last.0 {
          var i :| 0 <= i < |init| && init[i] == row;
          assert Keys(rows)[i] != Keys(rows)[|init|];
        }
        AlertsIff(prev, init, last.0);
        var a := Alerts(prev, rows);
        assert a == Alerts(prev, init) + [Alert(last.0)];
        forall i, j | 0 <= i < j < |a| ensures a[i] != a[j] {
          if j == |a| - 1 {
            assert a[i] in Alerts(prev, init);
          }
        }
      } else {
        var a := Alerts(prev, rows);
        assert a == Alerts(prev, init);
        forall i, j | 0 <= i < j < |a| ensures a[i] != a[j] {
          assert a[i] == Alerts(prev, init)[i] && a[j] == Alerts(prev, init)[j];
        }
      }
    }
  }

  /** The alerts of rows with distinct dates, then a startup report, repeat no notification. */
  lemma AlertsThenReport(prev: map<string, bool>, rows: seq<(string, bool)>, report: Notification)
    requires DistinctKeys(rows) && report.subject == STARTUP_SUBJECT
    ensures var sent := Alerts(prev, rows) + [report];
      forall i, j :: 0 <= i < j < |sent| ==> sent[i] != sent[j]
  {
    var alerts := Alerts(prev, rows);
    AlertsDistinct(prev, rows);
    AlertsIff(prev, rows, "");
    assert ALERT_SUBJECT[0] != STARTUP_SUBJECT[0];
    var sent := alerts + [report];
    forall i, j | 0 <= i < j < |sent| ensures sent[i] != sent[j] {
      if j == |alerts| {
        assert sent[i] in alerts;
      }
    }
  }

  /** Rows that agree with the state they are compared against never flip. */
  lemma {:induction false} NoAlertsAgainstOwnState(prev: map<string, bool>, rows: seq<(string, bool)>)
    requires forall k :: 0 <= k < |rows| ==> rows[k].0 in prev && prev[rows[k].0] == rows[k].1
    ensures Alerts(prev, rows) == []
  {
    if rows != [] {
      NoAlertsAgainstOwnState(prev, rows[..|rows| - 1]);
    }
  }

  // ---------------------------------------------------------------------------
  // A whole pass
  // ---------------------------------------------------------------------------

  /** An entry the pass at `now` records: a future weekend date with a usable status. */
  predicate RecordedAt(e: Entry, now: int) {
    Recorded(e, WeekendFilter(now))
  }

  /**
   * A pass throws exactly when a future weekend entry has a null status; the
   * notifications already sent by then are alerts, and no report follows.
   */
  lemma PassThrowsIff(prev: map<string, bool>, entries: seq<Entry>, now: int)
    ensures Pass(prev, entries, now).Threw? <==>
      exists j :: 0 <= j < |entries| && Calendar.IsFutureWeekend(entries[j].0, now) && entries[j].1.NullStatus?
    ensures Pass(prev, entries, now).Threw? ==>
      forall n :: n in Pass(prev, entries, now).sent ==> n.subject == ALERT_SUBJECT
  {
    ScanThrowsIff(entries, WeekendFilter(now));
    AlertsIff(prev, ScanEntries(entries, WeekendFilter(now)).rows, "");
  }

  /**
   * A completed pass replaces the state with the object built from this
   * payload: its keys are exactly the dates of the recorded entries (nothing
   * of `prev` is carried over), and with the payload's distinct keys each
   * holds `!soldOut` of its entry.
   */
  lemma PassReplacesState(prev: map<string, bool>, entries: seq<Entry>, now: int)
    requires Pass(prev, entries, now).Updated?
    ensures var state := Pass(prev, entries, now).state;
      DistinctKeys(state)
      && (forall d :: d in AsMap(state) <==>
            exists j :: 0 <= j < |entries| && entries[j].0 == d && RecordedAt(entries[j], now))
      && (DistinctDates(entries) ==>
            forall j :: 0 <= j < |entries| && RecordedAt(entries[j], now) ==>
              entries[j].0 in AsMap(state) && AsMap(state)[entries[j].0] == Available(entries[j].1.soldOut))
  {
    var keep := WeekendFilter(now);
    var rows := ScanEntries(entries, keep).rows;
    var state := Build(rows);
    BuildDistinct(rows);
    ScanRowsSound(entries, keep);
    ScanRowsComplete(entries, keep);
    forall d ensures d in AsMap(state) <==>
      exists j :: 0 <= j < |entries| && entries[j].0 == d && RecordedAt(entries[j], now)
    {
      BuildKeys(rows, d);
      if d in AsMap(state) {
        var k :| 0 <= k < |rows| && Keys(rows)[k] == d;
        assert FromEntry(rows[k], entries, keep);
        var j :| 0 <= j < |entries| && Recorded(entries[j], keep) && rows[k] == RowOf(entries[j]);
        assert entries[j].0 == d && RecordedAt(entries[j], now);
      }
      if exists j :: 0 <= j < |entries| && entries[j].0 == d && RecordedAt(entries[j], now) {
        var j :| 0 <= j < |entries| && entries[j].0 == d && RecordedAt(entries[j], now);
        assert Recorded(entries[j], keep);
        var k :| 0 <= k < |rows| && rows[k] == RowOf(entries[j]);
        assert Keys(rows)[k] == d;
      }
    }
    if DistinctDates(entries) {
      ScanRowsDistinct(entries, keep);
      forall j | 0 <= j < |entries| && RecordedAt(entries[j], now)
        ensures entries[j].0 in AsMap(state) && AsMap(state)[entries[j].0] == Available(entries[j].1.soldOut)
      {
        assert Recorded(entries[j], keep);
        var k :| 0 <= k < |rows| && rows[k] == RowOf(entries[j]);
        BuildAt(rows, k);
      }
    }
  }

  /** Neither the new state nor whether the pass throws depends on the previous state. */
  lemma PassIgnoresPrevious(p1: map<string, bool>, p2: map<string, bool>, entries: seq<Entry>, now: int)
    ensures Pass(p1, entries, now).Updated? == Pass(p2, entries, now).Updated?
    ensures Pass(p1, entries, now).Updated? ==> Pass(p1, entries, now).state == Pass(p2, entries, now).state
  {
  }

  /**
   * Only future weekends are kept: every key of the new state names a Saturday
   * or Sunday after today's UTC date.
   */
  lemma PassKeepsFutureWeekends(prev: map<string, bool>, entries: seq<Entry>, now: int, d: string)
    requires Pass(prev, entries, now).Updated? && d in AsMap(Pass(prev, entries, now).state)
    ensures Calendar.IsFutureWeekend(d, now)
    ensures Calendar.ParseDate(d).Some? && Calendar.ParseDate(d).value > Calendar.Today(now)
    ensures Calendar.Weekday(Calendar.ParseDate(d).value) in {0, 6}
  {
    PassReplacesState(prev, entries, now);
    Calendar.FutureWeekendIff(d, now);
  }

  /**
   * A completed pass sends its alerts first and the startup report last; an
   * alert for `date` is among them exactly when a recorded entry for `date` is
   * available now and `prev` holds `false` for it.
   */
  lemma PassAlerts(prev: map<string, bool>, entries: seq<Entry>, now: int, date: string)
    requires Pass(prev, entries, now).Updated?
    ensures var sent := Pass(prev, entries, now).sent;
      |sent| >= 1 && sent[|sent| - 1].subject == STARTUP_SUBJECT
      && (forall i :: 0 <= i < |sent| - 1 ==> sent[i].subject == ALERT_SUBJECT)
      && (Alert(date) in sent <==>
            exists j :: 0 <= j < |entries| && RecordedAt(entries[j], now) && entries[j].0 == date
              && Available(entries[j].1.soldOut) && date in prev && !prev[date])
  {
    var keep := WeekendFilter(now);
    var rows := ScanEntries(entries, keep).rows;
    var alerts := Alerts(prev, rows);
    var sent := Pass(prev, entries, now).sent;
    AlertsIff(prev, rows, date);
    FlippedRows(prev, entries, keep, date);
    assert sent == alerts + [StartupReport(rows)];
    forall i | 0 <= i < |sent| - 1 ensures sent[i].subject == ALERT_SUBJECT {
      assert sent[i] == alerts[i];
    }
    assert Alert(date) in sent <==> Alert(date) in alerts;
  }

  /** The rows of a completed scan that flip are those of the recorded entries available now and false in `prev`. */
  lemma FlippedRows(prev: map<string, bool>, entries: seq<Entry>, keep: string -> bool, date: string)
    requires !ScanEntries(entries, keep).threw
    ensures (exists row :: row in ScanEntries(entries, keep).rows && row.0 == date && Flips(prev, row)) <==>
      exists j :: 0 <= j < |entries| && Recorded(entries[j], keep) && entries[j].0 == date
        && Available(entries[j].1.soldOut) && date in prev && !prev[date]
  {
    var rows := ScanEntries(entries, keep).rows;
    ScanRowsSound(entries, keep);
    ScanRowsComplete(entries, keep);
    if exists row :: row in rows && row.0 == date && Flips(prev, row) {
      var row :| row in rows && row.0 == date && Flips(prev, row);
      assert FromEntry(row, entries, keep);
      var j :| 0 <= j < |entries| && Recorded(entries[j], keep) && row == RowOf(entries[j]);
    }
    if exists j :: 0 <= j < |entries| && Recorded(entries[j], keep) && entries[j].0 == date
         && Available(entries[j].1.soldOut) && date in prev && !prev[date] {
      var j :| 0 <= j < |entries| && Recorded(entries[j], keep) && entries[j].0 == date
         && Available(entries[j].1.soldOut) && date in prev && !prev[date];
      assert Flips(prev, RowOf(entries[j]));
    }
  }

  /**
   * A pass in payload order. A completed pass builds the new object from the
   * recorded rows in payload order, sends one alert per flipping row in that
   * order, then the startup report listing those rows in that order. A pass
   * that throws has sent the alerts of the rows before the first future
   * weekend entry with a null status, and nothing else.
   */
  lemma PassInPayloadOrder(prev: map<string, bool>, entries: seq<Entry>, now: int)
    ensures var keep := WeekendFilter(now);
      match Pass(prev, entries, now)
      case Updated(state, sent) =>
        var rows := RecordedRows(entries, keep);
        state == Build(rows) && sent == Alerts(prev, rows) + [StartupReport(rows)]
      case Threw(sent) =>
        exists k :: FirstNullStatus(entries, keep, k) && sent == Alerts(prev, RecordedRows(entries[..k], keep))
      case Ignored => false
  {
    ScanRowsInOrder(entries, WeekendFilter(now));
  }

  /** With the payload's distinct dates, a completed pass sends no notification twice. */
  lemma PassAlertsOncePerDate(prev: map<string, bool>, entries: seq<Entry>, now: int)
    requires DistinctDates(entries) && Pass(prev, entries, now).Updated?
    ensures var sent := Pass(prev, entries, now).sent;
      forall i, j :: 0 <= i < j < |sent| ==> sent[i] != sent[j]
  {
    var rows := ScanEntries(entries, WeekendFilter(now)).rows;
    ScanRowsDistinct(entries, WeekendFilter(now));
    AlertsThenReport(prev, rows, StartupReport(rows));
    PassFromScan(prev, entries, now, rows, false);
  }

  /**
   * A response is ignored exactly when its URL lacks "graphql", its body is
   * not JSON, or it carries no availability; nothing else is ignored.
   */
  lemma IgnoredIff(prev: map<string, bool>, response: Response, now: int)
    ensures HandleResponse(prev, response, now).Ignored? <==>
      !Contains(response.url, "graphql") || response.body == NotJson || response.body.availability == None
  {
    if Payload(response).Some? {
      PassInPayloadOrder(prev, Payload(response).value, now);
    }
  }

  /**
   * Re-applying a payload whose resulting state equals the current state is
   * quiet: the startup report is the only notification.
   */
  lemma QuietWhenStateUnchanged(prev: map<string, bool>, entries: seq<Entry>, now: int)
    requires DistinctDates(entries)
    requires Pass(prev, entries, now).Updated? && AsMap(Pass(prev, entries, now).state) == prev
    ensures |Pass(prev, entries, now).sent| == 1
  {
    var rows := ScanEntries(entries, WeekendFilter(now)).rows;
    ScanRowsDistinct(entries, WeekendFilter(now));
    forall k | 0 <= k < |rows| ensures rows[k].0 in prev && prev[rows[k].0] == rows[k].1 {
      BuildAt(rows, k);
    }
    NoAlertsAgainstOwnState(prev, rows);
  }

  /** Processing the same payload twice sends no alert on the second pass. */
  lemma SecondPassIsQuiet(prev: map<string, bool>, entries: seq<Entry>, now: int)
    requires DistinctDates(entries)
    requires Pass(prev, entries, now).Updated?
    ensures var first := Pass(prev, entries, now);
      Pass(AsMap(first.state), entries, now) == Updated(first.state, [first.sent[|first.sent| - 1]])
  {
    var first := Pass(prev, entries, now);
    PassIgnoresPrevious(prev, AsMap(first.state), entries, now);
    QuietWhenStateUnchanged(AsMap(first.state), entries, now);
  }

  // ---------------------------------------------------------------------------
  // Stepping the loop, one entry at a time
  // ---------------------------------------------------------------------------

  /** Once a scan has thrown, the remaining entries change nothing. */
  lemma {:induction false} ScanThrowSticks(entries: seq<Entry>, keep: string -> bool, i: int)
    requires 0 <= i <= |entries| && ScanEntries(entries[..i], keep).threw
    ensures ScanEntries(entries, keep) == ScanEntries(entries[..i], keep)
  {
    if i < |entries| {
      assert entries[..|entries| - 1][..i] == entries[..i];
      ScanThrowSticks(entries[..|entries| - 1], keep, i);
    } else {
      assert entries[..i] == entries;
    }
  }

  /** One more entry of the loop, case by case. */
  lemma ScanStep(entries: seq<Entry>, keep: string -> bool, i: int)
    requires 0 <= i < |entries| && !ScanEntries(entries[..i], keep).threw
    ensures var s, e := ScanEntries(entries[..i], keep), entries[i];
      && (!keep(e.0) || e.1.NotAnObject? || e.1.NoStatus? ==> ScanEntries(entries[..i + 1], keep) == s)
      && (keep(e.0) && e.1.NullStatus? ==> ScanEntries(entries[..i + 1], keep) == Scan(s.rows, true))
      && (keep(e.0) && e.1.WithStatus? ==> ScanEntries(entries[..i + 1], keep) == Scan(s.rows + [RowOf(e)], false))
  {
    assert entries[..i + 1][..i] == entries[..i];
  }

  /** A scan that ended in `Scan(rows, threw)` decides the outcome of the pass. */
  lemma PassFromScan(prev: map<string, bool>, entries: seq<Entry>, now: int, rows: seq<(string, bool)>, threw: bool)
    requires ScanEntries(entries, WeekendFilter(now)) == Scan(rows, threw)
    ensures Pass(prev, entries, now) ==
      if threw then Threw(Alerts(prev, rows))
      else Updated(Build(rows), Alerts(prev, rows) + [StartupReport(rows)])
  {
  }

  /** Recording one more row: the object, the startup lines and the alerts each grow by it. */
  lemma RowStep(prev: map<string, bool>, rows: seq<(string, bool)>, row: (string, bool))
    ensures Build(rows + [row]) == Assign(Build(rows), row.0, row.1)
    ensures Report.ReportLines(Report.STARTUP_HEADER, rows + [row])
         == Report.ReportLines(Report.STARTUP_HEADER, rows) + [Report.EntryLine(row.0, row.1)]
    ensures Alerts(prev, rows + [row]) == Alerts(prev, rows) + if Flips(prev, row) then [Alert(row.0)] else []
  {
    assert (rows + [row])[..|rows|] == rows;
  }
}
