/**
 * The monitor's mutable state and its two event handlers
 * (src/monitor.ts:64-134): the GraphQL response handler, which rebinds
 * `previousAvailability` to a freshly built object after each completed pass,
 * and the daily report, which renders the object handed to
 * `scheduleDailyReport` at start-up.
 *
 * Every call of sendNotification is recorded as an appended Notification.
 */
module Monitor {

  import opened Records
  import opened Tracker
  import Calendar
  import Report
  import Schedule

  const STARTED: Notification :=
    Notification("🚀 Parking Monitor Started",
                 "The parking availability monitor has started successfully and is now tracking updates.")
  const DAILY_SUBJECT: string := "📊 Daily Parking Report"

  /** The notification sendDailyReport sends for an object's entries (lines 34-41). */
  function DailyReport(entries: Entries): Notification {
    Notification(DAILY_SUBJECT, Report.Join(Report.ReportLines(Report.DAILY_HEADER, entries)))
  }

  /**
   * The report of an empty object is the header alone, and it differs from
   * the report of any object that holds an entry.
   */
  lemma StaleDailyReport(entries: Entries)
    ensures DailyReport([]).message == Report.DAILY_HEADER
    ensures entries != [] ==> DailyReport(entries) != DailyReport([])
  {
    Report.JoinLength(Report.ReportLines(Report.DAILY_HEADER, entries));
  }

  class ParkingMonitor {
    /** The variable `previousAvailability`: a reference, rebound after each completed pass. */
    var previousAvailability: Record
    /** The object bound to `previousAvailability` when the daily report was scheduled. */
    const dailyReportAvailability: Record
    /** Every notification sent so far, in order. */
    var sent: seq<Notification>

    /**
     * The object the daily report renders is never written to, and the current
     * state is a well-formed object.
     */
    ghost predicate Valid()
      reads this, previousAvailability, dailyReportAvailability
    {
      dailyReportAvailability.entries == [] && DistinctKeys(previousAvailability.entries)
    }

    /** Start-up: the "started" notification, then the empty state object (lines 66, 80, 133). */
    constructor ()
      ensures Valid()
      ensures fresh(previousAvailability) && previousAvailability.entries == []
      ensures dailyReportAvailability == previousAvailability
      ensures sent == [STARTED]
    {
      var initial := new Record();
      previousAvailability := initial;
      dailyReportAvailability := initial;
      sent := [STARTED];
    }

    /**
     * The response handler (lines 82-123) at time `now`. An ignored response
     * changes nothing; a pass that throws keeps the state but not its unsent
     * work (alerts already sent stay sent); a completed pass rebinds the state
     * to a fresh object.
     */
    method OnResponse(response: Response, now: int)
      requires Valid()
      modifies this
      ensures Valid()
      ensures match HandleResponse(AsMap(old(previousAvailability.entries)), response, now)
        case Ignored => previousAvailability == old(previousAvailability) && sent == old(sent)
        case Threw(out) => previousAvailability == old(previousAvailability) && sent == old(sent) + out
        case Updated(state, out) =>
          fresh(previousAvailability) && previousAvailability.entries == state && sent == old(sent) + out
    {
      if !Contains(response.url, "graphql") {
        return;
      }
      match response.body {
        case NotJson =>
        case Json(availability) =>
          if availability.Some? {
            ProcessAvailability(availability.value, now);
          }
      }
    }

    /** The body of lines 88-119 for the entries of `publicParkingAvailability`. */
    method ProcessAvailability(entries: seq<Entry>, now: int)
      requires Valid()
      modifies this
      ensures Valid()
      ensures match Pass(AsMap(old(previousAvailability.entries)), entries, now)
        case Ignored => false
        case Threw(out) => previousAvailability == old(previousAvailability) && sent == old(sent) + out
        case Updated(state, out) =>
          fresh(previousAvailability) && previousAvailability.entries == state && sent == old(sent) + out
    {
      var prev := AsMap(previousAvailability.entries);
      var newAvailability := new Record();
      var startupReport, threw, rows := CollectAvailability(entries, prev, WeekendFilter(now), newAvailability);
      PassFromScan(prev, entries, now, rows, threw);
      if threw {
        return;
      }
      sent := sent + [Notification(STARTUP_SUBJECT, Report.Join(startupReport))];
      BuildDistinct(rows);
      previousAvailability := newAvailability;
    }

    /**
     * The loop of lines 91-117 filling `newAvailability`; `threw` when an
     * entry's null status made it throw (line 97), which ends the pass.
     */
    method CollectAvailability(entries: seq<Entry>, prev: map<string, bool>, isFutureWeekend: string -> bool, newAvailability: Record)
      returns (startupReport: seq<string>, threw: bool, ghost rows: seq<(string, bool)>)
      requires newAvailability != previousAvailability && newAvailability != dailyReportAvailability
      requires newAvailability.entries == []
      modifies this, newAvailability
      ensures previousAvailability == old(previousAvailability)
      ensures ScanEntries(entries, isFutureWeekend) == Scan(rows, threw)
      ensures newAvailability.entries == Build(rows)
      ensures startupReport == Report.ReportLines(Report.STARTUP_HEADER, rows)
      ensures sent == old(sent) + Alerts(prev, rows)
    {
      startupReport := [Report.STARTUP_HEADER];
      rows := [];
      threw := false;
      for i := 0 to |entries|
        invariant previousAvailability == old(previousAvailability)
        invariant ScanEntries(entries[..i], isFutureWeekend) == Scan(rows, false)
        invariant newAvailability.entries == Build(rows)
        invariant startupReport == Report.ReportLines(Report.STARTUP_HEADER, rows)
        invariant sent == old(sent) + Alerts(prev, rows)
      {
        var (date, details) := entries[i];
        ScanStep(entries, isFutureWeekend, i);
        if isFutureWeekend(date) && details.NullStatus? {
          // reading `sold_out` of a null status throws: the handler's catch ends the pass
          ScanThrowSticks(entries, isFutureWeekend, i + 1);
          threw := true;
          return;
        }
        if isFutureWeekend(date) && details.WithStatus? {
          var soldOut := SoldOutFlag(details.soldOut);
          RowStep(prev, rows, (date, !soldOut));
          rows := rows + [(date, !soldOut)];
          startupReport := startupReport + [Report.EntryLine(date, !soldOut)];
          RecordRow(newAvailability, prev, date, !soldOut);
        }
      }
      assert entries[..|entries|] == entries;
    }

    /**
     * Lines 103-116 for one dated entry: store its availability in the new
     * object, and alert when it just became available (line 109).
     */
    method RecordRow(newAvailability: Record, prev: map<string, bool>, date: string, available: bool)
      requires newAvailability != previousAvailability && newAvailability != dailyReportAvailability
      modifies this, newAvailability
      ensures previousAvailability == old(previousAvailability)
      ensures newAvailability.entries == Assign(old(newAvailability.entries), date, available)
      ensures sent == old(sent) + if Flips(prev, (date, available)) then [Alert(date)] else []
    {
      newAvailability.Put(date, available);
      if date in prev && prev[date] == false && available {
        sent := sent + [Alert(date)];
      }
    }

    /**
     * The daily report timer firing at time `now` (lines 58-61): the report
     * of the object captured at start-up, which is always the header alone,
     * then the delay until the next report.
     */
    method FireDailyReport(now: int) returns (delay: int)
      requires Valid()
      modifies this
      ensures Valid() && previousAvailability == old(previousAvailability)
      ensures sent == old(sent) + [DailyReport([])]
      ensures sent == old(sent) + [Notification(DAILY_SUBJECT, Report.DAILY_HEADER)]
      ensures delay == Schedule.Delay(now) && 0 <= delay < Calendar.MS_PER_DAY
    {
      var report := Report.BuildReport(Report.DAILY_HEADER, dailyReportAvailability.entries);
      assert report == [Report.DAILY_HEADER];
      sent := sent + [Notification(DAILY_SUBJECT, Report.Join(report))];
      delay := Schedule.Delay(now);
      Schedule.NextRunBounds(now);
    }

    /**
     * The daily report as evidently intended: it renders the current state,
     * the object `previousAvailability` is bound to when the timer fires.
     */
    method FireCurrentDailyReport(now: int) returns (delay: int)
      requires Valid()
      modifies this
      ensures Valid() && previousAvailability == old(previousAvailability)
      ensures sent == old(sent) + [DailyReport(previousAvailability.entries)]
      ensures delay == Schedule.Delay(now) && 0 <= delay < Calendar.MS_PER_DAY
    {
      var report := Report.BuildReport(Report.DAILY_HEADER, previousAvailability.entries);
      assert report == Report.ReportLines(Report.DAILY_HEADER, previousAvailability.entries);
      sent := sent + [Notification(DAILY_SUBJECT, Report.Join(report))];
      delay := Schedule.Delay(now);
      Schedule.NextRunBounds(now);
    }
  }
}
