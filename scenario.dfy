/**
 * A worked run of the response handler on two weekend dates, 2025-02-01 (a
 * Saturday) and 2025-02-02 (a Sunday), seen from Monday 2025-01-27 00:00 UTC.
 */
module Scenario {

  import opened Wrappers
  import opened Records
  import opened Tracker
  import Calendar
  import Monitor

  const SATURDAY: string := "2025-02-01"
  const SUNDAY: string := "2025-02-02"
  /** 2025-01-27T00:00:00Z in milliseconds. */
  const NOW: int := 20115 * Calendar.MS_PER_DAY

  lemma SaturdayParses()
    ensures Calendar.ParseDate(SATURDAY) == Some(20120) && Calendar.Weekday(20120) == 6
  {
    var s := SATURDAY;
    assert s[..4] == "2025" && s[5..7] == "02" && s[8..] == "01";
    assert Calendar.DigitsValue("2025") == 2025 by {
      assert "2025"[..3] == "202" && "202"[..2] == "20" && "20"[..1] == "2" && "2"[..0] == "";
    }
    assert Calendar.DigitsValue("02") == 2 by { assert "02"[..1] == "0" && "0"[..0] == ""; }
    assert Calendar.DigitsValue("01") == 1 by { assert "01"[..1] == "0" && "0"[..0] == ""; }
  }

  lemma SundayParses()
    ensures Calendar.ParseDate(SUNDAY) == Some(20121) && Calendar.Weekday(20121) == 0
  {
    var s := SUNDAY;
    assert s[..4] == "2025" && s[5..7] == "02" && s[8..] == "02";
    assert Calendar.DigitsValue("2025") == 2025 by {
      assert "2025"[..3] == "202" && "202"[..2] == "20" && "20"[..1] == "2" && "2"[..0] == "";
    }
    assert Calendar.DigitsValue("02") == 2 by { assert "02"[..1] == "0" && "0"[..0] == ""; }
  }

  /** Both dates are future weekends at NOW. */
  lemma BothDatesKept()
    ensures WeekendFilter(NOW)(SATURDAY) && WeekendFilter(NOW)(SUNDAY)
  {
    SaturdayParses();
    SundayParses();
  }

  /** Both dates sold out; the next Saturday's details are not an object. */
  function Payload1(): seq<Entry> {
    [(SATURDAY, WithStatus(Present(true))), (SUNDAY, WithStatus(Present(true))), ("2025-02-08", NotAnObject)]
  }

  /** Saturday no longer sold out. */
  function Payload2(): seq<Entry> {
    [(SATURDAY, WithStatus(Present(false))), (SUNDAY, WithStatus(Present(true)))]
  }

  /** Saturday without `sold_out`, Sunday with a null status. */
  function Payload3(): seq<Entry> {
    [(SATURDAY, WithStatus(Missing)), (SUNDAY, NullStatus)]
  }

  /** The rows (date, available) each completed cycle records. */
  function Rows1(): seq<(string, bool)> { [(SATURDAY, false), (SUNDAY, false)] }
  function Rows2(): seq<(string, bool)> { [(SATURDAY, true), (SUNDAY, false)] }

  lemma {:induction false} FirstScan(keep: string -> bool)
    requires keep(SATURDAY) && keep(SUNDAY)
    ensures ScanEntries(Payload1(), keep) == Scan(Rows1(), false)
  {
    var e := Payload1();
    assert e[..1][..0] == [];
    assert ScanEntries(e[..1], keep) == Scan([(SATURDAY, false)], false);
    assert e[..2][..1] == e[..1];
    assert ScanEntries(e[..2], keep) == Scan(Rows1(), false);
    assert e[..3][..2] == e[..2];
  }

  lemma DatesDiffer()
    ensures SATURDAY != SUNDAY
  {
    assert SATURDAY[9] != SUNDAY[9];
  }

  /** The object built from a Saturday row and a Sunday row holds both, in that order. */
  lemma {:induction false} BuildTwo(sat: bool, sun: bool)
    ensures Build([(SATURDAY, sat), (SUNDAY, sun)]) == [(SATURDAY, sat), (SUNDAY, sun)]
    ensures AsMap([(SATURDAY, sat), (SUNDAY, sun)]) == map[SATURDAY := sat, SUNDAY := sun]
  {
    DatesDiffer();
    var rows := [(SATURDAY, sat), (SUNDAY, sun)];
    assert rows[..1] == [(SATURDAY, sat)] && rows[..1][..0] == [];
    assert Build(rows[..1]) == [(SATURDAY, sat)];
    assert [(SATURDAY, sat)][1..] == [];
    assert Assign([(SATURDAY, sat)], SUNDAY, sun) == [(SATURDAY, sat)] + [(SUNDAY, sun)];
    assert rows[1..] == [(SUNDAY, sun)] && rows[1..][1..] == [];
    assert AsMap(rows[1..]) == map[SUNDAY := sun];
  }

  lemma {:induction false} SecondScan(keep: string -> bool)
    requires keep(SATURDAY) && keep(SUNDAY)
    ensures ScanEntries(Payload2(), keep) == Scan(Rows2(), false)
  {
    var e := Payload2();
    assert e[..1][..0] == [];
    assert ScanEntries(e[..1], keep) == Scan([(SATURDAY, true)], false);
    assert e[..2][..1] == e[..1] && e[..2] == e;
  }

  lemma {:induction false} AbortedScan(keep: string -> bool)
    requires keep(SATURDAY) && keep(SUNDAY)
    ensures ScanEntries(Payload3(), keep) == Scan([(SATURDAY, true)], true)
  {
    var e := Payload3();
    assert e[..1][..0] == [];
    assert ScanEntries(e[..1], keep) == Scan([(SATURDAY, true)], false);
    assert e[..2][..1] == e[..1] && e[..2] == e;
  }

  /** What the pass makes of the rows of each cycle, the filter aside. */
  lemma CycleResults()
    ensures Alerts(map[], Rows1()) == [] && Build(Rows1()) == Rows1()
    ensures Alerts(AsMap(Rows1()), Rows2()) == [Alert(SATURDAY)] && Build(Rows2()) == Rows2()
    ensures Alerts(AsMap(Rows1()), [(SATURDAY, true)]) == [Alert(SATURDAY)]
  {
    BuildTwo(false, false);
    BuildTwo(true, false);
    DatesDiffer();
    assert Rows1()[..1] == [(SATURDAY, false)] && Rows2()[..1] == [(SATURDAY, true)];
    assert [(SATURDAY, false)][..0] == [] && [(SATURDAY, true)][..0] == [];
  }

  /**
   * The first payload: both dates sold out, and a malformed entry for the
   * following Saturday, which is skipped. Nothing was known before, so no
   * alert; only the startup report is sent.
   */
  lemma FirstCycle()
    ensures Pass(map[], Payload1(), NOW) == Updated(Rows1(), [StartupReport(Rows1())])
  {
    BothDatesKept();
    FirstScan(WeekendFilter(NOW));
    CycleResults();
  }

  /**
   * The second payload: Saturday is no longer sold out. Against the first
   * cycle's state that sends one alert, for Saturday, then the report, and
   * the state becomes Saturday available, Sunday not.
   */
  lemma SecondCycle()
    ensures Pass(AsMap(Rows1()), Payload2(), NOW)
         == Updated(Rows2(), [Alert(SATURDAY), StartupReport(Rows2())])
  {
    BothDatesKept();
    SecondScan(WeekendFilter(NOW));
    CycleResults();
  }

  /**
   * A payload whose Sunday entry has a null status, after the first cycle:
   * the Saturday alert goes out, then the pass throws and the state stays
   * as the first cycle left it, so the same response alerts again.
   */
  lemma AbortedCycle()
    ensures Pass(AsMap(Rows1()), Payload3(), NOW) == Threw([Alert(SATURDAY)])
  {
    BothDatesKept();
    AbortedScan(WeekendFilter(NOW));
    CycleResults();
  }

  /**
   * After the first cycle the state holds two dates, yet the daily report as
   * written (the report of the empty object) is not the report of that state.
   */
  lemma DailyReportAfterFirstCycle()
    ensures Pass(map[], Payload1(), NOW).Updated?
    ensures var state := Pass(map[], Payload1(), NOW).state;
      |state| == 2 && Monitor.DailyReport(state) != Monitor.DailyReport([])
  {
    FirstCycle();
    Monitor.StaleDailyReport(Rows1());
  }
}
