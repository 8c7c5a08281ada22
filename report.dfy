/**
 * Report rendering (src/monitor.ts:34-41 and the startup report at 89, 104,
 * 106, 116): a header line followed by one line per entry, joined with "\n".
 */
module Report {

  import opened Wrappers

  const DAILY_HEADER: string := "📊 **Daily Parking Availability Report**"
  const STARTUP_HEADER: string := "📊 **Current Weekend Parking Availability:**"

  const LINE_PREFIX: string := "📅 "
  const YES_SUFFIX: string := " - Available: ✅ Yes"
  const NO_SUFFIX: string := " - Available: ❌ No"

  /** The line shown for one date. */
  function EntryLine(date: string, available: bool): string {
    LINE_PREFIX + date + (if available then YES_SUFFIX else NO_SUFFIX)
  }

  /** Reads a report line back into its date and availability. */
  function ParseEntryLine(line: string): Option<(string, bool)> {
    var p := |LINE_PREFIX|;
    if |line| >= p + |YES_SUFFIX| && line[..p] == LINE_PREFIX
       && line[|line| - |YES_SUFFIX|..] == YES_SUFFIX
    then Some((line[p..|line| - |YES_SUFFIX|], true))
    else if |line| >= p + |NO_SUFFIX| && line[..p] == LINE_PREFIX
       && line[|line| - |NO_SUFFIX|..] == NO_SUFFIX
    then Some((line[p..|line| - |NO_SUFFIX|], false))
    else None
  }

  /** Every entry line carries its date and shows "✅ Yes" exactly when available. */
  lemma ParseEntryLineRoundTrip(date: string, available: bool)
    ensures ParseEntryLine(EntryLine(date, available)) == Some((date, available))
  {
    var line := EntryLine(date, available);
    var p := |LINE_PREFIX|;
    assert line[..p] == LINE_PREFIX;
    if available {
      assert line[|line| - |YES_SUFFIX|..] == YES_SUFFIX;
      assert line[p..|line| - |YES_SUFFIX|] == date;
    } else {
      assert line[|line| - 1] == 'o' && YES_SUFFIX[|YES_SUFFIX| - 1] == 's';
      assert line[|line| - |YES_SUFFIX|..] != YES_SUFFIX;
      assert line[|line| - |NO_SUFFIX|..] == NO_SUFFIX;
      assert line[p..|line| - |NO_SUFFIX|] == date;
    }
  }

  /** `lines.join("\n")`. */
  function Join(lines: seq<string>): string {
    if |lines| == 0 then ""
    else if |lines| == 1 then lines[0]
    else Join(lines[..|lines| - 1]) + "\n" + lines[|lines| - 1]
  }

  /** The joined text starts with the first line; a second line makes it strictly longer. */
  lemma {:induction false} JoinLength(lines: seq<string>)
    requires |lines| >= 1
    ensures lines[0] <= Join(lines)
    ensures |lines| >= 2 ==> |Join(lines)| > |lines[0]|
  {
    if |lines| >= 2 {
      var init := lines[..|lines| - 1];
      JoinLength(init);
      assert init[0] == lines[0];
      assert Join(lines) == Join(init) + ("\n" + lines[|lines| - 1]);
    }
  }

  /** Splits a text at every "\n"; the inverse of Join. */
  function Split(text: string): (lines: seq<string>)
    ensures |lines| >= 1
  {
    if |text| == 0 then [""]
    else
      var init := Split(text[..|text| - 1]);
      var c := text[|text| - 1];
      if c == '\n' then init + [""]
      else init[..|init| - 1] + [init[|init| - 1] + [c]]
  }

  predicate NoNewline(s: string) {
    forall i :: 0 <= i < |s| ==> s[i] != '\n'
  }

  lemma {:induction false} SplitSingleLine(s: string)
    requires NoNewline(s)
    ensures Split(s) == [s]
  {
    if |s| > 0 {
      SplitSingleLine(s[..|s| - 1]);
      assert s[..|s| - 1] + [s[|s| - 1]] == s;
    }
  }

  lemma {:induction false} SplitAppend(a: string, b: string)
    requires NoNewline(b)
    ensures Split(a + "\n" + b) == Split(a) + [b]
  {
    if |b| == 0 {
      assert a + "\n" + b == (a + "\n");
      assert (a + "\n")[..|a|] == a;
    } else {
      var b' := b[..|b| - 1];
      SplitAppend(a, b');
      assert (a + "\n" + b)[..|a + "\n" + b| - 1] == a + "\n" + b';
      assert b' + [b[|b| - 1]] == b;
    }
  }

  /** Joined lines without line breaks of their own split back into the same lines. */
  lemma {:induction false} SplitJoin(lines: seq<string>)
    requires |lines| >= 1
    requires forall i :: 0 <= i < |lines| ==> NoNewline(lines[i])
    ensures Split(Join(lines)) == lines
  {
    if |lines| == 1 {
      SplitSingleLine(lines[0]);
    } else {
      var init := lines[..|lines| - 1];
      SplitJoin(init);
      SplitAppend(Join(init), lines[|lines| - 1]);
      assert init + [lines[|lines| - 1]] == lines;
    }
  }

  /** The report lines: the header, then one line per entry in iteration order. */
  function ReportLines(header: string, entries: seq<(string, bool)>): (lines: seq<string>)
  {
    [header] + seq(|entries|, i requires 0 <= i < |entries| => EntryLine(entries[i].0, entries[i].1))
  }

  /** The lines pushed by sendDailyReport, built the way it builds them. */
  method BuildReport(header: string, entries: seq<(string, bool)>) returns (report: seq<string>)
    ensures |report| == 1 + |entries| && report[0] == header
    ensures forall i :: 0 <= i < |entries| ==> report[i + 1] == EntryLine(entries[i].0, entries[i].1)
  {
    report := [header];
    for k := 0 to |entries|
      invariant |report| == 1 + k && report[0] == header
      invariant forall i :: 0 <= i < k ==> report[i + 1] == EntryLine(entries[i].0, entries[i].1)
    {
      var (date, available) := entries[k];
      report := report + [EntryLine(date, available)];
    }
  }

  lemma EntryLineNoNewline(date: string, available: bool)
    requires NoNewline(date)
    ensures NoNewline(EntryLine(date, available))
  {
    var line := EntryLine(date, available);
    forall i | 0 <= i < |line| ensures line[i] != '\n' {
      if i >= |LINE_PREFIX| + |date| {
        var suffix := if available then YES_SUFFIX else NO_SUFFIX;
        assert line[i] == suffix[i - |LINE_PREFIX| - |date|];
      } else if i >= |LINE_PREFIX| {
        assert line[i] == date[i - |LINE_PREFIX|];
      }
    }
  }

  /**
   * The rendered report of `entries` whose dates contain no line break has
   * exactly 1 + |entries| lines: the header first, then each entry, read back
   * with its own date and availability.
   */
  lemma RenderedReportShape(header: string, entries: seq<(string, bool)>)
    requires NoNewline(header)
    requires forall i :: 0 <= i < |entries| ==> NoNewline(entries[i].0)
    ensures var lines := Split(Join(ReportLines(header, entries)));
      |lines| == 1 + |entries| && lines[0] == header
      && forall i :: 0 <= i < |entries| ==> ParseEntryLine(lines[i + 1]) == Some(entries[i])
  {
    var lines := ReportLines(header, entries);
    forall i | 0 <= i < |lines| ensures NoNewline(lines[i]) {
      if i > 0 {
        EntryLineNoNewline(entries[i - 1].0, entries[i - 1].1);
      }
    }
    SplitJoin(lines);
    forall i | 0 <= i < |entries| ensures ParseEntryLine(lines[i + 1]) == Some(entries[i]) {
      ParseEntryLineRoundTrip(entries[i].0, entries[i].1);
    }
  }

  /** An empty record renders the header alone. */
  lemma EmptyReportIsHeader(header: string)
    ensures Join(ReportLines(header, [])) == header
  {
  }
}
