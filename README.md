# parking-monitor in Dafny

A model of the core of `src/monitor.ts`. The program watches the GraphQL
responses of a ski-resort parking reservation page. It keeps a map from
weekend dates to "parking available". It sends an alert when a date that was
sold out becomes available, and it sends a startup report after every
processed payload and a daily report at 07:00 UTC.

The model covers these parts of the program:

- **Calendar** (`calendar.dfy`): `isFutureWeekend`. A `YYYY-MM-DD` string is
  read as midnight UTC of its calendar date. The string passes when that
  instant lies after `now` and the day is a Saturday or a Sunday.
- **Schedule** (`schedule.dfy`): the next-run arithmetic of
  `scheduleDailyReport`. That is today's 07:00 UTC slot, or tomorrow's once
  `now` is past it, and the delay until then.
- **Report** (`report.dfy`): the report text, a header followed by one
  `📅 <date> - Available: ✅ Yes / ❌ No` line per entry, joined with `"\n"`.
  `BuildReport` is the push loop of `sendDailyReport`. Split and
  `ParseEntryLine` read a rendered report back.
- **Records** (`records.dfy`): the plain JavaScript object used as
  `Record<string, boolean>`.
  - It is a heap object (`class Record`) whose entries are kept in insertion
    order.
  - `obj[k] = v` overwrites a present key in place and appends a new one.
  - `AsMap` is its map view.
- **Tracker** (`tracker.dfy`): one pass of the response handler as a
  specification.
  - `ScanEntries` is the loop over `Object.entries(publicParkingAvailability)`.
  - `Pass` is the whole pass: which notifications go out, and whether the
    state is replaced (`Updated`) or the pass threw (`Threw`).
  - `HandleResponse` adds the URL, JSON and payload checks in front of `Pass`.
- **Monitor** (`monitor.dfy`): the running program as a class.
  - `previousAvailability` is a reference that each completed pass rebinds to
    a fresh object.
  - `dailyReportAvailability` is the object captured by `scheduleDailyReport`
    at start-up.
  - `sent` records every `sendNotification` call in order.
  - `OnResponse` and `FireDailyReport` are the two event handlers. They are
    proved against `HandleResponse`, `Schedule.Delay` and the report
    functions.
- **Scenario** (`scenario.dfy`): three passes over the dates 2025-02-01 (a
  Saturday) and 2025-02-02 (a Sunday), worked through from Monday
  2025-01-27 00:00 UTC.

The payload's details are reduced to what the handler distinguishes:
- not an object;
- an object without `status`;
- `status: null`, where reading `sold_out` throws;
- a `status` whose `sold_out` is missing, `null`, or a value with a truthiness.

The clock is a parameter `now`, in milliseconds since the epoch. Sent
notifications are appended to `sent`.

Each firing of the daily report computes the next slot from its own `now`.
Reports list dates in insertion order, which is payload order: the state is
the insertion-ordered object itself.

Where the code differs from what it evidently intends, the model follows the
code: the daily report does not render the current state. It renders the
object that was bound when the report was scheduled, and that object is
always empty (see Findings).

## Model

| member | source | states |
|---|---|---|
| Calendar.IsFutureWeekend | src/monitor.ts:27-31 | the date filter: the string parses to a date after `now` that is a Saturday or Sunday; its properties are Calendar.FutureWeekendIff and the calendar lemmas below |
| Calendar.ParseDate | src/monitor.ts:29 | `new Date(dateStr)` on a strict YYYY-MM-DD string, as the day number of that UTC midnight; Calendar.ParseFormatDate and Calendar.NextDateIsNextDay state what it computes |
| Calendar.ParseDateIsFormatted | src/monitor.ts:29 | every string the parser accepts is the YYYY-MM-DD form of a valid date of years 0-9999, and its value is that date's day number |
| Calendar.FormattedFields | src/monitor.ts:29 | a string of the YYYY-MM-DD shape is the formatted form of its year, month and day numbers, with a year of at most 9999 |
| Calendar.DigitsPadValue | src/monitor.ts:29 | a string of digits is the zero-padded numeral of its own value |
| Calendar.ParseDateChars | src/monitor.ts:29 | an accepted date string is ten characters, each a digit or '-', so it holds no line break |
| Calendar.FutureWeekendIff | src/monitor.ts:27-31 | a string passes isFutureWeekend exactly when it parses as a date after today's UTC date that is a Saturday or Sunday; today and past days never pass |
| Calendar.ParseFormatDate | src/monitor.ts:29 | every calendar date of years 0-9999 written as YYYY-MM-DD parses back to that date's day number |
| Calendar.NextDateIsNextDay | src/monitor.ts:29 | the day numbers used for dates are the calendar's day count: the following date has the following day number (leap years included) |
| Calendar.NextDateNextWeekday | src/monitor.ts:30 | the weekday (0 = Sunday … 6 = Saturday) advances by one, cyclically, from each date to the next |
| Calendar.WeekdayStep | src/monitor.ts:30 | day n + 1 has the weekday after day n's, Saturday wrapping to Sunday |
| Calendar.LeapStep | src/monitor.ts:29 | the count of leap years before a year grows by one exactly past a Gregorian leap year |
| Calendar.YearLength | src/monitor.ts:29 | a year has 366 days exactly when it is a Gregorian leap year |
| Calendar.PadDigitsValue | src/monitor.ts:29 | a number below 10^width written with exactly width digits reads back as that number |
| Schedule.StartOfDay | src/monitor.ts:48 | the UTC midnight of now's day is at most now, less than a day before it, a whole number of days, and the first instant of the calendar's Today(now) |
| Schedule.TodaySlot | src/monitor.ts:47-48 | today's 07:00 UTC instant; its place in the day is stated by Schedule.NextRunBounds |
| Schedule.NextRun | src/monitor.ts:46-53 | the instant the next report is due; Schedule.NextRunBounds and Schedule.NextRunIsEarliest state where it falls |
| Schedule.Delay | src/monitor.ts:55 | the timer's delay; Schedule.NextRunBounds bounds it to [0, one day) and Schedule.DelayAtSlotIsZero pins the slot itself |
| Schedule.NextRunBounds | src/monitor.ts:46-55 | the next run is at 07:00:00.000 UTC; it falls on today's date when now has not passed today's slot and on tomorrow's otherwise; the delay lies in [0, one day) |
| Schedule.NextRunIsEarliest | src/monitor.ts:47-53 | no 07:00 UTC instant from now on is earlier than the next run |
| Schedule.DelayAtSlotIsZero | src/monitor.ts:51 | at exactly 07:00 UTC the delay is zero: the comparison is strict |
| Schedule.RolloverExamples | src/monitor.ts:50-53 | 08:00 UTC waits for tomorrow's 07:00; 05:00 UTC waits for today's 07:00 |
| Report.EntryLine | src/monitor.ts:38 | one report line for an entry; Report.ParseEntryLineRoundTrip and Report.EntryLineNoNewline state what it holds |
| Report.ParseEntryLineRoundTrip | src/monitor.ts:38 | each entry line reads back to its date and availability, "✅ Yes" exactly when available |
| Report.Join | src/monitor.ts:41 | `lines.join("\n")`; Report.SplitJoin and Report.JoinLength state what it keeps |
| Report.JoinLength | src/monitor.ts:41 | a joined report starts with its first line, and any second line makes it strictly longer |
| Report.SplitJoin | src/monitor.ts:41 | lines without line breaks, joined with "\n", split back into the same lines |
| Report.ReportLines | src/monitor.ts:35-39 | the header followed by one entry line per entry; Report.BuildReport builds it by pushes and Report.RenderedReportShape reads it back |
| Report.BuildReport | src/monitor.ts:35-39 | the pushed lines are the header followed by exactly one line per entry, in entry order |
| Report.RenderedReportShape | src/monitor.ts:35-41 | a rendered report has 1 + n lines: the header, then each entry in order, read back with its own date and availability |
| Report.EntryLineNoNewline | src/monitor.ts:38 | an entry line holds no line break when its date holds none |
| Report.EmptyReportIsHeader | src/monitor.ts:35-41 | the report of an empty object is the header alone |
| Records.Assign | src/monitor.ts:103 | `obj[k] = v` on the entries; Records.AssignKeys, AssignAbsent, AssignDistinct and AssignMap state its effect |
| Records.AsMap | src/monitor.ts:109 | the `hasOwnProperty` and lookup view of the object; Records.AsMapKeys and AsMapAt state it |
| Records.AsMapKeys | src/monitor.ts:109 | the map view holds exactly the object's keys (`hasOwnProperty`) |
| Records.AsMapAt | src/monitor.ts:109 | in an object with distinct keys, the map view gives each entry's own value |
| Records.AssignKeys | src/monitor.ts:103 | `obj[k] = v` keeps a present key in its place and appends a new key last |
| Records.AssignAbsent | src/monitor.ts:103 | assigning an absent key appends exactly that entry |
| Records.AssignDistinct | src/monitor.ts:103 | assignment never makes a key appear twice |
| Records.AssignMap | src/monitor.ts:103 | assignment changes the map view at that key only |
| Records.Record.Put | src/monitor.ts:103 | the object's entries become those of the assignment |
| Records.Record.constructor | src/monitor.ts:88 | a new object has no entries |
| Tracker.Available | src/monitor.ts:97-103 | `!(status.sold_out ?? false)`: a missing or null `sold_out` counts as available; Tracker.PassReplacesState states it is the value recorded for each entry |
| Tracker.Flips | src/monitor.ts:109 | the alert condition: the date is in the previous state, held false there, and is available now; Tracker.AlertsIff and FlippedRows state it |
| Tracker.AlertInjective | src/monitor.ts:111 | different dates give different alerts |
| Tracker.ScanEntries | src/monitor.ts:91-113 | the loop over the payload entries: the rows recorded and whether it threw; Tracker.ScanRowsSound, ScanRowsComplete, ScanThrowsIff and ScanRowsInOrder state what it does |
| Tracker.ScanRowsSound | src/monitor.ts:91-103 | every recorded row is (date, !soldOut) of an entry that is a future weekend with a status object |
| Tracker.ScanRowsComplete | src/monitor.ts:91-103 | a loop that does not throw records every future-weekend entry with a status object; the other entries are skipped |
| Tracker.ScanThrowsIff | src/monitor.ts:96-97 | the loop throws exactly when some entry kept by the date filter has a null status |
| Tracker.ScanRowsDistinct | src/monitor.ts:91-103 | distinct payload dates give rows with distinct dates |
| Tracker.ScanRowsInOrder | src/monitor.ts:91-113 | the loop records the rows of the kept entries with a status object in payload order: all of them when it completes, and exactly those before the first kept entry with a null status when it throws |
| Tracker.Build | src/monitor.ts:88-103 | the object filled by the loop's assignments; Tracker.BuildKeys, BuildDistinct, BuildDistinctRows and BuildAt state its contents |
| Tracker.BuildDistinct | src/monitor.ts:88-103 | the object built by the loop never holds a key twice |
| Tracker.BuildKeys | src/monitor.ts:103 | the object built by the loop holds exactly the recorded dates |
| Tracker.BuildDistinctRows | src/monitor.ts:103 | rows with distinct dates are appended one by one, so the object lists them as recorded |
| Tracker.BuildAt | src/monitor.ts:103 | with distinct dates the object holds each row's availability |
| Tracker.Alerts | src/monitor.ts:109-112 | the alerts sent inside the loop, one per flipping row in row order; Tracker.AlertsIff, AlertsDistinct and PassInPayloadOrder state them |
| Tracker.AlertsIff | src/monitor.ts:109-112 | every notification sent inside the loop is an alert; an alert for a date is sent exactly when a recorded row for it is available and the previous state holds false for it |
| Tracker.AlertsDistinct | src/monitor.ts:109-112 | rows with distinct dates send each alert at most once |
| Tracker.AlertsThenReport | src/monitor.ts:109-116 | the alerts of rows with distinct dates followed by the startup report hold no notification twice |
| Tracker.StartupReport | src/monitor.ts:89-116 | the startup report of the recorded rows; Tracker.StartupReportShape reads its lines back in order |
| Tracker.StartupReportShape | src/monitor.ts:89-116 | the startup report of a pass splits into the header followed by one line per recorded row, each reading back to that row's date and availability |
| Tracker.NoAlertsAgainstOwnState | src/monitor.ts:109 | rows that agree with the previous state send no alert |
| Tracker.FlippedRows | src/monitor.ts:103-109 | the rows that trigger an alert are exactly those of the recorded entries that are available now and held false before |
| Tracker.Pass | src/monitor.ts:88-119 | one pass over a payload: what it sends and whether it replaces the state or throws; the Tracker.Pass* lemmas state it |
| Tracker.HandleResponse | src/monitor.ts:83-87 | a response without "graphql" in its URL, a body that is not JSON, or a falsy payload is ignored; anything else is a pass. Tracker.IgnoredIff states this |
| Tracker.IgnoredIff | src/monitor.ts:83-87 | a response is ignored exactly when its URL lacks "graphql", its body is not JSON, or it has no availability payload |
| Tracker.PassThrowsIff | src/monitor.ts:96-97 | a pass throws exactly when a future-weekend entry has a null status; everything it sent by then is an alert, and no startup report follows |
| Tracker.PassReplacesState | src/monitor.ts:88-103 | a completed pass replaces the state: the new object holds exactly the dates of the recorded entries, with nothing carried over from before, and each of them holds !soldOut when the payload's dates are distinct |
| Tracker.PassIgnoresPrevious | src/monitor.ts:88-119 | whether a pass throws, and the new state, do not depend on the previous state |
| Tracker.PassKeepsFutureWeekends | src/monitor.ts:92 | every key of the new state is a Saturday or Sunday after today's UTC date |
| Tracker.PassAlerts | src/monitor.ts:103-116 | a completed pass sends alerts first and the startup report last; an alert for a date goes out exactly when a recorded entry for it is available now and the previous state holds false for it |
| Tracker.PassInPayloadOrder | src/monitor.ts:88-122 | a completed pass builds the state from the recorded rows in payload order and sends exactly the alerts of the flipping rows, in that order, then the startup report of those rows; a pass that throws has sent exactly the alerts of the rows before the first kept null status |
| Tracker.PassAlertsOncePerDate | src/monitor.ts:103-116 | with a payload's distinct dates, a completed pass sends no notification twice, so at most one alert per date |
| Tracker.QuietWhenStateUnchanged | src/monitor.ts:103-119 | a payload whose resulting state equals the current one sends only the startup report |
| Tracker.SecondPassIsQuiet | src/monitor.ts:103-119 | processing the same payload again after a completed pass sends no alert and leaves the same state |
| Monitor.DailyReport | src/monitor.ts:34-41 | the daily report notification of an object; Monitor.StaleDailyReport and Report.RenderedReportShape state its text |
| Monitor.StaleDailyReport | src/monitor.ts:34-41 | the report of an empty object is the header alone and differs from the report of any non-empty object |
| Monitor.ParkingMonitor.constructor | src/monitor.ts:66-80 | start-up sends the "started" notification, and the state and the object the daily report will render are one and the same empty object |
| Monitor.ParkingMonitor.OnResponse | src/monitor.ts:82-123 | an ignored response changes nothing; a pass that throws keeps the state object and adds the alerts already sent; a completed pass binds the state to a fresh object holding the new state and adds the alerts and the startup report, as Tracker.HandleResponse says; the daily report's object stays empty |
| Monitor.ParkingMonitor.ProcessAvailability | src/monitor.ts:88-119 | the pass over a payload: its sends and its new state are those of Tracker.Pass |
| Monitor.ParkingMonitor.CollectAvailability | src/monitor.ts:91-113 | the loop fills the new object, the startup lines and the alerts exactly as Tracker.ScanEntries, Build, ReportLines and Alerts say, and reports whether it threw |
| Monitor.ParkingMonitor.RecordRow | src/monitor.ts:103-112 | one recorded entry: the new object is assigned, and an alert is sent exactly when the entry flips |
| Monitor.ParkingMonitor.FireDailyReport | src/monitor.ts:58-61 | the timer sends the report of the object captured at start-up, which is the header alone, then reschedules with the delay of Schedule.Delay, which is less than a day |
| Monitor.ParkingMonitor.FireCurrentDailyReport | src/monitor.ts:34-41 | the corrected daily report renders the current state, then reschedules with the same delay |
| Scenario.SaturdayParses | src/monitor.ts:29-30 | "2025-02-01" parses to day 20120, a Saturday |
| Scenario.SundayParses | src/monitor.ts:29-30 | "2025-02-02" parses to day 20121, a Sunday |
| Scenario.BothDatesKept | src/monitor.ts:92 | both dates pass the date filter on 2025-01-27 |
| Scenario.FirstCycle | src/monitor.ts:91-119 | both dates sold out from an empty state: no alert, only the startup report, and the state becomes both dates unavailable; a malformed entry is skipped |
| Scenario.SecondCycle | src/monitor.ts:103-119 | Saturday becomes available: exactly one alert, for Saturday, then the report; the state becomes Saturday available and Sunday not |
| Scenario.AbortedCycle | src/monitor.ts:97-122 | with Sunday's status null, the Saturday alert is sent and the pass then throws, so the state is kept and the same response would alert again |
| Scenario.DailyReportAfterFirstCycle | src/monitor.ts:119-133 | after the first cycle the state holds two dates, yet the daily report as written is not the report of that state |

## Left out

- Sending notifications is left out: the SNS client and its own error handling. Each `sendNotification` call is an appended `Notification`, and none of them fails.
- The browser (Playwright), page navigation, the response listener and the periodic reload with its random jitter are left out. A handled response is a call of `OnResponse`.
- Timers and async interleaving are left out. Each handler runs to completion, and concurrent handlers do not overlap.
- `isFutureWeekend` reads the clock once per entry and `scheduleDailyReport` reads it twice. All of these reads are one `now` per event.
- The local time zone is taken to be UTC. `getDay` uses local time, so a machine in another zone can see a different weekday.
- Only strict `YYYY-MM-DD` strings with years 0000-9999 are parsed. `Date` also accepts other and extended forms, and some engines roll over impossible days such as 2025-02-30. The model treats all of those as invalid dates, which never pass the filter. Calendar.ParseDateIsFormatted states exactly which strings are accepted.
- `response.json()` failures and non-object payloads are modelled only by their effect. A body that is not JSON is `NotJson` and is ignored. A truthy non-object payload is given by the entries `Object.entries` yields for it.
- `Object.entries` lists integer-like keys first. The payload is taken as the entry sequence `Object.entries` yields, and the state's keys are dates, so they are never integer-like.
- The `sold_out` values are reduced to their truthiness, which is what `?? false` and `!` observe.
- Console logging is left out.
- Tracker.PassReplacesState: the value of each key is stated only when the payload's dates are distinct. A parsed JSON object never repeats a key, so this always holds for real payloads.
- Tracker.QuietWhenStateUnchanged: stated for payloads with distinct dates, for the same reason.
- Tracker.SecondPassIsQuiet: holds for completed passes only. After a pass that throws, the state is kept, so the alerts sent before the throw are sent again on the same response (Scenario.AbortedCycle).

## Findings

| source | as written | input that shows it | evidently intended | confidence | as-written member | corrected member |
|---|---|---|---|---|---|---|
| src/monitor.ts:133 | the daily report renders the object bound to `previousAvailability` when `scheduleDailyReport` was called at start-up, the initial `{}`; line 119 only rebinds the variable, so that object stays empty and every daily report is the header alone | the payload of Scenario.FirstCycle leaves 2025-02-01 and 2025-02-02 in the state, yet the next daily report lists neither (Scenario.DailyReportAfterFirstCycle) | the daily report lists the current availability | high; not executed | Monitor.ParkingMonitor.FireDailyReport | Monitor.ParkingMonitor.FireCurrentDailyReport |
