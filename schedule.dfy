/**
 * Next-run arithmetic of `scheduleDailyReport` (src/monitor.ts:45-55).
 *
 * The date object is set to DAILY_REPORT_HOUR:00:00.000 UTC of the current UTC
 * date; if `now` is already past that instant the date is moved one day on.
 * Time values carry no leap seconds, so a UTC day is exactly Calendar.MS_PER_DAY.
 */
module Schedule {

  import Calendar

  const MS_PER_HOUR: int := 3_600_000
  /** Hour of the day (UTC) at which the daily report is sent. */
  const DAILY_REPORT_HOUR: int := 7
  /** Offset of the report slot inside a UTC day. */
  const SLOT_OFFSET: int := DAILY_REPORT_HOUR * MS_PER_HOUR

  /** Start (midnight UTC) of the day containing `now`: the first instant of Calendar.Today(now). */
  function StartOfDay(now: int): (t: int)
    ensures t <= now < t + Calendar.MS_PER_DAY && t % Calendar.MS_PER_DAY == 0
    ensures t == Calendar.Today(now) * Calendar.MS_PER_DAY
  {
    now - now % Calendar.MS_PER_DAY
  }

  /** `setUTCHours(DAILY_REPORT_HOUR, 0, 0, 0)` on the current date. */
  function TodaySlot(now: int): int {
    StartOfDay(now) + SLOT_OFFSET
  }

  /** The instant the next daily report is due. */
  function NextRun(now: int): int {
    var slot := TodaySlot(now);
    if now > slot then slot + Calendar.MS_PER_DAY else slot
  }

  /** The delay handed to the timer. */
  function Delay(now: int): int {
    NextRun(now) - now
  }

  /**
   * The next run is at DAILY_REPORT_HOUR exactly (minutes, seconds and
   * milliseconds zero), it is on today's UTC date when `now` has not passed
   * today's slot and on tomorrow's otherwise, and the delay lies in [0, one day).
   */
  lemma NextRunBounds(now: int)
    ensures NextRun(now) % Calendar.MS_PER_DAY == SLOT_OFFSET
    ensures NextRun(now) / Calendar.MS_PER_DAY ==
      if now <= TodaySlot(now) then now / Calendar.MS_PER_DAY else now / Calendar.MS_PER_DAY + 1
    ensures 0 <= Delay(now) < Calendar.MS_PER_DAY
  {
    var day := now / Calendar.MS_PER_DAY;
    assert StartOfDay(now) == day * Calendar.MS_PER_DAY;
    if now <= TodaySlot(now) {
      assert NextRun(now) == day * Calendar.MS_PER_DAY + SLOT_OFFSET;
    } else {
      assert NextRun(now) == (day + 1) * Calendar.MS_PER_DAY + SLOT_OFFSET;
    }
  }

  /** No instant from `now` on at the report hour comes earlier than NextRun. */
  lemma NextRunIsEarliest(now: int, t: int)
    requires now <= t && t % Calendar.MS_PER_DAY == SLOT_OFFSET
    ensures NextRun(now) <= t
  {
    var day := now / Calendar.MS_PER_DAY;
    var tday := t / Calendar.MS_PER_DAY;
    assert t == tday * Calendar.MS_PER_DAY + SLOT_OFFSET;
    assert StartOfDay(now) == day * Calendar.MS_PER_DAY;
    assert day <= tday;
    if day == tday {
      assert now <= TodaySlot(now);
    }
  }

  /**
   * When the clock reads exactly the slot, the report is due now rather than
   * tomorrow: the comparison is strict.
   */
  lemma DelayAtSlotIsZero(day: int)
    ensures Delay(day * Calendar.MS_PER_DAY + SLOT_OFFSET) == 0
  {
    var now := day * Calendar.MS_PER_DAY + SLOT_OFFSET;
    assert now / Calendar.MS_PER_DAY == day;
    assert StartOfDay(now) == day * Calendar.MS_PER_DAY;
  }

  /** 08:00 UTC rolls over to tomorrow 07:00; 05:00 UTC waits for today 07:00. */
  lemma RolloverExamples(day: int)
    ensures NextRun(day * Calendar.MS_PER_DAY + 8 * MS_PER_HOUR) == (day + 1) * Calendar.MS_PER_DAY + 7 * MS_PER_HOUR
    ensures NextRun(day * Calendar.MS_PER_DAY + 5 * MS_PER_HOUR) == day * Calendar.MS_PER_DAY + 7 * MS_PER_HOUR
  {
    assert (day * Calendar.MS_PER_DAY + 8 * MS_PER_HOUR) / Calendar.MS_PER_DAY == day;
    assert (day * Calendar.MS_PER_DAY + 5 * MS_PER_HOUR) / Calendar.MS_PER_DAY == day;
  }
}
