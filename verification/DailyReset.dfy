/** Clearing the day's log: automatically, once per calendar date from
    04:00 on while the setting is enabled, and manually on the operator's
    confirmation.  The date is the browser's date string for "today",
    compared only for equality; the stamp of the last automatic reset is
    absent until the first one. */
module DailyReset {
  import opened Types

  /** The first hour of the day at which the automatic reset may run. */
  const ResetHour: nat := 4

  /** A local hour of the day, as `Date.getHours` returns it. */
  type Hour = h: int | 0 <= h < 24

  /** The part of the dashboard the reset looks at: the log and the stamp
      of the last automatic reset. */
  datatype Day = Day(records: seq<CallRecord>, lastReset: Option<string>)

  /** The automatic reset is due: enabled, at or past the reset hour, and
      not yet stamped with today's date. */
  predicate ResetDue(enabled: bool, lastReset: Option<string>, today: string, hour: Hour) {
    enabled && hour >= ResetHour && lastReset != Some(today)
  }

  /** One run of the periodic check.  It changes something exactly when the
      reset is due, and then it empties the log and stamps today's date;
      otherwise the log and the stamp are left as they were.  Before the
      reset hour, when disabled, or once stamped with today's date it is a
      no-op. */
  function CheckReset(enabled: bool, d: Day, today: string, hour: Hour): (r: Day)
    ensures r != d <==> ResetDue(enabled, d.lastReset, today, hour)
    ensures ResetDue(enabled, d.lastReset, today, hour) ==> r.records == [] && r.lastReset == Some(today)
    ensures !enabled || hour < ResetHour || d.lastReset == Some(today) ==> r == d
  {
    if ResetDue(enabled, d.lastReset, today, hour) then Day([], Some(today)) else d
  }

  /** Once a check has run on a date, every later check on that date, at
      any hour and with the setting either way, is a no-op, as long as
      nothing else touches the stamp. */
  lemma CheckResetOncePerDate(enabled: bool, d: Day, today: string, hour: Hour,
                              enabled': bool, hour': Hour)
    requires CheckReset(enabled, d, today, hour) != d
    ensures var r := CheckReset(enabled, d, today, hour);
      CheckReset(enabled', r, today, hour') == r
  {
  }

  /** A check repeated with the same arguments changes nothing more. */
  lemma CheckResetIdempotent(enabled: bool, d: Day, today: string, hour: Hour)
    ensures var r := CheckReset(enabled, d, today, hour);
      CheckReset(enabled, r, today, hour) == r
  {
  }

  /** "Reset Dashboard Data": on confirmation the log is emptied; the stamp
      of the last automatic reset is not touched.  Declined, nothing
      changes. */
  function HandleResetData(d: Day, confirmed: bool): (r: Day)
    ensures r.lastReset == d.lastReset
    ensures confirmed ==> r.records == []
    ensures !confirmed ==> r == d
  {
    if confirmed then d.(records := []) else d
  }

  /** Because the manual reset leaves the stamp alone, it does not use up
      the day's automatic reset: if that was due before, it is still due
      after. */
  lemma ManualResetKeepsAutoResetDue(d: Day, enabled: bool, today: string, hour: Hour)
    requires ResetDue(enabled, d.lastReset, today, hour)
    ensures CheckReset(enabled, HandleResetData(d, true), today, hour) == Day([], Some(today))
  {
  }
}
