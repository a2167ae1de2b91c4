/** The dashboard as a whole: the record log, the automatic-reset setting
    and stamp, and the call panel's session, driven by a sequence of
    events.  Each completed call session appends its one record to the end
    of the log; the periodic check and the manual reset clear it. */
module Dashboard {
  import opened Types
  import opened CallFlow
  import opened DailyReset
  import opened Report

  datatype AppState = AppState(
    records: seq<CallRecord>,
    autoResetEnabled: bool,
    lastReset: Option<string>,
    session: Session)

  /** What can happen to the dashboard: an operator action on the call
      panel at clock reading `now`; a run of the periodic reset check on
      date `today` at hour `hour`; the manual reset, confirmed or declined;
      flipping the automatic-reset switch; and leaving the call panel for
      another view, which discards the panel's session. */
  datatype Event =
    | Ui(action: Action, now: nat)
    | Tick(today: string, hour: Hour)
    | ResetData(confirmed: bool)
    | ToggleAutoReset
    | LeavePanel

  /** A fresh start: an empty log, the setting at its default (enabled),
      no stamp, and the panel at room entry. */
  const Start: AppState := AppState([], true, None, Initial)

  /** `handleSaveRecord`: the record goes at the end and the records
      already logged stay as they were. */
  function SaveRecord(log: seq<CallRecord>, rec: CallRecord): (r: seq<CallRecord>)
    ensures |r| == |log| + 1
    ensures r[..|log|] == log && r[|log|] == rec
  {
    log + [rec]
  }

  /** The log with the panel's emitted record, if any, saved to it. */
  function SaveEmitted(log: seq<CallRecord>, emitted: Option<CallRecord>): seq<CallRecord> {
    if emitted.Some? then SaveRecord(log, emitted.value) else log
  }

  /** One event.  A panel action changes the session and appends the
      record it emits, if any, leaving the setting and the stamp alone; a
      check or a manual reset may only empty the log and, for the check,
      stamp the date; no other event touches the log. */
  function Apply(st: AppState, e: Event): (r: AppState)
    ensures e.Ui? ==>
      var (s', emitted) := Dispatch(st.session, e.action, e.now);
      && r.session == s'
      && r.records == (if emitted.Some? then st.records + [emitted.value] else st.records)
      && r.autoResetEnabled == st.autoResetEnabled && r.lastReset == st.lastReset
    ensures !e.Ui? ==> r.records == st.records || r.records == []
    ensures !e.Tick? ==> r.lastReset == st.lastReset
    ensures !e.Ui? && !e.LeavePanel? ==> r.session == st.session
    ensures e.LeavePanel? ==> r == st.(session := Initial)
  {
    match e
    case Ui(a, now) =>
      var (s', emitted) := Dispatch(st.session, a, now);
      st.(session := s', records := SaveEmitted(st.records, emitted))
    case Tick(today, hour) =>
      var d := CheckReset(st.autoResetEnabled, Day(st.records, st.lastReset), today, hour);
      st.(records := d.records, lastReset := d.lastReset)
    case ResetData(confirmed) =>
      st.(records := HandleResetData(Day(st.records, st.lastReset), confirmed).records)
    case ToggleAutoReset =>
      st.(autoResetEnabled := !st.autoResetEnabled)
    case LeavePanel =>
      st.(session := Initial)
  }

  /** The state after a sequence of events, applied in order. */
  function Run(st: AppState, events: seq<Event>): AppState
    decreases |events|
  {
    if events == [] then st else Run(Apply(st, events[0]), events[1..])
  }

  /** What every reachable state satisfies: every logged record is
      consistent, and the panel's session satisfies its own invariant. */
  predicate AppInv(st: AppState) {
    AllValid(st.records) && Inv(st.session)
  }

  lemma StartInv()
    ensures AppInv(Start)
  {
    InitialInv();
  }

  /** Every event keeps the invariant: the panel only ever logs consistent
      records, and clearing the log keeps it consistent. */
  lemma ApplyPreservesInv(st: AppState, e: Event)
    requires AppInv(st)
    ensures AppInv(Apply(st, e))
  {
    match e
    case Ui(a, now) =>
      UiKeepsInv(st, a, now);
    case Tick(_, _) =>
    case ResetData(_) =>
    case ToggleAutoReset =>
    case LeavePanel =>
      InitialInv();
  }

  lemma UiKeepsInv(st: AppState, a: Action, now: nat)
    requires AppInv(st)
    ensures AppInv(Apply(st, Ui(a, now)))
  {
    DispatchPreservesInv(st.session, a, now);
    var emitted := Dispatch(st.session, a, now).1;
    if emitted.Some? {
      EmittedRecordValid(st.session, a, now);
      SaveKeepsValid(st.records, emitted.value);
    }
  }

  /** Appending a consistent record to a consistent log keeps it
      consistent. */
  lemma SaveKeepsValid(log: seq<CallRecord>, rec: CallRecord)
    requires AllValid(log) && ValidRecord(rec)
    ensures AllValid(SaveRecord(log, rec))
  {
    assert SaveRecord(log, rec)[..|log|] == log;
  }

  lemma {:induction false} RunPreservesInv(st: AppState, events: seq<Event>)
    requires AppInv(st)
    ensures AppInv(Run(st, events))
    decreases |events|
  {
    if events != [] {
      ApplyPreservesInv(st, events[0]);
      RunPreservesInv(Apply(st, events[0]), events[1..]);
    }
  }

  /** In every state reachable from a fresh start, the report reads
      orders <= answered calls <= calls, the conversion rate is a
      percentage in 0..100, and the revenue is the sum of price times
      quantity over every logged line. */
  lemma ReachableStats(events: seq<Event>)
    ensures var st := ComputeStats(Run(Start, events).records);
      && 0 <= st.totalOrders <= st.totalPicked <= st.totalRoomsCalled
      && st.totalNotPicked >= 0 && st.totalNotOrdered >= 0
      && 0 <= st.conversionRate <= 100
      && st.totalRevenue == LinesRevenue(Run(Start, events).records)
  {
    StartInv();
    RunPreservesInv(Start, events);
    ValidLogStats(Run(Start, events).records);
  }

  /** The event is a run of the check that clears the log. */
  predicate Fires(st: AppState, e: Event) {
    e.Tick? && ResetDue(st.autoResetEnabled, st.lastReset, e.today, e.hour)
  }

  /** How many of the events are automatic resets that take effect. */
  function AutoResets(st: AppState, events: seq<Event>): nat
    decreases |events|
  {
    if events == [] then 0
    else (if Fires(st, events[0]) then 1 else 0) + AutoResets(Apply(st, events[0]), events[1..])
  }

  /** Every check among the events is for date `today`. */
  predicate AllTicksOn(events: seq<Event>, today: string) {
    forall i | 0 <= i < |events| && events[i].Tick? :: events[i].today == today
  }

  /** Once the stamp holds today's date, no check on that date fires. */
  lemma {:induction false} StampedDayNoReset(st: AppState, events: seq<Event>, today: string)
    requires st.lastReset == Some(today) && AllTicksOn(events, today)
    ensures AutoResets(st, events) == 0
    decreases |events|
  {
    if events != [] {
      var st' := Apply(st, events[0]);
      assert st'.lastReset == Some(today);
      assert AllTicksOn(events[1..], today) by {
        forall i | 0 <= i < |events[1..]| && events[1..][i].Tick?
          ensures events[1..][i].today == today
        {
          assert events[1..][i] == events[i + 1];
        }
      }
      StampedDayNoReset(st', events[1..], today);
    }
  }

  /** However the checks, panel actions, manual resets and switch flips
      interleave, the automatic reset takes effect at most once on a
      date, and not at all if it already ran on that date. */
  lemma {:induction false} AtMostOneAutoResetPerDay(st: AppState, events: seq<Event>, today: string)
    requires AllTicksOn(events, today)
    ensures AutoResets(st, events) <= 1
    ensures st.lastReset == Some(today) ==> AutoResets(st, events) == 0
    decreases |events|
  {
    if events != [] {
      var st' := Apply(st, events[0]);
      assert AllTicksOn(events[1..], today) by {
        forall i | 0 <= i < |events[1..]| && events[1..][i].Tick?
          ensures events[1..][i].today == today
        {
          assert events[1..][i] == events[i + 1];
        }
      }
      if Fires(st, events[0]) {
        assert st'.lastReset == Some(today);
        StampedDayNoReset(st', events[1..], today);
      } else {
        AtMostOneAutoResetPerDay(st', events[1..], today);
        if st.lastReset == Some(today) {
          assert st'.lastReset == Some(today);
        }
      }
    }
  }

  /** Only completed call sessions add to the log: a panel action adds one
      record exactly when it completes the session, and every other event
      adds none. */
  lemma LogGrowth(st: AppState, e: Event)
    ensures |Apply(st, e).records| <= |st.records| + 1
    ensures |Apply(st, e).records| == |st.records| + 1 <==>
      e.Ui? && Available(st.session, e.action) && Completes(e.action)
  {
  }
}
