/**
 * Session detection (backend/redis_live_service.py, `detect_current_session`):
 * from the current time and the provider's list of remaining events, decide whether a
 * session is live, an event is about to start, or neither.
 */
module SessionDetector {
  import opened Common
  import opened LiveTypes

  /** `timedelta(hours=4)`: how long after its start a session still counts as live. */
  const LIVE_WINDOW: int := 4 * 3600
  /** `timedelta(days=2)`: how close the event date must be for an "upcoming" record. */
  const UPCOMING_HORIZON: int := 2 * 86400

  /**
   * One of an event's `Session1` .. `Session5` columns: its name, its UTC start
   * (missing when NaT) and the name the provider's session object reports for it
   * (`event.get_session(name).name`), missing when that lookup raises.
   */
  datatype Slot = Slot(name: Option<string>, startUtc: Option<int>, providerName: Option<string>)

  /** The five session columns of a schedule row. */
  type FiveSlots = s: seq<Slot> | |s| == 5
    witness [Slot(None, None, None), Slot(None, None, None), Slot(None, None, None),
             Slot(None, None, None), Slot(None, None, None)]

  /** One row of `fastf1.get_events_remaining(now)`; `year` is `EventDate.year`. */
  datatype ScheduleEvent = ScheduleEvent(
    year: int, round: int, eventName: string, eventDate: int, slots: FiveSlots)

  /** `now >= session_date and now <= session_end`: both ends of the window are inclusive. */
  predicate LiveAt(slot: Slot, now: int) {
    slot.startUtc.Some? && slot.startUtc.value <= now <= slot.startUtc.value + LIVE_WINDOW
  }

  /** The first slot at index `from` or later that is live at `now`. */
  function FirstLive(slots: FiveSlots, now: int, from: nat): (r: Option<nat>)
    requires from <= 5
    ensures r.Some? ==> from <= r.value < 5 && LiveAt(slots[r.value], now)
    ensures r.Some? ==> forall j :: from <= j < r.value ==> !LiveAt(slots[j], now)
    ensures r.None? ==> forall j :: from <= j < 5 ==> !LiveAt(slots[j], now)
    decreases 5 - from
  {
    if from == 5 then None
    else if LiveAt(slots[from], now) then Some(from)
    else FirstLive(slots, now, from + 1)
  }

  /** The live record for a slot; `None` when the provider lookup of the slot raises. */
  function LiveRecord(e: ScheduleEvent, slot: Slot): Option<SessionInfo>
    requires slot.startUtc.Some?
  {
    if slot.name.Some? && slot.providerName.Some? then
      Some(SessionInfo(e.year, e.round, e.eventName, slot.name.value, slot.providerName.value,
                       slot.startUtc, Some(slot.startUtc.value + LIVE_WINDOW), true))
    else None
  }

  /**
   * The record for an event starting within two days, named after its first session;
   * `None` when the event is further away or when `"Next: " + Session1` raises because
   * the first session's name is missing.
   */
  function UpcomingRecord(e: ScheduleEvent, now: int): Option<SessionInfo> {
    if e.eventDate - now <= UPCOMING_HORIZON && e.slots[0].name.Some? then
      var first := e.slots[0];
      Some(SessionInfo(e.year, e.round, e.eventName, "Next: " + first.name.value, first.name.value,
                       first.startUtc, None, false))
    else None
  }

  /**
   * What detection returns. `remaining` is the provider's schedule, `None` when fetching
   * it raises. Only the first remaining event is examined.
   */
  function Detect(now: int, remaining: Option<seq<ScheduleEvent>>): (r: Option<SessionInfo>)
    ensures r.Some? ==> (remaining.Some? && |remaining.value| > 0 &&
                         r.value.year == remaining.value[0].year && r.value.round == remaining.value[0].round &&
                         r.value.eventName == remaining.value[0].eventName)
    ensures r.Some? && !r.value.isLive ==> remaining.value[0].eventDate - now <= UPCOMING_HORIZON
  {
    if remaining.None? || |remaining.value| == 0 then None
    else
      var e := remaining.value[0];
      match FirstLive(e.slots, now, 0)
      case Some(i) => LiveRecord(e, e.slots[i])
      case None => UpcomingRecord(e, now)
  }

  /** `detect_current_session`: the loop over Session1..Session5 with its early returns. */
  method DetectCurrentSession(now: int, remaining: Option<seq<ScheduleEvent>>)
    returns (r: Option<SessionInfo>)
    ensures r == Detect(now, remaining)
  {
    if remaining.None? || |remaining.value| == 0 {
      return None;
    }
    var e := remaining.value[0];
    for i := 0 to 5
      invariant forall j :: 0 <= j < i ==> !LiveAt(e.slots[j], now)
    {
      var slot := e.slots[i];
      if slot.startUtc.None? {
        continue;
      }
      var sessionEnd := slot.startUtc.value + LIVE_WINDOW;
      if now >= slot.startUtc.value && now <= sessionEnd {
        if slot.name.None? || slot.providerName.None? {
          // `event.get_session(session_name)` raises; the handler returns None
          return None;
        }
        return Some(SessionInfo(e.year, e.round, e.eventName, slot.name.value, slot.providerName.value,
                                slot.startUtc, Some(sessionEnd), true));
      }
    }
    if e.eventDate - now <= UPCOMING_HORIZON {
      if e.slots[0].name.None? {
        return None;
      }
      return Some(SessionInfo(e.year, e.round, e.eventName, "Next: " + e.slots[0].name.value,
                              e.slots[0].name.value, e.slots[0].startUtc, None, false));
    }
    return None;
  }

  /** Slot `i` is the first slot whose window contains `now`. */
  ghost predicate FirstLiveSlot(e: ScheduleEvent, now: int, i: int) {
    0 <= i < 5 && LiveAt(e.slots[i], now) && forall j :: 0 <= j < i ==> !LiveAt(e.slots[j], now)
  }

  /** A live slot with no live slot before it is the one `FirstLive` finds. */
  lemma {:induction false} FirstLiveFrom(slots: FiveSlots, now: int, from: nat, i: nat)
    requires from <= i < 5 && LiveAt(slots[i], now)
    requires forall j :: from <= j < i ==> !LiveAt(slots[j], now)
    ensures FirstLive(slots, now, from) == Some(i)
    decreases i - from
  {
    if from < i {
      FirstLiveFrom(slots, now, from + 1, i);
    }
  }

  /** An empty schedule, or a failure to fetch it, gives no session. */
  lemma DetectNothingRemaining(now: int)
    ensures Detect(now, Some([])) == None && Detect(now, None) == None
  {
  }

  /** Whatever follows the first remaining event never matters. */
  lemma DetectOnlyFirstEvent(now: int, e: ScheduleEvent, rest1: seq<ScheduleEvent>, rest2: seq<ScheduleEvent>)
    ensures Detect(now, Some([e] + rest1)) == Detect(now, Some([e] + rest2))
  {
  }

  /**
   * The first slot whose window contains `now` wins: detection yields the live record
   * for it, ending four hours after its start (or nothing when its provider lookup raises).
   */
  lemma {:induction false} DetectFirstLiveSlotWins(now: int, e: ScheduleEvent, rest: seq<ScheduleEvent>, i: int)
    requires FirstLiveSlot(e, now, i)
    ensures var r := Detect(now, Some([e] + rest));
      if e.slots[i].name.Some? && e.slots[i].providerName.Some? then
        r == Some(SessionInfo(e.year, e.round, e.eventName, e.slots[i].name.value,
                              e.slots[i].providerName.value, e.slots[i].startUtc,
                              Some(e.slots[i].startUtc.value + LIVE_WINDOW), true))
      else r == None
  {
    FirstLiveFrom(e.slots, now, 0, i);
  }

  /** Detection reports a live session exactly when some slot is live and the first such slot resolves. */
  lemma {:induction false} DetectLiveIff(now: int, e: ScheduleEvent, rest: seq<ScheduleEvent>)
    ensures var r := Detect(now, Some([e] + rest));
      (r.Some? && r.value.isLive) <==>
      exists i :: FirstLiveSlot(e, now, i) && e.slots[i].name.Some? && e.slots[i].providerName.Some?
  {
    var f := FirstLive(e.slots, now, 0);
    if f.Some? {
      DetectFirstLiveSlotWins(now, e, rest, f.value);
      forall i | FirstLiveSlot(e, now, i) ensures i == f.value {
        FirstLiveFrom(e.slots, now, 0, i);
      }
    }
  }

  /** The window's end is inclusive: exactly four hours after the start the session is still live. */
  lemma DetectWindowEndInclusive(now: int, e: ScheduleEvent, rest: seq<ScheduleEvent>, i: int)
    requires 0 <= i < 5 && e.slots[i].startUtc == Some(now - LIVE_WINDOW)
    requires forall j :: 0 <= j < i ==> !LiveAt(e.slots[j], now)
    requires e.slots[i].name.Some? && e.slots[i].providerName.Some?
    ensures var r := Detect(now, Some([e] + rest)); r.Some? && r.value.isLive && r.value.endTime == Some(now)
  {
    DetectFirstLiveSlotWins(now, e, rest, i);
  }

  /**
   * With no live slot, detection yields the "Next: <Session1>" record when the event date
   * is at most two days away and the first session has a name, and nothing otherwise.
   */
  lemma {:induction false} DetectWithoutLiveSlot(now: int, e: ScheduleEvent, rest: seq<ScheduleEvent>)
    requires forall i :: 0 <= i < 5 ==> !LiveAt(e.slots[i], now)
    ensures var r := Detect(now, Some([e] + rest));
      if e.eventDate - now <= UPCOMING_HORIZON && e.slots[0].name.Some? then
        r == Some(SessionInfo(e.year, e.round, e.eventName, "Next: " + e.slots[0].name.value,
                              e.slots[0].name.value, e.slots[0].startUtc, None, false))
      else r == None
  {
  }

  /** A race that started thirty minutes ago, in the fifth slot of round 5 of 2024, is live. */
  lemma RaceWeekendScenario(t: int, e: ScheduleEvent)
    requires e.year == 2024 && e.round == 5
    requires forall i :: 0 <= i < 4 ==> e.slots[i].startUtc.Some? && e.slots[i].startUtc.value + LIVE_WINDOW < t
    requires e.slots[4] == Slot(Some("Race"), Some(t), Some("Race"))
    ensures Detect(t + 1800, Some([e])) ==
      Some(SessionInfo(2024, 5, e.eventName, "Race", "Race", Some(t), Some(t + LIVE_WINDOW), true))
  {
    assert [e] == [e] + [];
    DetectFirstLiveSlotWins(t + 1800, e, [], 4);
  }
}
