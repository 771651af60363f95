/**
 * The live-data service (backend/redis_live_service.py, `RedisLiveDataService`): a
 * key-value cache with a one-hour expiry and a last-update stamp, the poll step that
 * detects the current session and publishes a snapshot of it, and the polling flags.
 *
 * The cache server is the map `store`; `reachable` says whether it answers. The clock,
 * the provider's schedule and the loaded provider session are parameters.
 */
module LiveService {
  import opened Common
  import opened LiveTypes
  import opened SessionDetector
  import opened SnapshotTransformer

  const KEY_PREFIX: string := "f1_live:"
  const STANDINGS_KEY: string := KEY_PREFIX + "standings"
  const TIMING_KEY: string := KEY_PREFIX + "timing"
  const WEATHER_KEY: string := KEY_PREFIX + "weather"
  const TIRES_KEY: string := KEY_PREFIX + "tires"
  const SESSION_KEY: string := KEY_PREFIX + "session"
  const STATUS_KEY: string := KEY_PREFIX + "status"
  const LAST_UPDATE_KEY: string := KEY_PREFIX + "last_update"

  /** Seconds a stored category stays readable. */
  const DATA_TTL: int := 3600

  /** A stored value and the instant it expires at; `None` for a key without a time-to-live. */
  datatype Entry = Entry(value: Payload, expiresAt: Option<int>)

  type Store = map<string, Entry>

  /** A key set with a time-to-live is gone from the instant the time-to-live runs out. */
  predicate Visible(e: Entry, now: int) {
    e.expiresAt.None? || now < e.expiresAt.value
  }

  // ---------------------------------------------------------------- the cache as values

  /**
   * A successful `store_data`: `key` gets the value (a plain set drops any earlier
   * time-to-live, `expire` sets a new one) and the last-update key gets the current time.
   */
  function Put(m: Store, key: string, value: Payload, expire: bool, now: int): (r: Store)
    ensures LAST_UPDATE_KEY in r && r[LAST_UPDATE_KEY] == Entry(Stamp(now), None)
  {
    m[key := Entry(value, if expire then Some(now + DATA_TTL) else None)]
     [LAST_UPDATE_KEY := Entry(Stamp(now), None)]
  }

  /** `get_data` on a reachable server: the decoded value, `None` for a missing, expired or null key. */
  function Lookup(m: Store, key: string, now: int): (r: Option<Payload>)
    ensures r != Some(Null)
  {
    if key in m && Visible(m[key], now) && m[key].value != Null then Some(m[key].value) else None
  }

  /** The store with every key under the service's prefix deleted. */
  function WithoutPrefix(m: Store): Store {
    map k | k in m && !StartsWith(k, KEY_PREFIX) :: m[k]
  }

  /** A value stored under a key other than the stamp's reads back until it expires. */
  lemma GetAfterPut(m: Store, key: string, value: Payload, expire: bool, now: int, t: int)
    requires key != LAST_UPDATE_KEY && value != Null
    requires now <= t && (expire ==> t < now + DATA_TTL)
    ensures Lookup(Put(m, key, value, expire, now), key, t) == Some(value)
    ensures Lookup(Put(m, key, value, expire, now), LAST_UPDATE_KEY, t) == Some(Stamp(now))
  {
  }

  /** Reading a key other than the stored one and the stamp sees the store as before. */
  lemma LookupOther(m: Store, key: string, value: Payload, expire: bool, now: int, other: string, t: int)
    requires other != key && other != LAST_UPDATE_KEY
    ensures Lookup(Put(m, key, value, expire, now), other, t) == Lookup(m, other, t)
  {
  }

  /** An expiring value is gone `DATA_TTL` seconds after it was stored; one stored without expiry is not. */
  lemma ExpiryAfterTTL(m: Store, key: string, value: Payload, now: int, t: int)
    requires key != LAST_UPDATE_KEY && value != Null && t >= now + DATA_TTL
    ensures Lookup(Put(m, key, value, true, now), key, t) == None
    ensures Lookup(Put(m, key, value, false, now), key, t) == Some(value)
  {
  }

  /** A store touches its own key and the stamp, and no other key. */
  lemma PutOtherKeys(m: Store, key: string, value: Payload, expire: bool, now: int, other: string)
    requires other != key && other != LAST_UPDATE_KEY
    ensures (other in Put(m, key, value, expire, now)) == (other in m)
    ensures other in m ==> Put(m, key, value, expire, now)[other] == m[other]
  {
  }

  /** Storing `None` makes the key read as missing. */
  lemma PutNullReadsMissing(m: Store, key: string, expire: bool, now: int, t: int)
    requires key != LAST_UPDATE_KEY
    ensures Lookup(Put(m, key, Null, expire, now), key, t) == None
  {
  }

  /** After clearing, no key of the service can be read, and every foreign key is untouched. */
  lemma ClearedKeys(m: Store, t: int)
    ensures forall k :: StartsWith(k, KEY_PREFIX) ==> Lookup(WithoutPrefix(m), k, t) == None
    ensures forall k :: k in m && !StartsWith(k, KEY_PREFIX) ==> k in WithoutPrefix(m) && WithoutPrefix(m)[k] == m[k]
    ensures Lookup(WithoutPrefix(m), SESSION_KEY, t) == None && Lookup(WithoutPrefix(m), LAST_UPDATE_KEY, t) == None
  {
    assert StartsWith(SESSION_KEY, KEY_PREFIX) && StartsWith(LAST_UPDATE_KEY, KEY_PREFIX);
  }

  // ---------------------------------------------------------------- a snapshot into the cache

  /**
   * The stores `_process_live_session` makes, in order: standings, timing, tyres, then
   * weather and track status when present; all with the one-hour expiry.
   */
  function ApplySnapshot(m: Store, snap: Snapshot, now: int): Store {
    var m1 := if snap.standings.Some? then Put(m, STANDINGS_KEY, StandingsRec(snap.standings.value), true, now) else m;
    var m2 := if snap.timing.Some? then Put(m1, TIMING_KEY, TimingRec(snap.timing.value), true, now) else m1;
    var m3 := if snap.tires.Some? then Put(m2, TIRES_KEY, TiresRec(snap.tires.value), true, now) else m2;
    var m4 := if snap.weather.Some? then Put(m3, WEATHER_KEY, WeatherRec(snap.weather.value), true, now) else m3;
    if snap.trackStatus.Some? then Put(m4, STATUS_KEY, StatusRec(snap.trackStatus.value), true, now) else m4
  }

  /** The service's keys are pairwise distinct. */
  lemma KeysDistinct()
    ensures |STANDINGS_KEY| == 17 && |TIMING_KEY| == 14 && |WEATHER_KEY| == 15 && |TIRES_KEY| == 13
    ensures |SESSION_KEY| == 15 && |STATUS_KEY| == 14 && |LAST_UPDATE_KEY| == 19
    ensures WEATHER_KEY != SESSION_KEY && TIMING_KEY != STATUS_KEY
  {
    assert WEATHER_KEY[8] == 'w' && SESSION_KEY[8] == 's';
    assert TIMING_KEY[8] == 't' && STATUS_KEY[8] == 's';
  }

  predicate IsSnapshotKey(k: string) {
    k == STANDINGS_KEY || k == TIMING_KEY || k == TIRES_KEY || k == WEATHER_KEY || k == STATUS_KEY
    || k == LAST_UPDATE_KEY
  }

  /** A snapshot writes only the category keys and the stamp. */
  lemma ApplySnapshotOtherKeys(m: Store, snap: Snapshot, now: int, k: string)
    requires !IsSnapshotKey(k)
    ensures (k in ApplySnapshot(m, snap, now)) == (k in m)
    ensures k in m ==> ApplySnapshot(m, snap, now)[k] == m[k]
  {
  }

  /** An abandoned step (a result row that raises) leaves the cache exactly as it was. */
  lemma AbandonedStepWritesNothing(m: Store, s: ProviderSession, now: int)
    requires Transform(s).standings.None?
    ensures ApplySnapshot(m, Transform(s), now) == m
  {
  }

  /**
   * After a step whose results convert, and for the next hour, the cache serves the
   * step's standings, timing and tyres, the weather and status records that were built,
   * and the stamp is the step's time.
   */
  lemma PublishedSnapshotReadsBack(m: Store, s: ProviderSession, now: int, t: int)
    requires StandingsOf(s.results).Some?
    requires now <= t < now + DATA_TTL
    ensures var m' := ApplySnapshot(m, Transform(s), now);
      Lookup(m', STANDINGS_KEY, t) == Some(StandingsRec(StandingsOf(s.results).value)) &&
      Lookup(m', TIMING_KEY, t) == Some(TimingRec(TimingOf(s.results, s.laps))) &&
      Lookup(m', TIRES_KEY, t) == Some(TiresRec(TiresOf(s.results, s.laps))) &&
      (LatestWeather(s.weather).Built? ==> Lookup(m', WEATHER_KEY, t) == Some(WeatherRec(LatestWeather(s.weather).value))) &&
      (LatestWeather(s.weather).Built? && LatestStatus(s.trackStatus).Built? ==>
        Lookup(m', STATUS_KEY, t) == Some(StatusRec(LatestStatus(s.trackStatus).value))) &&
      Lookup(m', LAST_UPDATE_KEY, t) == Some(Stamp(now))
  {
    KeysDistinct();
    var snap := Transform(s);
    var m1 := Put(m, STANDINGS_KEY, StandingsRec(snap.standings.value), true, now);
    var m2 := Put(m1, TIMING_KEY, TimingRec(snap.timing.value), true, now);
    var m3 := Put(m2, TIRES_KEY, TiresRec(snap.tires.value), true, now);
    var m4 := if snap.weather.Some? then Put(m3, WEATHER_KEY, WeatherRec(snap.weather.value), true, now) else m3;
    var m5 := if snap.trackStatus.Some? then Put(m4, STATUS_KEY, StatusRec(snap.trackStatus.value), true, now) else m4;
    assert ApplySnapshot(m, snap, now) == m5;
    // each category reads back from the store that wrote it, through the later stores
    GetAfterPut(m2, TIRES_KEY, TiresRec(snap.tires.value), true, now, t);
    GetAfterPut(m1, TIMING_KEY, TimingRec(snap.timing.value), true, now, t);
    GetAfterPut(m, STANDINGS_KEY, StandingsRec(snap.standings.value), true, now, t);
    LookupOther(m1, TIMING_KEY, TimingRec(snap.timing.value), true, now, STANDINGS_KEY, t);
    LookupOther(m2, TIRES_KEY, TiresRec(snap.tires.value), true, now, STANDINGS_KEY, t);
    LookupOther(m2, TIRES_KEY, TiresRec(snap.tires.value), true, now, TIMING_KEY, t);
    forall k | k == STANDINGS_KEY || k == TIMING_KEY || k == TIRES_KEY
      ensures Lookup(m5, k, t) == Lookup(m3, k, t)
    {
      if snap.weather.Some? {
        LookupOther(m3, WEATHER_KEY, WeatherRec(snap.weather.value), true, now, k, t);
      }
      if snap.trackStatus.Some? {
        LookupOther(m4, STATUS_KEY, StatusRec(snap.trackStatus.value), true, now, k, t);
      }
    }
    if snap.weather.Some? {
      GetAfterPut(m3, WEATHER_KEY, WeatherRec(snap.weather.value), true, now, t);
      if snap.trackStatus.Some? {
        LookupOther(m4, STATUS_KEY, StatusRec(snap.trackStatus.value), true, now, WEATHER_KEY, t);
      }
    }
    if snap.trackStatus.Some? {
      GetAfterPut(m4, STATUS_KEY, StatusRec(snap.trackStatus.value), true, now, t);
    }
  }

  // ---------------------------------------------------------------- the poll step as values

  /** `not self.current_session or not self.current_session.get("is_live", False)` */
  predicate NeedsDetection(cur: Option<SessionInfo>) {
    cur.None? || !cur.value.isLive
  }

  function SessionPayload(s: Option<SessionInfo>): Payload {
    if s.Some? then SessionRec(s.value) else Null
  }

  /** The session the service holds after one poll step. */
  function PollSession(cur: Option<SessionInfo>, now: int, schedule: Option<seq<ScheduleEvent>>): Option<SessionInfo> {
    if NeedsDetection(cur) then Detect(now, schedule) else cur
  }

  /** Processing of a loaded session: skipped when loading raised or when it has no laps yet. */
  function ProcessLoaded(m: Store, fetched: Option<ProviderSession>, now: int): (r: Store)
    ensures (SESSION_KEY in r) == (SESSION_KEY in m)
    ensures SESSION_KEY in m ==> r[SESSION_KEY] == m[SESSION_KEY]
  {
    if fetched.Some? && |fetched.value.laps| > 0 then
      KeysDistinct();
      ApplySnapshotOtherKeys(m, Transform(fetched.value), now, SESSION_KEY);
      ApplySnapshot(m, Transform(fetched.value), now)
    else m
  }

  /**
   * The cache after one poll step on a reachable server. When detection runs, the
   * session key holds its outcome without expiry; otherwise the session key is untouched.
   */
  function PollStore(m: Store, cur: Option<SessionInfo>, now: int, schedule: Option<seq<ScheduleEvent>>,
                     fetched: Option<ProviderSession>): (r: Store)
    ensures NeedsDetection(cur) ==>
      SESSION_KEY in r && r[SESSION_KEY] == Entry(SessionPayload(Detect(now, schedule)), None)
    ensures !NeedsDetection(cur) ==>
      (SESSION_KEY in r) == (SESSION_KEY in m) && (SESSION_KEY in m ==> r[SESSION_KEY] == m[SESSION_KEY])
  {
    KeysDistinct();
    if NeedsDetection(cur) then
      var d := Detect(now, schedule);
      var m1 := Put(m, SESSION_KEY, SessionPayload(d), false, now);
      if d.Some? && d.value.isLive then ProcessLoaded(m1, fetched, now) else m1
    else ProcessLoaded(m, fetched, now)
  }

  /** Once the held session is live it is kept, and the session key is not written again. */
  lemma LiveSessionNeverRedetected(m: Store, cur: Option<SessionInfo>, now: int,
                                   schedule: Option<seq<ScheduleEvent>>, fetched: Option<ProviderSession>)
    requires cur.Some? && cur.value.isLive
    ensures PollSession(cur, now, schedule) == cur
    ensures (SESSION_KEY in PollStore(m, cur, now, schedule, fetched)) == (SESSION_KEY in m)
    ensures SESSION_KEY in m ==> PollStore(m, cur, now, schedule, fetched)[SESSION_KEY] == m[SESSION_KEY]
  {
    KeysDistinct();
    if fetched.Some? && |fetched.value.laps| > 0 {
      ApplySnapshotOtherKeys(m, Transform(fetched.value), now, SESSION_KEY);
    }
  }

  /**
   * When detection runs, its outcome is published under the session key without expiry,
   * whatever it is: the record, or `None` when nothing was detected.
   */
  lemma DetectionPublishedWithoutExpiry(m: Store, cur: Option<SessionInfo>, now: int,
                                        schedule: Option<seq<ScheduleEvent>>, fetched: Option<ProviderSession>, t: int)
    requires NeedsDetection(cur)
    ensures var d := Detect(now, schedule);
      Lookup(PollStore(m, cur, now, schedule, fetched), SESSION_KEY, t) == (if d.Some? then Some(SessionRec(d.value)) else None)
  {
    KeysDistinct();
    var d := Detect(now, schedule);
    var m1 := Put(m, SESSION_KEY, SessionPayload(d), false, now);
    if d.Some? && d.value.isLive && fetched.Some? && |fetched.value.laps| > 0 {
      ApplySnapshotOtherKeys(m1, Transform(fetched.value), now, SESSION_KEY);
    }
  }

  /** A step that detects no live session writes only the session key and the stamp. */
  lemma NoLiveSessionNoSnapshot(m: Store, cur: Option<SessionInfo>, now: int,
                                schedule: Option<seq<ScheduleEvent>>, fetched: Option<ProviderSession>, k: string)
    requires NeedsDetection(cur) && NeedsDetection(Detect(now, schedule))
    requires k != SESSION_KEY && k != LAST_UPDATE_KEY
    ensures (k in PollStore(m, cur, now, schedule, fetched)) == (k in m)
    ensures k in m ==> PollStore(m, cur, now, schedule, fetched)[k] == m[k]
  {
  }

  // ---------------------------------------------------------------- polling flags

  /** `polling_active` and whether the polling thread exists and is alive. */
  datatype PollFlags = PollFlags(active: bool, threadAlive: bool)

  /** Polling happens: the flag is set and a thread is running the loop. */
  predicate Polling(f: PollFlags) {
    f.active && f.threadAlive
  }

  /**
   * `start_polling` as written: a no-op whenever a thread is alive, even one that has
   * been told to stop; otherwise it sets the flag and starts a new thread.
   */
  function StartStepAsWritten(f: PollFlags): (r: PollFlags)
    ensures r.threadAlive
    ensures f.threadAlive ==> r == f
    ensures Polling(r) <==> f.active || !f.threadAlive
  {
    if f.threadAlive then f else PollFlags(true, true)
  }

  /**
   * `start_polling` as evidently intended: afterwards the flag is set and a thread is
   * running; a thread still alive keeps looping because the flag is set again.
   */
  function StartStep(f: PollFlags): (r: PollFlags)
    ensures Polling(r)
    ensures Polling(f) ==> r == f
  {
    if Polling(f) then f else PollFlags(true, true)
  }

  /** `stop_polling`: clear the flag; the thread is gone only if it ended within the join timeout. */
  function StopStep(f: PollFlags, joined: bool): (r: PollFlags)
    ensures !Polling(r) && !r.active
    ensures r.threadAlive <==> f.threadAlive && !joined
  {
    PollFlags(false, f.threadAlive && !joined)
  }

  /** The thread reaching the loop's `while self.polling_active` test: it ends when the flag is clear. */
  function LoopCheck(f: PollFlags): (r: PollFlags)
    ensures r.active == f.active
    ensures r.threadAlive <==> f.threadAlive && f.active
  {
    if f.active then f else PollFlags(false, false)
  }

  /**
   * As written: polling that is stopped while its thread sleeps (the idle wait is 300 s,
   * the join gives up after 10 s) and restarted at once is not restarted, and the old
   * thread then ends: no polling happens although the last call was a start.
   */
  lemma RestartAfterTimedOutStopIsLost()
    ensures var f := LoopCheck(StartStepAsWritten(StopStep(PollFlags(true, true), false)));
      !Polling(f) && !f.active && !f.threadAlive
  {
  }

  /** Corrected: after a start, polling survives the thread's next loop test, whatever came before. */
  lemma {:induction false} StartKeepsPolling(f: PollFlags, joined: bool)
    ensures Polling(LoopCheck(StartStep(f)))
    ensures Polling(LoopCheck(StartStep(StopStep(f, joined))))
  {
    var r := StartStep(StopStep(f, joined));
    assert Polling(r);
  }

  // ---------------------------------------------------------------- the service object

  class RedisLiveDataService {
    /** The cache server's keys. */
    var store: Store
    /** Whether the cache server answers; every call on it fails when it does not. */
    var reachable: bool
    var flags: PollFlags
    /** `self.current_session` */
    var currentSession: Option<SessionInfo>

    /** A service whose connection check succeeded against a server holding `initial`. */
    constructor(initial: Store)
      ensures store == initial && reachable && flags == PollFlags(false, false) && currentSession.None?
    {
      store := initial;
      reachable := true;
      flags := PollFlags(false, false);
      currentSession := None;
    }

    /** The server going away or coming back; not an operation of the service. */
    method SetReachable(up: bool)
      modifies this
      ensures reachable == up
      ensures store == old(store) && flags == old(flags) && currentSession == old(currentSession)
    {
      reachable := up;
    }

    /** `store_data`: reports failure instead of raising, and then changes nothing. */
    method StoreData(key: string, data: Payload, expire: bool, now: int) returns (ok: bool)
      modifies this
      ensures ok == reachable
      ensures store == (if reachable then Put(old(store), key, data, expire, now) else old(store))
      ensures reachable == old(reachable) && flags == old(flags) && currentSession == old(currentSession)
    {
      if !reachable {
        return false;
      }
      store := store[key := Entry(data, None)];
      if expire {
        store := store[key := Entry(data, Some(now + DATA_TTL))];
      }
      store := store[LAST_UPDATE_KEY := Entry(Stamp(now), None)];
      return true;
    }

    /** `get_data`, and through it every `get_live_*` getter at its fixed key: never raises. */
    method GetData(key: string, now: int) returns (r: Option<Payload>)
      ensures r.Some? ==> reachable && key in store && store[key].value == r.value
      ensures r.Some? ==> r.value != Null && Visible(store[key], now)
      ensures reachable && key in store && Visible(store[key], now) && store[key].value != Null ==> r.Some?
    {
      if !reachable || key !in store {
        return None;
      }
      var e := store[key];
      if !Visible(e, now) || e.value == Null {
        return None;
      }
      return Some(e.value);
    }

    /** `get_last_update`: the stamp of the most recent successful store. */
    method GetLastUpdate(now: int) returns (r: Option<Payload>)
      ensures r == (if reachable then Lookup(store, LAST_UPDATE_KEY, now) else None)
    {
      r := GetData(LAST_UPDATE_KEY, now);
    }

    /** `clear_all_data`: deletes every key under the service's prefix. */
    method ClearAllData() returns (ok: bool)
      modifies this
      ensures ok == reachable
      ensures store == (if reachable then WithoutPrefix(old(store)) else old(store))
      ensures reachable == old(reachable) && flags == old(flags) && currentSession == old(currentSession)
    {
      if !reachable {
        return false;
      }
      store := map k | k in store && !StartsWith(k, KEY_PREFIX) :: store[k];
      return true;
    }

    /** `start_polling`, corrected so that a start right after a timed-out stop is not lost. */
    method StartPolling()
      modifies this
      ensures flags == StartStep(old(flags)) && Polling(flags)
      ensures store == old(store) && reachable == old(reachable) && currentSession == old(currentSession)
    {
      if flags.active && flags.threadAlive {
        return;
      }
      flags := PollFlags(true, true);
    }

    /** `stop_polling`; `joined` says whether the thread ended within the 10 s join timeout. */
    method StopPolling(joined: bool)
      modifies this
      ensures flags == StopStep(old(flags), joined) && !Polling(flags)
      ensures store == old(store) && reachable == old(reachable) && currentSession == old(currentSession)
    {
      flags := flags.(active := false);
      if joined {
        flags := flags.(threadAlive := false);
      }
    }

    /** The polling thread testing its loop condition; it ends when the flag is clear. */
    method PollingLoopCheck()
      modifies this
      ensures flags == LoopCheck(old(flags))
      ensures store == old(store) && reachable == old(reachable) && currentSession == old(currentSession)
    {
      if !flags.active {
        flags := PollFlags(false, false);
      }
    }

    /**
     * `_process_live_session`: build each category and store it in turn; a conversion that
     * raises abandons the categories not yet stored.
     */
    method ProcessLiveSession(s: ProviderSession, now: int)
      modifies this
      ensures store == (if reachable then ApplySnapshot(old(store), Transform(s), now) else old(store))
      ensures reachable == old(reachable) && flags == old(flags) && currentSession == old(currentSession)
    {
      var standings := BuildStandings(s.results);
      if standings.None? {
        return;
      }
      var ok := StoreData(STANDINGS_KEY, StandingsRec(standings.value), true, now);
      var timing := BuildTiming(s.results, s.laps);
      ok := StoreData(TIMING_KEY, TimingRec(timing), true, now);
      var tires := BuildTires(s.results, s.laps);
      ok := StoreData(TIRES_KEY, TiresRec(tires), true, now);
      if |s.weather| > 0 {
        var latestWeather := s.weather[|s.weather| - 1];
        if !WeatherConverts(latestWeather) {
          // `int(WindDirection)` or `name.isoformat()` raises: the rest is abandoned
          return;
        }
        ok := StoreData(WEATHER_KEY, WeatherRec(LatestWeather(s.weather).value), true, now);
      }
      if |s.trackStatus| > 0 {
        var latestStatus := s.trackStatus[|s.trackStatus| - 1];
        if !StatusConverts(latestStatus) {
          return;
        }
        ok := StoreData(STATUS_KEY, StatusRec(LatestStatus(s.trackStatus).value), true, now);
      }
    }

    /**
     * `poll_live_data`. `schedule` is what the provider's schedule call returns (`None`
     * when it raises); `fetched` is the session loaded for the held live session (`None`
     * when loading raises).
     */
    method PollLiveData(now: int, schedule: Option<seq<ScheduleEvent>>, fetched: Option<ProviderSession>)
      modifies this
      ensures currentSession == PollSession(old(currentSession), now, schedule)
      ensures store == (if reachable then PollStore(old(store), old(currentSession), now, schedule, fetched) else old(store))
      ensures reachable == old(reachable) && flags == old(flags)
    {
      if currentSession.None? || !currentSession.value.isLive {
        currentSession := DetectCurrentSession(now, schedule);
        var ok := StoreData(SESSION_KEY, SessionPayload(currentSession), false, now);
        if currentSession.None? || !currentSession.value.isLive {
          // the 300 s wait before the next detection
          return;
        }
      }
      if fetched.None? || |fetched.value.laps| == 0 {
        return;
      }
      ProcessLiveSession(fetched.value, now);
    }
  }
}
