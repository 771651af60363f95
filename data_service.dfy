/**
 * The read facade of backend/data_service.py (`F1DataService`): historical answers come
 * from the SQLite database, live answers from the key-value cache that
 * `RedisLiveDataService` fills, and the facade decides which one a caller gets.
 *
 * A query's rows are an input (`None` when SQLite raises); the facade's own filters
 * (session, driver, year, the `IN` lists) are applied here, while the database's row
 * order is taken as given.
 */
module DataFacade {
  import opened Common
  import opened LiveTypes
  import opened LiveService
  import opened LapTimeText

  // ---------------------------------------------------------------- the live cache as seen by the facade

  /** The facade's live service: none at all, or one whose server is up or down. */
  datatype Cache = NoService | Service(reachable: bool, store: Store)

  /** `redis_service.get_data(key)`, and `None` when there is no service. */
  function Fetch(c: Cache, key: string, now: int): (r: Option<Payload>)
    ensures r.Some? ==> r.value != Null
    ensures c.NoService? ==> r.None?
  {
    if c.Service? && c.reachable then Lookup(c.store, key, now) else None
  }

  /** Python truthiness of a cached value: empty lists and dicts and a zero stamp are false. */
  predicate Truthy(p: Payload) {
    match p
    case Null => false
    case StandingsRec(l) => |l| > 0
    case TimingRec(l) => |l| > 0
    case TiresRec(m) => |m| > 0
    case Stamp(at) => at != 0
    case _ => true
  }

  /** `get_current_session`: the cached session record, if a service has one. */
  function CurrentSession(c: Cache, now: int): Option<Payload> {
    Fetch(c, SESSION_KEY, now)
  }

  /** `get_live_timing() or []`, and [] without a service. */
  function LiveTiming(c: Cache, now: int): seq<TimingEntry> {
    match Fetch(c, TIMING_KEY, now)
    case Some(TimingRec(l)) => l
    case _ => []
  }

  /** `get_live_tires() or {}`, and {} without a service. */
  function LiveTires(c: Cache, now: int): map<string, TireState> {
    match Fetch(c, TIRES_KEY, now)
    case Some(TiresRec(m)) => m
    case _ => map[]
  }

  /** `get_track_status()`, and `None` without a service. */
  function TrackStatusNow(c: Cache, now: int): Option<TrackStatus> {
    match Fetch(c, STATUS_KEY, now)
    case Some(StatusRec(s)) => Some(s)
    case _ => None
  }

  /** Without a live service every live getter answers with its empty default. */
  lemma NoServiceDefaults(now: int)
    ensures CurrentSession(NoService, now) == None
    ensures LiveTiming(NoService, now) == [] && LiveTires(NoService, now) == map[]
    ensures TrackStatusNow(NoService, now) == None
  {
  }

  /**
   * What the poller stored under the timing, tyre and status keys is what the facade's
   * live getters answer until the time-to-live runs out.
   */
  lemma LiveGettersReadBack(m: Store, timing: seq<TimingEntry>, tires: map<string, TireState>,
                            status: TrackStatus, now: int, t: int)
    requires now <= t < now + DATA_TTL
    ensures LiveTiming(Service(true, Put(m, TIMING_KEY, TimingRec(timing), true, now)), t) == timing
    ensures LiveTires(Service(true, Put(m, TIRES_KEY, TiresRec(tires), true, now)), t) == tires
    ensures TrackStatusNow(Service(true, Put(m, STATUS_KEY, StatusRec(status), true, now)), t) == Some(status)
  {
    KeysDistinct();
    GetAfterPut(m, TIMING_KEY, TimingRec(timing), true, now, t);
    GetAfterPut(m, TIRES_KEY, TiresRec(tires), true, now, t);
    GetAfterPut(m, STATUS_KEY, StatusRec(status), true, now, t);
  }

  // ---------------------------------------------------------------- driver standings

  /** One row of the season-total query: a driver, their team and the sum of their race points. */
  datatype DriverTotalRow = DriverTotalRow(
    driverId: int,
    fullName: string,
    abbreviation: string,
    teamName: string,
    teamColor: Option<string>,
    totalPoints: Option<real>)

  /** One historical standings row, with its 1-based position. */
  datatype DriverStanding = DriverStanding(
    position: nat,
    driverId: int,
    driverName: string,
    abbreviation: string,
    team: string,
    teamColor: Option<string>,
    points: Option<real>)

  /** An element of the standings list: a cached live row or a historical row. */
  datatype StandingsItem = LiveStanding(live: Standing) | StoredStanding(stored: DriverStanding)

  function StandingOf(row: DriverTotalRow, position: nat): DriverStanding {
    DriverStanding(position, row.driverId, row.fullName, row.abbreviation, row.teamName,
      row.teamColor, row.totalPoints)
  }

  /** The historical rows numbered from 1 in the order the query returns them. */
  function Ranked(rows: seq<DriverTotalRow>): (r: seq<StandingsItem>)
    ensures |r| == |rows|
    ensures forall i :: 0 <= i < |rows| ==> r[i] == StoredStanding(StandingOf(rows[i], i + 1))
  {
    if |rows| == 0 then []
    else Ranked(rows[..|rows| - 1]) + [StoredStanding(StandingOf(rows[|rows| - 1], |rows|))]
  }

  /** The cached live standings, each as a list element. */
  function LiveItems(l: seq<Standing>): (r: seq<StandingsItem>)
    ensures |r| == |l|
    ensures forall i :: 0 <= i < |l| ==> r[i] == LiveStanding(l[i])
  {
    if |l| == 0 then [] else LiveItems(l[..|l| - 1]) + [LiveStanding(l[|l| - 1])]
  }

  /**
   * The live standings the facade prefers for `year`: the cached session is of that year
   * and the cached standings list is not empty.
   */
  function LiveStandingsFor(c: Cache, now: int, year: int): Option<seq<Standing>> {
    match CurrentSession(c, now)
    case Some(SessionRec(s)) =>
      if s.year != year then None
      else (match Fetch(c, STANDINGS_KEY, now)
        case Some(StandingsRec(l)) => if |l| > 0 then Some(l) else None
        case _ => None)
    case _ => None
  }

  /**
   * `get_driver_standings(year)`: [] without a cursor, the live list when
   * `LiveStandingsFor` has one, else the historical rows ([] when the query raises).
   */
  function DriverStandings(cursor: bool, c: Cache, now: int, year: int,
                           rows: Option<seq<DriverTotalRow>>): (r: seq<StandingsItem>)
    ensures (forall i :: 0 <= i < |r| ==> r[i].LiveStanding?) || (forall i :: 0 <= i < |r| ==> r[i].StoredStanding?)
    ensures forall i :: 0 <= i < |r| && r[i].StoredStanding? ==> r[i].stored.position == i + 1
  {
    if !cursor then []
    else match LiveStandingsFor(c, now, year)
      case Some(l) => LiveItems(l)
      case None => if rows.Some? then Ranked(rows.value) else []
  }

  /**
   * The answer is live exactly when a cursor exists, the cached session is of the
   * requested year and the cached standings are not empty; the live list is then
   * returned as it is. Otherwise every row is historical, numbered 1..n in query order.
   */
  lemma StandingsLiveIff(cursor: bool, c: Cache, now: int, year: int, rows: Option<seq<DriverTotalRow>>)
    ensures var r := DriverStandings(cursor, c, now, year, rows);
      (exists i :: 0 <= i < |r| && r[i].LiveStanding?) <==>
        cursor && (exists s, l :: CurrentSession(c, now) == Some(SessionRec(s)) && s.year == year &&
                                  Fetch(c, STANDINGS_KEY, now) == Some(StandingsRec(l)) && |l| > 0)
    ensures var r := DriverStandings(cursor, c, now, year, rows);
      cursor && LiveStandingsFor(c, now, year).Some? ==>
        var l := LiveStandingsFor(c, now, year).value;
        Fetch(c, STANDINGS_KEY, now) == Some(StandingsRec(l)) &&
        |r| == |l| && forall i :: 0 <= i < |l| ==> r[i] == LiveStanding(l[i])
    ensures var r := DriverStandings(cursor, c, now, year, rows);
      cursor && LiveStandingsFor(c, now, year).None? && rows.Some? ==>
        |r| == |rows.value| &&
        forall i :: 0 <= i < |r| ==> r[i].StoredStanding? && r[i].stored.position == i + 1 &&
                                     r[i].stored.driverId == rows.value[i].driverId
  {
    var r := DriverStandings(cursor, c, now, year, rows);
    forall s, l | CurrentSession(c, now) == Some(SessionRec(s)) && s.year == year &&
                  Fetch(c, STANDINGS_KEY, now) == Some(StandingsRec(l)) && |l| > 0
      ensures LiveStandingsFor(c, now, year) == Some(l)
    {
    }
    if cursor && LiveStandingsFor(c, now, year).Some? {
      var l := LiveStandingsFor(c, now, year).value;
      assert r[0].LiveStanding?;
      match CurrentSession(c, now)
      case Some(SessionRec(s)) =>
        assert CurrentSession(c, now) == Some(SessionRec(s)) && s.year == year;
        assert Fetch(c, STANDINGS_KEY, now) == Some(StandingsRec(l));
      case _ =>
    } else if cursor {
      assert forall i :: 0 <= i < |r| ==> r[i].StoredStanding?;
    }
  }

  /** With no cursor the answer is [] whatever the cache holds: the cache is never read. */
  lemma StandingsNeedCursor(c: Cache, now: int, year: int, rows: Option<seq<DriverTotalRow>>)
    ensures DriverStandings(false, c, now, year, rows) == []
    ensures forall c' :: DriverStandings(false, c, now, year, rows) == DriverStandings(false, c', now, year, rows)
  {
  }

  /**
   * Live standings published for the season of the cached session are what the facade
   * answers for that season while both keys are fresh.
   */
  lemma PublishedStandingsServed(m: Store, s: SessionInfo, l: seq<Standing>, now: int, t: int,
                                 rows: Option<seq<DriverTotalRow>>)
    requires |l| > 0 && now <= t < now + DATA_TTL
    ensures var m' := Put(Put(m, SESSION_KEY, SessionRec(s), false, now), STANDINGS_KEY, StandingsRec(l), true, now);
      DriverStandings(true, Service(true, m'), t, s.year, rows) == LiveItems(l)
  {
    var m2 := Put(Put(m, SESSION_KEY, SessionRec(s), false, now), STANDINGS_KEY, StandingsRec(l), true, now);
    SessionAndStandingsRead(m, s, l, now, t);
    assert LiveStandingsFor(Service(true, m2), t, s.year) == Some(l);
  }

  lemma SessionAndStandingsRead(m: Store, s: SessionInfo, l: seq<Standing>, now: int, t: int)
    requires now <= t < now + DATA_TTL
    ensures var m' := Put(Put(m, SESSION_KEY, SessionRec(s), false, now), STANDINGS_KEY, StandingsRec(l), true, now);
      Lookup(m', SESSION_KEY, t) == Some(SessionRec(s)) && Lookup(m', STANDINGS_KEY, t) == Some(StandingsRec(l))
  {
    KeysDistinct();
    var m1 := Put(m, SESSION_KEY, SessionRec(s), false, now);
    GetAfterPut(m, SESSION_KEY, SessionRec(s), false, now, t);
    LookupOther(m1, STANDINGS_KEY, StandingsRec(l), true, now, SESSION_KEY, t);
    GetAfterPut(m1, STANDINGS_KEY, StandingsRec(l), true, now, t);
  }

  // ---------------------------------------------------------------- weather

  /** A row of the weather table; `rainfall` is stored as an integer. */
  datatype WeatherRow = WeatherRow(
    sessionId: int,
    time: Option<string>,
    airTemp: Option<real>,
    humidity: Option<real>,
    pressure: Option<real>,
    rainfall: Option<int>,
    trackTemp: Option<real>,
    windDirection: Option<int>,
    windSpeed: Option<real>)

  /** A historical weather reading as the facade hands it out. */
  datatype WeatherReading = WeatherReading(
    time: Option<string>,
    airTemp: Option<real>,
    humidity: Option<real>,
    pressure: Option<real>,
    rainfall: Option<bool>,
    trackTemp: Option<real>,
    windDirection: Option<int>,
    windSpeed: Option<real>)

  /** An element of the weather list: the cached live reading or a historical one. */
  datatype WeatherItem = LiveWeather(live: Weather) | StoredWeather(stored: WeatherReading)

  /** `bool(rainfall)` for a stored value, `None` kept as `None`. */
  function ReadingOf(row: WeatherRow): (r: WeatherReading)
    ensures r.rainfall == (if row.rainfall.Some? then Some(row.rainfall.value != 0) else None)
    ensures r.time == row.time && r.airTemp == row.airTemp && r.trackTemp == row.trackTemp
  {
    WeatherReading(row.time, row.airTemp, row.humidity, row.pressure,
      match row.rainfall case Some(x) => Some(x != 0) case None => None,
      row.trackTemp, row.windDirection, row.windSpeed)
  }

  /** The item is the reading of some row of session `sessionId`. */
  ghost predicate ReadingOfSession(rows: seq<WeatherRow>, sessionId: int, item: WeatherItem) {
    exists j :: 0 <= j < |rows| && rows[j].sessionId == sessionId && item == StoredWeather(ReadingOf(rows[j]))
  }

  /**
   * The readings of session `sessionId` (the `WHERE w.session_id = ?` filter), in table
   * order: every row of the session is listed, and every item is the reading of one.
   */
  function SessionReadings(rows: seq<WeatherRow>, sessionId: int): (r: seq<WeatherItem>)
    ensures |r| <= |rows|
    ensures forall i :: 0 <= i < |rows| && rows[i].sessionId == sessionId ==> StoredWeather(ReadingOf(rows[i])) in r
    ensures forall i :: 0 <= i < |r| ==> ReadingOfSession(rows, sessionId, r[i])
  {
    if |rows| == 0 then []
    else
      var prefix := rows[..|rows| - 1];
      var last := rows[|rows| - 1];
      assert forall j :: 0 <= j < |rows| - 1 ==> prefix[j] == rows[j];
      assert forall x :: ReadingOfSession(prefix, sessionId, x) ==> ReadingOfSession(rows, sessionId, x) by {
        forall x | ReadingOfSession(prefix, sessionId, x) ensures ReadingOfSession(rows, sessionId, x) {
          var j :| 0 <= j < |prefix| && prefix[j].sessionId == sessionId && x == StoredWeather(ReadingOf(prefix[j]));
          assert rows[j] == prefix[j];
        }
      }
      assert last.sessionId == sessionId ==> ReadingOfSession(rows, sessionId, StoredWeather(ReadingOf(last)));
      SessionReadings(prefix, sessionId) +
        if last.sessionId == sessionId then [StoredWeather(ReadingOf(last))] else []
  }

  /**
   * The readings keep the table's order: the readings of two consecutive stretches of
   * rows are those of the first stretch followed by those of the second.
   */
  lemma {:induction false} SessionReadingsInOrder(a: seq<WeatherRow>, b: seq<WeatherRow>, sessionId: int)
    ensures SessionReadings(a + b, sessionId) == SessionReadings(a, sessionId) + SessionReadings(b, sessionId)
    decreases |b|
  {
    if |b| == 0 {
      assert a + b == a;
    } else {
      var init := b[..|b| - 1];
      var last := b[|b| - 1];
      assert (a + b)[..|a + b| - 1] == a + init;
      assert (a + b)[|a + b| - 1] == last;
      SessionReadingsInOrder(a, init, sessionId);
    }
  }

  /** The cached live weather, when a session is cached and the weather key holds a reading. */
  function LiveWeatherFor(c: Cache, now: int): Option<Weather> {
    var cur := CurrentSession(c, now);
    if cur.Some? && Truthy(cur.value) then
      match Fetch(c, WEATHER_KEY, now)
      case Some(WeatherRec(w)) => Some(w)
      case _ => None
    else None
  }

  /**
   * `get_weather(session_id)`: [] without a cursor, the one-element list of the live
   * reading when there is one, else the session's stored readings ([] when the query
   * raises).
   */
  function SessionWeather(cursor: bool, c: Cache, now: int, sessionId: int,
                          rows: Option<seq<WeatherRow>>): (r: seq<WeatherItem>)
    ensures |r| == 1 || forall i :: 0 <= i < |r| ==> r[i].StoredWeather?
    ensures forall i :: 0 <= i < |r| && r[i].StoredWeather? ==> rows.Some? && ReadingOfSession(rows.value, sessionId, r[i])
  {
    if !cursor then []
    else match LiveWeatherFor(c, now)
      case Some(w) => [LiveWeather(w)]
      case None => if rows.Some? then SessionReadings(rows.value, sessionId) else []
  }

  /**
   * The live reading is returned for any session id, and the stored rows are then not
   * consulted; without a cursor the answer is [].
   */
  lemma WeatherIgnoresSessionId(c: Cache, now: int, id1: int, id2: int,
                                rows1: Option<seq<WeatherRow>>, rows2: Option<seq<WeatherRow>>)
    ensures LiveWeatherFor(c, now).Some? ==>
      SessionWeather(true, c, now, id1, rows1) == SessionWeather(true, c, now, id2, rows2) ==
        [LiveWeather(LiveWeatherFor(c, now).value)]
    ensures SessionWeather(false, c, now, id1, rows1) == []
  {
  }

  /**
   * The answer holds a live reading exactly when a cursor exists, a (truthy) value is
   * cached under the session key and the weather key holds a reading; otherwise it is
   * the session's stored readings.
   */
  lemma WeatherLiveIff(cursor: bool, c: Cache, now: int, sessionId: int, rows: Option<seq<WeatherRow>>)
    ensures var r := SessionWeather(cursor, c, now, sessionId, rows);
      (exists i :: 0 <= i < |r| && r[i].LiveWeather?) <==>
        cursor && CurrentSession(c, now).Some? && Truthy(CurrentSession(c, now).value) &&
        exists w :: Fetch(c, WEATHER_KEY, now) == Some(WeatherRec(w))
    ensures var r := SessionWeather(cursor, c, now, sessionId, rows);
      cursor && LiveWeatherFor(c, now).None? && rows.Some? ==> r == SessionReadings(rows.value, sessionId)
  {
    var r := SessionWeather(cursor, c, now, sessionId, rows);
    if cursor && LiveWeatherFor(c, now).Some? {
      assert r[0].LiveWeather?;
    }
  }

  // ---------------------------------------------------------------- lap times

  /** A row of the laps-drivers-teams join with a non-null lap time. */
  datatype LapJoinRow = LapJoinRow(
    sessionId: int,
    lapNumber: Option<int>,
    lapTime: string,
    abbreviation: string,
    teamColor: Option<string>,
    sector1: Option<string>,
    sector2: Option<string>,
    sector3: Option<string>,
    compound: Option<string>,
    tyreLife: Option<real>,
    isPersonalBest: Option<int>)

  /** A lap as the facade hands it out, with its time in seconds when that could be read. */
  datatype LapTimeEntry = LapTimeEntry(
    lapNumber: Option<int>,
    lapTime: string,
    lapTimeSec: Option<real>,
    driver: string,
    teamColor: Option<string>,
    sector1: Option<string>,
    sector2: Option<string>,
    sector3: Option<string>,
    compound: Option<string>,
    tyreLife: Option<real>,
    isPersonalBest: bool)

  /** The list of laps, or the `ValueError` a malformed lap time raises out of the call. */
  datatype LapTimesOutcome = LapTimes(laps: seq<LapTimeEntry>) | RaisesValueError

  /** `if driver_abbr:` — only a non-empty abbreviation filters. */
  predicate LapSelected(row: LapJoinRow, sessionId: int, driver: Option<string>) {
    row.sessionId == sessionId && (driver.None? || |driver.value| == 0 || row.abbreviation == driver.value)
  }

  function EntryOf(row: LapJoinRow, sec: Option<real>): (e: LapTimeEntry)
    ensures e.isPersonalBest <==> row.isPersonalBest.Some? && row.isPersonalBest.value != 0
    ensures e.lapTimeSec == sec && e.lapTime == row.lapTime && e.driver == row.abbreviation
  {
    LapTimeEntry(row.lapNumber, row.lapTime, sec, row.abbreviation, row.teamColor,
      row.sector1, row.sector2, row.sector3, row.compound, row.tyreLife,
      match row.isPersonalBest case Some(x) => x != 0 case None => false)
  }

  /** The selected laps in query order; any selected lap whose time raises makes the call raise. */
  function SessionLapTimes(rows: seq<LapJoinRow>, sessionId: int, driver: Option<string>): (r: LapTimesOutcome)
    ensures r.LapTimes? ==> |r.laps| <= |rows|
    decreases |rows|
  {
    if |rows| == 0 then LapTimes([])
    else
      var row := rows[|rows| - 1];
      match SessionLapTimes(rows[..|rows| - 1], sessionId, driver)
      case RaisesValueError => RaisesValueError
      case LapTimes(es) =>
        if !LapSelected(row, sessionId, driver) then LapTimes(es)
        else match LapTimeSeconds(row.lapTime)
          case Raised => RaisesValueError
          case NoSeconds => LapTimes(es + [EntryOf(row, None)])
          case Seconds(x) => LapTimes(es + [EntryOf(row, Some(x))])
  }

  /** `get_driver_lap_times`: [] without a cursor or when the query raises. */
  function DriverLapTimes(cursor: bool, sessionId: int, driver: Option<string>,
                          rows: Option<seq<LapJoinRow>>): LapTimesOutcome {
    if !cursor || rows.None? then LapTimes([]) else SessionLapTimes(rows.value, sessionId, driver)
  }

  /**
   * The call raises exactly when some selected lap's time is malformed; otherwise every
   * listed entry comes from a selected lap and has seconds exactly when its text reads
   * as a time. Which laps are listed, and in what order, follows from
   * `SessionLapTimesAppend` and the one-row lemmas after it.
   */
  lemma {:induction false} LapTimesRaiseIff(rows: seq<LapJoinRow>, sessionId: int, driver: Option<string>)
    ensures SessionLapTimes(rows, sessionId, driver).RaisesValueError? <==>
      exists i :: 0 <= i < |rows| && LapSelected(rows[i], sessionId, driver) && LapTimeSeconds(rows[i].lapTime).Raised?
    ensures SessionLapTimes(rows, sessionId, driver).LapTimes? ==>
      forall e :: e in SessionLapTimes(rows, sessionId, driver).laps ==>
        (e.lapTimeSec.Some? <==> LapTimeSeconds(e.lapTime).Seconds?) &&
        exists i :: 0 <= i < |rows| && LapSelected(rows[i], sessionId, driver) && rows[i].lapTime == e.lapTime &&
                    rows[i].abbreviation == e.driver
  {
    if |rows| > 0 {
      var init := rows[..|rows| - 1];
      var row := rows[|rows| - 1];
      LapTimesRaiseIff(init, sessionId, driver);
      assert forall i :: 0 <= i < |init| ==> rows[i] == init[i];
      var prev := SessionLapTimes(init, sessionId, driver);
      var r := SessionLapTimes(rows, sessionId, driver);
      if prev.RaisesValueError? {
        assert r.RaisesValueError?;
      } else if !LapSelected(row, sessionId, driver) {
        assert r == prev;
      }
      if prev.LapTimes? {
        if r.LapTimes? {
          forall e | e in r.laps
            ensures (e.lapTimeSec.Some? <==> LapTimeSeconds(e.lapTime).Seconds?) &&
              exists i :: 0 <= i < |rows| && LapSelected(rows[i], sessionId, driver) && rows[i].lapTime == e.lapTime &&
                          rows[i].abbreviation == e.driver
          {
            if e !in prev.laps {
              assert e == EntryOf(row, e.lapTimeSec);
              assert LapSelected(rows[|rows| - 1], sessionId, driver);
            } else {
              var i :| 0 <= i < |init| && LapSelected(init[i], sessionId, driver) && init[i].lapTime == e.lapTime &&
                       init[i].abbreviation == e.driver;
              assert rows[i] == init[i];
            }
          }
        }
      }
    }
  }

  /**
   * A selected lap whose text reads as `x` seconds (as every lap in the stored pandas
   * format does, by `LapTimeRoundTrip`) is listed with `x` as its `lap_time_sec`.
   */
  lemma LapListedWithSeconds(row: LapJoinRow, x: real)
    requires LapTimeSeconds(row.lapTime) == Seconds(x)
    ensures SessionLapTimes([row], row.sessionId, None) == LapTimes([EntryOf(row, Some(x))])
  {
    assert [row][..0] == [];
    assert LapSelected(row, row.sessionId, None);
  }

  /**
   * The rows are read in query order: two consecutive stretches of rows that both succeed
   * list the first stretch's laps followed by the second's.
   */
  lemma {:induction false} SessionLapTimesAppend(a: seq<LapJoinRow>, b: seq<LapJoinRow>, sessionId: int,
                                                 driver: Option<string>)
    requires SessionLapTimes(a, sessionId, driver).LapTimes?
    requires SessionLapTimes(b, sessionId, driver).LapTimes?
    ensures SessionLapTimes(a + b, sessionId, driver) ==
      LapTimes(SessionLapTimes(a, sessionId, driver).laps + SessionLapTimes(b, sessionId, driver).laps)
    decreases |b|
  {
    var la := SessionLapTimes(a, sessionId, driver).laps;
    if |b| == 0 {
      assert a + b == a;
      assert la + [] == la;
    } else {
      var n := |b| - 1;
      assert SessionLapTimes(b[..n], sessionId, driver).LapTimes?;
      SessionLapTimesAppend(a, b[..n], sessionId, driver);
      AppendLastRow(a, b, sessionId, driver);
    }
  }

  /** The step of `SessionLapTimesAppend`: the last row of `b` extends both listings alike. */
  lemma AppendLastRow(a: seq<LapJoinRow>, b: seq<LapJoinRow>, sessionId: int, driver: Option<string>)
    requires |b| > 0
    requires SessionLapTimes(a, sessionId, driver).LapTimes?
    requires SessionLapTimes(b, sessionId, driver).LapTimes?
    requires SessionLapTimes(b[..|b| - 1], sessionId, driver).LapTimes?
    requires SessionLapTimes(a + b[..|b| - 1], sessionId, driver) ==
      LapTimes(SessionLapTimes(a, sessionId, driver).laps + SessionLapTimes(b[..|b| - 1], sessionId, driver).laps)
    ensures SessionLapTimes(a + b, sessionId, driver) ==
      LapTimes(SessionLapTimes(a, sessionId, driver).laps + SessionLapTimes(b, sessionId, driver).laps)
  {
    var la := SessionLapTimes(a, sessionId, driver).laps;
    var init := b[..|b| - 1];
    var row := b[|b| - 1];
    var lp := SessionLapTimes(init, sessionId, driver).laps;
    SplitLast(a, b);
    RowContributes(init, row, sessionId, driver, lp);
    RowContributes(a + init, row, sessionId, driver, la + lp);
    ConcatAssociative(la, lp, SessionLapTimes([row], sessionId, driver).laps);
  }

  /** A non-empty sequence, and a concatenation ending in one, split before their last element. */
  lemma SplitLast<T>(a: seq<T>, b: seq<T>)
    requires |b| > 0
    ensures b == b[..|b| - 1] + [b[|b| - 1]]
    ensures a + b == (a + b[..|b| - 1]) + [b[|b| - 1]]
  {
  }

  lemma ConcatAssociative<T>(x: seq<T>, y: seq<T>, z: seq<T>)
    ensures x + y + z == x + (y + z)
  {
  }

  /** A selected lap whose text does not read as a time is listed without seconds. */
  lemma LapListedWithoutSeconds(row: LapJoinRow, driver: Option<string>)
    requires LapSelected(row, row.sessionId, driver) && LapTimeSeconds(row.lapTime).NoSeconds?
    ensures SessionLapTimes([row], row.sessionId, driver) == LapTimes([EntryOf(row, None)])
  {
    assert [row][..0] == [];
  }

  /** A row of another session, or of another driver when one is asked for, is not listed. */
  lemma LapNotSelectedSkipped(row: LapJoinRow, sessionId: int, driver: Option<string>)
    requires !LapSelected(row, sessionId, driver)
    ensures SessionLapTimes([row], sessionId, driver) == LapTimes([])
  {
    assert [row][..0] == [];
  }

  // ---------------------------------------------------------------- head-to-head comparison

  /** A row of the drivers table. */
  datatype DriverRow = DriverRow(id: int, abbreviation: string, year: int)

  /** A row of the race-sessions query: the session, its round and its event. */
  datatype RaceRow = RaceRow(sessionId: int, round: Option<int>, eventName: string)

  /** A row of the results table. */
  datatype ResultRow = ResultRow(driverId: int, sessionId: int, position: Option<int>,
                                 gridPosition: Option<int>, points: Option<real>)

  datatype RaceInfo = RaceInfo(round: Option<int>, name: string)

  datatype Placing = Placing(position: Option<int>, gridPosition: Option<int>, points: Option<real>)

  /** One race of the comparison: the race title, its round and both drivers' grid, finish and points. */
  datatype ComparisonRow = ComparisonRow(
    race: string,
    round: Option<int>,
    grid1: Option<int>, finish1: Option<int>, points1: Option<real>,
    grid2: Option<int>, finish2: Option<int>, points2: Option<real>)

  /** Row `i` is the last row of `year` with abbreviation `a`. */
  predicate LastRowAt(rows: seq<DriverRow>, year: int, a: string, i: int) {
    0 <= i < |rows| && rows[i].year == year && rows[i].abbreviation == a &&
    forall j :: i < j < |rows| && rows[j].year == year ==> rows[j].abbreviation != a
  }

  /** `id` is the id of the last row of `year` with abbreviation `a`. */
  ghost predicate LastIdOf(rows: seq<DriverRow>, year: int, a: string, id: int) {
    exists i :: LastRowAt(rows, year, a, i) && rows[i].id == id
  }

  /** The `drivers` dict: abbreviation to id for the two requested drivers of `year`, last row winning. */
  function DriverIdsOf(rows: seq<DriverRow>, year: int, d1: string, d2: string): (r: map<string, int>)
    ensures FiledUnder(r, d1, d2)
    ensures forall a :: a in r <==> exists i :: 0 <= i < |rows| && rows[i].year == year && rows[i].abbreviation == a &&
                                                 (a == d1 || a == d2)
  {
    if |rows| == 0 then map[]
    else
      var m := DriverIdsOf(rows[..|rows| - 1], year, d1, d2);
      var row := rows[|rows| - 1];
      assert forall i :: 0 <= i < |rows| - 1 ==> rows[..|rows| - 1][i] == rows[i];
      if row.year == year && (row.abbreviation == d1 || row.abbreviation == d2) then m[row.abbreviation := row.id]
      else m
  }

  /** Each abbreviation maps to the id of the last row of `year` that carries it. */
  lemma {:induction false} DriverIdsOfLastWins(rows: seq<DriverRow>, year: int, d1: string, d2: string, a: string)
    requires a in DriverIdsOf(rows, year, d1, d2)
    ensures LastIdOf(rows, year, a, DriverIdsOf(rows, year, d1, d2)[a])
    decreases |rows|
  {
    assert |rows| > 0;
    var prefix := rows[..|rows| - 1];
    var m := DriverIdsOf(prefix, year, d1, d2);
    var row := rows[|rows| - 1];
    var r := DriverIdsOf(rows, year, d1, d2);
    var picked := row.year == year && (row.abbreviation == d1 || row.abbreviation == d2);
    assert r == if picked then m[row.abbreviation := row.id] else m;
    if picked && a == row.abbreviation {
      assert LastRowAt(rows, year, a, |rows| - 1);
    } else {
      assert a in m && r[a] == m[a];
      DriverIdsOfLastWins(prefix, year, d1, d2, a);
      var i :| LastRowAt(prefix, year, a, i) && prefix[i].id == m[a];
      assert rows[i] == prefix[i];
      forall j | i < j < |rows| && rows[j].year == year ensures rows[j].abbreviation != a {
        if j < |prefix| {
          assert rows[j] == prefix[j];
        }
      }
      assert LastRowAt(rows, year, a, i);
    }
  }

  /** The `session_info` dict: its keys in insertion order and its values, last row winning. */
  datatype SessionTable = SessionTable(order: seq<int>, info: map<int, RaceInfo>)

  function SessionTableOf(rows: seq<RaceRow>): (r: SessionTable)
    ensures forall s :: s in r.order <==> s in r.info
    ensures forall s :: s in r.info <==> exists i :: 0 <= i < |rows| && rows[i].sessionId == s
  {
    if |rows| == 0 then SessionTable([], map[])
    else
      var t := SessionTableOf(rows[..|rows| - 1]);
      var row := rows[|rows| - 1];
      assert forall i :: 0 <= i < |rows| - 1 ==> rows[..|rows| - 1][i] == rows[i];
      SessionTable(if row.sessionId in t.info then t.order else t.order + [row.sessionId],
                   t.info[row.sessionId := RaceInfo(row.round, row.eventName)])
  }

  /** The abbreviation a result row is filed under: the first driver's when the id is theirs. */
  function AbbrOf(driverId: int, id1: int, d1: string, d2: string): string {
    if driverId == id1 then d1 else d2
  }

  /** The `results_by_session` dict over the results of the two drivers in the listed sessions. */
  function Placings(rows: seq<ResultRow>, id1: int, id2: int, d1: string, d2: string,
                    info: map<int, RaceInfo>): (r: map<int, map<string, Placing>>)
    ensures forall s :: s in r ==> s in info
    ensures forall s :: s in r ==> FiledUnder(r[s], d1, d2)
  {
    if |rows| == 0 then map[]
    else
      var m := Placings(rows[..|rows| - 1], id1, id2, d1, d2, info);
      var row := rows[|rows| - 1];
      if (row.driverId == id1 || row.driverId == id2) && row.sessionId in info then
        var inner := if row.sessionId in m then m[row.sessionId] else map[];
        m[row.sessionId := inner[AbbrOf(row.driverId, id1, d1, d2) := Placing(row.position, row.gridPosition, row.points)]]
      else m
  }

  /** Every key of `p` is one of the two abbreviations. */
  predicate FiledUnder<V>(p: map<string, V>, d1: string, d2: string) {
    forall a :: a in p ==> a == d1 || a == d2
  }

  /** A two-entry dict whose keys are among `d1` and `d2` holds both, and they differ. */
  lemma TwoKeys<V>(p: map<string, V>, d1: string, d2: string)
    requires FiledUnder(p, d1, d2)
    requires |p| == 2
    ensures d1 in p && d2 in p && d1 != d2
  {
    if d1 !in p || d2 !in p || d1 == d2 {
      var only := if d1 !in p then d2 else d1;
      assert p.Keys <= {only};
      SingletonBound(p.Keys, only);
    }
  }

  lemma SingletonBound<T>(a: set<T>, x: T)
    requires a <= {x}
    ensures |a| <= 1
  {
    if a != {} {
      assert a == {x};
    }
  }

  /** The sessions of `order` that have a result for each driver, in `order`'s order. */
  function ComparedSessions(order: seq<int>, placings: map<int, map<string, Placing>>): (r: seq<int>)
    ensures forall s :: s in r <==> s in order && s in placings && |placings[s]| == 2
  {
    if |order| == 0 then []
    else
      var s := order[|order| - 1];
      ComparedSessions(order[..|order| - 1], placings) +
        if s in placings && |placings[s]| == 2 then [s] else []
  }

  /** `f"Round {round} - {name}"`, with Python's "None" for a missing round. */
  function RaceTitle(info: RaceInfo): string {
    "Round " + (match info.round case Some(n) => IntToString(n) case None => "None") + " - " + info.name
  }

  function RowOf(info: RaceInfo, p1: Placing, p2: Placing): ComparisonRow {
    ComparisonRow(RaceTitle(info), info.round, p1.gridPosition, p1.position, p1.points,
      p2.gridPosition, p2.position, p2.points)
  }

  /** Both drivers' results in each session. */
  predicate PairedIn(sessions: seq<int>, info: map<int, RaceInfo>, placings: map<int, map<string, Placing>>,
                     d1: string, d2: string) {
    forall i :: 0 <= i < |sessions| ==>
      sessions[i] in info && sessions[i] in placings && d1 in placings[sessions[i]] && d2 in placings[sessions[i]]
  }

  function ComparisonRows(sessions: seq<int>, info: map<int, RaceInfo>, placings: map<int, map<string, Placing>>,
                          d1: string, d2: string): (r: seq<ComparisonRow>)
    requires PairedIn(sessions, info, placings, d1, d2)
    ensures |r| == |sessions|
    ensures forall i :: 0 <= i < |r| ==>
      r[i] == RowOf(info[sessions[i]], placings[sessions[i]][d1], placings[sessions[i]][d2])
  {
    if |sessions| == 0 then []
    else
      var s := sessions[|sessions| - 1];
      ComparisonRows(sessions[..|sessions| - 1], info, placings, d1, d2) +
        [RowOf(info[s], placings[s][d1], placings[s][d2])]
  }

  /** Every compared session is a listed race holding both drivers' placings. */
  lemma ComparedArePaired(order: seq<int>, info: map<int, RaceInfo>, placings: map<int, map<string, Placing>>,
                          d1: string, d2: string)
    requires forall s :: s in order ==> s in info
    requires forall s :: s in placings ==> FiledUnder(placings[s], d1, d2)
    ensures PairedIn(ComparedSessions(order, placings), info, placings, d1, d2)
  {
    var cs := ComparedSessions(order, placings);
    forall i | 0 <= i < |cs|
      ensures cs[i] in info && cs[i] in placings && d1 in placings[cs[i]] && d2 in placings[cs[i]]
    {
      var s := cs[i];
      assert s in cs;
      assert s in placings;
      assert FiledUnder(placings[s], d1, d2);
      TwoKeys(placings[s], d1, d2);
    }
  }

  /**
   * `get_compare_drivers(year, d1, d2)`: [] without a cursor, when a query raises or
   * unless both abbreviations are found for `year`; else one row per race session, in
   * the race query's order, for which both drivers have a result.
   */
  function CompareDrivers(cursor: bool, year: int, d1: string, d2: string,
                          drivers: Option<seq<DriverRow>>, races: Option<seq<RaceRow>>,
                          results: Option<seq<ResultRow>>): (r: seq<ComparisonRow>)
    ensures r != [] ==> (cursor && drivers.Some? && races.Some? && results.Some? &&
                         d1 in DriverIdsOf(drivers.value, year, d1, d2) && d2 in DriverIdsOf(drivers.value, year, d1, d2))
  {
    if !cursor || drivers.None? then []
    else
      var ids := DriverIdsOf(drivers.value, year, d1, d2);
      if |ids| != 2 || races.None? then []
      else
        TwoKeys(ids, d1, d2);
        var t := SessionTableOf(races.value);
        if results.None? then []
        else
          var placings := Placings(results.value, ids[d1], ids[d2], d1, d2, t.info);
          ComparedArePaired(t.order, t.info, placings, d1, d2);
          ComparisonRows(ComparedSessions(t.order, placings), t.info, placings, d1, d2)
  }

  /** Asking for the same driver twice gives []. */
  lemma SameDriverNoComparison(cursor: bool, year: int, d: string, drivers: Option<seq<DriverRow>>,
                               races: Option<seq<RaceRow>>, results: Option<seq<ResultRow>>)
    ensures CompareDrivers(cursor, year, d, d, drivers, races, results) == []
  {
    if cursor && drivers.Some? {
      var ids := DriverIdsOf(drivers.value, year, d, d);
      assert ids.Keys <= {d};
      SingletonBound(ids.Keys, d);
    }
  }

  /** A non-empty comparison needs both abbreviations among that season's drivers. */
  lemma ComparisonNeedsBothDrivers(cursor: bool, year: int, d1: string, d2: string, drivers: Option<seq<DriverRow>>,
                                   races: Option<seq<RaceRow>>, results: Option<seq<ResultRow>>)
    requires CompareDrivers(cursor, year, d1, d2, drivers, races, results) != []
    ensures cursor && d1 != d2 && drivers.Some?
    ensures exists i :: 0 <= i < |drivers.value| && drivers.value[i].year == year && drivers.value[i].abbreviation == d1
    ensures exists i :: 0 <= i < |drivers.value| && drivers.value[i].year == year && drivers.value[i].abbreviation == d2
  {
    var ids := DriverIdsOf(drivers.value, year, d1, d2);
    TwoKeys(ids, d1, d2);
  }

  /** A session has an entry for abbreviation `a` exactly when one of the listed results is filed under `a`. */
  lemma {:induction false} PlacingsHold(rows: seq<ResultRow>, id1: int, id2: int, d1: string, d2: string,
                                        info: map<int, RaceInfo>, s: int, a: string)
    ensures (s in Placings(rows, id1, id2, d1, d2, info) && a in Placings(rows, id1, id2, d1, d2, info)[s]) <==>
      s in info && exists j :: 0 <= j < |rows| && rows[j].sessionId == s && (rows[j].driverId == id1 || rows[j].driverId == id2) &&
                               AbbrOf(rows[j].driverId, id1, d1, d2) == a
  {
    if |rows| > 0 {
      var init := rows[..|rows| - 1];
      PlacingsHold(init, id1, id2, d1, d2, info, s, a);
      assert forall j :: 0 <= j < |init| ==> rows[j] == init[j];
      var row := rows[|rows| - 1];
      if row.sessionId == s && (row.driverId == id1 || row.driverId == id2) && AbbrOf(row.driverId, id1, d1, d2) == a && s in info {
        assert rows[|rows| - 1] == row;
      }
    }
  }

  /**
   * A race session is compared exactly when it is listed by the race query and each of
   * the two drivers (of distinct ids) has a result in it.
   */
  lemma ComparedSessionIff(rows: seq<ResultRow>, id1: int, id2: int, d1: string, d2: string,
                           t: SessionTable, s: int)
    requires forall x :: x in t.order <==> x in t.info
    requires d1 != d2 && id1 != id2
    ensures s in ComparedSessions(t.order, Placings(rows, id1, id2, d1, d2, t.info)) <==>
      s in t.info &&
      (exists j :: 0 <= j < |rows| && rows[j].sessionId == s && rows[j].driverId == id1) &&
      (exists j :: 0 <= j < |rows| && rows[j].sessionId == s && rows[j].driverId == id2)
  {
    var p := Placings(rows, id1, id2, d1, d2, t.info);
    PlacingsHold(rows, id1, id2, d1, d2, t.info, s, d1);
    PlacingsHold(rows, id1, id2, d1, d2, t.info, s, d2);
    if s in p {
      if |p[s]| == 2 {
        TwoKeys(p[s], d1, d2);
      } else if d1 in p[s] && d2 in p[s] {
        assert {d1, d2} <= p[s].Keys;
        assert |{d1, d2}| == 2;
        SubsetAtMostTwo(p[s].Keys, d1, d2);
      }
    }
  }

  lemma SubsetAtMostTwo(a: set<string>, d1: string, d2: string)
    requires {d1, d2} <= a && d1 != d2
    requires forall x :: x in a ==> x == d1 || x == d2
    ensures |a| == 2
  {
    assert a == {d1, d2};
  }

  /** The sessions' rounds never go down along `ss`. */
  predicate RoundsSorted(ss: seq<int>, info: map<int, RaceInfo>) {
    forall i, j :: 0 <= i < j < |ss| && ss[i] in info && ss[j] in info ==>
      RoundKey(info[ss[i]].round) <= RoundKey(info[ss[j]].round)
  }

  /** Rows keep the race query's order: with distinct session ids listed by round, rounds never go down. */
  lemma ComparisonInRoundOrder(races: seq<RaceRow>, placings: map<int, map<string, Placing>>, d1: string, d2: string)
    requires forall i, j :: 0 <= i < j < |races| ==> races[i].sessionId != races[j].sessionId
    requires forall i, j :: 0 <= i < j < |races| ==> RoundKey(races[i].round) <= RoundKey(races[j].round)
    requires PairedIn(ComparedSessions(SessionTableOf(races).order, placings), SessionTableOf(races).info, placings, d1, d2)
    ensures var t := SessionTableOf(races);
      var r := ComparisonRows(ComparedSessions(t.order, placings), t.info, placings, d1, d2);
      forall i, j :: 0 <= i < j < |r| ==> RoundKey(r[i].round) <= RoundKey(r[j].round)
  {
    var t := SessionTableOf(races);
    DistinctTable(races);
    assert RoundsSorted(t.order, t.info) by {
      forall i, j | 0 <= i < j < |t.order| && t.order[i] in t.info && t.order[j] in t.info
        ensures RoundKey(t.info[t.order[i]].round) <= RoundKey(t.info[t.order[j]].round)
      {
        assert t.info[t.order[i]].round == races[i].round;
        assert t.info[t.order[j]].round == races[j].round;
      }
    }
    FilterKeepsOrder(t.order, placings, t.info);
    var cs := ComparedSessions(t.order, placings);
    var r := ComparisonRows(cs, t.info, placings, d1, d2);
    forall i, j | 0 <= i < j < |r|
      ensures RoundKey(r[i].round) <= RoundKey(r[j].round)
    {
      assert r[i].round == t.info[cs[i]].round && r[j].round == t.info[cs[j]].round;
    }
  }

  /** The order SQLite's `ORDER BY` puts a nullable round in: NULL first. */
  function RoundKey(round: Option<int>): int {
    match round case Some(n) => n + 1 case None => 0
  }

  /** With distinct session ids the table lists the rows' sessions in row order, each with its own row. */
  lemma {:induction false} DistinctTable(races: seq<RaceRow>)
    requires forall i, j :: 0 <= i < j < |races| ==> races[i].sessionId != races[j].sessionId
    ensures TableFollowsRows(SessionTableOf(races), races)
  {
    if |races| > 0 {
      var n := |races| - 1;
      var init := races[..n];
      assert forall i :: 0 <= i < n ==> init[i] == races[i];
      DistinctTable(init);
      NewSessionId(races);
      DistinctStep(SessionTableOf(init), races);
    }
  }

  /** The table lists exactly the rows' sessions in row order, each with its own row. */
  predicate TableFollowsRows(t: SessionTable, races: seq<RaceRow>) {
    |t.order| == |races| &&
    forall i :: 0 <= i < |races| ==>
      t.order[i] == races[i].sessionId && races[i].sessionId in t.info &&
      t.info[races[i].sessionId] == RaceInfo(races[i].round, races[i].eventName)
  }

  /** Appending a row with a new session id to a table that follows the earlier rows. */
  lemma DistinctStep(t0: SessionTable, races: seq<RaceRow>)
    requires |races| > 0
    requires forall i, j :: 0 <= i < j < |races| ==> races[i].sessionId != races[j].sessionId
    requires TableFollowsRows(t0, races[..|races| - 1])
    ensures var last := races[|races| - 1];
      TableFollowsRows(SessionTable(t0.order + [last.sessionId], t0.info[last.sessionId := RaceInfo(last.round, last.eventName)]), races)
  {
    var n := |races| - 1;
    var init := races[..n];
    var last := races[n];
    var t := SessionTable(t0.order + [last.sessionId], t0.info[last.sessionId := RaceInfo(last.round, last.eventName)]);
    forall i | 0 <= i < |races|
      ensures t.order[i] == races[i].sessionId && races[i].sessionId in t.info &&
              t.info[races[i].sessionId] == RaceInfo(races[i].round, races[i].eventName)
    {
      if i < n {
        assert init[i] == races[i];
        assert races[i].sessionId != last.sessionId;
      }
    }
  }

  /** With distinct ids the last row's session is not yet in the table of the rows before it. */
  lemma NewSessionId(races: seq<RaceRow>)
    requires |races| > 0
    requires forall i, j :: 0 <= i < j < |races| ==> races[i].sessionId != races[j].sessionId
    ensures races[|races| - 1].sessionId !in SessionTableOf(races[..|races| - 1]).info
  {
    var n := |races| - 1;
    assert forall i :: 0 <= i < n ==> races[..n][i] == races[i];
  }


  /** Filtering keeps the rounds' order. */
  lemma {:induction false} FilterKeepsOrder(order: seq<int>, placings: map<int, map<string, Placing>>, info: map<int, RaceInfo>)
    requires RoundsSorted(order, info)
    ensures RoundsSorted(ComparedSessions(order, placings), info)
  {
    if |order| > 0 {
      var n := |order| - 1;
      var init := order[..n];
      assert RoundsSorted(init, info) by {
        assert forall i :: 0 <= i < n ==> init[i] == order[i];
      }
      FilterKeepsOrder(init, placings, info);
      var prev := ComparedSessions(init, placings);
      var s := order[n];
      if s in placings && |placings[s]| == 2 {
        var cs := prev + [s];
        forall i, j | 0 <= i < j < |cs| && cs[i] in info && cs[j] in info
          ensures RoundKey(info[cs[i]].round) <= RoundKey(info[cs[j]].round)
        {
          if j == |prev| {
            assert cs[i] == prev[i] && prev[i] in prev;
            EarlierRoundNotLater(order, info, cs[i]);
          } else {
            assert cs[i] == prev[i] && cs[j] == prev[j];
          }
        }
      }
    }
  }

  /** In a round-sorted list, an earlier session's round is at most the last session's round. */
  lemma EarlierRoundNotLater(order: seq<int>, info: map<int, RaceInfo>, x: int)
    requires RoundsSorted(order, info) && |order| > 0
    requires x in order[..|order| - 1] && x in info && order[|order| - 1] in info
    ensures RoundKey(info[x].round) <= RoundKey(info[order[|order| - 1]].round)
  {
    var k :| 0 <= k < |order| - 1 && order[..|order| - 1][k] == x;
    assert order[k] == x;
  }

  // ---------------------------------------------------------------- the facade object

  class F1DataService {
    /** Whether `self.sqlite_conn` holds an open connection. */
    var connected: bool
    /** `self.redis_service`, `null` when the live service could not be created. */
    var redis: RedisLiveDataService?

    /** The live cache as the facade can see it. */
    function View(): Cache
      reads this, redis
    {
      if redis == null then NoService else Service(redis.reachable, redis.store)
    }

    /** `__init__`: `dbOpens` says whether the database file exists and opens. */
    constructor(dbOpens: bool, service: RedisLiveDataService?)
      ensures connected == dbOpens && redis == service
    {
      connected := dbOpens;
      redis := service;
    }

    /** `_get_sqlite_cursor`: reconnects when there is no connection; `false` when that fails too. */
    method GetSqliteCursor(dbOpens: bool) returns (cursor: bool)
      modifies this
      ensures connected == (old(connected) || dbOpens) && cursor == connected
      ensures redis == old(redis)
    {
      if !connected {
        connected := dbOpens;
      }
      cursor := connected;
    }

    /** A value from the live service, `None` without one. */
    method FetchLive(key: string, now: int) returns (r: Option<Payload>)
      ensures r == Fetch(View(), key, now)
    {
      if redis == null {
        return None;
      }
      r := redis.GetData(key, now);
    }

    method GetCurrentSession(now: int) returns (r: Option<Payload>)
      ensures r == CurrentSession(View(), now)
    {
      r := FetchLive(SESSION_KEY, now);
    }

    method GetLiveTiming(now: int) returns (r: seq<TimingEntry>)
      ensures r == LiveTiming(View(), now)
    {
      var p := FetchLive(TIMING_KEY, now);
      r := if p.Some? && p.value.TimingRec? then p.value.timing else [];
    }

    method GetLiveTires(now: int) returns (r: map<string, TireState>)
      ensures r == LiveTires(View(), now)
    {
      var p := FetchLive(TIRES_KEY, now);
      r := if p.Some? && p.value.TiresRec? then p.value.tires else map[];
    }

    method GetTrackStatus(now: int) returns (r: Option<TrackStatus>)
      ensures r == TrackStatusNow(View(), now)
    {
      var p := FetchLive(STATUS_KEY, now);
      r := if p.Some? && p.value.StatusRec? then Some(p.value.trackStatus) else None;
    }

    /** `get_driver_standings`; `rows` is what the season-total query returns, `None` when it raises. */
    method GetDriverStandings(year: int, now: int, dbOpens: bool, rows: Option<seq<DriverTotalRow>>)
      returns (r: seq<StandingsItem>)
      modifies this
      ensures connected == (old(connected) || dbOpens) && redis == old(redis)
      ensures r == DriverStandings(connected, View(), now, year, rows)
    {
      var cursor := GetSqliteCursor(dbOpens);
      if !cursor {
        return [];
      }
      var current := GetCurrentSession(now);
      if current.Some? && current.value.SessionRec? && current.value.session.year == year && redis != null {
        var live := FetchLive(STANDINGS_KEY, now);
        if live.Some? && live.value.StandingsRec? && |live.value.standings| > 0 {
          r := LiveItemsOf(live.value.standings);
          return;
        }
      }
      if rows.None? {
        return [];
      }
      r := RankRows(rows.value);
    }

    /** `get_weather`; `rows` is the weather table, `None` when the query raises. */
    method GetWeather(sessionId: int, now: int, dbOpens: bool, rows: Option<seq<WeatherRow>>)
      returns (r: seq<WeatherItem>)
      modifies this
      ensures connected == (old(connected) || dbOpens) && redis == old(redis)
      ensures r == SessionWeather(connected, View(), now, sessionId, rows)
    {
      var cursor := GetSqliteCursor(dbOpens);
      if !cursor {
        return [];
      }
      var current := GetCurrentSession(now);
      if current.Some? && Truthy(current.value) && redis != null {
        var live := FetchLive(WEATHER_KEY, now);
        if live.Some? && live.value.WeatherRec? {
          return [LiveWeather(live.value.weather)];
        }
      }
      if rows.None? {
        return [];
      }
      r := [];
      var i := 0;
      while i < |rows.value|
        invariant 0 <= i <= |rows.value|
        invariant r == SessionReadings(rows.value[..i], sessionId)
      {
        var row := rows.value[i];
        assert rows.value[..i + 1][..i] == rows.value[..i];
        if row.sessionId == sessionId {
          r := r + [StoredWeather(ReadingOf(row))];
        }
        i := i + 1;
      }
      assert rows.value[..i] == rows.value;
    }

    /** `get_driver_lap_times`; `rows` is the laps join, `None` when the query raises. */
    method GetDriverLapTimes(sessionId: int, driver: Option<string>, dbOpens: bool, rows: Option<seq<LapJoinRow>>)
      returns (r: LapTimesOutcome)
      modifies this
      ensures connected == (old(connected) || dbOpens) && redis == old(redis)
      ensures r == DriverLapTimes(connected, sessionId, driver, rows)
    {
      var cursor := GetSqliteCursor(dbOpens);
      if !cursor || rows.None? {
        return LapTimes([]);
      }
      var laps: seq<LapTimeEntry> := [];
      var i := 0;
      while i < |rows.value|
        invariant 0 <= i <= |rows.value|
        invariant SessionLapTimes(rows.value[..i], sessionId, driver) == LapTimes(laps)
      {
        var row := rows.value[i];
        assert rows.value[..i + 1][..i] == rows.value[..i];
        ghost var next := SessionLapTimes(rows.value[..i + 1], sessionId, driver);
        if LapSelected(row, sessionId, driver) {
          var sec := LapTimeSeconds(row.lapTime);
          if sec.Raised? {
            assert next.RaisesValueError?;
            RaiseSticks(rows.value, i + 1, sessionId, driver);
            return RaisesValueError;
          }
          laps := laps + [EntryOf(row, if sec.Seconds? then Some(sec.sec) else None)];
          assert next == LapTimes(laps);
        } else {
          assert next == LapTimes(laps);
        }
        i := i + 1;
      }
      assert rows.value[..i] == rows.value;
      r := LapTimes(laps);
    }

    /**
     * `get_compare_drivers`; `drivers`, `races` and `results` are the drivers table, the
     * race-sessions query and the results table, each `None` when its query raises.
     */
    method GetCompareDrivers(year: int, d1: string, d2: string, dbOpens: bool,
                             drivers: Option<seq<DriverRow>>, races: Option<seq<RaceRow>>,
                             results: Option<seq<ResultRow>>)
      returns (r: seq<ComparisonRow>)
      modifies this
      ensures connected == (old(connected) || dbOpens) && redis == old(redis)
      ensures r == CompareDrivers(connected, year, d1, d2, drivers, races, results)
    {
      var cursor := GetSqliteCursor(dbOpens);
      if !cursor || drivers.None? {
        return [];
      }
      var ids := CollectDriverIds(drivers.value, year, d1, d2);
      if |ids| != 2 || races.None? {
        return [];
      }
      TwoKeys(ids, d1, d2);
      var table := CollectSessions(races.value);
      if results.None? {
        return [];
      }
      var placings := CollectPlacings(results.value, ids[d1], ids[d2], d1, d2, table.info);
      r := BuildComparison(table.order, table.info, placings, d1, d2);
    }
  }

  // ---------------------------------------------------------------- the loops of the facade

  /** `for i, row in enumerate(rows)`: numbers the historical standings. */
  method RankRows(rows: seq<DriverTotalRow>) returns (r: seq<StandingsItem>)
    ensures r == Ranked(rows)
  {
    r := [];
    var i := 0;
    while i < |rows|
      invariant 0 <= i <= |rows|
      invariant r == Ranked(rows[..i])
    {
      assert rows[..i + 1][..i] == rows[..i];
      r := r + [StoredStanding(StandingOf(rows[i], i + 1))];
      i := i + 1;
    }
    assert rows[..i] == rows;
  }

  /** The cached standings list, returned as it is. */
  method LiveItemsOf(l: seq<Standing>) returns (r: seq<StandingsItem>)
    ensures r == LiveItems(l)
  {
    r := [];
    var i := 0;
    while i < |l|
      invariant 0 <= i <= |l|
      invariant r == LiveItems(l[..i])
    {
      assert l[..i + 1][..i] == l[..i];
      r := r + [LiveStanding(l[i])];
      i := i + 1;
    }
    assert l[..i] == l;
  }

  /** One more query row adds what it would list on its own, and raises when it would. */
  lemma RowContributes(init: seq<LapJoinRow>, row: LapJoinRow, sessionId: int, driver: Option<string>,
                       laps: seq<LapTimeEntry>)
    requires SessionLapTimes(init, sessionId, driver) == LapTimes(laps)
    ensures SessionLapTimes(init + [row], sessionId, driver).LapTimes? <==>
      SessionLapTimes([row], sessionId, driver).LapTimes?
    ensures SessionLapTimes(init + [row], sessionId, driver).LapTimes? ==>
      SessionLapTimes(init + [row], sessionId, driver) == LapTimes(laps + SessionLapTimes([row], sessionId, driver).laps)
  {
    assert (init + [row])[..|init|] == init;
    assert (init + [row])[|init|] == row;
    assert [row][..0] == [];
    if !LapSelected(row, sessionId, driver) {
      assert laps + [] == laps;
    }
  }

  /** Once a prefix raises, the whole list does. */
  lemma {:induction false} RaiseSticks(rows: seq<LapJoinRow>, k: nat, sessionId: int, driver: Option<string>)
    requires k <= |rows|
    requires SessionLapTimes(rows[..k], sessionId, driver).RaisesValueError?
    ensures SessionLapTimes(rows, sessionId, driver).RaisesValueError?
    decreases |rows| - k
  {
    if k < |rows| {
      assert rows[..k + 1][..k] == rows[..k];
      RaiseSticks(rows, k + 1, sessionId, driver);
    } else {
      assert rows[..k] == rows;
    }
  }

  /** Fills the `drivers` dict. */
  method CollectDriverIds(rows: seq<DriverRow>, year: int, d1: string, d2: string) returns (ids: map<string, int>)
    ensures ids == DriverIdsOf(rows, year, d1, d2)
  {
    ids := map[];
    var i := 0;
    while i < |rows|
      invariant 0 <= i <= |rows|
      invariant ids == DriverIdsOf(rows[..i], year, d1, d2)
    {
      assert rows[..i + 1][..i] == rows[..i];
      var row := rows[i];
      if row.year == year && (row.abbreviation == d1 || row.abbreviation == d2) {
        ids := ids[row.abbreviation := row.id];
      }
      i := i + 1;
    }
    assert rows[..i] == rows;
  }

  /** Fills the `session_info` dict. */
  method CollectSessions(rows: seq<RaceRow>) returns (t: SessionTable)
    ensures t == SessionTableOf(rows)
  {
    var order: seq<int> := [];
    var info: map<int, RaceInfo> := map[];
    var i := 0;
    while i < |rows|
      invariant 0 <= i <= |rows|
      invariant SessionTable(order, info) == SessionTableOf(rows[..i])
    {
      assert rows[..i + 1][..i] == rows[..i];
      var row := rows[i];
      if row.sessionId !in info {
        order := order + [row.sessionId];
      }
      info := info[row.sessionId := RaceInfo(row.round, row.eventName)];
      i := i + 1;
    }
    assert rows[..i] == rows;
    t := SessionTable(order, info);
  }

  /** Fills the `results_by_session` dict. */
  method CollectPlacings(rows: seq<ResultRow>, id1: int, id2: int, d1: string, d2: string,
                         info: map<int, RaceInfo>) returns (placings: map<int, map<string, Placing>>)
    ensures placings == Placings(rows, id1, id2, d1, d2, info)
  {
    placings := map[];
    var i := 0;
    while i < |rows|
      invariant 0 <= i <= |rows|
      invariant placings == Placings(rows[..i], id1, id2, d1, d2, info)
    {
      assert rows[..i + 1][..i] == rows[..i];
      var row := rows[i];
      if (row.driverId == id1 || row.driverId == id2) && row.sessionId in info {
        var inner := if row.sessionId in placings then placings[row.sessionId] else map[];
        placings := placings[row.sessionId := inner[AbbrOf(row.driverId, id1, d1, d2) := Placing(row.position, row.gridPosition, row.points)]];
      }
      i := i + 1;
    }
    assert rows[..i] == rows;
  }

  /** Builds the `comparison` list over the sessions in `session_info` order. */
  method BuildComparison(order: seq<int>, info: map<int, RaceInfo>, placings: map<int, map<string, Placing>>,
                         d1: string, d2: string) returns (r: seq<ComparisonRow>)
    requires forall s :: s in order ==> s in info
    requires forall s :: s in placings ==> FiledUnder(placings[s], d1, d2)
    ensures PairedIn(ComparedSessions(order, placings), info, placings, d1, d2)
    ensures r == ComparisonRows(ComparedSessions(order, placings), info, placings, d1, d2)
  {
    ComparedArePaired(order, info, placings, d1, d2);
    r := [];
    ghost var sessions: seq<int> := [];
    var i := 0;
    while i < |order|
      invariant 0 <= i <= |order|
      invariant sessions == ComparedSessions(order[..i], placings)
      invariant PairedIn(sessions, info, placings, d1, d2)
      invariant r == ComparisonRows(sessions, info, placings, d1, d2)
    {
      ComparedSnoc(order, i, placings);
      var s := order[i];
      if s in placings && |placings[s]| == 2 {
        assert s in order;
        TwoKeys(placings[s], d1, d2);
        RowsSnoc(sessions, s, info, placings, d1, d2);
        r := r + [RowOf(info[s], placings[s][d1], placings[s][d2])];
        sessions := sessions + [s];
      }
      i := i + 1;
    }
    assert order[..i] == order;
  }

  lemma ComparedSnoc(order: seq<int>, i: nat, placings: map<int, map<string, Placing>>)
    requires i < |order|
    ensures ComparedSessions(order[..i + 1], placings) ==
      ComparedSessions(order[..i], placings) +
        if order[i] in placings && |placings[order[i]]| == 2 then [order[i]] else []
  {
    assert order[..i + 1][..i] == order[..i];
  }

  lemma RowsSnoc(ss: seq<int>, s: int, info: map<int, RaceInfo>, placings: map<int, map<string, Placing>>,
                 d1: string, d2: string)
    requires PairedIn(ss, info, placings, d1, d2)
    requires s in info && s in placings && d1 in placings[s] && d2 in placings[s]
    ensures PairedIn(ss + [s], info, placings, d1, d2)
    ensures ComparisonRows(ss + [s], info, placings, d1, d2) ==
      ComparisonRows(ss, info, placings, d1, d2) + [RowOf(info[s], placings[s][d1], placings[s][d2])]
  {
    assert PairedIn(ss + [s], info, placings, d1, d2) by {
      forall i | 0 <= i < |ss| + 1
        ensures (ss + [s])[i] in info && (ss + [s])[i] in placings
      {
      }
    }
    assert (ss + [s])[..|ss|] == ss;
  }
}
