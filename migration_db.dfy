/**
 * The migration steps of backend/migrate_sqlite.py (the same text is
 * backend/migrations/to_sqlite.py) over an in-memory picture of the SQLite database.
 *
 * Every table is `id INTEGER PRIMARY KEY AUTOINCREMENT` and the script never deletes, so
 * a table is a sequence of rows whose id is its position plus one. Every `*_exists`
 * check is a key lookup; the provider's schedule and session frames are inputs.
 */
module MigrationDb {
  import opened Common
  import opened Migration

  // ---------------------------------------------------------------- skip-if-exists inserts

  /**
   * `SELECT 1 FROM <table> WHERE <key columns> = ?` finds a row. A missing key part binds
   * NULL, and `= NULL` matches no row.
   */
  predicate Present<R, K(==)>(t: seq<R>, key: R -> Option<K>, k: Option<K>) {
    k.Some? && exists i :: 0 <= i < |t| && key(t[i]) == k
  }

  /** The table after trying each candidate in turn and inserting it only when its key is absent. */
  function InsertMissing<R, K(==)>(t: seq<R>, cands: seq<R>, key: R -> Option<K>): (r: seq<R>)
    ensures |t| <= |r| <= |t| + |cands|
    ensures r[..|t|] == t
    decreases |cands|
  {
    if |cands| == 0 then t
    else
      var prev := InsertMissing(t, cands[..|cands| - 1], key);
      var c := cands[|cands| - 1];
      if Present(prev, key, key(c)) then prev else prev + [c]
  }

  /** No two rows share a key: what the table's UNIQUE constraint demands. */
  predicate UniqueKeys<R, K(==)>(t: seq<R>, key: R -> Option<K>) {
    forall i, j :: 0 <= i < j < |t| && key(t[i]).Some? ==> key(t[i]) != key(t[j])
  }

  lemma InsertMissingSnoc<R, K>(t: seq<R>, cands: seq<R>, c: R, key: R -> Option<K>)
    ensures InsertMissing(t, cands + [c], key) ==
      var prev := InsertMissing(t, cands, key);
      if Present(prev, key, key(c)) then prev else prev + [c]
  {
    assert (cands + [c])[..|cands|] == cands;
  }

  /** Trying two lists of candidates is trying the first, then the second. */
  lemma {:induction false} InsertMissingAppend<R, K>(t: seq<R>, a: seq<R>, b: seq<R>, key: R -> Option<K>)
    ensures InsertMissing(t, a + b, key) == InsertMissing(InsertMissing(t, a, key), b, key)
    decreases |b|
  {
    if |b| == 0 {
      assert a + b == a;
    } else {
      var b' := b[..|b| - 1];
      assert a + b == (a + b') + [b[|b| - 1]];
      assert b == b' + [b[|b| - 1]];
      InsertMissingSnoc(t, a + b', b[|b| - 1], key);
      InsertMissingSnoc(InsertMissing(t, a, key), b', b[|b| - 1], key);
      InsertMissingAppend(t, a, b', key);
    }
  }

  /** A key found in a table is still found once rows are appended. */
  lemma PresentGrows<R, K>(t: seq<R>, u: seq<R>, key: R -> Option<K>, k: Option<K>)
    requires |t| <= |u| && u[..|t|] == t
    requires Present(t, key, k)
    ensures Present(u, key, k)
  {
    var i :| 0 <= i < |t| && key(t[i]) == k;
    assert u[i] == t[i];
  }

  /** Every candidate with a key has that key in the table afterwards. */
  lemma {:induction false} InsertMissingHasKeys<R, K>(t: seq<R>, cands: seq<R>, key: R -> Option<K>)
    ensures forall c :: c in cands && key(c).Some? ==> Present(InsertMissing(t, cands, key), key, key(c))
    decreases |cands|
  {
    if |cands| > 0 {
      var r := InsertMissing(t, cands, key);
      var front := cands[..|cands| - 1];
      var c := cands[|cands| - 1];
      var prev := InsertMissing(t, front, key);
      InsertMissingHasKeys(t, front, key);
      assert cands == front + [c];
      forall x | x in cands && key(x).Some? ensures Present(r, key, key(x)) {
        if x in front {
          PresentGrows(prev, r, key, key(x));
        } else if !Present(prev, key, key(c)) {
          assert r[|prev|] == c;
        }
      }
    }
  }

  /** Row i of r is one of the candidates, and its key is absent from the rows before it. */
  ghost predicate Fresh<R, K>(r: seq<R>, cands: seq<R>, key: R -> Option<K>, i: int)
    requires 0 <= i < |r|
  {
    r[i] in cands && !Present(r[..i], key, key(r[i]))
  }

  /** Each appended row is a candidate whose key was absent from the rows before it. */
  lemma {:induction false} InsertMissingAppendsFresh<R, K>(t: seq<R>, cands: seq<R>, key: R -> Option<K>)
    ensures forall i :: |t| <= i < |InsertMissing(t, cands, key)| ==> Fresh(InsertMissing(t, cands, key), cands, key, i)
    decreases |cands|
  {
    if |cands| > 0 {
      var r := InsertMissing(t, cands, key);
      var front := cands[..|cands| - 1];
      var c := cands[|cands| - 1];
      var prev := InsertMissing(t, front, key);
      InsertMissingAppendsFresh(t, front, key);
      assert cands == front + [c];
      forall i | |t| <= i < |r| ensures Fresh(r, cands, key, i) {
        if i < |prev| {
          assert Fresh(prev, front, key, i);
          assert r[..i] == prev[..i] && r[i] == prev[i];
        } else {
          assert !Present(prev, key, key(c)) && r == prev + [c];
          assert r[..i] == prev && r[i] == c;
        }
      }
    }
  }

  /**
   * After the inserts every key the table had is still there, every candidate's key is
   * there, and each appended row is a candidate whose key was absent when it was appended.
   */
  lemma InsertMissingCovers<R, K>(t: seq<R>, cands: seq<R>, key: R -> Option<K>)
    ensures var r := InsertMissing(t, cands, key);
      (forall k :: Present(t, key, k) ==> Present(r, key, k)) &&
      (forall c :: c in cands && key(c).Some? ==> Present(r, key, key(c))) &&
      (forall i :: |t| <= i < |r| ==> r[i] in cands && !Present(r[..i], key, key(r[i])))
  {
    var r := InsertMissing(t, cands, key);
    forall k | Present(t, key, k) ensures Present(r, key, k) {
      PresentGrows(t, r, key, k);
    }
    InsertMissingHasKeys(t, cands, key);
    InsertMissingAppendsFresh(t, cands, key);
  }

  /** When every candidate's key is already there, nothing is inserted. */
  lemma {:induction false} InsertMissingNoop<R, K>(t: seq<R>, cands: seq<R>, key: R -> Option<K>)
    requires forall c :: c in cands ==> Present(t, key, key(c))
    ensures InsertMissing(t, cands, key) == t
    decreases |cands|
  {
    if |cands| > 0 {
      assert forall c :: c in cands[..|cands| - 1] ==> c in cands;
      InsertMissingNoop(t, cands[..|cands| - 1], key);
      assert cands[|cands| - 1] in cands;
    }
  }

  /** Re-running the same inserts changes nothing, as long as no candidate has a missing key. */
  lemma InsertMissingIdempotent<R, K>(t: seq<R>, cands: seq<R>, key: R -> Option<K>)
    requires forall c :: c in cands ==> key(c).Some?
    ensures InsertMissing(InsertMissing(t, cands, key), cands, key) == InsertMissing(t, cands, key)
  {
    InsertMissingCovers(t, cands, key);
    InsertMissingNoop(InsertMissing(t, cands, key), cands, key);
  }

  /** The inserts never put a second row with an existing key: the UNIQUE constraint holds. */
  lemma InsertMissingKeepsUnique<R, K>(t: seq<R>, cands: seq<R>, key: R -> Option<K>)
    requires UniqueKeys(t, key)
    ensures UniqueKeys(InsertMissing(t, cands, key), key)
  {
    var r := InsertMissing(t, cands, key);
    InsertMissingCovers(t, cands, key);
    forall i, j | 0 <= i < j < |r| && key(r[i]).Some? ensures key(r[i]) != key(r[j]) {
      if j < |t| {
        assert r[i] == t[i] && r[j] == t[j];
      } else {
        assert r[..j][i] == r[i];
        if key(r[j]) == key(r[i]) {
          assert Present(r[..j], key, key(r[j]));
        }
      }
    }
  }

  /** Candidates whose key is missing are all inserted, however often the step runs. */
  lemma {:induction false} NullKeysAlwaysInserted<R, K>(t: seq<R>, cands: seq<R>, key: R -> Option<K>)
    requires forall c :: c in cands ==> key(c).None?
    ensures InsertMissing(t, cands, key) == t + cands
    decreases |cands|
  {
    if |cands| > 0 {
      var front := cands[..|cands| - 1];
      assert forall c :: c in front ==> c in cands;
      assert cands[|cands| - 1] in cands;
      NullKeysAlwaysInserted(t, front, key);
      assert cands == front + [cands[|cands| - 1]];
    }
  }

  /** `SELECT * ... WHERE <key> = ?` then `fetchone()`: the id of the first row with the key. */
  function FirstId<R, K(==)>(t: seq<R>, key: R -> Option<K>, k: K): (r: Option<nat>)
    ensures r.Some? ==> 1 <= r.value <= |t| && key(t[r.value - 1]) == Some(k)
    ensures r.Some? ==> forall j :: 0 <= j < r.value - 1 ==> key(t[j]) != Some(k)
    ensures r.None? <==> !Present(t, key, Some(k))
  {
    FirstIdFrom(t, key, k, 0)
  }

  function FirstIdFrom<R, K(==)>(t: seq<R>, key: R -> Option<K>, k: K, from: nat): (r: Option<nat>)
    requires from <= |t|
    ensures r.Some? ==> from < r.value <= |t| && key(t[r.value - 1]) == Some(k)
    ensures r.Some? ==> forall j :: from <= j < r.value - 1 ==> key(t[j]) != Some(k)
    ensures r.None? <==> forall j :: from <= j < |t| ==> key(t[j]) != Some(k)
    decreases |t| - from
  {
    if from == |t| then None
    else if key(t[from]) == Some(k) then Some(from + 1)
    else FirstIdFrom(t, key, k, from + 1)
  }

  // ---------------------------------------------------------------- rows

  /** One of an event's `Session1` .. `Session5` columns and its `Session<i>DateUtc`, ISO text. */
  datatype SlotEntry = SlotEntry(name: Option<string>, dateUtc: Option<string>)

  type FiveEntries = s: seq<SlotEntry> | |s| == 5
    witness [SlotEntry(None, None), SlotEntry(None, None), SlotEntry(None, None),
             SlotEntry(None, None), SlotEntry(None, None)]

  /** A row of `fastf1.get_event_schedule(year)`; `eventDate` is the ISO text, missing for NaT. */
  datatype ScheduleRow = ScheduleRow(
    round: int, country: string, location: string, officialName: string, eventName: string,
    eventDate: Option<string>, format: string, apiSupport: bool, slots: FiveEntries)

  datatype EventRecord = EventRecord(
    round: int, year: int, country: string, location: string, officialName: string,
    eventName: string, eventDate: Option<string>, format: string, apiSupport: bool)

  datatype SessionRecord = SessionRecord(eventId: nat, name: string, date: Option<string>, sessionType: string)

  datatype TeamRecord = TeamRecord(name: string, teamRef: string, color: string, year: int)

  /** Driver columns copied verbatim from the reference session's results. */
  datatype DriverDetails = DriverDetails(
    number: string, broadcastName: string, driverRef: string, firstName: string,
    lastName: string, headshotUrl: string, countryCode: string)

  datatype DriverRecord = DriverRecord(abbr: string, fullName: string, details: DriverDetails, teamId: nat, year: int)

  /** A row of the reference session's `results` frame, as the team and driver steps read it. */
  datatype ReferenceRow = ReferenceRow(
    teamName: string, teamRef: string, teamColor: string, abbr: string, fullName: string, details: DriverDetails)

  /** Result columns, each missing when the frame holds NaN. */
  datatype ResultDetails = ResultDetails(
    position: Option<int>, classifiedPosition: Option<string>, gridPosition: Option<int>,
    q1: Option<string>, q2: Option<string>, q3: Option<string>, raceTime: Option<string>,
    status: Option<string>, points: Option<real>)

  datatype ResultRow = ResultRow(abbr: string, details: ResultDetails)

  datatype ResultRecord = ResultRecord(sessionId: int, driverId: nat, details: ResultDetails)

  /**
   * A row of `session.laps`: the driver, the lap number (missing for NaN), the lap time,
   * the columns between `lap_number` and `is_personal_best` and those after it, in the
   * order the record dictionary lists them, and the lap's telemetry (missing when
   * `get_telemetry` raises).
   */
  datatype LapRow = LapRow(
    driver: string, lapNumber: Option<int>, lapTime: Option<Value>, middle: seq<Column>,
    isPersonalBest: Option<bool>, rest: seq<Column>, telemetry: Option<seq<seq<Column>>>)

  /** A `laps` row: its key and the record dictionary `create_lap` is given. */
  datatype LapRecord = LapRecord(sessionId: int, driverId: nat, lapNumber: int, columns: seq<Column>)

  /** A row of `session.weather_data`: `Time` as text (missing for NaT) and the other columns. */
  datatype WeatherRow = WeatherRow(time: Option<string>, columns: seq<Column>)

  /** A `weather` row: its key and the record dictionary `create_weather` is given. */
  datatype WeatherRecord = WeatherRecord(sessionId: int, time: Option<string>, columns: seq<Column>)

  // ---------------------------------------------------------------- natural keys

  function EventKey(e: EventRecord): Option<(int, int)> { Some((e.year, e.round)) }
  function SessionKey(s: SessionRecord): Option<(nat, string)> { Some((s.eventId, s.name)) }
  function TeamKey(t: TeamRecord): Option<(string, int)> { Some((t.name, t.year)) }
  function DriverKey(d: DriverRecord): Option<(string, int)> { Some((d.abbr, d.year)) }
  function ResultKey(r: ResultRecord): Option<(int, nat)> { Some((r.sessionId, r.driverId)) }
  function LapKey(l: LapRecord): Option<(int, nat, int)> { Some((l.sessionId, l.driverId, l.lapNumber)) }

  /** `weather_exists` binds the time text; a missing time binds NULL and so never matches. */
  function WeatherKey(w: WeatherRecord): Option<(int, string)> {
    if w.time.Some? then Some((w.sessionId, w.time.value)) else None
  }

  /** The eight tables the migration writes. */
  datatype Database = Database(
    events: seq<EventRecord>, sessions: seq<SessionRecord>, teams: seq<TeamRecord>,
    drivers: seq<DriverRecord>, results: seq<ResultRecord>, laps: seq<LapRecord>,
    telemetry: seq<seq<Column>>, weather: seq<WeatherRecord>)

  /** `SQLiteF1Client`: the connection's tables, appended to by its `create_*` methods. */
  class SQLiteF1Client {
    var events: seq<EventRecord>
    var sessions: seq<SessionRecord>
    var teams: seq<TeamRecord>
    var drivers: seq<DriverRecord>
    var results: seq<ResultRecord>
    var laps: seq<LapRecord>
    var telemetry: seq<seq<Column>>
    var weather: seq<WeatherRecord>

    function Tables(): Database
      reads this
    {
      Database(events, sessions, teams, drivers, results, laps, telemetry, weather)
    }

    /** A connection to a fresh database file, after `create_tables`. */
    constructor()
      ensures Tables() == Database([], [], [], [], [], [], [], [])
    {
      events, sessions, teams, drivers := [], [], [], [];
      results, laps, telemetry, weather := [], [], [], [];
    }

    method CreateEvent(e: EventRecord) returns (id: nat)
      modifies this
      ensures Tables() == old(Tables()).(events := old(events) + [e])
      ensures id == |events| && events[id - 1] == e
    {
      events := events + [e];
      id := |events|;
    }

    method CreateSession(s: SessionRecord) returns (id: nat)
      modifies this
      ensures Tables() == old(Tables()).(sessions := old(sessions) + [s])
      ensures id == |sessions| && sessions[id - 1] == s
    {
      sessions := sessions + [s];
      id := |sessions|;
    }

    method CreateTeam(t: TeamRecord) returns (id: nat)
      modifies this
      ensures Tables() == old(Tables()).(teams := old(teams) + [t])
      ensures id == |teams| && teams[id - 1] == t
    {
      teams := teams + [t];
      id := |teams|;
    }

    method CreateDriver(d: DriverRecord) returns (id: nat)
      modifies this
      ensures Tables() == old(Tables()).(drivers := old(drivers) + [d])
      ensures id == |drivers| && drivers[id - 1] == d
    {
      drivers := drivers + [d];
      id := |drivers|;
    }

    method CreateResult(r: ResultRecord) returns (id: nat)
      modifies this
      ensures Tables() == old(Tables()).(results := old(results) + [r])
      ensures id == |results| && results[id - 1] == r
    {
      results := results + [r];
      id := |results|;
    }

    /** `create_lap`: the statement built from the record dictionary, and the row it adds. */
    method CreateLap(l: LapRecord) returns (id: nat, statement: Insert)
      modifies this
      ensures Tables() == old(Tables()).(laps := old(laps) + [l])
      ensures id == |laps| && laps[id - 1] == l
      ensures statement == InsertOf("laps", l.columns)
    {
      statement := BuildInsert("laps", l.columns);
      laps := laps + [l];
      id := |laps|;
    }

    method CreateTelemetry(record: seq<Column>) returns (id: nat, statement: Insert)
      modifies this
      ensures Tables() == old(Tables()).(telemetry := old(telemetry) + [record])
      ensures id == |telemetry| && telemetry[id - 1] == record
      ensures statement == InsertOf("telemetry", record)
    {
      statement := BuildInsert("telemetry", record);
      telemetry := telemetry + [record];
      id := |telemetry|;
    }

    method CreateWeather(w: WeatherRecord) returns (id: nat, statement: Insert)
      modifies this
      ensures Tables() == old(Tables()).(weather := old(weather) + [w])
      ensures id == |weather| && weather[id - 1] == w
      ensures statement == InsertOf("weather", w.columns)
    {
      statement := BuildInsert("weather", w.columns);
      weather := weather + [w];
      id := |weather|;
    }
  }

  // ---------------------------------------------------------------- events

  /** The `events` row `migrate_events` builds from a schedule row. */
  function EventOf(year: int, e: ScheduleRow): EventRecord {
    EventRecord(e.round, year, e.country, e.location, e.officialName, e.eventName,
                e.eventDate, e.format, e.apiSupport)
  }

  function EventsOf(year: int, schedule: seq<ScheduleRow>): (r: seq<EventRecord>)
    ensures |r| == |schedule| && forall i :: 0 <= i < |r| ==> r[i] == EventOf(year, schedule[i])
    decreases |schedule|
  {
    if |schedule| == 0 then [] else EventsOf(year, schedule[..|schedule| - 1]) + [EventOf(year, schedule[|schedule| - 1])]
  }

  /** `migrate_events`: one event per schedule row whose (year, round) is not stored yet. */
  method MigrateEvents(db: SQLiteF1Client, year: int, schedule: seq<ScheduleRow>)
    modifies db
    ensures db.Tables() == old(db.Tables()).(events := InsertMissing(old(db.events), EventsOf(year, schedule), EventKey))
  {
    ghost var start := db.Tables();
    for i := 0 to |schedule|
      invariant db.Tables() == start.(events := InsertMissing(start.events, EventsOf(year, schedule[..i]), EventKey))
    {
      EventsSnoc(year, schedule, i);
      InsertMissingSnoc(start.events, EventsOf(year, schedule[..i]), EventOf(year, schedule[i]), EventKey);
      AddEventIfMissing(db, EventOf(year, schedule[i]));
    }
    assert schedule[..|schedule|] == schedule;
  }

  lemma EventsSnoc(year: int, schedule: seq<ScheduleRow>, i: nat)
    requires i < |schedule|
    ensures EventsOf(year, schedule[..i + 1]) == EventsOf(year, schedule[..i]) + [EventOf(year, schedule[i])]
  {
    assert schedule[..i + 1][..i] == schedule[..i];
  }

  /** `if not event_exists(...): create_event(...)` */
  method AddEventIfMissing(db: SQLiteF1Client, e: EventRecord)
    modifies db
    ensures db.Tables() == old(db.Tables()).(events :=
      if Present(old(db.events), EventKey, EventKey(e)) then old(db.events) else old(db.events) + [e])
  {
    if !Present(db.events, EventKey, EventKey(e)) {
      var _ := db.CreateEvent(e);
    }
  }

  /** Running `migrate_events` a second time inserts nothing, and no (year, round) is stored twice. */
  lemma EventsIdempotent(events: seq<EventRecord>, year: int, schedule: seq<ScheduleRow>)
    requires UniqueKeys(events, EventKey)
    ensures var once := InsertMissing(events, EventsOf(year, schedule), EventKey);
      InsertMissing(once, EventsOf(year, schedule), EventKey) == once && UniqueKeys(once, EventKey)
  {
    InsertMissingIdempotent(events, EventsOf(year, schedule), EventKey);
    InsertMissingKeepsUnique(events, EventsOf(year, schedule), EventKey);
  }

  // ---------------------------------------------------------------- sessions

  function SessionOf(eventId: nat, slot: SlotEntry): SessionRecord
    requires slot.name.Some?
  {
    SessionRecord(eventId, slot.name.value, slot.dateUtc, SessionTypeName(DetermineSessionType(slot.name.value)))
  }

  /** The sessions of slots `Session1` .. `Session<n>` that have a name, in slot order. */
  function SlotSessions(eventId: nat, slots: FiveEntries, n: nat): (r: seq<SessionRecord>)
    requires n <= 5
    ensures |r| <= n
    decreases n
  {
    if n == 0 then []
    else
      var slot := slots[n - 1];
      SlotSessions(eventId, slots, n - 1) + if slot.name.Some? then [SessionOf(eventId, slot)] else []
  }

  /** The sessions `migrate_sessions` tries for one schedule row: none when its event is not stored. */
  function RowSessions(events: seq<EventRecord>, year: int, e: ScheduleRow): seq<SessionRecord> {
    match FirstId(events, EventKey, (year, e.round))
    case None => []
    case Some(id) => SlotSessions(id, e.slots, 5)
  }

  function SessionsOf(events: seq<EventRecord>, year: int, schedule: seq<ScheduleRow>): seq<SessionRecord>
    decreases |schedule|
  {
    if |schedule| == 0 then []
    else SessionsOf(events, year, schedule[..|schedule| - 1]) + RowSessions(events, year, schedule[|schedule| - 1])
  }

  /** `migrate_sessions`: for each stored event, its named slots whose (event id, name) is not stored yet. */
  method MigrateSessions(db: SQLiteF1Client, schedule: seq<ScheduleRow>, year: int)
    modifies db
    ensures db.Tables() == old(db.Tables()).(sessions :=
      InsertMissing(old(db.sessions), SessionsOf(db.events, year, schedule), SessionKey))
  {
    ghost var start := db.Tables();
    for r := 0 to |schedule|
      invariant db.Tables() == start.(sessions :=
        InsertMissing(start.sessions, SessionsOf(start.events, year, schedule[..r]), SessionKey))
    {
      assert schedule[..r + 1][..r] == schedule[..r];
      var e := schedule[r];
      ghost var before := SessionsOf(start.events, year, schedule[..r]);
      assert SessionsOf(start.events, year, schedule[..r + 1]) == before + RowSessions(start.events, year, e);
      var eventId := FirstId(db.events, EventKey, (year, e.round));
      if eventId.None? {
        assert before + RowSessions(start.events, year, e) == before;
        continue;
      }
      InsertMissingAppend(start.sessions, before, RowSessions(start.events, year, e), SessionKey);
      MigrateEventSessions(db, eventId.value, e.slots);
    }
    assert schedule[..|schedule|] == schedule;
  }

  /** The inner loop of `migrate_sessions` over one event's `Session1` .. `Session5`. */
  method MigrateEventSessions(db: SQLiteF1Client, eventId: nat, slots: FiveEntries)
    modifies db
    ensures db.Tables() == old(db.Tables()).(sessions :=
      InsertMissing(old(db.sessions), SlotSessions(eventId, slots, 5), SessionKey))
  {
    ghost var start := db.Tables();
    for i := 0 to 5
      invariant db.Tables() == start.(sessions := InsertMissing(start.sessions, SlotSessions(eventId, slots, i), SessionKey))
    {
      ghost var done := SlotSessions(eventId, slots, i);
      if slots[i].name.Some? {
        var s := SessionOf(eventId, slots[i]);
        assert SlotSessions(eventId, slots, i + 1) == done + [s];
        InsertMissingSnoc(start.sessions, done, s, SessionKey);
        AddSessionIfMissing(db, s);
      } else {
        assert SlotSessions(eventId, slots, i + 1) == done + [];
        assert done + [] == done;
      }
    }
  }

  /** `if not session_exists(...): create_session(...)` */
  method AddSessionIfMissing(db: SQLiteF1Client, s: SessionRecord)
    modifies db
    ensures db.Tables() == old(db.Tables()).(sessions :=
      if Present(old(db.sessions), SessionKey, SessionKey(s)) then old(db.sessions) else old(db.sessions) + [s])
  {
    if !Present(db.sessions, SessionKey, SessionKey(s)) {
      var _ := db.CreateSession(s);
    }
  }

  /** A row's sessions are exactly its slots with a name; a slot without one adds nothing. */
  lemma {:induction false} SlotSessionsNamed(eventId: nat, slots: FiveEntries, n: nat, s: SessionRecord)
    requires n <= 5
    ensures s in SlotSessions(eventId, slots, n) <==>
      exists i :: 0 <= i < n && slots[i].name.Some? && s == SessionOf(eventId, slots[i])
    decreases n
  {
    if n > 0 {
      SlotSessionsNamed(eventId, slots, n - 1, s);
      var prev := SlotSessions(eventId, slots, n - 1);
      var slot := slots[n - 1];
      if slot.name.Some? {
        assert SlotSessions(eventId, slots, n) == prev + [SessionOf(eventId, slot)];
        if s == SessionOf(eventId, slot) {
          assert s in SlotSessions(eventId, slots, n);
        }
      } else {
        assert SlotSessions(eventId, slots, n) == prev + [];
        assert prev + [] == prev;
      }
    }
  }

  /** Running `migrate_sessions` a second time inserts nothing, and no (event, name) is stored twice. */
  lemma SessionsIdempotent(sessions: seq<SessionRecord>, events: seq<EventRecord>, year: int, schedule: seq<ScheduleRow>)
    requires UniqueKeys(sessions, SessionKey)
    ensures var once := InsertMissing(sessions, SessionsOf(events, year, schedule), SessionKey);
      InsertMissing(once, SessionsOf(events, year, schedule), SessionKey) == once && UniqueKeys(once, SessionKey)
  {
    InsertMissingIdempotent(sessions, SessionsOf(events, year, schedule), SessionKey);
    InsertMissingKeepsUnique(sessions, SessionsOf(events, year, schedule), SessionKey);
  }

  // ---------------------------------------------------------------- teams and drivers

  function TeamOf(year: int, row: ReferenceRow): TeamRecord {
    TeamRecord(row.teamName, row.teamRef, row.teamColor, year)
  }

  function TeamsOf(year: int, rows: seq<ReferenceRow>): (r: seq<TeamRecord>)
    ensures |r| == |rows| && forall i :: 0 <= i < |r| ==> r[i] == TeamOf(year, rows[i])
    decreases |rows|
  {
    if |rows| == 0 then [] else TeamsOf(year, rows[..|rows| - 1]) + [TeamOf(year, rows[|rows| - 1])]
  }

  function DriverOf(year: int, row: ReferenceRow, teamId: nat): DriverRecord {
    DriverRecord(row.abbr, row.fullName, row.details, teamId, year)
  }

  /** The drivers the second loop tries: those whose team (name, year) is found, with that team's id. */
  function DriversOf(teams: seq<TeamRecord>, year: int, rows: seq<ReferenceRow>): seq<DriverRecord>
    decreases |rows|
  {
    if |rows| == 0 then []
    else
      var row := rows[|rows| - 1];
      DriversOf(teams, year, rows[..|rows| - 1]) +
        match FirstId(teams, TeamKey, (row.teamName, year))
        case None => []
        case Some(id) => [DriverOf(year, row, id)]
  }

  /**
   * `migrate_drivers_and_teams` given the reference session's results (no reference
   * session is an empty list): teams first, once per name, then the drivers, each with
   * the id of its team.
   */
  method MigrateDriversAndTeams(db: SQLiteF1Client, year: int, reference: seq<ReferenceRow>)
    modifies db
    ensures var teams := InsertMissing(old(db.teams), TeamsOf(year, reference), TeamKey);
      db.Tables() == old(db.Tables()).(teams := teams,
        drivers := InsertMissing(old(db.drivers), DriversOf(teams, year, reference), DriverKey))
  {
    if |reference| == 0 {
      return;
    }
    MigrateTeams(db, year, reference);
    MigrateDrivers(db, year, reference);
  }

  /** The team loop of `migrate_drivers_and_teams`; `processed` holds the names already handled. */
  method MigrateTeams(db: SQLiteF1Client, year: int, reference: seq<ReferenceRow>)
    modifies db
    ensures db.Tables() == old(db.Tables()).(teams := InsertMissing(old(db.teams), TeamsOf(year, reference), TeamKey))
  {
    ghost var start := db.Tables();
    var processed: set<string> := {};
    for i := 0 to |reference|
      invariant db.Tables() == start.(teams := InsertMissing(start.teams, TeamsOf(year, reference[..i]), TeamKey))
      invariant processed <= TeamNames(db.teams, year)
    {
      var row := reference[i];
      var t := TeamOf(year, row);
      assert TeamsOf(year, reference[..i + 1]) == TeamsOf(year, reference[..i]) + [t] by {
        assert reference[..i + 1][..i] == reference[..i];
      }
      InsertMissingSnoc(start.teams, TeamsOf(year, reference[..i]), t, TeamKey);
      assert TeamKey(t) == Some((row.teamName, year));
      ghost var prev := db.teams;
      if row.teamName !in processed {
        AddTeamIfMissing(db, t);
        processed := processed + {row.teamName};
      } else {
        TeamNamePresent(prev, row.teamName, year);
      }
    }
    assert reference[..|reference|] == reference;
  }

  /** `if not team_exists(...): create_team(...)`: afterwards the team's key is present, and so is every key before. */
  method AddTeamIfMissing(db: SQLiteF1Client, t: TeamRecord)
    modifies db
    ensures db.Tables() == old(db.Tables()).(teams :=
      if Present(old(db.teams), TeamKey, TeamKey(t)) then old(db.teams) else old(db.teams) + [t])
    ensures TeamNames(old(db.teams), t.year) + {t.name} <= TeamNames(db.teams, t.year)
  {
    if !Present(db.teams, TeamKey, TeamKey(t)) {
      var _ := db.CreateTeam(t);
    } else {
      TeamNamePresent(db.teams, t.name, t.year);
    }
  }

  /** The names of the teams stored for a year. */
  function TeamNames(teams: seq<TeamRecord>, year: int): set<string> {
    set t | t in teams && t.year == year :: t.name
  }

  lemma TeamNamePresent(teams: seq<TeamRecord>, name: string, year: int)
    ensures name in TeamNames(teams, year) <==> Present(teams, TeamKey, Some((name, year)))
  {
    if name in TeamNames(teams, year) {
      var t :| t in teams && t.year == year && t.name == name;
      var i :| 0 <= i < |teams| && teams[i] == t;
      assert TeamKey(teams[i]) == Some((name, year));
    }
    if Present(teams, TeamKey, Some((name, year))) {
      var i :| 0 <= i < |teams| && TeamKey(teams[i]) == Some((name, year));
      assert teams[i] in teams;
    }
  }

  /** The driver loop of `migrate_drivers_and_teams`: a driver whose team is not found is skipped. */
  method MigrateDrivers(db: SQLiteF1Client, year: int, reference: seq<ReferenceRow>)
    modifies db
    ensures db.Tables() == old(db.Tables()).(drivers := InsertMissing(old(db.drivers), DriversOf(db.teams, year, reference), DriverKey))
  {
    ghost var start := db.Tables();
    for i := 0 to |reference|
      invariant db.Tables() == start.(drivers := InsertMissing(start.drivers, DriversOf(start.teams, year, reference[..i]), DriverKey))
    {
      var row := reference[i];
      assert reference[..i + 1][..i] == reference[..i];
      var teamId := FirstId(db.teams, TeamKey, (row.teamName, year));
      if teamId.None? {
        assert DriversOf(start.teams, year, reference[..i + 1]) == DriversOf(start.teams, year, reference[..i]) + [];
        assert DriversOf(start.teams, year, reference[..i]) + [] == DriversOf(start.teams, year, reference[..i]);
        continue;
      }
      var d := DriverOf(year, row, teamId.value);
      assert DriversOf(start.teams, year, reference[..i + 1]) == DriversOf(start.teams, year, reference[..i]) + [d];
      InsertMissingSnoc(start.drivers, DriversOf(start.teams, year, reference[..i]), d, DriverKey);
      if !Present(db.drivers, DriverKey, DriverKey(d)) {
        var _ := db.CreateDriver(d);
      }
    }
    assert reference[..|reference|] == reference;
  }

  /** One run creates each team name at most once, whatever the number of its drivers. */
  lemma TeamsCreatedOncePerName(teams: seq<TeamRecord>, year: int, rows: seq<ReferenceRow>)
    ensures var r := InsertMissing(teams, TeamsOf(year, rows), TeamKey);
      forall i, j :: |teams| <= i < j < |r| ==> r[i].name != r[j].name
  {
    var r := InsertMissing(teams, TeamsOf(year, rows), TeamKey);
    InsertMissingCovers(teams, TeamsOf(year, rows), TeamKey);
    forall i, j | |teams| <= i < j < |r| ensures r[i].name != r[j].name {
      assert r[i] in TeamsOf(year, rows) && r[j] in TeamsOf(year, rows);
      assert r[i].year == year && r[j].year == year;
      assert r[..j][i] == r[i];
      if r[i].name == r[j].name {
        assert Present(r[..j], TeamKey, TeamKey(r[j]));
      }
    }
  }

  /** Every reference row's team is found once the teams are in, so no driver is skipped. */
  lemma NoDriverSkippedAfterTeams(teams: seq<TeamRecord>, year: int, rows: seq<ReferenceRow>)
    ensures var t := InsertMissing(teams, TeamsOf(year, rows), TeamKey);
      var ds := DriversOf(t, year, rows);
      |ds| == |rows| && forall i :: 0 <= i < |rows| ==> ds[i].abbr == rows[i].abbr && ds[i].year == year
  {
    var t := InsertMissing(teams, TeamsOf(year, rows), TeamKey);
    InsertMissingCovers(teams, TeamsOf(year, rows), TeamKey);
    forall i | 0 <= i < |rows| ensures Present(t, TeamKey, Some((rows[i].teamName, year))) {
      assert TeamsOf(year, rows)[i] == TeamOf(year, rows[i]);
      assert TeamOf(year, rows[i]) in TeamsOf(year, rows);
      assert TeamKey(TeamOf(year, rows[i])) == Some((rows[i].teamName, year));
    }
    AllTeamsFound(t, year, rows);
  }

  lemma {:induction false} AllTeamsFound(t: seq<TeamRecord>, year: int, rows: seq<ReferenceRow>)
    requires forall i :: 0 <= i < |rows| ==> Present(t, TeamKey, Some((rows[i].teamName, year)))
    ensures var ds := DriversOf(t, year, rows);
      |ds| == |rows| && forall i :: 0 <= i < |rows| ==> ds[i].abbr == rows[i].abbr && ds[i].year == year
    decreases |rows|
  {
    if |rows| > 0 {
      var n := |rows| - 1;
      var init := rows[..n];
      var row := rows[n];
      forall i | 0 <= i < n ensures Present(t, TeamKey, Some((init[i].teamName, year))) {
        assert init[i] == rows[i];
      }
      AllTeamsFound(t, year, init);
      var id := FirstId(t, TeamKey, (row.teamName, year));
      assert id.Some?;
      var ds := DriversOf(t, year, rows);
      assert ds == DriversOf(t, year, init) + [DriverOf(year, row, id.value)];
      forall i | 0 <= i < |rows| ensures ds[i].abbr == rows[i].abbr && ds[i].year == year {
        if i < n {
          assert init[i] == rows[i];
        }
      }
    }
  }

  // ---------------------------------------------------------------- results

  /** `if year:` in `get_drivers`: year 0 reads the drivers of every year. */
  predicate Selected(d: DriverRecord, year: int) {
    year == 0 || d.year == year
  }

  /**
   * `{d['abbreviation']: d['id'] for d in get_drivers(year)}` over the first `n` drivers:
   * a later driver with the same abbreviation overwrites an earlier one.
   */
  function DriverIds(drivers: seq<DriverRecord>, year: int, n: nat): (m: map<string, nat>)
    requires n <= |drivers|
    ensures forall a :: a in m ==> 1 <= m[a] <= n
    decreases n
  {
    if n == 0 then map[]
    else
      var m := DriverIds(drivers, year, n - 1);
      var d := drivers[n - 1];
      if Selected(d, year) then m[d.abbr := n] else m
  }

  /**
   * An abbreviation maps to an id exactly when a selected driver has it, and the id is
   * that of the last such driver.
   */
  lemma {:induction false} DriverIdsLastWins(drivers: seq<DriverRecord>, year: int, n: nat, abbr: string)
    requires n <= |drivers|
    ensures var m := DriverIds(drivers, year, n);
      (abbr in m <==> exists i :: 0 <= i < n && Selected(drivers[i], year) && drivers[i].abbr == abbr) &&
      (abbr in m ==>
        Selected(drivers[m[abbr] - 1], year) && drivers[m[abbr] - 1].abbr == abbr &&
        (forall j :: m[abbr] <= j < n && Selected(drivers[j], year) ==> drivers[j].abbr != abbr))
    decreases n
  {
    if n > 0 {
      DriverIdsLastWins(drivers, year, n - 1, abbr);
    }
  }

  function ResultOf(sessionId: int, driverId: nat, row: ResultRow): ResultRecord {
    ResultRecord(sessionId, driverId, row.details)
  }

  /** The results `migrate_results` tries: rows whose driver is found (`if not driver_id` skips the rest). */
  function ResultsOf(ids: map<string, nat>, sessionId: int, rows: seq<ResultRow>): seq<ResultRecord>
    decreases |rows|
  {
    if |rows| == 0 then []
    else
      var row := rows[|rows| - 1];
      ResultsOf(ids, sessionId, rows[..|rows| - 1]) +
        if row.abbr !in ids || ids[row.abbr] == 0 then [] else [ResultOf(sessionId, ids[row.abbr], row)]
  }

  /** `migrate_results`: one result per classified driver found, unless (session, driver) is stored. */
  method MigrateResults(db: SQLiteF1Client, sessionId: int, year: int, rows: seq<ResultRow>)
    modifies db
    ensures db.Tables() == old(db.Tables()).(results := InsertMissing(old(db.results),
      ResultsOf(DriverIds(old(db.drivers), year, |old(db.drivers)|), sessionId, rows), ResultKey))
  {
    if |rows| == 0 {
      return;
    }
    var ids := DriverIds(db.drivers, year, |db.drivers|);
    ghost var start := db.Tables();
    for i := 0 to |rows|
      invariant db.Tables() == start.(results := InsertMissing(start.results, ResultsOf(ids, sessionId, rows[..i]), ResultKey))
    {
      var row := rows[i];
      assert rows[..i + 1][..i] == rows[..i];
      if row.abbr !in ids || ids[row.abbr] == 0 {
        assert ResultsOf(ids, sessionId, rows[..i + 1]) == ResultsOf(ids, sessionId, rows[..i]) + [];
        assert ResultsOf(ids, sessionId, rows[..i]) + [] == ResultsOf(ids, sessionId, rows[..i]);
        continue;
      }
      var r := ResultOf(sessionId, ids[row.abbr], row);
      assert ResultsOf(ids, sessionId, rows[..i + 1]) == ResultsOf(ids, sessionId, rows[..i]) + [r];
      InsertMissingSnoc(start.results, ResultsOf(ids, sessionId, rows[..i]), r, ResultKey);
      if !Present(db.results, ResultKey, ResultKey(r)) {
        var _ := db.CreateResult(r);
      }
    }
    assert rows[..|rows|] == rows;
  }

  /** Every stored driver id is at least 1, so a result is skipped only when its driver is not found. */
  lemma {:induction false} ResultsSkipOnlyUnknownDrivers(ids: map<string, nat>, sessionId: int, rows: seq<ResultRow>, drivers: seq<DriverRecord>, year: int)
    requires ids == DriverIds(drivers, year, |drivers|)
    ensures var rs := ResultsOf(ids, sessionId, rows);
      |rs| == |Known(ids, rows)| &&
      forall i :: 0 <= i < |rs| ==> rs[i].sessionId == sessionId && rs[i].driverId == ids[Known(ids, rows)[i].abbr]
    decreases |rows|
  {
    if |rows| > 0 {
      ResultsSkipOnlyUnknownDrivers(ids, sessionId, rows[..|rows| - 1], drivers, year);
    }
  }

  /** The rows whose abbreviation is among the stored drivers, in order. */
  function Known(ids: map<string, nat>, rows: seq<ResultRow>): (r: seq<ResultRow>)
    ensures forall x :: x in r ==> x.abbr in ids
    decreases |rows|
  {
    if |rows| == 0 then []
    else Known(ids, rows[..|rows| - 1]) + if rows[|rows| - 1].abbr in ids then [rows[|rows| - 1]] else []
  }

  /** Running `migrate_results` a second time inserts nothing, and no (session, driver) is stored twice. */
  lemma ResultsIdempotent(results: seq<ResultRecord>, ids: map<string, nat>, sessionId: int, rows: seq<ResultRow>)
    requires UniqueKeys(results, ResultKey)
    ensures var once := InsertMissing(results, ResultsOf(ids, sessionId, rows), ResultKey);
      InsertMissing(once, ResultsOf(ids, sessionId, rows), ResultKey) == once && UniqueKeys(once, ResultKey)
  {
    InsertMissingIdempotent(results, ResultsOf(ids, sessionId, rows), ResultKey);
    InsertMissingKeepsUnique(results, ResultsOf(ids, sessionId, rows), ResultKey);
  }

  // ---------------------------------------------------------------- laps and telemetry

  /** The lap record dictionary, in its key order; `is_personal_best` comes after the `middle` columns. */
  function LapColumns(sessionId: int, driverId: nat, lapNumber: int, lap: LapRow): seq<Column> {
    [Column("session_id", Some(IntV(sessionId))), Column("driver_id", Some(IntV(driverId))),
     Column("lap_time", lap.lapTime), Column("lap_number", Some(IntV(lapNumber)))] +
    lap.middle +
    [Column("is_personal_best", if lap.isPersonalBest.Some? then Some(BoolV(lap.isPersonalBest.value)) else None)] +
    lap.rest
  }

  function LapOf(sessionId: int, driverId: nat, lapNumber: int, lap: LapRow): LapRecord {
    LapRecord(sessionId, driverId, lapNumber, LapColumns(sessionId, driverId, lapNumber, lap))
  }

  /** The telemetry record dictionary: the lap's ids first, the sample's columns, the year last. */
  function TelemetryColumns(driverId: nat, lapNumber: int, sessionId: int, year: int, sample: seq<Column>): seq<Column> {
    [Column("driver_id", Some(IntV(driverId))), Column("lap_number", Some(IntV(lapNumber))),
     Column("session_id", Some(IntV(sessionId)))] + sample + [Column("year", Some(IntV(year)))]
  }

  function TelemetryRows(driverId: nat, lapNumber: int, sessionId: int, year: int, samples: seq<seq<Column>>): (r: seq<seq<Column>>)
    ensures |r| == |samples|
    decreases |samples|
  {
    if |samples| == 0 then []
    else
      TelemetryRows(driverId, lapNumber, sessionId, year, samples[..|samples| - 1]) +
        [TelemetryColumns(driverId, lapNumber, sessionId, year, samples[|samples| - 1])]
  }

  /**
   * `migrate_telemetry_for_lap`: nothing when `get_telemetry` raises or returns no rows;
   * otherwise one record per sampled row, at most 100 rows being kept whole.
   */
  function TelemetryFor(driverId: nat, lapNumber: int, sessionId: int, year: int, telemetry: Option<seq<seq<Column>>>): seq<seq<Column>> {
    if telemetry.None? || |telemetry.value| == 0 then []
    else TelemetryRows(driverId, lapNumber, sessionId, year, Sample(telemetry.value, 100))
  }

  /** A lap `migrate_laps` tries, with the telemetry it brings along when it is inserted. */
  datatype LapCandidate = LapCandidate(record: LapRecord, telemetry: seq<seq<Column>>)

  function LapCandidateOf(sessionId: int, driverId: nat, lapNumber: int, year: int, lap: LapRow): LapCandidate {
    var telemetry :=
      if SelectsTelemetry(lap.isPersonalBest, lapNumber)
      then TelemetryFor(driverId, lapNumber, sessionId, year, lap.telemetry) else [];
    LapCandidate(LapOf(sessionId, driverId, lapNumber, lap), telemetry)
  }

  /** The laps tried: those whose driver is found and whose lap number is present. */
  function LapCandidates(ids: map<string, nat>, sessionId: int, year: int, laps: seq<LapRow>): (r: seq<LapCandidate>)
    ensures |r| <= |laps|
    ensures forall i :: 0 <= i < |r| ==>
      r[i].record.sessionId == sessionId && r[i].record.driverId > 0 && r[i].record.driverId in ids.Values
    decreases |laps|
  {
    if |laps| == 0 then []
    else
      var lap := laps[|laps| - 1];
      LapCandidates(ids, sessionId, year, laps[..|laps| - 1]) +
        if lap.driver !in ids || ids[lap.driver] == 0 || lap.lapNumber.None? then []
        else [LapCandidateOf(sessionId, ids[lap.driver], lap.lapNumber.value, year, lap)]
  }

  /** The two tables `migrate_laps` writes and its `lap_count`. */
  datatype LapTables = LapTables(laps: seq<LapRecord>, telemetry: seq<seq<Column>>, added: nat)

  /** One candidate: skipped when its key is stored, else inserted with its telemetry and counted. */
  function AddLap(t: LapTables, c: LapCandidate): LapTables {
    if Present(t.laps, LapKey, LapKey(c.record)) then t
    else LapTables(t.laps + [c.record], t.telemetry + c.telemetry, t.added + 1)
  }

  /**
   * The candidates folded in: stored laps and telemetry are kept as a prefix, and the
   * counter grows by exactly the number of laps appended.
   */
  function AddLaps(t: LapTables, cands: seq<LapCandidate>): (r: LapTables)
    ensures |t.laps| <= |r.laps| && r.laps[..|t.laps|] == t.laps
    ensures |t.telemetry| <= |r.telemetry| && r.telemetry[..|t.telemetry|] == t.telemetry
    ensures r.added == t.added + (|r.laps| - |t.laps|)
    decreases |cands|
  {
    if |cands| == 0 then t else AddLap(AddLaps(t, cands[..|cands| - 1]), cands[|cands| - 1])
  }

  function Records(cands: seq<LapCandidate>): (r: seq<LapRecord>)
    ensures |r| == |cands| && forall i :: 0 <= i < |r| ==> r[i] == cands[i].record
    decreases |cands|
  {
    if |cands| == 0 then [] else Records(cands[..|cands| - 1]) + [cands[|cands| - 1].record]
  }

  /**
   * `migrate_laps`. The function returns nothing; the model exposes its local counter
   * `lap_count`, the number of laps inserted, as the result.
   */
  method MigrateLaps(db: SQLiteF1Client, sessionId: int, year: int, laps: seq<LapRow>) returns (lapCount: nat)
    modifies db
    ensures var r := AddLaps(LapTables(old(db.laps), old(db.telemetry), 0),
      LapCandidates(DriverIds(old(db.drivers), year, |old(db.drivers)|), sessionId, year, laps));
      db.Tables() == old(db.Tables()).(laps := r.laps, telemetry := r.telemetry) && lapCount == r.added
  {
    lapCount := 0;
    if |laps| == 0 {
      return;
    }
    var ids := DriverIds(db.drivers, year, |db.drivers|);
    ghost var start := db.Tables();
    for i := 0 to |laps|
      invariant var r := AddLaps(LapTables(start.laps, start.telemetry, 0), LapCandidates(ids, sessionId, year, laps[..i]));
        db.Tables() == start.(laps := r.laps, telemetry := r.telemetry) && lapCount == r.added
    {
      var lap := laps[i];
      assert laps[..i + 1][..i] == laps[..i];
      ghost var before := LapCandidates(ids, sessionId, year, laps[..i]);
      if lap.driver !in ids || ids[lap.driver] == 0 || lap.lapNumber.None? {
        assert LapCandidates(ids, sessionId, year, laps[..i + 1]) == before + [];
        assert before + [] == before;
        continue;
      }
      ghost var c := LapCandidateOf(sessionId, ids[lap.driver], lap.lapNumber.value, year, lap);
      assert LapCandidates(ids, sessionId, year, laps[..i + 1]) == before + [c];
      assert (before + [c])[..|before|] == before;
      lapCount := TryLap(db, lapCount, sessionId, ids[lap.driver], lap.lapNumber.value, year, lap);
    }
    assert laps[..|laps|] == laps;
  }

  /**
   * The body of the lap loop once the driver and lap number are known: `create_lap` unless
   * `lap_exists`, then telemetry for personal-best laps and every tenth lap, and the count.
   */
  method TryLap(db: SQLiteF1Client, count: nat, sessionId: int, driverId: nat, lapNumber: int, year: int, lap: LapRow)
    returns (newCount: nat)
    modifies db
    ensures var r := AddLap(LapTables(old(db.laps), old(db.telemetry), count),
      LapCandidateOf(sessionId, driverId, lapNumber, year, lap));
      db.Tables() == old(db.Tables()).(laps := r.laps, telemetry := r.telemetry) && newCount == r.added
  {
    newCount := count;
    var record := LapOf(sessionId, driverId, lapNumber, lap);
    if !Present(db.laps, LapKey, LapKey(record)) {
      var _, _ := db.CreateLap(record);
      if lap.isPersonalBest == Some(true) || lapNumber % 10 == 0 {
        MigrateTelemetryForLap(db, driverId, lapNumber, sessionId, year, lap.telemetry);
      } else {
        assert db.telemetry == db.telemetry + [];
      }
      newCount := newCount + 1;
    }
  }

  /** `migrate_telemetry_for_lap`: the sampled rows appended to `telemetry`, nothing else changed. */
  method MigrateTelemetryForLap(db: SQLiteF1Client, driverId: nat, lapNumber: int, sessionId: int, year: int,
                                telemetry: Option<seq<seq<Column>>>)
    modifies db
    ensures db.Tables() == old(db.Tables()).(telemetry :=
      old(db.telemetry) + TelemetryFor(driverId, lapNumber, sessionId, year, telemetry))
  {
    if telemetry.None? || |telemetry.value| == 0 {
      return;
    }
    var rows := telemetry.value;
    if |rows| > 100 {
      rows := Stride(rows, |rows| / 100);
    }
    assert rows == Sample(telemetry.value, 100);
    AppendTelemetry(db, driverId, lapNumber, sessionId, year, rows);
  }

  /** The insert loop of `migrate_telemetry_for_lap`: every sampled row, no duplicate check. */
  method AppendTelemetry(db: SQLiteF1Client, driverId: nat, lapNumber: int, sessionId: int, year: int,
                         rows: seq<seq<Column>>)
    modifies db
    ensures db.Tables() == old(db.Tables()).(telemetry :=
      old(db.telemetry) + TelemetryRows(driverId, lapNumber, sessionId, year, rows))
  {
    ghost var start := db.Tables();
    for i := 0 to |rows|
      invariant db.Tables() == start.(telemetry := start.telemetry + TelemetryRows(driverId, lapNumber, sessionId, year, rows[..i]))
    {
      var record := TelemetryColumns(driverId, lapNumber, sessionId, year, rows[i]);
      ghost var done := TelemetryRows(driverId, lapNumber, sessionId, year, rows[..i]);
      assert TelemetryRows(driverId, lapNumber, sessionId, year, rows[..i + 1]) == done + [record] by {
        assert rows[..i + 1][..i] == rows[..i];
      }
      assert start.telemetry + done + [record] == start.telemetry + (done + [record]);
      var _, _ := db.CreateTelemetry(record);
    }
    assert rows[..|rows|] == rows;
  }

  /** The laps table evolves exactly as the generic skip-if-exists inserts, and `lap_count` counts the new rows. */
  lemma {:induction false} AddLapsInsertsMissing(t: LapTables, cands: seq<LapCandidate>)
    ensures AddLaps(t, cands).laps == InsertMissing(t.laps, Records(cands), LapKey)
    ensures AddLaps(t, cands).added == t.added + |AddLaps(t, cands).laps| - |t.laps|
    decreases |cands|
  {
    if |cands| > 0 {
      AddLapsInsertsMissing(t, cands[..|cands| - 1]);
      assert Records(cands[..|cands| - 1]) == Records(cands)[..|cands| - 1];
    }
  }

  /** When every lap is already stored, nothing is inserted, no telemetry is fetched, and nothing is counted. */
  lemma {:induction false} AddLapsNoop(t: LapTables, cands: seq<LapCandidate>)
    requires forall c :: c in cands ==> Present(t.laps, LapKey, LapKey(c.record))
    ensures AddLaps(t, cands) == t
    decreases |cands|
  {
    if |cands| > 0 {
      assert forall c :: c in cands[..|cands| - 1] ==> c in cands;
      AddLapsNoop(t, cands[..|cands| - 1]);
      assert cands[|cands| - 1] in cands;
    }
  }

  /** Running `migrate_laps` a second time inserts no lap and no telemetry and reports a count of 0. */
  lemma LapsIdempotent(t: LapTables, cands: seq<LapCandidate>)
    ensures var once := AddLaps(t, cands);
      AddLaps(once.(added := 0), cands) == once.(added := 0)
  {
    var once := AddLaps(t, cands);
    AddLapsInsertsMissing(t, cands);
    InsertMissingCovers(t.laps, Records(cands), LapKey);
    forall c | c in cands ensures Present(once.laps, LapKey, LapKey(c.record)) {
      var i :| 0 <= i < |cands| && cands[i] == c;
      assert Records(cands)[i] == c.record;
    }
    AddLapsNoop(once.(added := 0), cands);
  }

  /** Telemetry is fetched only for personal-best laps and every tenth lap, and adds at most 199 rows per lap. */
  lemma TelemetryPerLap(sessionId: int, driverId: nat, lapNumber: int, year: int, lap: LapRow)
    ensures var c := LapCandidateOf(sessionId, driverId, lapNumber, year, lap);
      (|c.telemetry| > 0 ==> lap.isPersonalBest == Some(true) || lapNumber % 10 == 0) &&
      |c.telemetry| <= 199
  {
    if lap.telemetry.Some? && |lap.telemetry.value| > 0 {
      SampleBounds(lap.telemetry.value, 100);
    }
  }

  // ---------------------------------------------------------------- weather

  /** The weather record dictionary: session id and time first, then the reading's columns. */
  function WeatherColumns(sessionId: int, w: WeatherRow): seq<Column> {
    [Column("session_id", Some(IntV(sessionId))),
     Column("time", if w.time.Some? then Some(TextV(w.time.value)) else None)] + w.columns
  }

  function WeatherOf(sessionId: int, w: WeatherRow): WeatherRecord {
    WeatherRecord(sessionId, w.time, WeatherColumns(sessionId, w))
  }

  function WeatherRecords(sessionId: int, rows: seq<WeatherRow>): (r: seq<WeatherRecord>)
    ensures |r| == |rows| && forall i :: 0 <= i < |r| ==> r[i] == WeatherOf(sessionId, rows[i])
    decreases |rows|
  {
    if |rows| == 0 then [] else WeatherRecords(sessionId, rows[..|rows| - 1]) + [WeatherOf(sessionId, rows[|rows| - 1])]
  }

  /** `migrate_weather`: the sampled readings, each inserted unless (session, time) is stored. */
  method MigrateWeather(db: SQLiteF1Client, sessionId: int, rows: seq<WeatherRow>)
    modifies db
    ensures db.Tables() == old(db.Tables()).(weather :=
      InsertMissing(old(db.weather), WeatherRecords(sessionId, Sample(rows, 50)), WeatherKey))
  {
    if |rows| == 0 {
      return;
    }
    var sampled := rows;
    if |rows| > 50 {
      sampled := Stride(rows, |rows| / 50);
    }
    assert sampled == Sample(rows, 50);
    InsertWeather(db, sessionId, sampled);
  }

  /** The insert loop of `migrate_weather` over the sampled readings. */
  method InsertWeather(db: SQLiteF1Client, sessionId: int, sampled: seq<WeatherRow>)
    modifies db
    ensures db.Tables() == old(db.Tables()).(weather :=
      InsertMissing(old(db.weather), WeatherRecords(sessionId, sampled), WeatherKey))
  {
    ghost var start := db.Tables();
    for i := 0 to |sampled|
      invariant db.Tables() == start.(weather := InsertMissing(start.weather, WeatherRecords(sessionId, sampled[..i]), WeatherKey))
    {
      WeatherSnoc(sessionId, sampled, i);
      InsertMissingSnoc(start.weather, WeatherRecords(sessionId, sampled[..i]), WeatherOf(sessionId, sampled[i]), WeatherKey);
      AddWeatherIfMissing(db, WeatherOf(sessionId, sampled[i]));
    }
    assert sampled[..|sampled|] == sampled;
  }

  lemma WeatherSnoc(sessionId: int, sampled: seq<WeatherRow>, i: nat)
    requires i < |sampled|
    ensures WeatherRecords(sessionId, sampled[..i + 1]) == WeatherRecords(sessionId, sampled[..i]) + [WeatherOf(sessionId, sampled[i])]
  {
    assert sampled[..i + 1][..i] == sampled[..i];
  }

  /** `if not weather_exists(...): create_weather(...)` */
  method AddWeatherIfMissing(db: SQLiteF1Client, w: WeatherRecord)
    modifies db
    ensures db.Tables() == old(db.Tables()).(weather :=
      if Present(old(db.weather), WeatherKey, WeatherKey(w)) then old(db.weather) else old(db.weather) + [w])
  {
    if !Present(db.weather, WeatherKey, WeatherKey(w)) {
      var _, _ := db.CreateWeather(w);
    }
  }

  lemma {:induction false} StrideFromRows<T>(rows: seq<T>, k: nat, x: T)
    requires k > 0 && x in Stride(rows, k)
    ensures x in rows
    decreases |rows|
  {
    if x != rows[0] {
      var rest := rows[k..];
      StrideFromRows(rest, k, x);
      var j :| 0 <= j < |rest| && rest[j] == x;
      assert rows[k + j] == x;
    }
  }

  /** Every sampled reading is one of the session's readings. */
  lemma SampledFromRows<T>(rows: seq<T>, limit: nat, x: T)
    requires limit > 0
    requires x in Sample(rows, limit)
    ensures x in rows
  {
    if |rows| > limit {
      StrideFromRows(rows, |rows| / limit, x);
    }
  }

  /**
   * Readings with a time are stored once however often the step runs; readings without a
   * time (NULL never equals NULL) are stored again on every run.
   */
  lemma WeatherRerun(weather: seq<WeatherRecord>, sessionId: int, rows: seq<WeatherRow>)
    ensures (forall w :: w in rows ==> w.time.Some?) ==>
      var once := InsertMissing(weather, WeatherRecords(sessionId, Sample(rows, 50)), WeatherKey);
      InsertMissing(once, WeatherRecords(sessionId, Sample(rows, 50)), WeatherKey) == once
    ensures (forall w :: w in rows ==> w.time.None?) ==>
      InsertMissing(weather, WeatherRecords(sessionId, Sample(rows, 50)), WeatherKey) ==
        weather + WeatherRecords(sessionId, Sample(rows, 50))
  {
    var cands := WeatherRecords(sessionId, Sample(rows, 50));
    forall c | c in cands ensures exists w :: w in rows && c.time == w.time {
      var i :| 0 <= i < |cands| && cands[i] == c;
      assert Sample(rows, 50)[i] in Sample(rows, 50);
      SampledFromRows(rows, 50, Sample(rows, 50)[i]);
    }
    if forall w :: w in rows ==> w.time.Some? {
      InsertMissingIdempotent(weather, cands, WeatherKey);
    }
    if forall w :: w in rows ==> w.time.None? {
      NullKeysAlwaysInserted(weather, cands, WeatherKey);
    }
  }
}
