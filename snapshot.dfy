/**
 * The snapshot transformer (backend/redis_live_service.py, `_process_live_session` and
 * `_translate_track_status`): turns the provider's result, lap, weather and track-status
 * tables of one session into the records the live cache holds.
 */
module SnapshotTransformer {
  import opened Common
  import opened LiveTypes

  /** A provider cell before conversion: NaN, a value, or a value `int()`/`float()` raises on. */
  datatype Cell<+T> = NA | Val(v: T) | Unparseable

  /** One row of `session.results`. */
  datatype ResultRow = ResultRow(
    position: Cell<int>,
    driverNumber: string,
    abbreviation: string,
    fullName: string,
    teamName: string,
    teamColor: string,
    q1: Option<string>,
    q2: Option<string>,
    q3: Option<string>,
    time: Option<string>,
    status: Option<string>,
    points: Cell<real>)

  /** One row of `session.laps`. */
  datatype LapRow = LapRow(
    driver: string,
    lapNumber: Option<int>,
    lapTime: Option<string>,
    sector1: Option<string>,
    sector2: Option<string>,
    sector3: Option<string>,
    isPersonalBest: Option<bool>,
    compound: Option<string>,
    tyreLife: Option<real>,
    stint: Option<int>,
    freshTyre: Option<bool>,
    trackStatus: Option<string>)

  /**
   * One row of `session.weather_data`. `time` is the row's index label: `NA` for a
   * missing label, `Val` for a timestamp, `Unparseable` for a label `isoformat()` cannot
   * be called on (a plain integer index); `Unparseable` wind direction is a value `int()`
   * raises on.
   */
  datatype WeatherRow = WeatherRow(
    airTemp: Option<real>,
    trackTemp: Option<real>,
    humidity: Option<real>,
    pressure: Option<real>,
    windSpeed: Option<real>,
    windDirection: Cell<int>,
    rainfall: Option<bool>,
    time: Cell<int>)

  /** One row of `session.track_status`; `time` is its index label, as for weather rows. */
  datatype StatusRow = StatusRow(status: string, time: Cell<int>)

  /**
   * A loaded provider session. A table the session object lacks (or holds as `None`)
   * is an empty sequence.
   */
  datatype ProviderSession = ProviderSession(
    results: seq<ResultRow>,
    laps: seq<LapRow>,
    weather: seq<WeatherRow>,
    trackStatus: seq<StatusRow>)

  /** What one processing step publishes; `None` for a category that is not written. */
  datatype Snapshot = Snapshot(
    standings: Option<seq<Standing>>,
    timing: Option<seq<TimingEntry>>,
    tires: Option<map<string, TireState>>,
    weather: Option<Weather>,
    trackStatus: Option<TrackStatus>)

  // ---------------------------------------------------------------- track status

  /** The fixed status table of `_translate_track_status`. */
  const STATUS_MESSAGES: map<string, string> := map[
    "1" := "Track Clear",
    "2" := "Yellow Flag",
    "3" := "Safety Car Deployed",
    "4" := "Red Flag/Session Stopped",
    "5" := "Virtual Safety Car Deployed",
    "6" := "Virtual Safety Car Ending"]

  const UNKNOWN_STATUS: string := "Unknown Status: "

  /**
   * The human-readable message for a track-status code: a table message for codes
   * "1".."6", and otherwise the "Unknown Status: " prefix followed by the code itself.
   */
  function TranslateTrackStatus(code: string): (r: string)
    ensures StartsWith(r, UNKNOWN_STATUS) <==> code !in {"1", "2", "3", "4", "5", "6"}
    ensures code !in {"1", "2", "3", "4", "5", "6"} ==> r[|UNKNOWN_STATUS|..] == code
  {
    if code in STATUS_MESSAGES then
      assert STATUS_MESSAGES[code][0] != 'U';
      STATUS_MESSAGES[code]
    else
      UNKNOWN_STATUS + code
  }

  /** The six codes and their messages. */
  lemma KnownTrackStatuses()
    ensures TranslateTrackStatus("1") == "Track Clear"
    ensures TranslateTrackStatus("2") == "Yellow Flag"
    ensures TranslateTrackStatus("3") == "Safety Car Deployed"
    ensures TranslateTrackStatus("4") == "Red Flag/Session Stopped"
    ensures TranslateTrackStatus("5") == "Virtual Safety Car Deployed"
    ensures TranslateTrackStatus("6") == "Virtual Safety Car Ending"
  {
  }

  /** Distinct codes never share a message. */
  lemma TrackStatusInjective(a: string, b: string)
    requires a != b
    ensures TranslateTrackStatus(a) != TranslateTrackStatus(b)
  {
    var ra, rb := TranslateTrackStatus(a), TranslateTrackStatus(b);
    if a !in STATUS_MESSAGES && b !in STATUS_MESSAGES {
      assert ra[|UNKNOWN_STATUS|..] == a && rb[|UNKNOWN_STATUS|..] == b;
    }
  }

  // ---------------------------------------------------------------- standings

  /** The row converts without raising: no `int()`/`float()` failure on it. */
  predicate Converts(row: ResultRow) {
    !row.position.Unparseable? && !row.points.Unparseable?
  }

  /** `x if pd.notna(x) else None` for a cell that converts. */
  function CellValue<T>(c: Cell<T>): Option<T>
    requires !c.Unparseable?
  {
    if c.Val? then Some(c.v) else None
  }

  function StandingOf(row: ResultRow): Standing
    requires Converts(row)
  {
    Standing(CellValue(row.position), row.driverNumber, row.abbreviation, row.fullName,
             row.teamName, row.teamColor, row.q1, row.q2, row.q3, row.time, row.status,
             CellValue(row.points))
  }

  /** The standings list, or `None` when some row raises and the whole step is abandoned. */
  function StandingsOf(rows: seq<ResultRow>): (r: Option<seq<Standing>>)
    ensures r.Some? <==> forall i :: 0 <= i < |rows| ==> Converts(rows[i])
    ensures r.Some? ==> |r.value| == |rows| && forall i :: 0 <= i < |rows| ==>
      r.value[i].driverAbbr == rows[i].abbreviation && r.value[i].position == CellValue(rows[i].position) &&
      r.value[i].points == CellValue(rows[i].points)
  {
    if forall i :: 0 <= i < |rows| ==> Converts(rows[i]) then
      Some(seq(|rows|, i requires 0 <= i < |rows| && Converts(rows[i]) => StandingOf(rows[i])))
    else None
  }

  /** The standings loop: one entry per result row, in row order. */
  method BuildStandings(rows: seq<ResultRow>) returns (r: Option<seq<Standing>>)
    ensures r == StandingsOf(rows)
  {
    var standings: seq<Standing> := [];
    for i := 0 to |rows|
      invariant forall j :: 0 <= j < i ==> Converts(rows[j])
      invariant |standings| == i
      invariant forall j :: 0 <= j < i ==> standings[j] == StandingOf(rows[j])
    {
      if !Converts(rows[i]) {
        // `int(...)` or `float(...)` raises: nothing after this point runs
        return None;
      }
      standings := standings + [StandingOf(rows[i])];
    }
    var expected := seq(|rows|, i requires 0 <= i < |rows| && Converts(rows[i]) => StandingOf(rows[i]));
    assert forall j :: 0 <= j < |rows| ==> expected[j] == standings[j];
    assert expected == standings;
    return Some(standings);
  }

  /** The standings keep the result rows' order, one entry each, and only fail as a whole. */
  lemma StandingsFollowResults(rows: seq<ResultRow>)
    ensures StandingsOf(rows).Some? <==> forall i :: 0 <= i < |rows| ==> Converts(rows[i])
    ensures StandingsOf(rows).Some? ==>
      |StandingsOf(rows).value| == |rows| &&
      forall i :: 0 <= i < |rows| ==> StandingsOf(rows).value[i].driverAbbr == rows[i].abbreviation
  {
  }

  // ---------------------------------------------------------------- timing

  /** `session.laps.pick_driver(abbr)`: the driver's laps in table order. */
  function DriverLaps(laps: seq<LapRow>, abbr: string): (r: seq<LapRow>)
    ensures |r| <= |laps|
    ensures forall l :: l in r <==> l in laps && l.driver == abbr
    decreases |laps|
  {
    if |laps| == 0 then []
    else (if laps[0].driver == abbr then [laps[0]] else []) + DriverLaps(laps[1..], abbr)
  }

  predicate HasLaps(laps: seq<LapRow>, abbr: string) {
    exists l :: l in laps && l.driver == abbr
  }

  /** `a` comes strictly before `b` when sorting by lap number, highest first, missing last. */
  predicate SortsBefore(a: LapRow, b: LapRow) {
    a.lapNumber.Some? && (b.lapNumber.None? || a.lapNumber.value > b.lapNumber.value)
  }

  /**
   * `sort_values(by='LapNumber', ascending=False).iloc[0]`: a lap nothing sorts before,
   * the earliest such lap on ties.
   */
  function FirstBySortedLap(ls: seq<LapRow>): (r: LapRow)
    requires |ls| > 0
    ensures r in ls
    ensures forall l :: l in ls ==> !SortsBefore(l, r)
    decreases |ls|
  {
    if |ls| == 1 then ls[0]
    else
      var best := FirstBySortedLap(ls[1..]);
      assert forall l :: l in ls ==> l == ls[0] || l in ls[1..];
      if SortsBefore(best, ls[0]) then best else ls[0]
  }

  /** The chosen lap carries the highest lap number whenever any lap has one. */
  lemma LastLapHasHighestNumber(ls: seq<LapRow>, l: LapRow)
    requires l in ls && l.lapNumber.Some?
    ensures FirstBySortedLap(ls).lapNumber.Some?
    ensures l.lapNumber.value <= FirstBySortedLap(ls).lapNumber.value
  {
  }

  function TimingEntryOf(abbr: string, lap: LapRow): TimingEntry {
    TimingEntry(abbr, lap.lapNumber, lap.lapTime, lap.sector1, lap.sector2, lap.sector3,
                lap.isPersonalBest == Some(true), lap.compound, lap.tyreLife, lap.trackStatus)
  }

  /** The timing entry of a driver that has laps: the one built from the first lap in sorted order. */
  function TimingFor(laps: seq<LapRow>, abbr: string): TimingEntry
    requires HasLaps(laps, abbr)
  {
    var mine := DriverLaps(laps, abbr);
    var l :| l in laps && l.driver == abbr;
    assert l in mine;
    TimingEntryOf(abbr, FirstBySortedLap(mine))
  }

  /** The timing list for the first result rows: one entry per listed driver that has laps. */
  function TimingOf(results: seq<ResultRow>, laps: seq<LapRow>): (r: seq<TimingEntry>)
    ensures |r| <= |results|
    decreases |results|
  {
    if |results| == 0 then []
    else
      var abbr := results[|results| - 1].abbreviation;
      TimingOf(results[..|results| - 1], laps) + (if HasLaps(laps, abbr) then [TimingFor(laps, abbr)] else [])
  }

  /** The timing loop over `session.results['Abbreviation']`. */
  method BuildTiming(results: seq<ResultRow>, laps: seq<LapRow>) returns (timing: seq<TimingEntry>)
    ensures timing == TimingOf(results, laps)
  {
    timing := [];
    for i := 0 to |results|
      invariant timing == TimingOf(results[..i], laps)
    {
      assert results[..i + 1][..i] == results[..i];
      var abbr := results[i].abbreviation;
      var driverLaps := DriverLaps(laps, abbr);
      if |driverLaps| > 0 {
        var lastLap := FirstBySortedLap(driverLaps);
        assert lastLap in laps;
        timing := timing + [TimingEntryOf(abbr, lastLap)];
      }
    }
    assert results[..|results|] == results;
  }

  /**
   * Every timing entry belongs to a driver listed in the results who has laps, and is
   * that driver's entry: built from the lap with the highest lap number.
   */
  lemma {:induction false} TimingEntriesAreLastLaps(results: seq<ResultRow>, laps: seq<LapRow>)
    ensures |TimingOf(results, laps)| <= |results|
    ensures forall e :: e in TimingOf(results, laps) ==>
      HasLaps(laps, e.driverAbbr) && e == TimingFor(laps, e.driverAbbr) &&
      exists i :: 0 <= i < |results| && results[i].abbreviation == e.driverAbbr
    decreases |results|
  {
    if |results| > 0 {
      var prefix := results[..|results| - 1];
      TimingEntriesAreLastLaps(prefix, laps);
      forall e | e in TimingOf(results, laps)
        ensures exists i :: 0 <= i < |results| && results[i].abbreviation == e.driverAbbr
      {
        if e in TimingOf(prefix, laps) {
          var i :| 0 <= i < |prefix| && prefix[i].abbreviation == e.driverAbbr;
          assert results[i] == prefix[i];
        } else {
          assert results[|results| - 1].abbreviation == e.driverAbbr;
        }
      }
    }
  }

  /** Every listed driver with at least one lap has a timing entry. */
  lemma {:induction false} TimingCoversDriversWithLaps(results: seq<ResultRow>, laps: seq<LapRow>, i: int)
    requires 0 <= i < |results| && HasLaps(laps, results[i].abbreviation)
    ensures TimingFor(laps, results[i].abbreviation) in TimingOf(results, laps)
    decreases |results|
  {
    if i < |results| - 1 {
      var prefix := results[..|results| - 1];
      assert prefix[i] == results[i];
      TimingCoversDriversWithLaps(prefix, laps, i);
    }
  }

  /** Distinct result abbreviations give at most one timing entry per driver. */
  lemma {:induction false} TimingOnePerDriver(results: seq<ResultRow>, laps: seq<LapRow>)
    requires forall i, j :: 0 <= i < j < |results| ==> results[i].abbreviation != results[j].abbreviation
    ensures var t := TimingOf(results, laps);
      forall a, b :: 0 <= a < b < |t| ==> t[a].driverAbbr != t[b].driverAbbr
    decreases |results|
  {
    if |results| > 0 {
      var prefix := results[..|results| - 1];
      var last := results[|results| - 1].abbreviation;
      assert forall i :: 0 <= i < |prefix| ==> prefix[i] == results[i];
      TimingOnePerDriver(prefix, laps);
      TimingEntriesAreLastLaps(prefix, laps);
      var t0 := TimingOf(prefix, laps);
      var t := TimingOf(results, laps);
      assert t == t0 + if HasLaps(laps, last) then [TimingFor(laps, last)] else [];
      forall a | 0 <= a < |t0| ensures t0[a].driverAbbr != last {
        assert t0[a] in t0;
        var i :| 0 <= i < |prefix| && prefix[i].abbreviation == t0[a].driverAbbr;
        assert results[i] == prefix[i];
      }
    }
  }

  // ---------------------------------------------------------------- tires

  /** `driver_laps['Stint'].max()`, skipping missing values; `None` when every stint is missing. */
  function MaxStint(ls: seq<LapRow>): (r: Option<int>)
    ensures r.None? <==> forall l :: l in ls ==> l.stint.None?
    ensures r.Some? ==> exists l :: l in ls && l.stint == r
    decreases |ls|
  {
    if |ls| == 0 then None
    else
      var rest := MaxStint(ls[1..]);
      assert forall l :: l in ls ==> l == ls[0] || l in ls[1..];
      match ls[0].stint
      case None => rest
      case Some(s) => if rest.Some? && rest.value > s then rest else Some(s)
  }

  /** `driver_laps[driver_laps['Stint'] == stint]`, in table order. */
  function StintLaps(ls: seq<LapRow>, stint: int): (r: seq<LapRow>)
    ensures forall l :: l in r <==> l in ls && l.stint == Some(stint)
    decreases |ls|
  {
    if |ls| == 0 then []
    else (if ls[0].stint == Some(stint) then [ls[0]] else []) + StintLaps(ls[1..], stint)
  }

  /** `current_tires['TyreLife'].max()`, skipping missing values. */
  function MaxLife(ls: seq<LapRow>): Option<real>
    decreases |ls|
  {
    if |ls| == 0 then None
    else
      var rest := MaxLife(ls[1..]);
      match ls[0].tyreLife
      case None => rest
      case Some(t) => if rest.Some? && rest.value > t then rest else Some(t)
  }

  /** The current stint: the highest stint number seen, 0 when none is recorded. */
  function CurrentStint(ls: seq<LapRow>): int {
    match MaxStint(ls)
    case None => 0
    case Some(s) => s
  }

  /**
   * A driver's tyre record: over the laps of the current stint, the compound and
   * freshness of its first lap, its highest tyre life and its number of laps.
   */
  function TireOf(ls: seq<LapRow>): Option<TireState> {
    var current := StintLaps(ls, CurrentStint(ls));
    if |current| > 0 then
      Some(TireState(current[0].compound, MaxLife(current), |current|, current[0].freshTyre))
    else None
  }

  /** The tyre map for the first result rows, keyed by abbreviation. */
  function TiresOf(results: seq<ResultRow>, laps: seq<LapRow>): (r: map<string, TireState>)
    ensures forall a :: a in r ==> Listed(results, a)
    decreases |results|
  {
    if |results| == 0 then map[]
    else
      var m := TiresOf(results[..|results| - 1], laps);
      var abbr := results[|results| - 1].abbreviation;
      assert forall a :: Listed(results[..|results| - 1], a) ==> Listed(results, a) by {
        forall a | Listed(results[..|results| - 1], a) ensures Listed(results, a) {
          ListedSnoc(results, a);
        }
      }
      assert Listed(results, abbr) by { ListedSnoc(results, abbr); }
      match TireOf(DriverLaps(laps, abbr))
      case Some(t) => m[abbr := t]
      case None => m
  }

  /** The tyre loop over `session.results['Abbreviation']`. */
  method BuildTires(results: seq<ResultRow>, laps: seq<LapRow>) returns (tires: map<string, TireState>)
    ensures tires == TiresOf(results, laps)
  {
    tires := map[];
    for i := 0 to |results|
      invariant tires == TiresOf(results[..i], laps)
    {
      assert results[..i + 1][..i] == results[..i];
      var abbr := results[i].abbreviation;
      var driverLaps := DriverLaps(laps, abbr);
      if |driverLaps| > 0 {
        var currentStint := CurrentStint(driverLaps);
        var currentTires := StintLaps(driverLaps, currentStint);
        if |currentTires| > 0 {
          tires := tires[abbr := TireState(currentTires[0].compound, MaxLife(currentTires),
                                           |currentTires|, currentTires[0].freshTyre)];
        }
      }
    }
    assert results[..|results|] == results;
  }

  /** A driver gets a tyre record exactly when at least one of their laps records a stint. */
  lemma TireOfDefinedIff(laps: seq<LapRow>, abbr: string)
    ensures TireOf(DriverLaps(laps, abbr)).Some? <==> exists l :: l in laps && l.driver == abbr && l.stint.Some?
    ensures TireOf(DriverLaps(laps, abbr)).Some? ==> TireOf(DriverLaps(laps, abbr)).value.age >= 1
  {
    var mine := DriverLaps(laps, abbr);
    var cur := CurrentStint(mine);
    if exists l :: l in laps && l.driver == abbr && l.stint.Some? {
      var l :| l in laps && l.driver == abbr && l.stint.Some?;
      assert l in mine;
      var w :| w in mine && w.stint == MaxStint(mine);
      assert w in StintLaps(mine, cur);
    } else {
      NoStintNoLaps(mine, cur);
    }
  }

  /** Laps none of which records a stint select nothing for any stint number. */
  lemma {:induction false} NoStintNoLaps(ls: seq<LapRow>, stint: int)
    requires forall l :: l in ls ==> l.stint.None?
    ensures StintLaps(ls, stint) == []
    decreases |ls|
  {
    if |ls| > 0 {
      assert ls[0] in ls;
      assert forall l :: l in ls[1..] ==> l in ls;
      NoStintNoLaps(ls[1..], stint);
    }
  }

  /** Some result row lists the driver. */
  predicate Listed(results: seq<ResultRow>, abbr: string) {
    exists i :: 0 <= i < |results| && results[i].abbreviation == abbr
  }

  lemma ListedSnoc(results: seq<ResultRow>, abbr: string)
    requires |results| > 0
    ensures Listed(results, abbr) <==>
      Listed(results[..|results| - 1], abbr) || results[|results| - 1].abbreviation == abbr
  {
    var prefix := results[..|results| - 1];
    if Listed(prefix, abbr) {
      var i :| 0 <= i < |prefix| && prefix[i].abbreviation == abbr;
      assert results[i] == prefix[i];
    }
    if Listed(results, abbr) && results[|results| - 1].abbreviation != abbr {
      var i :| 0 <= i < |results| && results[i].abbreviation == abbr;
      assert prefix[i] == results[i];
    }
  }

  /**
   * The tyre map holds the listed drivers that have a tyre record, each under its record;
   * the step by which `TiresOfKeys` restates membership in terms of the rows themselves.
   */
  lemma {:induction false} TiresOfMembers(results: seq<ResultRow>, laps: seq<LapRow>, abbr: string)
    ensures abbr in TiresOf(results, laps) <==> Listed(results, abbr) && TireOf(DriverLaps(laps, abbr)).Some?
    ensures abbr in TiresOf(results, laps) ==> TiresOf(results, laps)[abbr] == TireOf(DriverLaps(laps, abbr)).value
    decreases |results|
  {
    if |results| > 0 {
      var prefix := results[..|results| - 1];
      var last := results[|results| - 1].abbreviation;
      var m := TiresOf(prefix, laps);
      var t := TireOf(DriverLaps(laps, last));
      assert TiresOf(results, laps) == if t.Some? then m[last := t.value] else m;
      TiresOfMembers(prefix, laps, abbr);
      ListedSnoc(results, abbr);
    }
  }

  /**
   * The tyre map has a key for exactly the listed drivers with a recorded stint, and the
   * record under each key is that driver's current-stint summary.
   */
  lemma TiresOfKeys(results: seq<ResultRow>, laps: seq<LapRow>, abbr: string)
    ensures abbr in TiresOf(results, laps) <==>
      (exists i :: 0 <= i < |results| && results[i].abbreviation == abbr) &&
      (exists l :: l in laps && l.driver == abbr && l.stint.Some?)
    ensures abbr in TiresOf(results, laps) ==> TiresOf(results, laps)[abbr] == TireOf(DriverLaps(laps, abbr)).value
  {
    TiresOfMembers(results, laps, abbr);
    TireOfDefinedIff(laps, abbr);
  }

  // ---------------------------------------------------------------- weather and status

  /**
   * How a category after the list categories ends: its table is empty and nothing is
   * stored (`Skipped`), its record is built, or building it raises (`Raised`).
   */
  datatype Step<+T> = Skipped | Built(value: T) | Raised

  /** What a step stores: the built record, nothing otherwise. */
  function Stored<T>(st: Step<T>): Option<T> {
    if st.Built? then Some(st.value) else None
  }

  /** The row's `int(WindDirection)` and `name.isoformat()` do not raise. */
  predicate WeatherConverts(w: WeatherRow) {
    !w.windDirection.Unparseable? && !w.time.Unparseable?
  }

  /** The row's `name.isoformat()` does not raise. */
  predicate StatusConverts(s: StatusRow) {
    !s.time.Unparseable?
  }

  /**
   * The weather record built from the last row (`iloc[-1]`); a missing rainfall flag
   * reads as no rain. Built exactly when the table has rows and its last row converts.
   */
  function LatestWeather(rows: seq<WeatherRow>): (r: Step<Weather>)
    ensures r.Skipped? <==> |rows| == 0
    ensures r.Raised? <==> |rows| > 0 && !WeatherConverts(rows[|rows| - 1])
    ensures r.Built? ==> (r.value.timestamp == CellValue(rows[|rows| - 1].time) &&
                          r.value.windDirection == CellValue(rows[|rows| - 1].windDirection))
  {
    if |rows| == 0 then Skipped
    else
      var w := rows[|rows| - 1];
      if !WeatherConverts(w) then Raised
      else
        Built(Weather(w.airTemp, w.trackTemp, w.humidity, w.pressure, w.windSpeed, CellValue(w.windDirection),
                      w.rainfall == Some(true), CellValue(w.time)))
  }

  /**
   * The status record of the last row with its translated message. Built exactly when
   * the table has rows and its last row's label converts.
   */
  function LatestStatus(rows: seq<StatusRow>): (r: Step<TrackStatus>)
    ensures r.Skipped? <==> |rows| == 0
    ensures r.Raised? <==> |rows| > 0 && !StatusConverts(rows[|rows| - 1])
    ensures r.Built? ==> (r.value.status == rows[|rows| - 1].status &&
                          r.value.message == TranslateTrackStatus(rows[|rows| - 1].status))
  {
    if |rows| == 0 then Skipped
    else
      var s := rows[|rows| - 1];
      if !StatusConverts(s) then Raised
      else Built(TrackStatus(s.status, TranslateTrackStatus(s.status), CellValue(s.time)))
  }

  /** The latest readings are exactly the last rows of their tables. */
  lemma LatestReadingsAreLastRows(s: ProviderSession)
    requires |s.weather| > 0 && WeatherConverts(s.weather[|s.weather| - 1])
    requires |s.trackStatus| > 0 && StatusConverts(s.trackStatus[|s.trackStatus| - 1])
    ensures LatestWeather(s.weather).value.timestamp == CellValue(s.weather[|s.weather| - 1].time)
    ensures LatestWeather(s.weather).value.airTemp == s.weather[|s.weather| - 1].airTemp
    ensures LatestStatus(s.trackStatus).value.status == s.trackStatus[|s.trackStatus| - 1].status
  {
  }

  // ---------------------------------------------------------------- the whole step

  /**
   * What one processing step publishes. The whole step sits in one `try`, and the stores
   * run in order standings, timing, tyres, weather, status: a result row that raises
   * abandons the step before anything is written, and a weather or status conversion
   * that raises abandons it after the categories already stored. What is written is
   * therefore always a leading run of the five categories, empty tables skipped.
   */
  function Transform(s: ProviderSession): (r: Snapshot)
    ensures r.standings == StandingsOf(s.results)
    ensures r.timing.Some? <==> r.standings.Some?
    ensures r.tires.Some? <==> r.standings.Some?
    ensures r.weather.Some? ==> r.tires.Some?
    ensures r.trackStatus.Some? ==> r.tires.Some? && !LatestWeather(s.weather).Raised?
  {
    match StandingsOf(s.results)
    case None => Snapshot(None, None, None, None, None)
    case Some(st) =>
      var lists := Snapshot(Some(st), Some(TimingOf(s.results, s.laps)), Some(TiresOf(s.results, s.laps)), None, None);
      var weather := LatestWeather(s.weather);
      if weather.Raised? then lists
      else lists.(weather := Stored(weather), trackStatus := Stored(LatestStatus(s.trackStatus)))
  }

  /** One malformed result row means no category at all is published for this step. */
  lemma OneBadRowAbortsEverything(s: ProviderSession, i: int)
    requires 0 <= i < |s.results| && !Converts(s.results[i])
    ensures Transform(s) == Snapshot(None, None, None, None, None)
  {
  }

  /**
   * With every conversion succeeding, every list category is published, and weather and
   * status exactly when their tables have rows.
   */
  lemma WellFormedPublishesAll(s: ProviderSession)
    requires forall i :: 0 <= i < |s.results| ==> Converts(s.results[i])
    requires |s.weather| > 0 ==> WeatherConverts(s.weather[|s.weather| - 1])
    requires |s.trackStatus| > 0 ==> StatusConverts(s.trackStatus[|s.trackStatus| - 1])
    ensures var snap := Transform(s);
      snap.standings.Some? && |snap.standings.value| == |s.results| &&
      snap.timing.Some? && snap.tires.Some? &&
      (snap.weather.Some? <==> |s.weather| > 0) && (snap.trackStatus.Some? <==> |s.trackStatus| > 0)
  {
    StandingsFollowResults(s.results);
  }

  /**
   * A weather row that raises after the list categories are stored: standings, timing and
   * tyres stay published, weather and status are not written.
   */
  lemma WeatherFailureKeepsListCategories(s: ProviderSession)
    requires forall i :: 0 <= i < |s.results| ==> Converts(s.results[i])
    requires |s.weather| > 0 && !WeatherConverts(s.weather[|s.weather| - 1])
    ensures var snap := Transform(s);
      snap.standings.Some? && snap.timing == Some(TimingOf(s.results, s.laps)) &&
      snap.tires == Some(TiresOf(s.results, s.laps)) && snap.weather.None? && snap.trackStatus.None?
  {
    StandingsFollowResults(s.results);
  }

  /**
   * A status row that raises: every earlier category is published as usual (weather when
   * its table has rows), and only the status is not written.
   */
  lemma StatusFailureKeepsEarlierCategories(s: ProviderSession)
    requires forall i :: 0 <= i < |s.results| ==> Converts(s.results[i])
    requires |s.weather| > 0 ==> WeatherConverts(s.weather[|s.weather| - 1])
    requires |s.trackStatus| > 0 && !StatusConverts(s.trackStatus[|s.trackStatus| - 1])
    ensures var snap := Transform(s);
      snap.standings.Some? && snap.timing.Some? && snap.tires.Some? &&
      (snap.weather.Some? <==> |s.weather| > 0) && snap.trackStatus.None?
  {
    StandingsFollowResults(s.results);
  }
}
