/**
 * The normalized records that the live pipeline publishes to the key-value cache
 * (backend/redis_live_service.py) and that the read facade hands back to callers.
 * Floating-point values (temperatures, points, tyre life) are `real`s; timestamps are
 * integer seconds; pandas' missing values are `None`.
 */
module LiveTypes {
  import opened Common

  /** The session record that detection produces and that is cached under the session key. */
  datatype SessionInfo = SessionInfo(
    year: int,
    round: int,
    eventName: string,
    sessionName: string,
    sessionType: string,
    startTime: Option<int>,
    endTime: Option<int>,   // only the live record carries an end time
    isLive: bool)

  /** One row of the live standings. */
  datatype Standing = Standing(
    position: Option<int>,
    driverNumber: string,
    driverAbbr: string,
    driverName: string,
    team: string,
    teamColor: string,
    q1: Option<string>,
    q2: Option<string>,
    q3: Option<string>,
    time: Option<string>,
    status: Option<string>,
    points: Option<real>)

  /** One driver's most recent lap. */
  datatype TimingEntry = TimingEntry(
    driverAbbr: string,
    lapNumber: Option<int>,
    lapTime: Option<string>,
    sector1: Option<string>,
    sector2: Option<string>,
    sector3: Option<string>,
    isPersonalBest: bool,
    compound: Option<string>,
    tyreLife: Option<real>,
    trackStatus: Option<string>)

  /** One driver's current set of tyres. */
  datatype TireState = TireState(
    compound: Option<string>,
    life: Option<real>,
    age: nat,
    freshTyre: Option<bool>)

  /** The most recent weather reading. */
  datatype Weather = Weather(
    airTemp: Option<real>,
    trackTemp: Option<real>,
    humidity: Option<real>,
    pressure: Option<real>,
    windSpeed: Option<real>,
    windDirection: Option<int>,
    rainfall: bool,
    timestamp: Option<int>)

  /** The most recent track-status reading with its human-readable message. */
  datatype TrackStatus = TrackStatus(status: string, message: string, timestamp: Option<int>)

  /**
   * A value as it is serialised into one cache key. `Null` is what `None` becomes
   * (the session key holds it when no session was detected).
   */
  datatype Payload =
    | Null
    | SessionRec(session: SessionInfo)
    | StandingsRec(standings: seq<Standing>)
    | TimingRec(timing: seq<TimingEntry>)
    | TiresRec(tires: map<string, TireState>)
    | WeatherRec(weather: Weather)
    | StatusRec(trackStatus: TrackStatus)
    | Stamp(at: int)
}
