# F1 live dashboard back end — a Dafny model

This project models the back end of an F1 dashboard. The back end has three parts:

- **The live pipeline** (`RedisLiveDataService`):
  - It decides from the race calendar whether a session is live now.
  - While a session is live, it turns the provider's result, lap, weather and track-status
    rows into a snapshot of standings, timing, tires, weather and status.
  - It publishes that snapshot into a key-value cache whose entries expire after an hour.
  - It keeps a stamp of the last write and a poll step that remembers the current session.
- **The read facade** (`F1DataService`):
  - It answers the dashboard's questions from the live cache when it can, and otherwise from
    the historical SQLite database.
  - The questions are driver standings, weather, lap times (with the lap-time text parsed
    to seconds), a head-to-head driver comparison, and the raw live getters.
- **The ingestion script** (`migrate_sqlite.py`, and its byte-identical copy
  `migrations/to_sqlite.py`):
  - A session-type classifier.
  - SQL statement builders that drop unset columns.
  - Skip-if-exists inserts for events, sessions, teams, drivers, results, laps and weather.
  - Stride sampling of weather and telemetry rows.

## How the model is built

- Modules follow the source files:
  - `SessionDetector` and `SnapshotTransformer` are the pure parts of the live service.
  - `LiveService` holds the cache and the service object.
  - `LapTimeText` parses lap-time text.
  - `DataFacade` is the read facade.
  - `Migration` holds the pure parts of the ingestion script, and `MigrationDb` its
    database-changing parts.
  - `Common` and `LiveTypes` hold shared helpers and records.
- Each state-changing source object is a Dafny `class`:
  - `RedisLiveDataService` holds the cache contents, reachability, the polling flags and
    the current session.
  - `F1DataService` holds whether the SQLite connection is open and which live service it has.
  - `SQLiteF1Client` holds one sequence per table. A row's id is its index plus one, which
    matches AUTOINCREMENT with no deletes.
- Loops in the source are `method`s with loops. Each is proved equal to a specification
  function, and the properties are proved about that function.
- The outside world becomes an input:
  - Clock readings are parameters in integer seconds.
  - The race calendar, provider sessions and SQL result sets are inputs. `None` stands for a
    query that raised `sqlite3.Error`. Every filter written in the Python itself is applied
    in the model.
  - Whether the cache server answers is a field, and whether the SQLite file opens is a
    parameter.
- Floating-point values are Dafny `real`s, and pandas NaN is `Option.None`.

Where the code and its design notes disagree, the model follows the code:

- The live window includes its end point: a session is live for
  start ≤ now ≤ start + 4 h, bounds included.
- Only the first remaining event of the calendar is examined.
- The live standings path checks the cached session's year but never its `is_live` flag.
- A single `try` wraps all of `_process_live_session`, and the categories are stored one
  after another. One result row whose position or points cannot be converted therefore
  stops every category, timing, tires, weather and status included, not just that
  competitor. A weather row whose wind direction `int()` rejects, or whose index label has
  no `isoformat()` (a plain integer index), stops the step after standings, timing and
  tires are stored, so weather and status are not written; a status label of that kind
  stops it just before the status.
- `get_weather` serves live weather for any `session_id` as soon as some session is cached.
- The classifier can never return `sprint_qualifying`, because the "Qualifying" test comes
  first.
- A lap-time text that contains "days" but whose clock part does not split into exactly
  three fields, or whose fields are not numbers, raises `ValueError`. That error is not
  the `sqlite3.Error` the query handler catches, so the whole call fails. The model returns
  `RaisesValueError` for it.

## Model

| member | source | states |
|---|---|---|
| SessionDetector.FirstLive | backend/redis_live_service.py:120-131 | the slot found is the first of the five whose start is present and now lies within [start, start + 4 h]; none found means no slot is live |
| SessionDetector.DetectCurrentSession | backend/redis_live_service.py:100-161 | the loop over the five slots returns exactly the detector's answer for this clock and calendar |
| SessionDetector.Detect | backend/redis_live_service.py:100-161 | a detected session is the first remaining event of the calendar, with its year, round and name; one that is not live starts within the upcoming horizon |
| SessionDetector.DetectNothingRemaining | backend/redis_live_service.py:109-111 | an empty remaining calendar, or a calendar lookup that raises, gives no session |
| SessionDetector.DetectOnlyFirstEvent | backend/redis_live_service.py:113-114 | events after the first remaining one never change the answer |
| SessionDetector.DetectFirstLiveSlotWins | backend/redis_live_service.py:120-144 | when slot i is the first live one, the answer is a live record for that slot, with end time start + 4 h; it is no session when that slot's name or provider lookup fails |
| SessionDetector.DetectLiveIff | backend/redis_live_service.py:120-144 | the answer is a live record if and only if some slot is the first live slot and its lookups succeed |
| SessionDetector.DetectWindowEndInclusive | backend/redis_live_service.py:128-130 | a session that started exactly 4 h ago is still live, with end time now |
| SessionDetector.DetectWithoutLiveSlot | backend/redis_live_service.py:146-158 | with no live slot: an event at most 2 days away gives the non-live "Next: " + Session1 record, otherwise no session |
| SessionDetector.RaceWeekendScenario | backend/redis_live_service.py:120-144 | half an hour into a Race slot, after four finished slots, the detector reports that race live |
| SnapshotTransformer.TranslateTrackStatus | backend/redis_live_service.py:317-328 | the message starts with "Unknown Status: " exactly when the code is not one of "1".."6", and then the code follows that prefix |
| SnapshotTransformer.KnownTrackStatuses | backend/redis_live_service.py:319-326 | codes "1" to "6" map to the six fixed messages |
| SnapshotTransformer.TrackStatusInjective | backend/redis_live_service.py:317-328 | different codes always give different messages |
| SnapshotTransformer.BuildStandings | backend/redis_live_service.py:212-233 | the standings loop returns the specification's standings, or nothing when a row cannot be converted |
| SnapshotTransformer.StandingsOf | backend/redis_live_service.py:215-230 | standings exist exactly when every result row converts; then one standing per row, in row order, with that row's abbreviation, position and points |
| SnapshotTransformer.StandingsFollowResults | backend/redis_live_service.py:215-230 | standings exist if and only if every result row converts, and then they have one entry per row, in row order |
| SnapshotTransformer.DriverLaps | backend/redis_live_service.py:239 | the picked laps are exactly that driver's laps |
| SnapshotTransformer.FirstBySortedLap | backend/redis_live_service.py:239-242 | the lap taken is one of the driver's laps, and no lap sorts before it by descending lap number |
| SnapshotTransformer.LastLapHasHighestNumber | backend/redis_live_service.py:239-242 | the lap taken has a lap number no smaller than any numbered lap of the driver |
| SnapshotTransformer.TimingOf | backend/redis_live_service.py:235-262 | at most one timing entry per result row |
| SnapshotTransformer.BuildTiming | backend/redis_live_service.py:236-259 | the timing loop returns the specification's timing list |
| SnapshotTransformer.TimingEntriesAreLastLaps | backend/redis_live_service.py:238-256 | every timing entry belongs to a result-listed driver with laps and is built from that driver's last lap; there are at most as many entries as results |
| SnapshotTransformer.TimingCoversDriversWithLaps | backend/redis_live_service.py:238-256 | every result-listed driver who has laps gets a timing entry |
| SnapshotTransformer.TimingOnePerDriver | backend/redis_live_service.py:238-256 | when the results list each driver once, no driver has two timing entries |
| SnapshotTransformer.MaxStint | backend/redis_live_service.py:267 | the maximum stint is absent exactly when no lap has a stint, and otherwise it is some lap's stint |
| SnapshotTransformer.StintLaps | backend/redis_live_service.py:268 | the current tires are exactly the laps run in that stint |
| SnapshotTransformer.TiresOf | backend/redis_live_service.py:264-282 | every key of the tyre map is the abbreviation of some result row |
| SnapshotTransformer.TiresOfMembers | backend/redis_live_service.py:264-282 | a driver is a key of the tyre map exactly when listed and having a tyre record, and is mapped to that record (the step behind TiresOfKeys) |
| SnapshotTransformer.BuildTires | backend/redis_live_service.py:262-280 | the tire loop returns the specification's tire map |
| SnapshotTransformer.TireOfDefinedIff | backend/redis_live_service.py:265-277 | a driver has tire data if and only if one of their laps has a stint, and then the age is at least 1 |
| SnapshotTransformer.NoStintNoLaps | backend/redis_live_service.py:267-270 | when no lap has a stint, the fallback stint 0 selects no laps, so no tire entry is made |
| SnapshotTransformer.TiresOfKeys | backend/redis_live_service.py:264-277 | a driver is a key of the tire map if and only if they are result-listed and have a lap with a stint; the entry is their current-stint tire state |
| SnapshotTransformer.LatestWeather | backend/redis_live_service.py:283-298 | no weather rows means nothing to store; otherwise the record is built exactly when the last row's wind direction and index label convert, carrying that row's label and wind direction, and building it raises otherwise |
| SnapshotTransformer.LatestStatus | backend/redis_live_service.py:301-311 | no status rows means nothing to store; otherwise the record is built exactly when the last row's index label converts, carrying that row's code and its translated message, and building it raises otherwise |
| SnapshotTransformer.LatestReadingsAreLastRows | backend/redis_live_service.py:284-302 | the published weather and status are taken from the last rows |
| SnapshotTransformer.Transform | backend/redis_live_service.py:209-315 | the standings are those of the result rows; timing and tires are written exactly when the standings are; weather only after them, and status only after them and only when weather did not raise: what is written is a leading run of the five categories |
| SnapshotTransformer.OneBadRowAbortsEverything | backend/redis_live_service.py:211-315 | one result row that cannot be converted leaves every category of the snapshot unpublished |
| SnapshotTransformer.WellFormedPublishesAll | backend/redis_live_service.py:211-311 | when every conversion succeeds, standings (one per result), timing and tires are published, and weather and status are published exactly when their rows exist |
| SnapshotTransformer.WeatherFailureKeepsListCategories | backend/redis_live_service.py:233-298 | a last weather row that raises leaves standings, timing and tires published and writes neither weather nor status |
| SnapshotTransformer.StatusFailureKeepsEarlierCategories | backend/redis_live_service.py:283-311 | a last status row that raises leaves every earlier category published (weather when it has rows) and writes no status |
| LiveService.GetAfterPut | backend/redis_live_service.py:71-84 | a stored value reads back until its TTL of 3600 s runs out, and the last-update key holds the store time |
| LiveService.Put | backend/redis_live_service.py:70-87 | a store always rewrites the last-update key with the store time and no expiry |
| LiveService.Lookup | backend/redis_live_service.py:89-98 | a read never yields a stored null: missing, expired and null entries all read as nothing |
| LiveService.ExpiryAfterTTL | backend/redis_live_service.py:70-79 | with expiry the value is gone 3600 s after the store; without expiry it stays |
| LiveService.LookupOther | backend/redis_live_service.py:71-87 | a store leaves what every other key reads unchanged |
| LiveService.PutOtherKeys | backend/redis_live_service.py:71-87 | a store leaves every other key's entry, and its presence, unchanged |
| LiveService.PutNullReadsMissing | backend/redis_live_service.py:89-95 | storing None reads back as missing |
| LiveService.ClearedKeys | backend/redis_live_service.py:397-404 | after clearing, no key under the "f1_live:" prefix reads back, and other keys are kept |
| LiveService.KeysDistinct | backend/redis_live_service.py:32-40 | helper fact used by the store lemmas: the seven fixed key strings are pairwise distinct, so writing one key never touches another |
| LiveService.ApplySnapshotOtherKeys | backend/redis_live_service.py:209-315 | processing a session writes only the snapshot keys and the last-update key |
| LiveService.AbandonedStepWritesNothing | backend/redis_live_service.py:211-233 | when the standings step fails, nothing is written at all |
| LiveService.PublishedSnapshotReadsBack | backend/redis_live_service.py:233-311 | after a step whose results convert, standings, timing and tires read back their transformed values within the TTL, weather when its record was built, status when both records were built, and the stamp is the step's time |
| LiveService.LiveSessionNeverRedetected | backend/redis_live_service.py:166-168 | a live current session is kept as is, and the poll never rewrites the session key |
| LiveService.PollStore | backend/redis_live_service.py:163-207 | when detection runs, the session key holds its outcome without expiry; otherwise the session key is untouched |
| LiveService.ProcessLoaded | backend/redis_live_service.py:186-203 | processing a loaded session never touches the session key |
| LiveService.DetectionPublishedWithoutExpiry | backend/redis_live_service.py:166-182 | when detection runs, the session key holds its outcome (the record, or nothing) without expiry, whatever the clock |
| LiveService.NoLiveSessionNoSnapshot | backend/redis_live_service.py:170-182 | when no live session is found, no key other than the session key and the stamp changes |
| LiveService.StartStep | backend/redis_live_service.py:330-341 | after a start, polling is on; a start while polling changes nothing |
| LiveService.StartStepAsWritten | backend/redis_live_service.py:330-341 | `start_polling` as written: afterwards a thread is alive; a start while any thread is alive changes nothing; polling is on afterwards exactly when the flag was already set or no thread was alive, so a start after a stop whose thread has not yet ended leaves polling off |
| LiveService.StopStep | backend/redis_live_service.py:343-350 | after a stop, the flag is off; the thread survives only if the join timed out |
| LiveService.LoopCheck | backend/redis_live_service.py:352-354 | the thread ends at its loop test exactly when the flag is off |
| LiveService.RestartAfterTimedOutStopIsLost | backend/redis_live_service.py:330-354 | as written, a start right after a stop that timed out is ignored, and the old thread then exits: no polling |
| LiveService.StartKeepsPolling | backend/redis_live_service.py:330-354 | with the corrected start, polling survives the thread's next loop test after any history |
| LiveService.RedisLiveDataService.constructor | backend/redis_live_service.py:48-69 | a new service is connected, with polling off and no current session |
| LiveService.RedisLiveDataService.StoreData | backend/redis_live_service.py:71-87 | it reports success exactly when the server answers, and then the cache is the store applied; otherwise nothing changes |
| LiveService.RedisLiveDataService.GetData | backend/redis_live_service.py:89-98 | a value is returned only when the server answers and the key holds a non-null, unexpired value; every such value is returned |
| LiveService.RedisLiveDataService.GetLastUpdate | backend/redis_live_service.py:362-371 | it returns the last-update stamp, or nothing when the server does not answer |
| LiveService.RedisLiveDataService.ClearAllData | backend/redis_live_service.py:397-407 | it reports success exactly when the server answers, and then every prefixed key is removed |
| LiveService.RedisLiveDataService.StartPolling | backend/redis_live_service.py:330-341 | the flags take the corrected start step, and polling is on afterwards |
| LiveService.RedisLiveDataService.StopPolling | backend/redis_live_service.py:343-350 | the flags take the stop step, and polling is off afterwards |
| LiveService.RedisLiveDataService.PollingLoopCheck | backend/redis_live_service.py:352-354 | the flags take the loop-test step |
| LiveService.RedisLiveDataService.ProcessLiveSession | backend/redis_live_service.py:209-315 | the stores run category by category and stop at the first conversion that raises; the cache becomes the transformed (possibly partial) snapshot applied at this time, when the server answers |
| LiveService.RedisLiveDataService.PollLiveData | backend/redis_live_service.py:163-207 | the current session and the cache take one poll step over this clock, calendar and loaded session |
| LapTimeText.ParseInt | backend/data_service.py:460 | int() succeeds exactly on an optional sign followed by one or more decimal digits |
| LapTimeText.IntegerTextParsesAsFloat | backend/data_service.py:460 | float() accepts every text int() accepts and gives the same number |
| LapTimeText.PadDigits | backend/data_service.py:451 | a zero-padded field has the given width and only digits |
| LapTimeText.ClockRoundTrip | backend/data_service.py:459-460 | an "hh:mm:ss.ffffff" clock text parses to h·3600 + m·60 + s + micros/10⁶ seconds |
| LapTimeText.LapTimeRoundTrip | backend/data_service.py:451-460 | a stored "N days hh:mm:ss.ffffff" lap time parses to the clock's seconds; the day count is ignored |
| LapTimeText.LapTimeSeconds | backend/data_service.py:450-460 | seconds are derived (or the parse raises) only for a non-empty text containing "days" that splits into at least three words |
| LapTimeText.SecondsField | backend/data_service.py:460 | float() of "ss.ffffff" is s + micros/10⁶ |
| LapTimeText.DayContains | backend/data_service.py:454 | a stored lap time "N days CLOCK" passes the "days" test |
| LapTimeText.DayWords | backend/data_service.py:455-457 | the third whitespace token of "N days CLOCK" is the clock text |
| LapTimeText.ClockSplit | backend/data_service.py:459 | splitting the clock text on ':' gives the hour, minute and second fields |
| DataFacade.Fetch | backend/data_service.py:520-523 | without a live service nothing is fetched, and a fetched value is never null |
| DataFacade.NoServiceDefaults | backend/data_service.py:577-593 | without a live service: no current session, empty timing, empty tire map, no track status |
| DataFacade.LiveGettersReadBack | backend/data_service.py:577-593 | timing, tires and track status stored by the live service are what the getters return within the TTL |
| DataFacade.Ranked | backend/data_service.py:305-316 | historical standings have positions 1..n in row order and carry each row's driver fields |
| DataFacade.LiveItems | backend/data_service.py:286-288 | the live standings are served verbatim, in order |
| DataFacade.StandingsLiveIff | backend/data_service.py:277-316 | with a cursor, live standings are served if and only if the cached session's year matches and the live list is non-empty; they are then served verbatim, and otherwise the rows are numbered 1..n |
| DataFacade.DriverStandings | backend/data_service.py:277-320 | the answer is wholly live or wholly stored, and stored rows are numbered 1..n in order |
| DataFacade.StandingsNeedCursor | backend/data_service.py:279-281 | without a cursor the answer is empty, whatever the live cache holds |
| DataFacade.PublishedStandingsServed | backend/data_service.py:284-288 | a session and a non-empty standings list published by the live service are served as the standings for that session's year |
| DataFacade.ReadingOf | backend/data_service.py:538-547 | a weather row's rainfall becomes a boolean (non-zero is true), NULL stays None, and the other fields are copied |
| DataFacade.SessionReadings | backend/data_service.py:526-548 | every stored reading of the requested session is listed, and every item is the reading of a row of that session |
| DataFacade.SessionReadingsInOrder | backend/data_service.py:526-548 | the readings keep row order: two consecutive stretches of rows give the first stretch's readings followed by the second's |
| DataFacade.WeatherIgnoresSessionId | backend/data_service.py:519-524 | while live weather exists, every session id gets the same one-element live list; without a cursor the answer is empty |
| DataFacade.WeatherLiveIff | backend/data_service.py:512-548 | with a cursor, live weather is served if and only if a truthy current session is cached and weather is present; otherwise the session's stored readings are served |
| DataFacade.SessionWeather | backend/data_service.py:512-548 | the answer is the single live record or stored readings only, each the reading of a row of the requested session |
| DataFacade.EntryOf | backend/data_service.py:462-474 | a lap entry is a personal best exactly when the stored flag is present and non-zero, and it carries the parsed seconds and the row's text and driver |
| DataFacade.LapTimesRaiseIff | backend/data_service.py:437-474 | the call raises ValueError if and only if some selected row's lap time has a malformed clock; otherwise each listed entry comes from a selected row and has seconds exactly when its text parses |
| DataFacade.SessionLapTimes | backend/data_service.py:437-474 | a successful answer lists at most one entry per stored lap row |
| DataFacade.SessionLapTimesAppend | backend/data_service.py:437-474 | rows are read in query order: when two consecutive stretches of rows both succeed, their concatenation lists the first stretch's entries followed by the second's |
| DataFacade.RowContributes | backend/data_service.py:448-474 | one more query row raises exactly when that row alone would, and otherwise appends exactly what that row alone lists |
| DataFacade.LapListedWithoutSeconds | backend/data_service.py:450-474 | a selected row whose lap time does not read as a time is listed, with no seconds |
| DataFacade.LapNotSelectedSkipped | backend/data_service.py:437-447 | a row of another session, or of another driver when one is asked for, lists nothing |
| DataFacade.LapListedWithSeconds | backend/data_service.py:450-474 | a row whose lap time parses is listed with those seconds |
| DataFacade.DriverIdsOf | backend/data_service.py:603-611 | the id map holds exactly the two requested abbreviations that have a driver row for the year |
| DataFacade.DriverIdsOfLastWins | backend/data_service.py:609-611 | each abbreviation maps to the id of the last row of that year carrying it |
| DataFacade.SessionTableOf | backend/data_service.py:626-631 | the session table holds exactly the queried race sessions, and its order and its map agree |
| DataFacade.Placings | backend/data_service.py:643-656 | results are filed only under known race sessions, and only under the two drivers' abbreviations |
| DataFacade.ComparedSessions | backend/data_service.py:660-661 | a session is compared exactly when it is in the table and both drivers have a placing in it |
| DataFacade.ComparisonRows | backend/data_service.py:660-671 | there is one row per compared session, built from its round, name and the two placings |
| DataFacade.SameDriverNoComparison | backend/data_service.py:609-615 | comparing a driver with themselves gives no rows |
| DataFacade.CompareDrivers | backend/data_service.py:595-676 | rows are produced only with a cursor, all three tables present and both abbreviations resolved to driver ids |
| DataFacade.ComparisonNeedsBothDrivers | backend/data_service.py:597-615 | rows are only produced with a cursor, for two different abbreviations that both have a driver row for the year |
| DataFacade.PlacingsHold | backend/data_service.py:643-656 | a session holds a placing for an abbreviation if and only if a result row of that session, for one of the two drivers, maps to it |
| DataFacade.ComparedSessionIff | backend/data_service.py:643-661 | for two distinct drivers, a session is compared if and only if it is a queried race and both drivers have a result in it |
| DataFacade.ComparisonInRoundOrder | backend/data_service.py:659-671 | race sessions queried in round order give comparison rows in round order |
| DataFacade.F1DataService.constructor | backend/data_service.py:21-51 | the service records whether the database opened and which live service, if any, it has |
| DataFacade.F1DataService.GetSqliteCursor | backend/data_service.py:53-60 | a cursor is returned exactly when the connection was open or now opens; once open, it stays open |
| DataFacade.F1DataService.FetchLive | backend/redis_live_service.py:373-395 | each live getter returns what the cache holds, or nothing without a live service |
| DataFacade.F1DataService.GetCurrentSession | backend/data_service.py:85-89 | it returns the cached session, or nothing without a live service |
| DataFacade.F1DataService.GetLiveTiming | backend/data_service.py:577-581 | it returns the cached timing list, or an empty list |
| DataFacade.F1DataService.GetLiveTires | backend/data_service.py:583-587 | it returns the cached tire map, or an empty map |
| DataFacade.F1DataService.GetTrackStatus | backend/data_service.py:589-593 | it returns the cached track status, or nothing |
| DataFacade.F1DataService.GetDriverStandings | backend/data_service.py:277-319 | the standings loop returns the standings specification for the connection state after the cursor request |
| DataFacade.F1DataService.GetWeather | backend/data_service.py:512-551 | the weather loop returns the weather specification for the connection state after the cursor request |
| DataFacade.F1DataService.GetDriverLapTimes | backend/data_service.py:423-478 | the lap loop returns the lap-times specification, a ValueError included |
| DataFacade.F1DataService.GetCompareDrivers | backend/data_service.py:595-676 | the comparison loops return the comparison specification |
| DataFacade.RankRows | backend/data_service.py:305-316 | the numbering loop returns the ranked rows |
| DataFacade.CollectDriverIds | backend/data_service.py:609-611 | the id loop builds the id map |
| DataFacade.CollectSessions | backend/data_service.py:626-631 | the session loop builds the session table |
| DataFacade.CollectPlacings | backend/data_service.py:643-656 | the result loop builds the per-session placings |
| DataFacade.BuildComparison | backend/data_service.py:659-671 | the comparison loop builds one row per compared session |
| DataFacade.RaiseSticks | backend/data_service.py:450-474 | once a row raises, the whole call raises whatever rows follow |
| Migration.DetermineSessionType | backend/migrate_sqlite.py:711-727 | the classifier never returns sprint_qualifying |
| Migration.ClassificationOrder | backend/migrate_sqlite.py:711-727 | each type is returned exactly under its test in the order Practice, Qualifying, Sprint (Shootout or not), Race, else unknown |
| Migration.SprintQualifyingStoredAsQualifying | backend/migrations/to_sqlite.py:715-721 | "Sprint Qualifying" is classified as qualifying |
| Migration.SprintShootoutClassified | backend/migrations/to_sqlite.py:717-719 | "Sprint Shootout" is classified as sprint_shootout |
| Migration.RaceClassified | backend/migrations/to_sqlite.py:724-725 | "Race" is classified as race |
| Migration.Kept | backend/migrate_sqlite.py:535-538 | the kept columns are exactly the set columns, in order |
| Migration.BuildInsert | backend/migrate_sqlite.py:528-545 | the builder loop returns the insert statement of the set columns |
| Migration.InsertIsParallel | backend/migrate_sqlite.py:532-543 | the field list, the value list and the '?' count have equal length, and field i goes with value i; with no unset column every column is kept |
| Migration.PlaceholderCount | backend/migrate_sqlite.py:540 | n joined placeholders contain exactly n '?' |
| Migration.UpdateSession | backend/migrate_sqlite.py:331-350 | no statement when every value is None; otherwise SET lists the set columns and the session id is bound last |
| Migration.UpdateQueryPlaceholders | backend/migrations/to_sqlite.py:347-350 | the UPDATE text has one '?' per set column plus one for the id |
| Migration.SampleCountBounds | backend/migrate_sqlite.py:3848-3849 | with n > limit rows and stride n div limit, the sample has between limit and 2·limit − 1 rows |
| Migration.SampleBounds | backend/migrate_sqlite.py:2815-2817 | small inputs are kept whole; larger ones keep rows 0, k, 2k, … with k = n div limit, between limit and 2·limit − 1 of them |
| Migration.Stride | backend/migrate_sqlite.py:2817 | taking every k-th row never yields more rows than there were |
| Migration.Sample | backend/migrate_sqlite.py:3847-3849 | sampling never adds rows and keeps at least one row of a non-empty table |
| Migration.WeatherAndTelemetrySampleSizes | backend/migrations/to_sqlite.py:2815-2817 | weather samples have 50..99 rows and telemetry samples 100..199 |
| MigrationDb.InsertMissing | backend/migrate_sqlite.py:668-672 | skip-if-exists insertion only appends, and at most one row per candidate |
| MigrationDb.InsertMissingCovers | backend/migrate_sqlite.py:668-672 | afterwards every candidate's key is present, and each appended row is a candidate whose key was absent before it |
| MigrationDb.InsertMissingNoop | backend/migrate_sqlite.py:668-672 | when every key is already present nothing is inserted |
| MigrationDb.InsertMissingIdempotent | backend/migrate_sqlite.py:668-672 | a second run with the same candidates inserts nothing |
| MigrationDb.InsertMissingKeepsUnique | backend/migrate_sqlite.py:668-672 | a table with unique keys keeps them unique |
| MigrationDb.NullKeysAlwaysInserted | backend/migrate_sqlite.py:578-585 | candidates whose key holds NULL never match, so they are always inserted |
| MigrationDb.FirstId | backend/migrate_sqlite.py:284-291 | a lookup returns the id of the first row with the key, or nothing when there is none |
| MigrationDb.SQLiteF1Client.constructor | backend/migrate_sqlite.py:53-241 | a new database has empty tables |
| MigrationDb.SQLiteF1Client.CreateEvent | backend/migrate_sqlite.py:255-282 | the event is appended and its id returned; no other table changes |
| MigrationDb.SQLiteF1Client.CreateSession | backend/migrate_sqlite.py:308-329 | the session is appended and its id returned; no other table changes |
| MigrationDb.SQLiteF1Client.CreateTeam | backend/migrate_sqlite.py:381-402 | the team is appended and its id returned; no other table changes |
| MigrationDb.SQLiteF1Client.CreateDriver | backend/migrate_sqlite.py:428-458 | the driver is appended and its id returned; no other table changes |
| MigrationDb.SQLiteF1Client.CreateResult | backend/migrate_sqlite.py:484-514 | the result is appended and its id returned; no other table changes |
| MigrationDb.SQLiteF1Client.CreateLap | backend/migrate_sqlite.py:528-551 | the lap is appended, its id returned, and the statement is the None-free insert |
| MigrationDb.SQLiteF1Client.CreateTelemetry | backend/migrate_sqlite.py:553-576 | the telemetry row is appended, its id returned, and the statement is the None-free insert |
| MigrationDb.SQLiteF1Client.CreateWeather | backend/migrate_sqlite.py:590-613 | the weather row is appended, its id returned, and the statement is the None-free insert |
| MigrationDb.EventsOf | backend/migrate_sqlite.py:654-665 | one event record per calendar row |
| MigrationDb.MigrateEvents | backend/migrate_sqlite.py:649-674 | only the events table changes: the year's events whose (year, round) is absent are appended |
| MigrationDb.EventsIdempotent | backend/migrations/to_sqlite.py:668-672 | rerunning the event migration inserts nothing, and the (year, round) keys stay unique |
| MigrationDb.SlotSessions | backend/migrate_sqlite.py:689-692 | at most one session per slot |
| MigrationDb.SlotSessionsNamed | backend/migrate_sqlite.py:689-702 | a session is proposed if and only if it comes from one of the five slots with a name |
| MigrationDb.MigrateSessions | backend/migrate_sqlite.py:676-709 | only the sessions table changes: sessions of stored events whose (event, name) is absent are appended |
| MigrationDb.MigrateEventSessions | backend/migrate_sqlite.py:688-709 | one event's named slots are inserted skip-if-exists |
| MigrationDb.SessionsIdempotent | backend/migrations/to_sqlite.py:705-709 | rerunning the session migration inserts nothing, and the keys stay unique |
| MigrationDb.TeamsOf | backend/migrate_sqlite.py:762-771 | one team record per reference row |
| MigrationDb.MigrateDriversAndTeams | backend/migrate_sqlite.py:760-812 | teams are inserted skip-if-exists first, then drivers against the new team table |
| MigrationDb.MigrateTeams | backend/migrate_sqlite.py:760-780 | the team loop with its processed-names set equals skip-if-exists insertion of every row's team |
| MigrationDb.AddTeamIfMissing | backend/migrate_sqlite.py:773-778 | a team is appended only when its (name, year) is absent, and afterwards its name is present |
| MigrationDb.TeamNamePresent | backend/migrate_sqlite.py:369-379 | a team name is in the year's names if and only if team_exists finds it |
| MigrationDb.MigrateDrivers | backend/migrate_sqlite.py:782-812 | drivers are inserted skip-if-exists for rows whose team is found |
| MigrationDb.TeamsCreatedOncePerName | backend/migrate_sqlite.py:761-780 | no team name is created twice in one run |
| MigrationDb.NoDriverSkippedAfterTeams | backend/migrate_sqlite.py:783-789 | after the team pass every driver's team is found, so one driver record is proposed per row |
| MigrationDb.AllTeamsFound | backend/migrate_sqlite.py:783-805 | when every row's team exists, one driver record per row is proposed, in order |
| MigrationDb.DriverIds | backend/migrate_sqlite.py:888-889 | every id in the abbreviation map is the id of an existing driver row |
| MigrationDb.DriverIdsLastWins | backend/migrate_sqlite.py:888-889 | an abbreviation is mapped if and only if a driver of that year has it, and to the id of the last such driver |
| MigrationDb.MigrateResults | backend/migrate_sqlite.py:881-917 | only the results table changes: results of known drivers whose (session, driver) is absent are appended |
| MigrationDb.Known | backend/migrate_sqlite.py:892-896 | only results of drivers in the map are kept |
| MigrationDb.ResultsSkipOnlyUnknownDrivers | backend/migrate_sqlite.py:891-910 | exactly the known drivers' results are proposed, each with the session id and the driver's id |
| MigrationDb.ResultsIdempotent | backend/migrations/to_sqlite.py:913-917 | rerunning the result migration inserts nothing, and the keys stay unique |
| MigrationDb.Records | backend/migrate_sqlite.py:1825-1857 | the lap records are those of the candidates, in order |
| MigrationDb.MigrateLaps | backend/migrate_sqlite.py:1798-1875 | the laps and telemetry tables take the lap-adding step over the candidates, and the local counter `lap_count` (the function itself returns nothing) ends at the number of new laps |
| MigrationDb.TryLap | backend/migrate_sqlite.py:1859-1868 | one candidate is added with its telemetry only when its key is absent |
| MigrationDb.MigrateTelemetryForLap | backend/migrate_sqlite.py:2793-2843 | the lap's sampled telemetry rows are appended without duplicate checks |
| MigrationDb.TelemetryRows | backend/migrate_sqlite.py:2819-2841 | one telemetry row per sample |
| MigrationDb.AddLapsInsertsMissing | backend/migrate_sqlite.py:1859-1868 | the lap table grows by skip-if-exists insertion, and the count grows by the number of new laps |
| MigrationDb.AddLaps | backend/migrate_sqlite.py:1859-1868 | the lap and telemetry tables only grow at their ends, and the count grows by the number of laps appended |
| MigrationDb.LapCandidates | backend/migrate_sqlite.py:1804-1858 | every candidate lap belongs to the session and to a driver id found for one of its drivers; there are at most as many as lap rows |
| MigrationDb.AddLapsNoop | backend/migrations/to_sqlite.py:1859-1875 | when every lap exists nothing changes |
| MigrationDb.LapsIdempotent | backend/migrate_sqlite.py:1859-1875 | a second lap migration changes nothing |
| MigrationDb.TelemetryPerLap | backend/migrations/to_sqlite.py:1865 | telemetry is stored only for personal-best laps or laps numbered a multiple of 10, and at most 199 rows of it |
| MigrationDb.WeatherRecords | backend/migrate_sqlite.py:3851-3864 | one weather record per sampled row |
| MigrationDb.MigrateWeather | backend/migrate_sqlite.py:3839-3871 | only the weather table changes: sampled readings whose (session, time) is absent are appended |
| MigrationDb.InsertWeather | backend/migrate_sqlite.py:3851-3871 | the weather loop is skip-if-exists insertion of the sampled records |
| MigrationDb.SampledFromRows | backend/migrate_sqlite.py:3847-3849 | every sampled row is a provider row |
| MigrationDb.WeatherRerun | backend/migrate_sqlite.py:3852-3869 | rerunning with timed readings inserts nothing; readings without a time are inserted again every run |

## Left out

- Threads, `time.sleep`, the 1 s and 5 s polling cadence and the 300 s idle wait. These are time and concurrency. The polling flags are plain state, and whether a join timed out is a parameter.
- JSON encoding and decoding in the cache. Payloads are a datatype, and a stored `None` is the `Null` payload.
- The wall clock and the difference between local time and UTC. The time of each call is a parameter in integer seconds.
- Exceptions from the Redis client other than "server unreachable". They are modelled as the `reachable` flag.
- The fastf1 provider calls: the calendar, `get_session`, `load`, `pick_driver` and `get_telemetry`. Their results are inputs. A session that does not load, or has no laps, is `None`.
- Connection check failure in the live service's `__init__`. The facade's constructor takes the resulting "no live service" as its `service` argument.
- Floating-point rounding. Seconds, temperatures, points and tyre life are Dafny reals.
- LapTimeText.ParseInt and LapTimeText.ParseFloat: they accept only an optional sign, ASCII digits and, for floats, one decimal point. Python's `int()`/`float()` also accept surrounding whitespace, underscores, exponents, "inf"/"nan" and non-ASCII digits; a lap-time clock never contains these.
- SQL `ORDER BY`, joins and `GROUP BY`/`SUM`. Query results are inputs in the order the database returns them, and the filters written in Python are applied in the model.
- SQLite errors and rollbacks inside the migration script: every insert is assumed to succeed.
- The reference-session search in `migrate_drivers_and_teams`, which loads race and then qualifying sessions through fastf1. Its outcome, the reference result rows, is an input.
- `migrate_session_details`, `migrate_compounds`, `main` and the tire-compound table. These are orchestration and fastf1 loading; the helpers they call are modelled.
- The `lap_count % 50` pause in `migrate_laps`. It only sleeps; the counter itself is modelled.
- The facade's other queries (`get_available_years`, `get_events`, `get_sessions`, `get_telemetry`, tyre compounds) and `close`/`start_live_polling`. They are plain pass-through reads and are not among the modelled operations.
- The repeated copies of each function further down both migration files. Their text is identical, so one copy is modelled.
- LiveService.RedisLiveDataService.StartPolling: follows the corrected start step of the Findings table, not lines 332-334 as written, which return whenever the old thread is still alive even though `is_polling` is already false. The as-written step is LiveService.StartStepAsWritten, and LiveService.RestartAfterTimedOutStopIsLost exhibits the restart it loses.
- SnapshotTransformer.TimingOf: assumes `int(LapNumber)` at backend/redis_live_service.py:246 succeeds. pandas keeps lap numbers as floats, and a present lap number is a finite whole number, so it is a lap row's integer `lapNumber`; the `float()` and `bool()` conversions of present numeric cells are treated the same way, as are those in `migrate_laps`.
- DataFacade.Fetch: a payload of an unexpected kind stored under a fixed key (for example a list under the session key) is treated as absent by the typed getters. The service itself only ever writes the expected kind under each key.

## Findings

| source | as written | input that shows it | evidently intended | confidence | as-written member | corrected member |
|---|---|---|---|---|---|---|
| backend/redis_live_service.py:330-354 | `start_polling` does nothing while the old thread is alive, even after `stop_polling` cleared the flag and its 10 s join timed out (the idle poll sleeps 300 s) | polling on; `stop_polling()` times out; `start_polling()`; the old thread wakes, sees the flag clear and exits | a start after a stop leaves polling running | not executed | LiveService.RestartAfterTimedOutStopIsLost | LiveService.StartKeepsPolling |
