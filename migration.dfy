/**
 * Helpers of the SQLite ingestion script (backend/migrate_sqlite.py; the same text is
 * backend/migrations/to_sqlite.py): the session-type classifier, the statement builders
 * that drop missing values, and the stride sampling of weather and telemetry rows.
 */
module Migration {
  import opened Common

  // ---------------------------------------------------------------- session types

  datatype SessionType = Practice | Qualifying | SprintShootout | SprintQualifying | Sprint | Race | Unknown

  /** The text stored in the `session_type` column. */
  function SessionTypeName(t: SessionType): string {
    match t
    case Practice => "practice"
    case Qualifying => "qualifying"
    case SprintShootout => "sprint_shootout"
    case SprintQualifying => "sprint_qualifying"
    case Sprint => "sprint"
    case Race => "race"
    case Unknown => "unknown"
  }

  /** `_determine_session_type`: substring tests in a fixed order; the first that matches decides. */
  function DetermineSessionType(name: string): (r: SessionType)
    ensures r != SprintQualifying
  {
    if Contains(name, "Practice") then Practice
    else if Contains(name, "Qualifying") then Qualifying
    else if Contains(name, "Sprint") then
      if Contains(name, "Shootout") then SprintShootout
      else if Contains(name, "Qualifying") then SprintQualifying
      else Sprint
    else if Contains(name, "Race") then Race
    else Unknown
  }

  /**
   * Each outcome, with the exact condition under which it is chosen. "sprint_qualifying"
   * is never chosen: its test sits behind the plain "Qualifying" test.
   */
  lemma ClassificationOrder(name: string)
    ensures var r := DetermineSessionType(name);
      var p, q, s := Contains(name, "Practice"), Contains(name, "Qualifying"), Contains(name, "Sprint");
      (r == Practice <==> p) &&
      (r == Qualifying <==> !p && q) &&
      (r == SprintShootout <==> !p && !q && s && Contains(name, "Shootout")) &&
      (r == Sprint <==> !p && !q && s && !Contains(name, "Shootout")) &&
      (r == Race <==> !p && !q && !s && Contains(name, "Race")) &&
      (r == Unknown <==> !p && !q && !s && !Contains(name, "Race")) &&
      r != SprintQualifying
  {
  }

  /** A string shorter than `sub` cannot contain it. */
  lemma {:induction false} ShorterNotContains(s: string, sub: string)
    requires |s| < |sub|
    ensures !Contains(s, sub)
    decreases |s|
  {
    if |s| > 0 {
      ShorterNotContains(s[1..], sub);
    }
  }

  /** Every character of a contained string occurs in the containing one. */
  lemma {:induction false} ContainedFirstChar(s: string, sub: string)
    requires Contains(s, sub) && |sub| > 0
    ensures sub[0] in s
    decreases |s|
  {
    if StartsWith(s, sub) {
      assert s[0] == sub[0];
    } else {
      ContainedFirstChar(s[1..], sub);
      assert s[1..] <= s[1..] && forall c :: c in s[1..] ==> c in s;
    }
  }

  /** The provider's "Sprint Qualifying" sessions are stored as plain qualifying sessions. */
  lemma SprintQualifyingStoredAsQualifying(name: string)
    requires name == "Sprint Qualifying"
    ensures DetermineSessionType(name) == Qualifying
  {
    assert 'P' !in name;
    if Contains(name, "Practice") { ContainedFirstChar(name, "Practice"); }
    ContainsAt(name, "Qualifying", 7);
  }

  /** "Sprint Shootout" is the one sprint-day session with its own type. */
  lemma SprintShootoutClassified(ss: string)
    requires ss == "Sprint Shootout"
    ensures DetermineSessionType(ss) == SprintShootout
  {
    assert 'P' !in ss && 'Q' !in ss;
    if Contains(ss, "Practice") { ContainedFirstChar(ss, "Practice"); }
    if Contains(ss, "Qualifying") { ContainedFirstChar(ss, "Qualifying"); }
    assert StartsWith(ss, "Sprint");
    ContainsAt(ss, "Shootout", 7);
  }

  lemma RaceClassified()
    ensures DetermineSessionType("Race") == Race
  {
    ShorterNotContains("Race", "Practice");
    ShorterNotContains("Race", "Qualifying");
    ShorterNotContains("Race", "Sprint");
    assert StartsWith("Race", "Race");
  }

  // ---------------------------------------------------------------- statement builders

  /** A value bound to a statement parameter. */
  datatype Value = IntV(i: int) | RealV(x: real) | TextV(s: string) | BoolV(b: bool)

  /** One entry of a record dictionary, in the dictionary's order; `None` is a missing value. */
  datatype Column = Column(name: string, value: Option<Value>)

  /** The entries with a value, in order. */
  function Kept(record: seq<Column>): (r: seq<Column>)
    ensures |r| <= |record|
    ensures forall c :: c in r <==> c in record && c.value.Some?
    decreases |record|
  {
    if |record| == 0 then []
    else
      var rest := Kept(record[..|record| - 1]);
      var last := record[|record| - 1];
      assert forall c :: c in record <==> c in record[..|record| - 1] || c == last;
      if last.value.Some? then rest + [last] else rest
  }

  function Names(cs: seq<Column>): (r: seq<string>)
    ensures |r| == |cs| && forall i :: 0 <= i < |cs| ==> r[i] == cs[i].name
    decreases |cs|
  {
    if |cs| == 0 then [] else Names(cs[..|cs| - 1]) + [cs[|cs| - 1].name]
  }

  function Values(cs: seq<Column>): (r: seq<Value>)
    requires forall c :: c in cs ==> c.value.Some?
    ensures |r| == |cs| && forall i :: 0 <= i < |cs| ==> Some(r[i]) == cs[i].value
    decreases |cs|
  {
    if |cs| == 0 then []
    else
      assert cs[|cs| - 1] in cs && forall c :: c in cs[..|cs| - 1] ==> c in cs;
      Values(cs[..|cs| - 1]) + [cs[|cs| - 1].value.value]
  }

  /** One more record entry extends the kept list by that entry exactly when it has a value. */
  lemma KeptStep(record: seq<Column>, i: nat)
    requires i < |record|
    ensures Kept(record[..i + 1]) ==
      if record[i].value.Some? then Kept(record[..i]) + [record[i]] else Kept(record[..i])
  {
    assert record[..i + 1][..i] == record[..i];
  }

  lemma ListsSnoc(cs: seq<Column>, c: Column)
    requires forall x :: x in cs ==> x.value.Some?
    requires c.value.Some?
    ensures Names(cs + [c]) == Names(cs) + [c.name]
    ensures Values(cs + [c]) == Values(cs) + [c.value.value]
    ensures Assignments(Names(cs + [c])) == Assignments(Names(cs)) + [c.name + " = ?"]
  {
    assert (cs + [c])[..|cs|] == cs;
    assert Names(cs + [c])[..|cs|] == Names(cs);
  }

  /** `n` copies of `s`. */
  function Repeat(s: string, n: nat): (r: seq<string>)
    ensures |r| == n && forall i :: 0 <= i < n ==> r[i] == s
  {
    seq(n, _ => s)
  }

  /** An insert statement: the columns named, the parameters bound, and the text. */
  datatype Insert = Insert(fields: seq<string>, values: seq<Value>, placeholders: string, query: string)

  function InsertQuery(table: string, fields: seq<string>, placeholders: string): string {
    "INSERT INTO " + table + " (" + Join(fields, ", ") + ") VALUES (" + placeholders + ")"
  }

  /** The statement `create_lap`, `create_telemetry` and `create_weather` execute for a record. */
  function InsertOf(table: string, record: seq<Column>): Insert {
    var kept := Kept(record);
    var placeholders := Join(Repeat("?", |kept|), ", ");
    Insert(Names(kept), Values(kept), placeholders, InsertQuery(table, Names(kept), placeholders))
  }

  /** The field and value lists built entry by entry, skipping missing values. */
  method BuildInsert(table: string, record: seq<Column>) returns (r: Insert)
    ensures r == InsertOf(table, record)
  {
    var fields: seq<string> := [];
    var values: seq<Value> := [];
    ghost var kept: seq<Column> := [];
    for i := 0 to |record|
      invariant kept == Kept(record[..i])
      invariant fields == Names(kept) && forall c :: c in kept ==> c.value.Some?
      invariant values == Values(kept)
    {
      KeptStep(record, i);
      if record[i].value.Some? {
        ListsSnoc(kept, record[i]);
        fields := fields + [record[i].name];
        values := values + [record[i].value.value];
        kept := kept + [record[i]];
      }
    }
    assert record[..|record|] == record;
    var placeholders := Join(Repeat("?", |fields|), ", ");
    r := Insert(fields, values, placeholders, InsertQuery(table, fields, placeholders));
  }

  /** `n` question marks joined by ", " hold exactly `n` question marks. */
  lemma {:induction false} PlaceholderCount(n: nat)
    ensures Occurrences(Join(Repeat("?", n), ", "), '?') == n
    decreases n
  {
    if n >= 2 {
      assert Repeat("?", n)[1..] == Repeat("?", n - 1);
      PlaceholderCount(n - 1);
      var tail := Join(Repeat("?", n - 1), ", ");
      assert Join(Repeat("?", n), ", ") == "?" + ", " + tail;
      OccurrencesAppend("?" + ", ", tail, '?');
      OccurrencesAppend("?", ", ", '?');
    }
  }

  /** Keeping the present entries of two record parts is keeping them of each, in order. */
  lemma {:induction false} KeptAppend(a: seq<Column>, b: seq<Column>)
    ensures Kept(a + b) == Kept(a) + Kept(b)
    decreases |b|
  {
    if |b| > 0 {
      assert (a + b)[..|a + b| - 1] == a + b[..|b| - 1];
      KeptAppend(a, b[..|b| - 1]);
    } else {
      assert a + b == a;
    }
  }

  /**
   * The insert statement names exactly the entries that have a value, in record order,
   * binds their values in the same order, and has one placeholder per value.
   */
  lemma InsertIsParallel(table: string, record: seq<Column>)
    ensures var ins := InsertOf(table, record);
      |ins.fields| == |ins.values| == |Kept(record)| &&
      (forall i :: 0 <= i < |ins.fields| ==> Column(ins.fields[i], Some(ins.values[i])) == Kept(record)[i]) &&
      Occurrences(ins.placeholders, '?') == |ins.values|
    ensures (forall c :: c in record ==> c.value.Some?) ==> Kept(record) == record
  {
    PlaceholderCount(|Kept(record)|);
    if forall c :: c in record ==> c.value.Some? {
      forall i | 0 <= i < |record| ensures record[i].value.Some? {
        assert record[i] in record;
      }
      KeptAll(record);
    }
  }

  lemma {:induction false} KeptAll(record: seq<Column>)
    requires forall i :: 0 <= i < |record| ==> record[i].value.Some?
    ensures Kept(record) == record
    decreases |record|
  {
    if |record| > 0 {
      var n := |record| - 1;
      var init := record[..n];
      forall i | 0 <= i < n ensures init[i].value.Some? {
        assert init[i] == record[i];
      }
      KeptAll(init);
      assert Kept(record) == Kept(init) + [record[n]];
      assert init + [record[n]] == record;
    }
  }

  /** An `UPDATE sessions` statement and its parameters. */
  datatype Update = Update(assignments: seq<string>, params: seq<Value>, query: string)

  function Assignments(fields: seq<string>): (r: seq<string>)
    ensures |r| == |fields| && forall i :: 0 <= i < |fields| ==> r[i] == fields[i] + " = ?"
    decreases |fields|
  {
    if |fields| == 0 then [] else Assignments(fields[..|fields| - 1]) + [fields[|fields| - 1] + " = ?"]
  }

  /**
   * `update_session`: the statement it executes, or `None` when every value is missing
   * and it returns without one. The session id is bound last, after the SET values.
   */
  method UpdateSession(sessionId: int, sessionData: seq<Column>) returns (r: Option<Update>)
    ensures r.None? <==> forall c :: c in sessionData ==> c.value.None?
    ensures r.Some? ==> r.value.params == Values(Kept(sessionData)) + [IntV(sessionId)]
    ensures r.Some? ==> r.value.assignments == Assignments(Names(Kept(sessionData)))
    ensures r.Some? ==>
      r.value.query == "UPDATE sessions SET " + Join(r.value.assignments, ", ") + " WHERE id = ?"
  {
    var updateFields: seq<string> := [];
    var updateValues: seq<Value> := [];
    ghost var kept: seq<Column> := [];
    for i := 0 to |sessionData|
      invariant kept == Kept(sessionData[..i])
      invariant forall c :: c in kept ==> c.value.Some?
      invariant updateFields == Assignments(Names(kept))
      invariant updateValues == Values(kept)
    {
      KeptStep(sessionData, i);
      if sessionData[i].value.Some? {
        ListsSnoc(kept, sessionData[i]);
        updateFields := updateFields + [sessionData[i].name + " = ?"];
        updateValues := updateValues + [sessionData[i].value.value];
        kept := kept + [sessionData[i]];
      }
    }
    assert sessionData[..|sessionData|] == sessionData;
    if |updateFields| == 0 {
      assert |kept| == 0;
      return None;
    }
    assert kept[0] in sessionData;
    updateValues := updateValues + [IntV(sessionId)];
    return Some(Update(updateFields, updateValues,
                       "UPDATE sessions SET " + Join(updateFields, ", ") + " WHERE id = ?"));
  }

  /** Column names without question marks give a statement with one placeholder per parameter. */
  lemma {:induction false} UpdatePlaceholders(fields: seq<string>)
    requires forall i :: 0 <= i < |fields| ==> Occurrences(fields[i], '?') == 0
    ensures Occurrences(Join(Assignments(fields), ", "), '?') == |fields|
    decreases |fields|
  {
    if |fields| == 1 {
      OccurrencesAppend(fields[0], " = ?", '?');
    } else if |fields| > 1 {
      assert Assignments(fields)[1..] == Assignments(fields[1..]);
      UpdatePlaceholders(fields[1..]);
      var tail := Join(Assignments(fields[1..]), ", ");
      assert Join(Assignments(fields), ", ") == (fields[0] + " = ?") + ", " + tail;
      OccurrencesAppend((fields[0] + " = ?") + ", ", tail, '?');
      OccurrencesAppend(fields[0] + " = ?", ", ", '?');
      OccurrencesAppend(fields[0], " = ?", '?');
    }
  }

  /** A string without the character has no occurrence of it. */
  lemma {:induction false} NoOccurrences(s: string, c: char)
    requires c !in s
    ensures Occurrences(s, c) == 0
    decreases |s|
  {
    if |s| > 0 {
      assert forall x :: x in s[1..] ==> x in s;
      NoOccurrences(s[1..], c);
    }
  }

  /** Occurrences in a text framed by a prefix free of the character. */
  lemma OccurrencesFramed(head: string, body: string, tail: string, c: char)
    requires c !in head
    ensures Occurrences(head + body + tail, c) == Occurrences(body, c) + Occurrences(tail, c)
  {
    NoOccurrences(head, c);
    OccurrencesAppend(head + body, tail, c);
    OccurrencesAppend(head, body, c);
  }

  /** The whole UPDATE text has one placeholder per bound parameter, the last being the session id. */
  lemma UpdateQueryPlaceholders(fields: seq<string>, head: string, tail: string)
    requires head == "UPDATE sessions SET " && tail == " WHERE id = ?"
    requires forall i :: 0 <= i < |fields| ==> Occurrences(fields[i], '?') == 0
    ensures Occurrences(head + Join(Assignments(fields), ", ") + tail, '?') == |fields| + 1
  {
    UpdatePlaceholders(fields);
    assert '?' !in head;
    OccurrencesFramed(head, Join(Assignments(fields), ", "), tail, '?');
    var where := " WHERE id = ";
    assert '?' !in where && tail == where + "?";
    OccurrencesFramed(where, "?", "", '?');
    assert where + "?" + "" == tail;
  }

  // ---------------------------------------------------------------- sampling

  /** `rows.iloc[::k]`: rows 0, k, 2k, ... */
  function Stride<T>(rows: seq<T>, k: nat): (r: seq<T>)
    requires k > 0
    ensures |r| <= |rows|
    decreases |rows|
  {
    if |rows| == 0 then []
    else if k >= |rows| then [rows[0]]
    else [rows[0]] + Stride(rows[k..], k)
  }

  lemma CeilDivStep(n: int, k: int)
    requires 0 < k < n
    ensures (n + k - 1) / k == (n - k + k - 1) / k + 1
  {
    var a := n - k + k - 1;
    var q, r := a / k, a % k;
    assert a == q * k + r && 0 <= r < k;
    assert n + k - 1 == (q + 1) * k + r;
    DivUnique(n + k - 1, k, q + 1, r);
  }

  /** Division is determined by quotient and remainder. */
  lemma DivUnique(a: int, k: int, q: int, r: int)
    requires k > 0 && a == q * k + r && 0 <= r < k
    ensures a / k == q
  {
    var q', r' := a / k, a % k;
    assert a == q' * k + r' && 0 <= r' < k;
    assert (q - q') * k == r' - r;
    if q' < q {
      MulMonotone(q - q', 1, k);
    } else if q' > q {
      MulMonotone(q' - q, 1, k);
    }
  }

  lemma MulMonotone(a: int, b: int, k: int)
    requires a >= b && k >= 0
    ensures a * k >= b * k
  {
    assert a * k - b * k == (a - b) * k;
  }

  /** The strided rows are exactly the rows at multiples of `k`: ceil(n / k) of them. */
  lemma {:induction false} StrideShape<T>(rows: seq<T>, k: nat)
    requires k > 0
    ensures |Stride(rows, k)| == (|rows| + k - 1) / k
    ensures forall i :: 0 <= i < |Stride(rows, k)| ==> i * k < |rows| && Stride(rows, k)[i] == rows[i * k]
    decreases |rows|
  {
    if |rows| == 0 {
      DivUnique(k - 1, k, 0, k - 1);
    } else if k >= |rows| {
      DivUnique(|rows| + k - 1, k, 1, |rows| - 1);
    } else {
      var rest := rows[k..];
      StrideShape(rest, k);
      CeilDivStep(|rows|, k);
      var r := Stride(rows, k);
      assert r == [rows[0]] + Stride(rest, k);
      forall i | 0 < i < |r|
        ensures i * k < |rows| && r[i] == rows[i * k]
      {
        assert r[i] == Stride(rest, k)[i - 1];
        assert (i - 1) * k < |rest|;
        assert (i - 1) * k + k == i * k;
      }
    }
  }

  /** `migrate_weather` and `migrate_telemetry_for_lap`: above `limit` rows, keep every (n div limit)-th. */
  function Sample<T>(rows: seq<T>, limit: nat): (r: seq<T>)
    requires limit > 0
    ensures |r| <= |rows|
    ensures |rows| > 0 ==> |r| > 0
  {
    if |rows| > limit then Stride(rows, |rows| / limit) else rows
  }

  /** `a / k >= m` when `a >= m * k`. */
  lemma DivAtLeast(a: int, k: int, m: int)
    requires k > 0 && a >= m * k
    ensures a / k >= m
  {
    var q, r := a / k, a % k;
    assert a == q * k + r && 0 <= r < k;
    assert (q + 1) * k == q * k + k;
    if q < m {
      MulMonotone(m, q + 1, k);
    }
  }

  /** `a / k < m` when `0 <= a < m * k`. */
  lemma DivBelow(a: int, k: int, m: int)
    requires k > 0 && 0 <= a < m * k
    ensures a / k < m
  {
    var q, r := a / k, a % k;
    assert a == q * k + r && 0 <= r < k;
    if q >= m {
      MulMonotone(q, m, k);
    }
  }

  /** ceil(n / (n div limit)) lies between `limit` and `2 * limit - 1` when n exceeds `limit`. */
  lemma SampleCountBounds(n: nat, limit: nat)
    requires 0 < limit < n
    ensures var k := n / limit; k > 0 && limit <= (n + k - 1) / k <= 2 * limit - 1
  {
    var k := n / limit;
    var rem := n % limit;
    assert n == k * limit + rem && 0 <= rem < limit;
    DivAtLeast(n, limit, 1);
    CountAtLeast(n, limit, k);
    CountBelow(n, limit, k, rem);
  }

  /** n + k - 1 >= limit * k, so ceil(n / k) >= limit. */
  lemma CountAtLeast(n: int, limit: int, k: int)
    requires k > 0 && limit > 0 && n >= k * limit
    ensures (n + k - 1) / k >= limit
  {
    assert k * limit == limit * k;
    DivAtLeast(n + k - 1, k, limit);
  }

  /** n + k - 1 <= limit * k + limit + k - 2 < (2 * limit) * k, so ceil(n / k) < 2 * limit. */
  lemma CountBelow(n: int, limit: int, k: int, rem: int)
    requires k > 0 && limit > 0 && n == k * limit + rem && 0 <= rem < limit
    ensures (n + k - 1) / k <= 2 * limit - 1
  {
    assert (limit - 1) * (k - 1) >= 0 by { MulMonotone(limit - 1, 0, k - 1); }
    assert (limit - 1) * (k - 1) == limit * k - limit - k + 1;
    assert k * limit == limit * k;
    assert (2 * limit) * k == 2 * (limit * k);
    DivBelow(n + k - 1, k, 2 * limit);
  }

  /** ceil(n / k) <= n for n, k >= 1. */
  lemma CountAtMostRows(n: int, k: int)
    requires n >= 1 && k >= 1
    ensures (n + k - 1) / k <= n
  {
    MulMonotone(k, 1, n);
    assert (n + 1) * k == n * k + k && k * n == n * k;
    DivBelow(n + k - 1, k, n + 1);
  }

  /**
   * Sampling keeps rows in order, starting with the first; at most `limit` rows are kept
   * whole, and more are cut to between `limit` and `2 * limit - 1`.
   */
  lemma SampleBounds<T>(rows: seq<T>, limit: nat)
    requires limit > 0
    ensures |rows| <= limit ==> Sample(rows, limit) == rows
    ensures |rows| > limit ==> limit <= |Sample(rows, limit)| <= 2 * limit - 1
    ensures |Sample(rows, limit)| <= |rows|
    ensures |rows| > 0 ==> |Sample(rows, limit)| > 0 && Sample(rows, limit)[0] == rows[0]
    ensures |rows| > limit ==> forall i :: 0 <= i < |Sample(rows, limit)| ==>
      i * (|rows| / limit) < |rows| && Sample(rows, limit)[i] == rows[i * (|rows| / limit)]
  {
    if |rows| > limit {
      var k := |rows| / limit;
      SampleCountBounds(|rows|, limit);
      StrideShape(rows, k);
      CountAtMostRows(|rows|, k);
      assert 0 * k == 0;
    }
  }

  /** Weather keeps 50 to 99 rows once it has more than 50; telemetry keeps 100 to 199 once it has more than 100. */
  lemma WeatherAndTelemetrySampleSizes<T>(rows: seq<T>)
    ensures |rows| > 50 ==> 50 <= |Sample(rows, 50)| <= 99
    ensures |rows| > 100 ==> 100 <= |Sample(rows, 100)| <= 199
  {
    SampleBounds(rows, 50);
    SampleBounds(rows, 100);
  }

  /** A lap gets telemetry when it is a personal best or its number is a multiple of ten. */
  predicate SelectsTelemetry(isPersonalBest: Option<bool>, lapNumber: int) {
    isPersonalBest == Some(true) || lapNumber % 10 == 0
  }
}
