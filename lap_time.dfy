/**
 * The lap-time text of backend/data_service.py (`get_driver_lap_times`): laps store the
 * pandas `Timedelta` string, "D days HH:MM:SS" with an optional ".ffffff", and the
 * service turns it into seconds with `split()`, `split(':')`, `int()` and `float()`.
 */
module LapTimeText {
  import opened Common

  predicate IsDigit(c: char) {
    '0' <= c <= '9'
  }

  predicate AllDigits(s: string) {
    forall i :: 0 <= i < |s| ==> IsDigit(s[i])
  }

  /** The value of a run of decimal digits, most significant first. */
  function DigitsValue(s: string): nat
    requires AllDigits(s)
    decreases |s|
  {
    if |s| == 0 then 0 else DigitsValue(s[..|s| - 1]) * 10 + (s[|s| - 1] as int - '0' as int)
  }

  function Pow10(n: nat): (r: nat)
    ensures r >= 1
  {
    if n == 0 then 1 else 10 * Pow10(n - 1)
  }

  /** The digits after an optional sign. */
  function Unsigned(s: string): string {
    if |s| > 0 && (s[0] == '-' || s[0] == '+') then s[1..] else s
  }

  predicate Negative(s: string) {
    |s| > 0 && s[0] == '-'
  }

  /** `int(s)` for an optional sign and ASCII digits; `None` where Python raises `ValueError`. */
  function ParseInt(s: string): (r: Option<int>)
    ensures r.Some? <==> |Unsigned(s)| > 0 && AllDigits(Unsigned(s))
  {
    var body := Unsigned(s);
    if |body| > 0 && AllDigits(body) then
      var v: int := DigitsValue(body);
      Some(if Negative(s) then -v else v)
    else None
  }

  /** The number "whole.frac". */
  function DecimalValue(whole: string, frac: string): real
    requires AllDigits(whole) && AllDigits(frac)
  {
    DigitsValue(whole) as real + DigitsValue(frac) as real / Pow10(|frac|) as real
  }

  /**
   * `float(s)` for an optional sign, digits and at most one decimal point with at least
   * one digit in all; `None` where Python raises `ValueError`.
   */
  function ParseFloat(s: string): Option<real> {
    var pieces := Split(Unsigned(s), '.');
    if |pieces| == 1 then SignedDecimal(Negative(s), pieces[0], "")
    else if |pieces| == 2 then SignedDecimal(Negative(s), pieces[0], pieces[1])
    else None
  }

  /** Text `int()` accepts is read by `float()` as the same number. */
  lemma IntegerTextParsesAsFloat(s: string)
    requires ParseInt(s).Some?
    ensures ParseFloat(s) == Some(ParseInt(s).value as real)
  {
    DigitsNoDot(Unsigned(s));
    SplitNone(Unsigned(s), '.');
  }

  /** The number "whole.frac", negated when `negative`, if the two parts hold a digit in all. */
  function SignedDecimal(negative: bool, whole: string, frac: string): Option<real> {
    if AllDigits(whole) && AllDigits(frac) && |whole| + |frac| > 0 then
      var v := DecimalValue(whole, frac);
      Some(if negative then -v else v)
    else None
  }

  /**
   * `lap_time_sec`: `NoSeconds` when the text is empty, has no "days" or fewer than three
   * words; `Raised` when the third word is not three `:`-separated numbers (the
   * `ValueError` propagates out of `get_driver_lap_times`); else hours, minutes and
   * seconds of the third word. The day count is not read.
   */
  datatype LapSeconds = NoSeconds | Seconds(sec: real) | Raised

  function LapTimeSeconds(s: string): (r: LapSeconds)
    ensures !r.NoSeconds? ==> |s| > 0 && Contains(s, "days")
    ensures !r.NoSeconds? ==> |Words(s)| >= 3
  {
    if |s| == 0 || !Contains(s, "days") then NoSeconds else WordsSeconds(Words(s))
  }

  /** The seconds of the third whitespace-separated word, if there is one. */
  function WordsSeconds(parts: seq<string>): LapSeconds {
    if |parts| < 3 then NoSeconds else ClockFieldSeconds(parts[2])
  }

  /** `h, m, s = word.split(':')`: exactly three fields, each converted. */
  function ClockFieldSeconds(word: string): LapSeconds {
    var hms := Split(word, ':');
    if |hms| != 3 then Raised else ClockSeconds(ParseInt(hms[0]), ParseInt(hms[1]), ParseFloat(hms[2]))
  }

  /** `int(h) * 3600 + int(m) * 60 + float(s)`, or `Raised` when a conversion fails. */
  function ClockSeconds(h: Option<int>, m: Option<int>, sec: Option<real>): LapSeconds {
    if h.Some? && m.Some? && sec.Some? then Seconds((h.value * 3600 + m.value * 60) as real + sec.value)
    else Raised
  }

  // ---------------------------------------------------------------- the pandas format

  function Digit(d: nat): (c: char)
    requires d < 10
    ensures IsDigit(c) && c as int - '0' as int == d
  {
    ('0' as int + d) as char
  }

  /** The last `w` decimal digits of `n`, with leading zeros. */
  function PadDigits(n: nat, w: nat): (r: string)
    ensures |r| == w && AllDigits(r)
    decreases w
  {
    if w == 0 then "" else PadDigits(n / 10, w - 1) + [Digit(n % 10)]
  }

  /** The seconds field: two digits, then a point and six digits unless the microseconds are 0. */
  function SecondsText(s: nat, micros: nat): string {
    PadDigits(s, 2) + if micros == 0 then "" else "." + PadDigits(micros, 6)
  }

  /** "HH:MM:SS[.ffffff]". */
  function ClockText(h: nat, m: nat, s: nat, micros: nat): string {
    PadDigits(h, 2) + ":" + PadDigits(m, 2) + ":" + SecondsText(s, micros)
  }

  /** `str(pd.Timedelta(...))` for a duration under a day past `days` whole days. */
  function TimedeltaString(days: nat, h: nat, m: nat, s: nat, micros: nat): string
    requires h < 24 && m < 60 && s < 60 && micros < 1000000
  {
    NatToString(days) + " days " + ClockText(h, m, s, micros)
  }

  /**
   * A lap time in the stored format reads back as its length in seconds: hours, minutes,
   * seconds and microseconds; the day count is ignored.
   */
  lemma LapTimeRoundTrip(days: nat, h: nat, m: nat, s: nat, micros: nat)
    requires h < 24 && m < 60 && s < 60 && micros < 1000000
    ensures LapTimeSeconds(TimedeltaString(days, h, m, s, micros)) ==
      Seconds((h * 3600 + m * 60 + s) as real + micros as real / 1000000.0)
  {
    var clock := ClockText(h, m, s, micros);
    ClockWords(h, m, s, micros);
    NatToStringDigits(days);
    DigitsNoSpace(NatToString(days));
    DayContains(NatToString(days), clock);
    DayWords(NatToString(days), clock);
    ClockRoundTrip(h, m, s, micros);
  }

  /** The clock field alone reads back as hours, minutes and seconds. */
  lemma ClockRoundTrip(h: nat, m: nat, s: nat, micros: nat)
    requires h < 24 && m < 60 && s < 60 && micros < 1000000
    ensures ClockFieldSeconds(ClockText(h, m, s, micros)) ==
      Seconds((h * 3600 + m * 60 + s) as real + micros as real / 1000000.0)
  {
    var hh, mm, ss := PadDigits(h, 2), PadDigits(m, 2), SecondsText(s, micros);
    ClockSplit(h, m, s, micros);
    assert ClockFieldSeconds(ClockText(h, m, s, micros)) == ClockSeconds(ParseInt(hh), ParseInt(mm), ParseFloat(ss));
    PadDigitsValue(h, 2);
    PadDigitsValue(m, 2);
    assert ParseInt(hh) == Some(h);
    assert ParseInt(mm) == Some(m);
    SecondsField(s, micros);
    var frac := micros as real / 1000000.0;
    assert (h * 3600 + m * 60) as real + (s as real + frac) == (h * 3600 + m * 60 + s) as real + frac;
  }

  /** "D days CLOCK" has "days" in it. */
  lemma DayContains(d: string, clock: string)
    ensures Contains(d + " days " + clock, "days")
  {
    var text := d + " days " + clock;
    assert text[|d| + 1..|d| + 5] == "days";
    ContainsAt(text, "days", |d| + 1);
  }

  /** "D days CLOCK" splits on whitespace into its three words. */
  lemma DayWords(d: string, clock: string)
    requires |d| > 0 && NoSpace(d) && |clock| > 0 && NoSpace(clock)
    ensures Words(d + " days " + clock) == [d, "days", clock]
  {
    assert d + " days " + clock == d + " " + ("days" + " " + clock);
    assert NoSpace("days");
    WordsFront(d, "days" + " " + clock);
    WordsFront("days", clock);
    WordsSingle(clock);
  }

  lemma ClockWords(h: nat, m: nat, s: nat, micros: nat)
    ensures |ClockText(h, m, s, micros)| > 0 && NoSpace(ClockText(h, m, s, micros))
  {
    DigitsNoSpace(PadDigits(h, 2));
    DigitsNoSpace(PadDigits(m, 2));
    DigitsNoSpace(PadDigits(s, 2));
    DigitsNoSpace(PadDigits(micros, 6));
  }

  /** The clock splits on ':' into hours, minutes and the seconds field. */
  lemma ClockSplit(h: nat, m: nat, s: nat, micros: nat)
    ensures Split(ClockText(h, m, s, micros), ':') == [PadDigits(h, 2), PadDigits(m, 2), SecondsText(s, micros)]
  {
    var hh, mm, rest := PadDigits(h, 2), PadDigits(m, 2), SecondsText(s, micros);
    DigitsNoColon(hh);
    DigitsNoColon(mm);
    DigitsNoColon(PadDigits(s, 2));
    DigitsNoColon(PadDigits(micros, 6));
    assert ':' !in rest;
    assert ClockText(h, m, s, micros) == hh + [':'] + (mm + [':'] + rest);
    SplitFront(hh, mm + [':'] + rest, ':');
    SplitFront(mm, rest, ':');
    SplitNone(rest, ':');
  }

  /** The seconds field, with or without its microseconds, reads back with `float`. */
  lemma SecondsField(s: nat, micros: nat)
    requires s < 60 && micros < 1000000
    ensures ParseFloat(SecondsText(s, micros)) == Some(s as real + micros as real / 1000000.0)
  {
    var ss := PadDigits(s, 2);
    PadDigitsValue(s, 2);
    if micros == 0 {
      assert SecondsText(s, micros) == ss;
      FloatOfDigits(ss);
    } else {
      var us := PadDigits(micros, 6);
      PadDigitsValue(micros, 6);
      assert SecondsText(s, micros) == ss + ['.'] + us;
      FloatOfFraction(ss, us);
      assert Pow10(6) == 1000000;
    }
  }

  /** `float` of a run of digits is its value. */
  lemma FloatOfDigits(x: string)
    requires |x| > 0 && AllDigits(x)
    ensures ParseFloat(x) == Some(DigitsValue(x) as real)
  {
    assert Unsigned(x) == x;
    DigitsNoDot(x);
    SplitNone(x, '.');
    assert DigitsValue("") == 0 && Pow10(0) == 1;
    assert DecimalValue(x, "") == DigitsValue(x) as real;
  }

  /** `float` of "whole.frac" for digit runs `whole` and `frac`. */
  lemma FloatOfFraction(whole: string, frac: string)
    requires |whole| > 0 && AllDigits(whole) && AllDigits(frac)
    ensures ParseFloat(whole + ['.'] + frac) == Some(DecimalValue(whole, frac))
  {
    var x := whole + ['.'] + frac;
    assert Unsigned(x) == x;
    DigitsNoDot(whole);
    DigitsNoDot(frac);
    SplitFront(whole, frac, '.');
    SplitNone(frac, '.');
  }

  // ---------------------------------------------------------------- helpers

  lemma {:induction false} PadDigitsValue(n: nat, w: nat)
    requires n < Pow10(w)
    ensures DigitsValue(PadDigits(n, w)) == n
    decreases w
  {
    if w > 0 {
      var p := PadDigits(n, w);
      assert p[..w - 1] == PadDigits(n / 10, w - 1);
      assert n / 10 < Pow10(w - 1);
      PadDigitsValue(n / 10, w - 1);
    }
  }

  lemma {:induction false} NatToStringDigits(n: nat)
    ensures AllDigits(NatToString(n)) && |NatToString(n)| > 0
    decreases n
  {
    if n >= 10 {
      NatToStringDigits(n / 10);
    }
  }

  lemma DigitsNoSpace(s: string)
    requires AllDigits(s)
    ensures NoSpace(s)
  {
  }

  lemma DigitsNoColon(s: string)
    requires AllDigits(s)
    ensures ':' !in s
  {
  }

  lemma DigitsNoDot(s: string)
    requires AllDigits(s)
    ensures '.' !in s
  {
  }

  /** A word followed by a run of whitespace or by nothing is taken whole. */
  lemma {:induction false} TakeWordOf(w: string, tail: string)
    requires NoSpace(w)
    requires |tail| == 0 || IsSpace(tail[0])
    ensures TakeWord(w + tail) == w
    decreases |w|
  {
    if |w| == 0 {
      assert w + tail == tail;
    } else {
      assert (w + tail)[1..] == w[1..] + tail;
      TakeWordOf(w[1..], tail);
    }
  }

  /** Splitting "w rest" on whitespace gives `w`, then the words of `rest`. */
  lemma WordsFront(w: string, rest: string)
    requires |w| > 0 && NoSpace(w)
    ensures Words(w + " " + rest) == [w] + Words(rest)
  {
    var s := w + " " + rest;
    assert w + " " + rest == w + (" " + rest);
    TakeWordOf(w, " " + rest);
    assert DropSpaces(s) == s;
    assert s[|w|..] == " " + rest;
    assert (" " + rest)[1..] == rest;
    assert DropSpaces(" " + rest) == DropSpaces(rest);
  }

  lemma WordsSingle(w: string)
    requires |w| > 0 && NoSpace(w)
    ensures Words(w) == [w]
  {
    TakeWordOf(w, "");
    assert w + "" == w;
    assert DropSpaces(w) == w;
    assert w[|w|..] == "";
  }

  lemma {:induction false} SplitFront(a: string, rest: string, sep: char)
    requires sep !in a
    ensures Split(a + [sep] + rest, sep) == [a] + Split(rest, sep)
    decreases |a|
  {
    if |a| == 0 {
      assert a + [sep] + rest == [sep] + rest;
      assert ([sep] + rest)[1..] == rest;
    } else {
      assert (a + [sep] + rest)[1..] == a[1..] + [sep] + rest;
      SplitFront(a[1..], rest, sep);
      assert [a[0]] + a[1..] == a;
    }
  }

  lemma {:induction false} SplitNone(a: string, sep: char)
    requires sep !in a
    ensures Split(a, sep) == [a]
    decreases |a|
  {
    if |a| > 0 {
      SplitNone(a[1..], sep);
      assert [a[0]] + a[1..] == a;
    }
  }
}
