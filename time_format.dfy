/**
 * Duration text: milliseconds shown as `HH:MM:SS` (`formatTime`) and the
 * `HH:MM:SS` text a user types when adjusting a task read back as
 * milliseconds (`parseTimeToMs`).
 */
module TimeFormat {
  import opened Wrappers
  import opened Text

  /** JavaScript's `a % b` for a positive divisor: the remainder has the sign of `a`. */
  function JsRem(a: int, b: int): int
    requires b > 0
  {
    if a >= 0 then a % b else -((-a) % b)
  }

  /** Hours, minutes and seconds, each zero-padded to at least two characters, joined by `:`. */
  function Clock(h: int, m: int, s: int): string
  {
    Pad2(IntToString(h)) + ":" + Pad2(IntToString(m)) + ":" + Pad2(IntToString(s))
  }

  /**
   * `formatTime(ms)`. `Math.floor(x / k)` with `k > 0` is Dafny's `x / k`;
   * the two `%` are JavaScript's, which keep the sign of a negative duration.
   */
  function FormatTime(ms: int): string
  {
    var seconds := ms / 1000;
    var hours := seconds / 3600;
    var minutes := JsRem(seconds, 3600) / 60;
    var rest := JsRem(seconds, 60);
    Clock(hours, minutes, rest)
  }

  /** The three fields of `HH:MM:SS` text, when `parseTimeToMs` accepts it. */
  function ParseFields(str: string): Option<(int, int, int)>
  {
    var parts := Split(str, ':');
    if |parts| != 3 then None
    else InRange(JsNumber(parts[0]), JsNumber(parts[1]), JsNumber(parts[2]))
  }

  /** The range check on the three numbers: hours non-negative, minutes and seconds in 0..59, none NaN. */
  function InRange(h: Option<int>, m: Option<int>, s: Option<int>): Option<(int, int, int)>
  {
    match (h, m, s)
    case (Some(h), Some(m), Some(s)) =>
      if h < 0 || m < 0 || m > 59 || s < 0 || s > 59 then None else Some((h, m, s))
    case _ => None
  }

  /**
   * `parseTimeToMs(str)`: the duration `HH:MM:SS` denotes in milliseconds, or
   * `None` (the source's `null`) for text that is not three numbers with
   * non-negative hours and minutes and seconds in 0..59.
   */
  function ParseTimeToMs(str: string): (r: Option<int>)
    ensures r.Some? <==> ParseFields(str).Some?
    ensures r.Some? ==> r.value >= 0
    ensures r.Some? ==>
      var (h, m, s) := ParseFields(str).value;
      r.value == ((h * 3600) + (m * 60) + s) * 1000
  {
    match ParseFields(str)
    case Some((h, m, s)) => Some(((h * 3600) + (m * 60) + s) * 1000)
    case None => None
  }

  // ------------------------------------------------------------ round trips

  /** Division by a positive constant, pinned down by quotient and remainder. */
  lemma DivMod(x: int, d: int, q: int, r: int)
    requires d in {60, 1000, 3600} && x == q * d + r && 0 <= r < d
    ensures x / d == q && x % d == r
  {
    if d == 60 {
      assert x == q * 60 + r;
    } else if d == 1000 {
      assert x == q * 1000 + r;
    } else {
      assert x == q * 3600 + r;
    }
  }

  /** A whole number of seconds splits into hours, minutes under 60 and seconds under 60. */
  lemma ClockFields(sec: nat)
    ensures 0 <= (sec % 3600) / 60 <= 59 && 0 <= sec % 60 <= 59
    ensures (sec / 3600) * 3600 + ((sec % 3600) / 60) * 60 + sec % 60 == sec
  {
    var q, r := sec / 3600, sec % 3600;
    var m, s := r / 60, r % 60;
    assert sec == q * 3600 + m * 60 + s;
    DivMod(sec, 60, q * 60 + m, s);
  }

  /** For a non-negative duration `formatTime` is the clock of its hours, minutes and seconds. */
  lemma FormatTimeNonNegative(ms: int)
    requires ms >= 0
    ensures
      var sec := ms / 1000;
      FormatTime(ms) == Clock(sec / 3600, (sec % 3600) / 60, sec % 60)
  {
  }

  /** Three separator-free numeric fields in range, joined by `:`, parse back to their numbers. */
  lemma ParseJoined(a: string, b: string, c: string, h: int, m: int, s: int)
    requires ':' !in a && ':' !in b && ':' !in c
    requires JsNumber(a) == Some(h) && JsNumber(b) == Some(m) && JsNumber(c) == Some(s)
    requires h >= 0 && 0 <= m <= 59 && 0 <= s <= 59
    ensures ParseFields(a + ":" + b + ":" + c) == Some((h, m, s))
  {
    Join3(a, b, c, ':');
    SplitJoin([a, b, c], ':');
  }

  /** The same with minutes or seconds out of range: refused. */
  lemma RejectJoined(a: string, b: string, c: string, h: int, m: int, s: int)
    requires ':' !in a && ':' !in b && ':' !in c
    requires JsNumber(a) == Some(h) && JsNumber(b) == Some(m) && JsNumber(c) == Some(s)
    requires m > 59 || s > 59
    ensures ParseFields(a + ":" + b + ":" + c) == None
  {
    Join3(a, b, c, ':');
    SplitJoin([a, b, c], ':');
  }

  /** The clock text of three natural numbers in range parses back to exactly those fields. */
  lemma ParseClock(h: nat, m: nat, s: nat)
    requires m <= 59 && s <= 59
    ensures ParseFields(Clock(h, m, s)) == Some((h, m, s))
  {
    PaddedField(h, ':');
    PaddedField(m, ':');
    PaddedField(s, ':');
    ParseJoined(Pad2(NatToString(h)), Pad2(NatToString(m)), Pad2(NatToString(s)), h, m, s);
  }

  /** The clock text of fields of which one is out of range is refused. */
  lemma ParseClockRejects(h: nat, m: nat, s: nat)
    requires m > 59 || s > 59
    ensures ParseTimeToMs(Clock(h, m, s)) == None
  {
    PaddedField(h, ':');
    PaddedField(m, ':');
    PaddedField(s, ':');
    RejectJoined(Pad2(NatToString(h)), Pad2(NatToString(m)), Pad2(NatToString(s)), h, m, s);
  }

  /** Formatting a duration and parsing the text back gives the duration rounded down to whole seconds. */
  lemma ParseFormatRoundTrip(ms: int)
    requires ms >= 0
    ensures ParseTimeToMs(FormatTime(ms)) == Some((ms / 1000) * 1000)
  {
    var sec := ms / 1000;
    var h, m, s := sec / 3600, (sec % 3600) / 60, sec % 60;
    ClockFields(sec);
    FormatTimeNonNegative(ms);
    ParseClock(h, m, s);
    ParseOfFields(FormatTime(ms), h, m, s);
    assert (h * 3600 + m * 60 + s) * 1000 == sec * 1000;
  }

  /** Accepted fields are in range. */
  lemma FieldsInRange(str: string)
    requires ParseFields(str).Some?
    ensures var f := ParseFields(str).value; f.0 >= 0 && 0 <= f.1 <= 59 && 0 <= f.2 <= 59
  {
  }

  /** `parseTimeToMs` in terms of the fields it read. */
  lemma ParseOfFields(str: string, h: int, m: int, s: int)
    requires ParseFields(str) == Some((h, m, s))
    ensures ParseTimeToMs(str) == Some(((h * 3600) + (m * 60) + s) * 1000)
  {
    assert ParseTimeToMs(str).Some?;
    assert ParseTimeToMs(str).value == ((h * 3600) + (m * 60) + s) * 1000;
  }

  /**
   * Text that parses is shown again as the clock of its own fields, so a
   * parsed duration survives formatting and parsing unchanged.
   */
  lemma FormatParseRoundTrip(str: string, ms: int)
    requires ParseTimeToMs(str) == Some(ms)
    ensures FormatTime(ms) == Clock(ParseFields(str).value.0, ParseFields(str).value.1, ParseFields(str).value.2)
    ensures ParseTimeToMs(FormatTime(ms)) == Some(ms)
  {
    var f := ParseFields(str).value;
    FieldsInRange(str);
    ParseOfFields(str, f.0, f.1, f.2);
    ClockRoundTrip(f.0, f.1, f.2, ms);
  }

  lemma ClockRoundTrip(h: int, m: int, s: int, ms: int)
    requires h >= 0 && 0 <= m <= 59 && 0 <= s <= 59
    requires ms == ((h * 3600) + (m * 60) + s) * 1000
    ensures FormatTime(ms) == Clock(h, m, s)
    ensures ParseTimeToMs(FormatTime(ms)) == Some(ms)
  {
    ClockOfSeconds(h, m, s);
    ParseFormatRoundTrip(ms);
  }

  /** The clock of a duration built from in-range fields shows those fields. */
  lemma ClockOfSeconds(h: int, m: int, s: int)
    requires h >= 0 && 0 <= m <= 59 && 0 <= s <= 59
    ensures
      var v := ((h * 3600) + (m * 60) + s) * 1000;
      v >= 0 && v / 1000 * 1000 == v && FormatTime(v) == Clock(h, m, s)
  {
    var sec := (h * 3600) + (m * 60) + s;
    var v := sec * 1000;
    DivMod(v, 1000, sec, 0);
    DivMod(sec, 3600, h, m * 60 + s);
    DivMod(m * 60 + s, 60, m, s);
    DivMod(sec, 60, h * 60 + m, s);
    FormatTimeNonNegative(v);
  }

  // ---------------------------------------------------------------- examples

  /** One hour, two minutes and three seconds. */
  lemma Example()
    ensures FormatTime(3723000) == "01:02:03"
  {
    assert NatToString(1) == "1" && NatToString(2) == "2" && NatToString(3) == "3";
    ClockOfSeconds(1, 2, 3);
  }

  /** The same text parses back to the same duration. */
  lemma ParseExample()
    ensures ParseTimeToMs("01:02:03") == Some(3723000)
  {
    Example();
    ClockRoundTrip(1, 2, 3, 3723000);
  }
}
