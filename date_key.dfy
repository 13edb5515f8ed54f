/**
 * The day key: a calendar date written `YYYY-MM-DD` (`formatYMD`), under
 * which a day's ledger is stored, and the field reading `parseYMD` starts
 * from.
 */
module DateKey {
  import opened Wrappers
  import opened Text

  /**
   * The fields of a day key: year, month and day as `parseYMD` reads them,
   * before `new Date` normalises them; nothing bounds the month or the day.
   */
  datatype Ymd = Ymd(year: int, month: int, day: int)

  /** `formatYMD(date)`: the year as written by `toString`, then the month and the day padded to two digits. */
  function FormatYMD(d: Ymd): string
  {
    IntToString(d.year) + "-" + Pad2(IntToString(d.month)) + "-" + Pad2(IntToString(d.day))
  }

  /**
   * The fields `parseYMD` hands to `new Date(y, m - 1, d)`: the text split on
   * `-`, the first three pieces read by `Number`. `None` when there are fewer
   * than three pieces or one of them is NaN; further pieces are ignored.
   */
  function ParseYMD(s: string): (r: Option<Ymd>)
    ensures r.Some? ==> |Split(s, '-')| >= 3
    ensures r.Some? ==> JsNumber(Split(s, '-')[0]) == Some(r.value.year)
    ensures r.Some? ==> JsNumber(Split(s, '-')[1]) == Some(r.value.month)
    ensures r.Some? ==> JsNumber(Split(s, '-')[2]) == Some(r.value.day)
  {
    var parts := Split(s, '-');
    if |parts| < 3 then None
    else match (JsNumber(parts[0]), JsNumber(parts[1]), JsNumber(parts[2]))
      case (Some(y), Some(m), Some(d)) => Some(Ymd(y, m, d))
      case _ => None
  }

  /** The three digit pieces of a formatted date with a non-negative year, each read back as its number. */
  lemma Pieces(d: Ymd)
    requires d.year >= 0 && d.month >= 0 && d.day >= 0
    ensures '-' !in IntToString(d.year) && JsNumber(IntToString(d.year)) == Some(d.year)
    ensures '-' !in Pad2(IntToString(d.month)) && JsNumber(Pad2(IntToString(d.month))) == Some(d.month)
    ensures '-' !in Pad2(IntToString(d.day)) && JsNumber(Pad2(IntToString(d.day))) == Some(d.day)
  {
    assert IntToString(d.year) == NatToString(d.year);
    assert IntToString(d.month) == NatToString(d.month);
    assert IntToString(d.day) == NatToString(d.day);
    YearPiece(d.year);
    PaddedField(d.month, '-');
    PaddedField(d.day, '-');
  }

  lemma YearPiece(n: nat)
    ensures '-' !in NatToString(n) && JsNumber(NatToString(n)) == Some(n)
  {
    NatToStringDigits(n);
    DigitsExclude(NatToString(n), '-');
    JsNumberDigits(NatToString(n));
  }

  /** Three separator-free pieces that read as numbers, joined by `-`, read back as those numbers. */
  lemma ParseJoined(a: string, b: string, c: string, d: Ymd)
    requires '-' !in a && '-' !in b && '-' !in c
    requires JsNumber(a) == Some(d.year) && JsNumber(b) == Some(d.month) && JsNumber(c) == Some(d.day)
    ensures ParseYMD(a + "-" + b + "-" + c) == Some(d)
  {
    Join3(a, b, c, '-');
    SplitJoin([a, b, c], '-');
  }

  /** Reading a formatted date gives back its fields, for a year that is not negative. */
  lemma ParseFormatYMD(d: Ymd)
    requires d.year >= 0 && d.month >= 0 && d.day >= 0
    ensures ParseYMD(FormatYMD(d)) == Some(d)
  {
    Pieces(d);
    ParseJoined(IntToString(d.year), Pad2(IntToString(d.month)), Pad2(IntToString(d.day)), d);
  }

  /**
   * Conversely, every key of the shape `formatYMD` writes (a year without a
   * leading zero, two-digit month and day) is read into the date whose
   * formatting gives that key back.
   */
  lemma FormatParseYMD(y: string, mm: string, dd: string)
    requires y != [] && IsDigits(y) && (y[0] != '0' || |y| == 1)
    requires |mm| == 2 && IsDigits(mm) && |dd| == 2 && IsDigits(dd)
    ensures var s := y + "-" + mm + "-" + dd;
      ParseYMD(s).Some? && FormatYMD(ParseYMD(s).value) == s
  {
    var d := Ymd(DigitsValue(y), DigitsValue(mm), DigitsValue(dd));
    JsNumberDigits(y);
    JsNumberDigits(mm);
    JsNumberDigits(dd);
    DigitsExclude(y, '-');
    DigitsExclude(mm, '-');
    DigitsExclude(dd, '-');
    ParseJoined(y, mm, dd, d);
    CanonicalDigits(y);
    TwoDigits(mm);
    TwoDigits(dd);
  }

  /** Two such dates share a key only when they are the same date. */
  lemma FormatYMDInjective(d: Ymd, e: Ymd)
    requires d.year >= 0 && d.month >= 0 && d.day >= 0
    requires e.year >= 0 && e.month >= 0 && e.day >= 0
    requires FormatYMD(d) == FormatYMD(e)
    ensures d == e
  {
    ParseFormatYMD(d);
    ParseFormatYMD(e);
  }

  /** The repository test's date: 19 November 2025. */
  lemma FormatExample()
    ensures FormatYMD(Ymd(2025, 11, 19)) == "2025-11-19"
  {
    assert NatToString(2025) == "2025" by {
      assert NatToString(2) == "2";
      assert NatToString(20) == "20";
      assert NatToString(202) == "202";
    }
    assert NatToString(11) == "11" by {
      assert NatToString(1) == "1";
    }
    assert NatToString(19) == "19" by {
      assert NatToString(1) == "1";
    }
  }
}
