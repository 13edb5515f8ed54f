/**
 * The small pieces of JavaScript string behaviour the tracker relies on:
 * `Number.prototype.toString` on integers, `padStart(2, '0')`,
 * `split` on one separator character, `join`, `trim` and `Number(s)`.
 */
module Text {
  import opened Wrappers

  // ---------------------------------------------------------------- digits

  predicate IsDigit(c: char) { '0' <= c <= '9' }

  predicate IsDigits(s: string) { forall i :: 0 <= i < |s| ==> IsDigit(s[i]) }

  function DigitChar(d: nat): char
    requires d < 10
  {
    ('0' as int + d) as char
  }

  function DigitValue(c: char): nat
    requires IsDigit(c)
  {
    c as int - '0' as int
  }

  /** The natural number a string of decimal digits denotes, most significant digit first. */
  function DigitsValue(s: string): nat
    requires IsDigits(s)
  {
    if s == [] then 0 else 10 * DigitsValue(s[..|s| - 1]) + DigitValue(s[|s| - 1])
  }

  /** `n.toString()` for a non-negative integer: its decimal digits, most significant first. */
  function NatToString(n: nat): string
  {
    if n < 10 then [DigitChar(n)] else NatToString(n / 10) + [DigitChar(n % 10)]
  }

  /** The decimal text of `n` is a non-empty digit string denoting `n`, one digit long exactly below ten. */
  lemma {:induction false} NatToStringDigits(n: nat)
    ensures var s := NatToString(n);
      1 <= |s| && IsDigits(s) && DigitsValue(s) == n && (|s| == 1 <==> n < 10)
  {
    if n >= 10 {
      NatToStringDigits(n / 10);
      var prefix := NatToString(n / 10);
      var s := prefix + [DigitChar(n % 10)];
      assert s[..|s| - 1] == prefix;
    }
  }

  /** A digit string without a leading zero denotes a positive number. */
  lemma {:induction false} DigitsPositive(s: string)
    requires s != [] && IsDigits(s) && s[0] != '0'
    ensures DigitsValue(s) >= 1
  {
    if |s| > 1 {
      var init := s[..|s| - 1];
      assert init[0] == s[0];
      DigitsPositive(init);
    }
  }

  /** A digit string with no leading zero (or the single digit `0`) is the decimal text of the number it denotes. */
  lemma {:induction false} CanonicalDigits(s: string)
    requires s != [] && IsDigits(s) && (s[0] != '0' || |s| == 1)
    ensures NatToString(DigitsValue(s)) == s
  {
    if |s| == 1 {
      assert DigitsValue(s) == DigitValue(s[0]) by {
        assert s[..0] == [];
      }
      assert [DigitChar(DigitValue(s[0]))] == s;
    } else {
      var init := s[..|s| - 1];
      assert init[0] == s[0];
      DigitsPositive(init);
      CanonicalDigits(init);
      var n := DigitsValue(s);
      assert n / 10 == DigitsValue(init) && n % 10 == DigitValue(s[|s| - 1]);
      assert s == init + [DigitChar(n % 10)];
    }
  }

  /** Two digits are the zero-padded decimal text of the number they denote. */
  lemma TwoDigits(t: string)
    requires |t| == 2 && IsDigits(t)
    ensures Pad2(NatToString(DigitsValue(t))) == t
  {
    var a, b := DigitValue(t[0]), DigitValue(t[1]);
    assert DigitsValue(t[..1]) == a by {
      assert t[..1][..0] == [] && t[..1][0] == t[0];
    }
    assert DigitsValue(t) == 10 * a + b;
    if a == 0 {
      assert NatToString(b) == [t[1]];
      assert t == "0" + [t[1]];
    } else {
      var n := 10 * a + b;
      assert n / 10 == a && n % 10 == b;
      assert NatToString(a) == [t[0]];
      assert NatToString(n) == [t[0]] + [t[1]];
      assert t == [t[0]] + [t[1]];
    }
  }

  /** `i.toString()` for any integer: a minus sign in front of the digits of a negative one. */
  function IntToString(i: int): string
  {
    if i < 0 then "-" + NatToString(-i) else NatToString(i)
  }

  /** `s.padStart(2, '0')`. */
  function Pad2(s: string): string
  {
    if |s| >= 2 then s else if |s| == 1 then "0" + s else "00"
  }

  /** Padding puts zeros in front, up to two characters in all, and keeps `s` as the end. */
  lemma PadShape(s: string)
    ensures var r := Pad2(s);
      && |r| == (if |s| < 2 then 2 else |s|)
      && r[|r| - |s|..] == s
      && forall i :: 0 <= i < |r| - |s| ==> r[i] == '0'
  {
  }

  /** A digit string holds no other character. */
  lemma DigitsExclude(s: string, c: char)
    requires IsDigits(s) && !IsDigit(c)
    ensures c !in s
  {
  }

  /** A leading zero does not change the value of a digit string. */
  lemma {:induction false} LeadingZero(s: string)
    requires IsDigits(s)
    ensures IsDigits("0" + s) && DigitsValue("0" + s) == DigitsValue(s)
  {
    var z := "0" + s;
    if s != [] {
      var init := s[..|s| - 1];
      LeadingZero(init);
      assert z[..|z| - 1] == "0" + init;
      assert z[|z| - 1] == s[|s| - 1];
    }
  }

  /** Zero-padding keeps a digit string a digit string with the same value. */
  lemma PadDigits(s: string)
    requires IsDigits(s)
    ensures IsDigits(Pad2(s)) && DigitsValue(Pad2(s)) == DigitsValue(s)
  {
    if |s| == 1 {
      LeadingZero(s);
    } else if |s| == 0 {
      LeadingZero("0");
      assert "0" + "0" == "00";
    }
  }

  // ------------------------------------------------------------ split, join

  /** `parts.join(sep)`. */
  function Join(parts: seq<string>, sep: string): string
  {
    if |parts| == 0 then ""
    else if |parts| == 1 then parts[0]
    else parts[0] + sep + Join(parts[1..], sep)
  }

  /** `s.split(sep)` for a one-character separator: the maximal separator-free pieces, empty ones included. */
  function Split(s: string, sep: char): (parts: seq<string>)
    ensures |parts| >= 1
    ensures forall i :: 0 <= i < |parts| ==> sep !in parts[i]
  {
    if s == [] then [""]
    else
      var rest := Split(s[1..], sep);
      if s[0] == sep then [""] + rest else [[s[0]] + rest[0]] + rest[1..]
  }

  /** A separator-free prefix joins the first piece of what follows it. */
  lemma {:induction false} SplitPrefix(a: string, t: string, sep: char)
    requires sep !in a
    ensures Split(a + t, sep) == [a + Split(t, sep)[0]] + Split(t, sep)[1..]
  {
    if a != [] {
      assert (a + t)[0] == a[0];
      assert (a + t)[1..] == a[1..] + t;
      SplitPrefix(a[1..], t, sep);
      assert [a[0]] + (a[1..] + Split(t, sep)[0]) == a + Split(t, sep)[0];
    } else {
      assert a + t == t;
      assert a + Split(t, sep)[0] == Split(t, sep)[0];
      assert Split(t, sep) == [Split(t, sep)[0]] + Split(t, sep)[1..];
    }
  }

  /** Three pieces joined by a one-character separator. */
  lemma Join3(a: string, b: string, c: string, sep: char)
    ensures a + [sep] + b + [sep] + c == Join([a, b, c], [sep])
  {
    var parts := [a, b, c];
    assert parts[1..] == [b, c];
    assert parts[1..][1..] == [c];
    assert Join([b, c], [sep]) == b + [sep] + c;
    assert Join(parts, [sep]) == a + [sep] + (b + [sep] + c);
  }

  /** Splitting undoes joining, when no piece contains the separator. */
  lemma {:induction false} SplitJoin(parts: seq<string>, sep: char)
    requires |parts| >= 1
    requires forall i :: 0 <= i < |parts| ==> sep !in parts[i]
    ensures Split(Join(parts, [sep]), sep) == parts
  {
    if |parts| == 1 {
      SplitPrefix(parts[0], "", sep);
      assert parts[0] + "" == parts[0];
    } else {
      var tail := Join(parts[1..], [sep]);
      SplitJoin(parts[1..], sep);
      SplitPrefix(parts[0], [sep] + tail, sep);
      assert ([sep] + tail)[0] == sep && ([sep] + tail)[1..] == tail;
      assert Split([sep] + tail, sep) == [""] + Split(tail, sep);
      assert Join(parts, [sep]) == parts[0] + ([sep] + tail);
      assert parts[0] + "" == parts[0];
      assert parts == [parts[0]] + parts[1..];
    }
  }

  /** Joining undoes splitting. */
  lemma {:induction false} JoinSplit(s: string, sep: char)
    ensures Join(Split(s, sep), [sep]) == s
  {
    if s != [] {
      var rest := Split(s[1..], sep);
      JoinSplit(s[1..], sep);
      if s[0] == sep {
        assert s == [sep] + s[1..];
      } else {
        var parts := [[s[0]] + rest[0]] + rest[1..];
        assert parts[1..] == rest[1..];
        if |rest| == 1 {
          assert s == [s[0]] + rest[0];
        } else {
          assert Join(rest, [sep]) == rest[0] + [sep] + Join(rest[1..], [sep]);
          assert s == [s[0]] + rest[0] + [sep] + Join(rest[1..], [sep]);
        }
      }
    }
  }

  // ------------------------------------------------------------------- trim

  /** The characters JavaScript's `trim` removes: WhiteSpace and LineTerminator of ECMA-262. */
  predicate IsSpace(c: char)
  {
    || '\t' <= c <= '\r'              // tab, line feed, vertical tab, form feed, carriage return
    || c == ' ' || c == '\U{00A0}' || c == '\U{1680}'
    || '\U{2000}' <= c <= '\U{200A}'
    || c == '\U{2028}' || c == '\U{2029}' || c == '\U{202F}' || c == '\U{205F}'
    || c == '\U{3000}' || c == '\U{FEFF}'
  }

  predicate IsBlank(s: string) { forall i :: 0 <= i < |s| ==> IsSpace(s[i]) }

  /** `s` without its leading white space. */
  function TrimStart(s: string): string
  {
    if s != [] && IsSpace(s[0]) then TrimStart(s[1..]) else s
  }

  /** `s` without its trailing white space. */
  function TrimEnd(s: string): string
  {
    if s != [] && IsSpace(s[|s| - 1]) then TrimEnd(s[..|s| - 1]) else s
  }

  /** What `TrimStart` removes is a blank prefix, and what it keeps does not start with white space. */
  lemma {:induction false} TrimStartShape(s: string)
    ensures var r := TrimStart(s);
      && |r| <= |s| && r == s[|s| - |r|..]
      && IsBlank(s[..|s| - |r|])
      && (r == [] || !IsSpace(r[0]))
  {
    if s != [] && IsSpace(s[0]) {
      TrimStartShape(s[1..]);
      var r := TrimStart(s[1..]);
      assert s[..|s| - |r|] == [s[0]] + s[1..][..|s| - 1 - |r|];
    }
  }

  /** What `TrimEnd` removes is a blank suffix, and what it keeps does not end with white space. */
  lemma {:induction false} TrimEndShape(s: string)
    ensures var r := TrimEnd(s);
      && |r| <= |s| && r == s[..|r|]
      && IsBlank(s[|r|..])
      && (r == [] || !IsSpace(r[|r| - 1]))
  {
    if s != [] && IsSpace(s[|s| - 1]) {
      TrimEndShape(s[..|s| - 1]);
      var r := TrimEnd(s[..|s| - 1]);
      assert s[|r|..] == s[..|s| - 1][|r|..] + [s[|s| - 1]];
    }
  }

  /**
   * `s.trim()`: the part of `s` between its leading and its trailing white space;
   * it is empty exactly when `s` is all white space.
   */
  function Trim(s: string): (r: string)
    ensures r == [] <==> IsBlank(s)
    ensures r == [] || (!IsSpace(r[0]) && !IsSpace(r[|r| - 1]))
  {
    var t := TrimStart(s);
    TrimStartShape(s);
    var r := TrimEnd(t);
    TrimEndShape(t);
    assert r == s[|s| - |t|..|s| - |t| + |r|];
    BlankSplit(s, |s| - |t|);
    r
  }

  /**
   * The trim is a slice of `s` that only white space surrounds; with the
   * ensures of `Trim` about its two ends, this says it is the longest such slice.
   */
  lemma TrimShape(s: string)
    ensures exists i, j :: 0 <= i <= j <= |s| && Trim(s) == s[i..j] && IsBlank(s[..i]) && IsBlank(s[j..])
  {
    var t := TrimStart(s);
    TrimStartShape(s);
    var r := TrimEnd(t);
    TrimEndShape(t);
    var i, j := |s| - |t|, |s| - |t| + |r|;
    assert Trim(s) == r == s[i..j];
    assert s[j..] == t[|r|..];
  }

  /** A string is blank exactly when both parts of any cut of it are. */
  lemma BlankSplit(s: string, k: nat)
    requires k <= |s|
    ensures IsBlank(s) <==> IsBlank(s[..k]) && IsBlank(s[k..])
  {
    if IsBlank(s[..k]) && IsBlank(s[k..]) {
      forall i | 0 <= i < |s| ensures IsSpace(s[i]) {
        if i < k {
          assert s[i] == s[..k][i];
        } else {
          assert s[i] == s[k..][i - k];
        }
      }
    }
  }

  /** A string that neither starts nor ends with white space is its own trim. */
  lemma TrimNoSpace(s: string)
    requires s != [] && !IsSpace(s[0]) && !IsSpace(s[|s| - 1])
    ensures Trim(s) == s
  {
  }

  /** Trimming twice is trimming once. */
  lemma TrimIdempotent(s: string)
    ensures Trim(Trim(s)) == Trim(s)
  {
    if Trim(s) != [] {
      TrimNoSpace(Trim(s));
    }
  }

  // ----------------------------------------------------------------- Number

  /**
   * `Number(s)` on the strings the tracker parses, `None` standing for NaN:
   * surrounding white space is ignored, a blank string is 0, and an optional
   * sign followed by decimal digits is that integer.
   */
  function JsNumber(s: string): (r: Option<int>)
    ensures IsBlank(s) ==> r == Some(0)
    ensures r.Some? && !IsBlank(s) ==> IsDigit(Trim(s)[|Trim(s)| - 1])
  {
    var t := Trim(s);
    if t == [] then Some(0)
    else if IsDigits(t) then Some(DigitsValue(t))
    else if |t| > 1 && (t[0] == '+' || t[0] == '-') && IsDigits(t[1..]) then
      var v: int := DigitsValue(t[1..]);
      Some(if t[0] == '-' then -v else v)
    else None
  }

  /** A non-empty digit string reads as the number it denotes. */
  lemma JsNumberDigits(s: string)
    requires s != [] && IsDigits(s)
    ensures JsNumber(s) == Some(DigitsValue(s))
  {
    assert IsDigit(s[0]) && IsDigit(s[|s| - 1]);
    TrimNoSpace(s);
  }

  /** A sign followed by a non-empty digit string reads as that integer, negated for `-`. */
  lemma JsNumberSigned(s: string)
    requires |s| > 1 && (s[0] == '+' || s[0] == '-') && IsDigits(s[1..])
    ensures var v: int := DigitsValue(s[1..]); JsNumber(s) == Some(if s[0] == '-' then -v else v)
  {
    assert IsDigit(s[1..][|s| - 2]);
    TrimNoSpace(s);
    assert !IsDigit(s[0]);
  }

  /** A zero-padded field holds no separator that is not a digit, and reads back as its number. */
  lemma PaddedField(n: nat, sep: char)
    requires !IsDigit(sep)
    ensures sep !in Pad2(NatToString(n)) && JsNumber(Pad2(NatToString(n))) == Some(n)
  {
    NatToStringDigits(n);
    PadDigits(NatToString(n));
    DigitsExclude(Pad2(NatToString(n)), sep);
    JsNumberPadded(n);
  }

  /** `Number` reads back the zero-padded decimal text of any natural number. */
  lemma JsNumberPadded(n: nat)
    ensures JsNumber(Pad2(NatToString(n))) == Some(n)
  {
    var s := NatToString(n);
    NatToStringDigits(n);
    PadDigits(s);
    PadShape(s);
    JsNumberDigits(Pad2(s));
  }
}
