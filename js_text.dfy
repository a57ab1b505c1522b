/** The JavaScript string operations the front end relies on: `startsWith`,
    and `parseInt(s, 10)` with the ECMAScript rules (leading white space
    skipped, an optional sign, then the longest run of decimal digits; no digit
    at all gives `NaN`, modelled as `None`). Numbers are exact integers here,
    not doubles. */
module JsText {
  import opened Wrappers
  import opened Text

  predicate StartsWith(s: string, prefix: string) {
    |prefix| <= |s| && s[..|prefix|] == prefix
  }

  /** ECMAScript WhiteSpace and LineTerminator code points. */
  predicate IsJsSpace(c: char) {
    var v := c as int;
    (0x09 <= v <= 0x0D) || v == 0x20 || v == 0xA0 || v == 0x1680 || (0x2000 <= v <= 0x200A) ||
    v == 0x2028 || v == 0x2029 || v == 0x202F || v == 0x205F || v == 0x3000 || v == 0xFEFF
  }

  /** `s` without its leading white space. */
  function TrimStart(s: string): (r: string)
    ensures |r| <= |s| && r == s[|s| - |r|..]
    ensures |r| > 0 ==> !IsJsSpace(r[0])
    decreases |s|
  {
    if |s| > 0 && IsJsSpace(s[0]) then TrimStart(s[1..]) else s
  }

  /** The longest prefix of `s` made of decimal digits. */
  function LeadingDigits(s: string): (d: string)
    ensures |d| <= |s| && d == s[..|d|] && AllDigits(d)
    ensures |d| < |s| ==> !IsDigit(s[|d|])
    decreases |s|
  {
    if |s| > 0 && IsDigit(s[0]) then
      var d := [s[0]] + LeadingDigits(s[1..]);
      assert d[1..] == LeadingDigits(s[1..]);
      d
    else []
  }

  /** `parseInt(s, 10)` */
  function ParseInt(s: string): (r: Option<int>)
  {
    ParseSigned(TrimStart(s))
  }

  /** The sign and digits part of `parseInt`, on a string without leading
      white space. */
  function ParseSigned(t: string): (r: Option<int>)
  {
    var negative := |t| > 0 && t[0] == '-';
    var body := if |t| > 0 && (t[0] == '-' || t[0] == '+') then t[1..] else t;
    var digits := LeadingDigits(body);
    var value: int := DigitsValue(digits);
    if |digits| == 0 then None else Some(if negative then -value else value)
  }

  lemma {:induction false} LeadingDigitsStop(d: string, rest: string)
    requires AllDigits(d)
    requires |rest| == 0 || !IsDigit(rest[0])
    ensures LeadingDigits(d + rest) == d
    decreases |d|
  {
    if |d| > 0 {
      assert (d + rest)[1..] == d[1..] + rest;
      LeadingDigitsStop(d[1..], rest);
      assert d == [d[0]] + d[1..];
    } else {
      assert d + rest == rest;
    }
  }

  lemma TrimStartStops(s: string)
    requires |s| > 0 && !IsJsSpace(s[0])
    ensures TrimStart(s) == s
  {
  }

  lemma ParseIntOfDigits(d: string, rest: string)
    requires |d| >= 1 && AllDigits(d)
    requires |rest| == 0 || !IsDigit(rest[0])
    ensures ParseInt(d + rest) == Some(DigitsValue(d))
  {
    LeadingDigitsStop(d, rest);
    var s := d + rest;
    assert IsDigit(s[0]);
    TrimStartStops(s);
  }

  lemma ParseSignedMinus(s: string)
    ensures ParseSigned(['-'] + s) == if |LeadingDigits(s)| == 0 then None else Some(0 - DigitsValue(LeadingDigits(s)))
  {
    assert (['-'] + s)[1..] == s;
  }

  lemma {:induction false} ParseIntOfNegative(d: string, rest: string)
    requires |d| >= 1 && AllDigits(d)
    requires |rest| == 0 || !IsDigit(rest[0])
    ensures ParseInt(['-'] + (d + rest)) == Some(0 - DigitsValue(d))
  {
    LeadingDigitsStop(d, rest);
    TrimStartStops(['-'] + (d + rest));
    ParseSignedMinus(d + rest);
  }

  /** `parseInt` reads back what Go's `%d` printed, whatever follows it as
      long as that does not start with a digit. */
  lemma {:induction false} ParseIntOfDecimal(n: int, rest: string)
    requires |rest| == 0 || !IsDigit(rest[0])
    ensures ParseInt(Decimal(n) + rest) == Some(n)
  {
    var d := NatDigits(if n < 0 then -n else n);
    if n < 0 {
      calc {
        ParseInt(Decimal(n) + rest);
      == { assert Decimal(n) + rest == ['-'] + (d + rest); }
        ParseInt(['-'] + (d + rest));
      == { ParseIntOfNegative(d, rest); }
        Some(0 - DigitsValue(d));
      }
    } else {
      ParseIntOfDigits(d, rest);
    }
  }

  /** A string with no decimal digit is `NaN`. */
  lemma ParseIntWithoutDigits(s: string)
    requires forall i :: 0 <= i < |s| ==> !IsDigit(s[i])
    ensures ParseInt(s) == None
  {
    var t := TrimStart(s);
    var body := if |t| > 0 && (t[0] == '-' || t[0] == '+') then t[1..] else t;
    assert |body| > 0 ==> body[0] in s;
  }

  /** `parseInt(undefined, 10)` reads the text "undefined", which is `NaN`:
      the value a missing field gets. */
  lemma ParseIntOfUndefined()
    ensures ParseInt("undefined") == None
  {
    var u := "undefined";
    assert !IsDigit(u[0]) && !IsJsSpace(u[0]);
    TrimStartStops(u);
  }
}
