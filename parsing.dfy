/** The text conversions the reshaper applies to the kept rows. */
module Parsing {
  import opened Outcomes
  import opened Tables

  /** The range of the int64 column that `astype(int)` produces. */
  const Int64Min: int := -0x8000_0000_0000_0000
  const Int64Max: int := 0x7FFF_FFFF_FFFF_FFFF

  predicate IsDigit(c: char) {
    '0' <= c <= '9'
  }

  /** The ASCII blanks Python's `int()` skips around a literal. */
  predicate IsSpace(c: char) {
    c == ' ' || c == '\t' || c == '\n' || c == '\r' || c == '\U{000B}' || c == '\U{000C}'
  }

  predicate AllDigits(s: string) {
    forall i :: 0 <= i < |s| ==> IsDigit(s[i])
  }

  function DigitValue(c: char): nat
    requires IsDigit(c)
  {
    c as int - '0' as int
  }

  function DigitChar(d: nat): (c: char)
    requires d < 10
    ensures IsDigit(c) && DigitValue(c) == d
  {
    ('0' as int + d) as char
  }

  /** The value of a decimal digit string, most significant digit first. */
  function DigitsValue(s: string): nat
    requires AllDigits(s)
  {
    if s == [] then 0 else DigitsValue(s[..|s| - 1]) * 10 + DigitValue(s[|s| - 1])
  }

  /** `s` without its leading blanks. */
  function StripLeading(s: string): (r: string)
    ensures |r| <= |s| && r == s[|s| - |r|..]
    ensures forall i :: 0 <= i < |s| - |r| ==> IsSpace(s[i])
    ensures |r| > 0 ==> !IsSpace(r[0])
  {
    if |s| > 0 && IsSpace(s[0]) then
      var r := StripLeading(s[1..]);
      assert s[1..][|s| - 1 - |r|..] == s[|s| - |r|..];
      assert forall i :: 1 <= i < |s| ==> s[i] == s[1..][i - 1];
      r
    else s
  }

  /** `s` without its trailing blanks. */
  function StripTrailing(s: string): (r: string)
    ensures |r| <= |s| && r == s[..|r|]
    ensures forall i :: |r| <= i < |s| ==> IsSpace(s[i])
    ensures |r| > 0 ==> !IsSpace(r[|r| - 1])
  {
    if |s| > 0 && IsSpace(s[|s| - 1]) then
      var r := StripTrailing(s[..|s| - 1]);
      assert s[..|s| - 1][..|r|] == s[..|r|];
      assert forall i :: 0 <= i < |s| - 1 ==> s[i] == s[..|s| - 1][i];
      r
    else s
  }

  /**
   * Digits with single underscores between them, the digit part Python's
   * `int()` accepts: digit ("_"? digit)*.
   */
  predicate IsGroupedDigits(s: string)
    decreases |s|
  {
    && |s| > 0 && IsDigit(s[0])
    && (|s| == 1 || if s[1] == '_' then |s| > 2 && IsGroupedDigits(s[2..]) else IsGroupedDigits(s[1..]))
  }

  /** The digits of a grouped digit string, underscores removed. */
  function GroupDigits(s: string): (r: string)
    requires IsGroupedDigits(s)
    ensures |r| > 0 && AllDigits(r)
    decreases |s|
  {
    [s[0]] + if |s| == 1 then [] else if s[1] == '_' then GroupDigits(s[2..]) else GroupDigits(s[1..])
  }

  lemma {:induction false} PlainDigitsAreGrouped(s: string)
    requires |s| > 0 && AllDigits(s)
    ensures IsGroupedDigits(s) && GroupDigits(s) == s
    decreases |s|
  {
    if |s| > 1 {
      PlainDigitsAreGrouped(s[1..]);
    }
  }

  lemma {:induction false} GroupedAlphabet(s: string)
    requires IsGroupedDigits(s)
    ensures forall i :: 0 <= i < |s| ==> IsDigit(s[i]) || s[i] == '_'
    decreases |s|
  {
    if |s| > 1 {
      if s[1] == '_' {
        GroupedAlphabet(s[2..]);
        assert forall i :: 2 <= i < |s| ==> s[i] == s[2..][i - 2];
      } else {
        GroupedAlphabet(s[1..]);
        assert forall i :: 1 <= i < |s| ==> s[i] == s[1..][i - 1];
      }
    }
  }

  /** `int()` on text without surrounding blanks: an optional sign, then grouped digits. */
  function ParseSigned(t: string): Option<int> {
    var signed := |t| > 0 && (t[0] == '-' || t[0] == '+');
    var body := if signed then t[1..] else t;
    if IsGroupedDigits(body) then
      var n: int := DigitsValue(GroupDigits(body));
      Some(if signed && t[0] == '-' then -n else n)
    else
      None
  }

  /**
   * Python's `int(text)` in base 10 on a `str`, before any machine range
   * applies. Text read as an integer holds at least one digit.
   */
  function ParseInteger(text: string): (r: Option<int>)
    ensures r.Some? ==> exists i :: 0 <= i < |text| && IsDigit(text[i])
  {
    var l := StripLeading(text);
    var t := StripTrailing(l);
    var sign := if |t| > 0 && (t[0] == '-' || t[0] == '+') then 1 else 0;
    var r := ParseSigned(t);
    assert r.Some? ==> IsDigit(text[|text| - |l| + sign]) by {
      if r.Some? {
        assert IsDigit(t[sign]);
        assert l[sign] == t[sign];
      }
    }
    r
  }

  /** `astype(int)` on one cell: `int(text)`, which must also fit in an int64. */
  function CastInt(text: string): (r: Option<int>)
    ensures r.Some? ==> Int64Min <= r.value <= Int64Max
  {
    match ParseInteger(text)
    case Some(v) => if Int64Min <= v <= Int64Max then Some(v) else None
    case None => None
  }

  /** The decimal text Python's `str()` gives a natural number. */
  function NatText(n: nat): (s: string)
    ensures |s| > 0 && AllDigits(s)
    decreases n
  {
    if n < 10 then [DigitChar(n)] else NatText(n / 10) + [DigitChar(n % 10)]
  }

  /** The decimal text Python's `str()` gives an integer. */
  function IntText(v: int): string {
    if v < 0 then "-" + NatText(-v) else NatText(v)
  }

  lemma {:induction false} NatTextValue(n: nat)
    ensures DigitsValue(NatText(n)) == n
    decreases n
  {
    if n >= 10 {
      NatTextValue(n / 10);
      var s := NatText(n);
      assert s[..|s| - 1] == NatText(n / 10);
    }
  }

  lemma UnpaddedIsUnstripped(s: string)
    requires |s| > 0 && !IsSpace(s[0]) && !IsSpace(s[|s| - 1])
    ensures StripTrailing(StripLeading(s)) == s
  {
    assert StripLeading(s) == s;
  }

  /** `int()` on text with no blanks at either end reads its sign and digits directly. */
  lemma ParseUnpadded(t: string)
    requires |t| > 0 && !IsSpace(t[0]) && !IsSpace(t[|t| - 1])
    ensures ParseInteger(t) == ParseSigned(t)
  {
    UnpaddedIsUnstripped(t);
  }

  /** Unsigned grouped digits are read as the value of their digits. */
  lemma ParseSignedPlain(t: string)
    requires IsGroupedDigits(t)
    ensures ParseSigned(t) == Some(DigitsValue(GroupDigits(t)) as int)
  {
    assert !(t[0] == '-' || t[0] == '+');
  }

  /** A minus sign before grouped digits negates their value. */
  lemma ParseSignedMinus(t: string)
    requires |t| > 1 && t[0] == '-' && IsGroupedDigits(t[1..])
    ensures ParseSigned(t) == Some(-(DigitsValue(GroupDigits(t[1..])) as int))
  {
  }

  /** A plain digit string is read as its decimal value. */
  lemma ParseDigits(digits: string)
    requires |digits| > 0 && AllDigits(digits)
    ensures ParseInteger(digits) == Some(DigitsValue(digits))
  {
    PlainDigitsAreGrouped(digits);
    assert !IsSpace(digits[|digits| - 1]) by {
      assert IsDigit(digits[|digits| - 1]);
    }
    ParseUnpadded(digits);
    ParseSignedPlain(digits);
  }

  /** Text of a minus sign and digits has no blanks to strip. */
  lemma MinusDigitsUnpadded(text: string)
    requires |text| > 1 && text[0] == '-' && AllDigits(text[1..])
    ensures ParseInteger(text) == ParseSigned(text)
  {
    assert text[|text| - 1] == text[1..][|text| - 2];
    ParseUnpadded(text);
  }

  lemma SignedMinusDigits(text: string)
    requires |text| > 1 && text[0] == '-' && AllDigits(text[1..])
    ensures ParseSigned(text) == Some(-(DigitsValue(text[1..]) as int))
  {
    PlainDigitsAreGrouped(text[1..]);
    ParseSignedMinus(text);
  }

  /** A minus sign before a plain digit string negates its value. */
  lemma ParseNegDigits(text: string)
    requires |text| > 1 && text[0] == '-' && AllDigits(text[1..])
    ensures ParseInteger(text) == Some(-(DigitsValue(text[1..]) as int))
  {
    MinusDigitsUnpadded(text);
    SignedMinusDigits(text);
  }

  lemma ParseNatText(n: nat)
    ensures ParseInteger(NatText(n)) == Some(n)
  {
    NatTextValue(n);
    ParseDigits(NatText(n));
  }

  lemma ParseNegText(n: nat)
    requires n > 0
    ensures ParseInteger("-" + NatText(n)) == Some(-(n as int))
  {
    var digits := NatText(n);
    var text := "-" + digits;
    assert text[1..] == digits;
    NatTextValue(n);
    ParseNegDigits(text);
  }

  /** Every integer written in decimal is read back by `int()`. */
  lemma ParseIntegerRoundTrip(v: int)
    ensures ParseInteger(IntText(v)) == Some(v)
  {
    var text := IntText(v);
    if v < 0 {
      var n: nat := -v;
      assert text == "-" + NatText(n);
      ParseNegText(n);
    } else {
      ParseNatText(v);
    }
  }

  /** Every int64 survives being written in decimal and cast back. */
  lemma CastIntRoundTrip(v: int)
    requires Int64Min <= v <= Int64Max
    ensures CastInt(IntText(v)) == Some(v)
  {
    ParseIntegerRoundTrip(v);
  }

  /**
   * A cell holding any character other than a digit, a sign, an underscore
   * or a blank cannot be cast (the census feed's "(S)" suppression marker).
   */
  lemma CastIntAlphabet(text: string, i: int)
    requires 0 <= i < |text|
    requires !IsDigit(text[i]) && !IsSpace(text[i]) && text[i] != '+' && text[i] != '-' && text[i] != '_'
    ensures CastInt(text) == None
  {
    var l := StripLeading(text);
    var t := StripTrailing(l);
    var off := |text| - |l|;
    assert i >= off;
    var k := i - off;
    assert l[k] == text[i];
    assert k < |t|;
    assert t[k] == text[i];
    SignedAlphabet(t, k);
    assert ParseInteger(text) == None;
  }

  /** Unpadded text with a character outside digits, signs and underscores is not an integer. */
  lemma SignedAlphabet(t: string, k: int)
    requires 0 <= k < |t|
    requires !IsDigit(t[k]) && t[k] != '+' && t[k] != '-' && t[k] != '_'
    ensures ParseSigned(t) == None
  {
    var signed := |t| > 0 && (t[0] == '-' || t[0] == '+');
    var body := if signed then t[1..] else t;
    if signed {
      assert k > 0 && body[k - 1] == t[k];
    } else {
      assert body[k] == t[k];
    }
    if IsGroupedDigits(body) {
      GroupedAlphabet(body);
    }
  }

  /**
   * Whether the first day of a month lies within pandas' nanosecond timestamps
   * (1677-09-21 to 2262-04-11); later or earlier dates are out of bounds.
   */
  predicate InTimestampRange(year: int, month: int) {
    && (year > 1677 || (year == 1677 && month >= 10))
    && (year < 2262 || (year == 2262 && month <= 4))
  }

  /** `pd.to_datetime(text, format='%Y-%m')`: the first day of that month. */
  function ParsePeriod(text: string): (r: Option<Date>)
    ensures r.Some? ==> r.value.day == 1 && 1 <= r.value.month <= 12 && 0 <= r.value.year <= 9999
  {
    if |text| == 7 && AllDigits(text[..4]) && text[4] == '-' && AllDigits(text[5..]) then
      var year := DigitsValue(text[..4]);
      var month := DigitsValue(text[5..]);
      FourDigits(text[..4]);
      if 1 <= month <= 12 && InTimestampRange(year, month) then Some(Date(year, month, 1)) else None
    else
      None
  }

  /** A month written as `YYYY-MM`. */
  function PeriodText(d: Date): (s: string)
    requires 0 <= d.year <= 9999 && 1 <= d.month <= 12
    ensures |s| == 7
  {
    [DigitChar(d.year / 1000), DigitChar(d.year / 100 % 10), DigitChar(d.year / 10 % 10),
     DigitChar(d.year % 10), '-', DigitChar(d.month / 10), DigitChar(d.month % 10)]
  }

  lemma TwoDigits(s: string)
    requires |s| == 2 && AllDigits(s)
    ensures DigitsValue(s) == DigitValue(s[0]) * 10 + DigitValue(s[1])
  {
    assert s[..1][..0] == [];
    assert DigitsValue(s[..1]) == DigitValue(s[0]);
  }

  lemma FourDigits(s: string)
    requires |s| == 4 && AllDigits(s)
    ensures DigitsValue(s) ==
      ((DigitValue(s[0]) * 10 + DigitValue(s[1])) * 10 + DigitValue(s[2])) * 10 + DigitValue(s[3])
  {
    TwoDigits(s[..2]);
    assert s[..3][..2] == s[..2];
  }

  /** Every month within the timestamp range is read back from its `YYYY-MM` text. */
  lemma PeriodRoundTrip(d: Date)
    requires 1 <= d.month <= 12 && d.day == 1 && InTimestampRange(d.year, d.month)
    ensures ParsePeriod(PeriodText(d)) == Some(d)
  {
    var s := PeriodText(d);
    FourDigits(s[..4]);
    TwoDigits(s[5..]);
    Decimal4(d.year);
    assert DigitsValue(s[5..]) == d.month;
  }

  lemma Decimal4(y: int)
    requires 0 <= y <= 9999
    ensures (((y / 1000) * 10 + y / 100 % 10) * 10 + y / 10 % 10) * 10 + y % 10 == y
  {
    assert y / 100 == (y / 1000) * 10 + y / 100 % 10;
    assert y / 10 == (y / 100) * 10 + y / 10 % 10;
    assert y == (y / 10) * 10 + y % 10;
  }

  /** The decimal digits of a number below 10000, read off one by one. */
  lemma SplitDigits4(a: nat, b: nat, c: nat, d: nat)
    requires a < 10 && b < 10 && c < 10 && d < 10
    ensures var y := ((a * 10 + b) * 10 + c) * 10 + d;
      y / 1000 == a && y / 100 % 10 == b && y / 10 % 10 == c && y % 10 == d
  {
    var y := ((a * 10 + b) * 10 + c) * 10 + d;
    assert y / 10 == (a * 10 + b) * 10 + c;
    assert y / 100 == a * 10 + b;
    assert y / 1000 == a;
  }

  /**
   * A period is accepted only in the one spelling `PeriodText` writes, and
   * only for a month within the timestamp range.
   */
  lemma PeriodCanonical(text: string)
    requires ParsePeriod(text).Some?
    ensures InTimestampRange(ParsePeriod(text).value.year, ParsePeriod(text).value.month)
    ensures PeriodText(ParsePeriod(text).value) == text
  {
    var y := text[..4];
    FourDigits(y);
    TwoDigits(text[5..]);
    var d := ParsePeriod(text).value;
    assert d == Date(DigitsValue(y), DigitsValue(text[5..]), 1);
    SplitDigits4(DigitValue(y[0]), DigitValue(y[1]), DigitValue(y[2]), DigitValue(y[3]));
    SplitDigits4(0, 0, DigitValue(text[5]), DigitValue(text[6]));
    var s := PeriodText(d);
    assert s[0] == text[0] && s[1] == text[1] && s[2] == text[2] && s[3] == text[3];
    assert s[5] == text[5] && s[6] == text[6];
    assert s == text;
  }
}
