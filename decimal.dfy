/** Decimal text as the C library reads and SQLite writes it: `strtol` and
    `strtoul` in base 10 and the text form of an INTEGER column. */
module Decimal {

  const LONG_MIN: int := -0x8000_0000_0000_0000
  const LONG_MAX: int := 0x7FFF_FFFF_FFFF_FFFF
  const ULONG_MAX: int := 0xFFFF_FFFF_FFFF_FFFF

  predicate IsDigit(c: char) {
    '0' <= c <= '9'
  }

  predicate AllDigits(s: string) {
    forall i :: 0 <= i < |s| ==> IsDigit(s[i])
  }

  function DigitValue(c: char): nat
    requires IsDigit(c)
  {
    (c as int) - ('0' as int)
  }

  function DigitChar(d: nat): (c: char)
    requires d < 10
    ensures IsDigit(c) && DigitValue(c) == d
  {
    (('0' as int) + d) as char
  }

  /** The number a string of decimal digits denotes, most significant first. */
  function DigitsValue(s: string): nat
    requires AllDigits(s)
  {
    if s == [] then 0 else DigitsValue(s[..|s| - 1]) * 10 + DigitValue(s[|s| - 1])
  }

  /** The shortest decimal numeral of `n`. */
  function Digits(n: nat): (s: string)
    ensures |s| > 0 && AllDigits(s)
  {
    if n < 10 then [DigitChar(n)] else Digits(n / 10) + [DigitChar(n % 10)]
  }

  lemma {:induction false} DigitsValueOfDigits(n: nat)
    ensures DigitsValue(Digits(n)) == n
  {
    if n >= 10 {
      var s := Digits(n);
      assert s[..|s| - 1] == Digits(n / 10);
      DigitsValueOfDigits(n / 10);
    }
  }

  /** How many digits stand at the start of `s`: where `strtol` and
      `strtoul` stop reading. */
  function DigitRun(s: string): (k: nat)
    ensures k <= |s| && AllDigits(s[..k])
    ensures k < |s| ==> !IsDigit(s[k])
  {
    if s == [] || !IsDigit(s[0]) then 0
    else
      var k := 1 + DigitRun(s[1..]);
      assert s[..k] == [s[0]] + s[1..][..k - 1];
      k
  }

  /** White space as `isspace` sees it in the C locale. */
  predicate IsSpace(c: char) {
    c == ' ' || '\t' <= c <= '\r'
  }

  /** How much white space stands at the start of `s`: what both
      conversions skip first. */
  function SpaceRun(s: string): (k: nat)
    ensures k <= |s|
    ensures forall i :: 0 <= i < k ==> IsSpace(s[i])
    ensures k < |s| ==> !IsSpace(s[k])
  {
    if s == [] || !IsSpace(s[0]) then 0 else 1 + SpaceRun(s[1..])
  }

  /** Where the sign of a numeral may stand: after the white space. */
  function SignLength(s: string, w: nat): (n: nat)
    requires w <= |s|
    ensures w + n <= |s|
  {
    if w < |s| && (s[w] == '-' || s[w] == '+') then 1 else 0
  }

  /** What a conversion reports: the value, the index `end` of the first
      character not converted (`endptr - str`), and whether `errno` was set
      to ERANGE. */
  datatype Conversion = Conversion(value: int, end: nat, range: bool)

  /** Where the digits of the numeral in `s` begin: after the white space
      and the sign. */
  function NumeralStart(s: string): (start: nat)
    ensures start <= |s|
  {
    SpaceRun(s) + SignLength(s, SpaceRun(s))
  }

  /** The numeral in `s` has a minus sign. */
  predicate Negative(s: string) {
    SignLength(s, SpaceRun(s)) == 1 && s[SpaceRun(s)] == '-'
  }

  /** The digits a conversion reads: the longest digit run at the start of
      the numeral. */
  function LeadingDigits(s: string): (d: string)
    ensures AllDigits(d) && NumeralStart(s) + |d| <= |s|
    ensures d == s[NumeralStart(s)..NumeralStart(s) + |d|]
    ensures NumeralStart(s) + |d| < |s| ==> !IsDigit(s[NumeralStart(s) + |d|])
  {
    var rest := s[NumeralStart(s)..];
    var k := DigitRun(rest);
    assert k < |rest| ==> rest[k] == s[NumeralStart(s) + k];
    rest[..k]
  }

  /** When everything after the sign is digits, all of it is read. */
  lemma LeadingDigitsToEnd(s: string)
    ensures NumeralStart(s) < |s| && AllDigits(s[NumeralStart(s)..]) ==> LeadingDigits(s) == s[NumeralStart(s)..]
  {
    var st := NumeralStart(s);
    var d := LeadingDigits(s);
    if st < |s| && AllDigits(s[st..]) {
      forall i | st <= i < |s|
        ensures IsDigit(s[i])
      {
        assert s[st..][i - st] == s[i];
      }
    }
  }

  /** The `strtol` result for a numeral whose digits `d` start at `start`. */
  function SignedValue(negative: bool, d: string, start: nat): Conversion
    requires AllDigits(d)
  {
    if d == [] then Conversion(0, 0, false)
    else
      var magnitude: int := DigitsValue(d);
      var v := if negative then -magnitude else magnitude;
      if v > LONG_MAX then Conversion(LONG_MAX, start + |d|, true)
      else if v < LONG_MIN then Conversion(LONG_MIN, start + |d|, true)
      else Conversion(v, start + |d|, false)
  }

  /** A plain digit string is a numeral without white space or sign, and
      all of it is read. */
  lemma PlainDigits(s: string)
    ensures s != [] && AllDigits(s) ==> NumeralStart(s) == 0 && !Negative(s) && LeadingDigits(s) == s
  {
    if s != [] && AllDigits(s) {
      assert IsDigit(s[0]);
      assert s[0..] == s;
      assert DigitRun(s) == |s|;
    }
  }

  /** `strtol(s, &endptr, 10)`: white space, an optional sign, then the
      longest run of digits; no digits converts nothing (`endptr == s`,
      value 0); a value beyond the `long` range is clamped to LONG_MIN or
      LONG_MAX with ERANGE. */
  function StrToL(s: string): (c: Conversion)
    ensures c.end <= |s|
    ensures LONG_MIN <= c.value <= LONG_MAX
    ensures c.end == 0 ==> c.value == 0 && !c.range
    ensures c.range ==> c.value == LONG_MIN || c.value == LONG_MAX
    ensures c.end > 0 ==> IsDigit(s[c.end - 1])
    ensures s != [] && AllDigits(s) ==>
              && c.end == |s|
              && (c.range <==> DigitsValue(s) > LONG_MAX)
              && (!c.range ==> c.value == DigitsValue(s))
    ensures c.end == 0 <==> LeadingDigits(s) == []
    ensures c.end > 0 ==> c.end == NumeralStart(s) + |LeadingDigits(s)|
    ensures c.end > 0 ==> NumeralStart(s) < c.end && AllDigits(s[NumeralStart(s)..c.end])
                          && (c.end < |s| ==> !IsDigit(s[c.end]))
    ensures c.end > 0 ==>
              var v := (if Negative(s) then -1 else 1) * DigitsValue(LeadingDigits(s));
              (c.range <==> v < LONG_MIN || v > LONG_MAX) && (!c.range ==> c.value == v)
  {
    var d := LeadingDigits(s);
    PlainDigits(s);
    assert d != [] ==> s[NumeralStart(s) + |d| - 1] == d[|d| - 1];
    SignedValue(Negative(s), d, NumeralStart(s))
  }

  /** `strtoul(s, &endptr, 10)`: white space, an optional sign, then the
      longest run of digits. A magnitude beyond ULONG_MAX is clamped to
      ULONG_MAX with ERANGE, whatever the sign; otherwise a minus sign
      negates modulo 2^64, so "-1" converts, without error, to ULONG_MAX. */
  function StrToUL(s: string): (c: Conversion)
    ensures c.end <= |s|
    ensures 0 <= c.value <= ULONG_MAX
    ensures c.end == 0 ==> c.value == 0 && !c.range
    ensures c.range ==> c.value == ULONG_MAX
    ensures c.end > 0 ==> IsDigit(s[c.end - 1])
    ensures s != [] && AllDigits(s) ==>
              && c.end == |s|
              && (c.range <==> DigitsValue(s) > ULONG_MAX)
              && (!c.range ==> c.value == DigitsValue(s))
    ensures c.end == 0 <==> LeadingDigits(s) == []
    ensures c.end > 0 ==> c.end == NumeralStart(s) + |LeadingDigits(s)|
    ensures c.end > 0 ==> NumeralStart(s) < c.end && AllDigits(s[NumeralStart(s)..c.end])
                          && (c.end < |s| ==> !IsDigit(s[c.end]))
    ensures c.end > 0 ==>
              var m := DigitsValue(LeadingDigits(s));
              && (c.range <==> m > ULONG_MAX)
              && (!c.range && !Negative(s) ==> c.value == m)
              && (!c.range && Negative(s) ==> (c.value + m) % (ULONG_MAX + 1) == 0)
  {
    var d := LeadingDigits(s);
    var start := NumeralStart(s);
    PlainDigits(s);
    assert d != [] ==> s[start + |d| - 1] == d[|d| - 1];
    if d == [] then Conversion(0, 0, false)
    else
      var magnitude := DigitsValue(d);
      if magnitude > ULONG_MAX then Conversion(ULONG_MAX, start + |d|, true)
      else if Negative(s) then Conversion(if magnitude == 0 then 0 else ULONG_MAX + 1 - magnitude, start + |d|, false)
      else Conversion(magnitude, start + |d|, false)
  }

  /** A white-space character before the numeral changes nothing but the
      end, which moves by one when something was converted. */
  lemma StrToLSkipsSpace(c: char, s: string)
    requires IsSpace(c)
    ensures StrToL([c] + s).value == StrToL(s).value
    ensures StrToL([c] + s).range == StrToL(s).range
    ensures StrToL(s).end > 0 ==> StrToL([c] + s).end == StrToL(s).end + 1
  {
    SpacedNumeral(c, s);
  }

  /** White space before a numeral moves its digits by one and changes
      neither its sign nor its digits. */
  lemma SpacedNumeral(c: char, s: string)
    requires IsSpace(c)
    ensures var t := [c] + s;
            && NumeralStart(t) == NumeralStart(s) + 1
            && Negative(t) == Negative(s)
            && LeadingDigits(t) == LeadingDigits(s)
  {
    var t := [c] + s;
    var w := SpaceRun(s);
    SpaceRunOfSpace(c, s);
    assert w < |s| ==> t[w + 1] == s[w];
    assert SignLength(t, w + 1) == SignLength(s, w);
    assert t[NumeralStart(t)..] == s[NumeralStart(s)..];
  }

  lemma SpaceRunOfSpace(c: char, s: string)
    requires IsSpace(c)
    ensures SpaceRun([c] + s) == SpaceRun(s) + 1
  {
    assert ([c] + s)[1..] == s;
  }

  /** A sign before a digit string: '-' negates the value, '+' keeps it, and
      either is counted in the end. */
  lemma StrToLSign(d: string)
    requires d != [] && AllDigits(d) && DigitsValue(d) <= LONG_MAX
    ensures StrToL("-" + d) == Conversion(-(DigitsValue(d) as int), |d| + 1, false)
    ensures StrToL("+" + d) == Conversion(DigitsValue(d), |d| + 1, false)
  {
    SignedNumeral('-', d);
    SignedNumeral('+', d);
  }

  /** A sign and then digits: the digits start after the sign, and all of
      them are read. */
  lemma SignedNumeral(sign: char, d: string)
    requires sign == '-' || sign == '+'
    requires d != [] && AllDigits(d)
    ensures var t := [sign] + d;
            NumeralStart(t) == 1 && (Negative(t) <==> sign == '-') && LeadingDigits(t) == d
  {
    var t := [sign] + d;
    PlainDigits(d);
    assert SpaceRun(t) == 0;
    assert t[1..] == d;
  }

  /** The text SQLite gives for an INTEGER value. */
  function Int64Text(t: int): string
    requires LONG_MIN <= t <= LONG_MAX
  {
    if t < 0 then "-" + Digits(-t) else Digits(t)
  }

  /** Reading back the text of a 64-bit value gives that value, consumes the
      whole text and does not overflow. */
  lemma StrToLOfInt64Text(t: int)
    requires LONG_MIN <= t <= LONG_MAX
    ensures StrToL(Int64Text(t)) == Conversion(t, |Int64Text(t)|, false)
  {
    var s := Int64Text(t);
    var magnitude: nat := if t < 0 then -t else t;
    var d := Digits(magnitude);
    var start := if t < 0 then 1 else 0;
    assert IsDigit(d[0]);
    assert s[0] == '-' || s[0] == d[0];
    assert SpaceRun(s) == 0;
    assert s[start..] == d;
    assert DigitRun(d) == |d|;
    assert d[..|d|] == d;
    DigitsValueOfDigits(magnitude);
  }
}
