/**
 * pulse_meter (pulsedb_postgres.c:14-28): the meter argument is accepted only
 * when it is non-empty and strtol reads all of it, in base 10, without
 * overflow; every other value stops the process.
 */
module Meter {
  import opened Decimal

  /** The range of a 64-bit long. */
  const LONG_MIN: int := -0x8000_0000_0000_0000
  const LONG_MAX: int := 0x7fff_ffff_ffff_ffff

  /** isspace in the C locale: space, \t, \n, \v, \f and \r. */
  predicate IsSpace(c: char) { c == ' ' || '\t' <= c <= '\r' }

  /** The first index at or after i that does not hold white space. */
  function SkipSpace(s: string, i: nat): (j: nat)
    requires i <= |s|
    ensures i <= j <= |s| && (j < |s| ==> !IsSpace(s[j]))
    ensures forall k :: i <= k < j ==> IsSpace(s[k])
    decreases |s| - i
  {
    if i < |s| && IsSpace(s[i]) then SkipSpace(s, i + 1) else i
  }

  /** The end of the run of digits that starts at i. */
  function DigitRun(s: string, i: nat): (j: nat)
    requires i <= |s|
    ensures i <= j <= |s| && (j < |s| ==> !IsDigit(s[j]))
    ensures AllDigits(s[i..j])
    decreases |s| - i
  {
    if i < |s| && IsDigit(s[i]) then
      var j := DigitRun(s, i + 1);
      assert s[i..j] == [s[i]] + s[i + 1..j];
      j
    else i
  }

  /** The number spelt by the digits s[j..k], negated when the character at i, before j, is '-'. */
  function Signed(s: string, i: nat, j: nat, k: nat): int
    requires i <= j <= k <= |s| && AllDigits(s[j..k])
  {
    var magnitude: int := Value(s[j..k]);
    if j > i && s[i] == '-' then -magnitude else magnitude
  }

  /** What strtol(s, &end, 10) reports: the value, where end points, and whether errno became ERANGE. */
  datatype Conversion = Conversion(value: int, end: nat, erange: bool)

  /**
   * strtol in base 10: leading white space, an optional sign, then the longest
   * run of digits. With no digits nothing is converted and end is s itself;
   * a value outside the range of long saturates and sets ERANGE.
   */
  function Strtol(s: string): (r: Conversion)
    ensures r.end <= |s| && LONG_MIN <= r.value <= LONG_MAX
    ensures r.erange ==> r.value == LONG_MAX || r.value == LONG_MIN
    ensures r.end == 0 ==> r.value == 0 && !r.erange
    ensures r.end > 0 ==> IsDigit(s[r.end - 1]) && (r.end == |s| || !IsDigit(s[r.end]))
  {
    var i := SkipSpace(s, 0);
    var j := if i < |s| && (s[i] == '+' || s[i] == '-') then i + 1 else i;
    var k := DigitRun(s, j);
    if k == j then Conversion(0, 0, false)
    else
      assert s[k - 1] == s[j..k][k - 1 - j];
      var v := Signed(s, i, j, k);
      if v > LONG_MAX then Conversion(LONG_MAX, k, true)
      else if v < LONG_MIN then Conversion(LONG_MIN, k, true)
      else Conversion(v, k, false)
  }

  /** The three fatal conditions of pulse_meter, in the order it tests them. */
  datatype MeterError = EmptyValue | OutOfRange | NotANumber

  /** pulse_meter either keeps the text as the meter or stops the process with an error. */
  datatype Verdict = Accepted(meter: string) | Fatal(error: MeterError)

  function PulseMeter(value: string): (r: Verdict)
    ensures value == [] ==> r == Fatal(EmptyValue)
    ensures r.Accepted? ==> r.meter == value && IsDigit(value[|value| - 1])
    ensures r.Fatal? && r.error == OutOfRange ==> Strtol(value).erange
  {
    if value == [] then Fatal(EmptyValue)
    else
      var c := Strtol(value);
      if c.erange then Fatal(OutOfRange)
      else if c.end != |value| then Fatal(NotANumber)
      else Accepted(value)
  }


  /**
   * value is white space up to i, an optional sign from i to j, and a non-empty
   * run of digits from j to the end, spelling a number in the range of long.
   */
  predicate LongLiteralAt(value: string, i: nat, j: nat)
  {
    && i <= j < |value|
    && (forall k :: 0 <= k < i ==> IsSpace(value[k]))
    && (j == i || (j == i + 1 && (value[i] == '+' || value[i] == '-')))
    && AllDigits(value[j..|value|])
    && LONG_MIN <= Signed(value, i, j, |value|) <= LONG_MAX
  }

  ghost predicate LongLiteral(value: string)
  {
    exists i: nat, j: nat :: LongLiteralAt(value, i, j)
  }

  lemma SkipSpaceStopsAt(s: string, from: nat, i: nat)
    requires from <= i < |s| && !IsSpace(s[i])
    requires forall k :: from <= k < i ==> IsSpace(s[k])
    ensures SkipSpace(s, from) == i
    decreases i - from
  {
    if from < i {
      SkipSpaceStopsAt(s, from + 1, i);
    }
  }

  lemma DigitRunToEnd(s: string, j: nat)
    requires j <= |s| && AllDigits(s[j..])
    ensures DigitRun(s, j) == |s|
    decreases |s| - j
  {
    if j < |s| {
      assert IsDigit(s[j..][0]);
      assert s[j + 1..] == s[j..][1..];
      DigitRunToEnd(s, j + 1);
    }
  }

  /** What pulse_meter accepts is a complete base-10 literal in the range of long. */
  lemma AcceptedIsLongLiteral(value: string)
    requires PulseMeter(value).Accepted?
    ensures LongLiteral(value)
  {
    var i := SkipSpace(value, 0);
    var j := if i < |value| && (value[i] == '+' || value[i] == '-') then i + 1 else i;
    var k := DigitRun(value, j);
    assert k == |value| && k > j;
    assert LongLiteralAt(value, i, j);
  }

  /** Every complete base-10 literal in the range of long is accepted. */
  lemma LongLiteralAccepted(value: string, i: nat, j: nat)
    requires LongLiteralAt(value, i, j)
    ensures PulseMeter(value) == Accepted(value)
  {
    assert IsDigit(value[j..|value|][0]);
    SkipSpaceStopsAt(value, 0, i);
    assert value[j..|value|] == value[j..];
    DigitRunToEnd(value, j);
    assert !(value[j] == '+' || value[j] == '-');
    assert Strtol(value) == Conversion(Signed(value, i, j, |value|), |value|, false);
  }

  /** pulse_meter accepts a value exactly when it is a complete base-10 literal in the range of long. */
  lemma AcceptedIffLongLiteral(value: string)
    ensures PulseMeter(value).Accepted? <==> LongLiteral(value)
  {
    if PulseMeter(value).Accepted? {
      AcceptedIsLongLiteral(value);
    }
    if LongLiteral(value) {
      var i: nat, j: nat :| LongLiteralAt(value, i, j);
      LongLiteralAccepted(value, i, j);
    }
  }

  /** Every meter number printed in decimal, up to the largest long, is accepted as it is. */
  lemma DecimalMeterAccepted(n: nat)
    requires n <= LONG_MAX
    ensures PulseMeter(Digits(n)) == Accepted(Digits(n))
  {
    var s := Digits(n);
    ValueOfDigits(n);
    assert s[0..|s|] == s;
    assert LongLiteralAt(s, 0, 0);
    LongLiteralAccepted(s, 0, 0);
  }

  /** Trailing text after the digits is fatal, even when the digits alone would be a valid meter. */
  lemma TrailingTextRejected(n: nat, c: char)
    requires n <= LONG_MAX && !IsDigit(c)
    ensures PulseMeter(Digits(n) + [c]) == Fatal(NotANumber)
  {
    var s := Digits(n) + [c];
    var d := Digits(n);
    assert !IsSpace(s[0]) by { assert s[0] == d[0]; }
    assert s[0] != '+' && s[0] != '-';
    assert s[0..|d|] == d;
    assert DigitRun(s, |d|) == |d|;
    DigitRunPrefix(s, 0, |d|);
    ValueOfDigits(n);
  }

  lemma DigitRunPrefix(s: string, j: nat, k: nat)
    requires j <= k < |s| && AllDigits(s[j..k]) && !IsDigit(s[k])
    ensures DigitRun(s, j) == k
    decreases k - j
  {
    if j < k {
      assert IsDigit(s[j..k][0]);
      assert s[j + 1..k] == s[j..k][1..];
      DigitRunPrefix(s, j + 1, k);
    }
  }
}
