/**
 * The timestamp parameter text of the store statements: every start and stop
 * time is sent as sprintf("%lu.%06u", (unsigned long)tv_sec, (unsigned)tv_usec)
 * (pulsedb_postgres.c:110, 149-150, 174-175, 214).
 */
module Timestamp {
  import opened PulseTypes
  import opened Decimal

  /** The casts to unsigned long (64 bits) and unsigned int (32 bits) wrap modulo these. */
  const ULONG_RANGE: int := 0x1_0000_0000_0000_0000
  const UINT_RANGE: int := 0x1_0000_0000
  const USEC_PER_SEC: int := 1_000_000

  /** A timeval as gettimeofday produces it: no negative part, fewer than a million microseconds. */
  predicate Canonical(tv: Timeval)
  {
    0 <= tv.sec < ULONG_RANGE && 0 <= tv.usec < USEC_PER_SEC
  }

  /** The instant a timeval stands for, in microseconds. */
  function Micros(tv: Timeval): int
  {
    tv.sec * USEC_PER_SEC + tv.usec
  }

  /** "%lu.%06u" applied to the two fields after their unsigned casts. */
  function Format(tv: Timeval): (r: string)
    ensures |r| >= 8
    ensures Canonical(tv) ==> r[|r| - 7] == '.' && AllDigits(r[..|r| - 7]) && AllDigits(r[|r| - 6..])
  {
    var whole := Digits(tv.sec % ULONG_RANGE);
    var frac := ZeroPad(Digits(tv.usec % UINT_RANGE), 6);
    FractionWidth(tv);
    if Canonical(tv) then PointSplits(whole, frac); whole + "." + frac
    else whole + "." + frac
  }

  /**
   * Reads a decimal number of seconds written with exactly six fractional digits
   * ("<digits>.<6 digits>") as a count of microseconds; None for any other text.
   */
  function ReadMicros(s: string): (r: Option<int>)
    ensures r.Some? ==> r.value >= 0
  {
    if |s| >= 8 && s[|s| - 7] == '.' && AllDigits(s[..|s| - 7]) && AllDigits(s[|s| - 6..])
    then Some(Value(s[..|s| - 7]) * USEC_PER_SEC + Value(s[|s| - 6..]))
    else None
  }

  /** A digit string, a point, and six digits: how ReadMicros splits such a text. */
  lemma ReadJoined(whole: string, frac: string)
    requires AllDigits(whole) && |whole| >= 1 && AllDigits(frac) && |frac| == 6
    ensures ReadMicros(whole + "." + frac) == Some(Value(whole) * USEC_PER_SEC + Value(frac))
  {
    PointSplits(whole, frac);
    ReadAtPoint(whole + "." + frac);
  }

  lemma ReadAtPoint(s: string)
    requires |s| >= 8 && s[|s| - 7] == '.' && AllDigits(s[..|s| - 7]) && AllDigits(s[|s| - 6..])
    ensures ReadMicros(s) == Some(Value(s[..|s| - 7]) * USEC_PER_SEC + Value(s[|s| - 6..]))
  {
  }

  lemma PointSplits(whole: string, frac: string)
    requires |frac| == 6
    ensures var s := whole + "." + frac;
            |s| == |whole| + 7 && s[..|s| - 7] == whole && s[|s| - 7] == '.' && s[|s| - 6..] == frac
  {
    var s := whole + "." + frac;
    assert s[..|whole|] == whole;
    assert s[|whole| + 1..] == frac;
  }

  /** The text of a canonical timeval reads back as exactly that instant. */
  lemma FormatReadsBack(tv: Timeval)
    requires Canonical(tv)
    ensures ReadMicros(Format(tv)) == Some(Micros(tv))
  {
    assert tv.sec % ULONG_RANGE == tv.sec;
    assert tv.usec % UINT_RANGE == tv.usec;
    var frac := ZeroPad(Digits(tv.usec), 6);
    DigitsLength(tv.usec, 6);
    ValueOfZeroPad(Digits(tv.usec), 6);
    ValueOfDigits(tv.sec);
    ValueOfDigits(tv.usec);
    assert Format(tv) == Digits(tv.sec) + "." + frac;
    ReadJoined(Digits(tv.sec), frac);
  }

  /** A canonical timeval is determined by its instant. */
  lemma MicrosSplit(tv: Timeval)
    requires Canonical(tv)
    ensures Micros(tv) / USEC_PER_SEC == tv.sec && Micros(tv) % USEC_PER_SEC == tv.usec
  {
  }

  /** Distinct canonical timevals are never sent as the same text. */
  lemma FormatInjective(a: Timeval, b: Timeval)
    requires Canonical(a) && Canonical(b)
    requires Format(a) == Format(b)
    ensures a == b
  {
    FormatReadsBack(a);
    FormatReadsBack(b);
    MicrosSplit(a);
    MicrosSplit(b);
  }

  /** The fractional part is digits, always at least six, and exactly six for a canonical timeval. */
  lemma FractionWidth(tv: Timeval)
    ensures var f := ZeroPad(Digits(tv.usec % UINT_RANGE), 6);
            AllDigits(f) && |f| >= 6 && (Canonical(tv) ==> |f| == 6)
  {
    ValueOfZeroPad(Digits(tv.usec % UINT_RANGE), 6);
    if Canonical(tv) {
      MillionIsPow10();
      DigitsLength(tv.usec, 6);
    }
  }

  /** A microsecond count below a million takes at most six digits. */
  lemma MillionIsPow10()
    ensures Pow10(6) == USEC_PER_SEC
  {
    assert Pow10(2) == 100;
    assert Pow10(4) == 10_000;
  }
}
