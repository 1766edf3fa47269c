/**
 * The time strings of the builder's status line and final statistics, and
 * the two clamps on the counts it reports. Durations are Java `long`
 * milliseconds; Java's `/` and `%` truncate toward zero, and a negative
 * `long` prints with a leading minus sign.
 */
module Durations {
  import opened Wrappers
  import opened Masks

  /** Java's integer `/`: the quotient truncated toward zero. */
  function JavaDiv(a: int, b: int): int
    requires b != 0
  {
    var q := (if a < 0 then -a else a) / (if b < 0 then -b else b);
    if (a < 0) != (b < 0) then -q else q
  }

  /** Java's integer `%`: the remainder that goes with the truncated quotient. */
  function JavaRem(a: int, b: int): (r: int)
    requires b != 0
    ensures a == b * JavaDiv(a, b) + r
  {
    a - b * JavaDiv(a, b)
  }

  /** On non-negative operands Java's `/` and `%` agree with Dafny's. */
  lemma JavaDivNonNegative(a: int, b: int)
    requires a >= 0 && b > 0
    ensures JavaDiv(a, b) == a / b && JavaRem(a, b) == a % b
  {
  }

  datatype Hms = Hms(h: int, min: int, s: int)

  function TotalSeconds(t: Hms): int
  {
    3600 * t.h + 60 * t.min + t.s
  }

  /** The three fields computed from a duration in milliseconds. */
  function Fields(duration: int): Hms
  {
    Hms(JavaDiv(duration, 60 * 60 * 1000),
        JavaRem(JavaDiv(duration, 60 * 1000), 60),
        JavaRem(JavaDiv(duration, 1000), 60))
  }

  function DigitChar(d: int): char
    requires 0 <= d < 10
  {
    ('0' as int + d) as char
  }

  predicate IsDigit(c: char)
  {
    '0' <= c <= '9'
  }

  predicate AllDigits(s: string)
  {
    forall i :: 0 <= i < |s| ==> IsDigit(s[i])
  }

  /** The decimal digits of a natural number, without leading zeros. */
  function Digits(n: nat): (r: string)
    ensures r != [] && AllDigits(r)
    decreases n
  {
    if n < 10 then [DigitChar(n)] else Digits(n / 10) + [DigitChar(n % 10)]
  }

  /** `Long.toString`. */
  function LongToString(n: int): string
  {
    if n < 0 then "-" + Digits(-n) else Digits(n)
  }

  /** `(x < 10 ? "0" + x : x)` inside a string concatenation. */
  function Pad(n: int): string
  {
    if n < 10 then "0" + LongToString(n) else LongToString(n)
  }

  /** What follows the hours in a time string. */
  function Tail(mm: string, ss: string): string
  {
    "h " + mm + "min " + ss + "s."
  }

  /** `h + "h " + mm + "min " + ss + "s."`. */
  function FormatFields(t: Hms): string
  {
    LongToString(t.h) + Tail(Pad(t.min), Pad(t.s))
  }

  function FormatDuration(duration: int): string
  {
    FormatFields(Fields(duration))
  }

  /** The value of a string of decimal digits. */
  function ParseDigits(s: string): nat
    requires AllDigits(s)
  {
    if s == [] then 0 else 10 * ParseDigits(s[..|s| - 1]) + (s[|s| - 1] as int - '0' as int)
  }

  /** What follows the hours: `"h "`, two digits, `"min "`, two digits, `"s."`. */
  predicate WellFormedTail(tail: string)
  {
    && |tail| == 12 && tail[..2] == "h " && AllDigits(tail[2..4])
    && tail[4..8] == "min " && AllDigits(tail[8..10]) && tail[10..] == "s."
  }

  function TailSeconds(tail: string): nat
    requires WellFormedTail(tail)
  {
    60 * ParseDigits(tail[2..4]) + ParseDigits(tail[8..10])
  }

  /** Cuts a string before its first `h`: the text before it and the rest, which is empty when there is no `h`. */
  function CutAtH(t: string): (string, string)
  {
    if t == [] then ([], [])
    else if t[0] == 'h' then ([], t)
    else
      var (a, b) := CutAtH(t[1..]);
      ([t[0]] + a, b)
  }

  /** Reads a time string back as a number of whole seconds; `None` when it is not of the printed form. */
  function ParseDuration(t: string): Option<nat>
  {
    var (hours, tail) := CutAtH(t);
    if hours != [] && AllDigits(hours) && WellFormedTail(tail)
    then Some(3600 * ParseDigits(hours) + TailSeconds(tail))
    else None
  }

  lemma {:induction false} DigitsRoundTrip(n: nat)
    ensures ParseDigits(Digits(n)) == n
    decreases n
  {
    if n >= 10 {
      DigitsRoundTrip(n / 10);
      var d := Digits(n);
      assert d[..|d| - 1] == Digits(n / 10);
    }
  }

  /** A field below 60 prints as exactly two digits that read back as its value. */
  lemma PadTwoDigits(n: int)
    requires 0 <= n < 60
    ensures |Pad(n)| == 2 && AllDigits(Pad(n)) && ParseDigits(Pad(n)) == n
  {
    var p := Pad(n);
    var hi := n / 10;
    var lo := n % 10;
    assert n == 10 * hi + lo;
    if n < 10 {
      assert p == ['0', DigitChar(n)];
    } else {
      assert Digits(hi) == [DigitChar(hi)];
      assert p == [DigitChar(hi), DigitChar(lo)];
    }
    assert p[..1] == [p[0]];
    assert [p[0]][..0] == [];
    assert ParseDigits([p[0]]) == p[0] as int - '0' as int;
    assert ParseDigits(p) == 10 * ParseDigits(p[..1]) + (p[1] as int - '0' as int);
  }

  /** For a non-negative duration the fields are whole hours, minutes below 60 and seconds below 60 of its whole seconds. */
  lemma FieldsOfNonNegative(duration: int)
    requires duration >= 0
    ensures var t := Fields(duration);
            && t.h >= 0 && 0 <= t.min < 60 && 0 <= t.s < 60
            && TotalSeconds(t) == duration / 1000
  {
    JavaDivNonNegative(duration, 60 * 60 * 1000);
    JavaDivNonNegative(duration, 60 * 1000);
    JavaDivNonNegative(duration, 1000);
    JavaDivNonNegative(duration / (60 * 1000), 60);
    JavaDivNonNegative(duration / 1000, 60);
    MillisToSeconds(duration);
    SecondsSplit(duration / 1000);
  }

  /** Whole minutes and hours of a duration are those of its whole seconds. */
  lemma MillisToSeconds(duration: int)
    requires duration >= 0
    ensures duration / (60 * 1000) == duration / 1000 / 60
    ensures duration / (60 * 60 * 1000) == duration / 1000 / 3600
  {
  }

  /** Whole seconds are hours, minutes below 60 and seconds below 60. */
  lemma SecondsSplit(secs: int)
    requires secs >= 0
    ensures 3600 * (secs / 3600) + 60 * (secs / 60 % 60) + secs % 60 == secs
  {
    assert (secs / 60) % 60 * 60 + secs % 60 == secs % 3600;
  }

  /** No digit is an `h`, so a digit string followed by an `h` is cut right behind the digits. */
  lemma {:induction false} CutAfterDigits(hs: string, tail: string)
    requires AllDigits(hs) && tail != [] && tail[0] == 'h'
    ensures CutAtH(hs + tail) == (hs, tail)
    decreases |hs|
  {
    if hs == [] {
      assert [] + tail == tail;
    } else {
      assert IsDigit(hs[0]);
      assert (hs + tail)[1..] == hs[1..] + tail;
      CutAfterDigits(hs[1..], tail);
      assert [hs[0]] + hs[1..] == hs;
    }
  }

  lemma TailRoundTrip(mm: string, ss: string)
    requires |mm| == 2 && |ss| == 2 && AllDigits(mm) && AllDigits(ss)
    ensures WellFormedTail(Tail(mm, ss))
    ensures TailSeconds(Tail(mm, ss)) == 60 * ParseDigits(mm) + ParseDigits(ss)
  {
    var tail := Tail(mm, ss);
    assert tail[2..4] == mm && tail[8..10] == ss;
    assert tail[..2] == "h " && tail[4..8] == "min " && tail[10..] == "s.";
  }

  /** Hours followed by a well-formed tail read back as hours and tail together. */
  lemma ParseHoursAndTail(str: string, hs: string, tail: string)
    requires str == hs + tail
    requires hs != [] && AllDigits(hs) && WellFormedTail(tail)
    ensures ParseDuration(str) == Some(3600 * ParseDigits(hs) + TailSeconds(tail))
  {
    CutAfterDigits(hs, tail);
  }

  lemma TailOfFields(min: int, s: int)
    requires 0 <= min < 60 && 0 <= s < 60
    ensures WellFormedTail(Tail(Pad(min), Pad(s))) && TailSeconds(Tail(Pad(min), Pad(s))) == 60 * min + s
  {
    PadTwoDigits(min);
    PadTwoDigits(s);
    TailRoundTrip(Pad(min), Pad(s));
  }

  /** Fields in range print as a string that reads back as their number of seconds. */
  lemma FormatFieldsRoundTrip(t: Hms)
    requires t.h >= 0 && 0 <= t.min < 60 && 0 <= t.s < 60
    ensures ParseDuration(FormatFields(t)) == Some(TotalSeconds(t))
  {
    var hs := Digits(t.h);
    var tail := Tail(Pad(t.min), Pad(t.s));
    var str := FormatFields(t);
    assert str == hs + tail;
    DigitsRoundTrip(t.h);
    TailOfFields(t.min, t.s);
    ParseHoursAndTail(str, hs, tail);
  }

  /** A non-negative duration prints as a string that reads back as its whole number of seconds. */
  lemma FormatDurationRoundTrip(duration: int)
    requires duration >= 0
    ensures ParseDuration(FormatDuration(duration)) == Some(duration / 1000)
  {
    var t := Fields(duration);
    FieldsOfNonNegative(duration);
    FormatFieldsRoundTrip(t);
    assert FormatDuration(duration) == FormatFields(t);
  }

  lemma PadExamples()
    ensures Pad(-20) == "0-20" && Pad(0) == "00" && LongToString(0) == "0"
  {
    assert Digits(20) == "20" by {
      assert Digits(2) == "2";
    }
  }

  lemma FieldsOfExample()
    ensures Fields(-20333) == Hms(0, 0, -20)
  {
    assert JavaDiv(-20333, 60 * 60 * 1000) == 0;
    assert JavaDiv(-20333, 60 * 1000) == 0;
    assert JavaDiv(-20333, 1000) == -20;
  }

  /** A negative estimate prints with minus signs inside the fields... */
  lemma NegativeEstimateShowsMinus()
    ensures FormatDuration(-20333) == "0" + Tail("00", "0-20")
  {
    FieldsOfExample();
    PadExamples();
    assert FormatDuration(-20333) == FormatFields(Hms(0, 0, -20));
  }

  /** ... and that string does not read back as a time. */
  lemma NegativeEstimateUnreadable()
    ensures ParseDuration("0" + Tail("00", "0-20")) == None
  {
    var tail := Tail("00", "0-20");
    assert |tail| == 14;
    CutAfterDigits("0", tail);
  }

  /** `getTaskName`'s estimate of the remaining time: average time per built configuration times the number still to build. */
  function RemainingTime(elapsed: int, built: int, configurationNumber: int): int
    requires built != 0
  {
    JavaDiv(elapsed, built) * (configurationNumber - built)
  }

  /** The time part of the status line: empty until the total is known and something was built. */
  function TaskTime(elapsed: int, built: int, configurationNumber: int): string
  {
    if configurationNumber != 0 && built != 0 then " " + FormatDuration(RemainingTime(elapsed, built, configurationNumber))
    else ""
  }

  /** While at most the expected number of configurations is built, the estimate is a well-formed time string. */
  lemma TaskTimeWellFormed(elapsed: int, built: int, configurationNumber: int)
    requires elapsed >= 0 && 0 < built <= configurationNumber
    ensures var t := TaskTime(elapsed, built, configurationNumber);
            t != "" && ParseDuration(t[1..]) == Some(RemainingTime(elapsed, built, configurationNumber) / 1000)
  {
    var r := RemainingTime(elapsed, built, configurationNumber);
    RemainingNonNegative(elapsed, built, configurationNumber);
    FormatDurationRoundTrip(r);
    var f := FormatDuration(r);
    assert TaskTime(elapsed, built, configurationNumber) == " " + f;
    assert (" " + f)[1..] == f;
  }

  lemma RemainingNonNegative(elapsed: int, built: int, configurationNumber: int)
    requires elapsed >= 0 && 0 < built <= configurationNumber
    ensures RemainingTime(elapsed, built, configurationNumber) >= 0
  {
    var q := JavaDiv(elapsed, built);
    JavaDivNonNegative(elapsed, built);
    DivNonNegative(elapsed, built);
    NonNegativeProduct(q, configurationNumber - built);
  }

  // Two steps of non-linear arithmetic, kept apart so the solver sees them alone.

  lemma DivNonNegative(a: int, b: int)
    requires a >= 0 && b > 0
    ensures a / b >= 0
  {
  }

  lemma NonNegativeProduct(a: int, b: int)
    requires a >= 0 && b >= 0
    ensures a * b >= 0
  {
  }

  const IntMin := -0x8000_0000

  /** Java's `(int)` cast of a `long`: the low 32 bits read as a signed number. */
  function ToInt(x: int): (r: int)
    ensures IntMin <= r <= IntMax
    ensures IntMin <= x <= IntMax ==> r == x
  {
    (x - IntMin) % 0x1_0000_0000 + IntMin
  }

  /**
   * The count of built configurations reported in the final statistics, as
   * written: cut down to the expected total whenever it exceeds it, also when
   * the total is 0, the value that means "not known". For an `int` count and a
   * total not below the `int` range it is the smaller of the two.
   */
  function ClampBuilt(built: int, configurationNumber: int): (r: int)
    ensures IntMin <= built <= IntMax && IntMin <= configurationNumber ==>
              r <= built && r <= configurationNumber && (r == built || r == configurationNumber)
  {
    if built > configurationNumber then ToInt(configurationNumber) else built
  }

  /** A count of 5 with the total not known is reported as 0 built configurations. */
  lemma ClampBuiltZeroesUnknownTotal()
    ensures ClampBuilt(5, 0) == 0
  {
  }

  /**
   * The clamp as evidently intended, only against a known total: an unknown
   * total leaves the count as it is, a known one caps it.
   */
  function ClampBuiltKnown(built: int, configurationNumber: int): (r: int)
    ensures configurationNumber == 0 ==> r == built
    ensures IntMin <= built <= IntMax && IntMin <= configurationNumber && configurationNumber != 0 ==>
              r <= built && r <= configurationNumber && (r == built || r == configurationNumber)
  {
    if configurationNumber != 0 && built > configurationNumber then ToInt(configurationNumber) else built
  }
}
