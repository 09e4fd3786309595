/**
 * Time arithmetic of the timesheet: clock strings in the shape `H:MM` / `HH:MM`
 * and minute counts (app.js:74-108), and the list of quarter-hour times the
 * time picker offers (app.js:1031-1039).
 */
module TimeOfDay {

  /** Minutes in a day: every clock computation wraps modulo this. */
  const MinutesPerDay: nat := 1440

  /** The largest value a string of the accepted shape can parse to ("99:99"). */
  const MaxParsedMinute: nat := 99 * 60 + 99

  // ---------------------------------------------------------------------------
  // Decimal digits: `String(n)`, `padStart(2, '0')` and `parseInt(s, 10)`
  // ---------------------------------------------------------------------------

  /** The class `\d` of the source's regular expressions (ASCII digits only). */
  predicate IsDigit(c: char) { '0' <= c <= '9' }

  predicate AllDigits(s: string) { forall i :: 0 <= i < |s| ==> IsDigit(s[i]) }

  function DigitValue(c: char): (d: nat)
    requires IsDigit(c)
    ensures d < 10
  {
    c as int - '0' as int
  }

  function DigitChar(d: nat): (c: char)
    requires d < 10
    ensures IsDigit(c) && DigitValue(c) == d
  {
    (d + '0' as int) as char
  }

  /** The number a string of decimal digits denotes, as `parseInt(s, 10)` reads it. */
  function DecimalValue(s: string): nat
    requires AllDigits(s)
  {
    if |s| == 0 then 0 else 10 * DecimalValue(s[..|s| - 1]) + DigitValue(s[|s| - 1])
  }

  /** `String(n)` for a non-negative whole number: its shortest decimal form. */
  function NatToString(n: nat): (s: string)
    ensures 1 <= |s| && AllDigits(s)
  {
    if n < 10 then [DigitChar(n)] else NatToString(n / 10) + [DigitChar(n % 10)]
  }

  /** `String(i)` for a whole number: a minus sign in front of a negative one. */
  function IntToString(i: int): string
  {
    if i < 0 then "-" + NatToString(-i) else NatToString(i)
  }

  /** `s.padStart(2, '0')`: zeros in front until the text is two characters long. */
  function PadStart2(s: string): string
  {
    if |s| >= 2 then s else seq(2 - |s|, _ => '0') + s
  }

  /** A text of two or more characters is kept; a shorter one ends up two long, with zeros in front. */
  lemma PadStart2Spec(s: string)
    ensures |s| >= 2 ==> PadStart2(s) == s
    ensures |s| < 2 ==> |PadStart2(s)| == 2 && PadStart2(s)[2 - |s|..] == s
    ensures forall i :: 0 <= i < 2 - |s| ==> PadStart2(s)[i] == '0'
  {
  }

  /** The template `${pad(h)}:${pad(mm)}` that app.js:78, app.js:92 and app.js:1036 share. */
  function ClockText(h: int, mm: int): string
  {
    PadStart2(IntToString(h)) + ":" + PadStart2(IntToString(mm))
  }

  lemma {:induction false} NatToStringValue(n: nat)
    ensures DecimalValue(NatToString(n)) == n
  {
    if n >= 10 {
      NatToStringValue(n / 10);
      var s := NatToString(n);
      assert s[..|s| - 1] == NatToString(n / 10);
    }
  }

  /** A number below 100 is written as exactly two digits once padded. */
  lemma TwoDigitText(n: nat)
    requires n < 100
    ensures PadStart2(NatToString(n)) == [DigitChar(n / 10), DigitChar(n % 10)]
  {
    if n < 10 {
      assert NatToString(n) == [DigitChar(n)];
      assert n / 10 == 0 && n % 10 == n;
      assert seq(1, _ => '0') == [DigitChar(0)];
    } else {
      assert NatToString(n / 10) == [DigitChar(n / 10)];
      assert NatToString(n) == [DigitChar(n / 10), DigitChar(n % 10)];
    }
  }

  // ---------------------------------------------------------------------------
  // JavaScript's remainder operator
  // ---------------------------------------------------------------------------

  /** JavaScript's `a % b` for a positive `b`: the remainder takes the sign of `a`. */
  function JsRem(a: int, b: int): (r: int)
    requires b > 0
    ensures a >= 0 ==> r == a % b
    ensures a < 0 ==> -b < r <= 0
  {
    if a >= 0 then a % b else -((-a) % b)
  }

  // ---------------------------------------------------------------------------
  // Clock strings
  // ---------------------------------------------------------------------------

  /**
   * The test `/^\d{1,2}:\d{2}$/`: one or two digits, a colon, two digits. The
   * pattern checks the shape only, so `24:99` passes (app.js:83, 101, 112).
   */
  predicate IsTimeString(s: string)
  {
    || (|s| == 4 && IsDigit(s[0]) && s[1] == ':' && IsDigit(s[2]) && IsDigit(s[3]))
    || (|s| == 5 && IsDigit(s[0]) && IsDigit(s[1]) && s[2] == ':' && IsDigit(s[3]) && IsDigit(s[4]))
  }

  /** The digits before the colon of an accepted clock string. */
  function HourField(s: string): (f: string)
    requires IsTimeString(s)
    ensures AllDigits(f) && 1 <= |f| <= 2
  {
    s[..|s| - 3]
  }

  /** The two digits after the colon of an accepted clock string. */
  function MinuteField(s: string): (f: string)
    requires IsTimeString(s)
    ensures AllDigits(f) && |f| == 2
  {
    s[|s| - 2..]
  }

  lemma DecimalValueOfTwo(s: string)
    requires |s| == 2 && AllDigits(s)
    ensures DecimalValue(s) == 10 * DigitValue(s[0]) + DigitValue(s[1])
  {
    var p := s[..1];
    assert p[..0] == [] && p[0] == s[0];
    assert DecimalValue(p) == DigitValue(s[0]);
  }

  lemma DecimalValueOfOne(s: string)
    requires |s| == 1 && AllDigits(s)
    ensures DecimalValue(s) == DigitValue(s[0])
  {
    assert s[..0] == [];
  }

  /**
   * hhmmToMinutes (app.js:81-87): hours times sixty plus minutes for a string of
   * the accepted shape, and 0 — not a separate failure value — for anything else,
   * the empty string included. No range check: "24:99" gives 1539.
   */
  function ParseHHMM(s: string): (r: nat)
    ensures !IsTimeString(s) ==> r == 0
    ensures r <= MaxParsedMinute
  {
    if !IsTimeString(s) then 0
    else if |s| == 4 then DigitValue(s[0]) * 60 + (10 * DigitValue(s[2]) + DigitValue(s[3]))
    else (10 * DigitValue(s[0]) + DigitValue(s[1])) * 60 + (10 * DigitValue(s[3]) + DigitValue(s[4]))
  }

  /** An accepted string parses to sixty times the number before the colon plus the number after it. */
  lemma ParseHHMMFields(s: string)
    requires IsTimeString(s)
    ensures ParseHHMM(s) == 60 * DecimalValue(HourField(s)) + DecimalValue(MinuteField(s))
  {
    DecimalValueOfTwo(MinuteField(s));
    if |s| == 4 {
      DecimalValueOfOne(HourField(s));
    } else {
      DecimalValueOfTwo(HourField(s));
    }
  }

  /** The shape check of app.js:83-86 accepts an hour and a minute out of range. */
  lemma OutOfRangeClockAccepted()
    ensures IsTimeString("24:99") && ParseHHMM("24:99") == 1539
    ensures !IsTimeString("") && ParseHHMM("") == 0
    ensures !IsTimeString("9h30") && ParseHHMM("9h30") == 0
  {
    DecimalValueOfTwo("24");
    DecimalValueOfTwo("99");
  }

  /** A clock string as nowHHMM and the time picker write it: `HH:MM`, 00-23 and 00-59. */
  predicate IsCanonicalClock(s: string)
  {
    && |s| == 5 && IsTimeString(s)
    && 10 * DigitValue(s[0]) + DigitValue(s[1]) < 24
    && 10 * DigitValue(s[3]) + DigitValue(s[4]) < 60
  }

  /**
   * minutesToHHMM (app.js:74-79): a duration label. Negative input is shown as
   * `00:00`; the hour count is not wrapped, so it can have three digits or more.
   * `Math.round` is the identity on the whole numbers this model uses.
   */
  function FormatDuration(min: int): (r: string)
    ensures min <= 0 ==> r == "00:00"
  {
    var m := if min < 0 then 0 else min;
    ClockText(m / 60, m % 60)
  }

  /**
   * minutesToHHMMDay (app.js:89-93): the hour is wrapped modulo 24 with
   * JavaScript's `%`, and `Math.floor(m / 60)` is Dafny's `/` (floor division by
   * a positive divisor).
   */
  function FormatClock(m: int): string
  {
    ClockText(JsRem(m / 60, 24), JsRem(m, 60))
  }

  lemma ClockTextOfDigits(h: nat, mm: nat)
    requires h < 100 && mm < 100
    ensures ClockText(h, mm) == [DigitChar(h / 10), DigitChar(h % 10), ':', DigitChar(mm / 10), DigitChar(mm % 10)]
  {
    TwoDigitText(h);
    TwoDigitText(mm);
  }

  /** Every minute of the day is written as a canonical clock string that parses back to it. */
  lemma FormatClockParses(m: int)
    requires 0 <= m < MinutesPerDay
    ensures IsCanonicalClock(FormatClock(m)) && ParseHHMM(FormatClock(m)) == m
  {
    var h, mm := m / 60, m % 60;
    assert JsRem(h, 24) == h && JsRem(m, 60) == mm;
    ClockTextOfDigits(h, mm);
    var s := FormatClock(m);
    assert s == [DigitChar(h / 10), DigitChar(h % 10), ':', DigitChar(mm / 10), DigitChar(mm % 10)];
    assert IsTimeString(s) && |s| == 5;
    DigitsParse(s, h, mm);
  }

  lemma DigitsParse(s: string, h: nat, mm: nat)
    requires h < 100 && mm < 100
    requires s == [DigitChar(h / 10), DigitChar(h % 10), ':', DigitChar(mm / 10), DigitChar(mm % 10)]
    ensures IsTimeString(s) && ParseHHMM(s) == 60 * h + mm
    ensures 10 * DigitValue(s[0]) + DigitValue(s[1]) == h && 10 * DigitValue(s[3]) + DigitValue(s[4]) == mm
  {
    assert DigitValue(s[0]) == h / 10 && DigitValue(s[1]) == h % 10;
    assert DigitValue(s[3]) == mm / 10 && DigitValue(s[4]) == mm % 10;
  }

  /** Within a day FormatClock needs no wrap-around: it is the plain `HH:MM` template. */
  lemma FormatClockInDay(m: int)
    requires 0 <= m < MinutesPerDay
    ensures FormatClock(m) == ClockText(m / 60, m % 60)
  {
    assert JsRem(m / 60, 24) == m / 60 && JsRem(m, 60) == m % 60;
  }

  lemma SplitTens(a: nat, b: nat)
    requires b < 10
    ensures (10 * a + b) / 10 == a && (10 * a + b) % 10 == b
  {
  }

  lemma SplitSixties(h: nat, mm: nat)
    requires mm < 60
    ensures (60 * h + mm) / 60 == h && (60 * h + mm) % 60 == mm
  {
  }

  lemma DigitCharOfValue(c: char)
    requires IsDigit(c)
    ensures DigitChar(DigitValue(c)) == c
  {
  }

  /** Round trip: a canonical `HH:MM` string survives parsing and formatting unchanged. */
  lemma ClockRoundTrip(s: string)
    requires IsCanonicalClock(s)
    ensures FormatClock(ParseHHMM(s)) == s
  {
    var h := 10 * DigitValue(s[0]) + DigitValue(s[1]);
    var mm := 10 * DigitValue(s[3]) + DigitValue(s[4]);
    assert ParseHHMM(s) == 60 * h + mm;
    FormatClockOfFields(h, mm);
    var t := FormatClock(60 * h + mm);
    SplitTens(DigitValue(s[0]), DigitValue(s[1]));
    SplitTens(DigitValue(s[3]), DigitValue(s[4]));
    DigitCharOfValue(s[0]);
    DigitCharOfValue(s[1]);
    DigitCharOfValue(s[3]);
    DigitCharOfValue(s[4]);
    SameFive(t, s);
  }

  /** Formatting `60 * h + mm` for an hour and a minute of the day writes their two-digit forms. */
  lemma FormatClockOfFields(h: nat, mm: nat)
    requires h < 24 && mm < 60
    ensures FormatClock(60 * h + mm) == [DigitChar(h / 10), DigitChar(h % 10), ':', DigitChar(mm / 10), DigitChar(mm % 10)]
  {
    SplitSixties(h, mm);
    FormatClockInDay(60 * h + mm);
    ClockTextOfDigits(h, mm);
  }

  lemma SameFive(a: string, b: string)
    requires |a| == 5 && |b| == 5
    requires a[0] == b[0] && a[1] == b[1] && a[2] == b[2] && a[3] == b[3] && a[4] == b[4]
    ensures a == b
  {
    assert forall i :: 0 <= i < 5 ==> a[i] == b[i];
  }

  /** A duration label parses back to the duration while the hour count has two digits. */
  lemma FormatDurationParses(m: int)
    requires 0 <= m < 100 * 60
    ensures IsTimeString(FormatDuration(m)) && ParseHHMM(FormatDuration(m)) == m
  {
    var h, mm := m / 60, m % 60;
    ClockTextOfDigits(h, mm);
    DigitsParse(FormatDuration(m), h, mm);
  }

  /**
   * computeDurationMinutes (app.js:100-108): elapsed minutes from `start` to
   * `end`, running past midnight when `end` is earlier; 0 unless both have the
   * accepted shape.
   */
  function DurationBetween(start: string, end: string): (r: int)
    ensures !IsTimeString(start) || !IsTimeString(end) ==> r == 0
  {
    if !IsTimeString(start) || !IsTimeString(end) then 0
    else
      var s := ParseHHMM(start);
      var e := ParseHHMM(end);
      if e >= s then e - s else (24 * 60 - s) + e
  }

  /**
   * For two valid in-day clock times the duration is under a day and leads
   * from the start to the end modulo a day; for any start within the day it
   * is never negative.
   */
  lemma DurationBetweenSpec(start: string, end: string)
    requires IsTimeString(start) && IsTimeString(end) && ParseHHMM(start) < MinutesPerDay
    ensures var r := DurationBetween(start, end);
            && 0 <= r < MinutesPerDay + MaxParsedMinute
            && (ParseHHMM(end) < MinutesPerDay ==> r < MinutesPerDay && (ParseHHMM(start) + r) % MinutesPerDay == ParseHHMM(end))
  {
    var s, e := ParseHHMM(start), ParseHHMM(end);
    if e < MinutesPerDay {
      if e >= s {
        assert s + DurationBetween(start, end) == e;
      } else {
        assert s + DurationBetween(start, end) == MinutesPerDay * 1 + e;
      }
    }
  }

  /**
   * generateQuarterTimes (app.js:1031-1039): the time picker's buttons, every
   * quarter hour from 07:00 to 21:00 inclusive, in order.
   */
  method QuarterTimes() returns (out: seq<string>)
    ensures |out| == 57
    ensures forall i :: 0 <= i < |out| ==> IsCanonicalClock(out[i]) && ParseHHMM(out[i]) == 7 * 60 + 15 * i
  {
    out := [];
    var m := 7 * 60;
    while m <= 21 * 60
      invariant m == 7 * 60 + 15 * |out| && |out| <= 57
      invariant forall i :: 0 <= i < |out| ==> IsCanonicalClock(out[i]) && ParseHHMM(out[i]) == 7 * 60 + 15 * i
    {
      var h := m / 60;
      var mm := m % 60;
      ClockTextInDay(m);
      out := out + [ClockText(h, mm)];
      m := m + 15;
    }
  }

  /** The text of a minute of the day is a canonical clock reading it back. */
  lemma ClockTextInDay(m: nat)
    requires m < MinutesPerDay
    ensures IsCanonicalClock(ClockText(m / 60, m % 60)) && ParseHHMM(ClockText(m / 60, m % 60)) == m
  {
    FormatClockInDay(m);
    FormatClockParses(m);
  }
}
