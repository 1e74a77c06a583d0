/**
 * The date rule of `backend/src/validators.ts`: a date must match
 * `^\d{4}-\d{2}-\d{2}$` and survive a round trip through the JavaScript
 * `Date` object, `new Date(s + "T00:00:00Z").toISOString().slice(0, 10) === s`.
 *
 * The `Date` object is replaced by an explicit proleptic Gregorian calendar.
 * Constructing a date from an ISO string fails (an invalid time value) when
 * the month is outside 1..12 or the day outside 1..31; a day past the end of
 * a shorter month rolls over into the next month. `RoundTripIsCalendarDay`
 * shows that the round trip then succeeds exactly on real calendar days.
 */
module Calendar {
  import opened Wrappers
  import opened Money

  datatype Ymd = Ymd(year: nat, month: nat, day: nat)

  /** `/^\d{4}-\d{2}-\d{2}$/.test(s)`. */
  predicate MatchesDatePattern(s: string) {
    && |s| == 10
    && AllDigits(s[..4]) && s[4] == '-'
    && AllDigits(s[5..7]) && s[7] == '-'
    && AllDigits(s[8..])
  }

  /** The year, month and day a pattern-matching string spells. */
  function Fields(s: string): Ymd
    requires MatchesDatePattern(s)
  {
    Ymd(DecimalValue(s[..4]), DecimalValue(s[5..7]), DecimalValue(s[8..]))
  }

  predicate IsLeapYear(y: nat) {
    y % 4 == 0 && (y % 100 != 0 || y % 400 == 0)
  }

  function DaysInMonth(y: nat, m: nat): (n: nat)
    requires 1 <= m <= 12
    ensures 28 <= n <= 31
  {
    if m == 2 then (if IsLeapYear(y) then 29 else 28)
    else if m == 4 || m == 6 || m == 9 || m == 11 then 30
    else 31
  }

  /** A day that exists in the Gregorian calendar. */
  predicate IsCalendarDay(d: Ymd) {
    1 <= d.month <= 12 && 1 <= d.day <= DaysInMonth(d.year, d.month)
  }

  /** `new Date(s + "T00:00:00Z")`: `None` stands for an invalid time value. */
  function ParseUtcMidnight(s: string): (r: Option<Ymd>)
    requires MatchesDatePattern(s)
    ensures r.Some? ==> IsCalendarDay(r.value)
  {
    var d := Fields(s);
    if !(1 <= d.month <= 12 && 1 <= d.day <= 31) then None
    else if d.day <= DaysInMonth(d.year, d.month) then Some(d)
    else Some(Ymd(d.year, d.month + 1, d.day - DaysInMonth(d.year, d.month)))
  }

  /** `n` written with exactly `width` decimal digits. */
  function PadDigits(n: nat, width: nat): (s: string)
    requires n < Power10(width)
    ensures |s| == width && AllDigits(s) && DecimalValue(s) == n
    decreases width
  {
    if width == 0 then ""
    else
      var init := PadDigits(n / 10, width - 1);
      var last := DigitChar(n % 10);
      assert (init + [last])[..width - 1] == init;
      init + [last]
  }

  /**
   * `date.toISOString().slice(0, 10)` for a year below 10000: it has the
   * `YYYY-MM-DD` shape and reads back as the same year, month and day.
   */
  function IsoDate(d: Ymd): (s: string)
    requires d.year < 10000 && d.month < 100 && d.day < 100
    ensures MatchesDatePattern(s) && Fields(s) == d
  {
    var y := PadDigits(d.year, 4);
    var m := PadDigits(d.month, 2);
    var dd := PadDigits(d.day, 2);
    SlicesOfRendering(y, m, dd);
    y + "-" + m + "-" + dd
  }

  /** The round trip the validator performs. */
  predicate RoundTrips(s: string)
    requires MatchesDatePattern(s)
  {
    var parsed := ParseUtcMidnight(s);
    parsed.Some? && parsed.value.year < 10000 && IsoDate(parsed.value) == s
  }

  /** A date string is valid when it has the shape and denotes a real day. */
  predicate IsValidDate(s: string) {
    MatchesDatePattern(s) && IsCalendarDay(Fields(s))
  }

  lemma FieldsBounded(s: string)
    requires MatchesDatePattern(s)
    ensures Fields(s).year < 10000 && Fields(s).month < 100 && Fields(s).day < 100
  {
    assert |s[..4]| == 4 && |s[5..7]| == 2 && |s[8..]| == 2;
  }

  /** Two digit strings of the same length with the same value are equal. */
  lemma {:induction false} DigitsInjective(a: string, b: string)
    requires AllDigits(a) && AllDigits(b) && |a| == |b|
    requires DecimalValue(a) == DecimalValue(b)
    ensures a == b
    decreases |a|
  {
    if |a| > 0 {
      var n := |a| - 1;
      assert DigitValue(a[n]) == DecimalValue(a) % 10;
      assert DigitValue(b[n]) == DecimalValue(b) % 10;
      DigitsInjective(a[..n], b[..n]);
      assert a == a[..n] + [a[n]];
      assert b == b[..n] + [b[n]];
    }
  }

  /** Rendering the fields of a pattern-matching string gives the string back. */
  lemma IsoDateOfFields(s: string)
    requires MatchesDatePattern(s)
    ensures var d := Fields(s); d.year < 10000 && d.month < 100 && d.day < 100 && IsoDate(d) == s
  {
    FieldsBounded(s);
    FieldsInjective(IsoDate(Fields(s)), s);
  }

  /** Two pattern-matching strings that spell the same year, month and day are equal. */
  lemma FieldsInjective(a: string, b: string)
    requires MatchesDatePattern(a) && MatchesDatePattern(b) && Fields(a) == Fields(b)
    ensures a == b
  {
    DigitsInjective(a[..4], b[..4]);
    DigitsInjective(a[5..7], b[5..7]);
    DigitsInjective(a[8..], b[8..]);
    DateFromSlices(a);
    DateFromSlices(b);
  }

  lemma DateFromSlices(s: string)
    requires MatchesDatePattern(s)
    ensures s == s[..4] + "-" + s[5..7] + "-" + s[8..]
  {
  }

  /** Reading the fields of a rendered date gives the date back. */
  lemma SlicesOfRendering(y: string, m: string, d: string)
    requires |y| == 4 && |m| == 2 && |d| == 2
    ensures var s := y + "-" + m + "-" + d;
      s[..4] == y && s[4] == '-' && s[5..7] == m && s[7] == '-' && s[8..] == d
  {
  }

  /** The `Date` round trip accepts exactly the real calendar days. */
  lemma RoundTripIsCalendarDay(s: string)
    requires MatchesDatePattern(s)
    ensures RoundTrips(s) <==> IsCalendarDay(Fields(s))
  {
    FieldsBounded(s);
    var d := Fields(s);
    var parsed := ParseUtcMidnight(s);
    if IsCalendarDay(d) {
      IsoDateOfFields(s);
    } else if parsed.Some? && parsed.value.year < 10000 {
      RealDayRendersElsewhere(s, parsed.value);
    }
  }

  /** A real day is never rendered as a string that spells a day the calendar lacks. */
  lemma RealDayRendersElsewhere(s: string, e: Ymd)
    requires MatchesDatePattern(s) && !IsCalendarDay(Fields(s))
    requires IsCalendarDay(e) && e.year < 10000
    ensures IsoDate(e) != s
  {
    assert Fields(IsoDate(e)) == e;
  }

  /** The test body's date "2025-03-15" is valid. */
  lemma DateExampleValid()
    ensures IsValidDate("2025-03-15")
  {
    var s := "2025-03-15";
    assert s[0] == '2' && s[1] == '0' && s[2] == '2' && s[3] == '5';
    assert s[5] == '0' && s[6] == '3' && s[8] == '1' && s[9] == '5';
    assert MatchesDatePattern(s);
    Digits4(s);
  }

  /** February 30th does not exist, so "2025-02-30" is refused. */
  lemma DateExampleFebruary30()
    ensures !IsValidDate("2025-02-30")
  {
    var s := "2025-02-30";
    assert s[0] == '2' && s[1] == '0' && s[2] == '2' && s[3] == '5';
    assert s[5] == '0' && s[6] == '2' && s[8] == '3' && s[9] == '0';
    assert MatchesDatePattern(s);
    Digits4(s);
  }

  /** February 29th exists in 2024 but not in 2025. */
  lemma DateExampleLeapDay()
    ensures IsValidDate("2024-02-29")
    ensures !IsValidDate("2025-02-29")
  {
    var s := "2024-02-29";
    assert s[0] == '2' && s[1] == '0' && s[2] == '2' && s[3] == '4';
    assert s[5] == '0' && s[6] == '2' && s[8] == '2' && s[9] == '9';
    assert MatchesDatePattern(s);
    Digits4(s);
    var t := "2025-02-29";
    assert t[0] == '2' && t[1] == '0' && t[2] == '2' && t[3] == '5';
    assert t[5] == '0' && t[6] == '2' && t[8] == '2' && t[9] == '9';
    assert MatchesDatePattern(t);
    Digits4(t);
  }

  /** A day-first date does not have the shape. */
  lemma DateExampleDayFirst()
    ensures !IsValidDate("15-03-2025")
  {
    assert "15-03-2025"[4] == '3';
  }

  /** Unfolds `Fields` on a concrete date string. */
  lemma Digits4(s: string)
    requires MatchesDatePattern(s)
    ensures Fields(s) == Ymd(
      1000 * DigitValue(s[0]) + 100 * DigitValue(s[1]) + 10 * DigitValue(s[2]) + DigitValue(s[3]),
      10 * DigitValue(s[5]) + DigitValue(s[6]),
      10 * DigitValue(s[8]) + DigitValue(s[9]))
  {
    var y := s[..4];
    assert IsDigit(y[0]) && IsDigit(y[1]) && IsDigit(y[2]) && IsDigit(y[3]);
    assert y[..3][..2][..1][..0] == "";
    assert DecimalValue(y[..3][..2][..1]) == DigitValue(s[0]);
    assert DecimalValue(y[..3][..2]) == 10 * DigitValue(s[0]) + DigitValue(s[1]);
    assert DecimalValue(y[..3]) == 100 * DigitValue(s[0]) + 10 * DigitValue(s[1]) + DigitValue(s[2]);
    var m := s[5..7];
    assert IsDigit(m[0]) && IsDigit(m[1]);
    assert m[..1][..0] == "";
    assert DecimalValue(m[..1]) == DigitValue(s[5]);
    var d := s[8..];
    assert IsDigit(d[0]) && IsDigit(d[1]);
    assert d[..1][..0] == "";
    assert DecimalValue(d[..1]) == DigitValue(s[8]);
  }
}
