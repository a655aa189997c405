/**
 * Calendar dates and minute-resolution instants as the scripts obtain
 * them from pandas: `pd.to_datetime(..., format="%Y-%m-%d", errors="coerce")`
 * and `strftime("%Y-%m-%d")`, and Python's `weekday()` (Monday = 0).
 */
module Calendar {
  import opened Wrappers
  import opened Chars

  datatype Date = Date(year: int, month: int, day: int)

  predicate IsLeapYear(y: int) {
    y % 4 == 0 && (y % 100 != 0 || y % 400 == 0)
  }

  function DaysInMonth(y: int, m: int): int {
    if m == 2 then (if IsLeapYear(y) then 29 else 28)
    else if m == 4 || m == 6 || m == 9 || m == 11 then 30
    else 31
  }

  /** A proleptic Gregorian date with a four-digit year. */
  predicate IsCalendarDate(d: Date) {
    1 <= d.year <= 9999 && 1 <= d.month <= 12 && 1 <= d.day <= DaysInMonth(d.year, d.month)
  }

  predicate DateLe(a: Date, b: Date) {
    a.year < b.year || (a.year == b.year && (a.month < b.month || (a.month == b.month && a.day <= b.day)))
  }

  /**
   * The days whose midnight a pandas Timestamp can hold (its range is
   * 1677-09-21 00:12:43 to 2262-04-11 23:47:16); outside it `errors="coerce"`
   * gives NaT.
   */
  predicate InTimestampRange(d: Date) {
    DateLe(Date(1677, 9, 22), d) && DateLe(d, Date(2262, 4, 11))
  }

  predicate IsTimestampDate(d: Date) {
    IsCalendarDate(d) && InTimestampRange(d)
  }

  predicate AllDigits(s: string) {
    forall i :: 0 <= i < |s| ==> IsDigit(s[i])
  }

  /** The decimal value of a string of digits (`int(s)`). */
  function Number(s: string): (n: nat)
    requires AllDigits(s)
    decreases |s|
  {
    if s == [] then 0 else Number(s[..|s| - 1]) * 10 + DigitVal(s[|s| - 1])
  }

  /** A field of one or two digits, as `%m` and `%d` accept. */
  function ShortField(s: string): Option<nat> {
    if (|s| == 1 || |s| == 2) && AllDigits(s) then Some(Number(s)) else None
  }

  /**
   * The fields `%Y-%m-%d` accepts: four digits of year, a dash, one or two
   * digits of month, a dash, one or two digits of day, naming an existing
   * day; the Timestamp range is checked by the caller.
   */
  function ParseCalendarDate(s: string): (r: Option<Date>)
    ensures r.Some? ==> IsCalendarDate(r.value)
  {
    if |s| < 8 || !AllDigits(s[..4]) || s[4] != '-' then None
    else
      var rest := s[5..];
      var dash := if rest[1] == '-' then 1 else if rest[2] == '-' then 2 else 0;
      if dash == 0 then None
      else
        match (ShortField(rest[..dash]), ShortField(rest[dash + 1..]))
        case (Some(m), Some(dd)) =>
          var d := Date(Number(s[..4]), m, dd);
          if IsCalendarDate(d) then Some(d) else None
        case _ => None
  }

  /**
   * `pd.to_datetime(s, format="%Y-%m-%d", errors="coerce")`: a calendar
   * date whose midnight lies inside the Timestamp range; else NaT.
   */
  function ParseDate(s: string): (r: Option<Date>)
    ensures r.Some? ==> IsTimestampDate(r.value)
    ensures r.Some? <==> ParseCalendarDate(s).Some? && InTimestampRange(ParseCalendarDate(s).value)
    ensures r.Some? ==> r == ParseCalendarDate(s)
  {
    match ParseCalendarDate(s)
    case Some(d) => if InTimestampRange(d) then Some(d) else None
    case None => None
  }

  /** `strftime("%Y-%m-%d")`. */
  function FormatDate(d: Date): (s: string)
    requires IsCalendarDate(d)
    ensures |s| == 10
  {
    Pad2(d.year / 100) + Pad2(d.year % 100) + "-" + Pad2(d.month) + "-" + Pad2(d.day)
  }

  lemma NumberOfPad2(n: nat)
    requires n < 100
    ensures AllDigits(Pad2(n)) && Number(Pad2(n)) == n
  {
    var p := Pad2(n);
    assert p[..1][..0] == [];
    assert p[..1][..1 - 1] == [];
    assert Number(p[..1]) == DigitVal(p[0]);
    assert p[..2 - 1] == p[..1];
    assert Number(p) == Number(p[..1]) * 10 + DigitVal(p[1]);
  }

  lemma NumberOfPad4(y: nat)
    requires y < 10000
    ensures AllDigits(Pad2(y / 100) + Pad2(y % 100))
    ensures Number(Pad2(y / 100) + Pad2(y % 100)) == y
  {
    var hi, lo := Pad2(y / 100), Pad2(y % 100);
    var s := hi + lo;
    NumberOfPad2(y / 100);
    assert s[..3][..2] == hi && s[..2] == hi;
    assert s[..4 - 1] == s[..3];
    assert s[..3 - 1] == hi;
    assert Number(s[..3]) == Number(hi) * 10 + DigitVal(lo[0]);
    assert Number(s) == Number(s[..3]) * 10 + DigitVal(lo[1]);
    assert DigitVal(lo[0]) * 10 + DigitVal(lo[1]) == y % 100;
  }

  /** Formatting a date and parsing it back gives the same date. */
  lemma ParseFormatDate(d: Date)
    requires IsTimestampDate(d)
    ensures ParseDate(FormatDate(d)) == Some(d)
  {
    ParseFormatCalendarDate(d);
  }

  lemma ParseFormatCalendarDate(d: Date)
    requires IsCalendarDate(d)
    ensures ParseCalendarDate(FormatDate(d)) == Some(d)
  {
    var s := FormatDate(d);
    var y4 := Pad2(d.year / 100) + Pad2(d.year % 100);
    NumberOfPad4(d.year);
    NumberOfPad2(d.month);
    NumberOfPad2(d.day);
    assert s[..4] == y4;
    var rest := s[5..];
    assert rest == Pad2(d.month) + "-" + Pad2(d.day);
    assert rest[..2] == Pad2(d.month);
    assert rest[3..] == Pad2(d.day);
  }

  /** The dates of the two ends of the Timestamp range, as the merge script reads them. */
  lemma ParseEarliestDay()
    ensures ParseCalendarDate("1677-09-21") == Some(Date(1677, 9, 21))
    ensures ParseDate("1677-09-21").None?
  {
    ParseFormatCalendarDate(Date(1677, 9, 21));
    assert FormatDate(Date(1677, 9, 21)) == "1677-09-21";
  }

  lemma ParseLatestDay()
    ensures ParseCalendarDate("2262-04-11") == Some(Date(2262, 4, 11))
    ensures ParseDate("2262-04-11") == Some(Date(2262, 4, 11))
  {
    ParseFormatCalendarDate(Date(2262, 4, 11));
    assert FormatDate(Date(2262, 4, 11)) == "2262-04-11";
  }

  /**
   * Days from 1970-01-01 to the 1st of March of year `y` (the
   * days-from-civil algorithm of H. Hinnant, whose years start in March so
   * that the leap day comes last).
   */
  function ShiftedYearStart(y: int): int {
    var era := y / 400;
    var yoe := y - era * 400;
    era * 146097 + yoe * 365 + yoe / 4 - yoe / 100 - 719468
  }

  /** Days from the 1st of March to the 1st of the month `mp` months later. */
  function MonthStart(mp: int): int {
    (153 * mp + 2) / 5
  }

  /** Days since 1970-01-01. */
  function DayNumber(d: Date): int {
    var y := if d.month <= 2 then d.year - 1 else d.year;
    var mp := if d.month > 2 then d.month - 3 else d.month + 9;
    ShiftedYearStart(y) + MonthStart(mp) + d.day - 1
  }

  /** `date.weekday()`: Monday is 0 and Sunday is 6 (1970-01-01 was a Thursday). */
  function Weekday(d: Date): (w: int)
    ensures 0 <= w < 7
  {
    (DayNumber(d) + 3) % 7
  }

  /** The calendar day after `d`. */
  function NextDay(d: Date): Date {
    if d.day < DaysInMonth(d.year, d.month) then Date(d.year, d.month, d.day + 1)
    else if d.month < 12 then Date(d.year, d.month + 1, 1)
    else Date(d.year + 1, 1, 1)
  }

  /** `400 * m + r` has the remainders of `r` modulo 4, 100 and 400. */
  lemma EraRemainders(m: int, r: int)
    ensures (400 * m + r) % 4 == r % 4
    ensures (400 * m + r) % 100 == r % 100
    ensures (400 * m + r) % 400 == r % 400
  {
    EraRemainder4(m, r);
    EraRemainder100(m, r);
    var q, s := r / 400, r % 400;
    assert r == 400 * q + s;
    assert 400 * m + r == 400 * (m + q) + s;
  }

  lemma EraRemainder4(m: int, r: int)
    ensures (400 * m + r) % 4 == r % 4
  {
    var q, s := r / 4, r % 4;
    assert r == 4 * q + s;
    assert 400 * m + r == 4 * (100 * m + q) + s;
  }

  lemma EraRemainder100(m: int, r: int)
    ensures (400 * m + r) % 100 == r % 100
  {
    var q, s := r / 100, r % 100;
    assert r == 100 * q + s;
    assert 400 * m + r == 100 * (4 * m + q) + s;
  }

  /** Going from `o - 1` to `o` adds one to `o / k` exactly when `k` divides `o`. */
  lemma QuotientStep4(o: int)
    ensures o / 4 - (o - 1) / 4 == if o % 4 == 0 then 1 else 0
  {
    var q, r := (o - 1) / 4, (o - 1) % 4;
    assert o - 1 == 4 * q + r;
    if r == 3 { assert o == 4 * (q + 1); } else { assert o == 4 * q + (r + 1); }
  }

  lemma QuotientStep100(o: int)
    ensures o / 100 - (o - 1) / 100 == if o % 100 == 0 then 1 else 0
  {
    var q, r := (o - 1) / 100, (o - 1) % 100;
    assert o - 1 == 100 * q + r;
    if r == 99 { assert o == 100 * (q + 1); } else { assert o == 100 * q + (r + 1); }
  }

  /** The year counts of `ShiftedYearStart` from year `y` to year `y + 1` of the same era. */
  lemma EraYearsInEra(y: int)
    requires y % 400 != 399
    ensures var o := y % 400 + 1;
      ShiftedYearStart(y + 1) - ShiftedYearStart(y) == 365 + (o / 4 - (o - 1) / 4) - (o / 100 - (o - 1) / 100)
  {
    var e, o := y / 400, y % 400;
    assert y == 400 * e + o;
    assert (y + 1) / 400 == e && (y + 1) - e * 400 == o + 1;
  }

  /** Within one era, the leap rule read off the position in the era. */
  lemma ShiftedYearLengthInEra(y: int)
    requires y % 400 != 399
    ensures ShiftedYearStart(y + 1) - ShiftedYearStart(y) == if IsLeapYear(y + 1) then 366 else 365
  {
    var e, o := y / 400, y % 400 + 1;
    assert y + 1 == 400 * e + o;
    LeapInEra(e, o);
    EraYearsInEra(y);
    YearCountStep(o);
  }

  /** Past the first year of an era, the leap rule needs only the rules of 4 and 100. */
  lemma LeapInEra(e: int, o: int)
    requires 0 < o < 400
    ensures IsLeapYear(400 * e + o) == (o % 4 == 0 && o % 100 != 0)
  {
    EraRemainders(e, o);
  }

  /** The year counts of `ShiftedYearStart` add the leap day of year `o` of an era. */
  lemma YearCountStep(o: int)
    requires 0 < o < 400
    ensures 365 + (o / 4 - (o - 1) / 4) - (o / 100 - (o - 1) / 100) == if o % 4 == 0 && o % 100 != 0 then 366 else 365
  {
    QuotientStep4(o);
    QuotientStep100(o);
  }

  /** From the last year of an era to the first year of the next, a leap year. */
  lemma ShiftedYearLengthAcrossEras(y: int)
    requires y % 400 == 399
    ensures IsLeapYear(y + 1)
    ensures ShiftedYearStart(y + 1) - ShiftedYearStart(y) == 366
  {
    var e := y / 400;
    assert y == 400 * e + 399;
    assert (y + 1) / 400 == e + 1;
    EraRemainders(e + 1, 0);
  }

  /** The year from March of `y` to February of `y + 1` has a leap day exactly when `y + 1` is a leap year. */
  lemma ShiftedYearLength(y: int)
    ensures ShiftedYearStart(y + 1) - ShiftedYearStart(y) == if IsLeapYear(y + 1) then 366 else 365
  {
    if y % 400 == 399 {
      ShiftedYearLengthAcrossEras(y);
    } else {
      ShiftedYearLengthInEra(y);
    }
  }

  /** The lengths of the months from March (0) to January (10) of the next year. */
  lemma MonthStartStep(mp: int)
    requires 0 <= mp < 11
    ensures MonthStart(mp + 1) - MonthStart(mp) == if mp == 1 || mp == 3 || mp == 6 || mp == 8 then 30 else 31
  {
  }

  /** Consecutive days have consecutive day numbers. */
  lemma DayNumberNext(d: Date)
    requires IsCalendarDate(d)
    ensures IsCalendarDate(NextDay(d)) || d == Date(9999, 12, 31)
    ensures DayNumber(NextDay(d)) == DayNumber(d) + 1
  {
    if d.day == DaysInMonth(d.year, d.month) {
      if d.month == 2 {
        ShiftedYearLength(d.year - 1);
        assert MonthStart(11) == 337 && MonthStart(0) == 0;
      } else {
        MonthStartStep(if d.month > 2 then d.month - 3 else d.month + 9);
      }
    }
  }

  lemma ModSevenNext(n: int)
    ensures (n + 1) % 7 == (n % 7 + 1) % 7
  {
    var q, r := n / 7, n % 7;
    assert n == 7 * q + r;
    if r == 6 {
      assert n + 1 == 7 * (q + 1);
    } else {
      assert n + 1 == 7 * q + (r + 1);
    }
  }

  /** The weekday advances by one, modulo seven, from each day to the next. */
  lemma WeekdayNext(d: Date)
    requires IsCalendarDate(d)
    ensures Weekday(NextDay(d)) == (Weekday(d) + 1) % 7
  {
    DayNumberNext(d);
    ModSevenNext(DayNumber(d) + 3);
  }

  /** A date and a minute of that day, as a Timestamp with zero seconds. */
  datatype Instant = Instant(date: Date, minute: int)

  /** Minutes since 1970-01-01 00:00. */
  function Minutes(t: Instant): int {
    DayNumber(t.date) * 1440 + t.minute
  }

  /**
   * The whole minutes a pandas Timestamp can hold: its range is 2^63 - 1
   * nanoseconds either side of the epoch, which is 153722867 minutes and a
   * fraction, from 1677-09-21 00:13 to 2262-04-11 23:47.
   */
  const TimestampMinutes: int := 153722867

  predicate InTimestampInstant(t: Instant) {
    -TimestampMinutes <= Minutes(t) <= TimestampMinutes
  }

  /** The two ends of the Timestamp range fall inside a day. */
  lemma TimestampInstantLimits()
    ensures TimestampMinutes * 60 * 1000000000 <= 0x7fff_ffff_ffff_ffff < (TimestampMinutes + 1) * 60 * 1000000000
    ensures InTimestampInstant(Instant(Date(1677, 9, 21), 13))
    ensures !InTimestampInstant(Instant(Date(1677, 9, 21), 12))
    ensures InTimestampInstant(Instant(Date(2262, 4, 11), 23 * 60 + 47))
    ensures !InTimestampInstant(Instant(Date(2262, 4, 11), 23 * 60 + 50))
    ensures !InTimestampRange(Date(1677, 9, 21)) && InTimestampRange(Date(2262, 4, 11))
  {
    DayNumberRangeEnds();
  }

  /** Minutes either side of the ends of the Timestamp range. */
  lemma RangeEndInstants()
    ensures InTimestampInstant(Instant(Date(1677, 9, 21), 20)) && !InTimestampInstant(Instant(Date(1677, 9, 21), 10))
    ensures InTimestampInstant(Instant(Date(2262, 4, 11), 23 * 60 + 40)) && !InTimestampInstant(Instant(Date(2262, 4, 11), 23 * 60 + 50))
  {
    DayNumberRangeEnds();
  }

  /** The day numbers of the first and last days of the Timestamp range. */
  lemma DayNumberRangeEnds()
    ensures DayNumber(Date(1677, 9, 21)) == -106752 && DayNumber(Date(2262, 4, 11)) == 106751
  {
  }

  /** `abs(a - b)` in minutes. */
  function Dist(a: Instant, b: Instant): (r: nat)
    ensures r == Minutes(a) - Minutes(b) || r == Minutes(b) - Minutes(a)
  {
    if Minutes(a) >= Minutes(b) then Minutes(a) - Minutes(b) else Minutes(b) - Minutes(a)
  }

  /** Known weekdays: the epoch, a leap day, and the weekend of 2025-10-12. */
  lemma WeekdayOfEpoch()
    ensures DayNumber(Date(1970, 1, 1)) == 0 && Weekday(Date(1970, 1, 1)) == 3
  {
  }

  lemma WeekdayOfLeapDay()
    ensures DayNumber(Date(2000, 2, 29)) == 11016 && Weekday(Date(2000, 2, 29)) == 1
  {
  }

  /** Day numbers from March to December 2025. */
  lemma DayNumber2025(m: int, d: int)
    requires 3 <= m <= 12
    ensures DayNumber(Date(2025, m, d)) == 20147 + (153 * (m - 3) + 2) / 5 + d
  {
    assert 2025 / 400 == 5;
    assert 25 / 4 == 6 && 25 / 100 == 0;
  }

  lemma WeekdaysOctober2025()
    ensures Weekday(Date(2025, 10, 11)) == 5
    ensures Weekday(Date(2025, 10, 12)) == 6
    ensures Weekday(Date(2025, 10, 13)) == 0
  {
    assert (153 * 7 + 2) / 5 == 214;
    DayNumber2025(10, 11);
    DayNumber2025(10, 12);
    DayNumber2025(10, 13);
  }

  lemma WeekdayDecember8th2025()
    ensures Weekday(Date(2025, 12, 8)) == 0
  {
    assert (153 * 9 + 2) / 5 == 275;
    DayNumber2025(12, 8);
  }
}
