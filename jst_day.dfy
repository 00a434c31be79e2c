/**
 * The aggregation-day label of the quota ledger (getAggregationDateInJST in
 * src/utils/supabase/serverClient.ts): a millisecond UTC instant is shifted to
 * UTC+9, and before 17:00 in that clock the previous calendar day's label is used.
 * Only the UTC fields of the shifted instant are read, so the host time zone plays
 * no part. The calendar is the proleptic Gregorian one of ECMA-262 (section 21.4.1).
 */
module JstDay {
  import JsNumber

  const MsPerHour: int := 3_600_000
  const MsPerDay: int := 86_400_000
  /** ECMA-262 time values lie in [-MaxTime, MaxTime]; outside it a Date is invalid (NaN). */
  const MaxTime: int := 8_640_000_000_000_000
  /** The label an invalid Date produces: every field formats as "NaN". */
  const NaNLabel: string := "NaN-NaN-NaN"

  datatype Date = Date(year: int, month: int, day: int)

  predicate IsLeap(y: int) {
    y % 4 == 0 && (y % 100 != 0 || y % 400 == 0)
  }

  function DaysInYear(y: int): int {
    if IsLeap(y) then 366 else 365
  }

  function DaysInMonth(y: int, m: int): int {
    if m == 2 then (if IsLeap(y) then 29 else 28)
    else if m == 4 || m == 6 || m == 9 || m == 11 then 30
    else 31
  }

  lemma {:induction false} MonthLength(y: int, m: int)
    ensures 28 <= DaysInMonth(y, m) <= 31
  {
  }

  predicate ValidDate(d: Date) {
    1 <= d.month <= 12 && 1 <= d.day <= DaysInMonth(d.year, d.month)
  }

  /** The calendar day after `d`. */
  function NextDate(d: Date): Date {
    if d.day < DaysInMonth(d.year, d.month) then Date(d.year, d.month, d.day + 1)
    else if d.month < 12 then Date(d.year, d.month + 1, 1)
    else Date(d.year + 1, 1, 1)
  }

  /** Calendar order: year, then month, then day. */
  predicate Before(a: Date, b: Date) {
    a.year < b.year || (a.year == b.year && (a.month < b.month || (a.month == b.month && a.day < b.day)))
  }

  /** ECMA-262 DayFromYear: the day number of 1 January of year `y`, counted from 1970-01-01. */
  function DayFromYear(y: int): int {
    365 * (y - 1970) + (y - 1969) / 4 - (y - 1901) / 100 + (y - 1601) / 400
  }

  /** The year holding day `d`, counted from 1 January of year `y`, and the day within that
      year, found by walking one year at a time. */
  function YearAndDay(d: int, y: int): (r: (int, int))
    ensures 0 <= r.1 < DaysInYear(r.0)
    decreases if d < 0 then 1 else 0, if d < 0 then -d else d
  {
    if d < 0 then YearAndDay(d + DaysInYear(y - 1), y - 1)
    else if d < DaysInYear(y) then (y, d)
    else YearAndDay(d - DaysInYear(y), y + 1)
  }

  /** ECMA-262 MonthFromTime, given the day within the year: 0 for January. */
  function MonthFromDay(d: int, leap: bool): int {
    var l := if leap then 1 else 0;
    if d < 31 then 0
    else if d < 59 + l then 1
    else if d < 90 + l then 2
    else if d < 120 + l then 3
    else if d < 151 + l then 4
    else if d < 181 + l then 5
    else if d < 212 + l then 6
    else if d < 243 + l then 7
    else if d < 273 + l then 8
    else if d < 304 + l then 9
    else if d < 334 + l then 10
    else 11
  }

  /** ECMA-262 DateFromTime, given the day within the year: the day of the month from 1. */
  function DateFromDay(d: int, leap: bool): int {
    var l := if leap then 1 else 0;
    match MonthFromDay(d, leap)
    case 0 => d + 1
    case 1 => d - 30
    case 2 => d - 58 - l
    case 3 => d - 89 - l
    case 4 => d - 119 - l
    case 5 => d - 150 - l
    case 6 => d - 180 - l
    case 7 => d - 211 - l
    case 8 => d - 242 - l
    case 9 => d - 272 - l
    case 10 => d - 303 - l
    case _ => d - 333 - l
  }

  /** The calendar date of day `k` (from 0) of year `y`, with a one-based month as
      getUTCMonth() + 1 gives it. */
  function DateInYear(y: int, k: int): Date {
    Date(y, MonthFromDay(k, IsLeap(y)) + 1, DateFromDay(k, IsLeap(y)))
  }

  /** The calendar date of day number `days` (0 is 1970-01-01). */
  function CivilFromDays(days: int): Date {
    var yd := YearAndDay(days, 1970);
    DateInYear(yd.0, yd.1)
  }

  /** ECMA-262 HourFromTime. */
  function HourFromTime(t: int): int {
    (t / MsPerHour) % 24
  }

  /** ECMA-262 Day: the day number holding time value `t`. */
  function Day(t: int): int {
    t / MsPerDay
  }

  predicate IsTimeValue(t: int) {
    -MaxTime <= t <= MaxTime
  }

  /** `${yyyy}-${mm}-${dd}` with the month and day padded to two digits. */
  function DateLabel(d: Date): string {
    JsNumber.NumberToString(d.year) + "-" + JsNumber.Pad2(d.month) + "-" + JsNumber.Pad2(d.day)
  }

  /** getAggregationDateInJST(new Date(t)) for a valid instant `t`. */
  function AggregationDate(t: int): string
    requires IsTimeValue(t)
  {
    var jst := t + 9 * MsPerHour;
    if !IsTimeValue(jst) then NaNLabel
    else
      var target := if HourFromTime(jst) >= 17 then jst else jst - MsPerDay;
      if !IsTimeValue(target) then NaNLabel
      else DateLabel(CivilFromDays(Day(target)))
  }

  /** The 24-hour window holding `t`: windows start at 08:00:00.000 UTC (17:00 in UTC+9). */
  function WindowIndex(t: int): int {
    (t - 8 * MsPerHour) / MsPerDay
  }

  /** The instants for which neither shifted Date leaves the ECMA-262 range. */
  predicate InLabelRange(t: int) {
    IsTimeValue(t + 9 * MsPerHour) && IsTimeValue(t + 9 * MsPerHour - MsPerDay)
  }

  // ---------------------------------------------------------------- calendar facts

  /** Consecutive years are DaysInYear apart in ECMA-262's closed form. */
  lemma {:induction false} DayFromYearStep(y: int)
    ensures DayFromYear(y + 1) == DayFromYear(y) + DaysInYear(y)
  {
    LeapTerms(y);
    PeriodsNest(y);
    assert DayFromYear(y + 1) - DayFromYear(y) ==
      365 + ((y - 1968) / 4 - (y - 1969) / 4) - ((y - 1900) / 100 - (y - 1901) / 100) + ((y - 1600) / 400 - (y - 1601) / 400);
  }

  /** A multiple of 400 is one of 100, and a multiple of 100 is one of 4. */
  lemma {:induction false} PeriodsNest(y: int)
    ensures y % 400 == 0 ==> y % 100 == 0
    ensures y % 100 == 0 ==> y % 4 == 0
  {
    if y % 400 == 0 {
      Nest400(y);
    }
    if y % 100 == 0 {
      Nest100(y);
    }
  }

  lemma {:induction false} Nest400(y: int)
    requires y % 400 == 0
    ensures y % 100 == 0
  {
    var k := y / 400;
    assert y == 100 * (4 * k);
  }

  lemma {:induction false} Nest100(y: int)
    requires y % 100 == 0
    ensures y % 4 == 0
  {
    var k := y / 100;
    assert y == 4 * (25 * k);
  }

  /** Each leap-year term of DayFromYear moves up by one from year `y` to `y + 1` exactly
      when `y` is a multiple of its period. */
  lemma {:induction false} LeapTerms(y: int)
    ensures (y - 1968) / 4 - (y - 1969) / 4 == (if y % 4 == 0 then 1 else 0)
    ensures (y - 1900) / 100 - (y - 1901) / 100 == (if y % 100 == 0 then 1 else 0)
    ensures (y - 1600) / 400 - (y - 1601) / 400 == (if y % 400 == 0 then 1 else 0)
  {
    LeapTerm4(y);
    LeapTerm100(y);
    LeapTerm400(y);
  }

  lemma {:induction false} LeapTerm4(y: int)
    ensures (y - 1968) / 4 - (y - 1969) / 4 == (if y % 4 == 0 then 1 else 0)
  {
  }

  lemma {:induction false} LeapTerm100(y: int)
    ensures (y - 1900) / 100 - (y - 1901) / 100 == (if y % 100 == 0 then 1 else 0)
  {
  }

  lemma {:induction false} LeapTerm400(y: int)
    ensures (y - 1600) / 400 - (y - 1601) / 400 == (if y % 400 == 0 then 1 else 0)
  {
  }

  lemma {:induction false} DayFromYearMonotone(a: int, b: int)
    requires a <= b
    ensures DayFromYear(a) + 365 * (b - a) <= DayFromYear(b)
    decreases b - a
  {
    if a < b {
      DayFromYearMonotone(a, b - 1);
      DayFromYearStep(b - 1);
    }
  }

  /** The walk agrees with ECMA-262's closed form: day `d` from 1 January of `y0` lies in
      year y at day k exactly when d == DayFromYear(y) - DayFromYear(y0) + k. */
  lemma {:induction false} YearAndDaySound(d: int, y0: int)
    ensures DayFromYear(YearAndDay(d, y0).0) - DayFromYear(y0) + YearAndDay(d, y0).1 == d
    decreases if d < 0 then 1 else 0, if d < 0 then -d else d
  {
    if d < 0 {
      YearAndDaySound(d + DaysInYear(y0 - 1), y0 - 1);
      DayFromYearStep(y0 - 1);
    } else if d >= DaysInYear(y0) {
      YearAndDaySound(d - DaysInYear(y0), y0 + 1);
      DayFromYearStep(y0);
    }
  }

  /** ...and the year is the only one that fits, so the walk computes ECMA-262's YearFromTime. */
  lemma {:induction false} YearAndDayClosed(y: int, k: int)
    requires 0 <= k < DaysInYear(y)
    ensures YearAndDay(DayFromYear(y) + k, 1970) == (y, k)
  {
    var d := DayFromYear(y) + k;
    var r := YearAndDay(d, 1970);
    YearAndDaySound(d, 1970);
    assert DayFromYear(1970) == 0;
    YearDayUnique(r.0, r.1, y, k);
  }

  /** A day number has one (year, day within the year) pair. */
  lemma {:induction false} YearDayUnique(y1: int, k1: int, y2: int, k2: int)
    requires 0 <= k1 < DaysInYear(y1) && 0 <= k2 < DaysInYear(y2)
    requires DayFromYear(y1) + k1 == DayFromYear(y2) + k2
    ensures y1 == y2 && k1 == k2
  {
    if y1 < y2 {
      DayFromYearMonotone(y1 + 1, y2);
      DayFromYearStep(y1);
    } else if y1 > y2 {
      DayFromYearMonotone(y2 + 1, y1);
      DayFromYearStep(y2);
    }
  }

  lemma {:induction false} DateInYearValid(y: int, k: int)
    requires 0 <= k < DaysInYear(y)
    ensures ValidDate(DateInYear(y, k))
  {
  }

  /** Every day number names a real calendar date. */
  lemma {:induction false} CivilFromDaysValid(days: int)
    ensures ValidDate(CivilFromDays(days))
  {
    var yd := YearAndDay(days, 1970);
    DateInYearValid(yd.0, yd.1);
  }

  /** Inside a year, the next day number is the next calendar date; the last day of a
      year is followed by 1 January. */
  lemma {:induction false} DateInYearNext(y: int, k: int)
    requires 0 <= k < DaysInYear(y)
    ensures k + 1 < DaysInYear(y) ==> DateInYear(y, k + 1) == NextDate(DateInYear(y, k))
    ensures k + 1 == DaysInYear(y) ==> DateInYear(y + 1, 0) == NextDate(DateInYear(y, k))
  {
  }

  /** One step of the year walk: the day after (y, k) is (y, k + 1) or (y + 1, 0). */
  lemma {:induction false} YearAndDayNext(d: int, y0: int)
    ensures var r := YearAndDay(d, y0);
      YearAndDay(d + 1, y0) == if r.1 + 1 < DaysInYear(r.0) then (r.0, r.1 + 1) else (r.0 + 1, 0)
    decreases if d < 0 then 1 else 0, if d < 0 then -d else d
  {
    if d < 0 {
      if d + 1 < 0 {
        YearAndDayNext(d + DaysInYear(y0 - 1), y0 - 1);
      }
    } else if d >= DaysInYear(y0) {
      YearAndDayNext(d - DaysInYear(y0), y0 + 1);
    } else if d + 1 == DaysInYear(y0) {
      assert YearAndDay(d + 1, y0) == YearAndDay(0, y0 + 1);
    }
  }

  /** Day number `days + 1` is the calendar day after day number `days`. */
  lemma {:induction false} CivilFromDaysNext(days: int)
    ensures CivilFromDays(days + 1) == NextDate(CivilFromDays(days))
  {
    var r := YearAndDay(days, 1970);
    YearAndDayNext(days, 1970);
    DateInYearNext(r.0, r.1);
  }

  lemma {:induction false} NextDateAfter(d: Date)
    requires ValidDate(d)
    ensures Before(d, NextDate(d)) && ValidDate(NextDate(d))
  {
  }

  /** Later day numbers give later dates, so different days never share a date. */
  lemma {:induction false} CivilFromDaysIncreasing(d1: int, d2: int)
    requires d1 < d2
    ensures Before(CivilFromDays(d1), CivilFromDays(d2))
    decreases d2 - d1
  {
    CivilFromDaysNext(d2 - 1);
    CivilFromDaysValid(d2 - 1);
    NextDateAfter(CivilFromDays(d2 - 1));
    if d1 < d2 - 1 {
      CivilFromDaysIncreasing(d1, d2 - 1);
    }
  }

  // ---------------------------------------------------------------- the day boundary

  /** The code's rule (UTC+9 hour at least 17: that day, else the day before) is the same
      as taking the 24-hour window that starts at 08:00 UTC. */
  lemma {:induction false} AggregationWindow(t: int)
    requires IsTimeValue(t) && InLabelRange(t)
    ensures AggregationDate(t) == DateLabel(CivilFromDays(WindowIndex(t)))
  {
    WindowOfShift(t);
  }

  /** The arithmetic of the rule: the hour test picks the day that starts the window. */
  lemma {:induction false} WindowOfShift(t: int)
    ensures var jst := t + 9 * MsPerHour;
      (HourFromTime(jst) >= 17 ==> WindowIndex(t) == Day(jst)) &&
      (HourFromTime(jst) < 17 ==> WindowIndex(t) == Day(jst - MsPerDay))
  {
    var jst := t + 9 * MsPerHour;
    var q := jst / MsPerDay;
    var r := jst % MsPerDay;
    assert jst == q * MsPerDay + r && 0 <= r < MsPerDay;
    assert jst / MsPerHour == 24 * q + r / MsPerHour;
    assert HourFromTime(jst) == r / MsPerHour;
    if r >= 17 * MsPerHour {
      assert WindowIndex(t) == q;
    } else {
      assert Day(jst - MsPerDay) == q - 1;
      assert WindowIndex(t) == q - 1;
    }
  }

  /** Two instants in the same window get the same label. */
  lemma {:induction false} SameWindowSameLabel(t1: int, t2: int)
    requires IsTimeValue(t1) && InLabelRange(t1) && IsTimeValue(t2) && InLabelRange(t2)
    requires WindowIndex(t1) == WindowIndex(t2)
    ensures AggregationDate(t1) == AggregationDate(t2)
  {
    AggregationWindow(t1);
    AggregationWindow(t2);
  }

  /** An instant 24 hours later is labelled with the next calendar date. */
  lemma {:induction false} LabelOneDayLater(t: int)
    requires IsTimeValue(t) && InLabelRange(t)
    requires IsTimeValue(t + MsPerDay) && InLabelRange(t + MsPerDay)
    ensures AggregationDate(t + MsPerDay) == DateLabel(NextDate(CivilFromDays(WindowIndex(t))))
  {
    AggregationWindow(t);
    AggregationWindow(t + MsPerDay);
    assert WindowIndex(t + MsPerDay) == WindowIndex(t) + 1;
    CivilFromDaysNext(WindowIndex(t));
  }

  /** The label depends only on the instant, and the window starting at 08:00 UTC of day
      `k` is labelled with the date of day `k` up to its last millisecond. */
  lemma {:induction false} WindowBounds(k: int, offset: int)
    requires 0 <= offset < MsPerDay
    requires var t := k * MsPerDay + 8 * MsPerHour + offset; IsTimeValue(t) && InLabelRange(t)
    ensures AggregationDate(k * MsPerDay + 8 * MsPerHour + offset) == DateLabel(CivilFromDays(k))
  {
    var t := k * MsPerDay + 8 * MsPerHour + offset;
    AggregationWindow(t);
    WindowIndexOf(k, offset);
  }

  lemma {:induction false} WindowIndexOf(k: int, offset: int)
    requires 0 <= offset < MsPerDay
    ensures WindowIndex(k * MsPerDay + 8 * MsPerHour + offset) == k
  {
  }

  // ---------------------------------------------------------------- the label's form

  /** Reads a label back: the year is everything before the last six characters. */
  function ParseLabel(s: string): Date
    requires |s| >= 7
    requires JsNumber.AllDecimal(s[..|s| - 6]) && JsNumber.AllDecimal(s[|s| - 5..|s| - 3]) && JsNumber.AllDecimal(s[|s| - 2..])
  {
    Date(DecimalValue(s[..|s| - 6]), DecimalValue(s[|s| - 5..|s| - 3]), DecimalValue(s[|s| - 2..]))
  }

  function DecimalValue(s: string): int
    requires JsNumber.AllDecimal(s)
  {
    if |s| == 0 then 0 else DecimalValue(s[..|s| - 1]) * 10 + (s[|s| - 1] as int - '0' as int)
  }

  lemma {:induction false} DecimalValueOfDigits(n: nat)
    ensures DecimalValue(JsNumber.Digits(n)) == n
    decreases n
  {
    if n >= 10 {
      DecimalValueOfDigits(n / 10);
      var s := JsNumber.Digits(n);
      assert s[..|s| - 1] == JsNumber.Digits(n / 10);
    }
  }

  lemma {:induction false} Pad2Value(n: int)
    requires 0 <= n < 100
    ensures DecimalValue(JsNumber.Pad2(n)) == n
  {
    var s := JsNumber.Pad2(n);
    var h := s[..1];
    assert s[..|s| - 1] == h && h[..|h| - 1] == [];
    assert DecimalValue(h) == s[0] as int - '0' as int;
  }

  /** Where the pieces of `y-m-d` sit when `m` and `d` have two characters. */
  lemma {:induction false} DashedAt(y: string, m: string, d: string, r: string)
    requires |m| == 2 && |d| == 2 && r == y + "-" + m + "-" + d
    ensures |r| == |y| + 6 && r[..|r| - 6] == y && r[|r| - 6] == '-' && r[|r| - 5..|r| - 3] == m &&
      r[|r| - 3] == '-' && r[|r| - 2..] == d
  {
    var t := "-" + m + "-" + d;
    assert t == ['-', m[0], m[1], '-', d[0], d[1]];
    assert r == y + t;
    assert r[..|y|] == y && r[|y|..] == t;
  }

  /** For a date of a year from 0 on, the label is `<year digits>-MM-DD` and reading it back
      gives the date: different dates get different labels. */
  lemma {:induction false} LabelRoundTrip(d: Date)
    requires ValidDate(d) && d.year >= 0
    ensures var s := DateLabel(d);
      |s| >= 7 && s[|s| - 6] == '-' && s[|s| - 3] == '-'
      && JsNumber.AllDecimal(s[..|s| - 6]) && JsNumber.AllDecimal(s[|s| - 5..|s| - 3]) && JsNumber.AllDecimal(s[|s| - 2..])
      && ParseLabel(s) == d
  {
    assert 1 <= d.day <= 31 by { MonthLength(d.year, d.month); }
    var y := JsNumber.Digits(d.year);
    var mm := JsNumber.Pad2(d.month);
    var dd := JsNumber.Pad2(d.day);
    var s := DateLabel(d);
    assert s == y + "-" + mm + "-" + dd;
    DashedAt(y, mm, dd, s);
    assert DecimalValue(s[..|s| - 6]) == d.year by { DecimalValueOfDigits(d.year); }
    assert DecimalValue(s[|s| - 5..|s| - 3]) == d.month by { Pad2Value(d.month); }
    assert DecimalValue(s[|s| - 2..]) == d.day by { Pad2Value(d.day); }
  }

  /** Years 1000 to 9999 give exactly `YYYY-MM-DD`, ten characters. */
  lemma {:induction false} LabelLength(d: Date)
    requires ValidDate(d) && 1000 <= d.year <= 9999
    ensures |DateLabel(d)| == 10
  {
    FourDigits(d.year);
    DashedAt(JsNumber.Digits(d.year), JsNumber.Pad2(d.month), JsNumber.Pad2(d.day), DateLabel(d));
  }

  lemma {:induction false} FourDigits(n: nat)
    requires 1000 <= n <= 9999
    ensures |JsNumber.Digits(n)| == 4
  {
    var a := n / 10;
    var b := a / 10;
    var c := b / 10;
    assert 100 <= a <= 999 && 10 <= b <= 99 && 1 <= c <= 9;
    assert |JsNumber.Digits(c)| == 1;
    assert |JsNumber.Digits(b)| == 2;
    assert |JsNumber.Digits(a)| == 3;
  }

  /** Different windows get different labels (in years from 0 on). */
  lemma {:induction false} DifferentWindowsDifferentLabels(t1: int, t2: int)
    requires IsTimeValue(t1) && InLabelRange(t1) && IsTimeValue(t2) && InLabelRange(t2)
    requires WindowIndex(t1) < WindowIndex(t2)
    requires CivilFromDays(WindowIndex(t1)).year >= 0
    ensures AggregationDate(t1) != AggregationDate(t2)
  {
    var d1 := CivilFromDays(WindowIndex(t1));
    var d2 := CivilFromDays(WindowIndex(t2));
    AggregationWindow(t1);
    AggregationWindow(t2);
    CivilFromDaysIncreasing(WindowIndex(t1), WindowIndex(t2));
    CivilFromDaysValid(WindowIndex(t1));
    CivilFromDaysValid(WindowIndex(t2));
    LabelRoundTrip(d1);
    LabelRoundTrip(d2);
  }

  // ---------------------------------------------------------------- worked instants

  /** An instant in the window that starts at 08:00 UTC on day `k` of year `y` is labelled
      with that day's date. */
  lemma {:induction false} WindowOfYearDay(y: int, k: int, t: int)
    requires 0 <= k < DaysInYear(y)
    requires (DayFromYear(y) + k) * MsPerDay + 8 * MsPerHour <= t < (DayFromYear(y) + k + 1) * MsPerDay + 8 * MsPerHour
    requires IsTimeValue(t) && InLabelRange(t)
    ensures AggregationDate(t) == DateLabel(DateInYear(y, k))
  {
    AggregationWindow(t);
    assert WindowIndex(t) == DayFromYear(y) + k;
    YearAndDayClosed(y, k);
  }

  /** The first two days of 2026 in the form the code writes them. */
  lemma {:induction false} EarlyJanuary2026Labels()
    ensures DateLabel(DateInYear(2026, 0)) == "2026-01-01"
    ensures DateLabel(DateInYear(2026, 1)) == "2026-01-02"
  {
    assert DateInYear(2026, 0) == Date(2026, 1, 1);
    assert DateInYear(2026, 1) == Date(2026, 1, 2);
    assert DateLabel(Date(2026, 1, 1)) == "2026-01-01";
    assert DateLabel(Date(2026, 1, 2)) == "2026-01-02";
  }

  /** 2026-01-02T07:59:59Z (16:59:59 in UTC+9) is labelled "2026-01-01". */
  lemma {:induction false} LastSecondBeforeCutoff(t: int)
    requires t == 20455 * MsPerDay + 8 * MsPerHour - 1000
    ensures AggregationDate(t) == "2026-01-01"
  {
    WindowOfYearDay(2026, 0, t);
    EarlyJanuary2026Labels();
  }

  /** 2026-01-02T08:00:00Z (17:00:00 in UTC+9) is labelled "2026-01-02". */
  lemma {:induction false} FirstInstantAfterCutoff(t: int)
    requires t == 20455 * MsPerDay + 8 * MsPerHour
    ensures AggregationDate(t) == "2026-01-02"
  {
    WindowOfYearDay(2026, 1, t);
    EarlyJanuary2026Labels();
  }

  /** 16:30 on 2026-01-02 in UTC+9 (07:30 UTC) is still in the window of 2026-01-01: the code
      gives "2026-01-01", as the 03:00 example beside it and the rule "before 17:00, the day
      before" say. */
  lemma {:induction false} AfternoonBeforeCutoff(t: int)
    requires t == 20455 * MsPerDay + 7 * MsPerHour + 30 * 60000
    ensures AggregationDate(t) == "2026-01-01"
  {
    WindowOfYearDay(2026, 0, t);
    EarlyJanuary2026Labels();
  }
}
