/**
 * Hour arithmetic on the proleptic Gregorian calendar, as the handler performs it with
 * `datetime` and `timedelta(hours=1)` / `timedelta(hours=24)`.
 *
 * Years are unbounded here; the range Python's `datetime` accepts (years 1 to 9999) is
 * the separate predicate `InRange`, so that a shift leaving the range can be reported
 * as the overflow it is.
 */
module Calendar {

  /** A calendar date and an hour of the day, the key of the historical table. */
  datatype DateHour = DateHour(year: int, month: int, day: int, hour: int)

  const MinYear: int := 1
  const MaxYear: int := 9999

  predicate IsLeapYear(y: int)
  {
    y % 4 == 0 && (y % 100 != 0 || y % 400 == 0)
  }

  function DaysInMonth(y: int, m: int): int
    requires 1 <= m <= 12
  {
    if m == 2 then (if IsLeapYear(y) then 29 else 28)
    else if m == 4 || m == 6 || m == 9 || m == 11 then 30
    else 31
  }

  function DaysInYear(y: int): int
  {
    if IsLeapYear(y) then 366 else 365
  }

  /** A real calendar date at a whole hour (what the `datetime` constructor accepts, years aside). */
  predicate Valid(d: DateHour)
  {
    1 <= d.month <= 12 && 1 <= d.day <= DaysInMonth(d.year, d.month) && 0 <= d.hour <= 23
  }

  /** Within the years Python's `datetime` can represent. */
  predicate InRange(d: DateHour)
  {
    MinYear <= d.year <= MaxYear
  }

  /** The same hour of the following calendar day. */
  function NextDay(d: DateHour): DateHour
    requires Valid(d)
  {
    if d.day < DaysInMonth(d.year, d.month) then d.(day := d.day + 1)
    else if d.month < 12 then d.(month := d.month + 1, day := 1)
    else DateHour(d.year + 1, 1, 1, d.hour)
  }

  /** The same hour of the preceding calendar day. */
  function PrevDay(d: DateHour): DateHour
    requires Valid(d)
  {
    if d.day > 1 then d.(day := d.day - 1)
    else if d.month > 1 then d.(month := d.month - 1, day := DaysInMonth(d.year, d.month - 1))
    else DateHour(d.year - 1, 12, 31, d.hour)
  }

  /** `dt + timedelta(hours=1)`. */
  function AddHour(d: DateHour): (r: DateHour)
    requires Valid(d)
    ensures Valid(r)
  {
    if d.hour < 23 then d.(hour := d.hour + 1) else NextDay(d).(hour := 0)
  }

  /** `dt - timedelta(hours=1)`. */
  function SubHour(d: DateHour): (r: DateHour)
    requires Valid(d)
    ensures Valid(r)
  {
    if d.hour > 0 then d.(hour := d.hour - 1) else PrevDay(d).(hour := 23)
  }

  /** `dt - timedelta(hours=n)`, one hour at a time. */
  function SubHours(d: DateHour, n: nat): (r: DateHour)
    requires Valid(d)
    ensures Valid(r)
    decreases n
  {
    if n == 0 then d else SubHours(SubHour(d), n - 1)
  }

  /** `dt - timedelta(hours=24)`: the same hour of the previous calendar day. */
  function SubDay(d: DateHour): (r: DateHour)
    requires Valid(d)
    ensures Valid(r) && r == PrevDay(d)
  {
    SubHoursDayBack(d, 24);
    SubHours(d, 24)
  }

  // ---------- ordinals: Python's date.toordinal, 0001-01-01 is day 1 ----------

  function DaysBeforeYear(y: int): int
  {
    var p := y - 1;
    p * 365 + p / 4 - p / 100 + p / 400
  }

  function DaysBeforeMonth(y: int, m: int): int
    requires 1 <= m <= 12
  {
    [0, 31, 59, 90, 120, 151, 181, 212, 243, 273, 304, 334][m - 1]
      + (if m > 2 && IsLeapYear(y) then 1 else 0)
  }

  function DayOrdinal(d: DateHour): int
    requires Valid(d)
  {
    DaysBeforeYear(d.year) + DaysBeforeMonth(d.year, d.month) + d.day
  }

  /** Number of hours since the start of the ordinal calendar: what `timedelta` shifts. */
  function HourOrdinal(d: DateHour): int
    requires Valid(d)
  {
    DayOrdinal(d) * 24 + d.hour
  }

  // ---------- lemmas ----------

  /** Consecutive years start exactly one year length apart. */
  lemma DaysBeforeYearStep(y: int)
    ensures DaysBeforeYear(y + 1) == DaysBeforeYear(y) + DaysInYear(y)
  {
    QuotientStep(y - 1, 4);
    QuotientStep(y - 1, 100);
    QuotientStep(y - 1, 400);
  }

  /** Floor division by k gains one exactly when the dividend reaches a multiple of k. */
  lemma QuotientStep(p: int, k: int)
    requires k > 0
    ensures (p + 1) / k == p / k + (if (p + 1) % k == 0 then 1 else 0)
  {
    var q, r := p / k, p % k;
    assert p == q * k + r && 0 <= r < k;
    if r + 1 < k {
      assert p + 1 == q * k + (r + 1);
      DivUnique(p + 1, k, q, r + 1);
    } else {
      assert p + 1 == (q + 1) * k + 0;
      DivUnique(p + 1, k, q + 1, 0);
    }
  }

  /** Quotient and remainder are determined by the division identity. */
  lemma DivUnique(n: int, k: int, q: int, r: int)
    requires k > 0 && n == q * k + r && 0 <= r < k
    ensures n / k == q && n % k == r
  {
    var q', r' := n / k, n % k;
    assert n == q' * k + r' && 0 <= r' < k;
    assert q * k - q' * k == r' - r;
    if q > q' {
      MultipleGap(q, q', k);
      assert false;
    } else if q < q' {
      MultipleGap(q', q, k);
      assert false;
    }
  }

  /** Distinct multiples of k are at least k apart. */
  lemma MultipleGap(a: int, b: int, k: int)
    requires a > b && k > 0
    ensures a * k - b * k >= k
  {
    assert a * k - b * k == (a - b - 1) * k + k;
  }

  /** Consecutive months start exactly one month length apart; December ends the year. */
  lemma DaysBeforeMonthStep(y: int, m: int)
    requires 1 <= m <= 12
    ensures m < 12 ==> DaysBeforeMonth(y, m + 1) == DaysBeforeMonth(y, m) + DaysInMonth(y, m)
    ensures m == 12 ==> DaysBeforeMonth(y, m) + DaysInMonth(y, m) == DaysInYear(y)
  {
  }

  /** The next day has the next day ordinal. */
  lemma NextDayOrdinal(d: DateHour)
    requires Valid(d)
    ensures Valid(NextDay(d)) && NextDay(d).hour == d.hour
    ensures DayOrdinal(NextDay(d)) == DayOrdinal(d) + 1
  {
    DaysBeforeMonthStep(d.year, d.month);
    DaysBeforeYearStep(d.year);
  }

  /** Adding an hour advances the hour ordinal by exactly one. */
  lemma AddHourOrdinal(d: DateHour)
    requires Valid(d)
    ensures HourOrdinal(AddHour(d)) == HourOrdinal(d) + 1
  {
    if d.hour == 23 {
      NextDayOrdinal(d);
      assert DayOrdinal(AddHour(d)) == DayOrdinal(NextDay(d));
    }
  }

  /** Going back one day and forward one day is the identity. */
  lemma NextPrevDay(d: DateHour)
    requires Valid(d)
    ensures Valid(PrevDay(d)) && NextDay(PrevDay(d)) == d
  {
  }

  /** Subtracting an hour undoes adding one. */
  lemma SubAddHour(d: DateHour)
    requires Valid(d)
    ensures SubHour(AddHour(d)) == d
  {
  }

  /** Adding an hour undoes subtracting one. */
  lemma AddSubHour(d: DateHour)
    requires Valid(d)
    ensures AddHour(SubHour(d)) == d
  {
    if d.hour == 0 {
      NextPrevDay(d);
    }
  }

  /** Subtracting an hour moves the hour ordinal back by exactly one. */
  lemma SubHourOrdinal(d: DateHour)
    requires Valid(d)
    ensures HourOrdinal(SubHour(d)) == HourOrdinal(d) - 1
  {
    AddSubHour(d);
    AddHourOrdinal(SubHour(d));
  }

  /** Subtracting n hours moves the hour ordinal back by exactly n. */
  lemma {:induction false} SubHoursOrdinal(d: DateHour, n: nat)
    requires Valid(d)
    ensures HourOrdinal(SubHours(d, n)) == HourOrdinal(d) - n
    decreases n
  {
    if n > 0 {
      SubHourOrdinal(d);
      SubHoursOrdinal(SubHour(d), n - 1);
    }
  }

  /** Within a day, subtracting at most the current hour only lowers the hour. */
  lemma {:induction false} SubHoursSameDay(d: DateHour, n: nat)
    requires Valid(d) && n <= d.hour
    ensures SubHours(d, n) == d.(hour := d.hour - n)
    decreases n
  {
    if n > 0 {
      SubHoursSameDay(SubHour(d), n - 1);
    }
  }

  /** 24 one-hour steps back land on the same hour of the previous calendar day, across month and year ends and 29 February. */
  // `n` is always 24; taking it as a parameter keeps the solver from unrolling `SubHours(d, 24)`.
  lemma SubHoursDayBack(d: DateHour, n: nat)
    requires Valid(d) && n == 24
    ensures SubHours(d, n) == PrevDay(d)
  {
    var h := d.hour;
    SubHoursSameDay(d, h);
    var midnight := d.(hour := 0);
    SubHoursComposes(d, h, n - h);
    assert SubHours(d, n) == SubHours(midnight, n - h);
    var late := PrevDay(d).(hour := 23);
    assert SubHours(midnight, n - h) == SubHours(late, n - 1 - h);
    NextPrevDay(d);
    SubHoursSameDay(late, n - 1 - h);
  }

  /** Subtracting m hours and then n more is subtracting m + n. */
  lemma {:induction false} SubHoursComposes(d: DateHour, m: nat, n: nat)
    requires Valid(d)
    ensures SubHours(SubHours(d, m), n) == SubHours(d, m + n)
    decreases m
  {
    if m > 0 {
      SubHoursComposes(SubHour(d), m - 1, n);
    }
  }

  /** 24 hours back moves the hour ordinal back by 24. */
  lemma SubDayOrdinal(d: DateHour)
    requires Valid(d)
    ensures HourOrdinal(SubDay(d)) == HourOrdinal(d) - 24
  {
    SubHoursOrdinal(d, 24);
  }

  /** Year starts strictly increase, by at least 365 days a year. */
  lemma {:induction false} DaysBeforeYearMonotone(a: int, b: int)
    requires a <= b
    ensures DaysBeforeYear(a) + 365 * (b - a) <= DaysBeforeYear(b)
    decreases b - a
  {
    if a < b {
      DaysBeforeYearMonotone(a, b - 1);
      DaysBeforeYearStep(b - 1);
    }
  }

  /** A date's ordinal lies within its own year. */
  lemma DayOrdinalInYear(d: DateHour)
    requires Valid(d)
    ensures DaysBeforeYear(d.year) < DayOrdinal(d) <= DaysBeforeYear(d.year + 1)
  {
    DaysBeforeYearStep(d.year);
    DaysBeforeMonthBound(d.year, d.month);
  }

  lemma DaysBeforeMonthBound(y: int, m: int)
    requires 1 <= m <= 12
    ensures DaysBeforeMonth(y, m) + DaysInMonth(y, m) <= DaysInYear(y)
  {
  }

  /** Later months of a year start after earlier months have ended. */
  lemma DaysBeforeMonthMonotone(y: int, m1: int, m2: int)
    requires 1 <= m1 < m2 <= 12
    ensures DaysBeforeMonth(y, m1) + DaysInMonth(y, m1) <= DaysBeforeMonth(y, m2)
  {
  }

  /** Distinct valid dates have distinct day ordinals. */
  lemma DayOrdinalInjective(d1: DateHour, d2: DateHour)
    requires Valid(d1) && Valid(d2)
    requires DayOrdinal(d1) == DayOrdinal(d2)
    ensures d1.year == d2.year && d1.month == d2.month && d1.day == d2.day
  {
    DayOrdinalInYear(d1);
    DayOrdinalInYear(d2);
    if d1.year < d2.year {
      DaysBeforeYearMonotone(d1.year + 1, d2.year);
    } else if d2.year < d1.year {
      DaysBeforeYearMonotone(d2.year + 1, d1.year);
    }
    assert d1.year == d2.year;
    if d1.month < d2.month {
      DaysBeforeMonthMonotone(d1.year, d1.month, d2.month);
    } else if d2.month < d1.month {
      DaysBeforeMonthMonotone(d1.year, d2.month, d1.month);
    }
  }

  /** Distinct valid date-hours have distinct hour ordinals. */
  lemma HourOrdinalInjective(d1: DateHour, d2: DateHour)
    requires Valid(d1) && Valid(d2)
    requires HourOrdinal(d1) == HourOrdinal(d2)
    ensures d1 == d2
  {
    assert DayOrdinal(d1) == DayOrdinal(d2) && d1.hour == d2.hour;
    DayOrdinalInjective(d1, d2);
  }

  /** AddHour is exactly "one hour later": the only valid date-hour one ordinal step ahead. */
  lemma AddHourUnique(d: DateHour, e: DateHour)
    requires Valid(d) && Valid(e)
    ensures e == AddHour(d) <==> HourOrdinal(e) == HourOrdinal(d) + 1
  {
    AddHourOrdinal(d);
    if HourOrdinal(e) == HourOrdinal(d) + 1 {
      HourOrdinalInjective(e, AddHour(d));
    }
  }

  /** SubDay is exactly "24 hours earlier": the only valid date-hour 24 ordinal steps back. */
  lemma SubDayUnique(d: DateHour, e: DateHour)
    requires Valid(d) && Valid(e)
    ensures e == SubDay(d) <==> HourOrdinal(e) == HourOrdinal(d) - 24
  {
    SubDayOrdinal(d);
    if HourOrdinal(e) == HourOrdinal(d) - 24 {
      HourOrdinalInjective(e, SubDay(d));
    }
  }

  /** An hour later leaves Python's range only from the last hour of year 9999. */
  lemma AddHourInRange(d: DateHour)
    requires Valid(d) && InRange(d)
    ensures !InRange(AddHour(d)) <==> d == DateHour(MaxYear, 12, 31, 23)
  {
  }

  /** An hour earlier leaves Python's range only from the first hour of year 1. */
  lemma SubHourInRange(d: DateHour)
    requires Valid(d) && InRange(d)
    ensures !InRange(SubHour(d)) <==> d == DateHour(MinYear, 1, 1, 0)
  {
  }

  /** A day earlier leaves Python's range exactly on 1 January of year 1, at any hour. */
  lemma SubDayInRange(d: DateHour)
    requires Valid(d) && InRange(d)
    ensures !InRange(SubDay(d)) <==> (d.year == MinYear && d.month == 1 && d.day == 1)
  {
  }

  /** The leap-day cases the shifts must get right. */
  lemma LeapDayExamples()
    ensures AddHour(DateHour(2024, 2, 28, 23)) == DateHour(2024, 2, 29, 0)
    ensures AddHour(DateHour(2023, 2, 28, 23)) == DateHour(2023, 3, 1, 0)
    ensures SubDay(DateHour(2024, 3, 1, 5)) == DateHour(2024, 2, 29, 5)
    ensures SubDay(DateHour(1900, 3, 1, 5)) == DateHour(1900, 2, 28, 5)
    ensures SubDay(DateHour(2000, 3, 1, 5)) == DateHour(2000, 2, 29, 5)
    ensures SubHour(DateHour(2023, 1, 1, 0)) == DateHour(2022, 12, 31, 23)
  {
  }
}
