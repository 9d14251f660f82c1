/** Proleptic Gregorian calendar dates and their day ordinals.

    A date is mapped to the number of days since 0001-01-01, so that adding
    whole days (PHP's `DateInterval('P<n>D')`, `strtotime('... -2 days')`)
    becomes integer addition, exact across month, year and leap-year
    boundaries. Also the two text forms the reminder job writes:
    `Y-m-d` and `M j, Y`. */
module Calendar {
  import opened Wrappers
  import opened Text

  /** Days since 0001-01-01. */
  type Day = nat

  datatype Date = Date(year: int, month: int, day: int)

  predicate IsLeapYear(y: int) {
    y % 4 == 0 && (y % 100 != 0 || y % 400 == 0)
  }

  function YearLength(y: int): int {
    if IsLeapYear(y) then 366 else 365
  }

  function DaysInMonth(y: int, m: int): int
    requires 1 <= m <= 12
  {
    if m == 2 then (if IsLeapYear(y) then 29 else 28)
    else if m == 4 || m == 6 || m == 9 || m == 11 then 30
    else 31
  }

  predicate IsValid(d: Date) {
    d.year >= 1 && 1 <= d.month <= 12 && 1 <= d.day <= DaysInMonth(d.year, d.month)
  }

  /** Days of year `y` that lie before the first of month `m`
      (`m == 13` gives the whole year). */
  function DaysBeforeMonth(y: int, m: int): nat
    requires 1 <= m <= 13
  {
    [0, 31, 59, 90, 120, 151, 181, 212, 243, 273, 304, 334, 365][m - 1]
      + (if m > 2 && IsLeapYear(y) then 1 else 0)
  }

  lemma MonthStep(y: int, m: int)
    requires 1 <= m <= 12
    ensures DaysBeforeMonth(y, m + 1) == DaysBeforeMonth(y, m) + DaysInMonth(y, m)
    ensures DaysBeforeMonth(y, 13) == YearLength(y)
  {
  }

  lemma MonthsMonotone(y: int, m1: int, m2: int)
    requires 1 <= m1 < m2 <= 13
    ensures DaysBeforeMonth(y, m1) + DaysInMonth(y, m1) <= DaysBeforeMonth(y, m2)
  {
  }

  /** Days from 0001-01-01 to the first of January of year `y`. */
  function DaysBeforeYear(y: int): nat
    requires y >= 1
  {
    if y == 1 then 0 else DaysBeforeYear(y - 1) + YearLength(y - 1)
  }

  lemma {:induction false} YearsMonotone(y1: int, y2: int)
    requires 1 <= y1 <= y2
    ensures DaysBeforeYear(y1) + (y2 - y1) * 365 <= DaysBeforeYear(y2)
  {
    if y1 < y2 {
      YearsMonotone(y1, y2 - 1);
    }
  }

  /** The ordinal of a valid date; it lies within the ordinals of its year
      and of its month. */
  function ToOrdinal(d: Date): (n: Day)
    requires IsValid(d)
    ensures DaysBeforeYear(d.year) <= n < DaysBeforeYear(d.year + 1)
    ensures DaysBeforeYear(d.year) + DaysBeforeMonth(d.year, d.month) <= n
            < DaysBeforeYear(d.year) + DaysBeforeMonth(d.year, d.month + 1)
  {
    MonthStep(d.year, d.month);
    MonthsMonotone(d.year, d.month, 13);
    DaysBeforeYear(d.year) + DaysBeforeMonth(d.year, d.month) + d.day - 1
  }

  /** The date `rem` days after the first of month `m` of year `y`. */
  function LocateMonth(y: int, m: int, rem: nat): (d: Date)
    requires y >= 1 && 1 <= m <= 12
    requires DaysBeforeMonth(y, m) + rem < YearLength(y)
    ensures IsValid(d) && d.year == y
    ensures ToOrdinal(d) == DaysBeforeYear(y) + DaysBeforeMonth(y, m) + rem
    decreases 12 - m
  {
    MonthStep(y, m);
    if rem < DaysInMonth(y, m) then Date(y, m, rem + 1)
    else LocateMonth(y, m + 1, rem - DaysInMonth(y, m))
  }

  /** The date `rem` days after the first of January of year `y`. */
  function LocateYear(y: int, rem: nat): (d: Date)
    requires y >= 1
    ensures IsValid(d) && ToOrdinal(d) == DaysBeforeYear(y) + rem
    decreases rem
  {
    if rem < YearLength(y) then LocateMonth(y, 1, rem)
    else LocateYear(y + 1, rem - YearLength(y))
  }

  /** The date with ordinal `n`. */
  function FromOrdinal(n: Day): (d: Date)
    ensures IsValid(d) && ToOrdinal(d) == n
  {
    LocateYear(1, n)
  }

  /** Distinct valid dates have distinct ordinals. */
  lemma OrdinalInjective(a: Date, b: Date)
    requires IsValid(a) && IsValid(b) && ToOrdinal(a) == ToOrdinal(b)
    ensures a == b
  {
    if a.year < b.year {
      YearsMonotone(a.year + 1, b.year);
    } else if b.year < a.year {
      YearsMonotone(b.year + 1, a.year);
    }
    assert a.year == b.year;
    if a.month < b.month {
      MonthsMonotone(a.year, a.month, b.month);
    } else if b.month < a.month {
      MonthsMonotone(a.year, b.month, a.month);
    }
  }

  /** The ordinal round trip, date side. */
  lemma FromToOrdinal(d: Date)
    requires IsValid(d)
    ensures FromOrdinal(ToOrdinal(d)) == d
  {
    OrdinalInjective(FromOrdinal(ToOrdinal(d)), d);
  }

  /** Adding days to a date: the date whose ordinal is `k` further on. */
  function AddDays(d: Date, k: int): (r: Date)
    requires IsValid(d) && ToOrdinal(d) + k >= 0
    ensures IsValid(r) && ToOrdinal(r) == ToOrdinal(d) + k
  {
    FromOrdinal(ToOrdinal(d) + k)
  }

  /** Within a month, the next day of the month is the next day number. */
  lemma NextDayInMonth(d: Date)
    requires IsValid(d) && d.day < DaysInMonth(d.year, d.month)
    ensures IsValid(Date(d.year, d.month, d.day + 1))
    ensures ToOrdinal(Date(d.year, d.month, d.day + 1)) == ToOrdinal(d) + 1
    ensures AddDays(d, 1) == Date(d.year, d.month, d.day + 1)
  {
    FromToOrdinal(Date(d.year, d.month, d.day + 1));
  }

  /** The day after the last day of a month is the first of the next month
      (or of January of the next year). */
  lemma NextDayAcrossMonthEnd(y: int, m: int)
    requires y >= 1 && 1 <= m <= 12
    ensures AddDays(Date(y, m, DaysInMonth(y, m)), 1)
            == (if m == 12 then Date(y + 1, 1, 1) else Date(y, m + 1, 1))
  {
    var last := Date(y, m, DaysInMonth(y, m));
    var next := if m == 12 then Date(y + 1, 1, 1) else Date(y, m + 1, 1);
    MonthStep(y, m);
    assert ToOrdinal(next) == ToOrdinal(last) + 1;
    FromToOrdinal(next);
  }

  /** `Y-m-d` with a four-digit year: PHP's `format('Y-m-d')` of a valid
      date, and the text of any three numbers in those widths. */
  function IsoText(d: Date): (s: string)
    requires 0 <= d.year <= 9999 && 0 <= d.month < 100 && 0 <= d.day < 100
    ensures |s| == 10 && s[4] == '-' && s[7] == '-'
  {
    FixedDigits(d.year, 4) + "-" + FixedDigits(d.month, 2) + "-" + FixedDigits(d.day, 2)
  }

  /** The three numbers of a `YYYY-MM-DD` text, as PHP's date parser takes
      that form: month 00-12 and day 00-31, whether or not they make a real
      date. None for any other text. */
  function ParseIso(s: string): (r: Option<Date>)
    ensures r.Some? ==> 0 <= r.value.year <= 9999 && 0 <= r.value.month <= 12 && 0 <= r.value.day <= 31
  {
    if |s| == 10 && s[4] == '-' && s[7] == '-'
       && AllDigits(s[..4]) && AllDigits(s[5..7]) && AllDigits(s[8..]) then
      var d := Date(DigitsValue(s[..4]), DigitsValue(s[5..7]), DigitsValue(s[8..]));
      assert DigitsValue(s[..4]) <= 9999 by { DigitsBound(s[..4]); }
      if d.month <= 12 && d.day <= 31 then Some(d) else None
    else None
  }

  /** The three numbers written as `Y-m-d` read back as themselves; in
      particular every date PHP writes that way does. */
  lemma ParseIsoText(d: Date)
    requires 0 <= d.year <= 9999 && 0 <= d.month <= 12 && 0 <= d.day <= 31
    ensures ParseIso(IsoText(d)) == Some(d)
  {
    var s := IsoText(d);
    assert s[..4] == FixedDigits(d.year, 4);
    assert s[5..7] == FixedDigits(d.month, 2);
    assert s[8..] == FixedDigits(d.day, 2);
    FixedDigitsRoundTrip(d.year, 4);
    FixedDigitsRoundTrip(d.month, 2);
    FixedDigitsRoundTrip(d.day, 2);
  }

  /** The day `new DateTime` settles on for the numbers `d`: a day past the
      end of its month runs on into the next month, day 0 is the last day
      of the month before, and month 0 is December of the year before.
      None before 0001-01-01. */
  function Settle(d: Date): (r: Option<Day>)
    requires 0 <= d.month <= 12
    ensures IsValid(d) ==> r == Some(ToOrdinal(d))
  {
    if d.year < 1 then None
    else
      var first := if d.month == 0 then DaysBeforeYear(d.year) - 31
                   else DaysBeforeYear(d.year) + DaysBeforeMonth(d.year, d.month);
      if first + d.day - 1 < 0 then None else Some(first + d.day - 1)
  }

  /** The day `new DateTime($s)` stands for, for a `YYYY-MM-DD` text; None
      where the model takes it to raise. */
  function ParseDay(s: string): (r: Option<Day>)
    ensures ParseIso(s).None? ==> r.None?
    ensures ParseIso(s).Some? && IsValid(ParseIso(s).value) ==> r == Some(ToOrdinal(ParseIso(s).value))
  {
    match ParseIso(s)
    case None => None
    case Some(d) => Settle(d)
  }

  /** A day number past the end of the month is that many days into the
      next month. */
  lemma SettleRunsIntoNextMonth(y: int, m: int, d: int)
    requires y >= 1 && 1 <= m <= 12 && DaysInMonth(y, m) < d <= 31
    ensures var over := d - DaysInMonth(y, m);
            var next := if m == 12 then Date(y + 1, 1, over) else Date(y, m + 1, over);
            IsValid(next) && Settle(Date(y, m, d)) == Some(ToOrdinal(next))
  {
    MonthStep(y, m);
  }

  /** Day 0 is the last day of the month before. */
  lemma SettleDayZero(y: int, m: int)
    requires y >= 1 && 1 <= m <= 12 && (y, m) != (1, 1)
    ensures var prev := if m == 1 then Date(y - 1, 12, 31) else Date(y, m - 1, DaysInMonth(y, m - 1));
            IsValid(prev) && Settle(Date(y, m, 0)) == Some(ToOrdinal(prev))
  {
    if m == 1 {
      NewYearsEve(y);
    } else {
      MonthEve(y, m);
    }
  }

  /** Day 0 of January is 31 December of the year before. */
  lemma NewYearsEve(y: int)
    requires y >= 2
    ensures IsValid(Date(y - 1, 12, 31)) && Settle(Date(y, 1, 0)) == Some(ToOrdinal(Date(y - 1, 12, 31)))
  {
    LastOfDecember(y - 1);
    DayZeroOfJanuary(y);
  }

  /** 31 December is the last day of its year. */
  lemma LastOfDecember(y: int)
    requires y >= 1
    ensures IsValid(Date(y, 12, 31)) && ToOrdinal(Date(y, 12, 31)) == DaysBeforeYear(y) + YearLength(y) - 1
  {
    LastDayOfMonth(y, 12);
    MonthStep(y, 12);
  }

  /** Day 0 of January settles on the day before the year's first. */
  lemma DayZeroOfJanuary(y: int)
    requires y >= 2
    ensures DaysBeforeYear(y) == DaysBeforeYear(y - 1) + YearLength(y - 1)
    ensures Settle(Date(y, 1, 0)) == Some(DaysBeforeYear(y) - 1)
  {
    YearsMonotone(1, y);
  }

  /** Day 0 of a later month is the last day of the month before. */
  lemma MonthEve(y: int, m: int)
    requires y >= 1 && 2 <= m <= 12
    ensures var last := Date(y, m - 1, DaysInMonth(y, m - 1));
            IsValid(last) && Settle(Date(y, m, 0)) == Some(ToOrdinal(last))
  {
    LastDayOfMonth(y, m - 1);
    DayZeroOfMonth(y, m);
  }

  /** The last day of month `m` is the day before the first of the next. */
  lemma LastDayOfMonth(y: int, m: int)
    requires y >= 1 && 1 <= m <= 12
    ensures var last := Date(y, m, DaysInMonth(y, m));
            IsValid(last) && ToOrdinal(last) == DaysBeforeYear(y) + DaysBeforeMonth(y, m + 1) - 1
  {
    MonthStep(y, m);
  }

  /** Day 0 of a month after January settles on the day before its first. */
  lemma DayZeroOfMonth(y: int, m: int)
    requires y >= 1 && 2 <= m <= 12
    ensures Settle(Date(y, m, 0)) == Some(DaysBeforeYear(y) + DaysBeforeMonth(y, m) - 1)
  {
    MonthsMonotone(y, 1, m);
  }

  /** Month 0 is December of the year before. */
  lemma SettleMonthZero(y: int, d: int)
    requires y >= 2 && 1 <= d <= 31
    ensures IsValid(Date(y - 1, 12, d)) && Settle(Date(y, 0, d)) == Some(ToOrdinal(Date(y - 1, 12, d)))
  {
    MonthStep(y - 1, 12);
  }

  /** `new DateTime('Y-02-30')` does not raise: it is the 1st of March in a
      leap year and the 2nd otherwise (2024-02-30 is 2024-03-01). */
  lemma FebruaryThirtiethRollsOver(y: int)
    requires 1 <= y <= 9999
    ensures ParseDay(IsoText(Date(y, 2, 30)))
            == Some(ToOrdinal(Date(y, 3, if IsLeapYear(y) then 1 else 2)))
  {
    ParseIsoText(Date(y, 2, 30));
    SettleRunsIntoNextMonth(y, 2, 30);
  }

  /** Three-letter English month names, PHP's `M`. */
  function MonthAbbrev(m: int): string
    requires 1 <= m <= 12
  {
    ["Jan", "Feb", "Mar", "Apr", "May", "Jun", "Jul", "Aug", "Sep", "Oct", "Nov", "Dec"][m - 1]
  }

  /** PHP's `Y`: at least four digits. */
  function YearText(y: nat): string {
    if y < 10000 then FixedDigits(y, 4) else Decimal(y)
  }

  /** PHP's `date('M j, Y')`, e.g. `Feb 26, 2024`. */
  function LongText(d: Date): string
    requires IsValid(d)
  {
    MonthAbbrev(d.month) + " " + Decimal(d.day) + ", " + YearText(d.year)
  }
}
