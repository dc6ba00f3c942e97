/** Dates for directory listings: crates/cli/src/format.rs. */
module Calendar {
  const I32_MIN: int := -0x8000_0000
  const I32_MAX: int := 0x7FFF_FFFF

  datatype Date = Date(year: int, month: int, day: int)

  datatype DateTime = DateTime(date: Date, hour: int, minute: int)

  // ----- The proleptic Gregorian calendar -----

  predicate Leap(year: int) {
    year % 4 == 0 && (year % 100 != 0 || year % 400 == 0)
  }

  function DaysIn(year: int, month: int): int {
    if month == 2 then (if Leap(year) then 29 else 28)
    else if month == 4 || month == 6 || month == 9 || month == 11 then 30
    else 31
  }

  predicate Valid(d: Date) {
    1 <= d.month <= 12 && 1 <= d.day <= DaysIn(d.year, d.month)
  }

  /** Leap years among the years 1 to `year`, counted backwards before that. */
  function Leaps(year: int): int {
    year / 4 - year / 100 + year / 400
  }

  /** Days from the beginning of year 1 to the beginning of `year`. */
  function BeforeYear(year: int): int {
    365 * (year - 1) + Leaps(year - 1)
  }

  function BeforeMonth(year: int, month: nat): int {
    if month <= 1 then 0 else BeforeMonth(year, month - 1) + DaysIn(year, month - 1)
  }

  /** Days since 1 January 1970. */
  function DayNumber(d: Date): int {
    BeforeYear(d.year) + (if d.month >= 0 then BeforeMonth(d.year, d.month) else 0) + d.day - 1 - BeforeYear(1970)
  }

  function NextDay(d: Date): Date {
    if d.day < DaysIn(d.year, d.month) then d.(day := d.day + 1)
    else if d.month < 12 then Date(d.year, d.month + 1, 1)
    else Date(d.year + 1, 1, 1)
  }

  lemma LeapsStep(year: int)
    ensures Leaps(year) == Leaps(year - 1) + (if Leap(year) then 1 else 0)
  {
    StepOf(year, 4);
    StepOf(year, 100);
    StepOf(year, 400);
  }

  lemma StepOf(year: int, n: int)
    requires n == 4 || n == 100 || n == 400
    ensures year / n == (year - 1) / n + (if year % n == 0 then 1 else 0)
  {
  }

  lemma MonthTable(year: int)
    ensures BeforeMonth(year, 1) == 0 && BeforeMonth(year, 2) == 31
    ensures var l := if Leap(year) then 1 else 0;
            && BeforeMonth(year, 3) == 59 + l && BeforeMonth(year, 4) == 90 + l && BeforeMonth(year, 5) == 120 + l
            && BeforeMonth(year, 6) == 151 + l && BeforeMonth(year, 7) == 181 + l && BeforeMonth(year, 8) == 212 + l
            && BeforeMonth(year, 9) == 243 + l && BeforeMonth(year, 10) == 273 + l && BeforeMonth(year, 11) == 304 + l
            && BeforeMonth(year, 12) == 334 + l && BeforeMonth(year, 13) == 365 + l
  {
    assert BeforeMonth(year, 3) == BeforeMonth(year, 2) + DaysIn(year, 2);
    assert BeforeMonth(year, 5) == BeforeMonth(year, 4) + 30;
    assert BeforeMonth(year, 7) == BeforeMonth(year, 6) + 30;
    assert BeforeMonth(year, 9) == BeforeMonth(year, 8) + 31;
    assert BeforeMonth(year, 11) == BeforeMonth(year, 10) + 31;
    assert BeforeMonth(year, 13) == BeforeMonth(year, 12) + 31;
  }

  /** The day number counts days: the next day has the next number, and 1 January 1970 has number 0. */
  lemma DayNumberCounts(d: Date)
    requires Valid(d)
    ensures Valid(NextDay(d)) && DayNumber(NextDay(d)) == DayNumber(d) + 1
    ensures DayNumber(Date(1970, 1, 1)) == 0
  {
    MonthTable(d.year);
    LeapsStep(d.year);
  }

  /** A year's days have the numbers from its first day to the next year's. */
  lemma InYear(d: Date)
    requires Valid(d)
    ensures BeforeYear(d.year) - BeforeYear(1970) <= DayNumber(d) < BeforeYear(d.year + 1) - BeforeYear(1970)
  {
    MonthTable(d.year);
    LeapsStep(d.year);
  }

  lemma {:induction false} BeforeYearGrows(a: int, b: int)
    requires a <= b
    ensures BeforeYear(a) <= BeforeYear(b)
    decreases b - a
  {
    if a < b {
      LeapsStep(b - 1);
      BeforeYearGrows(a, b - 1);
    }
  }

  /** Dates and day numbers determine each other. */
  lemma DayNumberIsInjective(d: Date, e: Date)
    requires Valid(d) && Valid(e) && DayNumber(d) == DayNumber(e)
    ensures d == e
  {
    hide BeforeYear, Valid, DayNumber;
    InYear(d);
    InYear(e);
    if d.year < e.year {
      BeforeYearGrows(d.year + 1, e.year);
    } else if e.year < d.year {
      BeforeYearGrows(e.year + 1, d.year);
    } else {
      SameYear(d, e);
    }
  }

  lemma SameYear(d: Date, e: Date)
    requires Valid(d) && Valid(e) && DayNumber(d) == DayNumber(e) && d.year == e.year
    ensures d == e
  {
    hide BeforeYear;
    MonthTable(d.year);
  }

  // ----- The conversion -----

  /** Division as the source's integers do it, towards zero. */
  function TruncDiv(a: int, b: int): int
    requires b > 0
  {
    if a >= 0 then a / b else -((-a) / b)
  }

  /** The era of 400 years: the correction makes the division round down for negative days too. */
  function Era(z: int): (era: int)
    ensures 0 <= z - era * 146_097 < 146_097
  {
    TruncDiv(if z >= 0 then z else z - 146_096, 146_097)
  }

  function DayOfYear(doe: int, yoe: int): int {
    doe - (365 * yoe + yoe / 4 - yoe / 100)
  }

  /** Years here begin in March: a year has 365 days, and one more if its February is a leap one. */
  function YearOfEra(doe: int): (yoe: int)
    requires 0 <= doe < 146_097
    ensures 0 <= yoe < 400
    ensures 0 <= DayOfYear(doe, yoe) <= (if Leap(yoe + 1) then 365 else 364)
  {
    YearOfEraIsRight(doe);
    (doe - doe / 1_460 + doe / 36_524 - doe / 146_096) / 365
  }

  /** The day of the era, as centuries, four-year cycles and days, gives the year and the day in it. */
  lemma YearByParts(b: int, q: int, m: int, doe: int)
    requires 0 <= b <= 3 && 0 <= q <= 24 && 0 <= m <= 1460 && 1461 * q + m < 36_524
    requires doe == 36_524 * b + 1461 * q + m
    ensures var j := if m == 1460 then 3 else m / 365;
            var yoe := 100 * b + 4 * q + j;
            && (doe - doe / 1_460 + doe / 36_524 - doe / 146_096) / 365 == yoe && 0 <= j <= 3 && 4 * q + j <= 99
            && DayOfYear(doe, yoe) == m - 365 * j
  {
    var j := if m == 1460 then 3 else m / 365;
    var e := (24 * b + q + m) / 1460;
    assert doe / 36_524 == b;
    assert doe / 146_096 == 0;
    assert doe / 1460 == 25 * b + q + e;
    assert 0 <= m - e - 365 * j < 365;
    var yoe := 100 * b + 4 * q + j;
    assert doe - doe / 1460 + b == 365 * yoe + (m - e - 365 * j);
    assert yoe / 4 == 25 * b + q && yoe / 100 == b;
  }

  lemma Remainder(n: int, k: int, r: int)
    requires (n == 4 || n == 100) && 0 <= r < n
    ensures (n * k + r) % n == r
  {
  }

  /** The fourth year of a cycle ends with a leap February, unless the century does too. */
  lemma CycleEndsLeap(b: int, q: int)
    requires 0 <= q <= 23
    ensures Leap(100 * b + 4 * q + 4)
  {
    Remainder(4, 25 * b + q + 1, 0);
    Remainder(100, b, 4 * q + 4);
    assert 4 * (25 * b + q + 1) + 0 == 100 * b + (4 * q + 4) == 100 * b + 4 * q + 4;
  }

  lemma YearOfEraIsRight(doe: int)
    requires 0 <= doe < 146_097
    ensures var yoe := (doe - doe / 1_460 + doe / 36_524 - doe / 146_096) / 365;
            && 0 <= yoe < 400
            && 0 <= DayOfYear(doe, yoe) <= (if Leap(yoe + 1) then 365 else 364)
  {
    if doe < 146_096 {
      hide Leap, DayOfYear;
      var b, n := doe / 36_524, doe % 36_524;
      var q, m := n / 1461, n % 1461;
      YearByParts(b, q, m, doe);
      if m == 1460 {
        CycleEndsLeap(b, q);
      }
    }
  }

  /** The first day of each month in a year that begins in March. */
  function MarchStart(mp: int): int {
    if mp <= 0 then 0 else if mp == 1 then 31 else if mp == 2 then 61 else if mp == 3 then 92
    else if mp == 4 then 122 else if mp == 5 then 153 else if mp == 6 then 184 else if mp == 7 then 214
    else if mp == 8 then 245 else if mp == 9 then 275 else if mp == 10 then 306 else if mp == 11 then 337 else 367
  }

  lemma MonthIsRight(doy: int)
    requires 0 <= doy <= 365
    ensures var mp := (5 * doy + 2) / 153;
            0 <= mp <= 11 && (153 * mp + 2) / 5 == MarchStart(mp) <= doy < MarchStart(mp + 1)
  {
  }

  /** The months of a year from March on are those of the calendar. */
  lemma MarchMonths(y: int, mp: int)
    requires 0 <= mp <= 11
    ensures mp < 10 ==> BeforeMonth(y, mp + 3) == MarchStart(mp) + 59 + (if Leap(y) then 1 else 0)
    ensures mp < 10 ==> DaysIn(y, mp + 3) == MarchStart(mp + 1) - MarchStart(mp)
    ensures mp >= 10 ==> BeforeMonth(y + 1, mp - 9) == MarchStart(mp) - 306
    ensures mp == 10 ==> DaysIn(y + 1, mp - 9) == 31
    ensures mp == 11 ==> DaysIn(y + 1, mp - 9) == (if Leap(y + 1) then 29 else 28)
  {
    MonthTable(y);
    MonthTable(y + 1);
  }

  lemma YearStep(y: int)
    ensures BeforeYear(y + 1) == BeforeYear(y) + 365 + (if Leap(y) then 1 else 0)
  {
    LeapsStep(y);
  }

  lemma MarchDate(y: int, mp: int, doy: int)
    requires 0 <= mp <= 11 && MarchStart(mp) <= doy < MarchStart(mp + 1) && doy <= (if Leap(y + 1) then 365 else 364)
    ensures var d := Date(if mp < 10 then y else y + 1, if mp < 10 then mp + 3 else mp - 9, doy - MarchStart(mp) + 1);
            Valid(d) && DayNumber(d) == BeforeYear(y + 1) + doy - 306 - BeforeYear(1970)
  {
    hide BeforeMonth, BeforeYear, DaysIn;
    MarchMonths(y, mp);
    YearStep(y);
  }

  /** The date of a day in a year that begins in March. */
  function FromMarch(y: int, doy: int): (d: Date)
    requires 0 <= doy <= (if Leap(y + 1) then 365 else 364)
    ensures Valid(d) && DayNumber(d) == BeforeYear(y + 1) + doy - 306 - BeforeYear(1970)
  {
    hide Valid, DayNumber, BeforeYear, Leap;
    var mp := (5 * doy + 2) / 153;
    var day := doy - (153 * mp + 2) / 5 + 1;
    var month := mp + (if mp < 10 then 3 else -9);
    MonthIsRight(doy);
    MarchDate(y, mp, doy);
    Date(y + (if month <= 2 then 1 else 0), month, day)
  }

  lemma ErasOf4(yoe: int, era: int)
    ensures (yoe + era * 400) / 4 == yoe / 4 + 100 * era && (yoe + era * 400) % 4 == yoe % 4
  {
  }

  lemma ErasOf100(yoe: int, era: int)
    ensures (yoe + era * 400) / 100 == yoe / 100 + 4 * era && (yoe + era * 400) % 100 == yoe % 100
  {
  }

  lemma ErasOf400(yoe: int, era: int)
    ensures (yoe + era * 400) / 400 == yoe / 400 + era && (yoe + era * 400) % 400 == yoe % 400
  {
  }

  lemma YearsOfEra(yoe: int, era: int)
    requires 0 <= yoe < 400
    ensures Leaps(yoe + era * 400) == yoe / 4 - yoe / 100 + 97 * era
    ensures Leap(yoe + era * 400 + 1) <==> Leap(yoe + 1)
  {
    ErasOf4(yoe, era);
    ErasOf100(yoe, era);
    ErasOf400(yoe, era);
    assert yoe + era * 400 + 1 == (yoe + 1) + era * 400;
    ErasOf4(yoe + 1, era);
    ErasOf100(yoe + 1, era);
    ErasOf400(yoe + 1, era);
  }

  /** The eras, the years in the last one and the days in the last year add up. */
  lemma EraAddsUp(era: int, doe: int, yoe: int)
    requires 0 <= yoe < 400
    ensures BeforeYear(yoe + era * 400 + 1) + DayOfYear(doe, yoe) == era * 146_097 + doe
  {
    YearsOfEra(yoe, era);
  }

  /** The date of a day in an era. */
  function InEra(era: int, doe: int): (d: Date)
    requires 0 <= doe < 146_097
    ensures Valid(d) && DayNumber(d) == era * 146_097 + doe - 306 - BeforeYear(1970)
  {
    hide YearOfEra, DayOfYear, FromMarch, Valid, DayNumber, BeforeYear, Leap, Leaps;
    var yoe := YearOfEra(doe);
    EraAddsUp(era, doe, yoe);
    YearsOfEra(yoe, era);
    FromMarch(yoe + era * 400, DayOfYear(doe, yoe))
  }

  lemma Epoch()
    ensures BeforeYear(1970) == 719_162
  {
  }

  /** The date before its parts are narrowed. */
  function Wide(days: int): (d: Date)
    ensures Valid(d) && DayNumber(d) == days
  {
    hide Era, InEra, Valid, DayNumber, BeforeYear;
    var z := days + 719_468;
    var era := Era(z);
    Epoch();
    InEra(era, z - era * 146_097)
  }

  predicate FitsI32(n: int) {
    I32_MIN <= n <= I32_MAX
  }

  /** The days from the first of the smallest i32 year to the last of the largest. */
  predicate InRange(days: int) {
    BeforeYear(I32_MIN) <= days + BeforeYear(1970) < BeforeYear(I32_MAX + 1)
  }

  lemma RangeIsYears(d: Date)
    requires Valid(d)
    ensures InRange(DayNumber(d)) <==> FitsI32(d.year)
  {
    hide BeforeYear, Valid, DayNumber;
    InYear(d);
    if d.year < I32_MIN {
      BeforeYearGrows(d.year + 1, I32_MIN);
    } else {
      BeforeYearGrows(I32_MIN, d.year);
    }
    if d.year > I32_MAX {
      BeforeYearGrows(I32_MAX + 1, d.year);
    } else {
      BeforeYearGrows(d.year + 1, I32_MAX + 1);
    }
  }

  /** `civil_from_days`: a year outside i32 becomes the largest i32. The result is the valid date whose
      day number is the input exactly when the input is in range. */
  function CivilFromDays(days: int): (d: Date)
    ensures InRange(days) <==> Valid(d) && DayNumber(d) == days
    ensures FitsI32(d.year)
  {
    hide Wide, Valid, DayNumber, InRange;
    var w := Wide(days);
    RangeIsYears(w);
    if FitsI32(w.year) then w
    else
      var c := w.(year := I32_MAX);
      assert !(Valid(c) && DayNumber(c) == days) by {
        if Valid(c) && DayNumber(c) == days {
          DayNumberIsInjective(w, c);
        }
      }
      c
  }

  lemma CivilBegins()
    ensures CivilFromDays(0) == Date(1970, 1, 1)
  {
    hide CivilFromDays, BeforeYear;
    RangeIsYears(Date(1970, 1, 1));
    DayNumberIsInjective(CivilFromDays(0), Date(1970, 1, 1));
  }

  /** Consecutive inputs give consecutive dates. */
  lemma CivilSteps(days: int)
    requires InRange(days) && InRange(days + 1)
    ensures CivilFromDays(days + 1) == NextDay(CivilFromDays(days))
  {
    hide InRange, CivilFromDays, Valid, DayNumber, NextDay;
    var d, e := CivilFromDays(days), CivilFromDays(days + 1);
    DayNumberCounts(d);
    DayNumberIsInjective(e, NextDay(d));
  }

  /** `utc_components`. The parts recombine to the time they came from, to the minute, exactly when the
      day is in range. */
  function UtcComponents(seconds: nat): (t: DateTime)
    ensures 0 <= t.hour < 24 && 0 <= t.minute < 60
    ensures InRange(seconds / 86_400) <==>
              Valid(t.date) && ((DayNumber(t.date) * 24 + t.hour) * 60 + t.minute) * 60 + seconds % 60 == seconds
  {
    hide CivilFromDays, InRange, Valid, DayNumber;
    var secsOfDay := seconds % 86_400;
    var date := CivilFromDays(seconds / 86_400);
    Clock(seconds, DayNumber(date));
    DateTime(date, secsOfDay / 3600, secsOfDay % 3600 / 60)
  }

  lemma Clock(seconds: nat, days: int)
    ensures var s := seconds % 86_400;
            ((days * 24 + s / 3600) * 60 + s % 3600 / 60) * 60 + seconds % 60 == seconds <==> days == seconds / 86_400
  {
    var day, s := seconds / 86_400, seconds % 86_400;
    var hour, rest := s / 3600, s % 3600;
    var minute, second := rest / 60, rest % 60;
    assert seconds == 60 * (1440 * day + 60 * hour + minute) + second;
    LastPart(1440 * day + 60 * hour + minute, second);
  }

  lemma LastPart(minutes: int, second: int)
    requires 0 <= second < 60
    ensures (60 * minutes + second) % 60 == second
  {
  }
}
