/** Civil dates and day numbers: the closed forms, and the calendar rules they stand for. */
module Calendar {
  import opened Machine

  // The calendar rules.

  predicate IsLeapYear(year: int)
  {
    (TruncRem(year, 4) == 0 && TruncRem(year, 100) != 0) || TruncRem(year, 400) == 0
  }

  function DaysInMonth(year: int, month: int): Option<int>
  {
    match month
    case 1 | 3 | 5 | 7 | 8 | 10 | 12 => Some(31)
    case 4 | 6 | 9 | 11 => Some(30)
    case 2 => Some(if IsLeapYear(year) then 29 else 28)
    case _ => None
  }

  predicate IsValidDate(year: int, month: int, day: int)
  {
    match DaysInMonth(year, month)
    case None => false
    case Some(maxDay) => 1 <= day <= maxDay
  }

  /** Days before month `month` of the year: the lengths of the months before it, added up. */
  function DaysBeforeMonth(year: int, month: int): int
    requires 1 <= month <= 13
    decreases month
  {
    if month == 1 then 0 else DaysBeforeMonth(year, month - 1) + DaysInMonth(year, month - 1).value
  }

  function YearLength(year: int): int
  {
    DaysBeforeMonth(year, 13)
  }

  /** Days from 1970-01-01 to the first of January, one whole year at a time. */
  function DaysBeforeYear(year: int): int
    decreases if year >= 1970 then year - 1970 else 1970 - year
  {
    if year == 1970 then 0
    else if year > 1970 then DaysBeforeYear(year - 1) + YearLength(year - 1)
    else DaysBeforeYear(year + 1) - YearLength(year)
  }

  /** The day number obtained by counting years, months and days. */
  function CountedDays(year: int, month: int, day: int): int
    requires 1 <= month <= 12
  {
    DaysBeforeYear(year) + DaysBeforeMonth(year, month) + day - 1
  }

  // The closed forms.

  function DaysFromCivil(year: int, month: int, day: int): int
  {
    var adjusted := year - (if month <= 2 then 1 else 0);
    var era := TruncDiv(if adjusted >= 0 then adjusted else adjusted - 399, 400);
    var yearOfEra := adjusted - era * 400;
    var dayOfYear := TruncDiv(153 * (month + if month > 2 then -3 else 9) + 2, 5) + day - 1;
    var dayOfEra := yearOfEra * 365 + TruncDiv(yearOfEra, 4) - TruncDiv(yearOfEra, 100) + dayOfYear;
    era * 146_097 + dayOfEra - 719_468
  }

  datatype Civil = Civil(year: int, month: int, day: int)

  /** Year of the 400-year era, from the day of the era. */
  function YearOfEra(doe: int): int
  {
    (doe - doe / 1460 + doe / 36_524 - doe / 146_096) / 365
  }

  /** Day `doy`, counted from March 1st, of year `yoe` of era `era`. */
  function CivilAt(era: int, yoe: int, doy: int): Civil
  {
    var mp := (5 * doy + 2) / 153;
    var day := doy - (153 * mp + 2) / 5 + 1;
    var month := if mp < 10 then mp + 3 else mp - 9;
    Civil(yoe + era * 400 + (if month <= 2 then 1 else 0), month, day)
  }

  /** The days-to-civil computation of the date printers. */
  function CivilFromDays(days: int): Civil
  {
    var z := days + 719_468;
    var era, doe := z / 146_097, z % 146_097;
    var yoe := YearOfEra(doe);
    CivilAt(era, yoe, doe - (365 * yoe + yoe / 4 - yoe / 100))
  }

  // ---------------------------------------------------------------------------
  // The closed form is the calendar.

  lemma RemainderBy4(year: int)
    ensures TruncRem(year, 4) == 0 <==> year % 4 == 0
  {
  }

  lemma RemainderBy100(year: int)
    ensures TruncRem(year, 100) == 0 <==> year % 100 == 0
  {
  }

  lemma RemainderBy400(year: int)
    ensures TruncRem(year, 400) == 0 <==> year % 400 == 0
  {
  }

  lemma LeapByFloor(year: int)
    ensures IsLeapYear(year) <==> (year % 4 == 0 && year % 100 != 0) || year % 400 == 0
  {
    RemainderBy4(year);
    RemainderBy100(year);
    RemainderBy400(year);
  }

  /** The 400-year bookkeeping, flattened. */
  lemma EraFlattens(a: int)
    ensures var era := TruncDiv(if a >= 0 then a else a - 399, 400);
            && era == a / 400
            && var yoe := a - era * 400;
               && 0 <= yoe < 400
               && yoe / 4 == a / 4 - 100 * era && yoe / 100 == a / 100 - 4 * era
  {
    if a < 0 {
      assert -(-(a - 399) / 400) == a / 400;
    }
  }

  function DayOfMarchYear(month: int): int
  {
    (153 * (month + if month > 2 then -3 else 9) + 2) / 5
  }

  function MarchYear(year: int, month: int): int
  {
    if month <= 2 then year - 1 else year
  }

  lemma ClosedFormFlattens(year: int, month: int, day: int)
    requires 1 <= month <= 12
    ensures DaysFromCivil(year, month, day) ==
            365 * MarchYear(year, month) + MarchYear(year, month) / 4 - MarchYear(year, month) / 100
            + MarchYear(year, month) / 400 + DayOfMarchYear(month) + day - 1 - 719_468
  {
    EraFlattens(MarchYear(year, month));
  }

  /** The 153-day trick gives the month starts of a year that begins in March. */
  lemma {:induction false} MonthTrick(year: int, month: int)
    requires 1 <= month <= 13
    ensures DaysBeforeMonth(year, month) ==
            if month <= 2 then DayOfMarchYear(month) - 306
            else DayOfMarchYear(month) + if IsLeapYear(year) then 60 else 59
    decreases month
  {
    hide IsLeapYear;
    if month > 1 {
      MonthTrick(year, month - 1);
    }
  }

  lemma LeapStep(year: int)
    ensures year / 4 - (year - 1) / 4 == if year % 4 == 0 then 1 else 0
    ensures year / 100 - (year - 1) / 100 == if year % 100 == 0 then 1 else 0
    ensures year / 400 - (year - 1) / 400 == if year % 400 == 0 then 1 else 0
    ensures year % 100 == 0 ==> year % 4 == 0
    ensures year % 400 == 0 ==> year % 100 == 0
  {
  }

  lemma WithinYear(year: int, month: int, day: int)
    requires 1 <= month <= 12
    ensures DaysFromCivil(year, month, day) == DaysFromCivil(year, 1, 1) + DaysBeforeMonth(year, month) + day - 1
  {
    ClosedFormFlattens(year, month, day);
    ClosedFormFlattens(year, 1, 1);
    MonthTrick(year, month);
    LeapByFloor(year);
    LeapStep(year);
  }

  lemma YearLengths(year: int)
    ensures YearLength(year) == if IsLeapYear(year) then 366 else 365
    ensures DaysFromCivil(year + 1, 1, 1) == DaysFromCivil(year, 1, 1) + YearLength(year)
  {
    MonthTrick(year, 13);
    ClosedFormFlattens(year, 1, 1);
    ClosedFormFlattens(year + 1, 1, 1);
    LeapByFloor(year);
    LeapStep(year);
  }

  lemma {:induction false} YearStarts(year: int)
    ensures DaysFromCivil(year, 1, 1) == DaysBeforeYear(year)
    decreases if year >= 1970 then year - 1970 else 1970 - year
  {
    if year > 1970 {
      YearStarts(year - 1);
      YearLengths(year - 1);
    } else if year < 1970 {
      YearStarts(year + 1);
      YearLengths(year);
    }
  }

  /** For every valid date of every year the closed form counts years, months and days. */
  lemma ClosedFormIsCalendar(year: int, month: int, day: int)
    requires IsValidDate(year, month, day)
    ensures DaysFromCivil(year, month, day) == CountedDays(year, month, day)
  {
    YearStarts(year);
    WithinYear(year, month, day);
  }

  // ---------------------------------------------------------------------------
  // Order and successor.

  function NextDay(c: Civil): Civil
  {
    if IsValidDate(c.year, c.month, c.day + 1) then c.(day := c.day + 1)
    else if c.month < 12 then Civil(c.year, c.month + 1, 1)
    else Civil(c.year + 1, 1, 1)
  }

  /** Consecutive valid days have consecutive numbers. */
  lemma NextDayIsNextNumber(c: Civil)
    requires IsValidDate(c.year, c.month, c.day)
    ensures var n := NextDay(c);
            IsValidDate(n.year, n.month, n.day)
            && DaysFromCivil(n.year, n.month, n.day) == DaysFromCivil(c.year, c.month, c.day) + 1
  {
    hide DaysFromCivil, IsLeapYear;
    var n := NextDay(c);
    WithinYear(c.year, c.month, c.day);
    WithinYear(n.year, n.month, n.day);
    YearLengths(c.year);
    assert DaysBeforeMonth(c.year, c.month + 1)
        == DaysBeforeMonth(c.year, c.month) + DaysInMonth(c.year, c.month).value;
  }

  predicate Earlier(a: Civil, b: Civil)
  {
    a.year < b.year
    || (a.year == b.year && (a.month < b.month || (a.month == b.month && a.day < b.day)))
  }

  lemma {:induction false} MonthsAccumulate(year: int, m: int, n: int)
    requires 1 <= m < n <= 13
    ensures DaysBeforeMonth(year, m) + DaysInMonth(year, m).value <= DaysBeforeMonth(year, n)
    decreases n
  {
    if m + 1 < n {
      MonthsAccumulate(year, m, n - 1);
    }
  }

  lemma {:induction false} YearsAccumulate(y: int, z: int)
    requires y < z
    ensures DaysFromCivil(y, 1, 1) + YearLength(y) <= DaysFromCivil(z, 1, 1)
    decreases z - y
  {
    YearLengths(y);
    if y + 1 < z {
      YearLengths(y + 1);
      YearsAccumulate(y + 1, z);
    }
  }

  /** Date order is day-number order. */
  lemma EarlierIsSmaller(a: Civil, b: Civil)
    requires IsValidDate(a.year, a.month, a.day) && IsValidDate(b.year, b.month, b.day)
    ensures Earlier(a, b) <==> DaysFromCivil(a.year, a.month, a.day) < DaysFromCivil(b.year, b.month, b.day)
  {
    if Earlier(a, b) {
      EarlierDateSmallerNumber(a, b);
    } else if a != b {
      EarlierDateSmallerNumber(b, a);
    }
  }

  lemma EarlierDateSmallerNumber(a: Civil, b: Civil)
    requires IsValidDate(a.year, a.month, a.day) && IsValidDate(b.year, b.month, b.day) && Earlier(a, b)
    ensures DaysFromCivil(a.year, a.month, a.day) < DaysFromCivil(b.year, b.month, b.day)
  {
    WithinYear(a.year, a.month, a.day);
    WithinYear(b.year, b.month, b.day);
    MonthsAccumulate(a.year, a.month, 13);
    if a.year < b.year {
      YearsAccumulate(a.year, b.year);
      if b.month > 1 {
        MonthsAccumulate(b.year, 1, b.month);
      }
    } else if a.month < b.month {
      MonthsAccumulate(a.year, a.month, b.month);
    }
  }

  // ---------------------------------------------------------------------------
  // The inverse.

  /** Days before year `k` of a 400-year era that begins in March. */
  function EraYearStart(k: int): int
  {
    365 * k + k / 4 - k / 100 + k / 400
  }

  /** Day `v` of year `u` of four-year group `q` of century `c`. Only the fourth year of a group can
      have a 366th day, and the last group of a century has one only in the last century. */
  ghost predicate EraParts(c: int, q: int, u: int, v: int)
  {
    0 <= c <= 3 && 0 <= q <= 24 && 0 <= u <= 3 && 0 <= v <= 365 && (v == 365 ==> u == 3 && (q < 24 || c == 3))
  }

  lemma YearStartByParts(c: int, q: int, u: int, v: int)
    requires EraParts(c, q, u, v)
    ensures EraYearStart(100 * c + 4 * q + u) == 36_524 * c + 1461 * q + 365 * u
  {
    QuotientIs(100 * c + 4 * q + u, 100, c);
    QuotientIs(100 * c + 4 * q + u, 4, 25 * c + q);
    QuotientIs(100 * c + 4 * q + u, 400, 0);
  }

  lemma YearOfEraByParts(c: int, q: int, u: int, v: int)
    requires EraParts(c, q, u, v)
    ensures YearOfEra(36_524 * c + 1461 * q + 365 * u + v) == 100 * c + 4 * q + u
  {
    var doe := 36_524 * c + 1461 * q + 365 * u + v;
    var e := if 24 * c + q + 365 * u + v >= 1460 then 1 else 0;
    var last := if doe == 146_096 then 1 else 0;
    QuotientIs(doe, 1460, 25 * c + q + e);
    QuotientIs(doe, 36_524, c + last);
    QuotientIs(doe, 146_096, last);
    QuotientIs(doe - (25 * c + q + e) + c, 365, 100 * c + 4 * q + u);
  }

  /** The estimated year contains the day, and the day after February 28 exists only in leap years. */
  lemma YearOfEraBrackets(doe: int)
    requires 0 <= doe < 146_097
    ensures var k := YearOfEra(doe);
            && 0 <= k < 400 && EraYearStart(k) <= doe <= EraYearStart(k) + 365
            && (doe == EraYearStart(k) + 365 ==> ((k + 1) % 4 == 0 && (k + 1) % 100 != 0) || (k + 1) % 400 == 0)
  {
    var c, q, u, v := PartsOfEra(doe);
    YearStartByParts(c, q, u, v);
    YearOfEraByParts(c, q, u, v);
    if v == 365 {
      QuotientIs(100 * c + 4 * q + u + 1, 4, 25 * c + q + 1);
      QuotientIs(100 * c + 4 * q + u + 1, 100, if q == 24 then c + 1 else c);
    }
  }

  lemma PartsOfEra(doe: int) returns (c: int, q: int, u: int, v: int)
    requires 0 <= doe < 146_097
    ensures EraParts(c, q, u, v) && doe == 36_524 * c + 1461 * q + 365 * u + v
  {
    c := if doe == 146_096 then 3 else doe / 36_524;
    var r := doe - 36_524 * c;
    q := r / 1461;
    var t := r - 1461 * q;
    u := if t == 1460 then 3 else t / 365;
    v := t - 365 * u;
  }

  lemma MarchMonth(doy: int)
    requires 0 <= doy <= 365
    ensures var mp := (5 * doy + 2) / 153;
            && 0 <= mp <= 11 && (153 * mp + 2) / 5 <= doy < (153 * (mp + 1) + 2) / 5
  {
  }

  lemma FlatEra(era: int, yoe: int)
    requires 0 <= yoe < 400
    ensures var a := yoe + era * 400;
            a / 4 == yoe / 4 + 100 * era && a / 100 == yoe / 100 + 4 * era && a / 400 == era
  {
  }

  lemma ShiftByEras(era: int, k: int)
    ensures (k + era * 400) % 4 == k % 4
    ensures (k + era * 400) % 100 == k % 100
    ensures (k + era * 400) % 400 == k % 400
  {
    QuotientIs(k + era * 400, 4, k / 4 + 100 * era);
    QuotientIs(k + era * 400, 100, k / 100 + 4 * era);
    QuotientIs(k + era * 400, 400, k / 400 + era);
  }

  lemma LeapModulo(era: int, k: int)
    ensures IsLeapYear(k + era * 400) <==> (k % 4 == 0 && k % 100 != 0) || k % 400 == 0
  {
    LeapByFloor(k + era * 400);
    ShiftByEras(era, k);
  }

  /** The date at day `doy` of March-based year `yoe` of `era` is valid and numbered as expected. */
  lemma MarchDate(era: int, yoe: int, doy: int)
    requires 0 <= yoe < 400 && 0 <= doy <= 365
    requires doy == 365 ==> IsLeapYear(yoe + 1 + era * 400)
    ensures var c := CivilAt(era, yoe, doy);
            && IsValidDate(c.year, c.month, c.day)
            && DaysFromCivil(c.year, c.month, c.day) == era * 146_097 + EraYearStart(yoe) + doy - 719_468
  {
    MarchMonth(doy);
    var c := CivilAt(era, yoe, doy);
    ClosedFormFlattens(c.year, c.month, c.day);
    FlatEra(era, yoe);
    assert MarchYear(c.year, c.month) == yoe + era * 400;
    assert DayOfMarchYear(c.month) + c.day - 1 == doy;
  }

  lemma CivilFromDaysByEra(days: int)
    ensures var z := days + 719_468;
            var doe := z % 146_097;
            && 0 <= YearOfEra(doe) < 400
            && CivilFromDays(days) == CivilAt(z / 146_097, YearOfEra(doe), doe - EraYearStart(YearOfEra(doe)))
  {
    var doe := (days + 719_468) % 146_097;
    YearOfEraBrackets(doe);
    QuotientIs(YearOfEra(doe), 400, 0);
  }

  lemma EraDay(era: int, doe: int)
    requires 0 <= doe < 146_097
    ensures var yoe := YearOfEra(doe);
            var c := CivilAt(era, yoe, doe - EraYearStart(yoe));
            && 0 <= yoe < 400 && IsValidDate(c.year, c.month, c.day)
            && DaysFromCivil(c.year, c.month, c.day) == era * 146_097 + doe - 719_468
  {
    hide *;
    var yoe := YearOfEra(doe);
    YearOfEraBrackets(doe);
    LeapModulo(era, yoe + 1);
    MarchDate(era, yoe, doe - EraYearStart(yoe));
  }

  /** Every day number is a valid date, and the date gives the number back. */
  lemma DaysOfCivilOfDays(days: int)
    ensures var c := CivilFromDays(days);
            IsValidDate(c.year, c.month, c.day) && DaysFromCivil(c.year, c.month, c.day) == days
  {
    hide *;
    var z := days + 719_468;
    EraDay(z / 146_097, z % 146_097);
    CivilFromDaysByEra(days);
  }

  /** Civil-to-days and days-to-civil undo each other. */
  lemma CivilOfDaysOfCivil(c: Civil)
    requires IsValidDate(c.year, c.month, c.day)
    ensures CivilFromDays(DaysFromCivil(c.year, c.month, c.day)) == c
  {
    var back := CivilFromDays(DaysFromCivil(c.year, c.month, c.day));
    DaysOfCivilOfDays(DaysFromCivil(c.year, c.month, c.day));
    EarlierIsSmaller(c, back);
    EarlierIsSmaller(back, c);
  }

  /** No intermediate of the closed form leaves `i32` for the dates the timestamp parsers accept. */
  lemma ClosedFormFitsI32(year: int, month: int, day: int)
    requires 0 <= year <= 9999 && IsValidDate(year, month, day)
    ensures var adjusted := year - (if month <= 2 then 1 else 0);
            var era := TruncDiv(if adjusted >= 0 then adjusted else adjusted - 399, 400);
            var yearOfEra := adjusted - era * 400;
            && I32_MIN <= adjusted - 399 && 0 <= adjusted - era * 400 < 400 && -1 <= era <= 24
            && 0 <= 153 * (month + if month > 2 then -3 else 9) + 2 <= 1685
            && 0 <= yearOfEra * 365 + TruncDiv(yearOfEra, 4) - TruncDiv(yearOfEra, 100)
                 + TruncDiv(153 * (month + if month > 2 then -3 else 9) + 2, 5) + day - 1 < 146_097
    ensures -719_528 <= DaysFromCivil(year, month, day) <= 2_932_896
  {
    EraFlattens(MarchYear(year, month));
    ClosedFormRange(Civil(year, month, day));
  }

  lemma ClosedFormRange(c: Civil)
    requires 0 <= c.year <= 9999 && IsValidDate(c.year, c.month, c.day)
    ensures -719_528 <= DaysFromCivil(c.year, c.month, c.day) <= 2_932_896
  {
    assert DaysFromCivil(0, 1, 1) == -719_528 && DaysFromCivil(9999, 12, 31) == 2_932_896;
    hide DaysFromCivil, IsLeapYear;
    EarlierIsSmaller(c, Civil(0, 1, 1));
    EarlierIsSmaller(Civil(9999, 12, 31), c);
  }
}
