/** Proleptic Gregorian calendar arithmetic: civil dates to days since 1970-01-01. */
module Calendar {

  predicate IsLeapYear(y: int) {
    y % 4 == 0 && (y % 100 != 0 || y % 400 == 0)
  }

  function DaysInMonth(y: int, m: int): int
    requires 1 <= m <= 12
  {
    if m == 2 then (if IsLeapYear(y) then 29 else 28)
    else if m == 4 || m == 6 || m == 9 || m == 11 then 30
    else 31
  }

  /** Days from 0000-03-01 to March 1st of year `y` (a year counted from March). */
  function MarchYearStart(y: int): int {
    var era := y / 400;
    var yoe := y - era * 400;
    era * 146097 + yoe * 365 + yoe / 4 - yoe / 100
  }

  /** Days from March 1st to the first of month `m`, in a year counted from March. */
  function DaysFromMarch(m: int): int
    requires 1 <= m <= 12
  {
    var mp := if m > 2 then m - 3 else m + 9;
    (153 * mp + 2) / 5
  }

  /** Days from 1970-01-01 to `y`-`m`-`d`; any `d`, the days simply add up. */
  function DaysFromCivil(y: int, m: int, d: int): int
    requires 1 <= m <= 12
  {
    var y' := if m <= 2 then y - 1 else y;
    MarchYearStart(y') + DaysFromMarch(m) + d - 1 - 719468
  }

  /** Division by 4, 100 and 400 from a quotient and remainder. */
  lemma Div4(a: int, q: int, r: int)
    requires a == 4 * q + r && 0 <= r < 4
    ensures a / 4 == q && a % 4 == r
  {
  }

  lemma Div100(a: int, q: int, r: int)
    requires a == 100 * q + r && 0 <= r < 100
    ensures a / 100 == q && a % 100 == r
  {
  }

  lemma Div400(a: int, q: int, r: int)
    requires a == 400 * q + r && 0 <= r < 400
    ensures a / 400 == q && a % 400 == r
  {
  }

  /** Counting one more: the quotient by 4 grows exactly at multiples of 4. */
  lemma QuarterStep(k: int)
    ensures (k + 1) / 4 == k / 4 + (if (k + 1) % 4 == 0 then 1 else 0)
  {
    var q, r := k / 4, k % 4;
    if r == 3 {
      Div4(k + 1, q + 1, 0);
    } else {
      Div4(k + 1, q, r + 1);
    }
  }

  /** Counting one more: the quotient by 100 grows exactly at multiples of 100. */
  lemma CenturyStep(k: int)
    ensures (k + 1) / 100 == k / 100 + (if (k + 1) % 100 == 0 then 1 else 0)
  {
    var q, r := k / 100, k % 100;
    if r == 99 {
      Div100(k + 1, q + 1, 0);
    } else {
      Div100(k + 1, q, r + 1);
    }
  }

  /** The March-based year `y` is 365 days long, or 366 when it ends in a leap February. */
  lemma MarchYearLength(y: int)
    ensures MarchYearStart(y + 1) - MarchYearStart(y) == if IsLeapYear(y + 1) then 366 else 365
  {
    var era, yoe := y / 400, y % 400;
    assert MarchYearStart(y) == era * 146097 + yoe * 365 + yoe / 4 - yoe / 100;
    if yoe == 399 {
      Div400(y + 1, era + 1, 0);
      Div4(y + 1, 100 * (era + 1), 0);
      Div100(y + 1, 4 * (era + 1), 0);
      assert MarchYearStart(y + 1) == (era + 1) * 146097;
    } else {
      Div400(y + 1, era, yoe + 1);
      assert MarchYearStart(y + 1) == era * 146097 + (yoe + 1) * 365 + (yoe + 1) / 4 - (yoe + 1) / 100;
      QuarterStep(yoe);
      CenturyStep(yoe);
      Div4(y + 1, 100 * era + (yoe + 1) / 4, (yoe + 1) % 4);
      Div100(y + 1, 4 * era + (yoe + 1) / 100, (yoe + 1) % 100);
    }
  }

  /** Consecutive months are `DaysInMonth` apart. */
  lemma MonthStep(y: int, m: int)
    requires 1 <= m < 12
    ensures DaysFromCivil(y, m + 1, 1) == DaysFromCivil(y, m, 1) + DaysInMonth(y, m)
  {
    if m == 2 {
      MarchYearLength(y - 1);
    }
  }

  /** December 1st and the next January 1st are 31 days apart. */
  lemma YearStep(y: int)
    ensures DaysFromCivil(y + 1, 1, 1) == DaysFromCivil(y, 12, 1) + 31
  {
  }

  /** The number of days of the calendar year `y`. */
  function YearLength(y: int): int {
    if IsLeapYear(y) then 366 else 365
  }

  /** January 1st of consecutive years are a year's length apart. */
  lemma NewYearStep(y: int)
    ensures DaysFromCivil(y + 1, 1, 1) == DaysFromCivil(y, 1, 1) + YearLength(y)
  {
    MarchYearLength(y - 1);
  }

  /**
    The reference count, from 1970-01-01: whole months back to January, then
    whole years forward to the date's year, or back from 1970 for earlier years.
   */
  function EpochDays(y: int, m: int, d: int): int
    requires 1 <= m <= 12
    decreases if y >= 1970 then y - 1970 else 1970 - y, m
  {
    if m > 1 then EpochDays(y, m - 1, 1) + DaysInMonth(y, m - 1) + d - 1
    else if y > 1970 then EpochDays(y - 1, 12, 1) + 31 + d - 1
    else if y < 1970 then EpochDays(y + 1, 1, 1) - YearLength(y) + d - 1
    else d - 1
  }

  /** The closed-form count agrees with the month-by-month reference for every year. */
  lemma {:induction false} DaysFromCivilIsEpochDays(y: int, m: int, d: int)
    requires 1 <= m <= 12
    ensures DaysFromCivil(y, m, d) == EpochDays(y, m, d)
    decreases if y >= 1970 then y - 1970 else 1970 - y, m
  {
    if m > 1 {
      DaysFromCivilIsEpochDays(y, m - 1, 1);
      MonthStep(y, m - 1);
    } else if y > 1970 {
      DaysFromCivilIsEpochDays(y - 1, 12, 1);
      YearStep(y - 1);
    } else if y < 1970 {
      DaysFromCivilIsEpochDays(y + 1, 1, 1);
      NewYearStep(y);
    } else {
      assert DaysFromCivil(1970, 1, 1) == 0;
    }
  }

  /** Seconds since 1970-01-01T00:00:00Z of a UTC civil date and time of day. */
  function UnixSeconds(y: int, m: int, d: int, hh: int, mm: int, ss: int): int
    requires 1 <= m <= 12
  {
    DaysFromCivil(y, m, d) * 86400 + hh * 3600 + mm * 60 + ss
  }

  /** 1969-12-31T23:59:59Z is one second before the epoch. */
  lemma LastSecondOf1969()
    ensures UnixSeconds(1969, 12, 31, 23, 59, 59) == -1
  {
  }

  /** 2021-01-01T00:00:00Z is 1609459200 seconds after the epoch. */
  lemma NewYear2021()
    ensures UnixSeconds(2021, 1, 1, 0, 0, 0) == 1609459200
  {
  }
}
