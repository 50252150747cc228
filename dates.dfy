/**
 * Calendar dates as epoch days (LocalDate.toEpochDay), the UTC date of an
 * epoch-millisecond timestamp, and the validated DateRange value.
 */
module Dates {
  import opened Results

  /** A LocalDate, as the number of days since 1970-01-01. */
  type Day = int

  const MillisPerDay: int := 86400000

  /**
   * The UTC calendar date of an epoch-millisecond instant
   * (LocalDateTime.ofInstant(..., UTC).toLocalDate()): the day whose
   * 24 hours contain the instant, also before 1970.
   */
  function DayOf(millis: int): (d: Day)
    ensures d * MillisPerDay <= millis < (d + 1) * MillisPerDay
  {
    millis / MillisPerDay
  }

  /** The fields of a date range; a DateRange is one whose start is not after its end. */
  datatype Period = Period(start: Day, end: Day)

  type DateRange = p: Period | p.start <= p.end witness Period(0, 0)

  const StartAfterEnd: string := "Start date must be before end date!"

  /**
   * new DateRange(start, end): fails when start is after end (equal dates
   * are accepted); otherwise getStart() and getEnd() give back the arguments.
   */
  function NewDateRange(start: Day, end: Day): (r: Result<DateRange>)
    ensures r.Err? <==> start > end
    ensures r.Err? ==> r.error == Validation(StartAfterEnd)
    ensures r.Ok? ==> r.value.start == start && r.value.end == end
  {
    if start > end then Err(Validation(StartAfterEnd)) else Ok(Period(start, end))
  }

  /** Every range that construction returns has its start on or before its end. */
  lemma NewDateRangeOrdered(start: Day, end: Day)
    requires NewDateRange(start, end).Ok?
    ensures NewDateRange(start, end).value.start <= NewDateRange(start, end).value.end
  {
  }

  predicate IsLeapYear(y: int) {
    y % 4 == 0 && (y % 100 != 0 || y % 400 == 0)
  }

  function DaysInMonth(y: int, m: int): (n: int)
    requires 1 <= m <= 12
    ensures 28 <= n <= 31
  {
    if m == 2 then (if IsLeapYear(y) then 29 else 28)
    else if m == 4 || m == 6 || m == 9 || m == 11 then 30
    else 31
  }

  /** LocalDate.of(y, m, d).toEpochDay(), by the days-from-civil count (400-year eras). */
  function EpochDay(y: nat, m: int, d: int): Day
    requires 1 <= y && 1 <= m <= 12 && 1 <= d <= 31
  {
    var y': nat := if m <= 2 then y - 1 else y;
    var era := y' / 400;
    var yoe := y' - era * 400;
    var mp := if m > 2 then m - 3 else m + 9;
    var doy := (153 * mp + 2) / 5 + d - 1;
    var doe := yoe * 365 + yoe / 4 - yoe / 100 + doy;
    era * 146097 + doe - 719468
  }

  /** The count is anchored where LocalDate's is, and agrees with the UTC day of an instant. */
  lemma EpochDayAnchors()
    ensures EpochDay(1970, 1, 1) == 0
    ensures EpochDay(2022, 1, 1) == 18993
    ensures DayOf(1641013200000) == EpochDay(2022, 1, 1)
  {
  }

  /** The day after a month's last day is the first of the next month (February 29 in leap years only). */
  lemma EpochDayMonthEnd(y: nat, m: int)
    requires 1 <= y && 1 <= m <= 11
    ensures EpochDay(y, m, DaysInMonth(y, m)) + 1 == EpochDay(y, m + 1, 1)
  {
    if m == 2 {
      FebruaryEnd(y);
    }
  }

  /** March 1 follows February 28, or February 29 in a leap year. */
  lemma FebruaryEnd(y: nat)
    requires 1 <= y
    ensures EpochDay(y, 2, DaysInMonth(y, 2)) + 1 == EpochDay(y, 3, 1)
  {
    var era := (y - 1) / 400;
    var yoe := y - 1 - era * 400;
    if yoe == 399 {
      FebruaryEndOfEra(y, era);
    } else {
      FebruaryEndWithinEra(y, era, yoe);
    }
  }

  /** FebruaryEnd for a year divisible by 400: its March opens a new era. */
  lemma FebruaryEndOfEra(y: nat, era: int)
    requires 1 <= y && y == era * 400 + 400 && era == (y - 1) / 400
    ensures EpochDay(y, 2, DaysInMonth(y, 2)) + 1 == EpochDay(y, 3, 1)
  {
    CenturyLeap(y, era + 1);
    FebruaryDay(y, 29, era, 399);
    MarchFirst(y, era + 1, 0);
  }

  /** A multiple of 400 is a leap year. */
  lemma CenturyLeap(y: int, q: int)
    requires y == q * 400
    ensures DaysInMonth(y, 2) == 29
  {
    assert y == (q * 100) * 4 && y == (q * 4) * 100;
    ModShift(0, q * 100, 4);
    ModShift(0, q * 4, 100);
    ModShift(0, q, 400);
  }

  /** FebruaryEnd for a year whose March stays in the era of the previous March. */
  lemma FebruaryEndWithinEra(y: nat, era: int, yoe: int)
    requires 1 <= y && era == (y - 1) / 400 && yoe == y - 1 - era * 400 && yoe != 399
    ensures EpochDay(y, 2, DaysInMonth(y, 2)) + 1 == EpochDay(y, 3, 1)
  {
    var dim := DaysInMonth(y, 2);
    FebruaryDay(y, dim, era, yoe);
    MarchFirst(y, era, yoe + 1);
    LeapWithinEra(y, era, yoe);
    LeapDayCount(EpochDay(y, 2, dim), EpochDay(y, 3, 1), era, yoe, dim, yoe / 4, yoe / 100, (yoe + 1) / 4, (yoe + 1) / 100);
  }

  /** The arithmetic of FebruaryEnd within an era, with the quotients named. */
  lemma LeapDayCount(before: int, after: int, era: int, yoe: int, dim: int, q4: int, q100: int, r4: int, r100: int)
    requires before == era * 146097 + yoe * 365 + q4 - q100 + 336 + dim - 719468
    requires after == era * 146097 + (yoe + 1) * 365 + r4 - r100 - 719468
    requires dim - 28 == (r4 - q4) - (r100 - q100)
    ensures before + 1 == after
  {
  }

  /** A day of February, counted in the era of the previous year's March. */
  lemma FebruaryDay(y: nat, d: int, era: int, yoe: int)
    requires 1 <= y && 1 <= d <= 31 && era == (y - 1) / 400 && yoe == y - 1 - era * 400
    ensures EpochDay(y, 2, d) == era * 146097 + yoe * 365 + yoe / 4 - yoe / 100 + 336 + d - 719468
  {
  }

  /** March 1, counted in its own era. */
  lemma MarchFirst(y: nat, era: int, yoe: int)
    requires 1 <= y && y == era * 400 + yoe && 0 <= yoe < 400
    ensures EpochDay(y, 3, 1) == era * 146097 + yoe * 365 + yoe / 4 - yoe / 100 - 719468
  {
    assert y / 400 == era;
  }

  /** Inside a 400-year era, a year is a leap year as its offset in the era is. */
  lemma LeapWithinEra(y: int, era: int, yoe: int)
    requires y == era * 400 + yoe + 1 && 0 <= yoe < 399
    ensures DaysInMonth(y, 2) - 28 == ((yoe + 1) / 4 - yoe / 4) - ((yoe + 1) / 100 - yoe / 100)
  {
    var k := yoe + 1;
    ModShift(k, era * 100, 4);
    ModShift(k, era * 4, 100);
    assert y % 4 == k % 4 && y % 100 == k % 100 && y % 400 != 0;
    assert k / 4 - yoe / 4 == if k % 4 == 0 then 1 else 0;
    assert k / 100 - yoe / 100 == if k % 100 == 0 then 1 else 0;
  }

  /** Adding a multiple of n keeps the remainder modulo n. */
  lemma ModShift(x: int, k: int, n: int)
    requires n > 0
    ensures (x + k * n) % n == x % n
  {
    var q, r := x / n, x % n;
    assert (q + k) * n == q * n + k * n;
    assert x + k * n == (q + k) * n + r && 0 <= r < n;
    DivUnique(x + k * n, n, q + k, r);
  }

  /** Euclidean division is unique: a quotient and a remainder in range are x / n and x % n. */
  lemma DivUnique(x: int, n: int, q: int, r: int)
    requires n > 0 && x == q * n + r && 0 <= r < n
    ensures x % n == r
  {
    var q', r' := x / n, x % n;
    if q' < q {
      MulAtLeast(q - q', n);
    } else if q' > q {
      MulAtLeast(q' - q, n);
    }
  }

  lemma MulAtLeast(a: int, n: int)
    requires a >= 1 && n > 0
    ensures a * n >= n
  {
    assert a * n == (a - 1) * n + n;
    assert (a - 1) * n >= 0;
  }

  /** The day after December 31 is January 1 of the next year. */
  lemma EpochDayYearEnd(y: nat)
    requires 1 <= y
    ensures EpochDay(y, 12, 31) + 1 == EpochDay(y + 1, 1, 1)
  {
  }

  /** Within a month, a later day of the month is a later epoch day. */
  lemma EpochDayWithinMonth(y: nat, m: int, d1: int, d2: int)
    requires 1 <= y && 1 <= m <= 12 && 1 <= d1 <= d2 <= 31
    ensures EpochDay(y, m, d2) - EpochDay(y, m, d1) == d2 - d1
  {
  }
}
