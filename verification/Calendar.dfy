/**
 mktimegm: the closed form for the seconds since 1970-01-01 against a calendar
 that counts day by day.
 */
module Calendar {
  import opened Basics

  datatype Date = Date(year: int, month: int, day: int)

  predicate Leap(y: int) { y % 4 == 0 && (y % 100 != 0 || y % 400 == 0) }

  function MonthLength(y: int, m: int): int {
    if m == 2 then (if Leap(y) then 29 else 28)
    else if m == 4 || m == 6 || m == 9 || m == 11 then 30
    else 31
  }

  predicate ValidDate(d: Date) { 1 <= d.month <= 12 && 1 <= d.day <= MonthLength(d.year, d.month) }

  function NextDay(d: Date): Date {
    if d.day < MonthLength(d.year, d.month) then d.(day := d.day + 1)
    else if d.month < 12 then Date(d.year, d.month + 1, 1)
    else Date(d.year + 1, 1, 1)
  }

  function PrevDay(d: Date): Date {
    if d.day > 1 then d.(day := d.day - 1)
    else if d.month > 1 then Date(d.year, d.month - 1, MonthLength(d.year, d.month - 1))
    else Date(d.year - 1, 12, 31)
  }

  const EPOCH := Date(1970, 1, 1)

  /** The date n days after the epoch, or before it, one day at a time. */
  function DateAt(n: int): Date
    decreases if n < 0 then -n else n
  {
    if n == 0 then EPOCH
    else if n > 0 then NextDay(DateAt(n - 1))
    else PrevDay(DateAt(n + 1))
  }

  // ----- the closed form

  /** January and February count as months 13 and 14 of the year before. */
  function ShiftedYear(d: Date): int { if d.month < 3 then d.year - 1 else d.year }
  function ShiftedMonth(d: Date): int { if d.month < 3 then d.month + 12 else d.month }

  /** The days since the epoch as the code computes them. */
  function DaysInC(d: Date): int {
    var y, m := ShiftedYear(d), ShiftedMonth(d);
    d.day + CDiv(153 * m - 457, 5) + 365 * y + CDiv(y, 4) - CDiv(y, 100) + CDiv(y, 400) - 719469
  }

  const INT_MAX := 0x7FFF_FFFF

  predicate FitsInt(x: int) { -INT_MAX - 1 <= x <= INT_MAX }

  /** None where the product of ints overflows, which C leaves undefined. */
  function MkTimeGm(d: Date, hour: int, min: int, sec: int): Option<int> {
    var days := 86400 * DaysInC(d);
    if FitsInt(days) then Some(days + (3600 * hour + 60 * min + sec)) else None
  }

  /** The same form with divisions rounded down. */
  function Days(d: Date): int {
    var y, m := ShiftedYear(d), ShiftedMonth(d);
    d.day + (153 * m - 457) / 5 + 365 * y + LeapDays(y) - 719469
  }

  function LeapDays(y: int): int { y / 4 - y / 100 + y / 400 }

  // ----- one day further

  lemma LeapDaysStep(y: int)
    ensures LeapDays(y) - LeapDays(y - 1) == if Leap(y) then 1 else 0
  {
    DivStep(y, 4);
    DivStep(y, 100);
    DivStep(y, 400);
    Multiples(y);
  }

  lemma Multiples(y: int)
    ensures y % 400 == 0 ==> y % 100 == 0
    ensures y % 100 == 0 ==> y % 4 == 0
  {
    if y % 100 == 0 { DivIs(y, 4, 25 * (y / 100), 0); }
    if y % 400 == 0 { DivIs(y, 100, 4 * (y / 400), 0); }
  }

  lemma DivStep(y: int, k: nat)
    requires k > 1
    ensures y / k - (y - 1) / k == if y % k == 0 then 1 else 0
  {
    var q, r := y / k, y % k;
    if r == 0 {
      assert y - 1 == k * (q - 1) + (k - 1);
      DivIs(y - 1, k, q - 1, k - 1);
    } else {
      assert y - 1 == k * q + (r - 1);
      DivIs(y - 1, k, q, r - 1);
    }
  }

  lemma NextIsNext(d: Date)
    requires ValidDate(d)
    ensures ValidDate(NextDay(d)) && Days(NextDay(d)) == Days(d) + 1 && PrevDay(NextDay(d)) == d
  {
    hide Leap, LeapDays;
    LeapDaysStep(d.year);
  }

  lemma PrevIsPrev(d: Date)
    requires ValidDate(d)
    ensures ValidDate(PrevDay(d)) && Days(PrevDay(d)) == Days(d) - 1 && NextDay(PrevDay(d)) == d
  {
    hide Leap, LeapDays;
    LeapDaysStep(d.year);
  }

  // ----- the closed form counts days

  lemma {:induction false} DaysOfDateAt(n: int)
    ensures ValidDate(DateAt(n)) && Days(DateAt(n)) == n
    decreases if n < 0 then -n else n
  {
    hide Days, NextDay, PrevDay;
    if n == 0 {
      EpochIsZero();
    } else if n > 0 {
      DaysOfDateAt(n - 1);
      NextIsNext(DateAt(n - 1));
    } else {
      DaysOfDateAt(n + 1);
      PrevIsPrev(DateAt(n + 1));
    }
  }

  lemma EpochIsZero()
    ensures ValidDate(EPOCH) && Days(EPOCH) == 0
  {}

  /** The first day of a year. */
  function NewYear(y: int): Date { Date(y, 1, 1) }

  lemma YearBounds(d: Date)
    requires ValidDate(d)
    ensures Days(NewYear(d.year)) <= Days(d) < Days(NewYear(d.year + 1))
    ensures d != NewYear(d.year) ==> Days(NewYear(d.year)) < Days(d)
  {
    hide LeapDays, Leap;
    LeapDaysStep(d.year);
  }

  lemma {:induction false} YearsGrow(a: int, b: int)
    requires a <= b
    ensures Days(NewYear(a)) <= Days(NewYear(b))
    decreases b - a
  {
    hide Days;
    if a < b {
      YearsGrow(a, b - 1);
      YearBounds(NewYear(b - 1));
    }
  }

  lemma ZeroIsEpoch(d: Date)
    requires ValidDate(d) && Days(d) == 0
    ensures d == EPOCH
  {
    hide Days;
    EpochIsZero();
    YearBounds(d);
    if d.year > 1970 {
      YearsGrow(1971, d.year);
      YearBounds(EPOCH);
    } else if d.year < 1970 {
      YearsGrow(d.year + 1, 1970);
    }
  }

  /** Counting day by day for Days(d) days leads to d, for every date of every year. */
  lemma {:induction false} CountingReaches(d: Date)
    requires ValidDate(d)
    ensures DateAt(Days(d)) == d
    decreases if Days(d) < 0 then -Days(d) else Days(d)
  {
    hide Days, NextDay, PrevDay;
    var n := Days(d);
    if n == 0 {
      ZeroIsEpoch(d);
    } else if n > 0 {
      PrevIsPrev(d);
      CountingReaches(PrevDay(d));
    } else {
      NextIsNext(d);
      CountingReaches(NextDay(d));
    }
  }

  /** The divisions of the code give the count exactly when the shifted year is not negative, or is a leap year. */
  lemma CodeCountsIff(d: Date)
    requires ValidDate(d)
    ensures DaysInC(d) == Days(d) <==> ShiftedYear(d) >= 0 || Leap(ShiftedYear(d))
    ensures DaysInC(d) == Days(d) || DaysInC(d) == Days(d) + 1
  {
    var y := ShiftedYear(d);
    if y < 0 {
      Truncated(y, 4);
      Truncated(y, 100);
      Truncated(y, 400);
      Multiples(y);
    }
  }

  lemma Truncated(y: int, k: nat)
    requires y < 0 && k > 1
    ensures CDiv(y, k) == y / k + if y % k == 0 then 0 else 1
  {
    var q, r := y / k, y % k;
    if r == 0 {
      assert -y == k * (-q) + 0;
      DivIs(-y, k, -q, 0);
    } else {
      assert -y == k * (-q - 1) + (k - r);
      DivIs(-y, k, -q - 1, k - r);
    }
  }

  /** Seconds since the epoch: whole days counted one by one, and the time of day. */
  function SecondsOf(n: int, hour: int, min: int, sec: int): int { 86400 * n + 3600 * hour + 60 * min + sec }

  /** A day that fits in an int of seconds lies in a year for which the code's divisions are right. */
  lemma InRangeIsRecent(d: Date)
    requires ValidDate(d) && Days(d) >= -24856
    ensures d.year >= 1
  {
    hide Days, Leap;
    if d.year < 1 {
      YearBounds(d);
      YearsGrow(d.year + 1, 1);
      YearOne();
    }
  }

  lemma YearOne()
    ensures Days(NewYear(1)) == -719162
  {}

  /**
   For the n-th day from the epoch, whichever it is, mktimegm is defined
   exactly while n days fit in an int of seconds, and is then the number of
   seconds counted day by day.
   */
  lemma MkTimeGmCounts(n: int, hour: int, min: int, sec: int)
    ensures MkTimeGm(DateAt(n), hour, min, sec)
         == if -24855 <= n <= 24855 then Some(SecondsOf(n, hour, min, sec)) else None
  {
    hide DateAt, Days, DaysInC, Leap;
    var d := DateAt(n);
    DaysOfDateAt(n);
    CodeCountsIff(d);
    if n >= -24856 {
      InRangeIsRecent(d);
    }
  }

  /** The same for a date that is given rather than counted to. */
  lemma MkTimeGmOfDate(d: Date, hour: int, min: int, sec: int)
    requires ValidDate(d) && MkTimeGm(d, hour, min, sec).Some?
    ensures exists n :: DateAt(n) == d && MkTimeGm(d, hour, min, sec).value == SecondsOf(n, hour, min, sec)
  {
    hide DateAt, Days;
    CountingReaches(d);
    MkTimeGmCounts(Days(d), hour, min, sec);
    assert DateAt(Days(d)) == d;
  }

  /** The next day is 86400 seconds later, across the ends of months, years, leap years and centuries. */
  lemma NextDayAddsADay(d: Date, hour: int, min: int, sec: int)
    requires ValidDate(d)
    requires MkTimeGm(d, hour, min, sec).Some? && MkTimeGm(NextDay(d), hour, min, sec).Some?
    ensures MkTimeGm(NextDay(d), hour, min, sec).value == MkTimeGm(d, hour, min, sec).value + 86400
  {
    hide DateAt, Days, NextDay, MkTimeGm;
    NextIsNext(d);
    CountingReaches(d);
    CountingReaches(NextDay(d));
    MkTimeGmCounts(Days(d), hour, min, sec);
    MkTimeGmCounts(Days(NextDay(d)), hour, min, sec);
  }

  /** Before year 1 the truncating divisions are a day out in common years. */
  lemma BeforeYearZero()
    ensures DaysInC(Date(-1, 3, 1)) == Days(Date(-1, 3, 1)) + 1
  {}
}
