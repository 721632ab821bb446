/** Calendar arithmetic: the number of days from 1970-01-01 to a date of the proleptic
    Gregorian calendar, and the timestamp of a UTC time. */
module Timestamps {

  // ---------- machine arithmetic

  const INT_MAX: int := 0x7fff_ffff
  const INT_MIN: int := -0x8000_0000

  /** Division of C: toward zero. */
  function Quotient(a: int, b: int): int
    requires b > 0
  {
    if a >= 0 then a / b else -(-a / b)
  }

  function Unsigned(x: int): nat { x % 0x1_0000_0000 }

  function Unsigned64(x: int): nat { x % 0x1_0000_0000_0000_0000 }

  // ---------- the calendar

  datatype Date = Date(y: int, m: nat, d: nat)

  predicate Leap(y: int) {
    y % 4 == 0 && (y % 100 != 0 || y % 400 == 0)
  }

  function LastDay(y: int, m: nat): nat {
    if m == 2 then (if Leap(y) then 29 else 28)
    else if m == 4 || m == 6 || m == 9 || m == 11 then 30
    else 31
  }

  predicate Valid(a: Date) {
    1 <= a.m <= 12 && 1 <= a.d <= LastDay(a.y, a.m)
  }

  function NextDay(a: Date): Date {
    if a.d < LastDay(a.y, a.m) then Date(a.y, a.m, a.d + 1)
    else if a.m < 12 then Date(a.y, a.m + 1, 1)
    else Date(a.y + 1, 1, 1)
  }

  function PreviousDay(a: Date): Date
    requires Valid(a)
  {
    if a.d > 1 then Date(a.y, a.m, a.d - 1)
    else if a.m > 1 then Date(a.y, a.m - 1, LastDay(a.y, a.m - 1))
    else Date(a.y - 1, 12, 31)
  }

  predicate Before(a: Date, b: Date) {
    a.y < b.y || (a.y == b.y && (a.m < b.m || (a.m == b.m && a.d < b.d)))
  }

  // ---------- the algorithm

  function ShiftedYear(a: Date): int { if a.m <= 2 then a.y - 1 else a.y }

  function Era(y: int): int { Quotient(if y >= 0 then y else y - 399, 400) }

  function YearOfEra(y: int): nat { Unsigned(y - Era(y) * 400) }

  function DayOfYear(m: nat, d: nat): nat {
    Unsigned(Unsigned(153 * Unsigned(if m > 2 then m - 3 else m + 9) + 2) / 5 + d - 1)
  }

  function DayOfEra(a: Date): nat {
    var yoe := YearOfEra(ShiftedYear(a));
    Unsigned(yoe * 365 + yoe / 4 - yoe / 100 + DayOfYear(a.m, a.d))
  }

  function DaysFromCivil(a: Date): int {
    Era(ShiftedYear(a)) * 146097 + DayOfEra(a) - 719468
  }

  // ---------- the algorithm is the calendar

  /** The era is the floor of the quotient, below the year 0 too. */
  lemma EraIsFloor(y: int)
    ensures Era(y) == y / 400 && YearOfEra(y) == y % 400
  {
    if y < 0 {
      var k := (399 - y) / 400;
      assert 0 <= y + k * 400 < 400;
    }
  }

  /** Days from March 1 of the year an era begins with to March 1 of its year `yoe`. */
  function YearInEra(yoe: nat): int { yoe * 365 + yoe / 4 - yoe / 100 }

  /** Days from 0000-03-01 to March 1 of year `y`. */
  function YearStart(y: int): int { y / 400 * 146097 + YearInEra(y % 400) }

  lemma YearInEraStep(r: nat)
    requires r < 399
    ensures YearInEra(r + 1) == YearInEra(r) + (if Leap(r + 1) then 366 else 365)
    ensures 0 <= YearInEra(r) <= 146097 - 366
  {
    Step4(r);
    Step100(r);
  }

  lemma LeapInEra(y: int)
    ensures Leap(y) == Leap(y % 400)
  {
    RemainderOfEra(y);
  }

  lemma RemainderOfEra(y: int)
    ensures y % 400 % 4 == y % 4 && y % 400 % 100 == y % 100
  {
    var q, r := y / 400, y % 400;
    assert y == 400 * q + r;
    Congruent4(100 * q, r);
    Congruent100(4 * q, r);
  }

  lemma Congruent4(k: int, r: int)
    ensures (4 * k + r) % 4 == r % 4
  {}

  lemma Congruent100(k: int, r: int)
    ensures (100 * k + r) % 100 == r % 100
  {}

  lemma NextInEra(y: int)
    ensures y % 400 < 399 ==> (y + 1) / 400 == y / 400 && (y + 1) % 400 == y % 400 + 1
    ensures y % 400 == 399 ==> (y + 1) / 400 == y / 400 + 1 && (y + 1) % 400 == 0
  {}

  lemma YearStep(y: int)
    ensures YearStart(y + 1) == YearStart(y) + (if Leap(y + 1) then 366 else 365)
    ensures 0 <= YearInEra(y % 400) <= 146097 - (if Leap(y + 1) then 366 else 365)
  {
    NextInEra(y);
    LeapInEra(y + 1);
    if y % 400 < 399 {
      YearInEraStep(y % 400);
    }
  }

  lemma Step4(x: int)
    ensures (x + 1) / 4 == x / 4 + (if (x + 1) % 4 == 0 then 1 else 0)
  {}

  lemma Step100(x: int)
    ensures (x + 1) / 100 == x / 100 + (if (x + 1) % 100 == 0 then 1 else 0)
  {}

  lemma Step400(x: int)
    ensures (x + 1) / 400 == x / 400 + (if (x + 1) % 400 == 0 then 1 else 0)
  {}

  /** Days from 0000-03-01 to a date. */
  function DayNumber(a: Date): int {
    YearStart(ShiftedYear(a)) + MonthStart(a.m) + a.d - 1
  }

  lemma DayOfEraValue(a: Date)
    requires Valid(a)
    ensures DayOfEra(a) == YearInEra(ShiftedYear(a) % 400) + MonthStart(a.m) + a.d - 1
  {
    var y := ShiftedYear(a);
    EraIsFloor(y);
    YearStep(y);
    DayOfYearInYear(a);
    Small(YearInEra(y % 400) + MonthStart(a.m) + a.d - 1);
  }

  lemma Small(x: int)
    requires 0 <= x < 0x1_0000_0000
    ensures Unsigned(x) == x
  {}

  lemma DaysAreDayNumber(a: Date)
    requires Valid(a)
    ensures DaysFromCivil(a) == DayNumber(a) - 719468
  {
    EraIsFloor(ShiftedYear(a));
    DayOfEraValue(a);
  }

  /** The year from March on, with a leap day at its end, holds every date. */
  lemma DayOfYearInYear(a: Date)
    requires Valid(a)
    ensures DayOfYear(a.m, a.d) == MonthStart(a.m) + a.d - 1
    ensures MonthStart(a.m) + a.d <= if Leap(ShiftedYear(a) + 1) then 366 else 365
  {
    DayOfYearValue(a.m, a.d);
  }

  lemma DayOfYearValue(m: nat, d: nat)
    requires 1 <= m <= 12 && 1 <= d <= 31
    ensures DayOfYear(m, d) == MonthStart(m) + d - 1
  {
    MonthStartValue(m);
    Small(if m > 2 then m - 3 else m + 9);
    Small(153 * (if m > 2 then m - 3 else m + 9) + 2);
    Small(MonthStart(m) + d - 1);
  }

  lemma MonthStartValue(m: nat)
    requires 1 <= m <= 12
    ensures MonthStart(m) == (153 * (if m > 2 then m - 3 else m + 9) + 2) / 5 <= 337
  {}

  /** Days from March 1 to the first of a month. */
  function MonthStart(m: nat): nat {
    match m
    case 3 => 0
    case 4 => 31
    case 5 => 61
    case 6 => 92
    case 7 => 122
    case 8 => 153
    case 9 => 184
    case 10 => 214
    case 11 => 245
    case 12 => 275
    case 1 => 306
    case _ => 337
  }

  lemma YearStart1969()
    ensures YearStart(1969) == 719162
  {
    assert 1969 / 400 == 4 && 1969 % 400 == 369;
    assert 369 / 4 == 92 && 369 / 100 == 3;
  }

  lemma Epoch()
    ensures DaysFromCivil(Date(1970, 1, 1)) == 0
  {
    DaysAreDayNumber(Date(1970, 1, 1));
    YearStart1969();
  }

  /** One day later is one more, for every date of every year. */
  lemma Successor(a: Date)
    requires Valid(a)
    ensures Valid(NextDay(a)) && DaysFromCivil(NextDay(a)) == DaysFromCivil(a) + 1
  {
    DayNumberSuccessor(a);
    DaysAreDayNumber(a);
    DaysAreDayNumber(NextDay(a));
  }

  lemma DayNumberSuccessor(a: Date)
    requires Valid(a)
    ensures Valid(NextDay(a)) && DayNumber(NextDay(a)) == DayNumber(a) + 1
  {
    YearStep(ShiftedYear(a));
  }

  lemma PreviousNext(a: Date)
    requires Valid(a)
    ensures Valid(PreviousDay(a)) && NextDay(PreviousDay(a)) == a
  {}

  // ---------- order

  lemma {:induction false} YearStartMonotone(x: int, y: int)
    requires x <= y
    ensures YearStart(x) <= YearStart(y)
    decreases y - x
  {
    if x == y {
    } else {
      YearStartMonotone(x, y - 1);
      YearStep(y - 1);
    }
  }

  lemma EarlierIsLess(a: Date, b: Date)
    requires Valid(a) && Valid(b) && Before(a, b)
    ensures DaysFromCivil(a) < DaysFromCivil(b)
  {
    DaysAreDayNumber(a);
    DaysAreDayNumber(b);
    if ShiftedYear(a) < ShiftedYear(b) {
      DayOfYearInYear(a);
      YearStep(ShiftedYear(a));
      YearStartMonotone(ShiftedYear(a) + 1, ShiftedYear(b));
      assert DayNumber(a) < DayNumber(b);
    } else {
      EarlierInYear(a, b);
    }
  }

  lemma EarlierInYear(a: Date, b: Date)
    requires Valid(a) && Valid(b) && Before(a, b)
    requires ShiftedYear(a) >= ShiftedYear(b)
    ensures DayNumber(a) < DayNumber(b)
  {
    assert ShiftedYear(a) == ShiftedYear(b);
    MonthsGrow(a, b);
  }

  lemma MonthsGrow(a: Date, b: Date)
    requires Valid(a) && Valid(b) && Before(a, b)
    requires ShiftedYear(a) == ShiftedYear(b)
    ensures MonthStart(a.m) + a.d < MonthStart(b.m) + b.d
  {}

  /** The day numbers are ordered as the dates are. */
  lemma OrderPreserved(a: Date, b: Date)
    requires Valid(a) && Valid(b)
    ensures Before(a, b) <==> DaysFromCivil(a) < DaysFromCivil(b)
    ensures a == b <==> DaysFromCivil(a) == DaysFromCivil(b)
  {
    if Before(a, b) {
      EarlierIsLess(a, b);
    } else if Before(b, a) {
      EarlierIsLess(b, a);
    }
  }

  // ---------- ranges and overflow

  lemma Ranges(a: Date)
    requires Valid(a)
    ensures YearOfEra(ShiftedYear(a)) <= 399
    ensures DayOfYear(a.m, a.d) <= 365
    ensures DayOfEra(a) <= 146096
  {
    EraIsFloor(ShiftedYear(a));
    DayOfYearInYear(a);
    DayOfEraValue(a);
    YearStep(ShiftedYear(a));
  }

  predicate FitsInt(x: int) { INT_MIN <= x <= INT_MAX }

  /** Every signed intermediate value of the computation fits an int. */
  predicate NoOverflow(a: Date) {
    var y := ShiftedYear(a);
    var era := Era(y);
    && FitsInt(a.y) && FitsInt(y)
    && FitsInt(if y >= 0 then y else y - 399)
    && FitsInt(era * 400) && FitsInt(y - era * 400)
    && FitsInt(era * 146097) && FitsInt(era * 146097 + DayOfEra(a))
    && FitsInt(DaysFromCivil(a))
  }

  /** The documented range of validity in days: from INT_MIN to INT_MAX - 719468. */
  lemma OverflowExactly(a: Date)
    requires Valid(a)
    ensures NoOverflow(a) <==> INT_MIN <= DaysFromCivil(a) <= INT_MAX - 719468
  {
    Ranges(a);
    EraIsFloor(ShiftedYear(a));
  }

  const FIRST_DATE: Date := Date(-5877641, 6, 23)
  const LAST_DATE: Date := Date(5879610, 9, 9)

  /** The same range in dates: FIRST_DATE is the day INT_MIN and LAST_DATE the day
      INT_MAX - 719468. */
  predicate WithinRange(a: Date) {
    !Before(a, FIRST_DATE) && !Before(LAST_DATE, a)
  }

  lemma FirstAndLastYear()
    ensures YearStart(-5877641) == -2146764294 && YearStart(5879610) == 2147483455
  {
    assert -5877641 / 400 == -14695 && -5877641 % 400 == 359;
    assert 5879610 / 400 == 14699 && 5879610 % 400 == 10;
    assert YearInEra(359) == 131121 && YearInEra(10) == 3652;
  }

  lemma FirstAndLast()
    ensures Valid(FIRST_DATE) && DaysFromCivil(FIRST_DATE) == INT_MIN
    ensures Valid(LAST_DATE) && DaysFromCivil(LAST_DATE) == INT_MAX - 719468
  {
    FirstAndLastYear();
    DaysAreDayNumber(FIRST_DATE);
    DaysAreDayNumber(LAST_DATE);
  }

  /** No intermediate value overflows if and only if the date lies in this range. */
  lemma OverflowByDate(a: Date)
    requires Valid(a)
    ensures NoOverflow(a) <==> WithinRange(a)
  {
    OverflowExactly(a);
    FirstAndLast();
    OrderPreserved(a, FIRST_DATE);
    OrderPreserved(LAST_DATE, a);
  }

  lemma FiveMillionYears(a: Date)
    requires Valid(a) && -5_000_000 <= a.y <= 5_000_000
    ensures NoOverflow(a)
  {
    Ranges(a);
    EraIsFloor(ShiftedYear(a));
    OverflowExactly(a);
  }

  // ---------- walking the calendar

  /** The date `n` days after 1970-01-01, found by stepping one day at a time. */
  function DateOf(n: int): (a: Date)
    ensures Valid(a)
    decreases if n < 0 then -n else n
  {
    if n == 0 then Date(1970, 1, 1)
    else if n > 0 then Successor(DateOf(n - 1)); NextDay(DateOf(n - 1))
    else PreviousNext(DateOf(n + 1)); PreviousDay(DateOf(n + 1))
  }

  /** The algorithm numbers the dates as the walk does. */
  lemma {:induction false} DaysOfWalk(n: int)
    ensures DaysFromCivil(DateOf(n)) == n
    decreases if n < 0 then -n else n
  {
    if n == 0 {
      Epoch();
    } else if n > 0 {
      DaysOfWalk(n - 1);
      Successor(DateOf(n - 1));
    } else {
      DaysOfWalk(n + 1);
      PreviousNext(DateOf(n + 1));
      Successor(PreviousDay(DateOf(n + 1)));
    }
  }

  /** Every integer is the day number of exactly one date. */
  lemma Bijection(n: int, a: Date)
    requires Valid(a)
    ensures DaysFromCivil(a) == n <==> a == DateOf(n)
  {
    DaysOfWalk(n);
    OrderPreserved(a, DateOf(n));
  }

  // ---------- timestamps

  datatype Time = Time(date: Date, hour: nat, min: nat, sec: nat)

  predicate ValidTime(t: Time) {
    Valid(t.date) && t.hour < 24 && t.min < 60 && t.sec < 60
  }

  function ToTimestampUtc(t: Time): nat {
    Unsigned64(DaysFromCivil(t.date) * 86400 + t.hour * 3600 + t.min * 60 + t.sec)
  }

  predicate Earlier(a: Time, b: Time) {
    || Before(a.date, b.date)
    || (a.date == b.date
        && (a.hour < b.hour || (a.hour == b.hour && (a.min < b.min || (a.min == b.min && a.sec < b.sec)))))
  }

  lemma SinceEpoch(a: Date)
    requires Valid(a)
    ensures DaysFromCivil(a) >= 0 <==> a.y >= 1970
  {
    Epoch();
    OrderPreserved(a, Date(1970, 1, 1));
  }

  function SecondOfDay(t: Time): nat { t.hour * 3600 + t.min * 60 + t.sec }

  lemma SecondOfDayOrder(a: Time, b: Time)
    requires ValidTime(a) && ValidTime(b)
    ensures SecondOfDay(a) < 86400
    ensures a.date == b.date ==> (Earlier(a, b) <==> SecondOfDay(a) < SecondOfDay(b))
  {}

  /** A 64-bit timestamp is exact from the epoch on and wraps around before it. */
  lemma TimestampValue(t: Time)
    requires ValidTime(t) && WithinRange(t.date)
    ensures var seconds := DaysFromCivil(t.date) * 86400 + SecondOfDay(t);
            ToTimestampUtc(t) == if t.date.y >= 1970 then seconds else seconds + 0x1_0000_0000_0000_0000
    ensures DaysFromCivil(t.date) >= INT_MIN && DaysFromCivil(t.date) <= INT_MAX
  {
    SinceEpoch(t.date);
    OverflowByDate(t.date);
    OverflowExactly(t.date);
    SecondOfDayOrder(t, t);
    WrapsBelowZero(DaysFromCivil(t.date), SecondOfDay(t));
  }

  lemma WrapsBelowZero(days: int, second: nat)
    requires FitsInt(days) && second < 86400
    ensures Unsigned64(days * 86400 + second)
         == days * 86400 + second + (if days >= 0 then 0 else 0x1_0000_0000_0000_0000)
  {}

  /** The order of times is the order of timestamps, except across the epoch, where the
      unsigned result wraps around. */
  lemma TimestampOrder(a: Time, b: Time)
    requires ValidTime(a) && ValidTime(b) && WithinRange(a.date) && WithinRange(b.date)
    requires Earlier(a, b)
    ensures ToTimestampUtc(a) < ToTimestampUtc(b) <==> !(a.date.y < 1970 && b.date.y >= 1970)
  {
    OrderPreserved(a.date, b.date);
    SecondOfDayOrder(a, b);
    SecondOfDayOrder(b, a);
    TimestampValue(a);
    TimestampValue(b);
    assert Before(a.date, b.date) ==> a.date.y <= b.date.y;
    SecondsOrder(DaysFromCivil(a.date), SecondOfDay(a), DaysFromCivil(b.date), SecondOfDay(b));
  }

  /** One second later, and a smaller timestamp. */
  lemma LastSecondBeforeEpoch(last: Time, first: Time)
    requires last == Time(Date(1969, 12, 31), 23, 59, 59) && first == Time(Date(1970, 1, 1), 0, 0, 0)
    ensures Earlier(last, first)
    ensures ToTimestampUtc(last) == 0xffff_ffff_ffff_ffff && ToTimestampUtc(first) == 0
  {
    Epoch();
    Successor(last.date);
    assert NextDay(last.date) == first.date;
    TimestampValue(last);
    TimestampValue(first);
  }

  lemma SecondsOrder(days: int, second: nat, days': int, second': nat)
    requires FitsInt(days) && FitsInt(days') && second < 86400 && second' < 86400
    requires days < days' || (days == days' && second < second')
    ensures days * 86400 + second < days' * 86400 + second'
    ensures days' * 86400 + second' < days * 86400 + second + 0x1_0000_0000_0000_0000
  {}

  // ---------- the standard

  /** Days since January 1, by adding up the months. */
  function YearDay(y: int, m: nat, d: nat): int
    requires 1 <= m
  {
    if m == 1 then d - 1 else YearDay(y, m - 1, d) + LastDay(y, m - 1)
  }

  /** The expression of section 4.16, "Seconds Since the Epoch", of IEEE Std 1003.1-2017,
      where tm_year counts from 1900. */
  function SecondsSinceTheEpoch(t: Time): int
    requires ValidTime(t)
  {
    var tmYear := t.date.y - 1900;
    t.sec + t.min * 60 + t.hour * 3600 + YearDay(t.date.y, t.date.m, t.date.d) * 86400
    + (tmYear - 70) * 31536000 + (tmYear - 69) / 4 * 86400
    - (tmYear - 1) / 100 * 86400 + (tmYear + 299) / 400 * 86400
  }

  lemma YearDayFromMarch(a: Date)
    requires Valid(a)
    ensures YearDay(a.y, a.m, a.d)
         == if a.m <= 2 then DayOfYear(a.m, a.d) - 306
            else DayOfYear(a.m, a.d) + (if Leap(a.y) then 60 else 59)
  {
    DayOfYearInYear(a);
    var y, d := a.y, a.d;
    assert YearDay(y, 3, d) == YearDay(y, 2, d) + LastDay(y, 2);
    assert YearDay(y, 5, d) == YearDay(y, 4, d) + 30;
    assert YearDay(y, 7, d) == YearDay(y, 6, d) + 30;
    assert YearDay(y, 9, d) == YearDay(y, 8, d) + 31;
    assert YearDay(y, 11, d) == YearDay(y, 10, d) + 31;
  }

  /** January 1 of a year, in days since the epoch, as the standard counts the leap days. */
  function NewYear(y: int): int {
    (y - 1970) * 365 + (y - 1969) / 4 - (y - 1901) / 100 + (y - 1601) / 400
  }

  lemma NewYearStep(y: int)
    ensures NewYear(y + 1) == NewYear(y) + (if Leap(y) then 366 else 365)
  {
    LeapDay4(y);
    LeapDay100(y);
    LeapDay400(y);
    CenturyOfFour(y);
  }

  lemma LeapDay4(y: int)
    ensures (y + 1 - 1969) / 4 == (y - 1969) / 4 + (if y % 4 == 0 then 1 else 0)
  {
    Step4(y - 1969);
    assert (y - 1968) % 4 == y % 4;
  }

  lemma LeapDay100(y: int)
    ensures (y + 1 - 1901) / 100 == (y - 1901) / 100 + (if y % 100 == 0 then 1 else 0)
    ensures y % 100 == 0 ==> y % 4 == 0
  {
    Step100(y - 1901);
    assert (y - 1900) % 100 == y % 100;
  }

  lemma LeapDay400(y: int)
    ensures (y + 1 - 1601) / 400 == (y - 1601) / 400 + (if y % 400 == 0 then 1 else 0)
  {
    Step400(y - 1601);
    assert (y - 1600) % 400 == y % 400;
  }

  lemma CenturyOfFour(y: int)
    ensures y % 400 == 0 ==> y % 100 == 0
  {
    var q, r := y / 400, y % 400;
    assert y == 400 * q + r;
    assert r == 0 ==> y == 100 * (4 * q);
  }

  lemma {:induction false} NewYearFromMarch(y: int)
    requires y >= 1970
    ensures NewYear(y) == YearStart(y - 1) + 306 - 719468
  {
    if y <= 1970 {
    } else {
      NewYearFromMarch(y - 1);
      NewYearStep(y - 1);
      YearStep(y - 2);
    }
  }

  lemma DaysAreStandard(a: Date)
    requires Valid(a) && a.y >= 1970
    ensures DaysFromCivil(a) == NewYear(a.y) + YearDay(a.y, a.m, a.d)
  {
    NewYearFromMarch(a.y);
    DaysAreDayNumber(a);
    DayOfYearInYear(a);
    YearDayFromMarch(a);
    YearStep(a.y - 1);
  }

  lemma SecondsFromDays(t: Time)
    requires ValidTime(t)
    ensures SecondsSinceTheEpoch(t)
         == (NewYear(t.date.y) + YearDay(t.date.y, t.date.m, t.date.d)) * 86400 + SecondOfDay(t)
  {
    var y := t.date.y;
    assert (y - 1900 - 69) / 4 == (y - 1969) / 4;
    assert (y - 1900 - 1) / 100 == (y - 1901) / 100;
    assert (y - 1900 + 299) / 400 == (y - 1601) / 400;
  }

  lemma TimestampIsStandard(t: Time)
    requires ValidTime(t) && WithinRange(t.date) && t.date.y >= 1970
    ensures ToTimestampUtc(t) == SecondsSinceTheEpoch(t)
  {
    DaysAreStandard(t.date);
    SecondsFromDays(t);
    TimestampValue(t);
  }
}
