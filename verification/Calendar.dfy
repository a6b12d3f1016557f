/**
  The proleptic Gregorian calendar, as chrono uses it.

  A month is numbered by 12 * year + (month - 1), so that adding calendar months
  is adding integers; a date is a month number and a day of that month; a day
  number counts the days from 1 January of year 1. Instants are nanoseconds from
  the same day.
 */
module Calendar {
  import opened Common

  const NANOS_PER_MILLI: int := 1_000_000
  const NANOS_PER_DAY: int := 86_400 * NANOS_PER_SECOND

  datatype Date = Date(month: int, day: int)

  predicate IsLeap(year: int) {
    year % 4 == 0 && (year % 100 != 0 || year % 400 == 0)
  }

  function DaysInMonth(month: int): (n: int)
    ensures 28 <= n <= 31
  {
    match month % 12
    case 1 => if IsLeap(month / 12) then 29 else 28
    case 3 | 5 | 8 | 10 => 30
    case _ => 31
  }

  // Days from 1 January of year 1 to 1 January of `year`.
  function DaysBeforeYear(year: int): int {
    365 * (year - 1) + (year - 1) / 4 - (year - 1) / 100 + (year - 1) / 400
  }

  function DaysBeforeMonth(month: int): int {
    var leap := if IsLeap(month / 12) then 1 else 0;
    match month % 12
    case 0 => 0
    case 1 => 31
    case 2 => 59 + leap
    case 3 => 90 + leap
    case 4 => 120 + leap
    case 5 => 151 + leap
    case 6 => 181 + leap
    case 7 => 212 + leap
    case 8 => 243 + leap
    case 9 => 273 + leap
    case 10 => 304 + leap
    case _ => 334 + leap
  }

  // Days from 1 January of year 1 to the first of `month`, month by month.
  function MonthStart(month: int): int
    decreases if month >= 12 then month - 12 else 12 - month
  {
    if month == 12 then 0
    else if month > 12 then MonthStart(month - 1) + DaysInMonth(month - 1)
    else MonthStart(month + 1) - DaysInMonth(month)
  }

  predicate ValidDate(d: Date) {
    1 <= d.day <= DaysInMonth(d.month)
  }

  function DayNumber(d: Date): int {
    MonthStart(d.month) + d.day - 1
  }

  lemma FloorStep(y: int, k: int)
    requires k == 4 || k == 100 || k == 400
    ensures y / k == (y - 1) / k + if y % k == 0 then 1 else 0
  {
    if k == 4 {
    } else if k == 100 {
    } else {
    }
  }

  lemma LeapDivisors(y: int)
    ensures y % 400 == 0 ==> y % 100 == 0
    ensures y % 100 == 0 ==> y % 4 == 0
  {
  }

  lemma YearLength(year: int)
    ensures DaysBeforeYear(year + 1) == DaysBeforeYear(year) + if IsLeap(year) then 366 else 365
  {
    FloorStep(year, 4);
    FloorStep(year, 100);
    FloorStep(year, 400);
    LeapDivisors(year);
  }

  lemma MonthLength(month: int)
    ensures MonthStart(month + 1) == MonthStart(month) + DaysInMonth(month)
  {
    hide DaysInMonth;
  }

  function ClosedMonthStart(month: int): int {
    DaysBeforeYear(month / 12) + DaysBeforeMonth(month)
  }

  lemma ClosedMonthLength(month: int)
    ensures ClosedMonthStart(month + 1) == ClosedMonthStart(month) + DaysInMonth(month)
  {
    YearLength(month / 12);
    if month % 12 == 11 {
      assert (month + 1) / 12 == month / 12 + 1 && (month + 1) % 12 == 0;
    } else {
      assert (month + 1) / 12 == month / 12 && (month + 1) % 12 == month % 12 + 1;
    }
  }

  // Counting month by month agrees with the closed Gregorian formula, for every month before and after.
  lemma {:induction false} MonthStartClosed(month: int)
    ensures MonthStart(month) == ClosedMonthStart(month)
    decreases if month >= 12 then month - 12 else 12 - month
  {
    if month == 12 {
      assert DaysBeforeYear(1) == 0;
    } else {
      hide ClosedMonthStart, DaysInMonth;
      if month > 12 {
        MonthStartClosed(month - 1);
        ClosedMonthLength(month - 1);
      } else {
        MonthStartClosed(month + 1);
        ClosedMonthLength(month);
      }
    }
  }

  // A known date: 1 January 1970.
  lemma KnownDate()
    ensures DayNumber(Date(12 * 1970, 1)) == 719_162
  {
    hide MonthStart;
    MonthStartClosed(23640);
    assert DaysBeforeYear(1970) == 719_162;
    assert DaysBeforeMonth(23640) == 0;
  }

  lemma {:induction false} MonthStartMonotone(a: int, b: int)
    requires a <= b
    ensures MonthStart(a) + 28 * (b - a) <= MonthStart(b)
    decreases b - a
  {
    hide MonthStart, DaysInMonth;
    if a < b {
      MonthLength(b - 1);
      MonthStartMonotone(a, b - 1);
    }
  }

  lemma MonthGap(a: int, b: int)
    requires a < b
    ensures MonthStart(a) + DaysInMonth(a) <= MonthStart(b)
  {
    MonthLength(a);
    MonthStartMonotone(a + 1, b);
  }

  // The order of valid dates is the order of their day numbers.
  lemma DateOrder(a: Date, b: Date)
    requires ValidDate(a) && ValidDate(b)
    ensures DayNumber(a) < DayNumber(b) <==> a.month < b.month || (a.month == b.month && a.day < b.day)
  {
    hide MonthStart, DaysInMonth;
    if a.month < b.month {
      MonthGap(a.month, b.month);
    } else if b.month < a.month {
      MonthGap(b.month, a.month);
    }
  }

  // The date with a given day number, searched for from `month`.
  function DateFrom(n: int, month: int): (d: Date)
    ensures ValidDate(d) && DayNumber(d) == n
    decreases if n < MonthStart(month) then MonthStart(month) - n + 32 else n - MonthStart(month)
  {
    MonthLength(month - 1);
    MonthLength(month);
    if n < MonthStart(month) then DateFrom(n, month - 1)
    else if n >= MonthStart(month + 1) then DateFrom(n, month + 1)
    else Date(month, n - MonthStart(month) + 1)
  }

  function DateOf(n: int): (d: Date)
    ensures ValidDate(d) && DayNumber(d) == n
  {
    DateFrom(n, 12 * (n / 365))
  }

  // DateOf and DayNumber are inverse to each other.
  lemma DateOfDayNumber(d: Date)
    requires ValidDate(d)
    ensures DateOf(DayNumber(d)) == d
  {
    DateOrder(d, DateOf(DayNumber(d)));
    DateOrder(DateOf(DayNumber(d)), d);
  }

  // The civil date an instant falls on, and the time within that day.
  function DateAt(t: int): (d: Date)
    ensures ValidDate(d) && DayNumber(d) == t / NANOS_PER_DAY
  {
    DateOf(t / NANOS_PER_DAY)
  }

  function TimeOfDay(t: int): (n: int)
    ensures 0 <= n < NANOS_PER_DAY
  {
    t % NANOS_PER_DAY
  }

  function InstantOf(d: Date, timeOfDay: int): int {
    DayNumber(d) * NANOS_PER_DAY + timeOfDay
  }

  lemma InstantRoundTrip(d: Date, timeOfDay: int)
    requires ValidDate(d) && 0 <= timeOfDay < NANOS_PER_DAY
    ensures DateAt(InstantOf(d, timeOfDay)) == d && TimeOfDay(InstantOf(d, timeOfDay)) == timeOfDay
  {
    hide MonthStart, DaysInMonth, DateOf;
    DateOfDayNumber(d);
    DayOfInstant(DayNumber(d), timeOfDay);
  }

  lemma DayOfInstant(day: int, timeOfDay: int)
    requires 0 <= timeOfDay < NANOS_PER_DAY
    ensures (day * NANOS_PER_DAY + timeOfDay) / NANOS_PER_DAY == day
    ensures (day * NANOS_PER_DAY + timeOfDay) % NANOS_PER_DAY == timeOfDay
  {
  }

  // Adding calendar months, the day clamped to the length of the target month.
  function AddMonthsToDate(d: Date, n: int): (r: Date)
    requires ValidDate(d)
    ensures ValidDate(r)
  {
    var month := d.month + n;
    Date(month, if d.day > DaysInMonth(month) then DaysInMonth(month) else d.day)
  }

  function AddMonths(t: int, n: int): int {
    InstantOf(AddMonthsToDate(DateAt(t), n), TimeOfDay(t))
  }

  lemma AddMonthsOf(d: Date, timeOfDay: int, n: int)
    requires ValidDate(d) && 0 <= timeOfDay < NANOS_PER_DAY
    ensures AddMonths(InstantOf(d, timeOfDay), n) == InstantOf(AddMonthsToDate(d, n), timeOfDay)
  {
    hide DayNumber, DaysInMonth, DateOf;
    InstantRoundTrip(d, timeOfDay);
  }

  lemma AddMonthsFields(t: int, n: int)
    ensures DateAt(AddMonths(t, n)) == AddMonthsToDate(DateAt(t), n)
    ensures TimeOfDay(AddMonths(t, n)) == TimeOfDay(t)
  {
    InstantRoundTrip(AddMonthsToDate(DateAt(t), n), TimeOfDay(t));
  }

  lemma AddMonthsAdvances(t: int, n: int)
    requires n >= 1
    ensures AddMonths(t, n) > t
  {
    hide MonthStart, DaysInMonth;
    DateOrder(DateAt(t), AddMonthsToDate(DateAt(t), n));
    assert DayNumber(DateAt(t)) + 1 <= DayNumber(AddMonthsToDate(DateAt(t), n));
    assert t == DayNumber(DateAt(t)) * NANOS_PER_DAY + TimeOfDay(t);
  }
}
