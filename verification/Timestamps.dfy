/**
  The text form of a timestamp, YYYY-MM-DD HH:MM:SS, as chrono renders it and
  SQLite compares it: character by character.
 */
module Timestamps {
  import opened Common
  import opened Calendar
  import opened Text

  function Seconds(t: int): int {
    t / NANOS_PER_SECOND
  }

  function YearAt(t: int): int {
    DateAt(t).month / 12
  }

  // chrono's %Y: four digits for years 0 to 9999, otherwise a sign and at least four digits.
  function YearText(year: int): string {
    if 0 <= year <= 9999 then Padded(year, 4)
    else
      var digits := Decimal(if year < 0 then -year else year);
      (if year < 0 then "-" else "+") + (if |digits| < 4 then Padded(if year < 0 then -year else year, 4) else digits)
  }

  function DateText(d: Date): string {
    YearText(d.month / 12) + ("-" + (Padded(d.month % 12 + 1, 2) + ("-" + Padded(if d.day >= 0 then d.day else 0, 2))))
  }

  function ClockText(seconds: nat): string {
    Padded(seconds / 3600, 2) + (":" + (Padded(seconds / 60 % 60, 2) + (":" + Padded(seconds % 60, 2))))
  }

  function Render(t: int): string {
    DateText(DateAt(t)) + (" " + ClockText(TimeOfDay(t) / NANOS_PER_SECOND))
  }

  // From 1 January of year 0 to the end of year 9999.
  predicate Ordinary(t: int) {
    -366 * NANOS_PER_DAY <= t < 3_652_059 * NANOS_PER_DAY
  }

  lemma OrdinaryYears(t: int)
    ensures Ordinary(t) <==> 0 <= YearAt(t) <= 9999
  {
    hide DateOf, MonthStart, DaysInMonth, ClosedMonthStart;
    YearBounds();
    var (day, m) := (t / NANOS_PER_DAY, DateAt(t).month);
    assert MonthStart(m) <= day < MonthStart(m) + DaysInMonth(m);
    if m < 0 { MonthGap(m, 0); } else { MonthStartMonotone(0, m); }
    if m < 120_000 { MonthGap(m, 120_000); } else { MonthStartMonotone(120_000, m); }
    assert -366 <= day <==> -366 * NANOS_PER_DAY <= t;
    assert day < 3_652_059 <==> t < 3_652_059 * NANOS_PER_DAY;
  }

  lemma YearBounds()
    ensures MonthStart(0) == -366 && MonthStart(120_000) == 3_652_059
  {
    hide MonthStart;
    MonthStartClosed(0);
    MonthStartClosed(120_000);
    assert DaysBeforeYear(0) == -366 && DaysBeforeMonth(0) == 0;
    assert DaysBeforeYear(10_000) == 3_652_059 && DaysBeforeMonth(120_000) == 0;
  }

  // A fixed-width number, then a separator and the rest: the number decides, the rest breaks a tie.
  lemma FieldOrder(m: nat, n: nat, width: nat, x: string, y: string)
    requires m < Pow10(width) && n < Pow10(width)
    ensures Less(Padded(m, width) + x, Padded(n, width) + y) <==> m < n || (m == n && Less(x, y))
    ensures Padded(m, width) == Padded(n, width) <==> m == n
  {
    PaddedOrder(m, n, width);
    PaddedInjective(m, n, width);
    LessConcat(Padded(m, width), Padded(n, width), x, y);
  }

  lemma SeparatorOrder(c: string, x: string, y: string)
    ensures Less(c + x, c + y) <==> Less(x, y)
  {
    LessIrreflexive(c);
    LessConcat(c, c, x, y);
  }

  lemma Powers()
    ensures Pow10(2) == 100 && Pow10(4) == 10000
  {
    assert Pow10(1) == 10;
    assert Pow10(2) == 100;
    assert Pow10(3) == 1000;
  }

  lemma ClockOrder(a: nat, b: nat)
    requires a < 86_400 && b < 86_400
    ensures |ClockText(a)| == |ClockText(b)|
    ensures Less(ClockText(a), ClockText(b)) <==> a < b
  {
    hide Less, Padded, Pow10;
    Powers();
    var (x2, y2) := (":" + Padded(a % 60, 2), ":" + Padded(b % 60, 2));
    var (x1, y1) := (Padded(a / 60 % 60, 2) + x2, Padded(b / 60 % 60, 2) + y2);
    FieldOrder(a / 3600, b / 3600, 2, ":" + x1, ":" + y1);
    SeparatorOrder(":", x1, y1);
    FieldOrder(a / 60 % 60, b / 60 % 60, 2, x2, y2);
    SeparatorOrder(":", Padded(a % 60, 2), Padded(b % 60, 2));
    PaddedLess(a % 60, b % 60);
    ClockDigits(a);
    ClockDigits(b);
  }

  lemma PaddedLess(m: nat, n: nat)
    requires m < 100 && n < 100
    ensures Less(Padded(m, 2), Padded(n, 2)) <==> m < n
  {
    Powers();
    PaddedOrder(m, n, 2);
  }

  lemma ClockDigits(a: nat)
    requires a < 86_400
    ensures a == a / 3600 * 3600 + a / 60 % 60 * 60 + a % 60 && a / 3600 < 24
  {
    assert a / 60 == a / 60 / 60 * 60 + a / 60 % 60;
    assert a / 3600 == a / 60 / 60;
  }

  lemma DateTextOrder(a: Date, b: Date)
    requires ValidDate(a) && ValidDate(b) && 0 <= a.month / 12 <= 9999 && 0 <= b.month / 12 <= 9999
    ensures |DateText(a)| == |DateText(b)|
    ensures DateText(a) == DateText(b) <==> a == b
    ensures Less(DateText(a), DateText(b)) <==> DayNumber(a) < DayNumber(b)
  {
    hide Less, Padded, Pow10, MonthStart, DaysInMonth;
    Powers();
    var (x2, y2) := ("-" + Padded(a.day, 2), "-" + Padded(b.day, 2));
    var (x1, y1) := (Padded(a.month % 12 + 1, 2) + x2, Padded(b.month % 12 + 1, 2) + y2);
    FieldOrder(a.month / 12, b.month / 12, 4, "-" + x1, "-" + y1);
    SeparatorOrder("-", x1, y1);
    FieldOrder(a.month % 12 + 1, b.month % 12 + 1, 2, x2, y2);
    SeparatorOrder("-", Padded(a.day, 2), Padded(b.day, 2));
    PaddedLess(a.day, b.day);
    PaddedLess(b.day, a.day);
    DateOrder(a, b);
    hide DayNumber;
    if DateText(a) == DateText(b) {
      TextsDiffer(a, b);
    }
  }

  lemma TextsDiffer(a: Date, b: Date)
    requires ValidDate(a) && ValidDate(b) && 0 <= a.month / 12 <= 9999 && 0 <= b.month / 12 <= 9999
    requires DateText(a) == DateText(b)
    ensures a == b
  {
    hide Less, Padded, Pow10, DaysInMonth;
    Powers();
    var (s, t) := (DateText(a), DateText(b));
    assert s[..4] == Padded(a.month / 12, 4) && t[..4] == Padded(b.month / 12, 4);
    assert s[5..7] == Padded(a.month % 12 + 1, 2) && t[5..7] == Padded(b.month % 12 + 1, 2);
    assert s[8..] == Padded(a.day, 2) && t[8..] == Padded(b.day, 2);
    PaddedInjective(a.month / 12, b.month / 12, 4);
    PaddedInjective(a.month % 12 + 1, b.month % 12 + 1, 2);
    PaddedInjective(a.day, b.day, 2);
  }

  lemma SecondsOfDay(t: int)
    ensures Seconds(t) == t / NANOS_PER_DAY * 86_400 + TimeOfDay(t) / NANOS_PER_SECOND
    ensures 0 <= TimeOfDay(t) / NANOS_PER_SECOND < 86_400
  {
    var (day, tod) := (t / NANOS_PER_DAY, TimeOfDay(t));
    assert t == day * 86_400 * NANOS_PER_SECOND + tod;
  }

  // For the years 0 to 9999, text order is the order of the instants truncated to seconds.
  lemma RenderOrder(a: int, b: int)
    requires Ordinary(a) && Ordinary(b)
    ensures Less(Render(a), Render(b)) <==> Seconds(a) < Seconds(b)
    ensures AtMost(Render(a), Render(b)) <==> Seconds(a) <= Seconds(b)
  {
    hide Less, Padded, Pow10, MonthStart, DaysInMonth, DateText, ClockText, DayNumber, DateOf;
    OrdinaryYears(a);
    OrdinaryYears(b);
    var (p, q) := (TimeOfDay(a) / NANOS_PER_SECOND, TimeOfDay(b) / NANOS_PER_SECOND);
    SecondsOfDay(a);
    SecondsOfDay(b);
    DateTextOrder(DateAt(a), DateAt(b));
    ClockOrder(p, q);
    ClockOrder(q, p);
    SeparatorOrder(" ", ClockText(p), ClockText(q));
    SeparatorOrder(" ", ClockText(q), ClockText(p));
    LessConcat(DateText(DateAt(a)), DateText(DateAt(b)), " " + ClockText(p), " " + ClockText(q));
    LessConcat(DateText(DateAt(b)), DateText(DateAt(a)), " " + ClockText(q), " " + ClockText(p));
    DateTextOrder(DateAt(b), DateAt(a));
    LessIrreflexive(Render(a));
    if Seconds(a) == Seconds(b) {
      LessTotal(Render(a), Render(b));
    }
  }

  lemma YearsMonotone(a: int, b: int)
    requires a <= b
    ensures YearAt(a) <= YearAt(b)
  {
    hide MonthStart, DaysInMonth, DateOf;
    DateOrder(DateAt(b), DateAt(a));
  }

  // From an instant in those years on, text order is right exactly for the instants still in them: any
  // later one sorts before everything.
  lemma LaterSortsLater(a: int, b: int)
    requires Ordinary(a) && Seconds(a) < Seconds(b)
    ensures Less(Render(a), Render(b)) <==> Ordinary(b)
  {
    YearsMonotone(a, b);
    OrdinaryYears(a);
    OrdinaryYears(b);
    if Ordinary(b) {
      RenderOrder(a, b);
    } else {
      hide MonthStart, DaysInMonth, DateOf, DayNumber;
      assert Render(b)[0] == '+';
      assert Render(a)[0] == Padded(YearAt(a), 4)[0];
    }
  }

  lemma OutsideSortsFirst(a: int, b: int)
    requires Ordinary(a) && !Ordinary(b)
    ensures Less(Render(b), Render(a)) && !AtMost(Render(a), Render(b))
  {
    hide MonthStart, DaysInMonth, DateOf, DayNumber;
    OrdinaryYears(a);
    OrdinaryYears(b);
    assert Render(b)[0] == '+' || Render(b)[0] == '-';
    assert Render(a)[0] == Padded(YearAt(a), 4)[0];
  }

  // How an instant compares with a rendered bound: right up to the year 9999, as if the bound lay before
  // everything after that.
  lemma BoundReads(at: int, bound: int)
    requires Ordinary(at)
    ensures AtMost(Render(bound), Render(at)) <==> YearAt(bound) > 9999 || Seconds(at) >= Seconds(bound)
    ensures AtMost(Render(at), Render(bound)) <==> YearAt(bound) <= 9999 && Seconds(at) <= Seconds(bound)
  {
    hide Render, Seconds, AtMost, Less, Ordinary;
    OrdinaryYears(at);
    OrdinaryYears(bound);
    if Ordinary(bound) {
      RenderOrder(at, bound);
      RenderOrder(bound, at);
    } else {
      OutsideSortsFirst(at, bound);
      OutsideBounds(at, bound);
    }
  }

  lemma OutsideBounds(at: int, bound: int)
    requires Ordinary(at) && !Ordinary(bound)
    ensures AtMost(Render(bound), Render(at)) <== Less(Render(bound), Render(at))
    ensures YearAt(bound) <= 9999 ==> Seconds(bound) < Seconds(at)
    ensures YearAt(bound) > 9999 ==> Seconds(bound) > Seconds(at)
  {
    hide Render, YearAt;
    OrdinaryYears(at);
    OrdinaryYears(bound);
    if bound <= at {
      YearsMonotone(bound, at);
    } else {
      YearsMonotone(at, bound);
    }
  }

  // How it compares with an ISO 8601 text of the date `d`, whose 'T' sorts after the blank of the stored
  // text: as if the bound lay after every moment of that day.
  lemma IsoBoundReads(at: int, d: Date, rest: string)
    requires Ordinary(at) && ValidDate(d) && 0 <= d.month / 12 <= 9999
    ensures AtMost(DateText(d) + ("T" + rest), Render(at)) <==> DayNumber(d) < at / NANOS_PER_DAY
    ensures AtMost(Render(at), DateText(d) + ("T" + rest)) <==> at / NANOS_PER_DAY <= DayNumber(d)
  {
    hide Less, Padded, Pow10, MonthStart, DaysInMonth, DateText, ClockText, DayNumber, DateOf;
    OrdinaryYears(at);
    var day := DateAt(at);
    var (x, y) := (" " + ClockText(TimeOfDay(at) / NANOS_PER_SECOND), "T" + rest);
    DateTextOrder(d, day);
    DateTextOrder(day, d);
    LessConcat(DateText(d), DateText(day), y, x);
    LessConcat(DateText(day), DateText(d), x, y);
    BlankBeforeT(x, y);
    LessTotal(DateText(d), DateText(day));
    assert (DateText(d) + y)[|DateText(d)|] == 'T';
  }

  // And with the text of the date alone, which ends where the stored text goes on: as if the bound lay before
  // every moment of that day.
  lemma DateBoundReads(at: int, d: Date)
    requires Ordinary(at) && ValidDate(d) && 0 <= d.month / 12 <= 9999
    ensures AtMost(DateText(d), Render(at)) <==> DayNumber(d) <= at / NANOS_PER_DAY
    ensures AtMost(Render(at), DateText(d)) <==> at / NANOS_PER_DAY < DayNumber(d)
  {
    hide Less, Padded, Pow10, MonthStart, DaysInMonth, DateText, ClockText, DayNumber, DateOf;
    OrdinaryYears(at);
    var day := DateAt(at);
    var x := " " + ClockText(TimeOfDay(at) / NANOS_PER_SECOND);
    DateTextOrder(d, day);
    DateTextOrder(day, d);
    LessConcat(DateText(d), DateText(day), "", x);
    LessConcat(DateText(day), DateText(d), x, "");
    EmptyFirst(x);
    LessTotal(DateText(d), DateText(day));
    assert DateText(d) + "" == DateText(d);
  }

  lemma EmptyFirst(x: string)
    requires x != ""
    ensures Less("", x) && !Less(x, "")
  {
  }

  lemma BlankBeforeT(x: string, y: string)
    requires x != "" && y != "" && x[0] == ' ' && y[0] == 'T'
    ensures Less(x, y) && !Less(y, x)
  {
  }

  // ---- Reading a text back -------------------------------------------------

  // A stretch of digits and the number it stands for.
  predicate Reads(s: string, n: int) {
    AllDigits(s) && NumeralValue(s) == n
  }

  // YYYY-MM-DD HH:MM:SS: each field in its place, months and days from one.
  lemma RenderReads(t: int)
    requires Ordinary(t)
    ensures var (s, d, clock) := (Render(t), DateAt(t), TimeOfDay(t) / NANOS_PER_SECOND);
            && |s| == 19 && s[4] == '-' && s[7] == '-' && s[10] == ' ' && s[13] == ':' && s[16] == ':'
            && Reads(s[..4], d.month / 12) && Reads(s[5..7], d.month % 12 + 1) && Reads(s[8..10], d.day)
            && Reads(s[11..13], clock / 3600) && Reads(s[14..16], clock / 60 % 60) && Reads(s[17..], clock % 60)
  {
    OrdinaryYears(t);
    SecondsOfDay(t);
    hide Padded, Pow10, MonthStart, DateOf, DayNumber, Ordinary, NumeralValue;
    var (s, d, clock) := (Render(t), DateAt(t), TimeOfDay(t) / NANOS_PER_SECOND);
    Powers();
    DateReads(d);
    ClockReads(clock);
    hide DateText, ClockText;
    var (date, time) := (DateText(d), ClockText(clock));
    assert s == date + (" " + time);
    assert s[..10] == date && s[11..] == time;
    assert s[..4] == date[..4] && s[5..7] == date[5..7] && s[8..10] == date[8..10];
    assert s[11..13] == time[..2] && s[14..16] == time[3..5] && s[17..] == time[6..];
    assert s[4] == date[4] && s[7] == date[7] && s[13] == time[2] && s[16] == time[5];
  }

  lemma DateReads(d: Date)
    requires ValidDate(d) && 0 <= d.month / 12 <= 9999
    ensures var s := DateText(d);
            && |s| == 10 && s[4] == '-' && s[7] == '-'
            && Reads(s[..4], d.month / 12) && Reads(s[5..7], d.month % 12 + 1) && Reads(s[8..], d.day)
  {
    hide Padded, Pow10, NumeralValue;
    Powers();
    var s := DateText(d);
    assert s[..4] == Padded(d.month / 12, 4) && s[5..7] == Padded(d.month % 12 + 1, 2) && s[8..] == Padded(d.day, 2);
    PaddedValue(d.month / 12, 4);
    PaddedValue(d.month % 12 + 1, 2);
    PaddedValue(d.day, 2);
  }

  lemma ClockReads(clock: nat)
    requires clock < 86_400
    ensures var s := ClockText(clock);
            && |s| == 8 && s[2] == ':' && s[5] == ':'
            && Reads(s[..2], clock / 3600) && Reads(s[3..5], clock / 60 % 60) && Reads(s[6..], clock % 60)
  {
    hide Padded, Pow10, NumeralValue;
    Powers();
    ClockDigits(clock);
    var s := ClockText(clock);
    assert s[..2] == Padded(clock / 3600, 2) && s[3..5] == Padded(clock / 60 % 60, 2) && s[6..] == Padded(clock % 60, 2);
    PaddedValue(clock / 3600, 2);
    PaddedValue(clock / 60 % 60, 2);
    PaddedValue(clock % 60, 2);
  }

  // Beyond four digits a year has a sign, and before the year 0 a minus and at least four digits.
  lemma YearReads(year: int)
    requires year < 0 || year > 9999
    ensures var s := YearText(year);
            |s| >= 5 && s[0] == (if year < 0 then '-' else '+') && Reads(s[1..], if year < 0 then -year else year)
  {
    var n := if year < 0 then -year else year;
    var digits := Decimal(n);
    hide Decimal, Padded, Pow10, NumeralValue;
    Powers();
    DecimalValue(n);
    DecimalShort(n);
    if |digits| < 4 {
      PaddedValue(n, 4);
    }
    assert YearText(year)[1..] == if |digits| < 4 then Padded(n, 4) else digits;
  }

  lemma DecimalShort(n: nat)
    ensures |Decimal(n)| < 4 ==> n < 10000
  {
    assert n >= 10 ==> |Decimal(n)| == |Decimal(n / 10)| + 1;
    assert n >= 100 ==> |Decimal(n / 10)| == |Decimal(n / 10 / 10)| + 1;
    assert n >= 1000 ==> |Decimal(n / 10 / 10)| == |Decimal(n / 10 / 10 / 10)| + 1;
  }
}
