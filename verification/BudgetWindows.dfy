/**
  Budget windows: parsing `budget_duration` and rolling a window forward.
  Instants and durations are integers of nanoseconds.
 */
module BudgetWindows {
  import opened Common
  import opened Calendar
  import opened Text

  const I64_MAX: int := 0x7fff_ffff_ffff_ffff
  const MAX_COUNT: int := 100_000

  datatype BudgetWindow = Fixed(length: int) | Months(count: nat)

  // The windows on which stepping makes progress; only Months(0) does not.
  predicate Steps(w: BudgetWindow) {
    w.Months? ==> w.count >= 1
  }

  // The windows parsing produces: whole milliseconds, or at least one month.
  predicate Regular(w: BudgetWindow) {
    match w
    case Fixed(d) => d >= NANOS_PER_MILLI && d % NANOS_PER_MILLI == 0
    case Months(n) => n >= 1
  }

  // ---- Parsing -------------------------------------------------------------

  // The Unicode White_Space property, which Rust's trim uses.
  predicate IsWhitespace(c: char) {
    || '\t' <= c <= '\r' || c == ' ' || c == '\U{85}' || c == '\U{A0}' || c == '\U{1680}'
    || '\U{2000}' <= c <= '\U{200A}' || c == '\U{2028}' || c == '\U{2029}'
    || c == '\U{202F}' || c == '\U{205F}' || c == '\U{3000}'
  }

  // These are its twenty-five characters.
  lemma WhitespaceCharacters(c: char)
    ensures IsWhitespace(c) <==>
            c in {'\t', '\n', '\U{B}', '\U{C}', '\r', ' ', '\U{85}', '\U{A0}', '\U{1680}', '\U{2000}', '\U{2001}', '\U{2002}',
                  '\U{2003}', '\U{2004}', '\U{2005}', '\U{2006}', '\U{2007}', '\U{2008}', '\U{2009}', '\U{200A}', '\U{2028}',
                  '\U{2029}', '\U{202F}', '\U{205F}', '\U{3000}'}
  {
    var n := c as int;
    assert '\t' <= c <= '\r' ==> n == 9 || n == 10 || n == 11 || n == 12 || n == 13;
    assert '\U{2000}' <= c <= '\U{200A}' ==>
        n == 0x2000 || n == 0x2001 || n == 0x2002 || n == 0x2003 || n == 0x2004 || n == 0x2005 || n == 0x2006 || n == 0x2007
        || n == 0x2008 || n == 0x2009 || n == 0x200A;
    assert c == n as char;
  }

  predicate Blank(s: string) {
    forall i | 0 <= i < |s| :: IsWhitespace(s[i])
  }

  function TrimStart(s: string): (r: string)
    ensures |r| <= |s| && r == s[|s| - |r|..]
    ensures r != [] ==> !IsWhitespace(r[0])
  {
    if s != [] && IsWhitespace(s[0]) then TrimStart(s[1..]) else s
  }

  function TrimEnd(s: string): (r: string)
    ensures r <= s
    ensures r != [] ==> !IsWhitespace(r[|r| - 1])
  {
    if s != [] && IsWhitespace(s[|s| - 1]) then TrimEnd(s[..|s| - 1]) else s
  }

  function Trim(s: string): string {
    TrimEnd(TrimStart(s))
  }

  // The position of the first character that is not a digit, or the length.
  function FirstNonDigit(s: string): (i: nat)
    ensures i <= |s| && AllDigits(s[..i])
    ensures i < |s| ==> !IsDigit(s[i])
  {
    if s == [] || !IsDigit(s[0]) then 0 else 1 + FirstNonDigit(s[1..])
  }

  datatype TimeUnit = Second | Minute | Hour | Day | Week | CalendarMonth

  function UnitText(u: TimeUnit): (s: string)
    ensures s != [] && !IsDigit(s[0]) && !IsWhitespace(s[|s| - 1])
  {
    match u
    case Second => "s"
    case Minute => "m"
    case Hour => "h"
    case Day => "d"
    case Week => "w"
    case CalendarMonth => "mo"
  }

  function UnitSeconds(u: TimeUnit): nat
    requires u != CalendarMonth
  {
    match u
    case Second => 1
    case Minute => 60
    case Hour => 3600
    case Day => 86_400
    case Week => 604_800
  }

  // The window that `n` units denote.
  function WindowOf(n: nat, u: TimeUnit): BudgetWindow {
    if u == CalendarMonth then Months(n) else Fixed(n * UnitSeconds(u) * NANOS_PER_SECOND)
  }

  function ErrorText(s: string): string {
    "invalid budget_duration '" + s + "': use <n>s, <n>m, <n>h, <n>d, <n>w or <n>mo, e.g. 30d"
  }

  function ParseUnit(n: nat, unit: string, err: string): Result<BudgetWindow, string> {
    if unit == "s" then Ok(Fixed(n * NANOS_PER_SECOND))
    else if unit == "m" then Ok(Fixed(n * 60 * NANOS_PER_SECOND))
    else if unit == "h" then Ok(Fixed(n * 3600 * NANOS_PER_SECOND))
    else if unit == "d" then Ok(Fixed(n * 86_400 * NANOS_PER_SECOND))
    else if unit == "w" then Ok(Fixed(n * 604_800 * NANOS_PER_SECOND))
    else if unit == "mo" then Ok(Months(n))
    else Err(err)
  }

  function ParseDuration(text: string): Result<BudgetWindow, string> {
    var s := Trim(text);
    var err := ErrorText(s);
    var i := FirstNonDigit(s);
    if i == 0 || i == |s| then Err(err)
    else
      var n := NumeralValue(s[..i]);
      if n > I64_MAX then Err(err)
      else if n <= 0 || n > MAX_COUNT then Err(err)
      else ParseUnit(n, s[i..], err)
  }

  // A duration text: a numeral in range directly followed by one of the six units.
  predicate IsDuration(s: string, digits: string, u: TimeUnit) {
    && s == digits + UnitText(u)
    && digits != [] && AllDigits(digits)
    && 1 <= NumeralValue(digits) <= MAX_COUNT
  }

  lemma ParseUnitMeaning(n: nat, unit: string, err: string)
    ensures forall u: TimeUnit | unit == UnitText(u) :: ParseUnit(n, unit, err) == Ok(WindowOf(n, u))
    ensures (forall u: TimeUnit :: unit != UnitText(u)) ==> ParseUnit(n, unit, err) == Err(err)
  {
    assert UnitText(Second) == "s" && UnitText(Minute) == "m" && UnitText(Hour) == "h";
    assert UnitText(Day) == "d" && UnitText(Week) == "w" && UnitText(CalendarMonth) == "mo";
    assert "mo"[0] == 'm' && |"mo"| == 2;
  }

  lemma SplitIsUnique(s: string, digits: string, u: TimeUnit)
    requires s == digits + UnitText(u) && AllDigits(digits)
    ensures FirstNonDigit(s) == |digits|
    ensures s[..|digits|] == digits && s[|digits|..] == UnitText(u)
  {
    var i := FirstNonDigit(s);
    assert s[|digits|] == UnitText(u)[0];
    assert forall j | 0 <= j < i :: IsDigit(s[..i][j]) && s[..i][j] == s[j];
    assert forall j | 0 <= j < |digits| :: s[j] == digits[j];
  }

  // ParseDuration accepts exactly the duration texts, and returns what they denote.
  lemma ParseAccepts(text: string)
    ensures ParseDuration(text).Ok? <==> exists digits, u :: IsDuration(Trim(text), digits, u)
    ensures forall digits, u | IsDuration(Trim(text), digits, u) ::
              ParseDuration(text) == Ok(WindowOf(NumeralValue(digits), u))
    ensures ParseDuration(text).Err? ==> ParseDuration(text).error == ErrorText(Trim(text))
  {
    hide Trim, UnitText, ErrorText, ParseUnit, IsWhitespace;
    var s := Trim(text);
    forall digits, u | IsDuration(s, digits, u)
      ensures ParseDuration(text) == Ok(WindowOf(NumeralValue(digits), u))
    {
      SplitIsUnique(s, digits, u);
      ParseUnitMeaning(NumeralValue(digits), UnitText(u), ErrorText(s));
    }
    var i := FirstNonDigit(s);
    if 0 < i < |s| {
      ParseUnitMeaning(NumeralValue(s[..i]), s[i..], ErrorText(s));
      if ParseDuration(text).Ok? {
        var u :| s[i..] == UnitText(u);
        assert s == s[..i] + s[i..];
        assert IsDuration(s, s[..i], u);
      }
    }
  }

  lemma {:induction false} TrimStartSkips(pre: string, t: string)
    requires Blank(pre) && (t != [] ==> !IsWhitespace(t[0]))
    ensures TrimStart(pre + t) == t
  {
    if pre == [] {
      assert pre + t == t;
    } else {
      assert (pre + t)[1..] == pre[1..] + t;
      TrimStartSkips(pre[1..], t);
    }
  }

  lemma {:induction false} TrimEndSkips(t: string, post: string)
    requires Blank(post) && (t != [] ==> !IsWhitespace(t[|t| - 1]))
    ensures TrimEnd(t + post) == t
  {
    if post == [] {
      assert t + post == t;
    } else {
      assert (t + post)[..|t + post| - 1] == t + post[..|post| - 1];
      TrimEndSkips(t, post[..|post| - 1]);
    }
  }

  // Parsing undoes printing, whatever white space surrounds the print.
  lemma ParsePrint(n: nat, u: TimeUnit, pre: string, post: string)
    requires 1 <= n <= MAX_COUNT && Blank(pre) && Blank(post)
    ensures ParseDuration(pre + (Decimal(n) + UnitText(u)) + post) == Ok(WindowOf(n, u))
  {
    var t := Decimal(n) + UnitText(u);
    assert IsDigit(t[0]) && t[|t| - 1] == UnitText(u)[|UnitText(u)| - 1];
    assert pre + t + post == pre + (t + post);
    TrimStartSkips(pre, t + post);
    TrimEndSkips(t, post);
    DecimalValue(n);
    assert IsDuration(t, Decimal(n), u);
    ParseAccepts(pre + t + post);
  }

  lemma WindowIsRegular(n: nat, u: TimeUnit)
    requires n >= 1
    ensures Regular(WindowOf(n, u))
  {
    if u != CalendarMonth {
      var k := n * UnitSeconds(u);
      assert k >= 1;
      assert k * NANOS_PER_SECOND == (k * 1000) * NANOS_PER_MILLI;
    }
  }

  lemma ParsedIsRegular(text: string)
    ensures ParseDuration(text).Ok? ==> Regular(ParseDuration(text).value)
  {
    hide Trim, UnitText, ErrorText, WindowOf, Regular;
    ParseAccepts(text);
    if ParseDuration(text).Ok? {
      var digits, u :| IsDuration(Trim(text), digits, u);
      WindowIsRegular(NumeralValue(digits), u);
    }
  }

  // What the six forms denote, in nanoseconds; and how anything else is refused.
  lemma UnitsInNanoseconds(digits: string)
    requires digits != [] && AllDigits(digits) && 1 <= NumeralValue(digits) <= 100_000
    ensures var n := NumeralValue(digits);
            && ParseDuration(digits + "s") == Ok(Fixed(n * 1_000_000_000))
            && ParseDuration(digits + "m") == Ok(Fixed(n * 60_000_000_000))
            && ParseDuration(digits + "h") == Ok(Fixed(n * 3_600_000_000_000))
            && ParseDuration(digits + "d") == Ok(Fixed(n * 86_400_000_000_000))
            && ParseDuration(digits + "w") == Ok(Fixed(n * 604_800_000_000_000))
            && ParseDuration(digits + "mo") == Ok(Months(n))
  {
    hide ParseDuration, TrimStart, TrimEnd;
    assert UnitText(Second) == "s" && UnitText(Minute) == "m" && UnitText(Hour) == "h";
    assert UnitText(Day) == "d" && UnitText(Week) == "w" && UnitText(CalendarMonth) == "mo";
    forall u: TimeUnit
      ensures ParseDuration(digits + UnitText(u)) == Ok(WindowOf(NumeralValue(digits), u))
    {
      TrimUnit(digits, u);
      assert IsDuration(Trim(digits + UnitText(u)), digits, u);
      ParseAccepts(digits + UnitText(u));
    }
  }

  lemma DigitIsNotBlank(c: char)
    ensures IsDigit(c) ==> !IsWhitespace(c)
  {
  }

  lemma TrimKeeps(t: string)
    requires t != [] && !IsWhitespace(t[0]) && !IsWhitespace(t[|t| - 1])
    ensures Trim(t) == t
  {
    hide IsWhitespace;
  }

  lemma TrimUnit(digits: string, u: TimeUnit)
    requires digits != [] && AllDigits(digits)
    ensures Trim(digits + UnitText(u)) == digits + UnitText(u)
  {
    hide UnitText, IsWhitespace, IsDigit, Trim;
    DigitIsNotBlank(digits[0]);
    TrimKeeps(digits + UnitText(u));
  }

  lemma RefusalText(text: string)
    ensures ParseDuration(text).Err? ==>
              ParseDuration(text).error ==
              "invalid budget_duration '" + Trim(text) + "': use <n>s, <n>m, <n>h, <n>d, <n>w or <n>mo, e.g. 30d"
  {
    hide ParseDuration, Trim;
    ParseAccepts(text);
  }

  // ---- Rolling forward -----------------------------------------------------

  // `from` advanced by one window.
  function After(w: BudgetWindow, from: int): int {
    match w
    case Fixed(d) => from + d
    case Months(n) => AddMonths(from, n)
  }

  // `from` advanced by `k` windows, one at a time.
  function Iterate(w: BudgetWindow, from: int, k: nat): int {
    if k == 0 then from else After(w, Iterate(w, from, k - 1))
  }

  function SkipFixed(length: int, resetAt: int, now: int): int {
    var millis := TruncDiv(length, NANOS_PER_MILLI);
    var step := if millis > 1 then millis else 1;
    var behind := TruncDiv(now - resetAt, NANOS_PER_MILLI);
    if behind >= 0 then resetAt + step * (behind / step + 1) * NANOS_PER_MILLI else resetAt
  }

  // The next window end: whole windows skipped at once for a fixed length, one at a time for months.
  function NextAfter(w: BudgetWindow, resetAt: int, now: int): int
    requires Steps(w)
    decreases if w.Months? && resetAt <= now then now - resetAt + 1 else 0
  {
    match w
    case Fixed(d) => SkipFixed(d, resetAt, now)
    case Months(n) =>
      AddMonthsAdvances(resetAt, n);
      if resetAt <= now then NextAfter(w, After(w, resetAt), now) else resetAt
  }

  // The closed form and the month loop of `next_after` compute NextAfter.
  method ComputeNextAfter(w: BudgetWindow, resetAt: int, now: int) returns (r: int)
    requires Steps(w)
    ensures r == NextAfter(w, resetAt, now)
  {
    r := resetAt;
    if w.Fixed? {
      var millis := TruncDiv(w.length, NANOS_PER_MILLI);
      var step := if millis > 1 then millis else 1;
      var behind := TruncDiv(now - r, NANOS_PER_MILLI);
      if behind >= 0 {
        var steps := behind / step + 1;
        return r + step * steps * NANOS_PER_MILLI;
      }
      return r;
    }
    while r <= now
      invariant NextAfter(w, r, now) == NextAfter(w, resetAt, now)
      decreases if r <= now then now - r + 1 else 0
    {
      AddMonthsAdvances(r, w.count);
      r := After(w, r);
    }
  }

  // Stepping `k` times from `at` gives the first window end strictly after `now`.
  ghost predicate FirstEndAt(w: BudgetWindow, at: int, now: int, k: nat) {
    Iterate(w, at, k) > now && forall j: nat | j < k :: Iterate(w, at, j) <= now
  }

  ghost predicate IsFirstEnd(w: BudgetWindow, at: int, now: int, r: int) {
    exists k: nat :: FirstEndAt(w, at, now, k) && r == Iterate(w, at, k)
  }

  lemma AfterAdvances(w: BudgetWindow, t: int)
    requires Regular(w)
    ensures After(w, t) > t
  {
    if w.Months? {
      AddMonthsAdvances(t, w.count);
    }
  }

  lemma {:induction false} IterateAfter(w: BudgetWindow, at: int, k: nat)
    ensures Iterate(w, After(w, at), k) == Iterate(w, at, k + 1)
  {
    hide After;
    if k > 0 {
      IterateAfter(w, at, k - 1);
    }
  }

  lemma {:induction false} IterateIncreases(w: BudgetWindow, at: int, j: nat, k: nat)
    requires Regular(w) && j < k
    ensures Iterate(w, at, j) + (k - j) <= Iterate(w, at, k)
    decreases k
  {
    hide After, Regular;
    AfterAdvances(w, Iterate(w, at, k - 1));
    if j < k - 1 {
      IterateIncreases(w, at, j, k - 1);
    }
  }

  lemma {:induction false} IterateFixed(d: int, at: int, k: nat)
    ensures Iterate(Fixed(d), at, k) == at + k * d
  {
    hide AddMonths;
    if k > 0 {
      IterateFixed(d, at, k - 1);
    }
  }

  // The first window end is unique.
  lemma FirstEndUnique(w: BudgetWindow, at: int, now: int, j: nat, k: nat)
    requires FirstEndAt(w, at, now, j) && FirstEndAt(w, at, now, k)
    ensures j == k
  {
    hide After;
  }

  // In milliseconds: the skip lands strictly beyond the gap, the window before it does not.
  lemma SkipBounds(step: int, behind: int, gap: int)
    requires step >= 1 && behind >= 0
    requires behind * NANOS_PER_MILLI <= gap < (behind + 1) * NANOS_PER_MILLI
    ensures (behind / step) * (step * NANOS_PER_MILLI) <= gap < (behind / step + 1) * (step * NANOS_PER_MILLI)
  {
    var q := behind / step;
    assert q * step <= behind < q * step + step;
    assert q * (step * NANOS_PER_MILLI) == (q * step) * NANOS_PER_MILLI;
    assert (q + 1) * (step * NANOS_PER_MILLI) == (q * step + step) * NANOS_PER_MILLI;
  }

  // The closed form lands on the same end as stepping one window at a time.
  lemma SkipIsFirst(d: int, at: int, now: int)
    requires Regular(Fixed(d)) && at <= now
    ensures IsFirstEnd(Fixed(d), at, now, SkipFixed(d, at, now))
  {
    hide AddMonths;
    var w := Fixed(d);
    var step := d / NANOS_PER_MILLI;
    assert d == step * NANOS_PER_MILLI;
    var behind := TruncDiv(now - at, NANOS_PER_MILLI);
    SkipBounds(step, behind, now - at);
    var q := behind / step;
    IterateFixed(d, at, q);
    IterateFixed(d, at, q + 1);
    assert step * (q + 1) * NANOS_PER_MILLI == (q + 1) * (step * NANOS_PER_MILLI);
    assert SkipFixed(d, at, now) == Iterate(w, at, q + 1);
    forall j: nat | j < q + 1
      ensures Iterate(w, at, j) <= now
    {
      if j < q {
        IterateIncreases(w, at, j, q);
      }
    }
    assert FirstEndAt(w, at, now, q + 1);
  }

  lemma {:induction false} MonthsNextIsFirst(w: BudgetWindow, at: int, now: int)
    requires w.Months? && Regular(w)
    ensures IsFirstEnd(w, at, now, NextAfter(w, at, now))
    decreases if at <= now then now - at + 1 else 0
  {
    hide AddMonths, AddMonthsToDate;
    if at > now {
      assert FirstEndAt(w, at, now, 0);
    } else {
      AfterAdvances(w, at);
      MonthsNextIsFirst(w, After(w, at), now);
      var k: nat :| FirstEndAt(w, After(w, at), now, k) && NextAfter(w, After(w, at), now) == Iterate(w, After(w, at), k);
      IterateAfter(w, at, k);
      forall j: nat | j < k + 1
        ensures Iterate(w, at, j) <= now
      {
        if j > 0 {
          IterateAfter(w, at, j - 1);
        }
      }
      assert FirstEndAt(w, at, now, k + 1);
    }
  }

  // NextAfter is the first window end strictly after `now`, except that the truncated gap makes a
  // fixed window still open for less than a millisecond look lapsed.
  lemma NextAfterIsFirst(w: BudgetWindow, at: int, now: int)
    requires Regular(w)
    ensures IsFirstEnd(w, at, now, NextAfter(w, at, now)) <==> !(w.Fixed? && now < at < now + NANOS_PER_MILLI)
  {
    hide AddMonths;
    if w.Months? {
      MonthsNextIsFirst(w, at, now);
    } else if at <= now {
      SkipIsFirst(w.length, at, now);
    } else {
      assert FirstEndAt(w, at, now, 0);
      if at < now + NANOS_PER_MILLI {
        assert TruncDiv(now - at, NANOS_PER_MILLI) == 0;
        var millis := TruncDiv(w.length, NANOS_PER_MILLI);
        assert NextAfter(w, at, now) > at;
        forall k: nat | FirstEndAt(w, at, now, k)
          ensures k == 0
        {
          FirstEndUnique(w, at, now, 0, k);
        }
      } else {
        assert TruncDiv(now - at, NANOS_PER_MILLI) < 0;
      }
    }
  }

  function InitialResetAt(duration: Option<string>, now: int): Result<Option<int>, string> {
    match duration
    case None => Ok(Option.None)
    case Some(d) =>
      match ParseDuration(d)
      case Ok(w) => Ok(Some(After(w, now)))
      case Err(e) => Err(e)
  }

  // A window that starts now first resets at the first window end after now, one step on; a missing duration
  // never resets, and a bad one is refused as parsing refuses it.
  lemma InitialResetIsFirstEnd(duration: Option<string>, now: int)
    ensures duration.None? ==> InitialResetAt(duration, now) == Ok(Option.None)
    ensures duration.Some? && ParseDuration(duration.value).Err? ==>
              InitialResetAt(duration, now) == Err(ParseDuration(duration.value).error)
    ensures duration.Some? && ParseDuration(duration.value).Ok? ==>
              var (w, r) := (ParseDuration(duration.value).value, InitialResetAt(duration, now));
              && r.Ok? && r.value.Some? && r.value.value == Iterate(w, now, 1)
              && IsFirstEnd(w, now, now, r.value.value)
  {
    hide ParseDuration, After, Regular;
    if duration.Some? && ParseDuration(duration.value).Ok? {
      var w := ParseDuration(duration.value).value;
      ParsedIsRegular(duration.value);
      AfterAdvances(w, now);
      assert Iterate(w, now, 1) == After(w, Iterate(w, now, 0));
      assert FirstEndAt(w, now, now, 1);
    }
  }

  function LapsedWindowNextReset(duration: Option<string>, resetAt: Option<int>, now: int): Option<int> {
    if duration.None? || resetAt.None? then Option.None
    else if resetAt.value > now then Option.None
    else
      match ParseDuration(duration.value)
      case Err(_) => Option.None
      case Ok(w) =>
        ParsedIsRegular(duration.value);
        Some(NextAfter(w, resetAt.value, now))
  }

  // A window is rolled exactly when it is parsed and lapsed, and then to the first end after `now`:
  // the guard keeps the one failing case of NextAfter away.
  lemma LapsedRollsToFirstEnd(duration: Option<string>, resetAt: Option<int>, now: int)
    ensures var next := LapsedWindowNextReset(duration, resetAt, now);
            && (next.Some? <==> duration.Some? && resetAt.Some? && resetAt.value <= now && ParseDuration(duration.value).Ok?)
            && (next.Some? ==> IsFirstEnd(ParseDuration(duration.value).value, resetAt.value, now, next.value)
                               && next.value > now >= resetAt.value)
  {
    hide ParseDuration, NextAfter, Iterate, Regular;
    var next := LapsedWindowNextReset(duration, resetAt, now);
    if next.Some? {
      ParsedIsRegular(duration.value);
      NextAfterIsFirst(ParseDuration(duration.value).value, resetAt.value, now);
    }
  }

  lemma OneDay()
    ensures ParseDuration("1d") == Ok(Fixed(NANOS_PER_DAY))
  {
    hide ParseDuration;
    assert "" + (Decimal(1) + UnitText(Day)) + "" == "1d";
    ParsePrint(1, Day, "", "");
  }

  // A window of a day set at instant 0, and what it rolls to when it ends.
  lemma DayWindow()
    ensures InitialResetAt(Some("1d"), 0) == Ok(Some(NANOS_PER_DAY))
    ensures LapsedWindowNextReset(Some("1d"), Some(NANOS_PER_DAY), NANOS_PER_DAY) == Some(2 * NANOS_PER_DAY)
  {
    OneDay();
    hide ParseDuration;
    assert TruncDiv(NANOS_PER_DAY, NANOS_PER_MILLI) == 86_400_000 && TruncDiv(0, NANOS_PER_MILLI) == 0;
  }

  // ---- Month anchors -------------------------------------------------------

  // The smallest of `day` and the lengths of the first `k` months visited.
  function ClampedDay(day: int, month: int, n: nat, k: nat): int {
    if k == 0 then day
    else
      var d := ClampedDay(day, month, n, k - 1);
      if d > DaysInMonth(month + k * n) then DaysInMonth(month + k * n) else d
  }

  lemma {:induction false} ClampedDayMeaning(day: int, month: int, n: nat, k: nat, bound: int)
    ensures ClampedDay(day, month, n, k) >= bound <==>
            day >= bound && forall j: nat | 1 <= j <= k :: DaysInMonth(month + j * n) >= bound
  {
    if k > 0 {
      ClampedDayMeaning(day, month, n, k - 1, bound);
    }
  }

  // The k-th month window end: exactly k * n months on, at the same time of day, on the smallest of
  // the anchor's day and the lengths of every month visited.
  lemma {:induction false} MonthIterate(t: int, n: nat, k: nat)
    ensures var r := Iterate(Months(n), t, k);
            && DateAt(r) == Date(DateAt(t).month + k * n, ClampedDay(DateAt(t).day, DateAt(t).month, n, k))
            && TimeOfDay(r) == TimeOfDay(t)
  {
    hide AddMonths, DateAt, TimeOfDay, DaysInMonth, MonthStart, DateOf;
    if k > 0 {
      MonthIterate(t, n, k - 1);
      AddMonthsFields(Iterate(Months(n), t, k - 1), n);
      assert (k - 1) * n + n == k * n;
    }
  }

  lemma {:induction false} InstantDetermined(a: int, b: int)
    ensures a == b <==> DateAt(a) == DateAt(b) && TimeOfDay(a) == TimeOfDay(b)
  {
    hide MonthStart, DaysInMonth, DateOf;
    assert a == DayNumber(DateAt(a)) * NANOS_PER_DAY + TimeOfDay(a);
    assert b == DayNumber(DateAt(b)) * NANOS_PER_DAY + TimeOfDay(b);
  }

  // A month window stays on its anchor's day exactly as long as every month visited has that day.
  lemma MonthAnchored(t: int, n: nat, k: nat)
    ensures DateAt(Iterate(Months(n), t, k)).day <= DateAt(t).day
    ensures DateAt(Iterate(Months(n), t, k)).day == DateAt(t).day <==>
            forall j: nat | 1 <= j <= k :: DaysInMonth(DateAt(t).month + j * n) >= DateAt(t).day
    ensures DateAt(t).day <= 28 ==> DateAt(Iterate(Months(n), t, k)) == Date(DateAt(t).month + k * n, DateAt(t).day)
  {
    hide AddMonths, DateAt, TimeOfDay, DaysInMonth;
    MonthIterate(t, n, k);
    ClampedDayMeaning(DateAt(t).day, DateAt(t).month, n, k, DateAt(t).day);
    ClampedDayMeaning(DateAt(t).day, DateAt(t).month, n, k, DateAt(t).day + 1);
  }

  // Stepping agrees with adding all the months to the anchor at once exactly when no month on the
  // way is too short for the day the last one gives.
  lemma MonthDrift(t: int, n: nat, k: nat)
    ensures var d := AddMonthsToDate(DateAt(t), k * n).day;
            Iterate(Months(n), t, k) == AddMonths(t, k * n) <==>
            forall j: nat | 1 <= j < k :: DaysInMonth(DateAt(t).month + j * n) >= d
  {
    hide AddMonths, DateAt, TimeOfDay, DaysInMonth, Iterate, DayNumber;
    var d := AddMonthsToDate(DateAt(t), k * n).day;
    var c := ClampedDay(DateAt(t).day, DateAt(t).month, n, k);
    MonthIterate(t, n, k);
    AddMonthsFields(t, k * n);
    InstantDetermined(Iterate(Months(n), t, k), AddMonths(t, k * n));
    ClampedDayMeaning(DateAt(t).day, DateAt(t).month, n, k, d);
    ClampedDayMeaning(DateAt(t).day, DateAt(t).month, n, k, d + 1);
    if k > 0 {
      assert DaysInMonth(DateAt(t).month + k * n) >= d;
      assert !(c >= d + 1);
    }
  }

  // 31 January, then 28 February, then 28 March: the anchor is lost.
  lemma MonthDriftWitness()
    ensures var t := InstantOf(Date(12 * 2026, 31), 0);
            && Iterate(Months(1), t, 2) == InstantOf(Date(12 * 2026 + 2, 28), 0)
            && AddMonths(t, 2) == InstantOf(Date(12 * 2026 + 2, 31), 0)
  {
    hide InstantOf, AddMonths;
    var jan, feb := Date(12 * 2026, 31), Date(12 * 2026 + 1, 28);
    AddMonthsOf(jan, 0, 1);
    AddMonthsOf(feb, 0, 1);
    AddMonthsOf(jan, 0, 2);
    var t := InstantOf(jan, 0);
    assert Iterate(Months(1), t, 1) == AddMonths(Iterate(Months(1), t, 0), 1);
  }
}
