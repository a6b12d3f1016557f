/** The request log: a filter built clause by clause into a COUNT and a page query. */
module RequestLogs {
  import opened Common
  import opened Calendar
  import opened Text
  import opened Timestamps
  import opened Pagination

  // The table stores the moment of a request, `at`, as text.
  datatype LogRow = LogRow(
    id: string, org: string, app: Option<string>, model: string, provider: string, status: string,
    createdAt: string, at: int)

  // A tenant's filter, its range given by instants.
  datatype LogFilter = LogFilter(
    model: Option<string>, provider: Option<string>, status: Option<string>, from: Option<int>, to: Option<int>)

  // What the database is sent: every value a text.
  datatype TextFilter = TextFilter(
    org: Option<string>, app: Option<string>, model: Option<string>, provider: Option<string>, status: Option<string>,
    from: Option<string>, to: Option<string>)

  datatype Condition =
    | OrgIs(v: string) | AppIs(v: string) | ModelIs(v: string) | ProviderIs(v: string) | StatusIs(v: string)
    | CreatedFrom(v: string) | CreatedTo(v: string)

  predicate Holds(c: Condition, r: LogRow) {
    match c
    case OrgIs(v) => r.org == v
    case AppIs(v) => r.app == Some(v)
    case ModelIs(v) => r.model == v
    case ProviderIs(v) => r.provider == v
    case StatusIs(v) => r.status == v
    case CreatedFrom(v) => AtMost(v, r.createdAt)
    case CreatedTo(v) => AtMost(r.createdAt, v)
  }

  predicate AllHold(where_: seq<Condition>, r: LogRow) {
    forall i | 0 <= i < |where_| :: Holds(where_[i], r)
  }

  function Selected(rows: seq<LogRow>, keep: LogRow -> bool): seq<LogRow> {
    if rows == [] then []
    else Selected(rows[..|rows| - 1], keep) + if keep(rows[|rows| - 1]) then [rows[|rows| - 1]] else []
  }

  lemma {:induction false} SameSelected(rows: seq<LogRow>, p: LogRow -> bool, q: LogRow -> bool)
    requires forall r | r in rows :: p(r) <==> q(r)
    ensures Selected(rows, p) == Selected(rows, q)
  {
    if rows != [] {
      SameSelected(rows[..|rows| - 1], p, q);
    }
  }

  lemma {:induction false} SelectedMeaning(rows: seq<LogRow>, keep: LogRow -> bool)
    requires DistinctIds(rows)
    ensures DistinctIds(Selected(rows, keep))
    ensures forall r :: r in Selected(rows, keep) <==> r in rows && keep(r)
  {
    if rows != [] {
      var (init, last) := (rows[..|rows| - 1], rows[|rows| - 1]);
      SelectedMeaning(init, keep);
      assert rows == init + [last];
      var w := Selected(init, keep);
      forall i | 0 <= i < |w|
        ensures w[i].id != last.id
      {
        assert w[i] in w;
        assert w[i] in init;
      }
    }
  }

  // ---- Order and pages -----------------------------------------------------

  // Newest first; ties by descending id.
  predicate Before(a: LogRow, b: LogRow) {
    Less(b.createdAt, a.createdAt) || (b.createdAt == a.createdAt && Less(b.id, a.id))
  }

  function Insert(r: LogRow, sorted: seq<LogRow>): seq<LogRow> {
    if sorted == [] || Before(r, sorted[0]) then [r] + sorted else [sorted[0]] + Insert(r, sorted[1..])
  }

  function Ordered(rows: seq<LogRow>): seq<LogRow> {
    if rows == [] then [] else Insert(rows[|rows| - 1], Ordered(rows[..|rows| - 1]))
  }

  lemma {:induction false} InsertKeeps(r: LogRow, sorted: seq<LogRow>)
    ensures multiset(Insert(r, sorted)) == multiset(sorted) + multiset{r}
  {
    if !(sorted == [] || Before(r, sorted[0])) {
      InsertKeeps(r, sorted[1..]);
      assert sorted == [sorted[0]] + sorted[1..];
    }
  }

  lemma {:induction false} OrderedKeeps(rows: seq<LogRow>)
    ensures multiset(Ordered(rows)) == multiset(rows)
    ensures |Ordered(rows)| == |rows|
  {
    hide Insert;
    if rows != [] {
      OrderedKeeps(rows[..|rows| - 1]);
      InsertKeeps(rows[|rows| - 1], Ordered(rows[..|rows| - 1]));
      assert rows == rows[..|rows| - 1] + [rows[|rows| - 1]];
    }
    assert |Ordered(rows)| == |multiset(Ordered(rows))|;
  }

  predicate Descending(rows: seq<LogRow>) {
    forall i | 0 <= i < |rows| - 1 :: Before(rows[i], rows[i + 1])
  }

  predicate DistinctIds(rows: seq<LogRow>) {
    forall i, j | 0 <= i < j < |rows| :: rows[i].id != rows[j].id
  }

  lemma BeforeTotal(a: LogRow, b: LogRow)
    requires a.id != b.id
    ensures Before(a, b) || Before(b, a)
  {
    LessTotal(a.createdAt, b.createdAt);
    LessTotal(a.id, b.id);
  }

  lemma {:induction false} InsertOrders(r: LogRow, sorted: seq<LogRow>)
    requires Descending(sorted) && forall i | 0 <= i < |sorted| :: sorted[i].id != r.id
    ensures Descending(Insert(r, sorted))
    ensures Insert(r, sorted) != [] && (Insert(r, sorted)[0] == r || (sorted != [] && Insert(r, sorted)[0] == sorted[0]))
  {
    hide Before;
    if !(sorted == [] || Before(r, sorted[0])) {
      BeforeTotal(r, sorted[0]);
      InsertOrders(r, sorted[1..]);
    }
  }

  lemma {:induction false} OrderedDescends(rows: seq<LogRow>)
    requires DistinctIds(rows)
    ensures Descending(Ordered(rows))
  {
    hide Before;
    if rows != [] {
      var init := rows[..|rows| - 1];
      OrderedDescends(init);
      OrderedKeeps(init);
      forall i | 0 <= i < |Ordered(init)|
        ensures Ordered(init)[i].id != rows[|rows| - 1].id
      {
        assert Ordered(init)[i] in multiset(init);
      }
      InsertOrders(rows[|rows| - 1], Ordered(init));
    }
  }

  // LIMIT and OFFSET; SQLite reads a negative offset as zero.
  function Slice(rows: seq<LogRow>, limit: nat, offset: int): seq<LogRow> {
    var lo := if offset < 0 then 0 else if offset < |rows| then offset else |rows|;
    var hi := if lo + limit < |rows| then lo + limit else |rows|;
    rows[lo..hi]
  }

  function Page(rows: seq<LogRow>, page: u32, perPage: u32): seq<LogRow> {
    Slice(rows, perPage, AsI64(Offset(page, perPage)))
  }

  // A page is the rows after those of the pages before it; but where their number does not fit an i64 the
  // cast makes the offset negative, and the page is the first one.
  lemma PageIsSlice(rows: seq<LogRow>, page: u32, perPage: u32)
    ensures var before := (if page == 0 then 0 else page - 1) * perPage;
            var lo := if before >= 0x8000_0000_0000_0000 then 0 else if before < |rows| then before else |rows|;
            before >= 0 && Page(rows, page, perPage) == if lo + perPage < |rows| then rows[lo..lo + perPage] else rows[lo..]
  {
    OffsetExact(page, perPage);
    assert ClampPage(page) - 1 == if page == 0 then 0 else page - 1;
    hide Offset, ClampPage;
    SliceAt(rows, perPage, Offset(page, perPage));
  }

  lemma SliceAt(rows: seq<LogRow>, perPage: u32, before: u64)
    ensures var lo := if before >= 0x8000_0000_0000_0000 then 0 else if before < |rows| then before else |rows|;
            Slice(rows, perPage, AsI64(before)) == if lo + perPage < |rows| then rows[lo..lo + perPage] else rows[lo..]
  {
  }

  // Pages 1 to `k`, one after the other.
  function Pages(rows: seq<LogRow>, k: u32, perPage: u32): seq<LogRow> {
    if k == 0 then [] else Pages(rows, k - 1, perPage) + Page(rows, k, perPage)
  }

  function UpTo(rows: seq<LogRow>, n: nat): seq<LogRow> {
    if n < |rows| then rows[..n] else rows
  }

  lemma NextPage(rows: seq<LogRow>, before: nat, perPage: nat)
    ensures var lo := if before < |rows| then before else |rows|;
            UpTo(rows, before + perPage) == UpTo(rows, before) + if lo + perPage < |rows| then rows[lo..lo + perPage] else rows[lo..]
  {
  }

  lemma PageFollows(rows: seq<LogRow>, k: u32, perPage: u32)
    requires 1 <= k && 1 <= perPage <= MAX_PER_PAGE
    ensures (k - 1) * perPage >= 0 && k * perPage >= 0
    ensures UpTo(rows, k * perPage) == UpTo(rows, (k - 1) * perPage) + Page(rows, k, perPage)
  {
    var before := (k - 1) * perPage;
    assert k * perPage == before + perPage;
    Product(k - 1, perPage);
    PageIsSlice(rows, k, perPage);
    hide Page, UpTo;
    NextPage(rows, before, perPage);
  }

  lemma {:induction false} PagesArePrefix(rows: seq<LogRow>, k: u32, perPage: u32)
    requires 1 <= perPage <= MAX_PER_PAGE
    ensures k * perPage >= 0 && Pages(rows, k, perPage) == UpTo(rows, k * perPage)
  {
    hide Page;
    if k > 0 {
      hide UpTo;
      PagesArePrefix(rows, k - 1, perPage);
      PageFollows(rows, k, perPage);
    }
  }

  // The counted pages are a prefix of the rows, and all of them exactly when the count fits its u32.
  lemma CountedPages(rows: seq<LogRow>, perPage: u32)
    requires 1 <= perPage <= MAX_PER_PAGE && |rows| <= U64_MAX
    ensures var all := Pages(rows, TotalPages(|rows|, perPage), perPage);
            all <= rows && (all == rows <==> |rows| <= U32_MAX * perPage)
  {
    hide Pages, TotalPages;
    TotalPagesExact(|rows|, perPage);
    PagesArePrefix(rows, TotalPages(|rows|, perPage), perPage);
    assert ClampPerPage(perPage) == perPage;
    hide ClampPerPage;
  }

  lemma SameRows(prefix: seq<LogRow>, rows: seq<LogRow>)
    requires prefix <= rows
    ensures multiset(prefix) == multiset(rows) <==> prefix == rows
  {
    if prefix != rows {
      assert |multiset(prefix)| == |prefix| < |rows| == |multiset(rows)|;
    }
  }

  lemma SameMembers(xs: seq<LogRow>, ys: seq<LogRow>)
    requires multiset(xs) == multiset(ys)
    ensures forall r :: r in xs <==> r in ys
  {
    forall r
      ensures r in xs <==> r in ys
    {
      assert r in xs <==> r in multiset(xs);
      assert r in ys <==> r in multiset(ys);
    }
  }

  // The counted pages of a listing, one after the other, are in order and repeat nothing; they are the whole
  // listing, each row once, exactly when the page count fits its u32.
  lemma PagesCoverListing(rows: seq<LogRow>, keep: LogRow -> bool, perPage: u32)
    requires DistinctIds(rows) && 1 <= perPage <= MAX_PER_PAGE && |Selected(rows, keep)| <= U64_MAX
    ensures var wanted := Selected(rows, keep);
            var all := Pages(Ordered(wanted), TotalPages(|wanted|, perPage), perPage);
            && all <= Ordered(wanted) && Descending(all)
            && (|wanted| <= U32_MAX * perPage <==> multiset(all) == multiset(wanted))
            && (|wanted| <= U32_MAX * perPage ==> forall r :: r in all <==> r in rows && keep(r))
            && DistinctIds(wanted)
  {
    hide Selected, Ordered, Pages, Before, TotalPages, DistinctIds;
    var wanted := Selected(rows, keep);
    OrderedKeeps(wanted);
    SelectedMeaning(rows, keep);
    OrderedDescends(wanted);
    CountedPages(Ordered(wanted), perPage);
    var all := Pages(Ordered(wanted), TotalPages(|wanted|, perPage), perPage);
    SameRows(all, Ordered(wanted));
    if |wanted| <= U32_MAX * perPage {
      SameMembers(all, wanted);
    }
  }

  // ---- Clauses -------------------------------------------------------------

  // The rows a filter keeps, as the texts compare.
  predicate Matches(f: TextFilter, r: LogRow) {
    && (f.org.Some? ==> r.org == f.org.value)
    && (f.app.Some? ==> r.app == f.app)
    && (f.model.Some? ==> r.model == f.model.value)
    && (f.provider.Some? ==> r.provider == f.provider.value)
    && (f.status.Some? ==> r.status == f.status.value)
    && (f.from.Some? ==> AtMost(f.from.value, r.createdAt))
    && (f.to.Some? ==> AtMost(r.createdAt, f.to.value))
  }

  lemma AllHoldNext(where_: seq<Condition>, c: Condition, r: LogRow)
    ensures AllHold(where_ + [c], r) <==> AllHold(where_, r) && Holds(c, r)
  {
    assert (where_ + [c])[|where_|] == c;
    assert forall i | 0 <= i < |where_| :: (where_ + [c])[i] == where_[i];
  }

  // The optional conditions, in the order they are pushed.
  function Optional(k: nat, f: TextFilter): Option<Condition> {
    match k
    case 1 => if f.org.Some? then Some(OrgIs(f.org.value)) else None
    case 2 => if f.app.Some? then Some(AppIs(f.app.value)) else None
    case 3 => if f.model.Some? then Some(ModelIs(f.model.value)) else None
    case 4 => if f.provider.Some? then Some(ProviderIs(f.provider.value)) else None
    case 5 => if f.status.Some? then Some(StatusIs(f.status.value)) else None
    case 6 => if f.from.Some? then Some(CreatedFrom(f.from.value)) else None
    case 7 => if f.to.Some? then Some(CreatedTo(f.to.value)) else None
    case _ => None
  }

  function Where(k: nat, f: TextFilter): seq<Condition> {
    if k == 0 then []
    else
      var c := Optional(k, f);
      Where(k - 1, f) + if c.Some? then [c.value] else []
  }

  lemma {:induction false} WhereHolds(k: nat, f: TextFilter, r: LogRow)
    ensures AllHold(Where(k, f), r) <==>
            forall j | 1 <= j <= k && Optional(j, f).Some? :: Holds(Optional(j, f).value, r)
  {
    hide Optional, AtMost;
    if k > 0 {
      WhereHolds(k - 1, f, r);
      var (init, c) := (Where(k - 1, f), Optional(k, f));
      if c.Some? {
        AllHoldNext(init, c.value, r);
      } else {
        assert Where(k, f) == init;
      }
    }
  }

  lemma WhereMeans(f: TextFilter, r: LogRow)
    ensures AllHold(Where(7, f), r) <==> Matches(f, r)
  {
    hide AtMost, AllHold, Where;
    WhereHolds(7, f, r);
    assert Optional(1, f).Some? <==> f.org.Some?;
    assert Optional(2, f).Some? <==> f.app.Some?;
    assert Optional(3, f).Some? <==> f.model.Some?;
    assert Optional(4, f).Some? <==> f.provider.Some?;
    assert Optional(5, f).Some? <==> f.status.Some?;
    assert Optional(6, f).Some? <==> f.from.Some?;
    assert Optional(7, f).Some? <==> f.to.Some?;
  }

  // ---- What a tenant's filter reads ----------------------------------------

  // The row's text is the rendering of its moment, in the years whose text order is chronological.
  predicate Stamped(r: LogRow) {
    Ordinary(r.at) && r.createdAt == Render(r.at)
  }

  // The text order of the rows is newest first, ties by descending id.
  lemma NewestFirst(a: LogRow, b: LogRow)
    requires Stamped(a) && Stamped(b)
    ensures Before(a, b) <==> Seconds(a.at) > Seconds(b.at) || (Seconds(a.at) == Seconds(b.at) && Less(b.id, a.id))
  {
    hide Render, Seconds, Less, Ordinary;
    RenderOrder(b.at, a.at);
    RenderOrder(a.at, b.at);
    AtMostBoth(a.createdAt, b.createdAt);
  }

  lemma AtMostBoth(a: string, b: string)
    ensures AtMost(a, b) && AtMost(b, a) <==> a == b
  {
    if Less(a, b) && Less(b, a) {
      LessTransitive(a, b, a);
      LessIrreflexive(a);
    }
  }

  function Rendered(t: Option<int>): Option<string> {
    if t.Some? then Some(Render(t.value)) else None
  }

  function TenantFilter(org: string, app: Option<string>, f: LogFilter): TextFilter {
    TextFilter(Some(org), app, f.model, f.provider, f.status, Rendered(f.from), Rendered(f.to))
  }

  predicate FieldsMatch(org: string, app: Option<string>, f: LogFilter, r: LogRow) {
    && r.org == org
    && (app.Some? ==> r.app == app)
    && (f.model.Some? ==> r.model == f.model.value)
    && (f.provider.Some? ==> r.provider == f.provider.value)
    && (f.status.Some? ==> r.status == f.status.value)
  }

  // What the caller asks for: the tenant's rows with the given fields, in the chronological range at
  // the granularity of a second.
  predicate Wanted(org: string, app: Option<string>, f: LogFilter, r: LogRow) {
    && FieldsMatch(org, app, f, r)
    && (f.from.Some? ==> Seconds(r.at) >= Seconds(f.from.value))
    && (f.to.Some? ==> Seconds(r.at) <= Seconds(f.to.value))
  }

  predicate Far(t: Option<int>) {
    t.Some? && YearAt(t.value) > 9999
  }

  // What the caller gets: a bound past the year 9999 counts as one before everything.
  predicate Reads(org: string, app: Option<string>, f: LogFilter, r: LogRow) {
    && FieldsMatch(org, app, f, r)
    && (f.from.Some? ==> Far(f.from) || Seconds(r.at) >= Seconds(f.from.value))
    && (f.to.Some? ==> !Far(f.to) && Seconds(r.at) <= Seconds(f.to.value))
  }

  lemma TenantReads(org: string, app: Option<string>, f: LogFilter, r: LogRow)
    requires Stamped(r)
    ensures Matches(TenantFilter(org, app, f), r) <==> Reads(org, app, f, r)
  {
    hide Render, AtMost, Seconds, Ordinary, YearAt;
    if f.from.Some? { BoundReads(r.at, f.from.value); }
    if f.to.Some? { BoundReads(r.at, f.to.value); }
  }

  predicate RangeInOrder(f: LogFilter) {
    if Far(f.from) then Far(f.to) || (f.to.Some? && YearAt(f.to.value) < 0) else !Far(f.to)
  }

  lemma ReadsAsWanted(org: string, app: Option<string>, f: LogFilter, r: LogRow)
    requires RangeInOrder(f) && Stamped(r)
    ensures Reads(org, app, f, r) <==> Wanted(org, app, f, r)
  {
    hide Render, Seconds, YearAt, Ordinary, FieldsMatch;
    if Far(f.from) {
      OrdinaryYears(f.from.value);
      OutsideBounds(r.at, f.from.value);
      if !Far(f.to) {
        OrdinaryYears(f.to.value);
        OutsideBounds(r.at, f.to.value);
      }
    }
  }

  function OrEmpty(o: Option<string>): string {
    if o.Some? then o.value else ""
  }

  lemma RowAt(org: string, app: Option<string>, f: LogFilter, at: int) returns (r: LogRow)
    requires Ordinary(at)
    ensures Stamped(r) && r.at == at && FieldsMatch(org, app, f, r)
  {
    r := LogRow("", org, app, OrEmpty(f.model), OrEmpty(f.provider), OrEmpty(f.status), Render(at), at);
  }

  lemma MisreadRow(org: string, app: Option<string>, f: LogFilter) returns (r: LogRow)
    requires !RangeInOrder(f)
    ensures Stamped(r) && Reads(org, app, f, r) != Wanted(org, app, f, r)
  {
    hide Render, Seconds, YearAt, Ordinary, FieldsMatch;
    var (near, far) := if Far(f.from) then (f.to, f.from.value) else (f.from, f.to.value);
    EpochOrdinary();
    OrdinaryYears(far);
    var at := 0;
    if near.Some? {
      OrdinaryYears(near.value);
      if YearAt(near.value) >= 0 {
        at := near.value;
      } else {
        OutsideBounds(0, near.value);
      }
    }
    OutsideBounds(at, far);
    r := RowAt(org, app, f, at);
  }

  lemma EpochOrdinary()
    ensures Ordinary(0)
  {
  }

  // Every stored row is read as the caller means it exactly when no bound is past the year 9999, or both
  // are, or the lower one is and the upper one lies before the year 0, so that nothing is in range.
  lemma RangeReadRight(org: string, app: Option<string>, f: LogFilter)
    ensures (forall r | Stamped(r) :: Matches(TenantFilter(org, app, f), r) <==> Wanted(org, app, f, r)) <==> RangeInOrder(f)
  {
    hide *;
    forall r | Stamped(r)
      ensures Matches(TenantFilter(org, app, f), r) <==> Reads(org, app, f, r)
    {
      TenantReads(org, app, f, r);
    }
    if RangeInOrder(f) {
      forall r | Stamped(r) { ReadsAsWanted(org, app, f, r); }
    } else {
      var r := MisreadRow(org, app, f);
    }
  }

  // ---- What a raw text bound reads -----------------------------------------

  // A `from` in ISO 8601 with a time of day drops every row of its own date, a `to` keeps them all: each is
  // right about a row unless the row is of that date and on the other side of the moment.
  lemma IsoRange(b: int, rest: string, r: LogRow)
    requires Stamped(r) && Ordinary(b)
    ensures var text := DateText(DateAt(b)) + ("T" + rest);
            var sameDay := DateAt(r.at) == DateAt(b);
            && (Holds(CreatedFrom(text), r) <==> DayNumber(DateAt(r.at)) > DayNumber(DateAt(b)))
            && (Holds(CreatedTo(text), r) <==> DayNumber(DateAt(r.at)) <= DayNumber(DateAt(b)))
            && ((Holds(CreatedFrom(text), r) <==> Seconds(r.at) >= Seconds(b)) <==> !(sameDay && Seconds(r.at) >= Seconds(b)))
            && ((Holds(CreatedTo(text), r) <==> Seconds(r.at) <= Seconds(b)) <==> !(sameDay && Seconds(r.at) > Seconds(b)))
  {
    hide Render, Ordinary, AtMost, DateText, DateOf, DayNumber;
    OrdinaryYears(b);
    IsoBoundReads(r.at, DateAt(b), rest);
    DaysAndSeconds(r.at, b);
  }

  lemma DaysAndSeconds(a: int, b: int)
    ensures DateAt(a) == DateAt(b) <==> a / NANOS_PER_DAY == b / NANOS_PER_DAY
    ensures a / NANOS_PER_DAY > b / NANOS_PER_DAY ==> Seconds(a) > Seconds(b)
    ensures a / NANOS_PER_DAY < b / NANOS_PER_DAY ==> Seconds(a) < Seconds(b)
  {
    hide DateOf, DayNumber, Seconds;
    SecondsOfDay(a);
    SecondsOfDay(b);
  }

  lemma StampedAt(at: int) returns (r: LogRow)
    requires Ordinary(at)
    ensures Stamped(r) && r.at == at
  {
    r := LogRow("", "", None, "", "", "", Render(at), at);
  }

  predicate ReadsFrom(text: string, b: int, r: LogRow) {
    Holds(CreatedFrom(text), r) <==> Seconds(r.at) >= Seconds(b)
  }

  predicate ReadsTo(text: string, b: int, r: LogRow) {
    Holds(CreatedTo(text), r) <==> Seconds(r.at) <= Seconds(b)
  }

  // An ISO 8601 bound with its time of day in UTC: a `from` is never right about every stored row, the row at
  // the bound itself being dropped; a `to` is exactly when it names the last second of its day.
  lemma IsoBoundRight(b: int, rest: string)
    requires Ordinary(b)
    ensures var text := DateText(DateAt(b)) + ("T" + rest);
            && !(forall r | Stamped(r) :: ReadsFrom(text, b, r))
            && ((forall r | Stamped(r) :: ReadsTo(text, b, r)) <==> TimeOfDay(b) / NANOS_PER_SECOND == 86_399)
  {
    hide Render, Ordinary, AtMost, DateText, DateOf, DayNumber, Holds, Seconds;
    var text := DateText(DateAt(b)) + ("T" + rest);
    var r := StampedAt(b);
    IsoRange(b, rest, r);
    assert !ReadsFrom(text, b, r);
    if TimeOfDay(b) / NANOS_PER_SECOND == 86_399 {
      forall r | Stamped(r)
        ensures ReadsTo(text, b, r)
      {
        IsoRange(b, rest, r);
        if DateAt(r.at) == DateAt(b) {
          LastSecond(r.at, b);
        }
      }
    } else {
      LaterThatDay(b);
      r := StampedAt(LastOfDay(b));
      IsoRange(b, rest, r);
      assert !ReadsTo(text, b, r);
    }
  }

  function LastOfDay(b: int): int {
    b / NANOS_PER_DAY * NANOS_PER_DAY + 86_399 * NANOS_PER_SECOND
  }

  lemma LastSecond(a: int, b: int)
    requires TimeOfDay(b) / NANOS_PER_SECOND == 86_399 && DateAt(a) == DateAt(b)
    ensures Seconds(a) <= Seconds(b)
  {
    hide DateOf, DayNumber;
    DaysAndSeconds(a, b);
    SecondsOfDay(a);
    SecondsOfDay(b);
  }

  lemma LaterThatDay(b: int)
    requires Ordinary(b) && TimeOfDay(b) / NANOS_PER_SECOND != 86_399
    ensures var c := LastOfDay(b); Ordinary(c) && DateAt(c) == DateAt(b) && Seconds(c) > Seconds(b)
  {
    hide DateOf, DayNumber;
    var c := LastOfDay(b);
    assert c / NANOS_PER_DAY == b / NANOS_PER_DAY;
    SecondsOfDay(b);
    SecondsOfDay(c);
  }

  // An ISO 8601 bound of a date alone, read as its midnight: a `from` is right about every stored row, keeping
  // its own date; a `to` drops its own date and so is never right about every row, not even taken as the whole day.
  lemma DateBoundRight(d: Date)
    requires ValidDate(d) && 0 <= d.month / 12 <= 9999
    ensures var (text, b) := (DateText(d), DayNumber(d) * NANOS_PER_DAY);
            && (forall r | Stamped(r) :: ReadsFrom(text, b, r))
            && (forall r | Stamped(r) :: Holds(CreatedTo(text), r) <==> DayNumber(DateAt(r.at)) < DayNumber(d))
            && !(forall r | Stamped(r) :: ReadsTo(text, b, r))
            && !(forall r | Stamped(r) :: Holds(CreatedTo(text), r) <==> DayNumber(DateAt(r.at)) <= DayNumber(d))
  {
    hide Render, Ordinary, AtMost, DateText, DateOf, DayNumber, Holds, Seconds;
    var (text, b) := (DateText(d), DayNumber(d) * NANOS_PER_DAY);
    forall r | Stamped(r)
      ensures ReadsFrom(text, b, r) && (Holds(CreatedTo(text), r) <==> DayNumber(DateAt(r.at)) < DayNumber(d))
    {
      DateRange(d, r);
      SecondsOfMidnight(r.at, DayNumber(d));
    }
    Midnight(d);
    var r := StampedAt(b);
    assert Seconds(r.at) <= Seconds(b) && !Holds(CreatedTo(text), r);
    assert !ReadsTo(text, b, r);
  }

  lemma DateRange(d: Date, r: LogRow)
    requires Stamped(r) && ValidDate(d) && 0 <= d.month / 12 <= 9999
    ensures Holds(CreatedFrom(DateText(d)), r) <==> DayNumber(d) <= r.at / NANOS_PER_DAY
    ensures Holds(CreatedTo(DateText(d)), r) <==> r.at / NANOS_PER_DAY < DayNumber(d)
  {
    hide Render, Ordinary, AtMost, DateText, DateOf, DayNumber;
    DateBoundReads(r.at, d);
  }

  lemma SecondsOfMidnight(a: int, day: int)
    ensures Seconds(a) >= Seconds(day * NANOS_PER_DAY) <==> a / NANOS_PER_DAY >= day
  {
  }

  lemma Midnight(d: Date)
    requires ValidDate(d) && 0 <= d.month / 12 <= 9999
    ensures Ordinary(DayNumber(d) * NANOS_PER_DAY) && DateAt(DayNumber(d) * NANOS_PER_DAY) == d
  {
    var b := DayNumber(d) * NANOS_PER_DAY;
    assert b / NANOS_PER_DAY == DayNumber(d);
    DateOfDayNumber(d);
    OrdinaryYears(b);
  }

  // ---- The query -----------------------------------------------------------

  function Reader(org: string, app: Option<string>, f: LogFilter): LogRow -> bool {
    r => Reads(org, app, f, r)
  }

  function Wants(org: string, app: Option<string>, f: LogFilter): LogRow -> bool {
    r => Wanted(org, app, f, r)
  }

  function Matcher(f: TextFilter): LogRow -> bool {
    r => Matches(f, r)
  }

  class Database {
    var logs: seq<LogRow>

    // The WHERE clause, pushed condition by condition.
    method BuildWhere(f: TextFilter) returns (where_: seq<Condition>)
      ensures forall r :: AllHold(where_, r) <==> Matches(f, r)
    {
      hide Matches, AllHold;
      where_ := [];
      assert where_ == Where(0, f);
      if f.org.Some? { where_ := where_ + [OrgIs(f.org.value)]; }
      assert where_ == Where(1, f);
      if f.app.Some? { where_ := where_ + [AppIs(f.app.value)]; }
      assert where_ == Where(2, f);
      if f.model.Some? { where_ := where_ + [ModelIs(f.model.value)]; }
      assert where_ == Where(3, f);
      if f.provider.Some? { where_ := where_ + [ProviderIs(f.provider.value)]; }
      assert where_ == Where(4, f);
      if f.status.Some? { where_ := where_ + [StatusIs(f.status.value)]; }
      assert where_ == Where(5, f);
      if f.from.Some? { where_ := where_ + [CreatedFrom(f.from.value)]; }
      assert where_ == Where(6, f);
      if f.to.Some? { where_ := where_ + [CreatedTo(f.to.value)]; }
      assert where_ == Where(7, f);
      forall r
        ensures AllHold(where_, r) <==> Matches(f, r)
      {
        WhereMeans(f, r);
      }
    }

    // The count of every matching row, and the asked page of them.
    method GetRequestLogsFiltered(f: TextFilter, page: u32, perPage: u32) returns (rows: seq<LogRow>, total: nat)
      ensures total == |Selected(logs, Matcher(f))|
      ensures rows == Page(Ordered(Selected(logs, Matcher(f))), page, perPage)
    {
      var count := BuildWhere(f);
      SameSelected(logs, r => AllHold(count, r), Matcher(f));
      total := |Selected(logs, r => AllHold(count, r))|;
      var offset := AsI64(Offset(page, perPage));
      var data := BuildWhere(f);
      SameSelected(logs, r => AllHold(data, r), Matcher(f));
      rows := Slice(Ordered(Selected(logs, r => AllHold(data, r))), perPage, offset);
    }

    // The same for a tenant, whose range is rendered first.
    method GetRequestLogsForTenantFiltered(org: string, app: Option<string>, f: LogFilter, page: u32, perPage: u32)
      returns (rows: seq<LogRow>, total: nat)
      requires forall i | 0 <= i < |logs| :: Stamped(logs[i])
      ensures total == |Selected(logs, Reader(org, app, f))|
      ensures rows == Page(Ordered(Selected(logs, Reader(org, app, f))), page, perPage)
      ensures RangeInOrder(f) ==> Selected(logs, Reader(org, app, f)) == Selected(logs, Wants(org, app, f))
    {
      rows, total := GetRequestLogsFiltered(TenantFilter(org, app, f), page, perPage);
      forall r | r in logs
        ensures Matcher(TenantFilter(org, app, f))(r) <==> Reader(org, app, f)(r)
      {
        TenantReads(org, app, f, r);
      }
      SameSelected(logs, Matcher(TenantFilter(org, app, f)), Reader(org, app, f));
      if RangeInOrder(f) {
        forall r | r in logs { ReadsAsWanted(org, app, f, r); }
        SameSelected(logs, Reader(org, app, f), Wants(org, app, f));
      }
    }
  }
}
