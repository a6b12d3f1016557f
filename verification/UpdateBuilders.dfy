/**
  The dynamic UPDATE statements of the two backends. SQLite numbers its
  parameters by their position in the text, Postgres by an explicit index; both
  bind values in a second pass over the same optional fields.
 */
module UpdateBuilders {
  import opened Common

  datatype Value = Text(text: string) | Real(real) | Int(int) | Bool(bool) | Time(int)

  datatype Column =
    | Name | TokenQuota | RpmLimit | Scopes | WebhookUrl | ExpiresAt | IsActive
    | UserRole | PasswordHash | UpdatedAt | Other(name: string)

  type Row = map<Column, Value>
  type Table = map<string, Row>

  // What stands on the right of an assignment: a positional or numbered parameter, or the clock.
  datatype Term = Positional | Numbered(index: nat) | Now

  datatype SetClause = SetClause(column: Column, term: Term)

  // UPDATE ... SET sets WHERE id = idTerm
  datatype Update = Update(sets: seq<SetClause>, idTerm: Term)

  // ---- Meaning of a statement ----------------------------------------------

  function Positionals(sets: seq<SetClause>): nat {
    if sets == [] then 0
    else Positionals(sets[..|sets| - 1]) + if sets[|sets| - 1].term.Positional? then 1 else 0
  }

  // The value of a term that has `before` positional parameters ahead of it in the text.
  function TermValue(term: Term, before: nat, binds: seq<Value>, now: int): Option<Value> {
    match term
    case Now => Some(Time(now))
    case Positional => if before < |binds| then Some(binds[before]) else None
    case Numbered(n) => if 1 <= n <= |binds| then Some(binds[n - 1]) else None
  }

  // The assignments a SET list makes, or None if a parameter has no value.
  function Assigned(sets: seq<SetClause>, binds: seq<Value>, now: int): Option<Row> {
    if sets == [] then Some(map[])
    else
      var init := sets[..|sets| - 1];
      var last := sets[|sets| - 1];
      var v := TermValue(last.term, Positionals(init), binds, now);
      match Assigned(init, binds, now)
      case Some(m) => if v.Some? then Some(m[last.column := v.value]) else None
      case None => None
  }

  // The table after the statement and the number of rows it affected.
  function Executed(table: Table, u: Update, binds: seq<Value>, now: int): Option<(Table, nat)> {
    var m := Assigned(u.sets, binds, now);
    var id := TermValue(u.idTerm, Positionals(u.sets), binds, now);
    if m.None? || id.None? || !id.value.Text? then None
    else if id.value.text in table then Some((table[id.value.text := table[id.value.text] + m.value], 1))
    else Some((table, 0))
  }

  // ---- Meaning of a patch --------------------------------------------------

  datatype ApiKeyPatch = ApiKeyPatch(
    name: Option<string>, tokenQuota: Option<real>, rpmLimit: Option<u32>, scopes: Option<string>,
    webhookUrl: Option<string>, expiresAt: Option<int>, isActive: Option<bool>)

  datatype UserPatch = UserPatch(role: Option<string>, isActive: Option<bool>, passwordHash: Option<string>)

  // Exactly the supplied columns of exactly one row take the supplied values.
  function Patched(table: Table, id: string, supplied: Row): Table {
    if id in table then table[id := table[id] + supplied] else table
  }

  function Lookup(table: Table, id: string): Option<Row> {
    if id in table then Some(table[id]) else None
  }

  // A u32 cast to i32.
  function AsI32(v: u32): int {
    if v < 0x8000_0000 then v else v - 0x1_0000_0000
  }

  // How the two backends store a rate limit: SQLite as i64, Postgres as i32.
  datatype Backend = Sqlite | Postgres

  function RateLimit(b: Backend, v: u32): int {
    if b.Postgres? then AsI32(v) else v
  }

  // The value a patch supplies for a column.
  function ApiKeyValue(b: Backend, p: ApiKeyPatch, c: Column): Option<Value> {
    match c
    case Name => OptText(p.name)
    case TokenQuota => if p.tokenQuota.Some? then Some(Real(p.tokenQuota.value)) else None
    case RpmLimit => if p.rpmLimit.Some? then Some(Int(RateLimit(b, p.rpmLimit.value))) else None
    case Scopes => OptText(p.scopes)
    case WebhookUrl => OptText(p.webhookUrl)
    case ExpiresAt => if p.expiresAt.Some? then Some(Time(p.expiresAt.value)) else None
    case IsActive => OptBool(p.isActive)
    case _ => None
  }

  function UserValue(p: UserPatch, c: Column): Option<Value> {
    match c
    case UserRole => OptText(p.role)
    case IsActive => OptBool(p.isActive)
    case PasswordHash => OptText(p.passwordHash)
    case _ => None
  }

  function OptText(o: Option<string>): Option<Value> {
    if o.Some? then Some(Text(o.value)) else None
  }

  function OptBool(o: Option<bool>): Option<Value> {
    if o.Some? then Some(Bool(o.value)) else None
  }

  const API_KEY_COLUMNS: set<Column> := {Name, TokenQuota, RpmLimit, Scopes, WebhookUrl, ExpiresAt, IsActive}
  const USER_COLUMNS: set<Column> := {UserRole, IsActive, PasswordHash}

  function ApiKeySupplied(b: Backend, p: ApiKeyPatch): Row {
    map c | c in API_KEY_COLUMNS && ApiKeyValue(b, p, c).Some? :: ApiKeyValue(b, p, c).value
  }

  function UserSupplied(p: UserPatch, now: int): Row {
    (map c | c in USER_COLUMNS && UserValue(p, c).Some? :: UserValue(p, c).value)[UpdatedAt := Time(now)]
  }

  predicate Stores(row: Row, c: Column, v: Value) {
    c in row && row[c] == v
  }

  predicate Keeps(before: Row, after: Row, c: Column) {
    (c in after <==> c in before) && (c in before ==> after[c] == before[c])
  }

  // Column by column: what was given is stored, what was not is as before.
  ghost predicate ApiKeyPatched(b: Backend, before: Row, after: Row, p: ApiKeyPatch) {
    && (if p.name.Some? then Stores(after, Name, Text(p.name.value)) else Keeps(before, after, Name))
    && (if p.tokenQuota.Some? then Stores(after, TokenQuota, Real(p.tokenQuota.value)) else Keeps(before, after, TokenQuota))
    && (if p.rpmLimit.None? then Keeps(before, after, RpmLimit)
        else if b.Sqlite? || p.rpmLimit.value <= 0x7fff_ffff then Stores(after, RpmLimit, Int(p.rpmLimit.value))
        else Stores(after, RpmLimit, Int(p.rpmLimit.value - 0x1_0000_0000)))
    && (if p.scopes.Some? then Stores(after, Scopes, Text(p.scopes.value)) else Keeps(before, after, Scopes))
    && (if p.webhookUrl.Some? then Stores(after, WebhookUrl, Text(p.webhookUrl.value)) else Keeps(before, after, WebhookUrl))
    && (if p.expiresAt.Some? then Stores(after, ExpiresAt, Time(p.expiresAt.value)) else Keeps(before, after, ExpiresAt))
    && (if p.isActive.Some? then Stores(after, IsActive, Bool(p.isActive.value)) else Keeps(before, after, IsActive))
    && (forall c | c !in {Name, TokenQuota, RpmLimit, Scopes, WebhookUrl, ExpiresAt, IsActive} :: Keeps(before, after, c))
  }

  ghost predicate UserPatched(before: Row, after: Row, p: UserPatch, now: int) {
    && (if p.role.Some? then Stores(after, UserRole, Text(p.role.value)) else Keeps(before, after, UserRole))
    && (if p.isActive.Some? then Stores(after, IsActive, Bool(p.isActive.value)) else Keeps(before, after, IsActive))
    && (if p.passwordHash.Some? then Stores(after, PasswordHash, Text(p.passwordHash.value)) else Keeps(before, after, PasswordHash))
    && Stores(after, UpdatedAt, Time(now))
    && (forall c | c !in {UserRole, IsActive, PasswordHash, UpdatedAt} :: Keeps(before, after, c))
  }

  // Every row but the named one is as before, and none is added or removed.
  ghost predicate OnlyRow(before: Table, after: Table, id: string) {
    after.Keys == before.Keys && forall x | x in before && x != id :: after[x] == before[x]
  }

  lemma PatchedColumn(before: Row, supplied: Row, c: Column)
    ensures if c in supplied then Stores(before + supplied, c, supplied[c]) else Keeps(before, before + supplied, c)
  {
  }

  lemma ApiKeySuppliedColumn(b: Backend, p: ApiKeyPatch, c: Column)
    ensures var s := ApiKeySupplied(b, p);
            && (c in s <==> c in API_KEY_COLUMNS && ApiKeyValue(b, p, c).Some?)
            && (c in s ==> s[c] == ApiKeyValue(b, p, c).value)
  {
  }

  lemma ApiKeyRow(b: Backend, before: Row, p: ApiKeyPatch)
    ensures ApiKeyPatched(b, before, before + ApiKeySupplied(b, p), p)
  {
    hide ApiKeySupplied, Stores, Keeps;
    var supplied := ApiKeySupplied(b, p);
    forall c
      ensures if c in supplied then Stores(before + supplied, c, supplied[c]) else Keeps(before, before + supplied, c)
      ensures c in supplied <==> c in API_KEY_COLUMNS && ApiKeyValue(b, p, c).Some?
      ensures c in supplied ==> supplied[c] == ApiKeyValue(b, p, c).value
    {
      PatchedColumn(before, supplied, c);
      ApiKeySuppliedColumn(b, p, c);
    }
  }

  lemma ApiKeyColumns(b: Backend, table: Table, id: string, p: ApiKeyPatch)
    ensures var after := Patched(table, id, ApiKeySupplied(b, p));
            OnlyRow(table, after, id) && (id in table ==> ApiKeyPatched(b, table[id], after[id], p))
  {
    hide ApiKeySupplied, ApiKeyPatched;
    if id in table {
      ApiKeyRow(b, table[id], p);
    }
  }

  lemma UserSuppliedColumn(p: UserPatch, now: int, c: Column)
    ensures var s := UserSupplied(p, now);
            && (c in s <==> c == UpdatedAt || (c in USER_COLUMNS && UserValue(p, c).Some?))
            && (c in s ==> s[c] == if c == UpdatedAt then Time(now) else UserValue(p, c).value)
  {
  }

  lemma UserRow(before: Row, p: UserPatch, now: int)
    ensures UserPatched(before, before + UserSupplied(p, now), p, now)
  {
    hide UserSupplied, Stores, Keeps;
    var supplied := UserSupplied(p, now);
    forall c
      ensures if c in supplied then Stores(before + supplied, c, supplied[c]) else Keeps(before, before + supplied, c)
      ensures c in supplied <==> c == UpdatedAt || (c in USER_COLUMNS && UserValue(p, c).Some?)
      ensures c in supplied ==> supplied[c] == if c == UpdatedAt then Time(now) else UserValue(p, c).value
    {
      PatchedColumn(before, supplied, c);
      UserSuppliedColumn(p, now, c);
    }
    assert UpdatedAt in supplied;
    assert UserRole in supplied <==> p.role.Some?;
    assert IsActive in supplied <==> p.isActive.Some?;
    assert PasswordHash in supplied <==> p.passwordHash.Some?;
  }

  lemma UserColumns(table: Table, id: string, p: UserPatch, now: int)
    ensures var after := Patched(table, id, UserSupplied(p, now));
            OnlyRow(table, after, id) && (id in table ==> UserPatched(table[id], after[id], p, now))
  {
    hide UserSupplied, UserPatched;
    if id in table {
      UserRow(table[id], p, now);
    }
  }

  // ---- Builders ------------------------------------------------------------

  type Field = (Column, Value)

  function With(fs: seq<Field>, c: Column, o: Option<Value>): seq<Field> {
    if o.Some? then fs + [(c, o.value)] else fs
  }

  // The supplied fields in the order in which both passes visit them.
  function ApiKeyFields(b: Backend, p: ApiKeyPatch): seq<Field> {
    var f1 := With([], Name, ApiKeyValue(b, p, Name));
    var f2 := With(f1, TokenQuota, ApiKeyValue(b, p, TokenQuota));
    var f3 := With(f2, RpmLimit, ApiKeyValue(b, p, RpmLimit));
    var f4 := With(f3, Scopes, ApiKeyValue(b, p, Scopes));
    var f5 := With(f4, WebhookUrl, ApiKeyValue(b, p, WebhookUrl));
    var f6 := With(f5, ExpiresAt, ApiKeyValue(b, p, ExpiresAt));
    With(f6, IsActive, ApiKeyValue(b, p, IsActive))
  }

  function UserFields(p: UserPatch): seq<Field> {
    var f1 := With([], UserRole, UserValue(p, UserRole));
    var f2 := With(f1, IsActive, UserValue(p, IsActive));
    With(f2, PasswordHash, UserValue(p, PasswordHash))
  }

  function Values(fs: seq<Field>): seq<Value> {
    if fs == [] then [] else Values(fs[..|fs| - 1]) + [fs[|fs| - 1].1]
  }

  function Clauses(fs: seq<Field>, numbered: bool): seq<SetClause> {
    if fs == [] then []
    else Clauses(fs[..|fs| - 1], numbered) + [SetClause(fs[|fs| - 1].0, if numbered then Numbered(|fs|) else Positional)]
  }

  function MapOf(fs: seq<Field>): Row {
    if fs == [] then map[] else MapOf(fs[..|fs| - 1])[fs[|fs| - 1].0 := fs[|fs| - 1].1]
  }

  lemma {:induction false} Lengths(fs: seq<Field>, numbered: bool)
    ensures |Values(fs)| == |fs| && |Clauses(fs, numbered)| == |fs|
    ensures Positionals(Clauses(fs, numbered)) == if numbered then 0 else |fs|
  {
    if fs != [] {
      var init := Clauses(fs[..|fs| - 1], numbered);
      Lengths(fs[..|fs| - 1], numbered);
      assert Clauses(fs, numbered)[..|fs| - 1] == init;
    }
  }

  lemma Append(fs: seq<Field>, c: Column, o: Option<Value>, numbered: bool)
    ensures Values(With(fs, c, o)) == Values(fs) + if o.Some? then [o.value] else []
    ensures Clauses(With(fs, c, o), numbered) ==
            Clauses(fs, numbered) + if o.Some? then [SetClause(c, if numbered then Numbered(|fs| + 1) else Positional)] else []
    ensures MapOf(With(fs, c, o)) == if o.Some? then MapOf(fs)[c := o.value] else MapOf(fs)
  {
    if o.Some? {
      assert With(fs, c, o)[..|fs|] == fs;
    } else {
      assert Values(fs) + [] == Values(fs) && Clauses(fs, numbered) + [] == Clauses(fs, numbered);
    }
  }

  lemma AssignedNext(sets: seq<SetClause>, clause: SetClause, binds: seq<Value>, now: int)
    requires Assigned(sets, binds, now).Some? && TermValue(clause.term, Positionals(sets), binds, now).Some?
    ensures Assigned(sets + [clause], binds, now)
            == Some(Assigned(sets, binds, now).value[clause.column := TermValue(clause.term, Positionals(sets), binds, now).value])
  {
    assert (sets + [clause])[..|sets|] == sets;
  }

  lemma PositionalsNext(sets: seq<SetClause>, clause: SetClause)
    ensures Positionals(sets + [clause]) == Positionals(sets) + if clause.term.Positional? then 1 else 0
  {
    assert (sets + [clause])[..|sets|] == sets;
  }

  lemma LastField(fs: seq<Field>, numbered: bool)
    requires fs != []
    ensures var (init, f) := (fs[..|fs| - 1], fs[|fs| - 1]);
            && Values(fs) == Values(init) + [f.1]
            && Clauses(fs, numbered) == Clauses(init, numbered) + [SetClause(f.0, if numbered then Numbered(|fs|) else Positional)]
            && MapOf(fs) == MapOf(init)[f.0 := f.1]
  {
  }

  lemma NoAssignment(binds: seq<Value>, now: int)
    ensures Assigned([], binds, now) == Some(map[])
  {
  }

  lemma {:induction false} ClausesAssign(fs: seq<Field>, numbered: bool, tail: seq<Value>, now: int)
    ensures Assigned(Clauses(fs, numbered), Values(fs) + tail, now) == Some(MapOf(fs))
  {
    hide Assigned, Positionals, Clauses, Values, MapOf;
    if fs == [] {
      EmptyFields(numbered);
      NoAssignment(Values(fs) + tail, now);
    } else {
      var (init, f) := (fs[..|fs| - 1], fs[|fs| - 1]);
      Lengths(init, numbered);
      LastField(fs, numbered);
      ClausesAssign(init, numbered, [f.1] + tail, now);
      assert Values(fs) + tail == Values(init) + ([f.1] + tail);
      AssignedNext(Clauses(init, numbered), SetClause(f.0, if numbered then Numbered(|fs|) else Positional), Values(fs) + tail, now);
    }
  }

  // Executing a built statement with its bind list patches exactly the row named by the last bind,
  // in either style.
  lemma BuiltStatement(fs: seq<Field>, numbered: bool, table: Table, id: string, now: int)
    ensures var u := Update(Clauses(fs, numbered), if numbered then Numbered(|fs| + 1) else Positional);
            Executed(table, u, Values(fs) + [Text(id)], now)
              == Some((Patched(table, id, MapOf(fs)), if id in table then 1 else 0))
  {
    hide Clauses, Values, MapOf, Assigned, Positionals;
    Lengths(fs, numbered);
    ClausesAssign(fs, numbered, [Text(id)], now);
  }

  // A clause that takes no parameter, placed before the row's own, disturbs no other binding.
  lemma StampedStatement(fs: seq<Field>, numbered: bool, table: Table, id: string, now: int)
    ensures var u := Update(Clauses(fs, numbered) + [SetClause(UpdatedAt, Now)],
                            if numbered then Numbered(|fs| + 1) else Positional);
            Executed(table, u, Values(fs) + [Text(id)], now)
              == Some((Patched(table, id, MapOf(fs)[UpdatedAt := Time(now)]), if id in table then 1 else 0))
  {
    hide Clauses, Values, MapOf, Assigned, Positionals;
    Lengths(fs, numbered);
    ClausesAssign(fs, numbered, [Text(id)], now);
    AssignedNext(Clauses(fs, numbered), SetClause(UpdatedAt, Now), Values(fs) + [Text(id)], now);
    PositionalsNext(Clauses(fs, numbered), SetClause(UpdatedAt, Now));
  }

  function Look(m: Row, c: Column): Option<Value> {
    if c in m then Some(m[c]) else None
  }

  lemma LookWith(fs: seq<Field>, c: Column, o: Option<Value>, x: Column)
    ensures Look(MapOf(With(fs, c, o)), x) == if x == c && o.Some? then o else Look(MapOf(fs), x)
  {
    Append(fs, c, o, false);
  }

  lemma LookApiKey(b: Backend, p: ApiKeyPatch, x: Column)
    ensures Look(MapOf(ApiKeyFields(b, p)), x) == if x in API_KEY_COLUMNS then ApiKeyValue(b, p, x) else None
  {
    hide ApiKeyValue, MapOf, With, Look;
    var f1 := With([], Name, ApiKeyValue(b, p, Name));
    var f2 := With(f1, TokenQuota, ApiKeyValue(b, p, TokenQuota));
    var f3 := With(f2, RpmLimit, ApiKeyValue(b, p, RpmLimit));
    var f4 := With(f3, Scopes, ApiKeyValue(b, p, Scopes));
    var f5 := With(f4, WebhookUrl, ApiKeyValue(b, p, WebhookUrl));
    var f6 := With(f5, ExpiresAt, ApiKeyValue(b, p, ExpiresAt));
    LookEmpty(x);
    LookWith([], Name, ApiKeyValue(b, p, Name), x);
    LookWith(f1, TokenQuota, ApiKeyValue(b, p, TokenQuota), x);
    LookWith(f2, RpmLimit, ApiKeyValue(b, p, RpmLimit), x);
    LookWith(f3, Scopes, ApiKeyValue(b, p, Scopes), x);
    LookWith(f4, WebhookUrl, ApiKeyValue(b, p, WebhookUrl), x);
    LookWith(f5, ExpiresAt, ApiKeyValue(b, p, ExpiresAt), x);
    LookWith(f6, IsActive, ApiKeyValue(b, p, IsActive), x);
  }

  lemma LookEmpty(x: Column)
    ensures Look(MapOf([]), x) == None
  {
  }

  lemma ApiKeyMeaning(b: Backend, p: ApiKeyPatch)
    ensures MapOf(ApiKeyFields(b, p)) == ApiKeySupplied(b, p)
  {
    hide ApiKeyValue, MapOf, ApiKeyFields;
    var m := MapOf(ApiKeyFields(b, p));
    forall x
      ensures Look(m, x) == Look(ApiKeySupplied(b, p), x)
    {
      LookApiKey(b, p, x);
    }
    SameMap(m, ApiKeySupplied(b, p));
  }

  lemma SameMap(m: Row, n: Row)
    requires forall x :: Look(m, x) == Look(n, x)
    ensures m == n
  {
    assert forall x :: x in m ==> Look(m, x) == Some(m[x]);
    assert forall x :: x in n ==> Look(n, x) == Some(n[x]);
  }

  lemma UserMeaning(p: UserPatch, now: int)
    ensures MapOf(UserFields(p))[UpdatedAt := Time(now)] == UserSupplied(p, now)
  {
    hide UserValue, MapOf, With;
    EmptyFields(false);
    var f1 := With([], UserRole, UserValue(p, UserRole));
    var f2 := With(f1, IsActive, UserValue(p, IsActive));
    forall x
      ensures Look(MapOf(UserFields(p)), x) == if x in USER_COLUMNS then UserValue(p, x) else None
    {
      LookEmpty(x);
      LookWith([], UserRole, UserValue(p, UserRole), x);
      LookWith(f1, IsActive, UserValue(p, IsActive), x);
      LookWith(f2, PasswordHash, UserValue(p, PasswordHash), x);
    }
    hide UserFields;
    SameMap(MapOf(UserFields(p)), map c | c in USER_COLUMNS && UserValue(p, c).Some? :: UserValue(p, c).value);
  }

  lemma EmptyFields(numbered: bool)
    ensures MapOf([]) == map[] && Values([]) == [] && Clauses([], numbered) == []
  {
  }

  // The two backends store the same row for every patch whose rate limit fits an i32, and for no other.
  lemma BackendsAgree(table: Table, id: string, p: ApiKeyPatch)
    ensures Patched(table, id, ApiKeySupplied(Sqlite, p)) == Patched(table, id, ApiKeySupplied(Postgres, p)) <==>
            id !in table || p.rpmLimit.None? || p.rpmLimit.value < 0x8000_0000
  {
    var (s, q) := (ApiKeySupplied(Sqlite, p), ApiKeySupplied(Postgres, p));
    if id in table && p.rpmLimit.Some? {
      assert RpmLimit in s && RpmLimit in q;
      assert Patched(table, id, s)[id][RpmLimit] == s[RpmLimit];
      assert Patched(table, id, q)[id][RpmLimit] == q[RpmLimit];
    }
    if p.rpmLimit.None? || p.rpmLimit.value < 0x8000_0000 {
      assert s == q;
    }
  }

  lemma EmptyPatch(table: Table, id: string)
    ensures Patched(table, id, map[]) == table
  {
    if id in table {
      assert table[id] + map[] == table[id];
      assert table[id := table[id]] == table;
    }
  }

  // One optional field of the first pass, with a positional parameter ...
  method PushPositional(sets: seq<SetClause>, ghost fs: seq<Field>, c: Column, given: bool, ghost o: Option<Value>)
    returns (pushed: seq<SetClause>, ghost fs': seq<Field>)
    requires sets == Clauses(fs, false) && given == o.Some?
    ensures fs' == With(fs, c, o) && pushed == Clauses(fs', false)
  {
    hide Clauses;
    Append(fs, c, o, false);
    fs' := With(fs, c, o);
    pushed := sets;
    if given { pushed := sets + [SetClause(c, Positional)]; }
  }

  // ... or with the next number.
  method PushNumbered(sets: seq<SetClause>, paramIdx: nat, ghost fs: seq<Field>, c: Column, given: bool, ghost o: Option<Value>)
    returns (pushed: seq<SetClause>, next: nat, ghost fs': seq<Field>)
    requires sets == Clauses(fs, true) && paramIdx == |fs| + 1 && given == o.Some?
    ensures fs' == With(fs, c, o) && pushed == Clauses(fs', true) && next == |fs'| + 1
  {
    hide Clauses;
    Append(fs, c, o, true);
    fs' := With(fs, c, o);
    pushed, next := sets, paramIdx;
    if given {
      pushed := sets + [SetClause(c, Numbered(paramIdx))];
      next := paramIdx + 1;
    }
  }

  // One optional field of the second pass.
  method PushBind(binds: seq<Value>, ghost fs: seq<Field>, ghost c: Column, o: Option<Value>)
    returns (pushed: seq<Value>, ghost fs': seq<Field>)
    requires binds == Values(fs)
    ensures fs' == With(fs, c, o) && pushed == Values(fs')
  {
    hide Values;
    Append(fs, c, o, false);
    fs' := With(fs, c, o);
    pushed := binds;
    if o.Some? { pushed := binds + [o.value]; }
  }

  class SqliteDatabase {
    var apiKeys: Table
    var users: Table

    // The first pass: the SET list of an API key update and the term that names its row.
    method ApiKeySets(req: ApiKeyPatch) returns (sets: seq<SetClause>, idTerm: Term)
      ensures sets == Clauses(ApiKeyFields(Sqlite, req), false)
      ensures idTerm == Positional
    {
      hide Clauses, With;
      sets := [];
      ghost var fs: seq<Field> := [];
      EmptyFields(false);
      sets, fs := PushPositional(sets, fs, Name, req.name.Some?, ApiKeyValue(Sqlite, req, Name));
      sets, fs := PushPositional(sets, fs, TokenQuota, req.tokenQuota.Some?, ApiKeyValue(Sqlite, req, TokenQuota));
      sets, fs := PushPositional(sets, fs, RpmLimit, req.rpmLimit.Some?, ApiKeyValue(Sqlite, req, RpmLimit));
      sets, fs := PushPositional(sets, fs, Scopes, req.scopes.Some?, ApiKeyValue(Sqlite, req, Scopes));
      sets, fs := PushPositional(sets, fs, WebhookUrl, req.webhookUrl.Some?, ApiKeyValue(Sqlite, req, WebhookUrl));
      sets, fs := PushPositional(sets, fs, ExpiresAt, req.expiresAt.Some?, ApiKeyValue(Sqlite, req, ExpiresAt));
      sets, fs := PushPositional(sets, fs, IsActive, req.isActive.Some?, ApiKeyValue(Sqlite, req, IsActive));
      idTerm := Positional;
    }

    // The second pass: the values to bind.
    method ApiKeyBinds(req: ApiKeyPatch) returns (binds: seq<Value>)
      ensures binds == Values(ApiKeyFields(Sqlite, req))
    {
      hide Values, With;
      binds := [];
      ghost var fs: seq<Field> := [];
      EmptyFields(false);
      binds, fs := PushBind(binds, fs, Name, OptText(req.name));
      binds, fs := PushBind(binds, fs, TokenQuota, if req.tokenQuota.Some? then Some(Real(req.tokenQuota.value)) else None);
      binds, fs := PushBind(binds, fs, RpmLimit, if req.rpmLimit.Some? then Some(Int(req.rpmLimit.value)) else None);
      binds, fs := PushBind(binds, fs, Scopes, OptText(req.scopes));
      binds, fs := PushBind(binds, fs, WebhookUrl, OptText(req.webhookUrl));
      binds, fs := PushBind(binds, fs, ExpiresAt, if req.expiresAt.Some? then Some(Time(req.expiresAt.value)) else None);
      binds, fs := PushBind(binds, fs, IsActive, OptBool(req.isActive));
    }

    method UpdateApiKey(id: string, req: ApiKeyPatch, now: int) returns (r: Option<Row>)
      modifies this`apiKeys
      ensures apiKeys == Patched(old(apiKeys), id, ApiKeySupplied(Sqlite, req))
      ensures OnlyRow(old(apiKeys), apiKeys, id)
      ensures id in old(apiKeys) ==> ApiKeyPatched(Sqlite, old(apiKeys)[id], apiKeys[id], req)
      ensures r == if id in apiKeys then Some(apiKeys[id]) else None
    {
      hide Clauses, Values, MapOf, ApiKeyFields, ApiKeySupplied, Executed, ApiKeyPatched, Patched;
      ApiKeyColumns(Sqlite, apiKeys, id, req);
      var sets, idTerm := ApiKeySets(req);
      ApiKeyMeaning(Sqlite, req);
      BuiltStatement(ApiKeyFields(Sqlite, req), false, apiKeys, id, now);
      if sets == [] {
        Lengths(ApiKeyFields(Sqlite, req), false);
        EmptyFields(false);
        EmptyPatch(apiKeys, id);
        return Lookup(apiKeys, id);
      }
      var binds := ApiKeyBinds(req);
      var out := Executed(apiKeys, Update(sets, idTerm), binds + [Text(id)], now);
      apiKeys := out.value.0;
      r := if out.value.1 == 0 then None else Lookup(apiKeys, id);
    }

    method UserSets(role: Option<string>, isActive: Option<bool>, passwordHash: Option<string>)
      returns (sets: seq<SetClause>, idTerm: Term)
      ensures var fs := UserFields(UserPatch(role, isActive, passwordHash));
              && sets == Clauses(fs, false) + [SetClause(UpdatedAt, Now)]
              && idTerm == Positional
    {
      hide Clauses, With;
      ghost var p := UserPatch(role, isActive, passwordHash);
      sets := [];
      ghost var fs: seq<Field> := [];
      EmptyFields(false);
      sets, fs := PushPositional(sets, fs, UserRole, role.Some?, UserValue(p, UserRole));
      sets, fs := PushPositional(sets, fs, IsActive, isActive.Some?, UserValue(p, IsActive));
      sets, fs := PushPositional(sets, fs, PasswordHash, passwordHash.Some?, UserValue(p, PasswordHash));
      sets := sets + [SetClause(UpdatedAt, Now)];
      idTerm := Positional;
    }

    method UserBinds(role: Option<string>, isActive: Option<bool>, passwordHash: Option<string>)
      returns (binds: seq<Value>)
      ensures binds == Values(UserFields(UserPatch(role, isActive, passwordHash)))
    {
      hide Values, With;
      binds := [];
      ghost var fs: seq<Field> := [];
      EmptyFields(false);
      binds, fs := PushBind(binds, fs, UserRole, OptText(role));
      binds, fs := PushBind(binds, fs, IsActive, OptBool(isActive));
      binds, fs := PushBind(binds, fs, PasswordHash, OptText(passwordHash));
    }

    method UpdateUser(id: string, role: Option<string>, isActive: Option<bool>, passwordHash: Option<string>, now: int)
      returns (r: Option<Row>)
      modifies this`users
      ensures users == Patched(old(users), id, UserSupplied(UserPatch(role, isActive, passwordHash), now))
      ensures OnlyRow(old(users), users, id)
      ensures id in old(users) ==> UserPatched(old(users)[id], users[id], UserPatch(role, isActive, passwordHash), now)
      ensures r == if id in users then Some(users[id]) else None
    {
      hide Clauses, Values, MapOf, UserFields, UserSupplied, Executed, UserPatched, Patched;
      ghost var p := UserPatch(role, isActive, passwordHash);
      UserColumns(users, id, p, now);
      var sets, idTerm := UserSets(role, isActive, passwordHash);
      var binds := UserBinds(role, isActive, passwordHash);
      UserMeaning(p, now);
      StampedStatement(UserFields(p), false, users, id, now);
      var out := Executed(users, Update(sets, idTerm), binds + [Text(id)], now);
      users := out.value.0;
      r := if out.value.1 == 0 then None else Lookup(users, id);
    }
  }

  class PostgresDatabase {
    var apiKeys: Table
    var users: Table

    // The first pass: the SET list of an API key update and the term that names its row.
    method ApiKeySets(req: ApiKeyPatch) returns (sets: seq<SetClause>, idTerm: Term)
      ensures sets == Clauses(ApiKeyFields(Postgres, req), true)
      ensures idTerm == Numbered(|ApiKeyFields(Postgres, req)| + 1)
    {
      hide Clauses, With;
      sets := [];
      var paramIdx := 1;
      ghost var fs: seq<Field> := [];
      EmptyFields(true);
      sets, paramIdx, fs := PushNumbered(sets, paramIdx, fs, Name, req.name.Some?, ApiKeyValue(Postgres, req, Name));
      sets, paramIdx, fs := PushNumbered(sets, paramIdx, fs, TokenQuota, req.tokenQuota.Some?, ApiKeyValue(Postgres, req, TokenQuota));
      sets, paramIdx, fs := PushNumbered(sets, paramIdx, fs, RpmLimit, req.rpmLimit.Some?, ApiKeyValue(Postgres, req, RpmLimit));
      sets, paramIdx, fs := PushNumbered(sets, paramIdx, fs, Scopes, req.scopes.Some?, ApiKeyValue(Postgres, req, Scopes));
      sets, paramIdx, fs := PushNumbered(sets, paramIdx, fs, WebhookUrl, req.webhookUrl.Some?, ApiKeyValue(Postgres, req, WebhookUrl));
      sets, paramIdx, fs := PushNumbered(sets, paramIdx, fs, ExpiresAt, req.expiresAt.Some?, ApiKeyValue(Postgres, req, ExpiresAt));
      sets, paramIdx, fs := PushNumbered(sets, paramIdx, fs, IsActive, req.isActive.Some?, ApiKeyValue(Postgres, req, IsActive));
      idTerm := Numbered(paramIdx);
    }

    // The second pass: the values to bind.
    method ApiKeyBinds(req: ApiKeyPatch) returns (binds: seq<Value>)
      ensures binds == Values(ApiKeyFields(Postgres, req))
    {
      hide Values, With;
      binds := [];
      ghost var fs: seq<Field> := [];
      EmptyFields(true);
      binds, fs := PushBind(binds, fs, Name, OptText(req.name));
      binds, fs := PushBind(binds, fs, TokenQuota, if req.tokenQuota.Some? then Some(Real(req.tokenQuota.value)) else None);
      binds, fs := PushBind(binds, fs, RpmLimit, if req.rpmLimit.Some? then Some(Int(AsI32(req.rpmLimit.value))) else None);
      binds, fs := PushBind(binds, fs, Scopes, OptText(req.scopes));
      binds, fs := PushBind(binds, fs, WebhookUrl, OptText(req.webhookUrl));
      binds, fs := PushBind(binds, fs, ExpiresAt, if req.expiresAt.Some? then Some(Time(req.expiresAt.value)) else None);
      binds, fs := PushBind(binds, fs, IsActive, OptBool(req.isActive));
    }

    method UpdateApiKey(id: string, req: ApiKeyPatch, now: int) returns (r: Option<Row>)
      modifies this`apiKeys
      ensures apiKeys == Patched(old(apiKeys), id, ApiKeySupplied(Postgres, req))
      ensures OnlyRow(old(apiKeys), apiKeys, id)
      ensures id in old(apiKeys) ==> ApiKeyPatched(Postgres, old(apiKeys)[id], apiKeys[id], req)
      ensures r == if id in apiKeys then Some(apiKeys[id]) else None
    {
      hide Clauses, Values, MapOf, ApiKeyFields, ApiKeySupplied, Executed, ApiKeyPatched, Patched;
      ApiKeyColumns(Postgres, apiKeys, id, req);
      var sets, idTerm := ApiKeySets(req);
      ApiKeyMeaning(Postgres, req);
      BuiltStatement(ApiKeyFields(Postgres, req), true, apiKeys, id, now);
      if sets == [] {
        Lengths(ApiKeyFields(Postgres, req), true);
        EmptyFields(true);
        EmptyPatch(apiKeys, id);
        return Lookup(apiKeys, id);
      }
      var binds := ApiKeyBinds(req);
      var out := Executed(apiKeys, Update(sets, idTerm), binds + [Text(id)], now);
      apiKeys := out.value.0;
      r := if out.value.1 == 0 then None else Lookup(apiKeys, id);
    }

    method UserSets(role: Option<string>, isActive: Option<bool>, passwordHash: Option<string>)
      returns (sets: seq<SetClause>, idTerm: Term)
      ensures var fs := UserFields(UserPatch(role, isActive, passwordHash));
              && sets == Clauses(fs, true) + [SetClause(UpdatedAt, Now)]
              && idTerm == Numbered(|fs| + 1)
    {
      hide Clauses, With;
      ghost var p := UserPatch(role, isActive, passwordHash);
      sets := [];
      var paramIdx := 1;
      ghost var fs: seq<Field> := [];
      EmptyFields(true);
      sets, paramIdx, fs := PushNumbered(sets, paramIdx, fs, UserRole, role.Some?, UserValue(p, UserRole));
      sets, paramIdx, fs := PushNumbered(sets, paramIdx, fs, IsActive, isActive.Some?, UserValue(p, IsActive));
      sets, paramIdx, fs := PushNumbered(sets, paramIdx, fs, PasswordHash, passwordHash.Some?, UserValue(p, PasswordHash));
      sets := sets + [SetClause(UpdatedAt, Now)];
      idTerm := Numbered(paramIdx);
    }

    method UserBinds(role: Option<string>, isActive: Option<bool>, passwordHash: Option<string>)
      returns (binds: seq<Value>)
      ensures binds == Values(UserFields(UserPatch(role, isActive, passwordHash)))
    {
      hide Values, With;
      binds := [];
      ghost var fs: seq<Field> := [];
      EmptyFields(true);
      binds, fs := PushBind(binds, fs, UserRole, OptText(role));
      binds, fs := PushBind(binds, fs, IsActive, OptBool(isActive));
      binds, fs := PushBind(binds, fs, PasswordHash, OptText(passwordHash));
    }

    method UpdateUser(id: string, role: Option<string>, isActive: Option<bool>, passwordHash: Option<string>, now: int)
      returns (r: Option<Row>)
      modifies this`users
      ensures users == Patched(old(users), id, UserSupplied(UserPatch(role, isActive, passwordHash), now))
      ensures OnlyRow(old(users), users, id)
      ensures id in old(users) ==> UserPatched(old(users)[id], users[id], UserPatch(role, isActive, passwordHash), now)
      ensures r == if id in users then Some(users[id]) else None
    {
      hide Clauses, Values, MapOf, UserFields, UserSupplied, Executed, UserPatched, Patched;
      ghost var p := UserPatch(role, isActive, passwordHash);
      UserColumns(users, id, p, now);
      var sets, idTerm := UserSets(role, isActive, passwordHash);
      var binds := UserBinds(role, isActive, passwordHash);
      UserMeaning(p, now);
      StampedStatement(UserFields(p), true, users, id, now);
      var out := Executed(users, Update(sets, idTerm), binds + [Text(id)], now);
      users := out.value.0;
      r := if out.value.1 == 0 then None else Lookup(users, id);
    }
  }
}
