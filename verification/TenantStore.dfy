/**
  Deleting an organization or an application: one transaction of DELETE
  statements over tables whose rows reference each other. The backends run the
  same statements but enforce different foreign keys: SQLite puts none on the
  tenant columns that were added to existing tables.
 */
module TenantStore {
  import opened Common

  datatype Table =
    | WebhookDeliveries | RequestArtifacts | RequestLogs | Generations | ApiKeys
    | AuditLog | Invitations | OrgProviderCredentials | OrgAllowedModels | OrganizationMembers
    | AppModelAccessIds | AppModelAccess | AppStorageCredentials
    | Applications | Organizations | EndUsers

  // The columns that reference another table, and whatever else the row holds.
  datatype Row = Row(org: Option<string>, app: Option<string>, key: Option<string>, rest: string)

  type RowKey = (Table, string)
  type Database = map<RowKey, Row>

  predicate HasOrg(t: Table) {
    !(t.Organizations? || t.AppModelAccessIds? || t.AppModelAccess? || t.AppStorageCredentials?)
  }

  predicate HasApp(t: Table) {
    || t.WebhookDeliveries? || t.RequestArtifacts? || t.RequestLogs? || t.Generations? || t.ApiKeys?
    || t.AppModelAccessIds? || t.AppModelAccess? || t.AppStorageCredentials?
  }

  ghost predicate WellTyped(db: Database) {
    forall k | k in db ::
      && (db[k].org.Some? ==> HasOrg(k.0))
      && (db[k].app.Some? ==> HasApp(k.0))
      && (db[k].key.Some? ==> k.0.Generations?)
  }

  datatype Backend = Sqlite | Postgres

  // Whether the backend checks what the organization and the application of a row of this table name.
  predicate ChecksOrg(b: Backend, t: Table) {
    || b.Postgres?
    || t.OrganizationMembers? || t.Applications? || t.OrgProviderCredentials? || t.OrgAllowedModels? || t.EndUsers?
  }

  predicate ChecksApp(b: Backend, t: Table) {
    b.Postgres? || t.AppModelAccessIds? || t.AppModelAccess? || t.AppStorageCredentials?
  }

  predicate RefersInto(b: Backend, t: Table, row: Row, db: Database) {
    && (row.org.Some? && ChecksOrg(b, t) ==> (Organizations, row.org.value) in db)
    && (row.app.Some? && ChecksApp(b, t) ==> (Applications, row.app.value) in db)
    && (row.key.Some? ==> (ApiKeys, row.key.value) in db)
  }

  // No checked reference dangles.
  predicate References(b: Backend, db: Database) {
    forall k | k in db :: RefersInto(b, k.0, db[k], db)
  }

  // ---- Statements ----------------------------------------------------------

  datatype Statement =
    | ByOrg(table: Table, id: string)
    | ByApp(table: Table, id: string)
    | ByAppsOfOrg(table: Table, id: string)
    | ById(table: Table, id: string)

  predicate AppOfOrg(db: Database, app: string, org: string) {
    (Applications, app) in db && db[(Applications, app)].org == Some(org)
  }

  predicate Matches(db: Database, s: Statement, k: RowKey)
    requires k in db
  {
    && k.0 == s.table
    && match s
       case ByOrg(_, id) => db[k].org == Some(id)
       case ByApp(_, id) => db[k].app == Some(id)
       case ByAppsOfOrg(_, id) => db[k].app.Some? && AppOfOrg(db, db[k].app.value, id)
       case ById(_, id) => k.1 == id
  }

  // The rows of an ON DELETE CASCADE table go with the row they reference.
  predicate Cascades(db: Database, s: Statement, k: RowKey)
    requires k in db
  {
    || (&& (k.0.OrgProviderCredentials? || k.0.OrgAllowedModels? || k.0.EndUsers?)
        && db[k].org.Some? && (Organizations, db[k].org.value) in db
        && Matches(db, s, (Organizations, db[k].org.value)))
    || (&& (k.0.AppModelAccess? || k.0.AppModelAccessIds?)
        && db[k].app.Some? && (Applications, db[k].app.value) in db
        && Matches(db, s, (Applications, db[k].app.value)))
  }

  function Deleted(db: Database, s: Statement): Database {
    map k | k in db && !Matches(db, s, k) && !Cascades(db, s, k) :: db[k]
  }

  datatype Violation = Violation(statement: Statement)

  // Statements in order, each refused if it would leave a dangling reference.
  function Execute(b: Backend, db: Database, ss: seq<Statement>): Result<Database, Violation> {
    if ss == [] then Ok(db)
    else
      match Execute(b, db, ss[..|ss| - 1])
      case Err(v) => Err(v)
      case Ok(d) =>
        var s := ss[|ss| - 1];
        if References(b, Deleted(d, s)) then Ok(Deleted(d, s)) else Err(Violation(s))
  }

  // Once refused, a run stays refused for the same reason.
  lemma {:induction false} StillRefused(b: Backend, db: Database, ss: seq<Statement>, tt: seq<Statement>)
    requires Execute(b, db, ss).Err?
    ensures Execute(b, db, ss + tt) == Execute(b, db, ss)
  {
    hide References, Deleted;
    if tt == [] {
      assert ss + tt == ss;
    } else {
      assert (ss + tt)[..|ss + tt| - 1] == ss + tt[..|tt| - 1];
      StillRefused(b, db, ss, tt[..|tt| - 1]);
    }
  }

  datatype Deletion = Organization(id: string) | Application(id: string)

  function OrgScoped(id: string): seq<Statement> {
    [ByOrg(WebhookDeliveries, id), ByOrg(RequestArtifacts, id), ByOrg(RequestLogs, id), ByOrg(Generations, id),
     ByOrg(ApiKeys, id), ByOrg(AuditLog, id), ByOrg(Invitations, id), ByOrg(OrgProviderCredentials, id),
     ByOrg(OrgAllowedModels, id), ByOrg(OrganizationMembers, id)]
  }

  function AppsOfOrgScoped(id: string): seq<Statement> {
    [ByAppsOfOrg(AppModelAccessIds, id), ByAppsOfOrg(AppModelAccess, id), ByAppsOfOrg(AppStorageCredentials, id)]
  }

  function AppScoped(id: string): seq<Statement> {
    [ByApp(WebhookDeliveries, id), ByApp(RequestArtifacts, id), ByApp(RequestLogs, id), ByApp(Generations, id),
     ByApp(ApiKeys, id), ByApp(AppModelAccessIds, id), ByApp(AppModelAccess, id), ByApp(AppStorageCredentials, id)]
  }

  function Statements(d: Deletion): seq<Statement> {
    match d
    case Organization(id) => OrgScoped(id) + AppsOfOrgScoped(id) + [ByOrg(Applications, id), ById(Organizations, id)]
    case Application(id) => AppScoped(id) + [ById(Applications, id)]
  }

  class Store {
    const backend: Backend
    var db: Database

    // One statement inside the transaction.
    method Run(s: Statement) returns (ok: bool)
      modifies this
      ensures ok == References(backend, Deleted(old(db), s))
      ensures db == if ok then Deleted(old(db), s) else old(db)
    {
      var after := map k | k in db && !Matches(db, s, k) && !Cascades(db, s, k) :: db[k];
      ok := References(backend, after);
      if ok {
        db := after;
      }
    }

    // A run of statements, after those of `before`; stops at the first that is refused.
    method RunAll(ss: seq<Statement>, ghost start: Database, ghost before: seq<Statement>)
      returns (r: Result<(), Violation>)
      requires Execute(backend, start, before) == Ok(db)
      modifies this
      ensures r.Ok? ==> Execute(backend, start, before + ss) == Ok(db)
      ensures r.Err? ==> Execute(backend, start, before + ss) == Err(r.error)
    {
      hide References, Deleted;
      var i := 0;
      assert before + ss[..0] == before;
      while i < |ss|
        invariant 0 <= i <= |ss|
        invariant Execute(backend, start, before + ss[..i]) == Ok(db)
      {
        var ok := Run(ss[i]);
        assert (before + ss[..i + 1])[..|before| + i] == before + ss[..i];
        if !ok {
          assert before + ss[..i + 1] + ss[i + 1..] == before + ss;
          StillRefused(backend, start, before + ss[..i + 1], ss[i + 1..]);
          return Err(Violation(ss[i]));
        }
        i := i + 1;
      }
      assert ss[..i] == ss;
      r := Ok(());
    }

    method DeleteOrganization(id: string) returns (r: Result<bool, Violation>)
      modifies this
      ensures var out := Execute(backend, old(db), Statements(Organization(id)));
              && (out.Ok? ==> db == out.value && r == Ok((Organizations, id) in old(db)))
              && (out.Err? ==> db == old(db) && r == Err(out.error))
    {
      hide Execute;
      var start := db;
      ghost var (a, b, c, d) := (OrgScoped(id), AppsOfOrgScoped(id), [ByOrg(Applications, id)], [ById(Organizations, id)]);
      assert Execute(backend, start, []) == Ok(start) by { ExecuteNothing(backend, start); }
      assert Statements(Organization(id)) == a + b + c + d;
      assert [] + a == a && a + b + c + d == a + (b + c + d) == (a + b) + (c + d);
      OrganizationTables(id);
      hide Statements, OrgScoped, AppsOfOrgScoped;
      var done := RunAll(OrgScoped(id), start, []);
      if done.Err? {
        StillRefused(backend, start, a, b + c + d);
        db := start;
        return Err(done.error);
      }
      done := RunAll(AppsOfOrgScoped(id), start, a);
      if done.Err? {
        StillRefused(backend, start, a + b, c + d);
        db := start;
        return Err(done.error);
      }
      done := RunAll([ByOrg(Applications, id)], start, a + b);
      if done.Err? {
        StillRefused(backend, start, a + b + c, d);
        db := start;
        return Err(done.error);
      }
      var affected := (Organizations, id) in db;
      OrganizationKept(backend, start, a + b + c, id);
      done := RunAll([ById(Organizations, id)], start, a + b + c);
      if done.Err? {
        db := start;
        return Err(done.error);
      }
      r := Ok(affected);
    }

    method DeleteApplication(id: string) returns (r: Result<bool, Violation>)
      modifies this
      ensures var out := Execute(backend, old(db), Statements(Application(id)));
              && (out.Ok? ==> db == out.value && r == Ok((Applications, id) in old(db)))
              && (out.Err? ==> db == old(db) && r == Err(out.error))
    {
      hide Execute;
      var start := db;
      ghost var a := AppScoped(id);
      assert Execute(backend, start, []) == Ok(start) by { ExecuteNothing(backend, start); }
      assert [] + a == a && Statements(Application(id)) == a + [ById(Applications, id)];
      ApplicationTables(id);
      hide Statements, AppScoped;
      var done := RunAll(AppScoped(id), start, []);
      if done.Err? {
        StillRefused(backend, start, a, [ById(Applications, id)]);
        db := start;
        return Err(done.error);
      }
      var affected := (Applications, id) in db;
      ApplicationKept(backend, start, a, id);
      done := RunAll([ById(Applications, id)], start, a);
      if done.Err? {
        db := start;
        return Err(done.error);
      }
      r := Ok(affected);
    }
  }

  lemma OrganizationTables(id: string)
    ensures var ss := OrgScoped(id) + AppsOfOrgScoped(id) + [ByOrg(Applications, id)];
            forall i | 0 <= i < |ss| :: !ss[i].table.Organizations?
  {
  }

  lemma ApplicationTables(id: string)
    ensures forall i | 0 <= i < |AppScoped(id)| :: !AppScoped(id)[i].table.Applications?
  {
  }

  lemma ExecuteNothing(b: Backend, db: Database)
    ensures Execute(b, db, []) == Ok(db)
  {
  }

  // A row stays until a statement names its table; these two tables have no cascading references.
  lemma {:induction false} OrganizationKept(b: Backend, db: Database, ss: seq<Statement>, id: string)
    requires Execute(b, db, ss).Ok? && forall i | 0 <= i < |ss| :: !ss[i].table.Organizations?
    ensures (Organizations, id) in Execute(b, db, ss).value <==> (Organizations, id) in db
  {
    if ss != [] {
      OrganizationKept(b, db, ss[..|ss| - 1], id);
    }
  }

  lemma {:induction false} ApplicationKept(b: Backend, db: Database, ss: seq<Statement>, id: string)
    requires Execute(b, db, ss).Ok? && forall i | 0 <= i < |ss| :: !ss[i].table.Applications?
    ensures (Applications, id) in Execute(b, db, ss).value <==> (Applications, id) in db
  {
    if ss != [] {
      ApplicationKept(b, db, ss[..|ss| - 1], id);
    }
  }

  // ---- What is deleted -----------------------------------------------------

  // The rows that belong to the organization or the application.
  predicate Owned(db: Database, d: Deletion, k: RowKey)
    requires k in db
  {
    match d
    case Organization(id) =>
      || k == (Organizations, id)
      || db[k].org == Some(id)
      || (!HasOrg(k.0) && db[k].app.Some? && AppOfOrg(db, db[k].app.value, id))
    case Application(id) => k == (Applications, id) || db[k].app == Some(id)
  }

  // The place in the order of statements at which a table is cleared.
  function Rank(d: Deletion, t: Table): nat {
    match d
    case Organization(_) =>
      (match t
       case WebhookDeliveries => 0
       case RequestArtifacts => 1
       case RequestLogs => 2
       case Generations => 3
       case ApiKeys => 4
       case AuditLog => 5
       case Invitations => 6
       case OrgProviderCredentials => 7
       case OrgAllowedModels => 8
       case OrganizationMembers => 9
       case AppModelAccessIds => 10
       case AppModelAccess => 11
       case AppStorageCredentials => 12
       case Applications => 13
       case Organizations => 14
       case EndUsers => 14)
    case Application(_) =>
      match t
      case WebhookDeliveries => 0
      case RequestArtifacts => 1
      case RequestLogs => 2
      case Generations => 3
      case ApiKeys => 4
      case AppModelAccessIds => 5
      case AppModelAccess => 6
      case AppStorageCredentials => 7
      case _ => 8
  }

  // The database after the first `n` statements.
  function Stage(db: Database, d: Deletion, n: nat): Database {
    map k | k in db && !(Owned(db, d, k) && Rank(d, k.0) < n) :: db[k]
  }

  // A checked reference of the row points into what is deleted.
  predicate PointsIn(b: Backend, db: Database, d: Deletion, k: RowKey)
    requires k in db
  {
    || (&& db[k].app.Some? && ChecksApp(b, k.0) && (Applications, db[k].app.value) in db
        && Owned(db, d, (Applications, db[k].app.value)))
    || (db[k].key.Some? && (ApiKeys, db[k].key.value) in db && Owned(db, d, (ApiKeys, db[k].key.value)))
  }

  // No row of another owner points into what is deleted.
  ghost predicate Isolated(b: Backend, db: Database, d: Deletion) {
    forall k | k in db && !Owned(db, d, k) :: !PointsIn(b, db, d, k)
  }

  // What a deletion should leave.
  function Remaining(db: Database, d: Deletion): Database {
    map k | k in db && !Owned(db, d, k) :: db[k]
  }

  // Every row belongs to the same organization as its application, every generation to the same
  // organization and application as its key.
  ghost predicate TenancyConsistent(db: Database) {
    forall k | k in db ::
      && (db[k].app.Some? && HasOrg(k.0) && (Applications, db[k].app.value) in db ==>
          db[k].org == db[(Applications, db[k].app.value)].org)
      && (db[k].key.Some? && (ApiKeys, db[k].key.value) in db ==>
          && db[k].org == db[(ApiKeys, db[k].key.value)].org
          && db[k].app == db[(ApiKeys, db[k].key.value)].app)
  }

  lemma ConsistentIsIsolated(b: Backend, db: Database, d: Deletion)
    requires WellTyped(db) && TenancyConsistent(db)
    ensures Isolated(b, db, d)
  {
  }

  // The statement at each place in the order.
  lemma OrganizationStatementAt(id: string, n: nat)
    requires n < |Statements(Organization(id))|
    ensures var s := Statements(Organization(id))[n];
            && Rank(Organization(id), s.table) == n && !s.table.EndUsers?
            && s == if n < 10 || n == 13 then ByOrg(s.table, id)
                    else if n < 13 then ByAppsOfOrg(s.table, id)
                    else ById(Organizations, id)
  {
    var ss := Statements(Organization(id));
    if n < 10 {
      assert ss[n] == OrgScoped(id)[n];
    } else if n < 13 {
      assert ss[n] == AppsOfOrgScoped(id)[n - 10];
    }
  }

  lemma ApplicationStatementAt(id: string, n: nat)
    requires n < |Statements(Application(id))|
    ensures var s := Statements(Application(id))[n];
            && Rank(Application(id), s.table) == n
            && s == if n < 8 then ByApp(s.table, id) else ById(Applications, id)
  {
    if n < 8 {
      assert Statements(Application(id))[n] == AppScoped(id)[n];
    }
  }

  lemma OrganizationStatement(b: Backend, db: Database, id: string, n: nat, s: Statement, k: RowKey)
    requires WellTyped(db) && References(b, db) && k in Stage(db, Organization(id), n)
    requires Rank(Organization(id), s.table) == n && n < 14 && !s.table.EndUsers?
    requires s == if n < 10 || n == 13 then ByOrg(s.table, id) else ByAppsOfOrg(s.table, id)
    ensures var t := Stage(db, Organization(id), n);
            Matches(t, s, k) || Cascades(t, s, k) <==> Owned(db, Organization(id), k) && Rank(Organization(id), k.0) == n
  {
    hide References;
    var t := Stage(db, Organization(id), n);
    assert !Cascades(t, s, k);
    if n < 10 || n == 13 {
      assert HasOrg(s.table);
    } else {
      assert !HasOrg(s.table) && db[k].org.Some? ==> k.0 != s.table;
      assert forall app | (Applications, app) in db :: (Applications, app) in t;
    }
  }

  lemma LastOrganizationStatement(b: Backend, db: Database, id: string, k: RowKey)
    requires WellTyped(db) && References(b, db) && k in Stage(db, Organization(id), 14)
    ensures var (t, s) := (Stage(db, Organization(id), 14), ById(Organizations, id));
            Matches(t, s, k) || Cascades(t, s, k) <==> Owned(db, Organization(id), k) && Rank(Organization(id), k.0) == 14
  {
    assert RefersInto(b, k.0, db[k], db);
  }

  lemma ApplicationStatement(db: Database, id: string, n: nat, s: Statement, k: RowKey)
    requires WellTyped(db) && n <= 8 && k in Stage(db, Application(id), n)
    requires Rank(Application(id), s.table) == n
    requires s == if n < 8 then ByApp(s.table, id) else ById(Applications, id)
    ensures var t := Stage(db, Application(id), n);
            Matches(t, s, k) || Cascades(t, s, k) <==> Owned(db, Application(id), k) && Rank(Application(id), k.0) == n
  {
  }

  // Each statement clears exactly the owned rows of its own rank.
  lemma StageStep(b: Backend, db: Database, d: Deletion, n: nat)
    requires WellTyped(db) && References(b, db) && n < |Statements(d)|
    ensures Deleted(Stage(db, d, n), Statements(d)[n]) == Stage(db, d, n + 1)
  {
    var (s, t) := (Statements(d)[n], Stage(db, d, n));
    assert d.Organization? && n == 14 ==> s == ById(Organizations, d.id) by {
      if d.Organization? { OrganizationStatementAt(d.id, n); }
    }
    hide Statements, Matches, Cascades, Owned, Rank, WellTyped, References;
    forall k | k in t
      ensures Matches(t, s, k) || Cascades(t, s, k) <==> Owned(db, d, k) && Rank(d, k.0) == n
    {
      if d.Application? {
        ApplicationStep(db, d.id, n, s, k);
      } else if n < 14 {
        OrganizationStep(b, db, d.id, n, s, k);
      } else {
        LastOrganizationStatement(b, db, d.id, k);
      }
    }
  }

  lemma ApplicationStep(db: Database, id: string, n: nat, s: Statement, k: RowKey)
    requires WellTyped(db) && n < |Statements(Application(id))| && k in Stage(db, Application(id), n)
    requires s == Statements(Application(id))[n]
    ensures var t := Stage(db, Application(id), n);
            Matches(t, s, k) || Cascades(t, s, k) <==> Owned(db, Application(id), k) && Rank(Application(id), k.0) == n
  {
    ApplicationStatementAt(id, n);
    hide Matches, Cascades, Owned, WellTyped, Stage;
    ApplicationStatement(db, id, n, s, k);
  }

  lemma OrganizationStep(b: Backend, db: Database, id: string, n: nat, s: Statement, k: RowKey)
    requires WellTyped(db) && References(b, db) && n < 14 && k in Stage(db, Organization(id), n)
    requires s == Statements(Organization(id))[n]
    ensures var t := Stage(db, Organization(id), n);
            Matches(t, s, k) || Cascades(t, s, k) <==> Owned(db, Organization(id), k) && Rank(Organization(id), k.0) == n
  {
    OrganizationStatementAt(id, n);
    hide Matches, Cascades, Owned, WellTyped, Stage, References;
    OrganizationStatement(b, db, id, n, s, k);
  }

  // What a surviving row refers to survives with it.
  lemma SurvivorRefers(b: Backend, db: Database, d: Deletion, n: nat, k: RowKey)
    requires WellTyped(db) && References(b, db) && Isolated(b, db, d) && k in Stage(db, d, n)
    ensures RefersInto(b, k.0, db[k], Stage(db, d, n))
  {
    assert RefersInto(b, k.0, db[k], db);
    hide References;
    if d.Organization? {
    } else {
    }
  }

  lemma StageReferences(b: Backend, db: Database, d: Deletion, n: nat)
    requires WellTyped(db) && References(b, db) && Isolated(b, db, d) && n <= |Statements(d)|
    ensures References(b, Stage(db, d, n))
  {
    hide WellTyped, Isolated, Owned, Rank, RefersInto, Statements;
    var t := Stage(db, d, n);
    forall k | k in t
      ensures RefersInto(b, k.0, t[k], t)
    {
      SurvivorRefers(b, db, d, n, k);
    }
  }

  lemma RanksInside(d: Deletion)
    ensures Rank(d, Applications) < |Statements(d)| && Rank(d, ApiKeys) < |Statements(d)|
  {
  }

  // A foreign reference into the deleted rows breaks some stage: the one that deletes its target.
  lemma BrokenStage(b: Backend, db: Database, d: Deletion) returns (n: nat)
    requires WellTyped(db) && References(b, db) && !Isolated(b, db, d)
    ensures 1 <= n <= |Statements(d)| && !References(b, Stage(db, d, n))
  {
    RanksInside(d);
    hide Owned, Rank, Statements, WellTyped;
    var k :| k in db && !Owned(db, d, k) && PointsIn(b, db, d, k);
    n := if db[k].app.Some? && ChecksApp(b, k.0) && (Applications, db[k].app.value) in db && Owned(db, d, (Applications, db[k].app.value))
         then Rank(d, Applications) + 1 else Rank(d, ApiKeys) + 1;
    assert !RefersInto(b, k.0, Stage(db, d, n)[k], Stage(db, d, n));
  }

  lemma {:induction false} ExecuteStages(b: Backend, db: Database, d: Deletion, n: nat)
    requires WellTyped(db) && References(b, db) && n <= |Statements(d)|
    ensures Execute(b, db, Statements(d)[..n]).Ok? ==>
              && Execute(b, db, Statements(d)[..n]).value == Stage(db, d, n)
              && forall i | 1 <= i <= n :: References(b, Stage(db, d, i))
    ensures (forall i | 1 <= i <= n :: References(b, Stage(db, d, i))) ==> Execute(b, db, Statements(d)[..n]).Ok?
  {
    hide References, Deleted, Statements;
    var ss := Statements(d);
    if n == 0 {
      assert Stage(db, d, 0) == db;
    } else {
      hide Stage;
      assert ss[..n][..n - 1] == ss[..n - 1];
      ExecuteStages(b, db, d, n - 1);
      StageStep(b, db, d, n - 1);
    }
  }

  // The transaction succeeds exactly when no checked reference of another owner's row points into what it
  // deletes. No statement then leaves a checked reference dangling, and exactly the owned rows are gone.
  lemma DeletionTheorem(b: Backend, db: Database, d: Deletion)
    requires WellTyped(db) && References(b, db)
    ensures var out := Execute(b, db, Statements(d));
            && (out.Ok? <==> Isolated(b, db, d))
            && (out.Ok? ==> && out.value == Remaining(db, d)
                            && References(b, out.value)
                            && forall n | 0 <= n <= |Statements(d)| :: References(b, Stage(db, d, n)))
    ensures TenancyConsistent(db) ==> Execute(b, db, Statements(d)).Ok?
  {
    var ss := Statements(d);
    assert ss[..|ss|] == ss;
    ExecuteStages(b, db, d, |ss|);
    if Isolated(b, db, d) {
      forall n | 0 <= n <= |ss| ensures References(b, Stage(db, d, n)) { StageReferences(b, db, d, n); }
      FinalStage(db, d);
    } else {
      var n := BrokenStage(b, db, d);
      assert !References(b, Stage(db, d, n));
    }
    if TenancyConsistent(db) {
      ConsistentIsIsolated(b, db, d);
    }
  }

  lemma FinalStage(db: Database, d: Deletion)
    requires WellTyped(db)
    ensures Stage(db, d, |Statements(d)|) == Remaining(db, d)
  {
  }

  // Rows of other tenants survive; of the deleted one, nothing does.
  lemma OthersUntouched(b: Backend, db: Database, id: string, k: RowKey)
    requires WellTyped(db) && References(b, db) && TenancyConsistent(db) && k in db
    ensures Execute(b, db, Statements(Organization(id))).Ok?
    ensures var out := Execute(b, db, Statements(Organization(id))).value;
            && (k in out ==> && out[k] == db[k] && k != (Organizations, id) && out[k].org != Some(id)
                             && (out[k].app.Some? ==> !AppOfOrg(db, out[k].app.value, id)))
            && (k !in out ==> || k == (Organizations, id) || db[k].org == Some(id)
                              || (db[k].app.Some? && AppOfOrg(db, db[k].app.value, id)))
  {
    DeletionTheorem(b, db, Organization(id));
    ConsistentIsIsolated(b, db, Organization(id));
  }

  // Which references of other owners' rows refuse a deletion: on Postgres those to an application or a key of
  // the deleted tenant, on SQLite those to a key alone.
  lemma RefusedExactly(b: Backend, db: Database, d: Deletion)
    requires WellTyped(db) && References(b, db)
    ensures Execute(b, db, Statements(d)).Err? <==>
            exists k | k in db && !Owned(db, d, k) ::
              || (b.Postgres? && db[k].app.Some? && (Applications, db[k].app.value) in db && Owned(db, d, (Applications, db[k].app.value)))
              || (db[k].key.Some? && (ApiKeys, db[k].key.value) in db && Owned(db, d, (ApiKeys, db[k].key.value)))
  {
    DeletionTheorem(b, db, d);
    forall k | k in db && !Owned(db, d, k)
      ensures PointsIn(b, db, d, k) <==>
              || (b.Postgres? && db[k].app.Some? && (Applications, db[k].app.value) in db && Owned(db, d, (Applications, db[k].app.value)))
              || (db[k].key.Some? && (ApiKeys, db[k].key.value) in db && Owned(db, d, (ApiKeys, db[k].key.value)))
    {
      PointsInExactly(b, db, d, k);
    }
    hide Execute, Statements, Owned, PointsIn, References, WellTyped;
  }

  lemma PointsInExactly(b: Backend, db: Database, d: Deletion, k: RowKey)
    requires WellTyped(db) && k in db && !Owned(db, d, k)
    ensures PointsIn(b, db, d, k) <==>
            || (b.Postgres? && db[k].app.Some? && (Applications, db[k].app.value) in db && Owned(db, d, (Applications, db[k].app.value)))
            || (db[k].key.Some? && (ApiKeys, db[k].key.value) in db && Owned(db, d, (ApiKeys, db[k].key.value)))
  {
  }

  // Why the rows are deleted first: on its own the last statement is refused exactly while a row that does not
  // go with the organization names it, in a table whose reference the backend checks.
  lemma BareDeleteRefused(b: Backend, db: Database, id: string)
    requires WellTyped(db) && References(b, db) && (Organizations, id) in db
    ensures References(b, Deleted(db, ById(Organizations, id))) <==>
            forall k | k in db && db[k].org == Some(id) ::
              match k.0
              case OrgProviderCredentials | OrgAllowedModels | EndUsers => true
              case OrganizationMembers | Applications => false
              case _ => b.Sqlite?
  {
    var after := Deleted(db, ById(Organizations, id));
    forall k | k in db
      ensures k in after <==> k != (Organizations, id) && !(db[k].org == Some(id) && (k.0.OrgProviderCredentials? || k.0.OrgAllowedModels? || k.0.EndUsers?))
    {
    }
    forall k | k in after
      ensures RefersInto(b, k.0, db[k], after) <==> !(db[k].org == Some(id) && ChecksOrg(b, k.0))
    {
      assert RefersInto(b, k.0, db[k], db);
    }
    hide References, RefersInto, WellTyped;
    BareReferences(b, db, after, id);
  }

  lemma BareReferences(b: Backend, db: Database, after: Database, id: string)
    requires WellTyped(db)
    requires forall k | k in after :: k in db && after[k] == db[k]
    requires forall k | k in db :: k in after <==> k != (Organizations, id) && !(db[k].org == Some(id) && (k.0.OrgProviderCredentials? || k.0.OrgAllowedModels? || k.0.EndUsers?))
    requires forall k | k in after :: RefersInto(b, k.0, db[k], after) <==> !(db[k].org == Some(id) && ChecksOrg(b, k.0))
    ensures References(b, after) <==>
            forall k | k in db && db[k].org == Some(id) ::
              match k.0
              case OrgProviderCredentials | OrgAllowedModels | EndUsers => true
              case OrganizationMembers | Applications => false
              case _ => b.Sqlite?
  {
    hide RefersInto;
  }

  // The same for an application.
  lemma BareApplicationRefused(b: Backend, db: Database, id: string)
    requires WellTyped(db) && References(b, db) && (Applications, id) in db
    ensures References(b, Deleted(db, ById(Applications, id))) <==>
            forall k | k in db && db[k].app == Some(id) ::
              match k.0
              case AppModelAccess | AppModelAccessIds => true
              case AppStorageCredentials => false
              case _ => b.Sqlite?
  {
    var after := Deleted(db, ById(Applications, id));
    forall k | k in db
      ensures k in after <==> k != (Applications, id) && !(db[k].app == Some(id) && (k.0.AppModelAccess? || k.0.AppModelAccessIds?))
    {
    }
    forall k | k in after
      ensures RefersInto(b, k.0, db[k], after) <==> !(db[k].app == Some(id) && ChecksApp(b, k.0))
    {
      assert RefersInto(b, k.0, db[k], db);
    }
    hide References, RefersInto;
    BareApplicationReferences(b, db, after, id);
  }

  lemma BareApplicationReferences(b: Backend, db: Database, after: Database, id: string)
    requires WellTyped(db)
    requires forall k | k in after :: k in db && after[k] == db[k]
    requires forall k | k in db :: k in after <==> k != (Applications, id) && !(db[k].app == Some(id) && (k.0.AppModelAccess? || k.0.AppModelAccessIds?))
    requires forall k | k in after :: RefersInto(b, k.0, db[k], after) <==> !(db[k].app == Some(id) && ChecksApp(b, k.0))
    ensures References(b, after) <==>
            forall k | k in db && db[k].app == Some(id) ::
              match k.0
              case AppModelAccess | AppModelAccessIds => true
              case AppStorageCredentials => false
              case _ => b.Sqlite?
  {
    hide RefersInto;
  }

  // Organization "o" with a key, and a generation of organization "p" made with it.
  function SharedKey(): Database {
    map[(Organizations, "o") := Row(None, None, None, ""), (Organizations, "p") := Row(None, None, None, ""),
        (ApiKeys, "k") := Row(Some("o"), None, None, ""), (Generations, "g") := Row(Some("p"), None, Some("k"), "")]
  }

  // Either backend refuses to delete "o".
  lemma SharedKeyRefused(b: Backend)
    ensures WellTyped(SharedKey()) && References(b, SharedKey())
    ensures Execute(b, SharedKey(), Statements(Organization("o"))).Err?
  {
    var (db, d) := (SharedKey(), Organization("o"));
    assert WellTyped(db) && References(b, db);
    assert Owned(db, d, (ApiKeys, "k")) && !Owned(db, d, (Generations, "g")) && PointsIn(b, db, d, (Generations, "g"));
    hide *;
    NotIsolated(b, db, d);
    DeletionTheorem(b, db, d);
  }

  // ---- References that SQLite does not check -------------------------------

  // The row survives, but something it named does not.
  predicate Orphaned(db: Database, after: Database, k: RowKey) {
    && k in after
    && (|| (after[k].org.Some? && (Organizations, after[k].org.value) in db && (Organizations, after[k].org.value) !in after)
        || (after[k].app.Some? && (Applications, after[k].app.value) in db && (Applications, after[k].app.value) !in after)
        || (after[k].key.Some? && (ApiKeys, after[k].key.value) in db && (ApiKeys, after[k].key.value) !in after))
  }

  lemma OrphanedPointsIn(db: Database, d: Deletion, k: RowKey)
    requires WellTyped(db)
    ensures Orphaned(db, Remaining(db, d), k) <==> k in db && !Owned(db, d, k) && PointsIn(Postgres, db, d, k)
  {
    if k in db && db[k].org.Some? && (Organizations, db[k].org.value) in db {
      OrganizationOwned(db, d, k);
    }
    hide Owned, WellTyped;
  }

  lemma OrganizationOwned(db: Database, d: Deletion, k: RowKey)
    requires WellTyped(db) && k in db && db[k].org.Some? && (Organizations, db[k].org.value) in db
    ensures Owned(db, d, (Organizations, db[k].org.value)) ==> Owned(db, d, k)
  {
  }

  // A deletion that succeeds, on either backend, orphans no row exactly when Postgres would have let it through.
  lemma OrphansIffPostgresRefuses(b: Backend, db: Database, d: Deletion)
    requires WellTyped(db) && References(b, db) && Execute(b, db, Statements(d)).Ok?
    ensures (forall k :: !Orphaned(db, Execute(b, db, Statements(d)).value, k)) <==> Isolated(Postgres, db, d)
  {
    hide *;
    DeletionTheorem(b, db, d);
    forall k
      ensures Orphaned(db, Remaining(db, d), k) <==> k in db && !Owned(db, d, k) && PointsIn(Postgres, db, d, k)
    {
      OrphanedPointsIn(db, d, k);
    }
    NotIsolated(Postgres, db, d);
  }

  lemma NotIsolated(b: Backend, db: Database, d: Deletion)
    ensures Isolated(b, db, d) <==> forall k :: !(k in db && !Owned(db, d, k) && PointsIn(b, db, d, k))
  {
    hide Owned, PointsIn;
  }

  // Organizations "o" and "p", and a request log of "p" under an application of "o".
  function MixedTenants(): Database {
    map[(Organizations, "o") := Row(None, None, None, ""), (Organizations, "p") := Row(None, None, None, ""),
        (Applications, "a") := Row(Some("o"), None, None, ""), (RequestLogs, "r") := Row(Some("p"), Some("a"), None, "")]
  }

  lemma MixedTenantsRefer()
    ensures WellTyped(MixedTenants()) && References(Postgres, MixedTenants()) && References(Sqlite, MixedTenants())
  {
  }

  lemma MixedTenantsFacts()
    ensures (RequestLogs, "r") in MixedTenants() && !Owned(MixedTenants(), Organization("o"), (RequestLogs, "r"))
    ensures PointsIn(Postgres, MixedTenants(), Organization("o"), (RequestLogs, "r"))
    ensures Isolated(Sqlite, MixedTenants(), Organization("o"))
  {
    assert Owned(MixedTenants(), Organization("o"), (Applications, "a"));
  }

  // Postgres refuses to delete "o"; SQLite deletes it and leaves the log behind, naming an application that is gone.
  lemma OrphanWitness()
    ensures var (db, ss) := (MixedTenants(), Statements(Organization("o")));
            && Execute(Postgres, db, ss).Err? && Execute(Sqlite, db, ss).Ok?
            && Orphaned(db, Execute(Sqlite, db, ss).value, (RequestLogs, "r"))
  {
    hide *;
    MixedTenantsRefer();
    MixedTenantsFacts();
    var (db, d) := (MixedTenants(), Organization("o"));
    NotIsolated(Postgres, db, d);
    DeletionTheorem(Postgres, db, d);
    DeletionTheorem(Sqlite, db, d);
    OrphanedPointsIn(db, d, (RequestLogs, "r"));
  }
}
