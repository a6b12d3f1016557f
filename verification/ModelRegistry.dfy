/**
  The image model registry: what is loaded from the database, which model is the
  default, and the lists that show one entry per display name.
 */
module ModelRegistry {
  import opened Common

  // A row of the model table, with the provider name and external flag its definition ends up with.
  datatype DbModel = DbModel(id: string, displayName: string, active: bool, provider: Option<string>, external: bool)

  datatype Definition = Definition(
    id: string, displayName: string, isDefault: bool, provider: Option<string>, external: bool, active: bool)

  datatype Entry = Entry(id: string, displayName: string, isDefault: bool, disabled: bool)

  function Define(m: DbModel, isDefault: bool): Definition {
    Definition(m.id, m.displayName, isDefault, m.provider, m.external, m.active)
  }

  function Active(rows: seq<DbModel>): seq<DbModel> {
    if rows == [] then []
    else Active(rows[..|rows| - 1]) + if rows[|rows| - 1].active then [rows[|rows| - 1]] else []
  }

  predicate DistinctIds(rows: seq<DbModel>) {
    forall i, j | 0 <= i < j < |rows| :: rows[i].id != rows[j].id
  }

  lemma {:induction false} ActiveMeaning(rows: seq<DbModel>)
    ensures forall m :: m in Active(rows) <==> m in rows && m.active
    ensures DistinctIds(rows) ==> DistinctIds(Active(rows))
  {
    if rows != [] {
      var (init, last) := (rows[..|rows| - 1], rows[|rows| - 1]);
      ActiveMeaning(init);
      assert rows == init + [last];
      forall i | 0 <= i < |Active(init)| && DistinctIds(rows)
        ensures Active(init)[i].id != last.id
      {
        assert Active(init)[i] in init;
      }
    }
  }

  // The positions of the active rows, in order.
  ghost predicate ActiveAt(rows: seq<DbModel>, at: seq<nat>) {
    && (forall n | 0 <= n < |at| :: at[n] < |rows|)
    && (forall m, n | 0 <= m < n < |at| :: at[m] < at[n])
    && (forall i | 0 <= i < |rows| :: rows[i].active <==> i in at)
  }

  // `picked` are the rows at those positions.
  ghost predicate ActiveRows(rows: seq<DbModel>, at: seq<nat>, picked: seq<DbModel>) {
    ActiveAt(rows, at) && |at| == |picked| && forall n | 0 <= n < |at| :: picked[n] == rows[at[n]]
  }

  lemma ActiveRowsNext(rows: seq<DbModel>, at: seq<nat>, picked: seq<DbModel>, m: DbModel)
    requires ActiveRows(rows, at, picked)
    ensures m.active ==> ActiveRows(rows + [m], at + [|rows|], picked + [m])
    ensures !m.active ==> ActiveRows(rows + [m], at, picked)
  {
    if m.active {
      assert forall i: nat :: i in at + [|rows|] <==> i in at || i == |rows|;
    }
  }

  lemma NoActiveRows()
    ensures ActiveRows([], [], [])
  {
  }

  lemma {:induction false} ActiveInOrder(rows: seq<DbModel>) returns (at: seq<nat>)
    ensures ActiveRows(rows, at, Active(rows))
  {
    hide ActiveRows;
    if rows == [] {
      at := [];
      NoActiveRows();
    } else {
      var last := rows[|rows| - 1];
      var before := ActiveInOrder(rows[..|rows| - 1]);
      ActiveRowsNext(rows[..|rows| - 1], before, Active(rows[..|rows| - 1]), last);
      assert rows == rows[..|rows| - 1] + [last];
      assert Active(rows) == if last.active then Active(rows[..|rows| - 1]) + [last] else Active(rows[..|rows| - 1]);
      at := if last.active then before + [|rows| - 1] else before;
    }
  }

  // The definition shows what its row says.
  predicate Mirrors(d: Definition, m: DbModel) {
    d.id == m.id && d.displayName == m.displayName && d.provider == m.provider && d.external == m.external && d.active == m.active
  }

  // The models are the active rows, in order.
  ghost predicate ActiveModels(models: seq<Definition>, rows: seq<DbModel>) {
    exists at :: ActiveAt(rows, at) && |at| == |models| && forall n | 0 <= n < |at| :: Mirrors(models[n], rows[at[n]])
  }

  lemma ActiveDistinct(rows: seq<DbModel>)
    ensures DistinctIds(rows) ==> DistinctIds(Active(rows))
  {
    ActiveMeaning(rows);
  }

  lemma AllDefined(all: seq<Definition>, rows: seq<DbModel>)
    requires |all| == |rows| && forall i | 0 <= i < |rows| :: all[i] == Define(rows[i], false)
    ensures forall i | 0 <= i < |rows| :: Mirrors(all[i], rows[i]) && !all[i].isDefault
  {
  }

  lemma ActiveDefined(models: seq<Definition>, rows: seq<DbModel>)
    requires |models| == |Active(rows)| && forall i | 0 <= i < |models| :: models[i] == Define(Active(rows)[i], models[i].isDefault)
    ensures ActiveModels(models, rows)
  {
    hide Active;
    var at := ActiveInOrder(rows);
    assert forall n | 0 <= n < |at| :: Mirrors(models[n], rows[at[n]]);
  }

  // ---- Representatives -----------------------------------------------------

  // Whether a later entry takes the place of the one already shown under its name.
  predicate Replaces(e: Entry, existing: Entry) {
    (existing.disabled && !e.disabled) || (e.isDefault && !existing.isDefault)
  }

  function Shown(es: seq<Entry>, name: string): Option<Entry> {
    if es == [] then None
    else
      var before := Shown(es[..|es| - 1], name);
      var e := es[|es| - 1];
      if e.displayName == name && (before.None? || Replaces(e, before.value)) then Some(e) else before
  }

  // The name `x` occurs in the list before the name `y` does.
  ghost predicate ComesFirst(es: seq<Entry>, x: string, y: string) {
    exists p :: 0 <= p < |es| && es[p].displayName == x && forall q | 0 <= q <= p :: es[q].displayName != y
  }

  lemma StillFirst(es: seq<Entry>, e: Entry, x: string, y: string)
    requires ComesFirst(es, x, y)
    ensures ComesFirst(es + [e], x, y)
  {
    var p :| 0 <= p < |es| && es[p].displayName == x && forall q | 0 <= q <= p :: es[q].displayName != y;
    assert (es + [e])[p].displayName == x && forall q | 0 <= q <= p :: (es + [e])[q] == es[q];
  }

  lemma NewComesLast(es: seq<Entry>, e: Entry, x: string)
    requires Shown(es, x).Some? && Shown(es, e.displayName).None?
    ensures ComesFirst(es + [e], x, e.displayName)
  {
    ShownNamed(es, x);
    ShownNamed(es, e.displayName);
    var p :| 0 <= p < |es| && es[p].displayName == x;
    assert (es + [e])[p].displayName == x && forall q | 0 <= q <= p :: (es + [e])[q] == es[q];
  }

  lemma {:induction false} ShownNamed(es: seq<Entry>, name: string)
    ensures Shown(es, name).Some? <==> exists i :: 0 <= i < |es| && es[i].displayName == name
  {
    if es != [] {
      var init := es[..|es| - 1];
      ShownNamed(init, name);
      assert forall i | 0 <= i < |init| :: init[i] == es[i];
    }
  }

  // One entry per name of the list, in the order the names first occur, and it is the one shown.
  ghost predicate Deduplicated(r: seq<Entry>, es: seq<Entry>) {
    && (forall i, j | 0 <= i < j < |r| :: ComesFirst(es, r[i].displayName, r[j].displayName))
    && (forall i, j | 0 <= i < j < |r| :: r[i].displayName != r[j].displayName)
    && (forall i | 0 <= i < |r| :: Shown(es, r[i].displayName) == Some(r[i]))
    && (forall i | 0 <= i < |es| :: exists k :: 0 <= k < |r| && r[k].displayName == es[i].displayName)
  }

  // Position `i` holds the first entry of its name with its standing.
  predicate FirstOfKind(es: seq<Entry>, i: nat)
    requires i < |es|
  {
    forall j | 0 <= j < i && es[j].displayName == es[i].displayName ::
      es[j].disabled != es[i].disabled || es[j].isDefault != es[i].isDefault
  }

  // The entry shown under a name is one of those with that name; it is enabled exactly when one of them
  // is, the default exactly when one of them is, and among its equals the first.
  lemma {:induction false} ShownMeaning(es: seq<Entry>, name: string)
    requires forall i | 0 <= i < |es| && es[i].isDefault :: !es[i].disabled
    ensures Shown(es, name).Some? <==> exists i :: 0 <= i < |es| && es[i].displayName == name
    ensures Shown(es, name).Some? ==>
              var e := Shown(es, name).value;
              && e.displayName == name
              && (exists i :: 0 <= i < |es| && es[i] == e && FirstOfKind(es, i))
              && (!e.disabled <==> exists i :: 0 <= i < |es| && es[i].displayName == name && !es[i].disabled)
              && (e.isDefault <==> exists i :: 0 <= i < |es| && es[i].displayName == name && es[i].isDefault)
  {
    if es != [] {
      var (init, last) := (es[..|es| - 1], es[|es| - 1]);
      ShownMeaning(init, name);
      assert forall i | 0 <= i < |init| :: init[i] == es[i];
      var before := Shown(init, name);
      if before.Some? {
        var i :| 0 <= i < |init| && init[i] == before.value && FirstOfKind(init, i);
        assert es[i] == before.value && FirstOfKind(es, i);
      }
      if Shown(es, name) == Some(last) && last.displayName == name && (before.None? || Replaces(last, before.value)) {
        assert FirstOfKind(es, |es| - 1);
      }
    }
  }

  lemma {:induction false} ShownName(es: seq<Entry>, name: string)
    ensures Shown(es, name).Some? ==> Shown(es, name).value.displayName == name
  {
    if es != [] {
      ShownName(es[..|es| - 1], name);
    }
  }

  // The public list never prefers by activity, as all its entries are enabled.
  function PublicEntry(m: Definition): Entry {
    Entry(m.id, m.displayName, m.isDefault, false)
  }

  function PublicEntries(ms: seq<Definition>): seq<Entry> {
    seq(|ms|, i requires 0 <= i < |ms| => PublicEntry(ms[i]))
  }

  predicate Named(p: Option<string>) {
    p.Some? && p.value != ""
  }

  predicate Kept(m: Definition, healthy: Option<set<string>>) {
    healthy.Some? ==>
      !(Named(m.provider) && m.provider.value !in healthy.value) && !(m.external && !Named(m.provider))
  }

  function IsDefaultIn(models: seq<Definition>, id: string): bool {
    if models == [] then false
    else if models[0].id == id then models[0].isDefault
    else IsDefaultIn(models[1..], id)
  }

  function AnyEntry(models: seq<Definition>, m: Definition): Entry {
    Entry(m.id, m.displayName, m.active && IsDefaultIn(models, m.id), !m.active)
  }

  function KeptEntries(models: seq<Definition>, all: seq<Definition>, healthy: Option<set<string>>): seq<Entry> {
    if all == [] then []
    else
      KeptEntries(models, all[..|all| - 1], healthy)
      + if Kept(all[|all| - 1], healthy) then [AnyEntry(models, all[|all| - 1])] else []
  }

  // Position `i` holds an entry that may be shown under the name: as enabled, and as much the default, as
  // any entry of the name is.
  predicate Leads(es: seq<Entry>, name: string, i: nat)
    requires i < |es|
  {
    && es[i].displayName == name
    && (!es[i].disabled <==> exists j :: 0 <= j < |es| && es[j].displayName == name && !es[j].disabled)
    && (es[i].isDefault <==> exists j :: 0 <= j < |es| && es[j].displayName == name && es[j].isDefault)
  }

  predicate LeadsFirst(es: seq<Entry>, name: string, i: nat)
    requires i < |es|
  {
    Leads(es, name, i) && forall j | 0 <= j < i :: !Leads(es, name, j)
  }

  // The entry shown is the first of those that may be.
  lemma ShownLeads(es: seq<Entry>, name: string) returns (i: nat)
    requires forall i | 0 <= i < |es| && es[i].isDefault :: !es[i].disabled
    requires Shown(es, name).Some?
    ensures i < |es| && Shown(es, name) == Some(es[i]) && LeadsFirst(es, name, i)
  {
    ShownMeaning(es, name);
    hide Shown;
    i :| 0 <= i < |es| && Shown(es, name) == Some(es[i]) && FirstOfKind(es, i);
    assert Leads(es, name, i);
    forall j | 0 <= j < i
      ensures !Leads(es, name, j)
    {
      assert es[j].displayName != name || es[j].disabled != es[i].disabled || es[j].isDefault != es[i].isDefault;
    }
  }

  // Whatever the ids of the directories on disk: if one of the entries that may be shown has such an id, one
  // with such an id is shown, exactly when the first of them has one or none has.
  lemma DiskSlugWins(es: seq<Entry>, name: string, slugs: set<string>)
    requires forall i | 0 <= i < |es| && es[i].isDefault :: !es[i].disabled
    ensures ((exists i :: 0 <= i < |es| && Leads(es, name, i) && es[i].id in slugs) ==>
               Shown(es, name).Some? && Shown(es, name).value.id in slugs)
            <==>
            || (exists i :: 0 <= i < |es| && LeadsFirst(es, name, i) && es[i].id in slugs)
            || (forall i | 0 <= i < |es| && Leads(es, name, i) :: es[i].id !in slugs)
  {
    ShownMeaning(es, name);
    hide Shown, Leads;
    if Shown(es, name).Some? {
      var i := ShownLeads(es, name);
      assert forall j | 0 <= j < |es| && LeadsFirst(es, name, j) :: j == i;
    } else {
      forall i | 0 <= i < |es|
        ensures !Leads(es, name, i)
      {
        NotNamed(es, name, i);
      }
    }
  }

  lemma NotNamed(es: seq<Entry>, name: string, i: nat)
    requires i < |es| && es[i].displayName != name
    ensures !Leads(es, name, i)
  {
  }

  // Two models of one name and standing, one with the id of a directory on disk: the one shown has such an id
  // only if it is read first.
  lemma DiskSlugIgnored()
    ensures var slugs := {"sd15"};
            var (row, slug) := (Define(DbModel("sd_1_5", "SD 1.5", false, None, false), false),
                                Define(DbModel("sd15", "SD 1.5", false, None, false), false));
            var (first, second) := (Shown(KeptEntries([], [slug, row], None), "SD 1.5"),
                                    Shown(KeptEntries([], [row, slug], None), "SD 1.5"));
            && first.Some? && first.value.id in slugs
            && second.Some? && second.value.id !in slugs
  {
    var (row, slug) := (Define(DbModel("sd_1_5", "SD 1.5", false, None, false), false),
                        Define(DbModel("sd15", "SD 1.5", false, None, false), false));
    TwoEqual(row, slug);
    TwoEqual(slug, row);
  }

  lemma TwoEqual(a: Definition, b: Definition)
    requires !a.active && !b.active && a.displayName == b.displayName
    ensures Shown(KeptEntries([], [a, b], None), a.displayName) == Some(AnyEntry([], a))
  {
    KeptNext([], a);
    KeptNext([a], b);
    assert [] + [a] == [a] && [a] + [b] == [a, b];
    var (x, y) := (AnyEntry([], a), AnyEntry([], b));
    assert KeptEntries([], [a, b], None) == [] + [x] + [y];
    hide KeptEntries;
    ShownNext([], x, a.displayName);
    ShownNext([] + [x], y, a.displayName);
  }

  lemma KeptNext(all: seq<Definition>, m: Definition)
    ensures KeptEntries([], [], None) == []
    ensures KeptEntries([], all + [m], None) == KeptEntries([], all, None) + [AnyEntry([], m)]
  {
    assert (all + [m])[..|all|] == all;
  }

  // Exactly one model is the default: the configured one if it is there, else the first.
  ghost predicate OneDefault(models: seq<Definition>, configured: string) {
    exists d ::
      && 0 <= d < |models| && models[d].isDefault
      && (forall i | 0 <= i < |models| && models[i].isDefault :: i == d)
      && (if exists i :: 0 <= i < |models| && models[i].id == configured then models[d].id == configured else d == 0)
  }

  // The names of the list, each once, in the order they first occur.
  ghost predicate Ordering(order: seq<string>, es: seq<Entry>) {
    && (forall name :: name in order <==> Shown(es, name).Some?)
    && (forall i, j | 0 <= i < j < |order| :: order[i] != order[j])
    && (forall i, j | 0 <= i < j < |order| :: ComesFirst(es, order[i], order[j]))
  }

  lemma ShownNext(es: seq<Entry>, e: Entry, name: string)
    ensures Shown([], name) == None
    ensures var before := Shown(es, name);
            Shown(es + [e], name) == if e.displayName == name && (before.None? || Replaces(e, before.value)) then Some(e) else before
  {
    assert (es + [e])[..|es|] == es;
  }

  lemma OrderingNext(order: seq<string>, es: seq<Entry>, e: Entry)
    requires Ordering(order, es)
    ensures Ordering(if e.displayName in order then order else order + [e.displayName], es + [e])
  {
    hide ComesFirst, Shown;
    var next := if e.displayName in order then order else order + [e.displayName];
    forall name
      ensures name in next <==> Shown(es + [e], name).Some?
    {
      ShownNext(es, e, name);
    }
    forall i, j | 0 <= i < j < |next|
      ensures next[i] != next[j] && ComesFirst(es + [e], next[i], next[j])
    {
      assert order[i] in order;
      if j < |order| {
        StillFirst(es, e, order[i], order[j]);
      } else {
        NewComesLast(es, e, order[i]);
      }
    }
  }

  // The entry shown under every name that has one.
  ghost predicate Tracks(seen: map<string, Entry>, es: seq<Entry>) {
    && (forall name :: name in seen <==> Shown(es, name).Some?)
    && (forall name | name in seen :: Shown(es, name) == Some(seen[name]))
  }

  lemma TracksNext(seen: map<string, Entry>, es: seq<Entry>, e: Entry)
    requires Tracks(seen, es)
    ensures var name := e.displayName;
            Tracks(if name !in seen || Replaces(e, seen[name]) then seen[name := e] else seen, es + [e])
  {
    hide Shown;
    var name := e.displayName;
    var next := if name !in seen || Replaces(e, seen[name]) then seen[name := e] else seen;
    forall x
      ensures x in next <==> Shown(es + [e], x).Some?
      ensures x in next ==> Shown(es + [e], x) == Some(next[x])
    {
      ShownNext(es, e, x);
    }
  }

  lemma SameNames(seen: map<string, Entry>, order: seq<string>, es: seq<Entry>, name: string)
    requires Tracks(seen, es) && Ordering(order, es)
    ensures name in order <==> name in seen
  {
    hide Shown;
  }

  // The map by display name of the public listings, which keeps its insertion order: one entry is shown at a time.
  class Shelf {
    var seen: map<string, Entry>
    var order: seq<string>
    ghost var added: seq<Entry>

    ghost predicate Valid()
      reads this
    {
      Tracks(seen, added) && Ordering(order, added)
    }

    constructor ()
      ensures Valid() && added == []
    {
      seen, order, added := map[], [], [];
    }

    method Add(e: Entry)
      requires Valid()
      modifies this
      ensures Valid() && added == old(added) + [e]
    {
      var name := e.displayName;
      hide Ordering, Tracks;
      OrderingNext(order, added, e);
      TracksNext(seen, added, e);
      SameNames(seen, order, added, name);
      added := added + [e];
      if name !in seen {
        order := order + [name];
        seen := seen[name := e];
      } else if (seen[name].disabled && !e.disabled) || (e.isDefault && !seen[name].isDefault) {
        seen := seen[name := e];
      }
    }

    method Values() returns (r: seq<Entry>)
      requires Valid()
      ensures Deduplicated(r, added)
    {
      r := seq(|order|, i requires 0 <= i < |order| && order[i] in seen reads this => seen[order[i]]);
      forall i | 0 <= i < |r|
        ensures r[i].displayName == order[i]
      {
        ShownName(added, order[i]);
      }
      forall i | 0 <= i < |added|
        ensures exists k :: 0 <= k < |r| && r[k].displayName == added[i].displayName
      {
        ShownExists(added, i);
        var k :| 0 <= k < |order| && order[k] == added[i].displayName;
        assert r[k].displayName == added[i].displayName;
      }
    }
  }

  lemma {:induction false} ShownExists(es: seq<Entry>, i: nat)
    requires i < |es|
    ensures Shown(es, es[i].displayName).Some?
  {
    if i < |es| - 1 {
      assert es[..|es| - 1][i] == es[i];
      ShownExists(es[..|es| - 1], i);
    }
  }

  class Registry {
    var models: seq<Definition>
    var allModels: seq<Definition>

    constructor ()
      ensures models == [] && allModels == []
    {
      models, allModels := [], [];
    }

    // The active models with one marked as the default.
    static method MarkDefault(active: seq<DbModel>, configured: string) returns (ms: seq<Definition>)
      requires active != []
      ensures |ms| == |active| && forall i | 0 <= i < |ms| :: ms[i] == Define(active[i], ms[i].isDefault)
      ensures DistinctIds(active) ==> OneDefault(ms, configured)
    {
      ms := seq(|active|, i requires 0 <= i < |active| => Define(active[i], active[i].id == configured));
      var d := 0;
      while d < |ms| && !ms[d].isDefault
        invariant 0 <= d <= |ms| && forall k | 0 <= k < d :: ms[k].id != configured
      {
        d := d + 1;
      }
      if d == |ms| {
        ms := ms[0 := ms[0].(isDefault := true)];
        assert ms[0].isDefault;
      } else {
        assert ms[d].isDefault && ms[d].id == active[d].id == configured;
      }
    }

    // `rows` is the image model table, or nothing if the database could not be read.
    method RefreshModels(rows: Option<seq<DbModel>>, configured: string)
      modifies this
      ensures rows.None? ==> models == old(models) && allModels == old(allModels)
      ensures rows.Some? ==>
                && |allModels| == |rows.value|
                && (forall i | 0 <= i < |rows.value| :: allModels[i] == Define(rows.value[i], false))
                && |models| == |Active(rows.value)|
                && (forall i | 0 <= i < |models| :: models[i] == Define(Active(rows.value)[i], models[i].isDefault))
                && (DistinctIds(rows.value) && models != [] ==> OneDefault(models, configured))
      ensures rows.Some? ==>
                && (forall i | 0 <= i < |rows.value| :: Mirrors(allModels[i], rows.value[i]) && !allModels[i].isDefault)
                && ActiveModels(models, rows.value)
    {
      if rows.None? {
        return;
      }
      hide Active, OneDefault, DistinctIds, ActiveModels, Define, Mirrors;
      var every := rows.value;
      allModels := seq(|every|, i requires 0 <= i < |every| => Define(every[i], false));
      var active := Active(every);
      ActiveDistinct(every);
      if |active| > 0 {
        models := MarkDefault(active, configured);
      } else {
        models := [];
      }
      ActiveDefined(models, every);
      AllDefined(allModels, every);
    }

    method GetPublicModels() returns (r: seq<Entry>)
      ensures Deduplicated(r, PublicEntries(models))
    {
      var shelf := new Shelf();
      for i := 0 to |models|
        invariant fresh(shelf) && shelf.Valid() && shelf.added == PublicEntries(models)[..i]
      {
        shelf.Add(PublicEntry(models[i]));
      }
      assert PublicEntries(models)[..|models|] == PublicEntries(models);
      r := shelf.Values();
    }

    method GetAllPublicModelsForProviders(healthy: Option<set<string>>) returns (r: seq<Entry>)
      ensures Deduplicated(r, KeptEntries(models, allModels, healthy))
    {
      var shelf := new Shelf();
      for i := 0 to |allModels|
        invariant fresh(shelf) && shelf.Valid() && shelf.added == KeptEntries(models, allModels[..i], healthy)
      {
        assert allModels[..i + 1][..i] == allModels[..i];
        var m := allModels[i];
        if healthy.Some? {
          if Named(m.provider) && m.provider.value !in healthy.value { continue; }
          if m.external && !Named(m.provider) { continue; }
        }
        shelf.Add(Entry(m.id, m.displayName, if m.active then IsDefaultIn(models, m.id) else false, !m.active));
      }
      assert allModels[..|allModels|] == allModels;
      r := shelf.Values();
    }
  }

  // ---- What the lists show -------------------------------------------------

  ghost predicate Shows(r: seq<Entry>, name: string) {
    exists k :: 0 <= k < |r| && r[k].displayName == name
  }

  ghost predicate HasName(ms: seq<Definition>, name: string) {
    exists i :: 0 <= i < |ms| && ms[i].displayName == name
  }

  // With one default, the public list has one entry per display name and contains the default.
  lemma PublicListHasDefault(models: seq<Definition>, configured: string, r: seq<Entry>)
    requires OneDefault(models, configured) && Deduplicated(r, PublicEntries(models))
    ensures exists k, d :: 0 <= k < |r| && 0 <= d < |models| && models[d].isDefault && r[k] == PublicEntry(models[d])
    ensures forall i, j | 0 <= i < j < |r| :: r[i].displayName != r[j].displayName
    ensures forall name :: HasName(models, name) <==> Shows(r, name)
    ensures forall k | 0 <= k < |r| :: exists d ::
              && 0 <= d < |models| && r[k].id == models[d].id && r[k].displayName == models[d].displayName
              && r[k].isDefault == models[d].isDefault && !r[k].disabled
  {
    hide HasName, Shows;
    var es := PublicEntries(models);
    var d :| 0 <= d < |models| && models[d].isDefault;
    assert es[d].isDefault && es[d].displayName == models[d].displayName;
    ShownMeaning(es, models[d].displayName);
    var k :| 0 <= k < |r| && r[k].displayName == es[d].displayName;
    var i :| 0 <= i < |es| && es[i] == r[k] && FirstOfKind(es, i);
    assert models[i].isDefault;
    forall name { PublicNames(models, r, name); }
    forall k | 0 <= k < |r|
      ensures exists d :: 0 <= d < |models| && r[k] == PublicEntry(models[d])
    {
      PublicSource(models, r, k);
    }
  }

  lemma PublicSource(models: seq<Definition>, r: seq<Entry>, k: nat)
    requires Deduplicated(r, PublicEntries(models)) && k < |r|
    ensures exists d :: 0 <= d < |models| && r[k] == PublicEntry(models[d])
  {
    var es := PublicEntries(models);
    ShownMeaning(es, r[k].displayName);
    var i :| 0 <= i < |es| && es[i] == r[k] && FirstOfKind(es, i);
    assert r[k] == PublicEntry(models[i]);
  }

  lemma PublicNames(models: seq<Definition>, r: seq<Entry>, name: string)
    requires Deduplicated(r, PublicEntries(models))
    ensures HasName(models, name) <==> Shows(r, name)
  {
    var es := PublicEntries(models);
    ShownMeaning(es, name);
    if HasName(models, name) {
      var i :| 0 <= i < |models| && models[i].displayName == name;
      assert es[i].displayName == name;
    }
    if Shows(r, name) {
      var i :| 0 <= i < |es| && es[i].displayName == name;
      assert models[i].displayName == name;
    }
  }

  lemma {:induction false} KeptEntriesMeaning(models: seq<Definition>, all: seq<Definition>, healthy: Option<set<string>>, e: Entry)
    ensures e in KeptEntries(models, all, healthy) <==>
            exists m :: m in all && Kept(m, healthy) && e == AnyEntry(models, m)
  {
    if all != [] {
      var (init, last) := (all[..|all| - 1], all[|all| - 1]);
      KeptEntriesMeaning(models, init, healthy, e);
      assert all == init + [last];
    }
  }

  // A model is listed with its provider healthy; without one, unless it is external.
  predicate Eligible(m: Definition, healthy: Option<set<string>>) {
    healthy.None? ||
    if m.provider == None || m.provider == Some("") then !m.external else m.provider.value in healthy.value
  }

  // The first of the models with the id is the default.
  ghost predicate DefaultIn(models: seq<Definition>, id: string) {
    exists i :: 0 <= i < |models| && models[i].id == id && models[i].isDefault && forall j | 0 <= j < i :: models[j].id != id
  }

  lemma DefaultNext(models: seq<Definition>, id: string)
    requires models != []
    ensures DefaultIn(models, id) <==> if models[0].id == id then models[0].isDefault else DefaultIn(models[1..], id)
  {
    assert forall i | 0 < i < |models| :: models[i] == models[1..][i - 1];
    if models[0].id != id {
      if DefaultIn(models[1..], id) {
        var i :| 0 <= i < |models[1..]| && models[1..][i].id == id && models[1..][i].isDefault && forall j | 0 <= j < i :: models[1..][j].id != id;
        assert models[i + 1].id == id && models[i + 1].isDefault;
      }
      if DefaultIn(models, id) {
        var i :| 0 <= i < |models| && models[i].id == id && models[i].isDefault && forall j | 0 <= j < i :: models[j].id != id;
        assert models[1..][i - 1].id == id && models[1..][i - 1].isDefault;
        assert forall j | 0 <= j < i - 1 :: models[1..][j] == models[j + 1];
      }
    }
  }

  lemma {:induction false} IsDefaultMeaning(models: seq<Definition>, id: string)
    ensures IsDefaultIn(models, id) <==> DefaultIn(models, id)
  {
    if models != [] {
      IsDefaultMeaning(models[1..], id);
      DefaultNext(models, id);
    }
  }

  lemma KeptMeaning(m: Definition, healthy: Option<set<string>>)
    ensures Kept(m, healthy) <==> Eligible(m, healthy)
  {
  }

  // The entry of a model: disabled unless it is active, the default if it is active and the default.
  ghost predicate EntryOf(e: Entry, m: Definition, models: seq<Definition>) {
    && e.id == m.id && e.displayName == m.displayName && e.disabled == !m.active
    && (e.isDefault <==> m.active && DefaultIn(models, m.id))
  }

  // In the list of all models, a name appears exactly if some eligible model has it; its entry is that of
  // one of them, enabled exactly when one of them is active, and the default exactly when one of them is.
  lemma AllListMeaning(models: seq<Definition>, all: seq<Definition>, healthy: Option<set<string>>, r: seq<Entry>, name: string)
    requires Deduplicated(r, KeptEntries(models, all, healthy))
    ensures Shows(r, name) <==> exists m :: m in all && Eligible(m, healthy) && m.displayName == name
    ensures forall k | 0 <= k < |r| && r[k].displayName == name ::
              && (exists m :: m in all && Eligible(m, healthy) && EntryOf(r[k], m, models))
              && (!r[k].disabled <==> exists m :: m in all && Eligible(m, healthy) && m.displayName == name && m.active)
              && (r[k].isDefault <==> exists m :: m in all && Eligible(m, healthy) && m.displayName == name && m.active
                                                  && DefaultIn(models, m.id))
  {
    forall m { KeptMeaning(m, healthy); }
    forall id { IsDefaultMeaning(models, id); }
    hide Kept, Eligible, IsDefaultIn, DefaultIn, KeptEntries;
    var es := KeptEntries(models, all, healthy);
    forall e
      ensures e in es <==> exists m :: m in all && Eligible(m, healthy) && e == AnyEntry(models, m)
    {
      KeptEntriesMeaning(models, all, healthy, e);
    }
    assert forall i | 0 <= i < |es| :: es[i] in es;
    ShownMeaning(es, name);
    forall m | m in all && Eligible(m, healthy)
      ensures exists i :: 0 <= i < |es| && es[i] == AnyEntry(models, m)
    {
      assert AnyEntry(models, m) in es;
    }
  }
}
