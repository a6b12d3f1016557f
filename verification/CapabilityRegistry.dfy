/**
  The model registry: catalog files loaded into a map and a per-provider index,
  with models added and switched off at runtime layered on top.
 */
module CapabilityRegistry {
  import opened Common
  import opened Text

  datatype Freeform = Freeform(minWidth: nat, maxWidth: nat, minHeight: nat, maxHeight: nat)

  // `mapped` holds the roles of a multipart field map, when the provider format is one.
  datatype RefInputs = RefInputs(roles: set<string>, mapped: set<string>, defaultRole: Option<string>)

  datatype ModelSchema = ModelSchema(
    id: string, provider: string, baseCost: real, params: set<string>,
    freeform: Option<Freeform>, refs: Option<RefInputs>, rest: string)

  datatype Fault =
    | NoSlash | NoName | WrongProvider | NegativeCost | UnknownParam | WidthRange | HeightRange
    | UnknownMappedRole | UnknownDefaultRole

  datatype LoadError =
    | Parse(path: string, message: string)
    | Validate(path: string, id: string, fault: Fault)
    | Duplicate(path: string, id: string)
    | Aggregate(errors: seq<LoadError>)

  // A catalog file: its path and what its YAML parses to.
  datatype File = File(path: string, parsed: Result<seq<ModelSchema>, string>)

  const KNOWN_PARAMS: set<string> := {
    "negative_prompt", "seed", "steps", "guidance_scale", "strength", "quality",
    "style", "size", "aspect_ratio", "duration_seconds", "resolution", "fps"
  }

  // ---- Validation ----------------------------------------------------------

  function FirstSlash(s: string): (i: nat)
    ensures i <= |s| && '/' !in s[..i] && (i < |s| ==> s[i] == '/')
  {
    if s == "" || s[0] == '/' then 0 else 1 + FirstSlash(s[1..])
  }

  function NameFault(id: string, provider: string): Option<Fault> {
    var i := FirstSlash(id);
    if i == |id| then Some(NoSlash)
    else if id[i + 1..] == "" then Some(NoName)
    else if id[..i] != provider then Some(WrongProvider)
    else None
  }

  function Faults(m: ModelSchema): Option<Fault> {
    if NameFault(m.id, m.provider).Some? then NameFault(m.id, m.provider)
    else if m.baseCost < 0.0 then Some(NegativeCost)
    else if !(m.params <= KNOWN_PARAMS) then Some(UnknownParam)
    else if m.freeform.Some? && m.freeform.value.minWidth > m.freeform.value.maxWidth then Some(WidthRange)
    else if m.freeform.Some? && m.freeform.value.minHeight > m.freeform.value.maxHeight then Some(HeightRange)
    else if m.refs.Some? && !(m.refs.value.mapped <= m.refs.value.roles) then Some(UnknownMappedRole)
    else if m.refs.Some? && m.refs.value.defaultRole.Some? && m.refs.value.defaultRole.value !in m.refs.value.roles
      then Some(UnknownDefaultRole)
    else None
  }

  // `id` is `provider`, a slash, and a name, with no slash before that one.
  predicate NamedUnder(id: string, provider: string) {
    '/' !in provider && |id| > |provider| + 1 && id[..|provider| + 1] == provider + "/"
  }

  lemma SlashAfter(id: string, provider: string)
    requires NamedUnder(id, provider)
    ensures FirstSlash(id) == |provider| && id[..|provider|] == provider
  {
    var i := FirstSlash(id);
    assert forall j | 0 <= j <= |provider| :: id[j] == id[..|provider| + 1][j];
    assert id[|provider|] == '/';
    assert forall j | 0 <= j < |provider| :: id[j] == provider[j] && provider[j] in provider;
    assert forall j | 0 <= j < i :: id[..i][j] == id[j];
  }

  // The name check passes exactly when the id is the provider, a slash and a name; so no id can be
  // valid under two providers.
  lemma NameFaultMeaning(id: string, provider: string)
    ensures NameFault(id, provider).None? <==> NamedUnder(id, provider)
    ensures forall p :: NamedUnder(id, provider) && NamedUnder(id, p) ==> p == provider
  {
    var i := FirstSlash(id);
    if NameFault(id, provider).None? {
      assert id[..i + 1] == id[..i] + [id[i]];
    }
    hide FirstSlash, NamedUnder;
    forall p | NamedUnder(id, p)
      ensures i == |p| && id[..i] == p
    {
      SlashAfter(id, p);
    }
    if NamedUnder(id, provider) {
      NameLonger(id, provider);
    }
  }

  lemma NameLonger(id: string, provider: string)
    requires NamedUnder(id, provider)
    ensures |id| > |provider| + 1
  {
  }

  // What each check asks of a model, in the order of the checks.
  ghost predicate Passes(m: ModelSchema, f: Fault) {
    match f
    case NoSlash => '/' in m.id
    case NoName => m.id != "" && m.id[|m.id| - 1] == '/' ==> '/' in m.id[..|m.id| - 1]
    case WrongProvider => |m.id| > |m.provider| && '/' !in m.provider && m.id[..|m.provider|] == m.provider && m.id[|m.provider|] == '/'
    case NegativeCost => m.baseCost >= 0.0
    case UnknownParam =>
      forall x | x in m.params ::
        || x == "negative_prompt" || x == "seed" || x == "steps" || x == "guidance_scale" || x == "strength" || x == "quality"
        || x == "style" || x == "size" || x == "aspect_ratio" || x == "duration_seconds" || x == "resolution" || x == "fps"
    case WidthRange => m.freeform.Some? ==> m.freeform.value.minWidth <= m.freeform.value.maxWidth
    case HeightRange => m.freeform.Some? ==> m.freeform.value.minHeight <= m.freeform.value.maxHeight
    case UnknownMappedRole => m.refs.Some? ==> forall role | role in m.refs.value.mapped :: role in m.refs.value.roles
    case UnknownDefaultRole => m.refs.Some? && m.refs.value.defaultRole.Some? ==> m.refs.value.defaultRole.value in m.refs.value.roles
  }

  function Place(f: Fault): nat {
    match f
    case NoSlash => 0
    case NoName => 1
    case WrongProvider => 2
    case NegativeCost => 3
    case UnknownParam => 4
    case WidthRange => 5
    case HeightRange => 6
    case UnknownMappedRole => 7
    case UnknownDefaultRole => 8
  }

  ghost predicate Valid(m: ModelSchema) {
    forall f: Fault :: Passes(m, f)
  }

  // The fault is the first failing check.
  ghost predicate FirstFailing(m: ModelSchema, f: Fault) {
    !Passes(m, f) && forall g: Fault | Place(g) < Place(f) :: Passes(m, g)
  }

  lemma NameChecks(m: ModelSchema)
    ensures NameFault(m.id, m.provider).None? <==> Passes(m, NoSlash) && Passes(m, NoName) && Passes(m, WrongProvider)
    ensures NameFault(m.id, m.provider).Some? ==>
              var f := NameFault(m.id, m.provider).value;
              Place(f) <= 2 && FirstFailing(m, f)
  {
    var (id, p, i) := (m.id, m.provider, FirstSlash(m.id));
    assert forall j | 0 <= j < i :: id[j] == id[..i][j];
    if i < |id| {
      assert id[i] == '/';
      if i + 1 == |id| {
        assert id[..|id| - 1] == id[..i];
      } else if id[|id| - 1] == '/' {
        assert id[..|id| - 1][i] == '/';
      }
      if Passes(m, WrongProvider) {
        assert forall j | 0 <= j < |p| :: id[j] == id[..|p|][j] == p[j];
        assert i == |p|;
      }
    }
  }

  // A model is accepted exactly if it passes every check, and otherwise its fault is the first it fails.
  lemma FaultsMeaning(m: ModelSchema)
    ensures Faults(m).None? <==> Valid(m)
    ensures Faults(m).Some? ==> FirstFailing(m, Faults(m).value)
    ensures Valid(m) ==> NamedUnder(m.id, m.provider)
  {
    NameChecks(m);
    NameFaultMeaning(m.id, m.provider);
    ParamsCheck(m);
    hide NameFault, NamedUnder;
    if Faults(m).None? {
      forall f: Fault
        ensures Passes(m, f)
      {
        match f
        case NoSlash =>
        case NoName =>
        case WrongProvider =>
        case NegativeCost =>
        case UnknownParam =>
        case WidthRange =>
        case HeightRange =>
        case UnknownMappedRole =>
        case UnknownDefaultRole =>
      }
    } else {
      assert FirstFailing(m, Faults(m).value);
    }
    if Valid(m) {
      assert Passes(m, NoSlash) && Passes(m, NoName) && Passes(m, WrongProvider);
    }
  }

  lemma ParamsCheck(m: ModelSchema)
    ensures m.params <= KNOWN_PARAMS <==> Passes(m, UnknownParam)
  {
  }

  function FirstFault(path: string, ms: seq<ModelSchema>): Option<LoadError> {
    if ms == [] then None
    else if Faults(ms[0]).Some? then Some(Validate(path, ms[0].id, Faults(ms[0]).value))
    else FirstFault(path, ms[1..])
  }

  function ParseFile(f: File): Result<seq<ModelSchema>, LoadError> {
    match f.parsed
    case Err(message) => Err(Parse(f.path, message))
    case Ok(ms) => if FirstFault(f.path, ms).Some? then Err(FirstFault(f.path, ms).value) else Ok(ms)
  }

  // A file passes exactly if each of its models does; otherwise the error names the first that does not,
  // and its first failing check.
  lemma {:induction false} FirstFaultMeaning(path: string, ms: seq<ModelSchema>)
    ensures FirstFault(path, ms).None? <==> forall i | 0 <= i < |ms| :: Faults(ms[i]).None?
    ensures FirstFault(path, ms).None? <==> forall i | 0 <= i < |ms| :: Valid(ms[i])
    ensures FirstFault(path, ms).Some? ==> NamesFirstFault(FirstFault(path, ms).value, path, ms)
  {
    hide Faults, Valid, FirstFailing;
    if ms != [] {
      FirstFaultMeaning(path, ms[1..]);
      FaultsMeaning(ms[0]);
      assert forall i | 0 < i < |ms| :: ms[i] == ms[1..][i - 1];
      if Faults(ms[0]).None? && FirstFault(path, ms).Some? {
        var i :| 0 <= i < |ms[1..]| && FirstInvalid(FirstFault(path, ms).value, path, ms[1..], i);
        assert FirstInvalid(FirstFault(path, ms).value, path, ms, i + 1);
      } else if Faults(ms[0]).Some? {
        assert FirstInvalid(FirstFault(path, ms).value, path, ms, 0);
      }
    }
  }

  ghost predicate FirstInvalid(e: LoadError, path: string, ms: seq<ModelSchema>, i: nat)
    requires i < |ms|
  {
    && e.Validate? && e.path == path && e.id == ms[i].id && FirstFailing(ms[i], e.fault)
    && !Valid(ms[i]) && forall j | 0 <= j < i :: Valid(ms[j])
  }

  ghost predicate NamesFirstFault(e: LoadError, path: string, ms: seq<ModelSchema>) {
    exists i :: 0 <= i < |ms| && FirstInvalid(e, path, ms, i)
  }

  ghost predicate FileValid(f: File) {
    f.parsed.Ok? && forall i | 0 <= i < |f.parsed.value| :: Valid(f.parsed.value[i])
  }

  // What a bad file is reported as.
  ghost predicate Reports(e: LoadError, f: File) {
    if f.parsed.Err? then e == Parse(f.path, f.parsed.error) else NamesFirstFault(e, f.path, f.parsed.value)
  }

  lemma ParseFileMeaning(f: File)
    ensures ParseFile(f).Ok? <==> FileValid(f)
    ensures FileValid(f) ==> ParseFile(f).value == f.parsed.value
    ensures !FileValid(f) ==> Reports(ParseFile(f).error, f)
  {
    hide Valid, NamesFirstFault;
    if f.parsed.Ok? {
      FirstFaultMeaning(f.path, f.parsed.value);
    }
  }

  // ---- Loading -------------------------------------------------------------

  type Catalog = map<string, ModelSchema>
  type Index = map<string, seq<string>>

  function FileErrors(files: seq<File>): seq<LoadError> {
    if files == [] then []
    else
      var r := ParseFile(files[|files| - 1]);
      FileErrors(files[..|files| - 1]) + if r.Err? then [r.error] else []
  }

  function Tag(path: string, ms: seq<ModelSchema>): seq<(string, ModelSchema)> {
    seq(|ms|, i requires 0 <= i < |ms| => (path, ms[i]))
  }

  function AllModels(files: seq<File>): seq<(string, ModelSchema)> {
    if files == [] then []
    else
      var f := files[|files| - 1];
      var r := ParseFile(f);
      AllModels(files[..|files| - 1]) + if r.Ok? then Tag(f.path, r.value) else []
  }

  // The error names the first model whose id an earlier one has, and the file it came from.
  ghost predicate NamesFirstRepeat(e: LoadError, all: seq<(string, ModelSchema)>) {
    exists i ::
      && 0 <= i < |all| && e == Duplicate(all[i].0, all[i].1.id)
      && DistinctIds(all[..i])
      && exists j :: 0 <= j < i && all[j].1.id == all[i].1.id
  }

  predicate Strictly(ids: seq<string>) {
    forall i, j | 0 <= i < j < |ids| :: Less(ids[i], ids[j])
  }

  // The catalog holds exactly the models of the list, each under its id.
  ghost predicate Holds(catalog: Catalog, all: seq<(string, ModelSchema)>) {
    && (forall i | 0 <= i < |all| :: all[i].1.id in catalog && catalog[all[i].1.id] == all[i].1)
    && (forall id | id in catalog :: exists i :: 0 <= i < |all| && all[i].1 == catalog[id] && all[i].1.id == id)
  }

  // The index lists, for every provider, exactly the ids of its models, once each.
  ghost predicate Lists(index: Index, catalog: Catalog) {
    && (forall p | p in index :: index[p] != [] && forall i, j | 0 <= i < j < |index[p]| :: index[p][i] != index[p][j])
    && (forall p, id | p in index && id in index[p] :: id in catalog && catalog[id].provider == p)
    && (forall id | id in catalog :: catalog[id].provider in index && id in index[catalog[id].provider])
  }

  ghost predicate Indexes(index: Index, catalog: Catalog) {
    Lists(index, catalog) && forall p | p in index :: Strictly(index[p])
  }

  predicate DistinctIds(all: seq<(string, ModelSchema)>) {
    forall i, j | 0 <= i < j < |all| :: all[i].1.id != all[j].1.id
  }

  // Sorting a list of distinct ids.
  function InsertId(id: string, ids: seq<string>): seq<string> {
    if ids == [] || Less(id, ids[0]) then [id] + ids else [ids[0]] + InsertId(id, ids[1..])
  }

  function SortIds(ids: seq<string>): seq<string> {
    if ids == [] then [] else InsertId(ids[0], SortIds(ids[1..]))
  }

  lemma {:induction false} InsertIdSorts(id: string, ids: seq<string>)
    requires Strictly(ids) && id !in ids
    ensures Strictly(InsertId(id, ids))
    ensures forall x :: x in InsertId(id, ids) <==> x == id || x in ids
  {
    if ids == [] {
    } else if Less(id, ids[0]) {
      forall j | 0 < j < |ids| { LessTransitive(id, ids[0], ids[j]); }
    } else {
      LessTotal(id, ids[0]);
      InsertIdSorts(id, ids[1..]);
      var tail := InsertId(id, ids[1..]);
      forall j | 0 <= j < |tail|
        ensures Less(ids[0], tail[j])
      {
        assert tail[j] in tail;
      }
      assert ids == [ids[0]] + ids[1..];
    }
  }

  lemma {:induction false} SortIdsSorts(ids: seq<string>)
    requires forall i, j | 0 <= i < j < |ids| :: ids[i] != ids[j]
    ensures Strictly(SortIds(ids))
    ensures forall x :: x in SortIds(ids) <==> x in ids
  {
    if ids != [] {
      SortIdsSorts(ids[1..]);
      assert forall j | 0 < j < |ids| :: ids[j] == ids[1..][j - 1];
      InsertIdSorts(ids[0], SortIds(ids[1..]));
      assert ids == [ids[0]] + ids[1..];
    }
  }

  // A strictly increasing list is determined by its members.
  lemma {:induction false} SortedUnique(a: seq<string>, b: seq<string>)
    requires Strictly(a) && Strictly(b) && forall x :: x in a <==> x in b
    ensures a == b
  {
    assert b != [] ==> b[0] in b;
    if a != [] {
      assert a[0] in a && a[0] in b;
      assert b != [];
      assert b[0] in b && b[0] in a;
      var i :| 0 <= i < |b| && b[i] == a[0];
      var j :| 0 <= j < |a| && a[j] == b[0];
      if i > 0 && j > 0 {
        LessTransitive(a[0], a[j], a[0]);
        LessIrreflexive(a[0]);
      }
      assert a[0] == b[0];
      HeadOnce(a);
      HeadOnce(b);
      SortedUnique(a[1..], b[1..]);
    }
  }

  lemma HeadOnce(a: seq<string>)
    requires Strictly(a) && a != []
    ensures a == [a[0]] + a[1..]
    ensures forall x :: x in a[1..] <==> x in a && x != a[0]
  {
    LessIrreflexive(a[0]);
    assert forall x :: x in a <==> x == a[0] || x in a[1..] by { assert a == [a[0]] + a[1..]; }
  }

  method ParseAll(files: seq<File>) returns (all: seq<(string, ModelSchema)>, errors: seq<LoadError>)
    ensures all == AllModels(files) && errors == FileErrors(files)
  {
    all, errors := [], [];
    for i := 0 to |files|
      invariant all == AllModels(files[..i]) && errors == FileErrors(files[..i])
    {
      assert files[..i + 1][..i] == files[..i];
      match ParseFile(files[i])
      case Ok(ms) =>
        ghost var before := all;
        for j := 0 to |ms|
          invariant all == before + Tag(files[i].path, ms[..j])
        {
          all := all + [(files[i].path, ms[j])];
        }
        assert ms[..|ms|] == ms;
      case Err(e) => errors := errors + [e];
    }
    assert files[..|files|] == files;
  }

  // Inserts model by model; stops at the first id seen before.
  method InsertAll(all: seq<(string, ModelSchema)>) returns (r: Result<(Catalog, Index), LoadError>)
    ensures r.Ok? <==> DistinctIds(all)
    ensures r.Ok? ==> Holds(r.value.0, all) && Lists(r.value.1, r.value.0)
    ensures r.Err? ==> NamesFirstRepeat(r.error, all)
  {
    hide Lists;
    var models: Catalog := map[];
    var byProvider: Index := map[];
    NoLists();
    for i := 0 to |all|
      invariant DistinctIds(all[..i]) && Holds(models, all[..i]) && Lists(byProvider, models)
    {
      var (path, m) := all[i];
      assert all[..i + 1] == all[..i] + [all[i]];
      if m.id in models {
        var j :| 0 <= j < |all[..i]| && all[..i][j].1 == models[m.id] && all[..i][j].1.id == m.id;
        assert all[j].1.id == all[i].1.id;
        return Err(Duplicate(path, m.id));
      }
      assert forall j | 0 <= j < i :: all[j].1.id != m.id by {
        assert forall j | 0 <= j < i :: all[..i][j] == all[j];
      }
      var ids := if m.provider in byProvider then byProvider[m.provider] else [];
      ghost var (models0, index0) := (models, byProvider);
      byProvider := byProvider[m.provider := ids + [m.id]];
      models := models[m.id := m];
      ListsNext(index0, models0, m);
      HoldsNext(models0, all[..i], all[i]);
    }
    assert all[..|all|] == all;
    r := Ok((models, byProvider));
  }

  lemma NoLists()
    ensures Lists(map[], map[])
  {
  }

  lemma HoldsNext(catalog: Catalog, all: seq<(string, ModelSchema)>, a: (string, ModelSchema))
    requires Holds(catalog, all) && a.1.id !in catalog
    ensures Holds(catalog[a.1.id := a.1], all + [a])
  {
    var (c, b) := (catalog[a.1.id := a.1], all + [a]);
    forall id | id in c
      ensures exists i :: 0 <= i < |b| && b[i].1 == c[id] && b[i].1.id == id
    {
      if id == a.1.id {
        assert b[|all|] == a;
      } else {
        var i :| 0 <= i < |all| && all[i].1 == catalog[id] && all[i].1.id == id;
        assert b[i] == all[i];
      }
    }
  }

  lemma ListsNext(index: Index, catalog: Catalog, m: ModelSchema)
    requires Lists(index, catalog) && m.id !in catalog
    ensures var ids := if m.provider in index then index[m.provider] else [];
            Lists(index[m.provider := ids + [m.id]], catalog[m.id := m])
  {
    var ids := if m.provider in index then index[m.provider] else [];
    assert forall i | 0 <= i < |ids| :: ids[i] in ids;
    var n := index[m.provider := ids + [m.id]];
    forall p, id | p in n && id in n[p]
      ensures id in catalog[m.id := m] && catalog[m.id := m][id].provider == p
    {
    }
  }

  lemma SortedIndex(index: Index, catalog: Catalog, sorted: Index)
    requires Lists(index, catalog) && sorted.Keys == index.Keys && forall p | p in sorted :: sorted[p] == SortIds(index[p])
    ensures Indexes(sorted, catalog)
  {
    hide SortIds, Less;
    forall p | p in sorted
      ensures Strictly(sorted[p]) && sorted[p] != []
      ensures forall x :: x in sorted[p] <==> x in index[p]
      ensures forall i, j | 0 <= i < j < |sorted[p]| :: sorted[p][i] != sorted[p][j]
    {
      SortIdsSorts(index[p]);
      assert index[p][0] in sorted[p];
      forall i | 0 <= i < |sorted[p]| { LessIrreflexive(sorted[p][i]); }
    }
  }

  method SortAll(index: Index, ghost catalog: Catalog) returns (sorted: Index)
    requires Lists(index, catalog)
    ensures Indexes(sorted, catalog)
  {
    hide SortIds, Lists, Indexes;
    sorted := index;
    var left := index.Keys;
    while left != {}
      invariant left <= index.Keys == sorted.Keys
      invariant forall p | p in left :: sorted[p] == index[p]
      invariant forall p | p in sorted.Keys - left :: sorted[p] == SortIds(index[p])
      decreases left
    {
      var p :| p in left;
      sorted := sorted[p := SortIds(sorted[p])];
      left := left - {p};
    }
    SortedIndex(index, catalog, sorted);
  }

  // ---- Loading, file by file -----------------------------------------------

  // The positions of the files that do not load, in order.
  ghost predicate BadAt(files: seq<File>, at: seq<nat>) {
    && (forall n | 0 <= n < |at| :: at[n] < |files|)
    && (forall m, n | 0 <= m < n < |at| :: at[m] < at[n])
    && (forall i | 0 <= i < |files| :: !FileValid(files[i]) <==> i in at)
  }

  ghost predicate ReportsEach(errors: seq<LoadError>, files: seq<File>, at: seq<nat>) {
    |errors| == |at| && forall n | 0 <= n < |at| :: at[n] < |files| && Reports(errors[n], files[at[n]])
  }

  function ModelAt(files: seq<File>, i: nat, a: nat): Option<ModelSchema> {
    if i < |files| && files[i].parsed.Ok? && a < |files[i].parsed.value| then Some(files[i].parsed.value[a]) else None
  }

  // Models at different places of the files have different ids.
  ghost predicate NoRepeats(files: seq<File>) {
    forall i, a, j, b | ModelAt(files, i, a).Some? && ModelAt(files, j, b).Some? && (i != j || a != b) ::
      ModelAt(files, i, a).value.id != ModelAt(files, j, b).value.id
  }

  lemma BadNext(files: seq<File>, f: File, at: seq<nat>, errors: seq<LoadError>)
    requires BadAt(files, at) && ReportsEach(errors, files, at)
    ensures FileValid(f) ==> BadAt(files + [f], at) && ReportsEach(errors, files + [f], at)
    ensures forall e | !FileValid(f) && Reports(e, f) :: BadAt(files + [f], at + [|files|]) && ReportsEach(errors + [e], files + [f], at + [|files|])
  {
    hide FileValid, Reports;
    assert forall i: nat :: i in at + [|files|] <==> i in at || i == |files|;
  }

  lemma {:induction false} ErrorsReport(files: seq<File>) returns (at: seq<nat>)
    ensures BadAt(files, at) && ReportsEach(FileErrors(files), files, at)
  {
    if files == [] {
      at := [];
    } else {
      hide FileValid, Reports, ParseFile, BadAt, ReportsEach;
      var f := files[|files| - 1];
      var before := ErrorsReport(files[..|files| - 1]);
      ParseFileMeaning(f);
      BadNext(files[..|files| - 1], f, before, FileErrors(files[..|files| - 1]));
      assert files == files[..|files| - 1] + [f];
      at := if FileValid(f) then before else before + [|files| - 1];
      assert FileErrors(files) == FileErrors(files[..|files| - 1]) + if FileValid(f) then [] else [ParseFile(f).error];
      assert FileErrors(files[..|files| - 1]) + [] == FileErrors(files[..|files| - 1]);
    }
  }

  ghost predicate InModels(m: ModelSchema, all: seq<(string, ModelSchema)>) {
    exists i :: 0 <= i < |all| && all[i].1 == m
  }

  ghost predicate InFiles(m: ModelSchema, files: seq<File>) {
    exists i, a :: ModelAt(files, i, a) == Some(m)
  }

  lemma InModelsNext(all: seq<(string, ModelSchema)>, path: string, ms: seq<ModelSchema>, m: ModelSchema)
    ensures InModels(m, all + Tag(path, ms)) <==> InModels(m, all) || m in ms
  {
    var both := all + Tag(path, ms);
    if InModels(m, all) {
      var i :| 0 <= i < |all| && all[i].1 == m;
      assert both[i].1 == m;
    }
    if m in ms {
      var a :| 0 <= a < |ms| && ms[a] == m;
      assert both[|all| + a].1 == m;
    }
  }

  lemma InFilesNext(files: seq<File>, f: File, m: ModelSchema)
    requires f.parsed.Ok?
    ensures InFiles(m, files + [f]) <==> InFiles(m, files) || m in f.parsed.value
  {
    var both := files + [f];
    if InFiles(m, files) {
      var i: nat, a: nat :| ModelAt(files, i, a) == Some(m);
      assert ModelAt(both, i, a) == Some(m);
    }
    if m in f.parsed.value {
      var a :| 0 <= a < |f.parsed.value| && f.parsed.value[a] == m;
      assert ModelAt(both, |files|, a) == Some(m);
    }
    if InFiles(m, both) {
      var i: nat, a: nat :| ModelAt(both, i, a) == Some(m);
      if i < |files| {
        assert ModelAt(files, i, a) == Some(m);
      }
    }
  }

  // With every file valid, the models to insert are exactly those of the files.
  lemma {:induction false} ModelsAreThose(files: seq<File>, m: ModelSchema)
    requires forall i | 0 <= i < |files| :: FileValid(files[i])
    ensures InModels(m, AllModels(files)) <==> InFiles(m, files)
  {
    hide FileValid, ParseFile, InModels, InFiles;
    if files == [] {
      NoModels(m);
    } else {
      var (init, f) := (files[..|files| - 1], files[|files| - 1]);
      assert files == init + [f] && forall i | 0 <= i < |init| :: init[i] == files[i];
      ModelsAreThose(init, m);
      ParseFileMeaning(f);
      ParsedIfValid(f);
      InModelsNext(AllModels(init), f.path, f.parsed.value, m);
      InFilesNext(init, f, m);
    }
  }

  lemma NoModels(m: ModelSchema)
    ensures !InModels(m, []) && !InFiles(m, []) && NoRepeats([])
  {
  }

  lemma ParsedIfValid(f: File)
    requires FileValid(f)
    ensures f.parsed.Ok?
  {
  }

  ghost predicate Apart(ms: seq<ModelSchema>) {
    forall a, b | 0 <= a < b < |ms| :: ms[a].id != ms[b].id
  }

  lemma DistinctNext(all: seq<(string, ModelSchema)>, path: string, ms: seq<ModelSchema>)
    ensures DistinctIds(all + Tag(path, ms)) <==>
            DistinctIds(all) && Apart(ms) && forall m, n | InModels(m, all) && n in ms :: m.id != n.id
  {
    var both := all + Tag(path, ms);
    assert forall i | 0 <= i < |all| :: both[i] == all[i];
    assert forall a | 0 <= a < |ms| :: both[|all| + a].1 == ms[a];
    if DistinctIds(both) {
      forall a, b | 0 <= a < b < |ms|
        ensures ms[a].id != ms[b].id
      {
        assert both[|all| + a].1.id != both[|all| + b].1.id;
      }
      forall m, n | InModels(m, all) && n in ms
        ensures m.id != n.id
      {
        var i :| 0 <= i < |all| && all[i].1 == m;
        var a :| 0 <= a < |ms| && ms[a] == n;
        assert both[i].1.id != both[|all| + a].1.id;
      }
    }
    if DistinctIds(all) && Apart(ms) && forall m, n | InModels(m, all) && n in ms :: m.id != n.id {
      forall i, j | 0 <= i < j < |both|
        ensures both[i].1.id != both[j].1.id
      {
        if j >= |all| {
          assert both[j].1 == ms[j - |all|] && ms[j - |all|] in ms;
          if i < |all| {
            assert InModels(all[i].1, all);
          } else {
            assert both[i].1 == ms[i - |all|];
          }
        }
      }
    }
  }

  lemma NoRepeatsNext(files: seq<File>, f: File)
    requires f.parsed.Ok?
    ensures NoRepeats(files + [f]) <==>
            NoRepeats(files) && Apart(f.parsed.value) && forall m, n | InFiles(m, files) && n in f.parsed.value :: m.id != n.id
  {
    var (both, ms, k) := (files + [f], f.parsed.value, |files|);
    assert forall i: nat, a: nat | i < k :: ModelAt(both, i, a) == ModelAt(files, i, a);
    assert forall a: nat :: ModelAt(both, k, a) == if a < |ms| then Some(ms[a]) else None;
    if NoRepeats(both) {
      forall i, a, j, b | ModelAt(files, i, a).Some? && ModelAt(files, j, b).Some? && (i != j || a != b)
        ensures ModelAt(files, i, a).value.id != ModelAt(files, j, b).value.id
      {
        assert ModelAt(both, i, a).Some? && ModelAt(both, j, b).Some?;
      }
      forall a, b | 0 <= a < b < |ms|
        ensures ms[a].id != ms[b].id
      {
        assert ModelAt(both, k, a) == Some(ms[a]) && ModelAt(both, k, b) == Some(ms[b]);
      }
      forall m, n | InFiles(m, files) && n in ms
        ensures m.id != n.id
      {
        var i: nat, a: nat :| ModelAt(files, i, a) == Some(m);
        var b :| 0 <= b < |ms| && ms[b] == n;
        assert ModelAt(both, i, a) == Some(m) && ModelAt(both, k, b) == Some(n);
      }
    }
    if NoRepeats(files) && Apart(ms) && forall m, n | InFiles(m, files) && n in ms :: m.id != n.id {
      forall i, a, j, b | ModelAt(both, i, a).Some? && ModelAt(both, j, b).Some? && (i != j || a != b)
        ensures ModelAt(both, i, a).value.id != ModelAt(both, j, b).value.id
      {
        DifferentPlaces(files, f, i, a, j, b);
      }
    }
  }

  lemma DifferentPlaces(files: seq<File>, f: File, i: nat, a: nat, j: nat, b: nat)
    requires f.parsed.Ok? && NoRepeats(files) && Apart(f.parsed.value)
    requires forall m, n | InFiles(m, files) && n in f.parsed.value :: m.id != n.id
    requires ModelAt(files + [f], i, a).Some? && ModelAt(files + [f], j, b).Some? && (i != j || a != b)
    ensures ModelAt(files + [f], i, a).value.id != ModelAt(files + [f], j, b).value.id
  {
    var (both, k) := (files + [f], |files|);
    if i < k {
      assert ModelAt(files, i, a) == ModelAt(both, i, a);
      assert InFiles(ModelAt(both, i, a).value, files);
    }
    if j < k {
      assert ModelAt(files, j, b) == ModelAt(both, j, b);
      assert InFiles(ModelAt(both, j, b).value, files);
    }
  }

  lemma {:induction false} DistinctAcrossFiles(files: seq<File>)
    requires forall i | 0 <= i < |files| :: FileValid(files[i])
    ensures DistinctIds(AllModels(files)) <==> NoRepeats(files)
  {
    hide FileValid, ParseFile, InModels, InFiles, DistinctIds, NoRepeats, Apart;
    if files == [] {
      NothingRepeats();
    } else {
      var (init, f) := (files[..|files| - 1], files[|files| - 1]);
      assert files == init + [f] && forall i | 0 <= i < |init| :: init[i] == files[i];
      DistinctAcrossFiles(init);
      ParseFileMeaning(f);
      ParsedIfValid(f);
      DistinctNext(AllModels(init), f.path, f.parsed.value);
      NoRepeatsNext(init, f);
      forall m { ModelsAreThose(init, m); }
    }
  }

  lemma NothingRepeats()
    ensures DistinctIds([]) && NoRepeats([])
  {
  }

  // How many models the files before the i-th hold.
  function ModelsBefore(files: seq<File>, i: nat): nat
    requires i <= |files|
  {
    if i == 0 then 0
    else ModelsBefore(files, i - 1) + if files[i - 1].parsed.Ok? then |files[i - 1].parsed.value| else 0
  }

  lemma {:induction false} BeforeInit(files: seq<File>, f: File, i: nat)
    requires i <= |files|
    ensures ModelsBefore(files + [f], i) == ModelsBefore(files, i)
  {
    if i > 0 {
      BeforeInit(files, f, i - 1);
    }
  }

  lemma {:induction false} BeforeGrows(files: seq<File>, i: nat, j: nat)
    requires i < j <= |files| && files[i].parsed.Ok?
    ensures ModelsBefore(files, i) + |files[i].parsed.value| <= ModelsBefore(files, j)
  {
    if i < j - 1 {
      BeforeGrows(files, i, j - 1);
    }
  }

  // Every model stands in the list at its place, with the path of its file.
  ghost predicate Placed(all: seq<(string, ModelSchema)>, files: seq<File>) {
    && |all| == ModelsBefore(files, |files|)
    && forall i: nat, a: nat | ModelAt(files, i, a).Some? ::
         ModelsBefore(files, i) + a < |all| && all[ModelsBefore(files, i) + a] == (files[i].path, ModelAt(files, i, a).value)
  }

  lemma PlacedNext(all: seq<(string, ModelSchema)>, files: seq<File>, f: File)
    requires Placed(all, files) && f.parsed.Ok?
    ensures Placed(all + Tag(f.path, f.parsed.value), files + [f])
  {
    var both := files + [f];
    forall i: nat | i <= |files| { BeforeInit(files, f, i); }
    assert both[|files|] == f;
    LastBefore(both);
    hide ModelsBefore;
    forall i: nat, a: nat | ModelAt(both, i, a).Some?
      ensures ModelsBefore(both, i) + a < |all + Tag(f.path, f.parsed.value)|
      ensures (all + Tag(f.path, f.parsed.value))[ModelsBefore(both, i) + a] == (both[i].path, ModelAt(both, i, a).value)
    {
      if i < |files| {
        assert ModelAt(files, i, a) == ModelAt(both, i, a);
      }
    }
  }

  lemma LastBefore(files: seq<File>)
    requires files != [] && files[|files| - 1].parsed.Ok?
    ensures ModelsBefore(files, |files|) == ModelsBefore(files, |files| - 1) + |files[|files| - 1].parsed.value|
  {
  }

  lemma NothingPlaced()
    ensures Placed([], [])
  {
  }

  lemma {:induction false} ModelsPlaced(files: seq<File>)
    requires forall i | 0 <= i < |files| :: FileValid(files[i])
    ensures Placed(AllModels(files), files)
  {
    hide FileValid, ParseFile, Placed;
    if files == [] {
      NothingPlaced();
    } else {
      var (init, f) := (files[..|files| - 1], files[|files| - 1]);
      assert files == init + [f] && forall i | 0 <= i < |init| :: init[i] == files[i];
      ModelsPlaced(init);
      ParseFileMeaning(f);
      ParsedIfValid(f);
      PlacedNext(AllModels(init), init, f);
    }
  }

  lemma {:induction false} PlaceOf(files: seq<File>, p: nat) returns (i: nat, a: nat)
    requires (forall i | 0 <= i < |files| :: files[i].parsed.Ok?) && p < ModelsBefore(files, |files|)
    ensures ModelAt(files, i, a).Some? && p == ModelsBefore(files, i) + a
  {
    i, a := PlaceUpTo(files, |files|, p);
  }

  lemma {:induction false} PlaceUpTo(files: seq<File>, n: nat, p: nat) returns (i: nat, a: nat)
    requires n <= |files| && (forall i | 0 <= i < |files| :: files[i].parsed.Ok?) && p < ModelsBefore(files, n)
    ensures ModelAt(files, i, a).Some? && p == ModelsBefore(files, i) + a
  {
    if p < ModelsBefore(files, n - 1) {
      i, a := PlaceUpTo(files, n - 1, p);
    } else {
      i, a := n - 1, p - ModelsBefore(files, n - 1);
    }
  }

  // The place (j, b) comes before the place (i, a): in an earlier file, or earlier in the same.
  predicate Earlier(j: nat, b: nat, i: nat, a: nat) {
    j < i || (j == i && b < a)
  }

  // The error names the id and the file of the first model, in the order of the files, whose id an earlier one has.
  ghost predicate RepeatAt(e: LoadError, files: seq<File>, i: nat, a: nat) {
    && ModelAt(files, i, a).Some? && e == Duplicate(files[i].path, ModelAt(files, i, a).value.id)
    && (exists j: nat, b: nat :: Earlier(j, b, i, a) && ModelAt(files, j, b).Some? && ModelAt(files, j, b).value.id == e.id)
    && (forall j: nat, b: nat, k: nat, c: nat ::
          Earlier(j, b, i, a) && Earlier(k, c, j, b) && ModelAt(files, j, b).Some? && ModelAt(files, k, c).Some? ==>
            ModelAt(files, j, b).value.id != ModelAt(files, k, c).value.id)
  }

  ghost predicate FirstRepeat(e: LoadError, files: seq<File>) {
    exists i: nat, a: nat :: RepeatAt(e, files, i, a)
  }

  lemma PlacesInOrder(files: seq<File>, j: nat, b: nat, i: nat, a: nat)
    requires ModelAt(files, j, b).Some? && ModelAt(files, i, a).Some?
    ensures Earlier(j, b, i, a) <==> ModelsBefore(files, j) + b < ModelsBefore(files, i) + a
  {
    if j < i {
      BeforeGrows(files, j, i);
    } else if i < j {
      BeforeGrows(files, i, j);
    }
  }

  lemma DistinctPlaces(all: seq<(string, ModelSchema)>, files: seq<File>, p: nat, j: nat, b: nat, k: nat, c: nat)
    requires Placed(all, files) && p <= |all| && DistinctIds(all[..p])
    requires ModelAt(files, j, b).Some? && ModelAt(files, k, c).Some? && Earlier(k, c, j, b) && ModelsBefore(files, j) + b < p
    ensures ModelAt(files, j, b).value.id != ModelAt(files, k, c).value.id
  {
    hide ModelsBefore;
    PlacesInOrder(files, k, c, j, b);
    var (x, y) := (ModelsBefore(files, j) + b, ModelsBefore(files, k) + c);
    assert all[..p][x] == all[x] && all[..p][y] == all[y];
  }

  lemma RepeatPlaced(e: LoadError, all: seq<(string, ModelSchema)>, files: seq<File>)
    requires (forall i | 0 <= i < |files| :: files[i].parsed.Ok?) && Placed(all, files) && NamesFirstRepeat(e, all)
    ensures FirstRepeat(e, files)
  {
    var p :| 0 <= p < |all| && e == Duplicate(all[p].0, all[p].1.id) && DistinctIds(all[..p])
             && exists q :: 0 <= q < p && all[q].1.id == all[p].1.id;
    var q :| 0 <= q < p && all[q].1.id == all[p].1.id;
    hide ModelsBefore, DistinctIds, ModelAt;
    var i, a := PlaceOf(files, p);
    var j, b := PlaceOf(files, q);
    PlacesInOrder(files, j, b, i, a);
    assert ModelAt(files, j, b).value.id == e.id;
    forall j: nat, b: nat, k: nat, c: nat | Earlier(j, b, i, a) && Earlier(k, c, j, b) && ModelAt(files, j, b).Some? && ModelAt(files, k, c).Some?
      ensures ModelAt(files, j, b).value.id != ModelAt(files, k, c).value.id
    {
      PlacesInOrder(files, j, b, i, a);
      DistinctPlaces(all, files, p, j, b, k, c);
    }
    ModelInFile(files, i, a);
    assert RepeatAt(e, files, i, a);
  }

  lemma ModelInFile(files: seq<File>, i: nat, a: nat)
    requires ModelAt(files, i, a).Some?
    ensures i < |files|
  {
  }

  lemma RepeatInFiles(e: LoadError, files: seq<File>)
    requires (forall i | 0 <= i < |files| :: FileValid(files[i])) && NamesFirstRepeat(e, AllModels(files))
    ensures FirstRepeat(e, files)
  {
    hide FileValid, AllModels, NamesFirstRepeat, FirstRepeat, Placed;
    forall i | 0 <= i < |files| ensures files[i].parsed.Ok? { ParsedIfValid(files[i]); }
    ModelsPlaced(files);
    RepeatPlaced(e, AllModels(files), files);
  }

  method FromYamlStrs(files: seq<File>) returns (r: Result<(Catalog, Index), LoadError>)
    ensures r.Ok? <==> FileErrors(files) == [] && DistinctIds(AllModels(files))
    ensures r.Ok? ==> Holds(r.value.0, AllModels(files)) && Indexes(r.value.1, r.value.0)
    ensures r.Ok? <==> (forall i | 0 <= i < |files| :: FileValid(files[i])) && NoRepeats(files)
    ensures r.Ok? ==> forall m: ModelSchema :: m.id in r.value.0 && r.value.0[m.id] == m <==> InFiles(m, files)
    ensures (exists i :: 0 <= i < |files| && !FileValid(files[i])) ==>
              r.Err? && exists at :: BadAt(files, at) && (if |at| == 1 then Reports(r.error, files[at[0]])
                                                          else r.error.Aggregate? && ReportsEach(r.error.errors, files, at))
    ensures |FileErrors(files)| == 1 ==> r == Err(FileErrors(files)[0])
    ensures |FileErrors(files)| > 1 ==> r == Err(Aggregate(FileErrors(files)))
    ensures FileErrors(files) == [] && r.Err? ==> NamesFirstRepeat(r.error, AllModels(files))
    ensures (forall i | 0 <= i < |files| :: FileValid(files[i])) && r.Err? ==> FirstRepeat(r.error, files)
  {
    var all, errors := ParseAll(files);
    ghost var at := ErrorsReport(files);
    hide FileValid, Reports, Holds, DistinctIds, NoRepeats, InFiles, Indexes, Lists, FirstRepeat, NamesFirstRepeat;
    LoadedFiles(files, at);
    if errors != [] {
      return Err(if |errors| == 1 then errors[0] else Aggregate(errors));
    }
    var inserted := InsertAll(all);
    if inserted.Err? {
      RepeatInFiles(inserted.error, files);
      return Err(inserted.error);
    }
    var index := SortAll(inserted.value.1, inserted.value.0);
    r := Ok((inserted.value.0, index));
    forall m: ModelSchema
      ensures m.id in r.value.0 && r.value.0[m.id] == m <==> InFiles(m, files)
    {
      HeldModels(r.value.0, all, m);
      ModelsAreThose(files, m);
    }
  }

  lemma HeldModels(catalog: Catalog, all: seq<(string, ModelSchema)>, m: ModelSchema)
    requires Holds(catalog, all)
    ensures m.id in catalog && catalog[m.id] == m <==> InModels(m, all)
  {
  }

  lemma LoadedFiles(files: seq<File>, at: seq<nat>)
    requires BadAt(files, at) && ReportsEach(FileErrors(files), files, at)
    ensures FileErrors(files) == [] <==> forall i | 0 <= i < |files| :: FileValid(files[i])
    ensures FileErrors(files) == [] ==> (DistinctIds(AllModels(files)) <==> NoRepeats(files))
  {
    hide FileValid, Reports, DistinctIds, NoRepeats, AllModels, FileErrors;
    if FileErrors(files) == [] {
      DistinctAcrossFiles(files);
    } else {
      assert at[0] in at;
    }
  }

  // ---- What the index means ------------------------------------------------

  ghost predicate AllValid(all: seq<(string, ModelSchema)>) {
    forall i | 0 <= i < |all| :: Faults(all[i].1).None?
  }

  lemma {:induction false} LoadedModelsAreValid(files: seq<File>)
    ensures AllValid(AllModels(files))
  {
    hide Faults;
    if files != [] {
      LoadedModelsAreValid(files[..|files| - 1]);
      var f := files[|files| - 1];
      if f.parsed.Ok? {
        FirstFaultMeaning(f.path, f.parsed.value);
      }
    }
  }

  function ForProvider(catalog: Catalog, index: Index, p: string): seq<string> {
    if p in index then index[p] else []
  }

  lemma Member(index: Index, catalog: Catalog, p: string, id: string)
    requires Lists(index, catalog)
    ensures p in index && id in index[p] <==> id in catalog && catalog[id].provider == p
  {
  }

  // For every provider name without a slash, the index gives in order exactly the catalog ids that
  // start with that name and a slash: so the lists of all providers partition the catalog.
  lemma IndexIsPrefix(files: seq<File>, catalog: Catalog, index: Index, p: string)
    requires Holds(catalog, AllModels(files)) && Indexes(index, catalog) && '/' !in p
    ensures Strictly(ForProvider(catalog, index, p))
    ensures forall id :: id in ForProvider(catalog, index, p) <==>
                         id in catalog && |id| >= |p| + 1 && id[..|p| + 1] == p + "/"
  {
    hide Faults, AllModels, Less;
    LoadedModelsAreValid(files);
    forall id
      ensures id in ForProvider(catalog, index, p) <==> id in catalog && |id| >= |p| + 1 && id[..|p| + 1] == p + "/"
    {
      Member(index, catalog, p, id);
      if id in catalog {
        var i :| 0 <= i < |AllModels(files)| && AllModels(files)[i].1 == catalog[id] && AllModels(files)[i].1.id == id;
        PrefixIsProvider(catalog[id], p);
      }
    }
  }

  lemma PrefixIsProvider(m: ModelSchema, p: string)
    requires Faults(m).None? && '/' !in p
    ensures |m.id| >= |p| + 1 && m.id[..|p| + 1] == p + "/" <==> m.provider == p
  {
    var (id, q) := (m.id, m.provider);
    NameFaultMeaning(id, q);
    SlashAfter(id, q);
    if |id| >= |p| + 1 && id[..|p| + 1] == p + "/" {
      assert id[|p|] == id[..|p| + 1][|p|] == '/';
      assert forall j | 0 <= j < |q| :: id[j] == id[..|q|][j] == q[j] && q[j] in q;
      assert |p| >= |q|;
      assert id[|q|] == id[..|q| + 1][|q|] == '/';
      assert forall j | 0 <= j < |p| :: id[j] == id[..|p| + 1][j] == p[j] && p[j] in p;
      assert id[..|p|] == p;
    }
  }

  // The same models, in any order, give the same catalog and index.
  lemma OrderDoesNotMatter(a: seq<(string, ModelSchema)>, b: seq<(string, ModelSchema)>,
                           ca: Catalog, ia: Index, cb: Catalog, ib: Index)
    requires forall x :: x in a <==> x in b
    requires Holds(ca, a) && Indexes(ia, ca) && Holds(cb, b) && Indexes(ib, cb)
    ensures ca == cb && ia == ib
  {
    hide Less;
    forall id
      ensures id in ca <==> id in cb
      ensures id in ca ==> ca[id] == cb[id]
    {
      if id in ca {
        var i :| 0 <= i < |a| && a[i].1 == ca[id] && a[i].1.id == id;
        assert a[i] in a && a[i] in b;
      }
      if id in cb {
        var i :| 0 <= i < |b| && b[i].1 == cb[id] && b[i].1.id == id;
        assert b[i] in b && b[i] in a;
      }
    }
    assert ca == cb;
    forall p, id
      ensures p in ia && id in ia[p] <==> p in ib && id in ib[p]
    {
      Member(ia, ca, p, id);
      Member(ib, cb, p, id);
    }
    forall p
      ensures p in ia <==> p in ib
      ensures p in ia ==> ia[p] == ib[p]
    {
      if p in ia { assert ia[p][0] in ia[p]; }
      if p in ib { assert ib[p][0] in ib[p]; }
      if p in ia && p in ib { SortedUnique(ia[p], ib[p]); }
    }
  }

  lemma {:induction false} ReorderedModels(files: seq<File>, x: (string, ModelSchema))
    ensures x in AllModels(files) <==>
            exists f :: f in files && ParseFile(f).Ok? && x.0 == f.path && x.1 in ParseFile(f).value
  {
    hide ParseFile;
    if files != [] {
      var (init, f) := (files[..|files| - 1], files[|files| - 1]);
      ReorderedModels(init, x);
      assert files == init + [f];
      if ParseFile(f).Ok? {
        var ms := ParseFile(f).value;
        assert x in Tag(f.path, ms) <==> x.0 == f.path && x.1 in ms by {
          if x.0 == f.path && x.1 in ms {
            var i :| 0 <= i < |ms| && ms[i] == x.1;
            assert Tag(f.path, ms)[i] == x;
          }
        }
      }
    }
  }

  // How often each id is declared in the files.
  function Ids(all: seq<(string, ModelSchema)>): multiset<string> {
    if all == [] then multiset{} else Ids(all[..|all| - 1]) + multiset{all[|all| - 1].1.id}
  }

  lemma {:induction false} IdsConcat(a: seq<(string, ModelSchema)>, b: seq<(string, ModelSchema)>)
    ensures Ids(a + b) == Ids(a) + Ids(b)
  {
    if b == [] {
      assert a + b == a;
    } else {
      assert (a + b)[..|a + b| - 1] == a + b[..|b| - 1];
      IdsConcat(a, b[..|b| - 1]);
    }
  }

  lemma {:induction false} IdsMember(all: seq<(string, ModelSchema)>, id: string)
    ensures Ids(all)[id] > 0 <==> exists i :: 0 <= i < |all| && all[i].1.id == id
  {
    if all != [] {
      var (init, last) := (all[..|all| - 1], all[|all| - 1]);
      IdsMember(init, id);
      assert forall i | 0 <= i < |init| :: init[i] == all[i];
      assert Ids(all)[id] == Ids(init)[id] + if id == last.1.id then 1 else 0;
    }
  }

  lemma {:induction false} DistinctMeansOnce(all: seq<(string, ModelSchema)>)
    ensures DistinctIds(all) <==> forall id :: Ids(all)[id] <= 1
  {
    if all != [] {
      var (init, last) := (all[..|all| - 1], all[|all| - 1]);
      DistinctMeansOnce(init);
      IdsMember(init, last.1.id);
      assert forall i | 0 <= i < |init| :: init[i] == all[i];
      assert DistinctIds(all) <==> DistinctIds(init) && Ids(init)[last.1.id] == 0;
      assert forall id :: Ids(all)[id] == Ids(init)[id] + if id == last.1.id then 1 else 0;
      hide DistinctIds, Ids;
      if !DistinctIds(all) {
        var id := if DistinctIds(init) then last.1.id else var id :| Ids(init)[id] > 1; id;
        assert Ids(all)[id] > 1;
      }
    }
  }

  function FileIds(f: File): multiset<string> {
    if ParseFile(f).Ok? then Ids(Tag(f.path, ParseFile(f).value)) else multiset{}
  }

  lemma NextFile(files: seq<File>, f: File)
    ensures Ids(AllModels(files + [f])) == Ids(AllModels(files)) + FileIds(f)
    ensures Ids(AllModels([])) == multiset{}
  {
    hide ParseFile;
    assert (files + [f])[..|files|] == files;
    if ParseFile(f).Ok? {
      IdsConcat(AllModels(files), Tag(f.path, ParseFile(f).value));
    } else {
      assert AllModels(files + [f]) == AllModels(files);
    }
  }

  lemma {:induction false} FilesConcat(fs: seq<File>, gs: seq<File>)
    ensures Ids(AllModels(fs + gs)) == Ids(AllModels(fs)) + Ids(AllModels(gs))
  {
    hide AllModels, Ids, FileIds;
    if gs == [] {
      assert fs + gs == fs;
      NextFile([], File("", Err("")));
    } else {
      var (init, f) := (gs[..|gs| - 1], gs[|gs| - 1]);
      assert fs + gs == (fs + init) + [f] && gs == init + [f];
      FilesConcat(fs, init);
      NextFile(fs + init, f);
      NextFile(init, f);
    }
  }

  lemma Cancel(x: multiset<File>, y: multiset<File>, z: multiset<File>)
    requires x + z == y + z
    ensures x == y
  {
    forall e
      ensures x[e] == y[e]
    {
      assert (x + z)[e] == x[e] + z[e] && (y + z)[e] == y[e] + z[e];
    }
  }

  lemma {:induction false} FilesPermuted(fs: seq<File>, gs: seq<File>)
    requires multiset(fs) == multiset(gs)
    ensures Ids(AllModels(fs)) == Ids(AllModels(gs))
  {
    hide AllModels, Ids;
    assert |fs| == |multiset(fs)| == |gs|;
    if fs == [] {
      assert fs == gs;
    } else {
      var (init, f) := (fs[..|fs| - 1], fs[|fs| - 1]);
      assert fs == init + [f];
      assert f in multiset(gs);
      var i :| 0 <= i < |gs| && gs[i] == f;
      var (a, b) := (gs[..i], gs[i + 1..]);
      assert gs == a + [f] + b;
      assert multiset(a + [f] + b) == multiset(a) + multiset([f]) + multiset(b);
      assert multiset(init + [f]) == multiset(init) + multiset([f]);
      assert multiset(a + b) == multiset(a) + multiset(b);
      Cancel(multiset(init), multiset(a + b), multiset([f]));
      FilesPermuted(init, a + b);
      FilesConcat(init, [f]);
      FilesConcat(a + [f], b);
      FilesConcat(a, [f]);
      FilesConcat(a, b);
    }
  }

  lemma {:induction false} NoErrorsMeans(files: seq<File>)
    ensures FileErrors(files) == [] <==> forall f | f in files :: ParseFile(f).Ok?
  {
    hide ParseFile;
    if files != [] {
      NoErrorsMeans(files[..|files| - 1]);
      assert files == files[..|files| - 1] + [files[|files| - 1]];
    }
  }

  // Loading the same files in any order succeeds either way, with the same catalog and index, or fails
  // either way.
  lemma FileOrderDoesNotMatter(fs: seq<File>, gs: seq<File>, ca: Catalog, ia: Index, cb: Catalog, ib: Index)
    requires multiset(fs) == multiset(gs)
    ensures FileErrors(fs) == [] && DistinctIds(AllModels(fs)) <==> FileErrors(gs) == [] && DistinctIds(AllModels(gs))
    ensures Holds(ca, AllModels(fs)) && Indexes(ia, ca) && Holds(cb, AllModels(gs)) && Indexes(ib, cb) ==>
              ca == cb && ia == ib
  {
    hide Holds, Indexes, AllModels, ParseFile, Ids, DistinctIds, FileErrors;
    forall f
      ensures f in fs <==> f in gs
    {
      assert f in fs <==> f in multiset(fs);
      assert f in gs <==> f in multiset(gs);
    }
    NoErrorsMeans(fs);
    NoErrorsMeans(gs);
    FilesPermuted(fs, gs);
    DistinctMeansOnce(AllModels(fs));
    DistinctMeansOnce(AllModels(gs));
    forall x
      ensures x in AllModels(fs) <==> x in AllModels(gs)
    {
      ReorderedModels(fs, x);
      ReorderedModels(gs, x);
    }
    if Holds(ca, AllModels(fs)) && Indexes(ia, ca) && Holds(cb, AllModels(gs)) && Indexes(ib, cb) {
      OrderDoesNotMatter(AllModels(fs), AllModels(gs), ca, ia, cb, ib);
    }
  }

  // ---- The runtime layer ---------------------------------------------------

  // What is served under an id: the catalog's model before the runtime's, unless switched off.
  function Resolved(models: Catalog, runtime: Catalog, disabled: set<string>, id: string): Option<ModelSchema> {
    if id in disabled then None
    else if id in models then Some(models[id])
    else if id in runtime then Some(runtime[id])
    else None
  }

  datatype Action = Upsert(model: ModelSchema) | Remove(id: string) | Disable(id: string, off: bool)

  function Redefined(runtime: Catalog, a: Action): Catalog {
    match a
    case Upsert(m) => runtime[m.id := m]
    case Remove(id) => runtime - {id}
    case Disable(_, _) => runtime
  }

  function Switched(disabled: set<string>, a: Action): set<string> {
    match a
    case Disable(id, off) => if off then disabled + {id} else disabled - {id}
    case _ => disabled
  }

  class Registry {
    const models: Catalog
    const byProvider: Index
    var runtime: Catalog
    var disabled: set<string>

    ghost predicate Valid()
      reads this
    {
      && (forall id | id in models :: models[id].id == id)
      && (forall id | id in runtime :: runtime[id].id == id)
      && models.Keys !! runtime.Keys
    }

    constructor (models: Catalog, byProvider: Index)
      requires forall id | id in models :: models[id].id == id
      ensures Valid() && this.models == models && this.byProvider == byProvider && runtime == map[] && disabled == {}
    {
      this.models, this.byProvider, runtime, disabled := models, byProvider, map[], {};
    }

    method IsDisabled(id: string) returns (b: bool)
      ensures b == (id in disabled)
    {
      b := id in disabled;
    }

    method RuntimeModel(id: string) returns (m: Option<ModelSchema>)
      ensures m == if id in runtime then Some(runtime[id]) else None
    {
      m := if id in runtime then Some(runtime[id]) else None;
    }

    method Resolve(id: string) returns (m: Option<ModelSchema>)
      ensures m == Resolved(models, runtime, disabled, id)
    {
      var off := IsDisabled(id);
      if off {
        return None;
      }
      if id in models {
        return Some(models[id]);
      }
      m := RuntimeModel(id);
    }

    // The models of a map that are not switched off, in no particular order.
    method Enabled(from: Catalog) returns (r: seq<ModelSchema>)
      requires forall id | id in from :: from[id].id == id
      ensures forall m :: m in r <==> m.id in from && from[m.id] == m && m.id !in disabled
      ensures forall i, j | 0 <= i < j < |r| :: r[i].id != r[j].id
    {
      r := [];
      var left := from.Keys;
      while left != {}
        invariant left <= from.Keys
        invariant forall m :: m in r <==> m.id in from.Keys - left && from[m.id] == m && m.id !in disabled
        invariant forall i, j | 0 <= i < j < |r| :: r[i].id != r[j].id
        decreases left
      {
        var id :| id in left;
        if from[id].id !in disabled {
          assert forall i | 0 <= i < |r| :: r[i] in r;
          r := r + [from[id]];
        }
        left := left - {id};
      }
    }

    // Every served model, no id twice, and each exactly what its id resolves to.
    method Served() returns (r: seq<ModelSchema>)
      requires Valid()
      ensures forall m :: m in r <==> Resolved(models, runtime, disabled, m.id) == Some(m)
      ensures forall i, j | 0 <= i < j < |r| :: r[i].id != r[j].id
    {
      var a := Enabled(models);
      var b := Enabled(runtime);
      assert forall i | 0 <= i < |a| :: a[i] in a;
      assert forall i | 0 <= i < |b| :: b[i] in b;
      r := a + b;
    }

    method UpsertRuntime(m: ModelSchema)
      requires Valid() && m.id !in models
      modifies this`runtime
      ensures Valid() && runtime == old(runtime)[m.id := m]
      ensures runtime == Redefined(old(runtime), Upsert(m)) && disabled == Switched(disabled, Upsert(m))
    {
      runtime := runtime[m.id := m];
    }

    method RemoveRuntime(id: string) returns (removed: bool)
      requires Valid()
      modifies this`runtime
      ensures Valid() && runtime == old(runtime) - {id} && removed == (id in old(runtime))
      ensures runtime == Redefined(old(runtime), Remove(id)) && disabled == Switched(disabled, Remove(id))
    {
      removed := id in runtime;
      runtime := runtime - {id};
    }

    method SetDisabled(id: string, off: bool)
      requires Valid()
      modifies this`disabled
      ensures Valid() && disabled == if off then old(disabled) + {id} else old(disabled) - {id}
      ensures disabled == Switched(old(disabled), Disable(id, off)) && runtime == Redefined(runtime, Disable(id, off))
    {
      disabled := if off then disabled + {id} else disabled - {id};
    }
  }

  // ---- Runs of the runtime layer -------------------------------------------

  function ExecRuntime(acts: seq<Action>): Catalog {
    if acts == [] then map[] else Redefined(ExecRuntime(acts[..|acts| - 1]), acts[|acts| - 1])
  }

  function ExecDisabled(acts: seq<Action>): set<string> {
    if acts == [] then {} else Switched(ExecDisabled(acts[..|acts| - 1]), acts[|acts| - 1])
  }

  // The last word of a run about an id: its latest definition, and its latest switch.
  function LastModel(acts: seq<Action>, id: string): Option<ModelSchema> {
    if acts == [] then None
    else match acts[|acts| - 1]
      case Upsert(m) => if m.id == id then Some(m) else LastModel(acts[..|acts| - 1], id)
      case Remove(x) => if x == id then None else LastModel(acts[..|acts| - 1], id)
      case Disable(_, _) => LastModel(acts[..|acts| - 1], id)
  }

  function LastSwitch(acts: seq<Action>, id: string): bool {
    if acts == [] then false
    else match acts[|acts| - 1]
      case Disable(x, off) => if x == id then off else LastSwitch(acts[..|acts| - 1], id)
      case _ => LastSwitch(acts[..|acts| - 1], id)
  }

  // After any run that defines no catalog id, an id resolves to nothing if it was last switched off,
  // else to its catalog model, which no runtime action can change, else to its latest definition.
  lemma {:induction false} ResolveAfterRun(models: Catalog, acts: seq<Action>, id: string)
    requires forall i | 0 <= i < |acts| && acts[i].Upsert? :: acts[i].model.id !in models
    ensures Resolved(models, ExecRuntime(acts), ExecDisabled(acts), id) ==
            if LastSwitch(acts, id) then None
            else if id in models then Some(models[id])
            else LastModel(acts, id)
    ensures id in ExecRuntime(acts) ==> id !in models && ExecRuntime(acts)[id].id == id
    ensures LastModel(acts, id) == if id in ExecRuntime(acts) then Some(ExecRuntime(acts)[id]) else None
    ensures LastSwitch(acts, id) == (id in ExecDisabled(acts))
  {
    if acts != [] {
      ResolveAfterRun(models, acts[..|acts| - 1], id);
    }
  }
}
