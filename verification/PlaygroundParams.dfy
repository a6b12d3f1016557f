/**
  The playground's shared parameter panel: the specs of the selected models
  merged into one control per name, and the shared values narrowed again to what
  one model declares.
 */
module PlaygroundParams {
  import opened Common

  // `sizes` is given for a size parameter of mode "enum", each size by its WxH text.
  datatype Spec = Spec(
    kind: string, min: Option<real>, max: Option<real>,
    enumValues: Option<seq<string>>, allowed: Option<seq<string>>, sizes: Option<seq<string>>)

  type Entries = seq<(string, Spec)>

  datatype Schema = Schema(modelId: string, params: Entries)

  datatype Merged = Merged(spec: Spec, models: seq<string>)

  // The names of an object's entries are distinct.
  predicate DistinctNames(params: Entries) {
    forall i, j | 0 <= i < j < |params| :: params[i].0 != params[j].0
  }

  function Find(params: Entries, name: string): Option<Spec> {
    if params == [] then None
    else if params[|params| - 1].0 == name then Some(params[|params| - 1].1)
    else Find(params[..|params| - 1], name)
  }

  // ---- Merging two specs ---------------------------------------------------

  function MaxDefined(a: Option<real>, b: Option<real>): Option<real> {
    if a.None? then b else if b.None? then a else if a.value >= b.value then a else b
  }

  function MinDefined(a: Option<real>, b: Option<real>): Option<real> {
    if a.None? then b else if b.None? then a else if a.value <= b.value then a else b
  }

  function Intersect<T(==)>(a: seq<T>, b: seq<T>): seq<T> {
    if a == [] then []
    else Intersect(a[..|a| - 1], b) + if a[|a| - 1] in b then [a[|a| - 1]] else []
  }

  lemma {:induction false} IntersectMeaning<T>(a: seq<T>, b: seq<T>, x: T)
    ensures x in Intersect(a, b) <==> x in a && x in b
  {
    if a != [] {
      IntersectMeaning(a[..|a| - 1], b, x);
      assert a == a[..|a| - 1] + [a[|a| - 1]];
    }
  }

  function Both<T(==)>(a: Option<seq<T>>, b: Option<seq<T>>): Option<seq<T>> {
    if a.Some? && b.Some? then Some(Intersect(a.value, b.value)) else a
  }

  function MergeSpec(a: Spec, b: Spec): Spec {
    Spec(a.kind, MaxDefined(a.min, b.min), MinDefined(a.max, b.max),
         Both(a.enumValues, b.enumValues), Both(a.allowed, b.allowed),
         if a.kind == "size" && b.kind == "size" then Both(a.sizes, b.sizes) else a.sizes)
  }

  predicate InBounds(s: Spec, v: real) {
    (s.min.Some? ==> s.min.value <= v) && (s.max.Some? ==> v <= s.max.value)
  }

  // ---- Merging the selected schemas ---------------------------------------

  // What one more declaration of a name does to its control.
  function Add(m: Option<Merged>, modelId: string, spec: Spec): Merged {
    if m.None? then Merged(spec, [modelId])
    else
      Merged(if m.value.spec.kind == spec.kind then MergeSpec(m.value.spec, spec) else m.value.spec,
             m.value.models + [modelId])
  }

  function Folded(schemas: seq<Schema>, name: string): Option<Merged> {
    if schemas == [] then None
    else
      var before := Folded(schemas[..|schemas| - 1], name);
      var last := schemas[|schemas| - 1];
      match Find(last.params, name)
      case None => before
      case Some(spec) => Some(Add(before, last.modelId, spec))
  }

  // Whether the panel's controls are exactly the folds of their names; the seed has its own control.
  ghost predicate Controls(byName: map<string, Merged>, schemas: seq<Schema>) {
    forall name :: (name in byName <==> name != "seed" && Folded(schemas, name).Some?)
                   && (name in byName ==> byName[name] == Folded(schemas, name).value)
  }

  lemma FindNext(params: Entries, i: nat, name: string)
    requires DistinctNames(params) && i < |params|
    ensures Find(params[..i + 1], name) == if params[i].0 == name then Some(params[i].1) else Find(params[..i], name)
    ensures Find(params[..i], params[i].0).None?
  {
    assert params[..i + 1][..i] == params[..i];
    FindNone(params[..i], params[i].0);
  }

  lemma {:induction false} FindNone(params: Entries, name: string)
    requires forall i | 0 <= i < |params| :: params[i].0 != name
    ensures Find(params, name).None?
  {
    if params != [] {
      FindNone(params[..|params| - 1], name);
    }
  }

  method MergeParams(schemas: seq<Schema>) returns (byName: map<string, Merged>)
    requires forall i | 0 <= i < |schemas| :: DistinctNames(schemas[i].params)
    ensures Controls(byName, schemas)
  {
    byName := map[];
    for k := 0 to |schemas|
      invariant Controls(byName, schemas[..k])
    {
      var schema := schemas[k];
      var params := schema.params;
      assert schemas[..k + 1][..k] == schemas[..k];
      for i := 0 to |params|
        invariant Controls(byName, schemas[..k] + [Schema(schema.modelId, params[..i])])
      {
        ghost var before := schemas[..k] + [Schema(schema.modelId, params[..i])];
        ghost var after := schemas[..k] + [Schema(schema.modelId, params[..i + 1])];
        var (name, spec) := params[i];
        forall x
          ensures x != name ==> Folded(after, x) == Folded(before, x)
          ensures x == name ==> Folded(before, x) == Folded(schemas[..k], x)
                                && Folded(after, x) == Some(Add(Folded(schemas[..k], x), schema.modelId, spec))
        {
          FindNext(params, i, x);
          assert before[..k] == schemas[..k] && after[..k] == schemas[..k];
        }
        if name != "seed" {
          if name !in byName {
            byName := byName[name := Merged(spec, [schema.modelId])];
          } else {
            var existing := byName[name];
            var merged := if existing.spec.kind == spec.kind then MergeSpec(existing.spec, spec) else existing.spec;
            byName := byName[name := Merged(merged, existing.models + [schema.modelId])];
          }
        }
      }
      assert params[..|params|] == params;
      assert schemas[..k] + [Schema(schema.modelId, params)] == schemas[..k + 1];
    }
    assert schemas[..|schemas|] == schemas;
  }

  // ---- What the merged bounds mean ----------------------------------------

  // The specs and the ids of the models that declare a name, in order.
  function Declared(schemas: seq<Schema>, name: string): seq<(string, Spec)> {
    if schemas == [] then []
    else
      var last := schemas[|schemas| - 1];
      var spec := Find(last.params, name);
      Declared(schemas[..|schemas| - 1], name) + if spec.Some? then [(last.modelId, spec.value)] else []
  }

  // A bound of the fold is a declared bound at least as tight as every other, among the models of the
  // first declaration's kind.
  ghost predicate TightestMin(m: Option<real>, ds: seq<(string, Spec)>, kind: string) {
    && (m.None? <==> forall i | 0 <= i < |ds| && ds[i].1.kind == kind :: ds[i].1.min.None?)
    && (m.Some? ==> && (forall i | 0 <= i < |ds| && ds[i].1.kind == kind && ds[i].1.min.Some? :: ds[i].1.min.value <= m.value)
                    && exists i :: 0 <= i < |ds| && ds[i].1.kind == kind && ds[i].1.min == m)
  }

  ghost predicate TightestMax(m: Option<real>, ds: seq<(string, Spec)>, kind: string) {
    && (m.None? <==> forall i | 0 <= i < |ds| && ds[i].1.kind == kind :: ds[i].1.max.None?)
    && (m.Some? ==> && (forall i | 0 <= i < |ds| && ds[i].1.kind == kind && ds[i].1.max.Some? :: m.value <= ds[i].1.max.value)
                    && exists i :: 0 <= i < |ds| && ds[i].1.kind == kind && ds[i].1.max == m)
  }

  lemma TightestMinNext(m: Option<real>, ds: seq<(string, Spec)>, kind: string, d: (string, Spec))
    requires TightestMin(m, ds, kind)
    ensures TightestMin(if d.1.kind == kind then MaxDefined(m, d.1.min) else m, ds + [d], kind)
  {
    var es := ds + [d];
    assert es[|ds|] == d && forall i | 0 <= i < |ds| :: es[i] == ds[i];
    if m.Some? {
      var i :| 0 <= i < |ds| && ds[i].1.kind == kind && ds[i].1.min == m;
      assert es[i].1.min == m;
    }
  }

  lemma TightestMaxNext(m: Option<real>, ds: seq<(string, Spec)>, kind: string, d: (string, Spec))
    requires TightestMax(m, ds, kind)
    ensures TightestMax(if d.1.kind == kind then MinDefined(m, d.1.max) else m, ds + [d], kind)
  {
    var es := ds + [d];
    assert es[|ds|] == d && forall i | 0 <= i < |ds| :: es[i] == ds[i];
    if m.Some? {
      var i :| 0 <= i < |ds| && ds[i].1.kind == kind && ds[i].1.max == m;
      assert es[i].1.max == m;
    }
  }

  lemma {:induction false} FoldedBounds(schemas: seq<Schema>, name: string)
    ensures Folded(schemas, name).Some? <==> Declared(schemas, name) != []
    ensures Folded(schemas, name).Some? ==>
              var (m, ds) := (Folded(schemas, name).value, Declared(schemas, name));
              && m.spec.kind == ds[0].1.kind
              && TightestMin(m.spec.min, ds, m.spec.kind) && TightestMax(m.spec.max, ds, m.spec.kind)
              && |m.models| == |ds| && forall i | 0 <= i < |ds| :: m.models[i] == ds[i].0
  {
    if schemas != [] {
      var (init, last) := (schemas[..|schemas| - 1], schemas[|schemas| - 1]);
      FoldedBounds(init, name);
      var spec := Find(last.params, name);
      if spec.Some? {
        var (before, ds, d) := (Folded(init, name), Declared(init, name), (last.modelId, spec.value));
        hide Folded, Declared, TightestMin, TightestMax;
        assert Folded(schemas, name) == Some(Add(before, last.modelId, spec.value)) by { FoldedLast(schemas, name); }
        assert Declared(schemas, name) == ds + [d] by { FoldedLast(schemas, name); }
        if before.Some? {
          TightestMinNext(before.value.spec.min, ds, before.value.spec.kind, d);
          TightestMaxNext(before.value.spec.max, ds, before.value.spec.kind, d);
        } else {
          Alone(d);
          assert ds + [d] == [d];
        }
      } else {
        assert Declared(schemas, name) == Declared(init, name);
      }
    }
  }

  lemma FoldedLast(schemas: seq<Schema>, name: string)
    requires schemas != [] && Find(schemas[|schemas| - 1].params, name).Some?
    ensures var (init, last) := (schemas[..|schemas| - 1], schemas[|schemas| - 1]);
            var spec := Find(last.params, name).value;
            && Folded(schemas, name) == Some(Add(Folded(init, name), last.modelId, spec))
            && Declared(schemas, name) == Declared(init, name) + [(last.modelId, spec)]
  {
  }

  lemma Alone(d: (string, Spec))
    ensures TightestMin(d.1.min, [d], d.1.kind) && TightestMax(d.1.max, [d], d.1.kind)
  {
    assert [d][0] == d;
  }

  predicate OneKind(ds: seq<(string, Spec)>) {
    forall i | 0 <= i < |ds| :: ds[i].1.kind == ds[0].1.kind
  }

  // The merged interval is exactly the intersection of the intervals of every model whose kind is the
  // first one's; of every model, if they declare one kind.
  lemma MergedIsIntersection(schemas: seq<Schema>, name: string, v: real)
    requires Folded(schemas, name).Some?
    ensures Declared(schemas, name) != []
    ensures var (spec, ds) := (Folded(schemas, name).value.spec, Declared(schemas, name));
            && (InBounds(spec, v) <==> forall i | 0 <= i < |ds| && ds[i].1.kind == ds[0].1.kind :: InBounds(ds[i].1, v))
            && (OneKind(ds) ==> (InBounds(spec, v) <==> forall i | 0 <= i < |ds| :: InBounds(ds[i].1, v)))
  {
    hide Folded, Declared;
    FoldedBounds(schemas, name);
  }

  // For one kind, the merged bounds do not depend on the order of the schemas.
  lemma BoundsIgnoreOrder(xs: seq<Schema>, ys: seq<Schema>, name: string)
    requires multiset(xs) == multiset(ys) && Folded(xs, name).Some? && OneKind(Declared(xs, name))
    ensures Folded(ys, name).Some?
    ensures Folded(xs, name).value.spec.min == Folded(ys, name).value.spec.min
    ensures Folded(xs, name).value.spec.max == Folded(ys, name).value.spec.max
    ensures Folded(xs, name).value.spec.kind == Folded(ys, name).value.spec.kind
  {
    hide Folded, Declared;
    FoldedBounds(xs, name);
    FoldedBounds(ys, name);
    var (ds, es) := (Declared(xs, name), Declared(ys, name));
    forall d
      ensures d in ds <==> d in es
    {
      DeclaredMeaning(xs, name, d);
      DeclaredMeaning(ys, name, d);
      assert forall s :: s in xs <==> s in multiset(xs);
      assert forall s :: s in ys <==> s in multiset(ys);
    }
    assert ds[0] in ds;
    assert es != [];
    SameBounds(Folded(xs, name).value.spec, Folded(ys, name).value.spec, ds, es);
  }

  lemma SameBounds(s: Spec, t: Spec, ds: seq<(string, Spec)>, es: seq<(string, Spec)>)
    requires (forall d :: d in ds <==> d in es) && ds != [] && es != [] && OneKind(ds)
    requires s.kind == ds[0].1.kind && t.kind == es[0].1.kind
    requires TightestMin(s.min, ds, s.kind) && TightestMax(s.max, ds, s.kind)
    requires TightestMin(t.min, es, t.kind) && TightestMax(t.max, es, t.kind)
    ensures s.min == t.min && s.max == t.max && s.kind == t.kind
  {
    assert forall i | 0 <= i < |ds| :: ds[i] in ds && ds[i] in es;
    assert forall i | 0 <= i < |es| :: es[i] in es && es[i] in ds;
  }

  lemma {:induction false} DeclaredMeaning(schemas: seq<Schema>, name: string, d: (string, Spec))
    ensures d in Declared(schemas, name) <==>
            exists s :: s in schemas && s.modelId == d.0 && Find(s.params, name) == Some(d.1)
  {
    if schemas != [] {
      var (init, last) := (schemas[..|schemas| - 1], schemas[|schemas| - 1]);
      DeclaredMeaning(init, name, d);
      assert schemas == init + [last];
    }
  }

  datatype ListField = EnumValues | Allowed | Sizes

  function ListOf(s: Spec, field: ListField): Option<seq<string>> {
    match field
    case EnumValues => s.enumValues
    case Allowed => s.allowed
    case Sizes => s.sizes
  }

  // Whether a declaration narrows the list of a control that the first declaration gave its kind.
  predicate Narrows(s: Spec, kind: string, field: ListField) {
    s.kind == kind && ListOf(s, field).Some? && (field.Sizes? ==> kind == "size")
  }

  // A control has a list exactly if the first declaration has one, and offers of it exactly what every
  // declaration of the same kind that has a list offers too.
  lemma {:induction false} ListsNarrow(schemas: seq<Schema>, name: string, field: ListField, x: string)
    requires Folded(schemas, name).Some?
    ensures Declared(schemas, name) != []
    ensures var (spec, ds) := (Folded(schemas, name).value.spec, Declared(schemas, name));
            && spec.kind == ds[0].1.kind
            && (ListOf(spec, field).Some? <==> ListOf(ds[0].1, field).Some?)
            && (ListOf(spec, field).Some? ==>
                  (x in ListOf(spec, field).value <==>
                   x in ListOf(ds[0].1, field).value
                   && forall i | 0 <= i < |ds| && Narrows(ds[i].1, ds[0].1.kind, field) :: x in ListOf(ds[i].1, field).value))
  {
    var (init, last) := (schemas[..|schemas| - 1], schemas[|schemas| - 1]);
    var spec := Find(last.params, name);
    var (ds, es) := (Declared(init, name), Declared(schemas, name));
    if Folded(init, name).Some? {
      ListsNarrow(init, name, field, x);
      assert forall i | 0 <= i < |ds| :: es[i] == ds[i];
      if spec.Some? {
        assert es == ds + [(last.modelId, spec.value)];
        assert es[0] == ds[0] && es[|ds|].1 == spec.value;
        NarrowNext(Folded(init, name).value, last.modelId, spec.value, field, x);
      } else {
        assert es == ds;
      }
    } else {
      FoldedBounds(init, name);
      assert es == [(last.modelId, spec.value)];
    }
  }

  lemma NarrowNext(m: Merged, modelId: string, s: Spec, field: ListField, x: string)
    ensures var (before, after) := (ListOf(m.spec, field), ListOf(Add(Some(m), modelId, s).spec, field));
            && (after.Some? <==> before.Some?)
            && (before.Some? ==> (x in after.value <==>
                  x in before.value && (Narrows(s, m.spec.kind, field) ==> x in ListOf(s, field).value)))
  {
    if ListOf(m.spec, field).Some? && ListOf(s, field).Some? {
      IntersectMeaning(ListOf(m.spec, field).value, ListOf(s, field).value, x);
    }
  }

  // With one kind and lists everywhere, a value is offered exactly when every model offers it.
  lemma ListsIntersect(schemas: seq<Schema>, name: string, field: ListField, x: string)
    requires Folded(schemas, name).Some? && OneKind(Declared(schemas, name))
    requires forall i | 0 <= i < |Declared(schemas, name)| ::
               ListOf(Declared(schemas, name)[i].1, field).Some? && (field.Sizes? ==> Declared(schemas, name)[i].1.kind == "size")
    ensures var spec := Folded(schemas, name).value.spec;
            && ListOf(spec, field).Some?
            && (x in ListOf(spec, field).value <==>
                forall i | 0 <= i < |Declared(schemas, name)| :: x in ListOf(Declared(schemas, name)[i].1, field).value)
  {
    hide Folded, Declared;
    ListsNarrow(schemas, name, field, x);
  }

  // ---- Requests ------------------------------------------------------------

  datatype JsValue = Num(num: real) | NotANumber | Str(str: string) | Bool(bool) | Null

  predicate Numeric(kind: string) {
    kind == "int" || kind == "float"
  }

  function ClampToSpec(s: Spec, value: JsValue): JsValue {
    if Numeric(s.kind) && value.Num? then
      var v := if s.min.Some? && s.min.value > value.num then s.min.value else value.num;
      Num(if s.max.Some? && s.max.value < v then s.max.value else v)
    else value
  }

  // Clamping leaves exactly the values inside the interval alone, and puts every value inside unless
  // the interval is empty.
  lemma ClampMeaning(s: Spec, v: real)
    requires Numeric(s.kind)
    ensures ClampToSpec(s, Num(v)).Num?
    ensures ClampToSpec(s, Num(v)) == Num(v) <==> InBounds(s, v) || (s.max == Some(v) && s.min.Some? && s.min.value > v)
    ensures InBounds(s, ClampToSpec(s, Num(v)).num) <==> !(s.min.Some? && s.max.Some? && s.min.value > s.max.value)
  {
  }

  datatype Shared = Shared(prompt: string, n: nat, strict: bool, seed: string, params: seq<(string, JsValue)>)

  predicate Blank(v: JsValue) {
    v == Str("") || v == Null
  }

  function Coerced(s: Spec, v: JsValue, toNumber: string -> JsValue): JsValue {
    if Numeric(s.kind) && v.Str? then toNumber(v.str) else v
  }

  // The part of the body before the parameters.
  function Preamble(modelId: string, params: Entries, shared: Shared, parseInt: string -> JsValue): map<string, JsValue> {
    var body := map["model" := Str(modelId), "prompt" := Str(shared.prompt), "n" := Num(shared.n as real), "strict" := Bool(shared.strict)];
    if shared.seed != "" && Find(params, "seed").Some? then body["seed" := parseInt(shared.seed)] else body
  }

  // What the request carries under a name: the shared value, clamped, if the model declares the name
  // and the value is not blank.
  function Carried(params: Entries, values: seq<(string, JsValue)>, name: string, toNumber: string -> JsValue): Option<JsValue> {
    if values == [] then None
    else
      var (x, v) := values[|values| - 1];
      var spec := Find(params, name);
      if x == name && spec.Some? && !Blank(v) then Some(ClampToSpec(spec.value, Coerced(spec.value, v, toNumber)))
      else Carried(params, values[..|values| - 1], name, toNumber)
  }

  // The model declares the name with this spec, once.
  ghost predicate DeclaredOnce(params: Entries, name: string, spec: Spec) {
    exists i :: 0 <= i < |params| && params[i] == (name, spec) && forall j | 0 <= j < |params| && j != i :: params[j].0 != name
  }

  ghost predicate Undeclared(params: Entries, name: string) {
    forall i | 0 <= i < |params| :: params[i].0 != name
  }

  predicate Given(values: seq<(string, JsValue)>, name: string, v: JsValue) {
    exists i :: 0 <= i < |values| && values[i] == (name, v) && forall j | 0 <= j < |values| && j != i :: values[j].0 != name
  }

  predicate NotGiven(values: seq<(string, JsValue)>, name: string) {
    forall i | 0 <= i < |values| :: values[i].0 != name
  }

  // `y` is `x` moved into the interval; into its upper bound if it is empty.
  predicate Clamped(s: Spec, x: real, y: JsValue) {
    if s.max.Some? && (x > s.max.value || (s.min.Some? && s.min.value > s.max.value)) then y == Num(s.max.value)
    else if s.min.Some? && x < s.min.value then y == Num(s.min.value)
    else y == Num(x)
  }

  // What stands in a request for a value that is neither empty text nor null.
  predicate SentAs(s: Spec, v: JsValue, toNumber: string -> JsValue, y: JsValue) {
    if s.kind == "int" || s.kind == "float" then
      match v
      case Num(x) => Clamped(s, x, y)
      case Str(text) => (if toNumber(text).Num? then Clamped(s, toNumber(text).num, y) else y == toNumber(text))
      case _ => y == v
    else y == v
  }

  // A request, name by name.
  ghost predicate RequestFor(body: map<string, JsValue>, modelId: string, params: Entries, shared: Shared,
                             toNumber: string -> JsValue, parseInt: string -> JsValue) {
    && (forall name, v, s | Given(shared.params, name, v) && DeclaredOnce(params, name, s) && v != Str("") && v != Null ::
          name in body && SentAs(s, v, toNumber, body[name]))
    && (forall name | NotSent(params, shared.params, name) && name !in {"model", "prompt", "n", "strict", "seed"} :: name !in body)
    && (NotSent(params, shared.params, "model") ==> "model" in body && body["model"] == Str(modelId))
    && (NotSent(params, shared.params, "prompt") ==> "prompt" in body && body["prompt"] == Str(shared.prompt))
    && (NotSent(params, shared.params, "n") ==> "n" in body && body["n"] == Num(shared.n as real))
    && (NotSent(params, shared.params, "strict") ==> "strict" in body && body["strict"] == Bool(shared.strict))
    && (NotSent(params, shared.params, "seed") ==>
          if shared.seed == "" || Undeclared(params, "seed") then "seed" !in body
          else "seed" in body && body["seed"] == parseInt(shared.seed))
  }

  // The panel has no value for the name, an empty one, or one the model does not declare.
  ghost predicate NotSent(params: Entries, values: seq<(string, JsValue)>, name: string) {
    Undeclared(params, name) || NotGiven(values, name) || Given(values, name, Str("")) || Given(values, name, Null)
  }

  lemma {:induction false} FindMeaning(params: Entries, name: string)
    ensures Find(params, name).None? <==> Undeclared(params, name)
    ensures forall s :: DeclaredOnce(params, name, s) ==> Find(params, name) == Some(s)
  {
    if params != [] {
      var (init, last) := (params[..|params| - 1], params[|params| - 1]);
      FindMeaning(init, name);
      assert forall i | 0 <= i < |init| :: init[i] == params[i];
      forall s | DeclaredOnce(params, name, s)
        ensures Find(params, name) == Some(s)
      {
        var i :| 0 <= i < |params| && params[i] == (name, s) && forall j | 0 <= j < |params| && j != i :: params[j].0 != name;
        if i < |init| {
          assert init[i] == (name, s);
          assert DeclaredOnce(init, name, s);
        }
      }
    }
  }

  lemma {:induction false} CarriedUndeclared(params: Entries, values: seq<(string, JsValue)>, name: string, toNumber: string -> JsValue)
    requires Find(params, name).None?
    ensures Carried(params, values, name, toNumber).None?
  {
    if values != [] {
      CarriedUndeclared(params, values[..|values| - 1], name, toNumber);
    }
  }

  lemma CarriedNotSent(params: Entries, values: seq<(string, JsValue)>, name: string, toNumber: string -> JsValue)
    requires NotSent(params, values, name)
    ensures Carried(params, values, name, toNumber).None?
  {
    hide Carried;
    FindMeaning(params, name);
    if Undeclared(params, name) {
      CarriedUndeclared(params, values, name, toNumber);
    } else if NotGiven(values, name) {
      CarriedNone(params, values, name, toNumber);
    } else if Given(values, name, Str("")) {
      CarriedValue(params, values, name, Str(""), toNumber);
    } else {
      CarriedValue(params, values, name, Null, toNumber);
    }
  }

  lemma CarriedSentAs(params: Entries, values: seq<(string, JsValue)>, name: string, v: JsValue, s: Spec, toNumber: string -> JsValue)
    requires Given(values, name, v) && DeclaredOnce(params, name, s) && v != Str("") && v != Null
    ensures Carried(params, values, name, toNumber).Some? && SentAs(s, v, toNumber, Carried(params, values, name, toNumber).value)
  {
    hide Carried, Find;
    FindMeaning(params, name);
    CarriedValue(params, values, name, v, toNumber);
  }

  method BuildRequestForModel(modelId: string, params: Entries, shared: Shared,
                              toNumber: string -> JsValue, parseInt: string -> JsValue)
    returns (body: map<string, JsValue>)
    ensures forall name :: var c := Carried(params, shared.params, name, toNumber);
                           var base := Preamble(modelId, params, shared, parseInt);
                           && (name in body <==> c.Some? || name in base)
                           && (c.Some? ==> body[name] == c.value)
                           && (c.None? && name in base ==> body[name] == base[name])
    ensures RequestFor(body, modelId, params, shared, toNumber, parseInt)
  {
    hide ClampToSpec, Find;
    body := map["model" := Str(modelId), "prompt" := Str(shared.prompt), "n" := Num(shared.n as real), "strict" := Bool(shared.strict)];
    if shared.seed != "" && Find(params, "seed").Some? {
      body := body["seed" := parseInt(shared.seed)];
    }
    ghost var base := Preamble(modelId, params, shared, parseInt);
    for i := 0 to |shared.params|
      invariant forall name :: var c := Carried(params, shared.params[..i], name, toNumber);
                               && (name in body <==> c.Some? || name in base)
                               && (c.Some? ==> body[name] == c.value)
                               && (c.None? && name in base ==> body[name] == base[name])
    {
      assert shared.params[..i + 1][..i] == shared.params[..i];
      var (name, value) := shared.params[i];
      var spec := Find(params, name);
      if spec.Some? && !Blank(value) {
        var v := value;
        if Numeric(spec.value.kind) && value.Str? {
          v := toNumber(value.str);
        }
        body := body[name := ClampToSpec(spec.value, v)];
      }
    }
    assert shared.params[..|shared.params|] == shared.params;
    RequestByName(body, modelId, params, shared, toNumber, parseInt);
  }

  lemma RequestByName(body: map<string, JsValue>, modelId: string, params: Entries, shared: Shared,
                      toNumber: string -> JsValue, parseInt: string -> JsValue)
    requires forall name :: var c := Carried(params, shared.params, name, toNumber);
                            var base := Preamble(modelId, params, shared, parseInt);
                            && (name in body <==> c.Some? || name in base)
                            && (c.Some? ==> body[name] == c.value)
                            && (c.None? && name in base ==> body[name] == base[name])
    ensures RequestFor(body, modelId, params, shared, toNumber, parseInt)
  {
    hide Carried, Find, Given, NotSent, DeclaredOnce, Undeclared, SentAs;
    forall name, v, s | Given(shared.params, name, v) && DeclaredOnce(params, name, s) && v != Str("") && v != Null
      ensures name in body && SentAs(s, v, toNumber, body[name])
    {
      CarriedSentAs(params, shared.params, name, v, s, toNumber);
    }
    forall name | NotSent(params, shared.params, name)
      ensures Carried(params, shared.params, name, toNumber).None?
    {
      CarriedNotSent(params, shared.params, name, toNumber);
    }
    FindMeaning(params, "seed");
  }

  lemma {:induction false} CarriedValue(params: Entries, values: seq<(string, JsValue)>, name: string, v: JsValue, toNumber: string -> JsValue)
    requires Given(values, name, v)
    ensures var spec := Find(params, name);
            Carried(params, values, name, toNumber) ==
            if spec.Some? && !Blank(v) then Some(ClampToSpec(spec.value, Coerced(spec.value, v, toNumber))) else None
  {
    var i :| 0 <= i < |values| && values[i] == (name, v) && forall j | 0 <= j < |values| && j != i :: values[j].0 != name;
    var init := values[..|values| - 1];
    if i < |init| {
      assert init[i] == values[i];
      CarriedValue(params, init, name, v, toNumber);
    } else {
      CarriedNone(params, init, name, toNumber);
    }
  }

  lemma {:induction false} CarriedNone(params: Entries, values: seq<(string, JsValue)>, name: string, toNumber: string -> JsValue)
    requires forall j | 0 <= j < |values| :: values[j].0 != name
    ensures Carried(params, values, name, toNumber).None?
  {
    if values != [] {
      CarriedNone(params, values[..|values| - 1], name, toNumber);
    }
  }

  // From the panel to the request: a finite value of a numeric parameter goes to exactly the models
  // that declare it, inside the model's own interval unless that is empty; and when the models declare
  // one kind and the value is inside the merged bounds, it reaches every one of them unchanged.
  lemma PanelToRequest(schemas: seq<Schema>, name: string, v: real, k: nat, shared: Shared, toNumber: string -> JsValue)
    requires k < |schemas| && Given(shared.params, name, Num(v))
    ensures var spec := Find(schemas[k].params, name);
            var c := Carried(schemas[k].params, shared.params, name, toNumber);
            && (c.Some? <==> spec.Some?)
            && (spec.Some? && Numeric(spec.value.kind) ==>
                && c.value.Num?
                && (InBounds(spec.value, c.value.num) <==>
                    !(spec.value.min.Some? && spec.value.max.Some? && spec.value.min.value > spec.value.max.value))
                && ((&& Folded(schemas, name).Some? && OneKind(Declared(schemas, name))
                     && InBounds(Folded(schemas, name).value.spec, v)) ==> c.value == Num(v)))
  {
    hide Folded, Declared, InBounds, ClampToSpec;
    CarriedValue(schemas[k].params, shared.params, name, Num(v), toNumber);
    var spec := Find(schemas[k].params, name);
    if spec.Some? && Numeric(spec.value.kind) {
      ClampMeaning(spec.value, v);
      if Folded(schemas, name).Some? && OneKind(Declared(schemas, name)) && InBounds(Folded(schemas, name).value.spec, v) {
        MergedIsIntersection(schemas, name, v);
        var d := (schemas[k].modelId, spec.value);
        assert schemas[k] in schemas;
        DeclaredMeaning(schemas, name, d);
        var i :| 0 <= i < |Declared(schemas, name)| && Declared(schemas, name)[i] == d;
        assert InBounds(Declared(schemas, name)[i].1, v);
      }
    }
  }
}
