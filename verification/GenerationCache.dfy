/**
  The image cache. Its key is a digest of the request's fields, each followed by a
  NUL; the cache may lose an entry at any moment.
 */
module GenerationCache {
  import opened Common
  import opened Text

  const NUL: char := '\0'
  const GLOBAL_TENANT: string := "__global__"

  // A request as the key sees it. Floating-point fields are given by their printed text, the reference
  // images and extra options by their JSON text.
  datatype Request = Request(
    tenant: Option<string>, model: string, prompt: string, negativePrompt: Option<string>,
    seed: Option<int>, n: nat,
    size: Option<string>, aspectRatio: Option<string>, quality: Option<string>, style: Option<string>,
    steps: Option<nat>, guidanceScale: Option<string>, strength: Option<string>,
    responseFormat: string, referenceImages: string, extra: Option<string>)

  function TextOr(o: Option<string>, default: string): string {
    if o.Some? then o.value else default
  }

  function NumberText(o: Option<int>): string {
    if o.Some? then IntText(o.value) else ""
  }

  // The fields in the order they are hashed.
  function FieldAt(r: Request, j: nat): string
    requires j < 16
  {
    match j
    case 0 => TextOr(r.tenant, GLOBAL_TENANT)
    case 1 => r.model
    case 2 => r.prompt
    case 3 => TextOr(r.negativePrompt, "")
    case 4 => NumberText(r.seed)
    case 5 => IntText(r.n)
    case 6 => TextOr(r.size, "")
    case 7 => TextOr(r.aspectRatio, "")
    case 8 => TextOr(r.quality, "")
    case 9 => TextOr(r.style, "")
    case 10 => NumberText(r.steps)
    case 11 => TextOr(r.guidanceScale, "")
    case 12 => TextOr(r.strength, "")
    case 13 => r.responseFormat
    case 14 => r.referenceImages
    case _ => TextOr(r.extra, "")
  }

  function Fields(r: Request): (f: seq<string>)
    ensures |f| == 16
  {
    seq(16, j requires 0 <= j < 16 => FieldAt(r, j))
  }

  // The bytes fed to the hasher for a list of fields.
  function Stream(fs: seq<string>): string {
    if fs == [] then "" else fs[0] + [NUL] + Stream(fs[1..])
  }

  lemma {:induction false} StreamConcat(a: seq<string>, b: seq<string>)
    ensures Stream(a + b) == Stream(a) + Stream(b)
  {
    if a == [] {
      assert a + b == b;
    } else {
      assert (a + b)[1..] == a[1..] + b;
      StreamConcat(a[1..], b);
    }
  }

  // A hasher fed field by field; `plan` is what it will have been fed in the end.
  class Hasher {
    var bytes: string
    ghost const plan: seq<string>
    ghost var fed: nat

    ghost predicate Valid() reads this { fed <= |plan| && bytes == Stream(plan[..fed]) }

    constructor (ghost plan: seq<string>)
      ensures Valid() && this.plan == plan && fed == 0
    {
      bytes, fed := "", 0;
      this.plan := plan;
    }

    method Feed(s: string)
      requires Valid() && fed < |plan| && s == plan[fed]
      modifies this
      ensures Valid() && fed == old(fed) + 1
    {
      StreamConcat(plan[..fed], [s]);
      assert Stream([s]) == s + [NUL] by { assert Stream([s][1..]) == ""; }
      assert plan[..fed + 1] == plan[..fed] + [s];
      bytes := bytes + s;
      bytes := bytes + [NUL];
      fed := fed + 1;
    }
  }

  lemma FieldList(r: Request)
    ensures var f := Fields(r);
            && f[0] == TextOr(r.tenant, GLOBAL_TENANT) && f[1] == r.model && f[2] == r.prompt
            && f[3] == TextOr(r.negativePrompt, "") && f[4] == NumberText(r.seed) && f[5] == IntText(r.n)
            && f[6] == TextOr(r.size, "") && f[7] == TextOr(r.aspectRatio, "") && f[8] == TextOr(r.quality, "")
            && f[9] == TextOr(r.style, "") && f[10] == NumberText(r.steps) && f[11] == TextOr(r.guidanceScale, "")
            && f[12] == TextOr(r.strength, "") && f[13] == r.responseFormat && f[14] == r.referenceImages
            && f[15] == TextOr(r.extra, "")
  {
    hide TextOr, NumberText, IntText;
  }

  // ---- Injectivity ---------------------------------------------------------

  predicate NulFree(s: string) {
    forall i | 0 <= i < |s| :: s[i] != NUL
  }

  predicate AllNulFree(fs: seq<string>) {
    forall i | 0 <= i < |fs| :: NulFree(fs[i])
  }

  function Nuls(s: string): nat {
    if s == "" then 0 else (if s[0] == NUL then 1 else 0) + Nuls(s[1..])
  }

  function TotalNuls(fs: seq<string>): nat {
    if fs == [] then 0 else Nuls(fs[0]) + TotalNuls(fs[1..])
  }

  lemma {:induction false} NulsConcat(a: string, b: string)
    ensures Nuls(a + b) == Nuls(a) + Nuls(b)
  {
    if a == "" {
      assert a + b == b;
    } else {
      assert (a + b)[1..] == a[1..] + b;
      NulsConcat(a[1..], b);
    }
  }

  lemma {:induction false} NulsZero(s: string)
    ensures Nuls(s) == 0 <==> NulFree(s)
  {
    if s != "" {
      NulsZero(s[1..]);
      assert NulFree(s) ==> NulFree(s[1..]);
      assert s[0] != NUL && NulFree(s[1..]) ==> forall i | 0 < i < |s| :: s[i] == s[1..][i - 1];
    }
  }

  lemma {:induction false} StreamNuls(fs: seq<string>)
    ensures Nuls(Stream(fs)) == |fs| + TotalNuls(fs)
    ensures TotalNuls(fs) == 0 <==> AllNulFree(fs)
  {
    if fs != [] {
      StreamNuls(fs[1..]);
      NulsConcat(fs[0] + [NUL], Stream(fs[1..]));
      NulsConcat(fs[0], [NUL]);
      assert Nuls([NUL]) == 1 by { assert [NUL][1..] == ""; }
      NulsZero(fs[0]);
      assert AllNulFree(fs) <==> NulFree(fs[0]) && AllNulFree(fs[1..]) by {
        assert forall i | 0 < i < |fs| :: fs[i] == fs[1..][i - 1];
      }
    }
  }

  lemma SplitAtNul(a: string, x: string, b: string, y: string)
    requires NulFree(a) && NulFree(b) && a + [NUL] + x == b + [NUL] + y
    ensures a == b && x == y
  {
    var (s, t) := (a + [NUL] + x, b + [NUL] + y);
    assert s[|a|] == NUL && t[|b|] == NUL;
    assert forall i | 0 <= i < |a| :: s[i] == a[i];
    assert forall i | 0 <= i < |b| :: t[i] == b[i];
    assert |a| == |b|;
    assert a == s[..|a|] && b == t[..|b|];
    assert x == s[|a| + 1..] && y == t[|b| + 1..];
  }

  lemma {:induction false} StreamInjective(f: seq<string>, g: seq<string>)
    requires AllNulFree(f) && AllNulFree(g) && Stream(f) == Stream(g)
    ensures f == g
  {
    if f != [] && g != [] {
      SplitAtNul(f[0], Stream(f[1..]), g[0], Stream(g[1..]));
      StreamInjective(f[1..], g[1..]);
      assert f == [f[0]] + f[1..] && g == [g[0]] + g[1..];
    }
  }

  // A NUL can be shifted across the boundary between two fields.
  lemma ShiftNul(pre: seq<string>, a: string, b: string, c: string, post: seq<string>)
    ensures Stream(pre + [a + [NUL] + b, c] + post) == Stream(pre + [a, b + [NUL] + c] + post)
  {
    hide Stream;
    StreamAround(pre, a + [NUL] + b, c, post);
    StreamAround(pre, a, b + [NUL] + c, post);
    assert (a + [NUL] + b) + [NUL] + (c + [NUL]) == a + [NUL] + ((b + [NUL] + c) + [NUL]);
  }

  lemma StreamAround(pre: seq<string>, x: string, y: string, post: seq<string>)
    ensures Stream(pre + [x, y] + post) == Stream(pre) + (x + [NUL] + (y + [NUL])) + Stream(post)
  {
    hide Stream;
    StreamConcat(pre + [x, y], post);
    StreamConcat(pre, [x, y]);
    TwoFields(x, y);
  }

  lemma TwoFields(x: string, y: string)
    ensures Stream([x, y]) == x + [NUL] + (y + [NUL])
  {
    assert [x, y][1..] == [y] && [y][1..] == [];
    assert Stream([y]) == y + [NUL] + "";
  }

  lemma ShiftRight(f: seq<string>, i: nat, a: string, b: string)
    requires i + 1 < |f| && f[i] == a + [NUL] + b
    ensures Stream(f[i := a][i + 1 := b + [NUL] + f[i + 1]]) == Stream(f)
  {
    hide Stream;
    ShiftNul(f[..i], a, b, f[i + 1], f[i + 2..]);
    assert f == f[..i] + [a + [NUL] + b, f[i + 1]] + f[i + 2..];
    assert f[i := a][i + 1 := b + [NUL] + f[i + 1]] == f[..i] + [a, b + [NUL] + f[i + 1]] + f[i + 2..];
  }

  lemma ShiftLeft(f: seq<string>, i: nat, a: string, b: string)
    requires 1 <= i < |f| && f[i] == a + [NUL] + b
    ensures Stream(f[i - 1 := f[i - 1] + [NUL] + a][i := b]) == Stream(f)
  {
    hide Stream;
    ShiftNul(f[..i - 1], f[i - 1], a, b, f[i + 1..]);
    assert f == f[..i - 1] + [f[i - 1], a + [NUL] + b] + f[i + 1..];
    assert f[i - 1 := f[i - 1] + [NUL] + a][i := b] == f[..i - 1] + [f[i - 1] + [NUL] + a, b] + f[i + 1..];
  }

  // The code's own normalisation: absent text is empty text, an absent tenant is the global one.
  function Normal(r: Request): Request {
    r.(tenant := Some(TextOr(r.tenant, GLOBAL_TENANT)), negativePrompt := Some(TextOr(r.negativePrompt, "")),
       size := Some(TextOr(r.size, "")), aspectRatio := Some(TextOr(r.aspectRatio, "")),
       quality := Some(TextOr(r.quality, "")), style := Some(TextOr(r.style, "")),
       guidanceScale := Some(TextOr(r.guidanceScale, "")), strength := Some(TextOr(r.strength, "")),
       extra := Some(TextOr(r.extra, "")))
  }

  predicate SameText(a: Option<string>, b: Option<string>, absent: string) {
    a == b || (a == None && b == Some(absent)) || (b == None && a == Some(absent))
  }

  // The same tenant and the same request: an absent tenant is the global one, other absent text is empty.
  predicate SameRequest(a: Request, b: Request) {
    && SameText(a.tenant, b.tenant, "__global__")
    && a.model == b.model && a.prompt == b.prompt && SameText(a.negativePrompt, b.negativePrompt, "")
    && a.seed == b.seed && a.n == b.n && SameText(a.size, b.size, "") && SameText(a.aspectRatio, b.aspectRatio, "")
    && SameText(a.quality, b.quality, "") && SameText(a.style, b.style, "") && a.steps == b.steps
    && SameText(a.guidanceScale, b.guidanceScale, "") && SameText(a.strength, b.strength, "")
    && a.responseFormat == b.responseFormat && a.referenceImages == b.referenceImages && SameText(a.extra, b.extra, "")
  }

  lemma SameTextMeans(a: Option<string>, b: Option<string>, absent: string)
    ensures SameText(a, b, absent) <==> TextOr(a, absent) == TextOr(b, absent)
  {
  }

  lemma NormalMeans(a: Request, b: Request)
    ensures Normal(a) == Normal(b) <==> SameRequest(a, b)
  {
    hide SameText, TextOr;
    SameTextMeans(a.tenant, b.tenant, "__global__");
    SameTextMeans(a.negativePrompt, b.negativePrompt, "");
    SameTextMeans(a.size, b.size, "");
    SameTextMeans(a.aspectRatio, b.aspectRatio, "");
    SameTextMeans(a.quality, b.quality, "");
    SameTextMeans(a.style, b.style, "");
    SameTextMeans(a.guidanceScale, b.guidanceScale, "");
    SameTextMeans(a.strength, b.strength, "");
    SameTextMeans(a.extra, b.extra, "");
  }

  // The bytes of a list: its fields in order, each followed by a NUL.
  lemma StreamLayout(fs: seq<string>, s: string)
    ensures Stream([]) == ""
    ensures Stream(fs + [s]) == Stream(fs) + s + "\0"
  {
    StreamConcat(fs, [s]);
    assert Stream([s]) == s + [NUL] by { assert Stream([s][1..]) == ""; }
    assert Stream(fs) + (s + [NUL]) == Stream(fs) + s + "\0";
  }

  // The sixteen fields of a request, in order.
  lemma FieldsInOrder(r: Request)
    ensures var f := Fields(r);
            && |f| == 16
            && f[0] == (if r.tenant.Some? then r.tenant.value else "__global__") && f[1] == r.model && f[2] == r.prompt
            && f[3] == (if r.negativePrompt.Some? then r.negativePrompt.value else "")
            && f[4] == (if r.seed.Some? then IntText(r.seed.value) else "") && f[5] == IntText(r.n)
            && f[6] == (if r.size.Some? then r.size.value else "")
            && f[7] == (if r.aspectRatio.Some? then r.aspectRatio.value else "")
            && f[8] == (if r.quality.Some? then r.quality.value else "")
            && f[9] == (if r.style.Some? then r.style.value else "")
            && f[10] == (if r.steps.Some? then IntText(r.steps.value) else "")
            && f[11] == (if r.guidanceScale.Some? then r.guidanceScale.value else "")
            && f[12] == (if r.strength.Some? then r.strength.value else "")
            && f[13] == r.responseFormat && f[14] == r.referenceImages
            && f[15] == (if r.extra.Some? then r.extra.value else "")
  {
    FieldList(r);
    hide Fields, IntText;
  }

  lemma NumberTextInjective(a: Option<int>, b: Option<int>)
    requires NumberText(a) == NumberText(b)
    ensures a == b
  {
    if a.Some? && b.Some? {
      IntTextInjective(a.value, b.value);
    }
  }

  lemma FieldsMeanNormal(a: Request, b: Request)
    ensures Fields(a) == Fields(b) <==> Normal(a) == Normal(b)
  {
    var (f, g) := (Fields(a), Fields(b));
    FieldList(a);
    FieldList(b);
    if f == g {
      NumberTextInjective(a.seed, b.seed);
      NumberTextInjective(a.steps, b.steps);
      IntTextInjective(a.n, b.n);
    }
  }

  // A NUL-free request feeds the hasher the same bytes as another, whatever that one holds, exactly when
  // they are the same request up to the normalisation: equal streams hold equally many NULs.
  lemma KeysMeanNormal(a: Request, b: Request)
    requires AllNulFree(Fields(b))
    ensures Stream(Fields(a)) == Stream(Fields(b)) <==> Normal(a) == Normal(b)
    ensures Stream(Fields(a)) == Stream(Fields(b)) <==> SameRequest(a, b)
  {
    hide Fields, Normal, Stream, SameRequest;
    NormalMeans(a, b);
    FieldsMeanNormal(a, b);
    if Stream(Fields(a)) == Stream(Fields(b)) {
      StreamNuls(Fields(a));
      StreamNuls(Fields(b));
      StreamInjective(Fields(a), Fields(b));
    }
  }

  // ---- Colliding requests --------------------------------------------------

  // The fields that hold a caller's text; the others are printed integers.
  predicate IsText(i: nat) {
    i < 16 && i != 4 && i != 5 && i != 10
  }

  // The request with one text field replaced.
  function WithText(r: Request, i: nat, s: string): Request
    requires IsText(i)
  {
    match i
    case 0 => r.(tenant := Some(s))
    case 1 => r.(model := s)
    case 2 => r.(prompt := s)
    case 3 => r.(negativePrompt := Some(s))
    case 6 => r.(size := Some(s))
    case 7 => r.(aspectRatio := Some(s))
    case 8 => r.(quality := Some(s))
    case 9 => r.(style := Some(s))
    case 11 => r.(guidanceScale := Some(s))
    case 12 => r.(strength := Some(s))
    case 13 => r.(responseFormat := s)
    case 14 => r.(referenceImages := s)
    case _ => r.(extra := Some(s))
  }

  lemma WithTextFields(r: Request, i: nat, s: string)
    requires IsText(i)
    ensures Fields(WithText(r, i, s)) == Fields(r)[i := s]
  {
    hide WithText, FieldAt;
    var (f, g) := (Fields(r), Fields(WithText(r, i, s)));
    forall j | 0 <= j < 16
      ensures g[j] == f[i := s][j]
    {
      WithTextAt(r, i, s, j);
    }
  }

  lemma WithTextAt(r: Request, i: nat, s: string, j: nat)
    requires IsText(i) && j < 16
    ensures FieldAt(WithText(r, i, s), j) == if i == j then s else FieldAt(r, j)
  {
    hide NumberText, IntText;
  }

  lemma IntTextNulFree(n: int)
    ensures NulFree(IntText(n))
  {
  }

  lemma NumbersNulFree(r: Request, i: nat)
    requires i < 16 && !IsText(i)
    ensures NulFree(Fields(r)[i])
  {
    FieldList(r);
    IntTextNulFree(r.n);
    if r.seed.Some? { IntTextNulFree(r.seed.value); }
    if r.steps.Some? { IntTextNulFree(r.steps.value); }
  }

  // A request whose prompt holds a NUL collides with one that differs in prompt and negative prompt only.
  lemma PromptCollides(r: Request, a: string, b: string)
    requires r.prompt == a + [NUL] + b
    ensures var q := r.(prompt := a, negativePrompt := Some(b + [NUL] + TextOr(r.negativePrompt, "")));
            Stream(Fields(q)) == Stream(Fields(r)) && Normal(q) != Normal(r) && !SameRequest(q, r)
  {
    hide Stream, IntText;
    var c := b + [NUL] + TextOr(r.negativePrompt, "");
    FieldList(r);
    WithTextFields(r, 2, a);
    WithTextFields(WithText(r, 2, a), 3, c);
    hide Fields;
    ShiftRight(Fields(r), 2, a, b);
  }

  // The two requests differ at most in text that a caller gives as it likes: no number, response format or JSON.
  predicate SameButText(q: Request, r: Request) {
    q == r.(tenant := q.tenant, model := q.model, prompt := q.prompt, negativePrompt := q.negativePrompt,
            size := q.size, aspectRatio := q.aspectRatio, quality := q.quality, style := q.style)
  }

  lemma WithTextKeeps(r: Request, i: nat, s: string)
    requires IsText(i) && i < 10
    ensures SameButText(WithText(r, i, s), r)
  {
  }

  // Moving a NUL out of a text field into a neighbouring one gives a request with the same stream.
  lemma Collider(r: Request, i: nat) returns (q: Request)
    requires IsText(i) && !NulFree(Fields(r)[i])
    ensures Stream(Fields(q)) == Stream(Fields(r)) && Normal(q) != Normal(r)
    ensures i < 10 ==> SameButText(q, r)
  {
    hide Fields, Normal, Stream, WithText;
    var f := Fields(r);
    var p :| 0 <= p < |f[i]| && f[i][p] == NUL;
    var (a, b) := (f[i][..p], f[i][p + 1..]);
    assert f[i] == a + [NUL] + b;
    var (j, x, y) := if IsText(i + 1) then (i, a, b + [NUL] + f[i + 1]) else (i - 1, f[i - 1] + [NUL] + a, b);
    q := WithText(WithText(r, j, x), j + 1, y);
    WithTextFields(r, j, x);
    WithTextFields(WithText(r, j, x), j + 1, y);
    if IsText(i + 1) {
      ShiftRight(f, i, a, b);
    } else {
      ShiftLeft(f, i, a, b);
    }
    assert |Fields(q)[i]| < |f[i]|;
    FieldsMeanNormal(q, r);
    if i < 10 {
      WithTextKeeps(r, j, x);
      WithTextKeeps(WithText(r, j, x), j + 1, y);
    }
  }

  // A request is told apart from every request that differs beyond the normalisation exactly when none
  // of its fields holds a NUL.
  lemma ToldApartIffNulFree(r: Request)
    ensures (forall q: Request :: Stream(Fields(q)) == Stream(Fields(r)) ==> Normal(q) == Normal(r)) <==> AllNulFree(Fields(r))
    ensures (forall q: Request :: Stream(Fields(q)) == Stream(Fields(r)) ==> SameRequest(q, r)) <==> AllNulFree(Fields(r))
  {
    hide Fields, Normal, Stream, IsText, SameButText, SameRequest;
    forall q: Request ensures Normal(q) == Normal(r) <==> SameRequest(q, r) { NormalMeans(q, r); }
    if AllNulFree(Fields(r)) {
      forall q: Request
        ensures Stream(Fields(q)) == Stream(Fields(r)) ==> Normal(q) == Normal(r)
      {
        KeysMeanNormal(q, r);
      }
    } else {
      var i :| 0 <= i < 16 && !NulFree(Fields(r)[i]);
      if !IsText(i) {
        NumbersNulFree(r, i);
      }
      var q := Collider(r, i);
    }
  }

  // The same among the requests that differ in caller's text only, where the other fields are NUL-free,
  // as the text of a number, of JSON or of a usual response format is.
  lemma TextToldApartIffNulFree(r: Request)
    requires forall i | 10 <= i < 16 :: NulFree(Fields(r)[i])
    ensures (forall q: Request | SameButText(q, r) :: Stream(Fields(q)) == Stream(Fields(r)) ==> Normal(q) == Normal(r))
            <==> AllNulFree(Fields(r))
  {
    hide Fields, Normal, Stream, IsText, SameButText;
    if AllNulFree(Fields(r)) {
      ToldApartIffNulFree(r);
    } else {
      var i :| 0 <= i < 16 && !NulFree(Fields(r)[i]);
      if !IsText(i) {
        NumbersNulFree(r, i);
      }
      var q := Collider(r, i);
    }
  }

  // ---- The cache -----------------------------------------------------------

  ghost predicate Injective(digest: string -> string) {
    forall s, t :: digest(s) == digest(t) ==> s == t
  }

  function Key(digest: string -> string, r: Request): string {
    digest(Stream(Fields(r)))
  }

  datatype Action<Response> =
    | Put(request: Request, response: Response)
    | Remove(request: Request)
    | Clear
    | Evict(key: string)

  // What an enabled cache holds after a call.
  function Applied<Response>(digest: string -> string, m: map<string, Response>, a: Action<Response>): map<string, Response> {
    match a
    case Put(r, response) => m[Key(digest, r) := response]
    case Remove(r) => m - {Key(digest, r)}
    case Clear => map[]
    case Evict(key) => m - {key}
  }

  class Cache<Response> {
    const enabled: bool
    const digest: string -> string
    var entries: map<string, Response>

    ghost predicate Valid() reads this { !enabled ==> entries == map[] }

    constructor (enabled: bool, digest: string -> string)
      ensures Valid() && entries == map[] && this.enabled == enabled && this.digest == digest
    {
      this.enabled, this.digest, entries := enabled, digest, map[];
    }

    method ImageCacheKey(r: Request) returns (key: string)
      ensures key == Key(digest, r)
    {
      hide Fields, Stream, IntText, TextOr, NumberText;
      FieldList(r);
      var hasher := new Hasher(Fields(r));
      hasher.Feed(TextOr(r.tenant, GLOBAL_TENANT));
      hasher.Feed(r.model);
      hasher.Feed(r.prompt);
      hasher.Feed(TextOr(r.negativePrompt, ""));
      hasher.Feed(NumberText(r.seed));
      hasher.Feed(IntText(r.n));
      hasher.Feed(TextOr(r.size, ""));
      hasher.Feed(TextOr(r.aspectRatio, ""));
      hasher.Feed(TextOr(r.quality, ""));
      hasher.Feed(TextOr(r.style, ""));
      hasher.Feed(NumberText(r.steps));
      hasher.Feed(TextOr(r.guidanceScale, ""));
      hasher.Feed(TextOr(r.strength, ""));
      hasher.Feed(r.responseFormat);
      hasher.Feed(r.referenceImages);
      hasher.Feed(TextOr(r.extra, ""));
      assert Fields(r)[..16] == Fields(r);
      key := digest(hasher.bytes);
    }

    method GetImage(r: Request) returns (hit: Option<Response>)
      requires Valid()
      ensures hit == if Key(digest, r) in entries then Some(entries[Key(digest, r)]) else None
    {
      if !enabled {
        return None;
      }
      var key := ImageCacheKey(r);
      hit := if key in entries then Some(entries[key]) else None;
    }

    method PutImage(r: Request, response: Response)
      requires Valid()
      modifies this
      ensures Valid()
      ensures entries == if enabled then old(entries)[Key(digest, r) := response] else old(entries)
      ensures enabled ==> entries == Applied(digest, old(entries), Put(r, response))
    {
      if enabled {
        var key := ImageCacheKey(r);
        entries := entries[key := response];
      }
    }

    method Invalidate(r: Request)
      requires Valid()
      modifies this
      ensures Valid() && entries == old(entries) - {Key(digest, r)}
      ensures entries == Applied(digest, old(entries), Remove(r))
    {
      if enabled {
        var key := ImageCacheKey(r);
        entries := entries - {key};
      }
    }

    method Clear()
      requires Valid()
      modifies this
      ensures Valid() && entries == map[]
      ensures entries == Applied(digest, old(entries), Action.Clear)
    {
      if enabled {
        entries := map[];
      }
    }

    // Capacity or age takes an entry away.
    method Evict(key: string)
      requires Valid()
      modifies this
      ensures Valid() && entries == old(entries) - {key}
      ensures entries == Applied(digest, old(entries), Action.Evict(key))
    {
      entries := entries - {key};
    }
  }

  // ---- Runs ----------------------------------------------------------------

  function Exec<Response>(digest: string -> string, acts: seq<Action<Response>>): map<string, Response> {
    if acts == [] then map[] else Applied(digest, Exec(digest, acts[..|acts| - 1]), acts[|acts| - 1])
  }

  // The response last put for the same normalised request, unless it was invalidated since.
  function Latest<Response>(acts: seq<Action<Response>>, r: Request): Option<Response> {
    if acts == [] then None
    else
      match acts[|acts| - 1]
      case Put(q, response) => if Normal(q) == Normal(r) then Some(response) else Latest(acts[..|acts| - 1], r)
      case Remove(q) => if Normal(q) == Normal(r) then None else Latest(acts[..|acts| - 1], r)
      case Clear => None
      case Evict(_) => Latest(acts[..|acts| - 1], r)
  }

  // The response is that of a put for the same tenant and request, and nothing after it put, invalidated or
  // cleared that request.
  ghost predicate LastPut<Response>(acts: seq<Action<Response>>, r: Request, response: Response) {
    exists i ::
      && 0 <= i < |acts| && acts[i].Put? && SameRequest(acts[i].request, r) && acts[i].response == response
      && forall j | i < j < |acts| ::
           !acts[j].Clear? && (acts[j].Put? || acts[j].Remove? ==> !SameRequest(acts[j].request, r))
  }

  lemma {:induction false} LatestMeaning<Response>(acts: seq<Action<Response>>, r: Request)
    ensures Latest(acts, r).Some? ==> LastPut(acts, r, Latest(acts, r).value)
  {
    hide Normal, SameRequest;
    if acts != [] {
      var (init, a) := (acts[..|acts| - 1], acts[|acts| - 1]);
      LatestMeaning(init, r);
      if a.Put? || a.Remove? {
        NormalMeans(a.request, r);
      }
      assert forall i | 0 <= i < |init| :: init[i] == acts[i];
      if Latest(acts, r).Some? {
        if a.Put? && SameRequest(a.request, r) {
          assert acts[|acts| - 1] == a;
        } else {
          var i :| 0 <= i < |init| && init[i].Put? && SameRequest(init[i].request, r) && init[i].response == Latest(acts, r).value
                   && forall j | i < j < |init| :: !init[j].Clear? && (init[j].Put? || init[j].Remove? ==> !SameRequest(init[j].request, r));
          assert acts[i].Put? && SameRequest(acts[i].request, r);
        }
      }
    }
  }

  // With an injective digest, every hit of a NUL-free request is the latest response put for the same
  // tenant and request, whatever the other callers of the run send: never another tenant's, never a
  // stale one.
  lemma HitIsLatest<Response>(digest: string -> string, acts: seq<Action<Response>>, r: Request)
    requires Injective(digest) && AllNulFree(Fields(r))
    ensures Key(digest, r) in Exec(digest, acts) ==>
              && Latest(acts, r) == Some(Exec(digest, acts)[Key(digest, r)])
              && LastPut(acts, r, Exec(digest, acts)[Key(digest, r)])
  {
    HitFollows(digest, acts, r);
    LatestMeaning(acts, r);
  }

  lemma {:induction false} HitFollows<Response>(digest: string -> string, acts: seq<Action<Response>>, r: Request)
    requires Injective(digest) && AllNulFree(Fields(r))
    ensures Key(digest, r) in Exec(digest, acts) ==> Latest(acts, r) == Some(Exec(digest, acts)[Key(digest, r)])
  {
    hide Fields, Normal, Stream, AllNulFree, SameRequest;
    if acts != [] {
      HitFollows(digest, acts[..|acts| - 1], r);
      var a := acts[|acts| - 1];
      if a.Put? || a.Remove? {
        KeysMeanNormal(a.request, r);
      }
    }
  }
}
