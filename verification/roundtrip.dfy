/** Flattening then rebuilding: on a document whose keys are plain names,
    `transform_data` with the identity mapping for every flattened path
    gives the document back. The proof reads a document as its list of
    leaves, each a path of keys with a value, and shows that `flatten_json`
    renders that list as dotted keys and that the rebuild writes it back
    path by path. */
module RoundTrip {
  import opened Wrappers
  import opened JsonModel
  import opened Strings
  import opened Flatten
  import opened Reshape

  // ---------------------------------------------------------------------------
  // Plain documents
  // ---------------------------------------------------------------------------

  /** A key the dotted-path encoding can carry: non-empty, without `.`, and
      without `[]`. */
  predicate PlainKey(k: string) {
    k != "" && '.' !in k && !Contains(k, "[]")
  }

  /** Plain keys, distinct at every level; every value is a non-empty plain
      object or a value `flatten_json` keeps as it is. */
  predicate Plain(fs: seq<(string, Json)>)
    decreases SizeFields(fs), 1
  {
    if fs == [] then true
    else
      SizeFieldsCons(fs);
      PlainKey(fs[0].0) && !HasKey(fs[1..], fs[0].0) && PlainValue(fs[0].1) && Plain(fs[1..])
  }

  predicate PlainValue(v: Json)
    decreases Size(v), 0
  {
    match v
    case JObj(sub) => sub != [] && Plain(sub)
    case _ => IsLeaf(v)
  }

  // ---------------------------------------------------------------------------
  // Leaves: a document as a list of key paths with their values
  // ---------------------------------------------------------------------------

  type Leaf = (seq<string>, Json)

  predicate NonEmptyPaths(es: seq<Leaf>) {
    forall i :: 0 <= i < |es| ==> |es[i].0| >= 1
  }

  predicate PlainPath(p: seq<string>) {
    |p| >= 1 && forall i :: 0 <= i < |p| ==> PlainKey(p[i])
  }

  predicate DistinctPaths(es: seq<Leaf>) {
    forall i, j :: 0 <= i < j < |es| ==> es[i].0 != es[j].0
  }

  /** Every path of `es`, with `k` put in front. */
  function Under(k: string, es: seq<Leaf>): (r: seq<Leaf>)
    ensures |r| == |es|
    ensures forall i :: 0 <= i < |es| ==> r[i] == ([k] + es[i].0, es[i].1)
  {
    if es == [] then [] else [([k] + es[0].0, es[0].1)] + Under(k, es[1..])
  }

  /** The leaves of an object, in member order, depth first. */
  function Leaves(fs: seq<(string, Json)>): (r: seq<Leaf>)
    ensures NonEmptyPaths(r)
    decreases SizeFields(fs), 1
  {
    if fs == [] then []
    else
      SizeFieldsCons(fs);
      MemberLeaves(fs[0].0, fs[0].1) + Leaves(fs[1..])
  }

  function MemberLeaves(k: string, v: Json): (r: seq<Leaf>)
    ensures NonEmptyPaths(r)
    decreases Size(v), 0
  {
    match v
    case JObj(sub) => Under(k, Leaves(sub))
    case _ => [([k], v)]
  }

  lemma DistinctConcat(a: seq<Leaf>, b: seq<Leaf>)
    requires DistinctPaths(a) && DistinctPaths(b)
    requires forall i, j :: 0 <= i < |a| && 0 <= j < |b| ==> a[i].0 != b[j].0
    ensures DistinctPaths(a + b)
  {
    forall i, j | 0 <= i < j < |a + b| ensures (a + b)[i].0 != (a + b)[j].0 {
      if j < |a| {
      } else if i >= |a| {
        assert (a + b)[i] == b[i - |a|] && (a + b)[j] == b[j - |a|];
      } else {
        assert (a + b)[j] == b[j - |a|];
      }
    }
  }

  lemma DistinctUnder(k: string, es: seq<Leaf>)
    requires DistinctPaths(es)
    ensures DistinctPaths(Under(k, es))
  {
    var u := Under(k, es);
    forall i, j | 0 <= i < j < |u| ensures u[i].0 != u[j].0 {
      assert u[i].0[1..] == es[i].0 && u[j].0[1..] == es[j].0;
    }
  }

  /** The leaves of a plain object have plain, distinct paths, each starting
      at one of its keys, and there is at least one. */
  lemma {:induction false} LeavesShape(fs: seq<(string, Json)>)
    requires Plain(fs)
    ensures forall i :: 0 <= i < |Leaves(fs)| ==> PlainPath(Leaves(fs)[i].0) && HasKey(fs, Leaves(fs)[i].0[0])
    ensures DistinctPaths(Leaves(fs))
    ensures fs != [] ==> |Leaves(fs)| >= 1
    decreases SizeFields(fs), 1
  {
    if fs != [] {
      SizeFieldsCons(fs);
      var a := MemberLeaves(fs[0].0, fs[0].1);
      var b := Leaves(fs[1..]);
      MemberLeavesShape(fs[0].0, fs[0].1);
      LeavesShape(fs[1..]);
      assert Leaves(fs) == a + b;
      forall i, j | 0 <= i < |a| && 0 <= j < |b| ensures a[i].0 != b[j].0 {
        assert a[i].0[0] == fs[0].0 && HasKey(fs[1..], b[j].0[0]);
      }
      DistinctConcat(a, b);
      forall i | 0 <= i < |a + b| ensures PlainPath((a + b)[i].0) && HasKey(fs, (a + b)[i].0[0]) {
        if i >= |a| {
          assert (a + b)[i] == b[i - |a|];
        }
      }
    }
  }

  lemma {:induction false} MemberLeavesShape(k: string, v: Json)
    requires PlainKey(k) && PlainValue(v)
    ensures forall i :: 0 <= i < |MemberLeaves(k, v)| ==> PlainPath(MemberLeaves(k, v)[i].0) && MemberLeaves(k, v)[i].0[0] == k
    ensures DistinctPaths(MemberLeaves(k, v))
    ensures |MemberLeaves(k, v)| >= 1
    decreases Size(v), 0
  {
    match v
    case JObj(sub) =>
      LeavesShape(sub);
      DistinctUnder(k, Leaves(sub));
    case _ =>
  }

  // ---------------------------------------------------------------------------
  // Flatten side: the flattened object renders the leaves as dotted keys
  // ---------------------------------------------------------------------------

  /** The key `flatten_json` gives a leaf below `parent`. */
  function RenderKey(parent: string, p: seq<string>): string
    requires |p| >= 1
  {
    NewKey(parent, JoinDot(p))
  }

  function Render(parent: string, es: seq<Leaf>): (r: seq<(string, Json)>)
    requires NonEmptyPaths(es)
    ensures |r| == |es|
    ensures forall i :: 0 <= i < |es| ==> r[i] == (RenderKey(parent, es[i].0), es[i].1)
  {
    if es == [] then [] else [(RenderKey(parent, es[0].0), es[0].1)] + Render(parent, es[1..])
  }

  lemma RenderConcat(parent: string, a: seq<Leaf>, b: seq<Leaf>)
    requires NonEmptyPaths(a) && NonEmptyPaths(b)
    ensures NonEmptyPaths(a + b)
    ensures Render(parent, a + b) == Render(parent, a) + Render(parent, b)
  {
    assert forall i :: 0 <= i < |a + b| ==> (a + b)[i] == (if i < |a| then a[i] else b[i - |a|]);
  }

  lemma JoinDotCons(k: string, p: seq<string>)
    requires |p| >= 1
    ensures JoinDot([k] + p) == k + "." + JoinDot(p)
  {
    assert ([k] + p)[1..] == p;
  }

  /** Rendering below `parent.k` is rendering below `parent` with `k` in
      front of every path. */
  lemma RenderUnder(parent: string, k: string, es: seq<Leaf>)
    requires k != "" && NonEmptyPaths(es)
    ensures Render(NewKey(parent, k), es) == Render(parent, Under(k, es))
  {
    var l := Render(NewKey(parent, k), es);
    var r := Render(parent, Under(k, es));
    forall i | 0 <= i < |es| ensures l[i] == r[i] {
      var j := JoinDot(es[i].0);
      JoinDotCons(k, es[i].0);
      if parent == "" {
        assert RenderKey(parent, [k] + es[i].0) == k + "." + j;
      } else {
        assert (parent + "." + k) + "." + j == parent + "." + (k + "." + j);
      }
    }
  }

  lemma JoinDotInjective(p: seq<string>, q: seq<string>)
    requires PlainPath(p) && PlainPath(q)
    requires JoinDot(p) == JoinDot(q)
    ensures p == q
  {
    SplitJoin(p);
    SplitJoin(q);
  }

  lemma RenderKeyInjective(parent: string, p: seq<string>, q: seq<string>)
    requires PlainPath(p) && PlainPath(q)
    requires RenderKey(parent, p) == RenderKey(parent, q)
    ensures p == q
  {
    if parent != "" {
      var n := |parent| + 1;
      assert (parent + "." + JoinDot(p))[n..] == JoinDot(p);
      assert (parent + "." + JoinDot(q))[n..] == JoinDot(q);
    }
    JoinDotInjective(p, q);
  }

  lemma {:induction false} HasKeyIndex<V>(kv: seq<(string, V)>, k: string)
    ensures HasKey(kv, k) <==> exists i :: 0 <= i < |kv| && kv[i].0 == k
  {
    if kv != [] {
      HasKeyIndex(kv[1..], k);
      if exists i :: 0 <= i < |kv[1..]| && kv[1..][i].0 == k {
        var i :| 0 <= i < |kv[1..]| && kv[1..][i].0 == k;
        assert kv[i + 1].0 == k;
      }
      if exists i :: 0 <= i < |kv| && kv[i].0 == k {
        var i :| 0 <= i < |kv| && kv[i].0 == k;
        if i > 0 {
          assert kv[1..][i - 1].0 == k;
        }
      }
    }
  }

  lemma {:induction false} UniqueKeysIndex<V>(kv: seq<(string, V)>)
    requires forall i, j :: 0 <= i < j < |kv| ==> kv[i].0 != kv[j].0
    ensures UniqueKeys(kv)
  {
    if kv != [] {
      HasKeyIndex(kv[1..], kv[0].0);
      forall i | 0 <= i < |kv[1..]| ensures kv[1..][i].0 != kv[0].0 {
        assert kv[1..][i] == kv[i + 1];
      }
      UniqueKeysIndex(kv[1..]);
    }
  }

  lemma {:induction false} LookupIndex<V>(kv: seq<(string, V)>, i: nat)
    requires UniqueKeys(kv) && i < |kv|
    ensures Lookup(kv, kv[i].0) == Some(kv[i].1)
  {
    if i > 0 {
      LookupIndex(kv[1..], i - 1);
      assert kv[1..][i - 1] == kv[i];
      HasKeyIndex(kv[1..], kv[0].0);
      assert kv[0].0 != kv[i].0;
    }
  }

  lemma RenderUnique(parent: string, es: seq<Leaf>)
    requires NonEmptyPaths(es)
    requires forall i :: 0 <= i < |es| ==> PlainPath(es[i].0)
    requires DistinctPaths(es)
    ensures UniqueKeys(Render(parent, es))
  {
    var r := Render(parent, es);
    forall i, j | 0 <= i < j < |r| ensures r[i].0 != r[j].0 {
      if r[i].0 == r[j].0 {
        RenderKeyInjective(parent, es[i].0, es[j].0);
      }
    }
    UniqueKeysIndex(r);
  }

  /** The `items` list of a plain object is its leaves rendered, and it has
      no repeated key, so `dict(items)` keeps it as it is. */
  lemma {:induction false} ItemsRender(fs: seq<(string, Json)>, parent: string)
    requires Plain(fs)
    ensures Items(fs, parent) == Render(parent, Leaves(fs))
    decreases SizeFields(fs), 1
  {
    if fs != [] {
      SizeFieldsCons(fs);
      MemberItemsRender(fs[0].0, fs[0].1, parent);
      ItemsRender(fs[1..], parent);
      RenderConcat(parent, MemberLeaves(fs[0].0, fs[0].1), Leaves(fs[1..]));
    }
  }

  lemma {:induction false} MemberItemsRender(k: string, v: Json, parent: string)
    requires PlainKey(k) && PlainValue(v)
    ensures MemberItems(k, v, parent) == Render(parent, MemberLeaves(k, v))
    decreases Size(v), 0
  {
    var nk := NewKey(parent, k);
    match v
    case JObj(sub) =>
      ItemsRender(sub, nk);
      LeavesShape(sub);
      RenderUnique(nk, Leaves(sub));
      DictOfUnique(Items(sub, nk));
      RenderUnder(parent, k, Leaves(sub));
    case _ =>
      assert JoinDot([k]) == k;
  }

  /** The flattened plain document lists every leaf once, in document order,
      under its dotted path. */
  lemma FlattenLeaves(doc: seq<(string, Json)>)
    requires Plain(doc)
    ensures FlattenJson(doc) == Render("", Leaves(doc))
    ensures UniqueKeys(FlattenJson(doc))
    ensures forall i :: 0 <= i < |Leaves(doc)| ==> FlattenJson(doc)[i].0 == JoinDot(Leaves(doc)[i].0)
  {
    ItemsRender(doc, "");
    LeavesShape(doc);
    RenderUnique("", Leaves(doc));
    DictOfUnique(Items(doc, ""));
  }

  // ---------------------------------------------------------------------------
  // Rebuild side: writing the leaves back path by path
  // ---------------------------------------------------------------------------

  /** The writes of `es` in order, each as the rebuild loop performs it. */
  function WriteAll(obj: seq<(string, Json)>, es: seq<Leaf>): Result<seq<(string, Json)>, Error>
    requires NonEmptyPaths(es)
    decreases |es|
  {
    if es == [] then Ok(obj)
    else
      match SetPath(obj, es[0].0, es[0].1)
      case Ok(r) => WriteAll(r, es[1..])
      case Err(e) => Err(e)
  }

  lemma {:induction false} WriteAllAppend(obj: seq<(string, Json)>, a: seq<Leaf>, b: seq<Leaf>)
    requires NonEmptyPaths(a) && NonEmptyPaths(b)
    ensures NonEmptyPaths(a + b)
    ensures WriteAll(obj, a + b)
         == (match WriteAll(obj, a)
             case Ok(r) => WriteAll(r, b)
             case Err(e) => Err(e))
    decreases |a|
  {
    assert forall i :: 0 <= i < |a + b| ==> (a + b)[i] == (if i < |a| then a[i] else b[i - |a|]);
    if a == [] {
      assert a + b == b;
    } else {
      assert (a + b)[1..] == a[1..] + b;
      match SetPath(obj, a[0].0, a[0].1)
      case Ok(r) => WriteAllAppend(r, a[1..], b);
      case Err(e) =>
    }
  }

  lemma {:induction false} PutSame<V>(kv: seq<(string, V)>, k: string, v: V)
    requires Lookup(kv, k) == Some(v)
    ensures Put(kv, k, v) == kv
  {
    if kv != [] && kv[0].0 != k {
      PutSame(kv[1..], k, v);
    }
  }

  lemma {:induction false} PutPut<V>(kv: seq<(string, V)>, k: string, v: V, w: V)
    ensures Put(Put(kv, k, v), k, w) == Put(kv, k, w)
  {
    if kv != [] && kv[0].0 != k {
      PutPut(kv[1..], k, v, w);
    }
  }

  /** Writing paths below a key that holds an object rewrites that object in
      place. */
  lemma {:induction false} UnderPresent(obj: seq<(string, Json)>, k: string, inner: seq<(string, Json)>, es: seq<Leaf>)
    requires Lookup(obj, k) == Some(JObj(inner))
    requires NonEmptyPaths(es)
    ensures WriteAll(obj, Under(k, es))
         == (match WriteAll(inner, es)
             case Ok(u) => Ok(Put(obj, k, JObj(u)))
             case Err(e) => Err(e))
    decreases |es|
  {
    if es == [] {
      PutSame(obj, k, JObj(inner));
    } else {
      var p := [k] + es[0].0;
      assert p[0] == k && p[1..] == es[0].0;
      assert Under(k, es)[1..] == Under(k, es[1..]);
      match SetPath(inner, es[0].0, es[0].1)
      case Ok(c) =>
        var obj1 := Put(obj, k, JObj(c));
        assert SetPath(obj, p, es[0].1) == Ok(obj1);
        UnderPresent(obj1, k, c, es[1..]);
        if WriteAll(c, es[1..]).Ok? {
          PutPut(obj, k, JObj(c), JObj(WriteAll(c, es[1..]).value));
        }
      case Err(e) =>
        assert SetPath(obj, p, es[0].1) == Err(e);
    }
  }

  /** Writing paths below a fresh key appends one new object built from
      nothing. */
  lemma {:induction false} UnderFresh(obj: seq<(string, Json)>, k: string, es: seq<Leaf>)
    requires !HasKey(obj, k)
    requires NonEmptyPaths(es) && es != []
    ensures WriteAll(obj, Under(k, es))
         == (match WriteAll([], es)
             case Ok(u) => Ok(obj + [(k, JObj(u))])
             case Err(e) => Err(e))
  {
    var p := [k] + es[0].0;
    assert p[0] == k && p[1..] == es[0].0;
    assert Under(k, es)[1..] == Under(k, es[1..]);
    assert Lookup(obj, k) == None;
    match SetPath([], es[0].0, es[0].1)
    case Ok(c) =>
      var obj1 := Put(obj, k, JObj(c));
      assert SetPath(obj, p, es[0].1) == Ok(obj1);
      UnderPresent(obj1, k, c, es[1..]);
      if WriteAll(c, es[1..]).Ok? {
        var res := WriteAll(c, es[1..]).value;
        PutPut(obj, k, JObj(c), JObj(res));
        PutAbsent(obj, k, JObj(res));
      }
    case Err(e) =>
      assert SetPath(obj, p, es[0].1) == Err(e);
  }

  /** Writing the leaves of a plain object into an object without any of
      its keys appends its members, in order. */
  lemma {:induction false} WriteLeaves(obj: seq<(string, Json)>, fs: seq<(string, Json)>)
    requires Plain(fs)
    requires forall x :: HasKey(fs, x) ==> !HasKey(obj, x)
    ensures WriteAll(obj, Leaves(fs)) == Ok(obj + fs)
    decreases SizeFields(fs), 1
  {
    if fs == [] {
      assert obj + fs == obj;
    } else {
      SizeFieldsCons(fs);
      var k := fs[0].0;
      var obj1 := obj + [fs[0]];
      WriteAllAppend(obj, MemberLeaves(k, fs[0].1), Leaves(fs[1..]));
      WriteMember(obj, k, fs[0].1);
      forall x | HasKey(fs[1..], x) ensures !HasKey(obj1, x) {
        HasKeyConcat(obj, [fs[0]], x);
      }
      WriteLeaves(obj1, fs[1..]);
      assert obj1 + fs[1..] == obj + fs;
    }
  }

  lemma {:induction false} WriteMember(obj: seq<(string, Json)>, k: string, v: Json)
    requires PlainKey(k) && PlainValue(v) && !HasKey(obj, k)
    ensures WriteAll(obj, MemberLeaves(k, v)) == Ok(obj + [(k, v)])
    decreases Size(v), 0
  {
    match v
    case JObj(sub) =>
      LeavesShape(sub);
      UnderFresh(obj, k, Leaves(sub));
      WriteLeaves([], sub);
      assert [] + sub == sub;
    case _ =>
      assert SetPath(obj, [k], v) == Ok(Put(obj, k, v));
      PutAbsent(obj, k, v);
  }

  // ---------------------------------------------------------------------------
  // The mapping loop with identity mappings
  // ---------------------------------------------------------------------------

  /** `[{"source": p, "target": p} for p in paths]`. */
  function IdentityMappings(paths: seq<string>): (ms: seq<Mapping>)
    ensures |ms| == |paths|
    ensures forall i :: 0 <= i < |paths| ==> ms[i] == Mapping(Some(paths[i]), Some(paths[i]), None)
  {
    if paths == [] then [] else [Mapping(Some(paths[0]), Some(paths[0]), None)] + IdentityMappings(paths[1..])
  }

  /** A dotted join of plain keys is split back into those keys as a target
      path; a single key is written at top level under its name. */
  lemma TargetPathJoin(p: seq<string>)
    requires PlainPath(p)
    ensures JoinDot(p) != ""
    ensures TargetPath(JoinDot(p)) == p
  {
    JoinDotHasDot(p);
    var j := JoinDot(p);
    if |p| >= 2 {
      assert j == p[0] + "." + JoinDot(p[1..]);
      SplitJoin(p);
      forall i | 0 <= i < |p| ensures StripBrackets(p[i]) == p[i] {
        StripBracketsNone(p[i]);
      }
    }
  }

  /** With every leaf's path naming its own value in `flat`, the loop over
      the identity mappings performs exactly the leaf writes. */
  lemma {:induction false} TransformIdentity(result: seq<(string, Json)>, flat: seq<(string, Json)>, es: seq<Leaf>)
    requires NonEmptyPaths(es)
    requires forall i :: 0 <= i < |es| ==> PlainPath(es[i].0) && Lookup(flat, JoinDot(es[i].0)) == Some(es[i].1)
    ensures TransformFrom(result, flat, IdentityMappings(Keys(Render("", es)))) == WriteAll(result, es)
    decreases |es|
  {
    var ms := IdentityMappings(Keys(Render("", es)));
    if es != [] {
      var j := JoinDot(es[0].0);
      TargetPathJoin(es[0].0);
      assert Render("", es)[1..] == Render("", es[1..]);
      assert Keys(Render("", es))[1..] == Keys(Render("", es[1..]));
      assert ms[1..] == IdentityMappings(Keys(Render("", es[1..])));
      assert ms[0] == Mapping(Some(j), Some(j), None);
      assert ApplyMapping(result, flat, ms[0]) == SetPath(result, es[0].0, es[0].1);
      match SetPath(result, es[0].0, es[0].1)
      case Ok(r) => TransformIdentity(r, flat, es[1..]);
      case Err(e) =>
    }
  }

  /** The round trip: flattening a plain document and rebuilding it with
      the identity mapping for every flattened path gives the document
      back, members and order alike. */
  lemma FlattenRebuild(doc: seq<(string, Json)>)
    requires Plain(doc)
    ensures TransformData(doc, IdentityMappings(Keys(FlattenJson(doc)))) == Ok(doc)
  {
    var flat := FlattenJson(doc);
    var es := Leaves(doc);
    FlattenLeaves(doc);
    LeavesShape(doc);
    forall i | 0 <= i < |es| ensures Lookup(flat, JoinDot(es[i].0)) == Some(es[i].1) {
      LookupIndex(flat, i);
    }
    TransformIdentity([], flat, es);
    WriteLeaves([], doc);
    assert [] + doc == doc;
  }
}
