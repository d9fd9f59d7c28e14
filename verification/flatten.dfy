/** `flatten_json` and `extract_fields`: a nested object becomes a dict from
    dotted leaf paths to leaf values. */
module Flatten {
  import opened Wrappers
  import opened JsonModel
  import opened Strings
  import opened Ordering

  /** `f"{parent_key}{sep}{key}" if parent_key else key`, with `sep` fixed at
      `.`: an empty parent (the top level, or a key that was itself empty)
      adds no prefix. */
  function NewKey(parent: string, key: string): string {
    if parent == "" then key else parent + "." + key
  }

  /** A non-empty array whose first element is an object: flattened through
      that first element as a template. */
  predicate IsObjectArray(v: Json) {
    v.JArr? && |v.elems| > 0 && v.elems[0].JObj?
  }

  /** A value `flatten_json` stores as-is rather than descending into. */
  predicate IsLeaf(v: Json) {
    !v.JObj? && !IsObjectArray(v)
  }

  predicate AllLeaves(kv: seq<(string, Json)>) {
    forall i :: 0 <= i < |kv| ==> IsLeaf(kv[i].1)
  }

  /** `flatten_json(fields, parent)`: the `items` list, then `dict(items)`. */
  function FlattenFields(fs: seq<(string, Json)>, parent: string): seq<(string, Json)>
    decreases SizeFields(fs), 2
  {
    Dict(Items(fs, parent))
  }

  /** The `items` list the loop over the object's members builds. */
  function Items(fs: seq<(string, Json)>, parent: string): seq<(string, Json)>
    decreases SizeFields(fs), 1
  {
    if fs == [] then []
    else
      SizeFieldsCons(fs);
      MemberItems(fs[0].0, fs[0].1, parent) + Items(fs[1..], parent)
  }

  /** What one member `key: value` adds to `items`. */
  function MemberItems(key: string, value: Json, parent: string): seq<(string, Json)>
    decreases Size(value), 0
  {
    var nk := NewKey(parent, key);
    match value
    case JObj(sub) => FlattenFields(sub, nk)
    case JArr(a) =>
      if |a| > 0 && a[0].JObj? then
        SizeFirstElem(a);
        FlattenFields(a[0].fields, nk + "[]")
      else [(nk, value)]
    case _ => [(nk, value)]
  }

  /** `flatten_json(data)` at the top level. */
  function FlattenJson(doc: seq<(string, Json)>): seq<(string, Json)> {
    FlattenFields(doc, "")
  }

  // ---------------------------------------------------------------------------
  // Every value in the result is a leaf, and keys are distinct.
  // ---------------------------------------------------------------------------

  lemma {:induction false} PutLeaves(kv: seq<(string, Json)>, k: string, v: Json)
    requires AllLeaves(kv) && IsLeaf(v)
    ensures AllLeaves(Put(kv, k, v))
  {
    if kv != [] && kv[0].0 != k {
      PutLeaves(kv[1..], k, v);
    }
  }

  lemma {:induction false} DictFromLeaves(acc: seq<(string, Json)>, items: seq<(string, Json)>)
    requires AllLeaves(acc) && AllLeaves(items)
    ensures AllLeaves(DictFrom(acc, items))
    decreases items
  {
    if items != [] {
      PutLeaves(acc, items[0].0, items[0].1);
      DictFromLeaves(Put(acc, items[0].0, items[0].1), items[1..]);
    }
  }

  lemma {:induction false} FlattenFieldsLeaves(fs: seq<(string, Json)>, parent: string)
    ensures AllLeaves(FlattenFields(fs, parent))
    ensures UniqueKeys(FlattenFields(fs, parent))
    decreases SizeFields(fs), 2
  {
    ItemsLeaves(fs, parent);
    DictFromLeaves([], Items(fs, parent));
    DictSpec(Items(fs, parent), "");
  }

  lemma {:induction false} ItemsLeaves(fs: seq<(string, Json)>, parent: string)
    ensures AllLeaves(Items(fs, parent))
    decreases SizeFields(fs), 1
  {
    if fs != [] {
      SizeFieldsCons(fs);
      MemberItemsLeaves(fs[0].0, fs[0].1, parent);
      ItemsLeaves(fs[1..], parent);
    }
  }

  lemma {:induction false} MemberItemsLeaves(key: string, value: Json, parent: string)
    ensures AllLeaves(MemberItems(key, value, parent))
    decreases Size(value), 0
  {
    var nk := NewKey(parent, key);
    match value
    case JObj(sub) => FlattenFieldsLeaves(sub, nk);
    case JArr(a) =>
      if |a| > 0 && a[0].JObj? {
        SizeFirstElem(a);
        FlattenFieldsLeaves(a[0].fields, nk + "[]");
      }
    case _ =>
  }

  /** The full-expansion invariant: no value in the flattened document is an
      object or a non-empty array whose first element is an object, and every
      path occurs once. */
  lemma FlattenJsonLeaves(doc: seq<(string, Json)>)
    ensures AllLeaves(FlattenJson(doc))
    ensures UniqueKeys(FlattenJson(doc))
  {
    FlattenFieldsLeaves(doc, "");
  }

  // ---------------------------------------------------------------------------
  // Members flatten independently of each other.
  // ---------------------------------------------------------------------------

  lemma {:induction false} ItemsConcat(a: seq<(string, Json)>, b: seq<(string, Json)>, parent: string)
    ensures Items(a + b, parent) == Items(a, parent) + Items(b, parent)
    decreases |a|
  {
    if a == [] {
      assert a + b == b;
    } else {
      assert (a + b)[0] == a[0] && (a + b)[1..] == a[1..] + b;
      ItemsConcat(a[1..], b, parent);
    }
  }

  /** A member holding an empty object contributes no paths: removing it
      leaves the flattened document unchanged. */
  lemma EmptyObjectContributesNothing(fs: seq<(string, Json)>, i: nat, parent: string)
    requires i < |fs| && fs[i].1 == JObj([])
    ensures FlattenFields(fs, parent) == FlattenFields(fs[..i] + fs[i + 1..], parent)
  {
    assert fs == fs[..i] + ([fs[i]] + fs[i + 1..]);
    ItemsConcat(fs[..i], [fs[i]] + fs[i + 1..], parent);
    ItemsConcat([fs[i]], fs[i + 1..], parent);
    ItemsConcat(fs[..i], fs[i + 1..], parent);
    var nk := NewKey(parent, fs[i].0);
    assert Items([], nk) == [];
    assert FlattenFields([], nk) == [];
    assert MemberItems(fs[i].0, fs[i].1, parent) == [];
    assert [fs[i]][1..] == [];
    assert Items([fs[i]], parent) == MemberItems(fs[i].0, fs[i].1, parent) + Items([], parent);
    assert Items(fs, parent) == Items(fs[..i] + fs[i + 1..], parent);
  }

  /** An array of objects is flattened through its first element only:
      whatever follows that element has no effect. */
  lemma ObjectArrayUsesFirstOnly(key: string, a: seq<Json>, parent: string)
    requires |a| > 0 && a[0].JObj?
    ensures MemberItems(key, JArr(a), parent) == MemberItems(key, JArr([a[0]]), parent)
  {
  }

  /** Every leaf member is kept: its joined path is a key of the flattened
      object (its value may be replaced by a later member that flattens to
      the same path). At the top level the path is the member's own key. */
  lemma LeafKeyPresent(fs: seq<(string, Json)>, parent: string, i: nat)
    requires i < |fs| && IsLeaf(fs[i].1)
    ensures HasKey(FlattenFields(fs, parent), NewKey(parent, fs[i].0))
    ensures parent == "" ==> HasKey(FlattenJson(fs), fs[i].0)
  {
    var nk := NewKey(parent, fs[i].0);
    assert fs == fs[..i] + ([fs[i]] + fs[i + 1..]);
    ItemsConcat(fs[..i], [fs[i]] + fs[i + 1..], parent);
    ItemsConcat([fs[i]], fs[i + 1..], parent);
    assert [fs[i]][1..] == [];
    assert Items([fs[i]], parent) == [(nk, fs[i].1)];
    HasKeyConcat([(nk, fs[i].1)], Items(fs[i + 1..], parent), nk);
    HasKeyConcat(Items(fs[..i], parent), Items([fs[i]] + fs[i + 1..], parent), nk);
    DictSpec(Items(fs, parent), nk);
  }

  /** The documented example: `{"user": {"name": "John"}}` flattens to
      `{"user.name": "John"}`, and its field list is `["user.name"]`. */
  lemma FlattenUserName()
    ensures FlattenJson([("user", JObj([("name", JStr("John"))]))]) == [("user.name", JStr("John"))]
    ensures ExtractFields([("user", JObj([("name", JStr("John"))]))]) == ["user.name"]
  {
    var inner := [("name", JStr("John"))];
    assert inner[1..] == [];
    assert NewKey("user", "name") == "user.name";
    assert MemberItems("name", JStr("John"), "user") == [("user.name", JStr("John"))];
    assert Items(inner, "user") == [("user.name", JStr("John"))];
    assert FlattenFields(inner, "user") == [("user.name", JStr("John"))];
    var doc := [("user", JObj(inner))];
    assert doc[1..] == [];
    assert [("user.name", JStr("John"))][1..] == [];
    assert Dict(Items(inner, "user")) == [("user.name", JStr("John"))];
    assert MemberItems("user", JObj(inner), "") == [("user.name", JStr("John"))];
    assert Items(doc, "") == [("user.name", JStr("John"))];
    var r := ExtractFields(doc);
    assert HasKey(FlattenJson(doc), "user.name");
    assert |r| == 1 && "user.name" in r;
  }

  // ---------------------------------------------------------------------------
  // Paths below a non-empty parent extend that parent.
  // ---------------------------------------------------------------------------

  predicate AllUnder(kv: seq<(string, Json)>, prefix: string) {
    forall i :: 0 <= i < |kv| ==> prefix <= kv[i].0
  }

  lemma {:induction false} PutUnder(kv: seq<(string, Json)>, k: string, v: Json, prefix: string)
    requires AllUnder(kv, prefix) && prefix <= k
    ensures AllUnder(Put(kv, k, v), prefix)
  {
    if kv != [] && kv[0].0 != k {
      PutUnder(kv[1..], k, v, prefix);
    }
  }

  lemma {:induction false} DictFromUnder(acc: seq<(string, Json)>, items: seq<(string, Json)>, prefix: string)
    requires AllUnder(acc, prefix) && AllUnder(items, prefix)
    ensures AllUnder(DictFrom(acc, items), prefix)
    decreases items
  {
    if items != [] {
      PutUnder(acc, items[0].0, items[0].1, prefix);
      DictFromUnder(Put(acc, items[0].0, items[0].1), items[1..], prefix);
    }
  }

  lemma PrefixTrans(a: string, b: string, c: string)
    requires a <= b && b <= c
    ensures a <= c
  {
    assert c[..|a|] == b[..|a|];
  }

  lemma {:induction false} FlattenFieldsUnder(fs: seq<(string, Json)>, parent: string)
    requires parent != ""
    ensures AllUnder(FlattenFields(fs, parent), parent + ".")
    decreases SizeFields(fs), 2
  {
    ItemsUnder(fs, parent);
    DictFromUnder([], Items(fs, parent), parent + ".");
  }

  lemma {:induction false} ItemsUnder(fs: seq<(string, Json)>, parent: string)
    requires parent != ""
    ensures AllUnder(Items(fs, parent), parent + ".")
    decreases SizeFields(fs), 1
  {
    if fs != [] {
      SizeFieldsCons(fs);
      MemberItemsUnder(fs[0].0, fs[0].1, parent);
      ItemsUnder(fs[1..], parent);
    }
  }

  lemma {:induction false} MemberItemsUnder(key: string, value: Json, parent: string)
    requires parent != ""
    ensures AllUnder(MemberItems(key, value, parent), parent + ".")
    decreases Size(value), 0
  {
    var nk := NewKey(parent, key);
    assert nk == parent + "." + key;
    assert parent + "." <= nk;
    var r := MemberItems(key, value, parent);
    match value
    case JObj(sub) =>
      FlattenFieldsUnder(sub, nk);
      forall i | 0 <= i < |r| ensures parent + "." <= r[i].0 {
        PrefixTrans(parent + ".", nk + ".", r[i].0);
      }
    case JArr(a) =>
      if |a| > 0 && a[0].JObj? {
        SizeFirstElem(a);
        FlattenFieldsUnder(a[0].fields, nk + "[]");
        forall i | 0 <= i < |r| ensures parent + "." <= r[i].0 {
          PrefixTrans(parent + ".", nk + "[]" + ".", r[i].0);
        }
      }
    case _ =>
  }

  /** Every path an array of objects contributes sits under `key[].`. */
  lemma ObjectArrayPathsMarked(key: string, a: seq<Json>, parent: string)
    requires |a| > 0 && a[0].JObj?
    ensures AllUnder(MemberItems(key, JArr(a), parent), NewKey(parent, key) + "[].")
  {
    SizeFirstElem(a);
    FlattenFieldsUnder(a[0].fields, NewKey(parent, key) + "[]");
  }

  // ---------------------------------------------------------------------------
  // extract_fields
  // ---------------------------------------------------------------------------

  lemma {:induction false} UniqueKeysDistinct(kv: seq<(string, Json)>)
    requires UniqueKeys(kv)
    ensures Distinct(Keys(kv))
  {
    if kv != [] {
      UniqueKeysDistinct(kv[1..]);
      KeysHasKey(kv[1..], kv[0].0);
      var ks := Keys(kv);
      assert ks == [kv[0].0] + Keys(kv[1..]);
    }
  }

  /** `extract_fields(doc)`: the flattened paths, sorted. They come out in
      strictly increasing order (so without duplicates), and they are exactly
      the paths of the flattened document. */
  function ExtractFields(doc: seq<(string, Json)>): (r: seq<string>)
    ensures StrictlySorted(r)
    ensures |r| == |FlattenJson(doc)|
    ensures forall k :: k in r <==> HasKey(FlattenJson(doc), k)
  {
    var flat := FlattenJson(doc);
    FlattenJsonLeaves(doc);
    UniqueKeysDistinct(flat);
    SortStringsSorted(Keys(flat));
    var r := SortStrings(Keys(flat));
    assert |r| == |multiset(r)| == |multiset(Keys(flat))| == |flat|;
    forall k ensures k in r <==> HasKey(flat, k) {
      KeysHasKey(flat, k);
      assert k in r <==> k in multiset(r);
      assert k in Keys(flat) <==> k in multiset(Keys(flat));
    }
    r
  }
}
