/** JSON values as the engine sees them, and Python `dict` semantics on an
    ordered list of (key, value) pairs. */
module JsonModel {
  import opened Wrappers

  /** A JSON value. Objects keep their members in insertion order, as a Python
      `dict` does. Floating-point numbers are not part of this model. */
  datatype Json =
    | JNull
    | JBool(b: bool)
    | JInt(i: int)
    | JStr(s: string)
    | JArr(elems: seq<Json>)
    | JObj(fields: seq<(string, Json)>)

  /** True for values `isinstance(v, dict)` accepts. */
  predicate IsObject(j: Json) { j.JObj? }

  // ---------------------------------------------------------------------------
  // Structural size, used as the termination measure of every recursion that
  // descends through object members.
  // ---------------------------------------------------------------------------

  function Size(j: Json): nat
    decreases j, 1
  {
    match j
    case JArr(a) => 1 + SizeElems(a)
    case JObj(fs) => 1 + SizeFrom(fs, 0)
    case _ => 1
  }

  function SizeElems(a: seq<Json>): nat
    decreases a
  {
    if a == [] then 0 else Size(a[0]) + SizeElems(a[1..])
  }

  function SizeFrom(fs: seq<(string, Json)>, i: nat): nat
    requires i <= |fs|
    decreases JObj(fs), 0, |fs| - i
  {
    if i == |fs| then 0 else 1 + Size(fs[i].1) + SizeFrom(fs, i + 1)
  }

  function SizeFields(fs: seq<(string, Json)>): nat {
    SizeFrom(fs, 0)
  }

  lemma {:induction false} SizeFromShift(fs: seq<(string, Json)>, i: nat)
    requires 1 <= i <= |fs|
    ensures SizeFrom(fs, i) == SizeFrom(fs[1..], i - 1)
    decreases |fs| - i
  {
    if i < |fs| {
      SizeFromShift(fs, i + 1);
    }
  }

  /** Peeling the first member off an object strictly shrinks it. */
  lemma SizeFieldsCons(fs: seq<(string, Json)>)
    requires |fs| > 0
    ensures SizeFields(fs) == 1 + Size(fs[0].1) + SizeFields(fs[1..])
    ensures Size(fs[0].1) < SizeFields(fs)
    ensures SizeFields(fs[1..]) < SizeFields(fs)
  {
    SizeFromShift(fs, 1);
  }

  /** The first element of an array is smaller than the array. */
  lemma SizeFirstElem(a: seq<Json>)
    requires |a| > 0
    ensures Size(a[0]) < Size(JArr(a))
  {
  }

  // ---------------------------------------------------------------------------
  // Ordered association lists with Python `dict` behaviour.
  // ---------------------------------------------------------------------------

  /** `k in d`. */
  predicate HasKey<V>(kv: seq<(string, V)>, k: string) {
    kv != [] && (kv[0].0 == k || HasKey(kv[1..], k))
  }

  /** Every key occurs at most once: the invariant of a Python `dict`. */
  predicate UniqueKeys<V>(kv: seq<(string, V)>) {
    kv == [] || (!HasKey(kv[1..], kv[0].0) && UniqueKeys(kv[1..]))
  }

  /** `d.keys()`, in order. */
  function Keys<V>(kv: seq<(string, V)>): (ks: seq<string>)
    ensures |ks| == |kv|
  {
    if kv == [] then [] else [kv[0].0] + Keys(kv[1..])
  }

  lemma {:induction false} KeysHasKey<V>(kv: seq<(string, V)>, k: string)
    ensures k in Keys(kv) <==> HasKey(kv, k)
  {
    if kv != [] {
      KeysHasKey(kv[1..], k);
    }
  }

  lemma {:induction false} HasKeyConcat<V>(a: seq<(string, V)>, b: seq<(string, V)>, k: string)
    ensures HasKey(a + b, k) <==> HasKey(a, k) || HasKey(b, k)
  {
    if a != [] {
      assert (a + b)[1..] == a[1..] + b;
      HasKeyConcat(a[1..], b, k);
    } else {
      assert a + b == b;
    }
  }

  /** `d.get(k)` on a dict: the value of the first pair with key `k`. */
  function Lookup<V>(kv: seq<(string, V)>, k: string): (r: Option<V>)
    ensures r.None? <==> !HasKey(kv, k)
  {
    if kv == [] then None
    else if kv[0].0 == k then Some(kv[0].1)
    else Lookup(kv[1..], k)
  }

  /** The value `dict(items)` keeps for `k`: the one given by the last pair
      with that key. */
  function LastValue<V>(items: seq<(string, V)>, k: string): Option<V> {
    if items == [] then None
    else
      match LastValue(items[1..], k)
      case Some(v) => Some(v)
      case None => if items[0].0 == k then Some(items[0].1) else None
  }

  /** `d[k] = v`: replaces the value of an existing key in place, or appends a
      new key at the end. */
  function Put<V>(kv: seq<(string, V)>, k: string, v: V): (r: seq<(string, V)>)
    ensures Lookup(r, k) == Some(v)
    ensures forall k' :: k' != k ==> Lookup(r, k') == Lookup(kv, k')
  {
    if kv == [] then [(k, v)]
    else if kv[0].0 == k then [(k, v)] + kv[1..]
    else [kv[0]] + Put(kv[1..], k, v)
  }

  /** A three-member object literal with distinct keys. */
  lemma LookupTriple(k1: string, v1: Json, k2: string, v2: Json, k3: string, v3: Json)
    requires k1 != k2 && k1 != k3 && k2 != k3
    ensures var kv := [(k1, v1), (k2, v2), (k3, v3)];
      && Keys(kv) == [k1, k2, k3]
      && Lookup(kv, k1) == Some(v1) && Lookup(kv, k2) == Some(v2) && Lookup(kv, k3) == Some(v3)
  {
    var kv := [(k1, v1), (k2, v2), (k3, v3)];
    assert kv[1..] == [(k2, v2), (k3, v3)];
    assert kv[1..][1..] == [(k3, v3)];
    assert kv[1..][1..][1..] == [];
    assert Keys(kv[1..][1..]) == [k3] && Lookup(kv[1..][1..], k3) == Some(v3);
    assert Keys(kv[1..]) == [k2, k3];
  }

  /** Assigning to a fresh key appends it. */
  lemma {:induction false} PutAbsent<V>(kv: seq<(string, V)>, k: string, v: V)
    requires !HasKey(kv, k)
    ensures Put(kv, k, v) == kv + [(k, v)]
  {
    if kv != [] {
      PutAbsent(kv[1..], k, v);
    }
  }

  /** Assigning to a key keeps the dict invariant. */
  lemma {:induction false} PutUnique<V>(kv: seq<(string, V)>, k: string, v: V)
    requires UniqueKeys(kv)
    ensures UniqueKeys(Put(kv, k, v))
  {
    if kv != [] && kv[0].0 != k {
      PutUnique(kv[1..], k, v);
      assert Lookup(Put(kv[1..], k, v), kv[0].0) == Lookup(kv[1..], kv[0].0);
    }
  }

  function DictFrom<V>(acc: seq<(string, V)>, items: seq<(string, V)>): seq<(string, V)>
    decreases items
  {
    if items == [] then acc else DictFrom(Put(acc, items[0].0, items[0].1), items[1..])
  }

  /** `dict(items)`: keys in order of first occurrence, each with the value of
      its last occurrence. */
  function Dict<V>(items: seq<(string, V)>): seq<(string, V)> {
    DictFrom([], items)
  }

  lemma {:induction false} DictFromSpec<V>(acc: seq<(string, V)>, items: seq<(string, V)>, k: string)
    ensures Lookup(DictFrom(acc, items), k)
         == (if LastValue(items, k).Some? then LastValue(items, k) else Lookup(acc, k))
    ensures UniqueKeys(acc) ==> UniqueKeys(DictFrom(acc, items))
    decreases items
  {
    if items != [] {
      var acc' := Put(acc, items[0].0, items[0].1);
      DictFromSpec(acc', items[1..], k);
      if UniqueKeys(acc) {
        PutUnique(acc, items[0].0, items[0].1);
      }
    }
  }

  /** `dict(items)` has distinct keys, and looking a key up in it gives the
      last value `items` holds for that key. */
  lemma DictSpec<V>(items: seq<(string, V)>, k: string)
    ensures UniqueKeys(Dict(items))
    ensures Lookup(Dict(items), k) == LastValue(items, k)
    ensures HasKey(Dict(items), k) <==> HasKey(items, k)
  {
    DictFromSpec([], items, k);
    LastValueHasKey(items, k);
  }

  lemma {:induction false} LastValueHasKey<V>(items: seq<(string, V)>, k: string)
    ensures LastValue(items, k).Some? <==> HasKey(items, k)
  {
    if items != [] {
      LastValueHasKey(items[1..], k);
    }
  }

  lemma {:induction false} DictFromUnique<V>(acc: seq<(string, V)>, items: seq<(string, V)>)
    requires UniqueKeys(items)
    requires forall k :: HasKey(items, k) ==> !HasKey(acc, k)
    ensures DictFrom(acc, items) == acc + items
    decreases items
  {
    if items != [] {
      PutAbsent(acc, items[0].0, items[0].1);
      var acc' := acc + [items[0]];
      forall k | HasKey(items[1..], k) ensures !HasKey(acc', k) {
        HasKeyConcat(acc, [items[0]], k);
      }
      DictFromUnique(acc', items[1..]);
      assert acc' + items[1..] == acc + items;
    }
  }

  /** Building a dict from pairs whose keys are already distinct changes nothing. */
  lemma DictOfUnique<V>(items: seq<(string, V)>)
    requires UniqueKeys(items)
    ensures Dict(items) == items
  {
    DictFromUnique([], items);
  }

  /** Python's truthiness of a JSON value (`if not x`). */
  predicate Falsy(j: Json) {
    match j
    case JNull => true
    case JBool(b) => !b
    case JInt(i) => i == 0
    case JStr(s) => s == ""
    case JArr(a) => a == []
    case JObj(fs) => fs == []
  }
}
