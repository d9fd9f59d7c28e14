/** `transform_data`: rebuild a nested object from the flattened source by
    writing each mapped value at its (dotted) target path. */
module Reshape {
  import opened Wrappers
  import opened JsonModel
  import opened Strings
  import opened Flatten
  import opened Transform

  /** The one way the rebuild can fail: item assignment on (or a key test
      against) a value that is not a dict raises `TypeError`. */
  datatype Error = TypeError

  /** One entry of the `mappings` list; a missing key is `None`. */
  datatype Mapping = Mapping(source: Option<string>, target: Option<string>, transform: Option<string>)

  /** Python truthiness of `mapping.get(key)` for a string-valued key. */
  predicate Present(o: Option<string>) { o.Some? && o.value != "" }

  // ---------------------------------------------------------------------------
  // Paths into nested objects
  // ---------------------------------------------------------------------------

  /** The value reached by following `parts` key by key, if every step
      lands in an object. */
  function GetPath(obj: seq<(string, Json)>, parts: seq<string>): Option<Json>
    requires |parts| >= 1
    decreases |parts|
  {
    match Lookup(obj, parts[0])
    case None => None
    case Some(v) =>
      if |parts| == 1 then Some(v)
      else if v.JObj? then GetPath(v.fields, parts[1..])
      else None
  }

  /** The walk over `parts[:-1]` followed by `current[final_key] = value`:
      missing intermediate keys get a fresh `{}`, existing objects are
      reused, and anything else in the way is a `TypeError`. */
  function SetPath(obj: seq<(string, Json)>, parts: seq<string>, value: Json): Result<seq<(string, Json)>, Error>
    requires |parts| >= 1
    decreases |parts|
  {
    if |parts| == 1 then Ok(Put(obj, parts[0], value))
    else
      match Lookup(obj, parts[0])
      case None =>
        (match SetPath([], parts[1..], value)
         case Ok(child) => Ok(Put(obj, parts[0], JObj(child)))
         case Err(e) => Err(e))
      case Some(v) =>
        if v.JObj? then
          match SetPath(v.fields, parts[1..], value)
          case Ok(child) => Ok(Put(obj, parts[0], JObj(child)))
          case Err(e) => Err(e)
        else Err(TypeError)
  }

  /** A value that stops a walk: present, and not an object. */
  predicate Blocks(o: Option<Json>) { o.Some? && !o.value.JObj? }

  /** Writing below an empty object never fails. */
  lemma {:induction false} SetPathFresh(parts: seq<string>, value: Json)
    requires |parts| >= 1
    ensures SetPath([], parts, value).Ok?
    decreases |parts|
  {
    if |parts| > 1 {
      SetPathFresh(parts[1..], value);
    }
  }

  /** The write fails exactly when a proper prefix of the path already holds
      something that is not an object. */
  lemma {:induction false} SetPathError(obj: seq<(string, Json)>, parts: seq<string>, value: Json)
    requires |parts| >= 1
    ensures SetPath(obj, parts, value).Err? <==> exists i :: 1 <= i < |parts| && Blocks(GetPath(obj, parts[..i]))
    decreases |parts|
  {
    if |parts| > 1 {
      var rest := parts[1..];
      assert parts[..1] == [parts[0]];
      match Lookup(obj, parts[0])
      case None =>
        SetPathFresh(rest, value);
        forall i | 1 <= i < |parts| ensures !Blocks(GetPath(obj, parts[..i])) {
          assert parts[..i][0] == parts[0];
        }
      case Some(v) =>
        if v.JObj? {
          SetPathError(v.fields, rest, value);
          forall i | 2 <= i < |parts| ensures GetPath(obj, parts[..i]) == GetPath(v.fields, rest[..i - 1]) {
            assert parts[..i][0] == parts[0] && parts[..i][1..] == rest[..i - 1];
          }
          if SetPath(obj, parts, value).Err? {
            var j :| 1 <= j < |rest| && Blocks(GetPath(v.fields, rest[..j]));
            assert Blocks(GetPath(obj, parts[..j + 1]));
          }
          if exists i :: 1 <= i < |parts| && Blocks(GetPath(obj, parts[..i])) {
            var i :| 1 <= i < |parts| && Blocks(GetPath(obj, parts[..i]));
            assert i >= 2;
            assert Blocks(GetPath(v.fields, rest[..i - 1]));
          }
        } else {
          assert Blocks(GetPath(obj, parts[..1]));
        }
    }
  }

  /** Read after write: a successful write puts the value at the path. */
  lemma {:induction false} SetPathGet(obj: seq<(string, Json)>, parts: seq<string>, value: Json)
    requires |parts| >= 1
    requires SetPath(obj, parts, value).Ok?
    ensures GetPath(SetPath(obj, parts, value).value, parts) == Some(value)
    decreases |parts|
  {
    if |parts| > 1 {
      match Lookup(obj, parts[0])
      case None =>
        SetPathGet([], parts[1..], value);
      case Some(v) =>
        SetPathGet(v.fields, parts[1..], value);
    }
  }

  /** Two paths that part ways at some segment. */
  predicate Diverge(p: seq<string>, q: seq<string>) {
    exists i :: 0 <= i < |p| && i < |q| && p[i] != q[i]
  }

  /** A successful write changes nothing at any path that parts ways with
      the written one: sibling keys and the other members of reused
      intermediate objects are kept. */
  lemma {:induction false} SetPathFrame(obj: seq<(string, Json)>, parts: seq<string>, value: Json, q: seq<string>)
    requires |parts| >= 1 && |q| >= 1
    requires SetPath(obj, parts, value).Ok?
    requires Diverge(parts, q)
    ensures GetPath(SetPath(obj, parts, value).value, q) == GetPath(obj, q)
    decreases |parts|
  {
    var r := SetPath(obj, parts, value).value;
    if q[0] != parts[0] {
      assert Lookup(r, q[0]) == Lookup(obj, q[0]);
    } else {
      var i :| 0 <= i < |parts| && i < |q| && parts[i] != q[i];
      assert i >= 1 && |parts| > 1 && |q| > 1;
      assert parts[1..][i - 1] != q[1..][i - 1];
      match Lookup(obj, parts[0])
      case None =>
        SetPathFrame([], parts[1..], value, q[1..]);
      case Some(v) =>
        SetPathFrame(v.fields, parts[1..], value, q[1..]);
    }
  }

  // ---------------------------------------------------------------------------
  // One mapping, and the loop over all mappings
  // ---------------------------------------------------------------------------

  /** `part.replace('[]', '')` for every segment. */
  function StripEach(parts: seq<string>): (r: seq<string>)
    ensures |r| == |parts|
    ensures forall i :: 0 <= i < |parts| ==> r[i] == StripBrackets(parts[i])
  {
    if parts == [] then [] else [StripBrackets(parts[0])] + StripEach(parts[1..])
  }

  /** Where a target name is written: a dotted name is split on `.` with
      `[]` dropped from each segment; any other name is one top-level key,
      kept verbatim. */
  function TargetPath(target: string): (p: seq<string>)
    ensures |p| >= 1
  {
    if '.' in target then StripEach(SplitDot(target)) else [target]
  }

  /** The value a mapping carries: the flattened source value (`None` when the
      path is absent), passed through the transform when one is named. */
  function MappedValue(flat: seq<(string, Json)>, m: Mapping): Json
    requires Present(m.source)
  {
    var raw := Lookup(flat, m.source.value).GetOr(JNull);
    if Present(m.transform) then ApplyTransform(raw, m.transform.value) else raw
  }

  /** One pass of the loop over `mappings`. */
  function ApplyMapping(result: seq<(string, Json)>, flat: seq<(string, Json)>, m: Mapping): Result<seq<(string, Json)>, Error> {
    if !Present(m.source) || !Present(m.target) then Ok(result)
    else SetPath(result, TargetPath(m.target.value), MappedValue(flat, m))
  }

  function TransformFrom(result: seq<(string, Json)>, flat: seq<(string, Json)>, mappings: seq<Mapping>): Result<seq<(string, Json)>, Error>
    decreases |mappings|
  {
    if mappings == [] then Ok(result)
    else
      match ApplyMapping(result, flat, mappings[0])
      case Ok(r) => TransformFrom(r, flat, mappings[1..])
      case Err(e) => Err(e)
  }

  /** `transform_data(source_data, mappings)`. */
  function TransformData(source: seq<(string, Json)>, mappings: seq<Mapping>): Result<seq<(string, Json)>, Error> {
    TransformFrom([], FlattenJson(source), mappings)
  }

  // ---------------------------------------------------------------------------
  // Properties
  // ---------------------------------------------------------------------------

  /** No mappings give `{}`. */
  lemma TransformNothing(source: seq<(string, Json)>)
    ensures TransformData(source, []) == Ok([])
  {
  }

  /** The loop runs the entries in order: the result for `ms + [m]` is the
      result for `ms` with `m` applied after. */
  lemma {:induction false} TransformSnoc(result: seq<(string, Json)>, flat: seq<(string, Json)>, ms: seq<Mapping>, m: Mapping)
    ensures TransformFrom(result, flat, ms + [m])
         == (match TransformFrom(result, flat, ms)
             case Ok(r) => ApplyMapping(r, flat, m)
             case Err(e) => Err(e))
    decreases |ms|
  {
    if ms == [] {
      assert ms + [m] == [m];
    } else {
      assert (ms + [m])[1..] == ms[1..] + [m];
      match ApplyMapping(result, flat, ms[0])
      case Ok(r) => TransformSnoc(r, flat, ms[1..], m);
      case Err(e) =>
    }
  }

  /** Running `ms + ms2` is running `ms`, then `ms2` on its result; a
      failure in `ms` ends the run. */
  lemma {:induction false} TransformAppend(result: seq<(string, Json)>, flat: seq<(string, Json)>, ms: seq<Mapping>, ms2: seq<Mapping>)
    ensures TransformFrom(result, flat, ms + ms2)
         == (match TransformFrom(result, flat, ms)
             case Ok(r) => TransformFrom(r, flat, ms2)
             case Err(e) => Err(e))
    decreases |ms|
  {
    if ms == [] {
      assert ms + ms2 == ms2;
    } else {
      assert (ms + ms2)[1..] == ms[1..] + ms2;
      match ApplyMapping(result, flat, ms[0])
      case Ok(r) => TransformAppend(r, flat, ms[1..], ms2);
      case Err(e) =>
    }
  }

  /** An entry without a source or a target is skipped: wherever it sits in
      the list, the run gives what it gives without it. */
  lemma SkipIncomplete(result: seq<(string, Json)>, flat: seq<(string, Json)>, ms: seq<Mapping>, m: Mapping, ms2: seq<Mapping>)
    requires !Present(m.source) || !Present(m.target)
    ensures TransformFrom(result, flat, ms + [m] + ms2) == TransformFrom(result, flat, ms + ms2)
  {
    TransformAppend(result, flat, ms + [m], ms2);
    TransformSnoc(result, flat, ms, m);
    TransformAppend(result, flat, ms, ms2);
  }

  /** Placement: after a successful run, the last entry's value sits at its
      target path — a dotted target at the nested location with `[]`
      stripped, an undotted one at top level under its verbatim name — so a
      later entry overwrites an earlier one with the same target. */
  lemma LastEntryPlaced(source: seq<(string, Json)>, ms: seq<Mapping>, m: Mapping)
    requires Present(m.source) && Present(m.target)
    requires TransformData(source, ms + [m]).Ok?
    ensures GetPath(TransformData(source, ms + [m]).value, TargetPath(m.target.value))
         == Some(MappedValue(FlattenJson(source), m))
    ensures '.' !in m.target.value ==>
              Lookup(TransformData(source, ms + [m]).value, m.target.value) == Some(MappedValue(FlattenJson(source), m))
  {
    var flat := FlattenJson(source);
    TransformSnoc([], flat, ms, m);
    var r := TransformFrom([], flat, ms).value;
    SetPathGet(r, TargetPath(m.target.value), MappedValue(flat, m));
  }

  /** A source path absent from the flattened source reads as `None`, and
      `None` survives every transform. */
  lemma MissingSourceIsNull(flat: seq<(string, Json)>, m: Mapping)
    requires Present(m.source) && !HasKey(flat, m.source.value)
    ensures MappedValue(flat, m) == JNull
  {
  }

  /** Whether the run fails: the first entry whose target walk meets a
      non-object fails it, and nothing after it runs. */
  lemma TransformErrorAt(result: seq<(string, Json)>, flat: seq<(string, Json)>, m: Mapping, ms: seq<Mapping>)
    requires Present(m.source) && Present(m.target)
    ensures var p := TargetPath(m.target.value);
      (exists i :: 1 <= i < |p| && Blocks(GetPath(result, p[..i])))
        <==> TransformFrom(result, flat, [m] + ms).Err? && ApplyMapping(result, flat, m).Err?
  {
    SetPathError(result, TargetPath(m.target.value), MappedValue(flat, m));
    assert ([m] + ms)[1..] == ms;
  }
}
