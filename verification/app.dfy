/** The web layer's use of the engine: the analyze and preview routes'
    composition of engine calls, and the export route's filtering and
    shaping of a mapping configuration. */
module App {
  import opened Wrappers
  import opened JsonModel
  import opened Flatten
  import opened Similarity
  import opened Suggest
  import opened Reshape

  /** How a route answers when it does not succeed: a 400 with a message, a
      400 for text that is not JSON, or a 500 for an exception raised inside
      the engine. */
  datatype Failure = BadRequest(message: string) | InvalidJson | InternalError

  /** `json.loads`, taken as given: the parsed value, or `None` for text that
      is not JSON. */
  type Parser = string -> Option<Json>

  /** Python truthiness of `data.get(key)`; a missing key reads as `None`. */
  predicate Truthy(o: Option<Json>) { o.Some? && !Falsy(o.value) }

  /** A value sent as a string is JSON text and is parsed first. */
  function Decode(parse: Parser, j: Json): (r: Result<Json, Failure>)
    ensures !j.JStr? ==> r == Ok(j)
  {
    if j.JStr? then
      match parse(j.s)
      case Some(v) => Ok(v)
      case None => Err(InvalidJson)
    else Ok(j)
  }

  // ---------------------------------------------------------------------------
  // /api/analyze
  // ---------------------------------------------------------------------------

  datatype Analysis = Analysis(sourceFields: seq<string>, targetFields: seq<string>, mappings: seq<Suggestion>)

  /** Both documents are required; each is parsed if sent as text, its leaf
      paths are extracted (a document that is not an object makes the
      engine raise), and mappings are suggested at the default threshold. */
  function Analyze(ratio: RatioFn, parse: Parser, sourceJson: Option<Json>, targetJson: Option<Json>): (r: Result<Analysis, Failure>)
    ensures !Truthy(sourceJson) || !Truthy(targetJson) ==>
              r == Err(BadRequest("Both source_json and target_json are required"))
    ensures r.Ok? ==> |r.value.mappings| == |r.value.sourceFields|
  {
    if !Truthy(sourceJson) || !Truthy(targetJson) then
      Err(BadRequest("Both source_json and target_json are required"))
    else
      match Decode(parse, sourceJson.value)
      case Err(e) => Err(e)
      case Ok(s) =>
        match Decode(parse, targetJson.value)
        case Err(e) => Err(e)
        case Ok(t) => AnalyzeDocs(ratio, s, t)
  }

  /** The engine calls on the decoded documents: leaf paths of each (a
      document that is not an object makes the engine raise), then mappings
      at the default threshold. */
  function AnalyzeDocs(ratio: RatioFn, s: Json, t: Json): (r: Result<Analysis, Failure>)
    ensures r.Ok? <==> s.JObj? && t.JObj?
    ensures r.Err? ==> r.error == InternalError
    ensures r.Ok? ==> |r.value.mappings| == |r.value.sourceFields|
  {
    if !s.JObj? || !t.JObj? then Err(InternalError)
    else
      var sourceFields := ExtractFields(s.fields);
      var targetFields := ExtractFields(t.fields);
      Ok(Analysis(sourceFields, targetFields, SuggestMappings(ratio, sourceFields, targetFields, DefaultThreshold)))
  }

  /** Two non-empty objects pass the request checks and reach the engine
      unchanged. */
  lemma AnalyzeUnfold(ratio: RatioFn, parse: Parser, src: seq<(string, Json)>, tgt: seq<(string, Json)>)
    requires src != [] && tgt != []
    ensures Analyze(ratio, parse, Some(JObj(src)), Some(JObj(tgt))) == AnalyzeDocs(ratio, JObj(src), JObj(tgt))
  {
    assert Truthy(Some(JObj(src))) && Truthy(Some(JObj(tgt)));
    assert Decode(parse, JObj(src)) == Ok(JObj(src));
    assert Decode(parse, JObj(tgt)) == Ok(JObj(tgt));
  }

  /** A successful analysis pairs leaf paths of the source document with leaf
      paths of the target document, one entry per source path, each target
      path at most once, at or above 0.3 when matched, best first. */
  lemma AnalyzeSpec(ratio: RatioFn, src: seq<(string, Json)>, tgt: seq<(string, Json)>)
    ensures var r := AnalyzeDocs(ratio, JObj(src), JObj(tgt));
      && r.Ok?
      && r.value.sourceFields == ExtractFields(src)
      && r.value.targetFields == ExtractFields(tgt)
      && |r.value.mappings| == |FlattenJson(src)|
      && OneToOne(r.value.mappings)
      && NonIncreasing(r.value.mappings)
      && (forall j :: 0 <= j < |r.value.mappings| ==>
            && HasKey(FlattenJson(src), r.value.mappings[j].source)
            && (r.value.mappings[j].target == "" <==> r.value.mappings[j].confidence == 0)
            && (r.value.mappings[j].target != "" ==>
                  && HasKey(FlattenJson(tgt), r.value.mappings[j].target)
                  && r.value.mappings[j].confidence >= DefaultThreshold))
  {
    var sf := ExtractFields(src);
    var tf := ExtractFields(tgt);
    var ms := SuggestMappings(ratio, sf, tf, DefaultThreshold);
    SuggestMappingsOrdered(ratio, sf, tf, DefaultThreshold);
    SuggestMappingsEntries(ratio, sf, tf, DefaultThreshold);
    forall j | 0 <= j < |ms|
      ensures HasKey(FlattenJson(src), ms[j].source)
      ensures ms[j].target != "" ==> HasKey(FlattenJson(tgt), ms[j].target) && ms[j].confidence >= DefaultThreshold
      ensures ms[j].target == "" <==> ms[j].confidence == 0
    {
      assert WellScored(ratio, tf, DefaultThreshold, ms[j]);
      assert ms[j].source in sf;
    }
  }

  // ---------------------------------------------------------------------------
  // /api/preview
  // ---------------------------------------------------------------------------

  /** The source document is required and parsed if sent as text; the
      mappings default to `[]`; the rebuild's `TypeError` becomes a 500. */
  function Preview(parse: Parser, sourceJson: Option<Json>, mappings: Option<seq<Mapping>>): (r: Result<seq<(string, Json)>, Failure>)
    ensures !Truthy(sourceJson) ==> r == Err(BadRequest("source_json is required"))
  {
    var ms := mappings.GetOr([]);
    if !Truthy(sourceJson) then Err(BadRequest("source_json is required"))
    else
      match Decode(parse, sourceJson.value)
      case Err(e) => Err(e)
      case Ok(s) =>
        if !s.JObj? then Err(InternalError)
        else
          match TransformData(s.fields, ms)
          case Ok(t) => Ok(t)
          case Err(_) => Err(InternalError)
  }

  /** Preview needs a source document; preview of an object is the rebuild
      of that object, and with no mappings given it is `{}`. */
  lemma PreviewSpec(parse: Parser, src: seq<(string, Json)>, ms: seq<Mapping>)
    requires src != []
    ensures Preview(parse, None, Some(ms)) == Err(BadRequest("source_json is required"))
    ensures Preview(parse, Some(JObj([])), Some(ms)) == Err(BadRequest("source_json is required"))
    ensures Preview(parse, Some(JObj(src)), Some(ms)).Ok? <==> TransformData(src, ms).Ok?
    ensures TransformData(src, ms).Ok? ==> Preview(parse, Some(JObj(src)), Some(ms)).value == TransformData(src, ms).value
    ensures Preview(parse, Some(JObj(src)), None) == Ok([])
  {
    assert Truthy(Some(JObj(src)));
    assert Decode(parse, JObj(src)) == Ok(JObj(src));
    TransformNothing(src);
  }

  // ---------------------------------------------------------------------------
  // /api/export
  // ---------------------------------------------------------------------------

  /** One entry of the request's `mappings` list, a JSON object. */
  type RawMapping = seq<(string, Json)>

  /** `m.get("source") and m.get("target")`. */
  predicate Keep(m: RawMapping) {
    Truthy(Lookup(m, "source")) && Truthy(Lookup(m, "target"))
  }

  /** The exported form of an entry: exactly `source`, `target` and
      `transform`, the last copied or `null` when absent. It is only
      applied to kept entries, whose source and target are present. */
  function Shape(m: RawMapping): (e: RawMapping)
    ensures Keys(e) == ["source", "target", "transform"]
    ensures Keep(m) ==> Lookup(e, "source") == Lookup(m, "source") && Lookup(e, "target") == Lookup(m, "target")
    ensures Lookup(m, "transform").Some? ==> Lookup(e, "transform") == Lookup(m, "transform")
    ensures Lookup(m, "transform").None? ==> Lookup(e, "transform") == Some(JNull)
  {
    assert "source"[0] != "target"[0] && "source"[0] != "transform"[0] && "target"[2] != "transform"[2];
    LookupTriple("source", Lookup(m, "source").GetOr(JNull), "target", Lookup(m, "target").GetOr(JNull),
                 "transform", Lookup(m, "transform").GetOr(JNull));
    [("source", Lookup(m, "source").GetOr(JNull)),
     ("target", Lookup(m, "target").GetOr(JNull)),
     ("transform", Lookup(m, "transform").GetOr(JNull))]
  }

  /** The list comprehension `[f(m) for m in ms if keep(m)]`. */
  function FilterMap<T>(keep: T -> bool, f: T -> T, ms: seq<T>): (r: seq<T>)
    ensures |r| <= |ms|
  {
    if ms == [] then []
    else (if keep(ms[0]) then [f(ms[0])] else []) + FilterMap(keep, f, ms[1..])
  }

  /** The `valid_mappings` comprehension. */
  function ValidMappings(ms: seq<RawMapping>): seq<RawMapping> {
    FilterMap(Keep, Shape, ms)
  }

  /** `idx` lists, in increasing order, the positions of `ms` that `keep`
      accepts, and `r` holds their images under `f` in that order. */
  ghost predicate FilterWitness<T>(keep: T -> bool, f: T -> T, ms: seq<T>, r: seq<T>, idx: seq<nat>) {
    && |idx| == |r|
    && (forall k :: 0 <= k < |idx| ==> idx[k] < |ms| && keep(ms[idx[k]]) && r[k] == f(ms[idx[k]]))
    && (forall k, l :: 0 <= k < l < |idx| ==> idx[k] < idx[l])
    && (forall j :: 0 <= j < |ms| && keep(ms[j]) ==> j in idx)
  }

  function Shift(idx: seq<nat>): (r: seq<nat>)
    ensures |r| == |idx|
    ensures forall k :: 0 <= k < |idx| ==> r[k] == idx[k] + 1
  {
    if idx == [] then [] else [idx[0] + 1] + Shift(idx[1..])
  }

  /** Filtering one more entry in front extends the witness: a dropped entry
      shifts every position by one. */
  lemma FilterDrop<T>(keep: T -> bool, f: T -> T, m: T, ms: seq<T>, rest: seq<T>, idx: seq<nat>)
    requires !keep(m)
    requires FilterWitness(keep, f, ms, rest, idx)
    ensures FilterWitness(keep, f, [m] + ms, rest, Shift(idx))
  {
    var all := [m] + ms;
    var sh := Shift(idx);
    forall k | 0 <= k < |sh| ensures sh[k] < |all| && keep(all[sh[k]]) && rest[k] == f(all[sh[k]]) {
      assert all[sh[k]] == ms[idx[k]];
    }
    forall j | 0 <= j < |all| && keep(all[j]) ensures j in sh {
      assert j > 0 && all[j] == ms[j - 1];
      var k :| 0 <= k < |idx| && idx[k] == j - 1;
      assert sh[k] == j;
    }
  }

  /** A kept entry takes position 0 in front of the shifted positions. */
  lemma FilterKeep<T>(keep: T -> bool, f: T -> T, m: T, ms: seq<T>, rest: seq<T>, idx: seq<nat>)
    requires keep(m)
    requires FilterWitness(keep, f, ms, rest, idx)
    ensures FilterWitness(keep, f, [m] + ms, [f(m)] + rest, [0] + Shift(idx))
  {
    KeepImages(keep, f, m, ms, rest, idx);
    KeepOrder(idx);
    KeepCovers(keep, m, ms, idx);
  }

  lemma KeepImages<T>(keep: T -> bool, f: T -> T, m: T, ms: seq<T>, rest: seq<T>, idx: seq<nat>)
    requires keep(m) && |idx| == |rest|
    requires forall k :: 0 <= k < |idx| ==> idx[k] < |ms| && keep(ms[idx[k]]) && rest[k] == f(ms[idx[k]])
    ensures var all, r, idx' := [m] + ms, [f(m)] + rest, [0] + Shift(idx);
      forall k :: 0 <= k < |idx'| ==> idx'[k] < |all| && keep(all[idx'[k]]) && r[k] == f(all[idx'[k]])
  {
    var all := [m] + ms;
    var r := [f(m)] + rest;
    var idx' := [0] + Shift(idx);
    forall k | 0 <= k < |idx'| ensures idx'[k] < |all| && keep(all[idx'[k]]) && r[k] == f(all[idx'[k]]) {
      if k > 0 {
        assert idx'[k] == idx[k - 1] + 1 && r[k] == rest[k - 1];
        assert all[idx'[k]] == ms[idx[k - 1]];
      }
    }
  }

  lemma KeepOrder(idx: seq<nat>)
    requires forall k, l :: 0 <= k < l < |idx| ==> idx[k] < idx[l]
    ensures var idx' := [0] + Shift(idx);
      forall k, l :: 0 <= k < l < |idx'| ==> idx'[k] < idx'[l]
  {
    var idx' := [0] + Shift(idx);
    forall k, l | 0 <= k < l < |idx'| ensures idx'[k] < idx'[l] {
      assert idx'[l] == idx[l - 1] + 1;
      if k > 0 {
        assert idx'[k] == idx[k - 1] + 1;
      }
    }
  }

  lemma KeepCovers<T>(keep: T -> bool, m: T, ms: seq<T>, idx: seq<nat>)
    requires forall j :: 0 <= j < |ms| && keep(ms[j]) ==> j in idx
    ensures var all, idx' := [m] + ms, [0] + Shift(idx);
      forall j :: 0 <= j < |all| && keep(all[j]) ==> j in idx'
  {
    var all := [m] + ms;
    var idx' := [0] + Shift(idx);
    forall j | 0 <= j < |all| && keep(all[j]) ensures j in idx' {
      if j > 0 {
        assert all[j] == ms[j - 1];
        var k :| 0 <= k < |idx| && idx[k] == j - 1;
        assert idx'[k + 1] == j;
      }
    }
  }

  /** The comprehension keeps exactly the accepted entries, in order. */
  lemma {:induction false} FilterMapWitness<T>(keep: T -> bool, f: T -> T, ms: seq<T>)
    ensures exists idx :: FilterWitness(keep, f, ms, FilterMap(keep, f, ms), idx)
  {
    if ms == [] {
      assert FilterMap(keep, f, ms) == [];
      assert FilterWitness(keep, f, ms, [], []);
    } else {
      FilterMapWitness(keep, f, ms[1..]);
      var rest := FilterMap(keep, f, ms[1..]);
      var idx :| FilterWitness(keep, f, ms[1..], rest, idx);
      assert [ms[0]] + ms[1..] == ms;
      if keep(ms[0]) {
        assert FilterMap(keep, f, ms) == [f(ms[0])] + rest;
        FilterKeep(keep, f, ms[0], ms[1..], rest, idx);
      } else {
        assert FilterMap(keep, f, ms) == rest;
        FilterDrop(keep, f, ms[0], ms[1..], rest, idx);
      }
    }
  }

  /** Running the comprehension on its own output changes nothing when `f`
      yields accepted entries that `f` fixes. */
  lemma {:induction false} FilterMapIdempotent<T>(keep: T -> bool, f: T -> T, ms: seq<T>)
    requires forall m :: keep(m) ==> keep(f(m)) && f(f(m)) == f(m)
    ensures FilterMap(keep, f, FilterMap(keep, f, ms)) == FilterMap(keep, f, ms)
  {
    if ms != [] {
      FilterMapIdempotent(keep, f, ms[1..]);
      var rest := FilterMap(keep, f, ms[1..]);
      if keep(ms[0]) {
        var e := f(ms[0]);
        assert FilterMap(keep, f, ms) == [e] + rest;
        assert keep(e) && f(e) == e;
        assert ([e] + rest)[1..] == rest;
        assert FilterMap(keep, f, [e] + rest) == [e] + FilterMap(keep, f, rest);
      } else {
        assert FilterMap(keep, f, ms) == rest;
      }
    }
  }

  /** The exported list is exactly the entries with a source and a target,
      in their original order. */
  lemma ValidMappingsFilter(ms: seq<RawMapping>)
    ensures exists idx :: FilterWitness(Keep, Shape, ms, ValidMappings(ms), idx)
  {
    FilterMapWitness(Keep, Shape, ms);
    assert ValidMappings(ms) == FilterMap(Keep, Shape, ms);
  }

  /** An exported entry is kept again and exports as itself. */
  lemma ShapeStable(m: RawMapping)
    requires Keep(m)
    ensures Keep(Shape(m)) && Shape(Shape(m)) == Shape(m)
  {
  }

  /** Exporting an exported list returns it unchanged. */
  lemma ValidMappingsIdempotent(ms: seq<RawMapping>)
    ensures ValidMappings(ValidMappings(ms)) == ValidMappings(ms)
  {
    forall m | Keep(m) ensures Keep(Shape(m)) && Shape(Shape(m)) == Shape(m) {
      ShapeStable(m);
    }
    FilterMapIdempotent(Keep, Shape, ms);
  }

  const Version: string := "1.0"
  const Description: string := "Data Whisperer mapping configuration"

  function AsObjects(ds: seq<RawMapping>): (r: seq<Json>)
    ensures |r| == |ds|
    ensures forall k :: 0 <= k < |ds| ==> r[k] == JObj(ds[k])
  {
    if ds == [] then [] else [JObj(ds[0])] + AsObjects(ds[1..])
  }

  /** The exported configuration for the request's `mappings` (default `[]`). */
  function ExportConfig(mappings: Option<seq<RawMapping>>): (config: seq<(string, Json)>)
    ensures Keys(config) == ["version", "description", "mappings"]
    ensures Lookup(config, "version") == Some(JStr(Version))
    ensures Lookup(config, "description") == Some(JStr(Description))
    ensures var m := Lookup(config, "mappings");
      m.Some? && m.value.JArr? && FieldsOf(m.value.elems) == ValidMappings(mappings.GetOr([]))
  {
    FieldsOfAsObjects(ValidMappings(mappings.GetOr([])));
    assert "version"[0] != "description"[0] && "version"[0] != "mappings"[0] && "description"[0] != "mappings"[0];
    LookupTriple("version", JStr(Version), "description", JStr(Description),
                 "mappings", JArr(AsObjects(ValidMappings(mappings.GetOr([])))));
    [("version", JStr(Version)),
     ("description", JStr(Description)),
     ("mappings", JArr(AsObjects(ValidMappings(mappings.GetOr([])))))]
  }

  /** The mapping entries of an exported configuration, read back as the
      objects they are. */
  function ConfigEntries(config: seq<(string, Json)>): seq<RawMapping> {
    var v := Lookup(config, "mappings");
    if v.Some? && v.value.JArr? then FieldsOf(v.value.elems) else []
  }

  function FieldsOf(a: seq<Json>): (r: seq<RawMapping>)
    ensures |r| == |a|
  {
    if a == [] then [] else [if a[0].JObj? then a[0].fields else []] + FieldsOf(a[1..])
  }

  lemma {:induction false} FieldsOfAsObjects(ds: seq<RawMapping>)
    ensures FieldsOf(AsObjects(ds)) == ds
  {
    if ds != [] {
      FieldsOfAsObjects(ds[1..]);
      assert AsObjects(ds)[1..] == AsObjects(ds[1..]);
    }
  }

  /** Re-exporting an exported configuration's mappings gives the same
      configuration. */
  lemma ExportRoundTrip(mappings: Option<seq<RawMapping>>)
    ensures ExportConfig(Some(ConfigEntries(ExportConfig(mappings)))) == ExportConfig(mappings)
  {
    ValidMappingsIdempotent(mappings.GetOr([]));
  }
}
