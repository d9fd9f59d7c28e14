# Data Whisperer field-mapping engine in Dafny

Data Whisperer suggests how the fields of one JSON document map onto the fields
of another, then reshapes data according to the chosen mappings. This project
models the engine of `mapper.py` and the parts of `app.py` that compose engine
calls. Every operation is a pure function over an immutable JSON datatype, and
the properties the code and its tests promise are proved about it.

- `wrappers.dfy` holds `Option` and `Result`.
- `json.dfy` (module `JsonModel`) holds the JSON datatype, Python truthiness and
  Python `dict` semantics. A dict is an ordered list of pairs: `d[k] = v`
  replaces in place or appends, and `dict(items)` keeps first-occurrence order
  with last-value-wins.
- `strings.dfy` (module `Strings`) holds the `str` operations the engine uses:
  `lower`/`upper` on ASCII, `isspace`, `strip`, `in`, `split('.')`,
  `replace('[]', '')`, and `str(int)`/`int(str)`.
- `normalize.dfy` holds `normalize_field_name`. Its four regex substitutions
  are explicit left-to-right, non-overlapping scanners.
- `similarity.dfy` holds `calculate_similarity` and its synonym table.
- `ordering.dfy` holds Python's string order and `sorted` for `extract_fields`.
- `flatten.dfy` holds `flatten_json` and `extract_fields`.
- `suggest.dfy` holds `suggest_mappings`. That is the greedy inner and outer
  loops, a reference statement of the greedy policy, and the stable sort by
  confidence.
- `repr.dfy` (module `PyRepr`) holds `str()` of a JSON value: Python's `repr`
  for non-strings, with string quoting and escapes.
- `transform.dfy` holds `apply_transform` and the `-?\d+` scan of `to_int`.
- `reshape.dfy` holds `transform_data`, as path reads and writes on nested
  objects.
- `roundtrip.dfy` (module `RoundTrip`) proves that rebuilding a flattened
  document with the identity mapping for each path gives it back. A
  document there is read as its list of leaves, each a path of keys with a
  value.
- `app.dfy` holds the analyze, preview and export routes' use of the engine.

Scores are integer hundredths, so 0.85 is 85 and the default threshold 0.3
is 30. The base similarity from `difflib.SequenceMatcher(...).ratio()`,
rounded to two places, is a parameter `ratio` with values in [0, 100].
Rounding to two places commutes with taking the maximum against 0.85 and 0.80,
so applying the floors to the rounded ratio is the same as rounding last.
`json.loads` is likewise a parameter of the routes.

## Model

| member | source | states |
|---|---|---|
| Normalize.NormalizeFieldName | mapper.py:10-28 | the normal form holds only `a`-`z`, `0`-`9` and `_` |
| Normalize.NormalizeFixesCanonical | mapper.py:17-28 | a name made only of `[a-z0-9_]` is its own normal form |
| Normalize.NormalizeIdempotent | mapper.py:17-28 | normalising a normalised name changes nothing |
| Normalize.SplitWordsInsertsUnderscores | mapper.py:18 | the first camel-case rewrite only inserts underscores: its input is its output with some underscores taken out, so nothing is deleted or moved; deleting every underscore from both gives the same string |
| Normalize.SplitHumpsInsertsUnderscores | mapper.py:19 | the second camel-case rewrite only inserts underscores, in the same sense |
| Normalize.SplitWordsExample | mapper.py:18 | matches do not overlap: `aBcDe` becomes `a_BcDe` after the first rewrite |
| Normalize.NormalizeCustomerID | mapper.py:17-28 | `customerID` normalises to `customer_id` |
| Normalize.NormalizeCustomerId | mapper.py:17-28 | `customerId` normalises to `customer_id` |
| Normalize.NormalizeFullName | mapper.py:21-23 | `full-name` normalises to `full_name` |
| Normalize.NormalizeTrailingID | mapper.py:17-28 | a lower-case word followed by `ID` normalises to the word followed by `_id` |
| Normalize.NormalizeTrailingId | mapper.py:17-28 | a lower-case word followed by `Id` normalises to the word followed by `_id` |
| Normalize.NormalizeHyphen | mapper.py:17-28 | two lower-case words joined by `-` normalise to the words joined by `_` |
| Similarity.CalculateSimilarity | mapper.py:31-70 | the score is in [0, 100]; it is 100 when the normal forms agree, at least 85 when one contains the other, and at least 80 when a synonym row fires |
| Similarity.SimilarityIsLeastBoost | mapper.py:44-70 | with different normal forms the score is the ratio or a floor whose condition holds, and never below the ratio |
| Similarity.SimilarityPlainRatio | mapper.py:45-70 | without containment or synonym the score is exactly the ratio |
| Similarity.EmptyNameScoresHigh | mapper.py:47-49 | a name that normalises to nothing scores at least 85 against any name |
| Similarity.SynonymInSymmetric | mapper.py:64-68 | the synonym rule fires for a pair exactly when it fires for the swapped pair |
| Similarity.SimilaritySymmetric | mapper.py:36-70 | the synonym and substring floors do not depend on argument order, so the score is symmetric whenever the ratio is (difflib's ratio itself is not always symmetric) |
| Similarity.SimilarityCamelSnake | mapper.py:36-42 | `customer_id` against `customerId`, and `customerID` against `customer_id`, score 100 |
| JsonModel.Put | mapper.py:229-231 | after `d[k] = v`, `d.get(k)` is `v` and every other key reads as before |
| JsonModel.PutAbsent | mapper.py:224 | assigning a fresh key appends it at the end |
| JsonModel.DictSpec | mapper.py:91 | `dict(items)` has distinct keys, the same key set as `items`, and for each key the value of its last pair |
| JsonModel.DictOfUnique | mapper.py:91 | `dict(items)` of pairs with distinct keys is the same list |
| Flatten.FlattenJsonLeaves | mapper.py:80-91 | no flattened value is an object or a non-empty array starting with an object, and paths are distinct |
| Flatten.ItemsConcat | mapper.py:80-89 | the pairs for a concatenation of members are the concatenated pairs of each part |
| Flatten.EmptyObjectContributesNothing | mapper.py:83-84 | a member holding `{}` contributes no path |
| Flatten.ObjectArrayUsesFirstOnly | mapper.py:85-87 | an array of objects flattens through element 0 alone |
| Flatten.ObjectArrayPathsMarked | mapper.py:85-87 | every path from an array of objects starts with `key[].` |
| Flatten.LeafKeyPresent | mapper.py:78-91 | every member holding a leaf value appears in the flattened object under its joined path, at the top level under its own key |
| Flatten.FlattenFieldsUnder | mapper.py:81 | every path below a non-empty parent starts with `parent.` |
| Ordering.SortStrings | mapper.py:99 | `sorted` returns a permutation of its input |
| Ordering.SortStringsSorted | mapper.py:99 | `sorted` of distinct strings is strictly ascending |
| Flatten.FlattenUserName | mapper.py:73-77 | the documented example: `{"user": {"name": "John"}}` flattens to `{"user.name": "John"}`, with field list `["user.name"]` |
| Flatten.ExtractFields | mapper.py:94-99 | the field list is strictly ascending and holds exactly the flattened paths, once each |
| Suggest.ScanSpec | mapper.py:126-134 | from any position, the inner loop's best score bounds every eligible target after it and is won by the first such target |
| Suggest.BestMatchSpec | mapper.py:123-134 | the inner loop finds nothing exactly when no unused target reaches the threshold with a positive score; otherwise it returns the first target of highest score |
| Suggest.StepSpec | mapper.py:122-151 | one outer step's entry is a correct greedy choice, and it is the only correct one |
| Suggest.AssignIsGreedy | mapper.py:118-151 | the outer loop follows the greedy policy at every source |
| Suggest.GreedyChoicesUnique | mapper.py:118-151 | the greedy policy admits exactly one result, the outer loop's |
| Suggest.GreedyWellScored | mapper.py:126-151 | entry `i` of a greedy run is for source `i`; an empty target has confidence 0; a matched one is a target field, carries its score, and scores at or above the threshold and above 0 |
| Suggest.GreedyFresh | mapper.py:131-151 | a greedy run never takes a target consumed before it started |
| Suggest.GreedyOneToOne | mapper.py:131-151 | a greedy run uses no target twice |
| Suggest.SortByConfidence | mapper.py:154 | the sort returns a permutation of its input |
| Suggest.SortSpec | mapper.py:154 | the sorted list is non-increasing in confidence and keeps entries of equal confidence in their original order |
| Suggest.SortOneToOne | mapper.py:154 | sorting keeps the targets one-to-one |
| Suggest.SuggestMappings | mapper.py:102-156 | there is one suggestion per source field, and the result holds exactly the entries of the greedy run |
| Suggest.SuggestMappingsStable | mapper.py:118-156 | suggestions of equal confidence keep the source order of the greedy run |
| Suggest.SuggestMappingsOrdered | mapper.py:118-156 | the result is best first and uses no target twice |
| Suggest.SuggestMappingsEntries | mapper.py:118-156 | every suggestion is well scored and belongs to a source field, and every source field has one |
| PyRepr.StrReprRoundTrip | mapper.py:168-174 | the quoted, escaped form `str()` gives of a string inside a container reads back as that string |
| PyRepr.ReprShape | mapper.py:174 | `str()` of a list is bracketed, of a dict braced, and of a string inside a container quoted |
| Transform.FirstNumberNone | mapper.py:181-184 | the `-?\d+` search finds nothing exactly when the text holds no digit |
| Transform.FirstNumberAfterText | mapper.py:181-183 | a number printed after digit-free text (not ending in `-`) and before a non-digit is the number found |
| Transform.FirstNumberOfIntToString | mapper.py:181-183 | the search on `str(n)` yields `n` |
| Transform.FirstNumberFromLeftmost | mapper.py:181-183 | `re.search(r'-?\d+')` yields the number read at the leftmost position where the pattern can start, and only that |
| Transform.ToInt | mapper.py:175-184 | `to_int` keeps integers; on text it yields the first `-?\d+` match (leftmost, by `FirstNumberFromLeftmost`), and 0 when there is none |
| Transform.ApplyTransform | mapper.py:159-189 | `None` stays `None`; `to_int` gives an integer; the other known names give text; an unknown name returns the value unchanged |
| Transform.ApplyIdempotent | mapper.py:166-189 | applying any transform twice is applying it once |
| Transform.CaseTransformsCompose | mapper.py:167-170 | lowercasing before uppercasing changes nothing, and the other way round |
| Transform.ToStringToInt | mapper.py:173-183 | `to_string` then `to_int` returns an integer unchanged |
| Transform.ToIntPrice | mapper.py:180-183 | `to_int` of `$42.50` is 42 |
| Transform.ApplyTextShape | mapper.py:167-174 | lowercasing keeps the length and leaves no upper-case letter; uppercasing likewise; trimming leaves no whitespace at either end |
| Reshape.SetPathFresh | mapper.py:220-229 | writing into a fresh `{}` never fails |
| Reshape.SetPathError | mapper.py:215-229 | a nested write fails exactly when a proper prefix of the path already holds a non-object |
| Reshape.SetPathGet | mapper.py:215-229 | after a successful write the value sits at the path |
| Reshape.SetPathFrame | mapper.py:220-229 | a successful write leaves every path that parts ways with it unchanged, so existing objects are reused with their other members kept |
| Reshape.TransformAppend | mapper.py:199-231 | a run over two lists of entries is the run over the first, continued on its result over the second; a failure ends it |
| Reshape.SkipIncomplete | mapper.py:199-205 | an entry without a source or a target can be removed from anywhere in the list without changing the outcome |
| Reshape.MissingSourceIsNull | mapper.py:208-212 | a source path missing from the flattened source yields `None`, whatever the transform |
| Reshape.TransformSnoc | mapper.py:199-231 | entries are applied in order, each to the result of the ones before |
| Reshape.LastEntryPlaced | mapper.py:214-231 | the last entry's value is at its target path, `[]` stripped from every segment when the target is dotted, verbatim at top level otherwise; later entries overwrite earlier ones |
| Reshape.TransformErrorAt | mapper.py:215-229 | an entry fails the run exactly when its walk meets a non-object |
| RoundTrip.FlattenLeaves | mapper.py:73-91 | a plain document flattens to its leaves in document order, each once, under its dotted path |
| RoundTrip.TargetPathJoin | mapper.py:214-231 | a dotted join of plain keys is written back at the path of those keys; a single key is written at top level |
| RoundTrip.UnderFresh | mapper.py:220-225 | writes below a key the result does not hold yet append one new object built from `{}` |
| RoundTrip.UnderPresent | mapper.py:220-225 | writes below a key that holds an object update that object in place |
| RoundTrip.WriteLeaves | mapper.py:214-231 | writing the leaves of a plain object in order rebuilds its members in order |
| RoundTrip.TransformIdentity | mapper.py:199-231 | with each path naming its own value, the loop over identity mappings performs exactly the leaf writes |
| RoundTrip.FlattenRebuild | mapper.py:192-233 | `transform_data` with `{"source": p, "target": p}` for every flattened path `p` of a plain document returns that document |
| App.Analyze | app.py:43-60 | both documents are required, and a successful analysis has one suggestion per source field |
| App.AnalyzeDocs | app.py:55-60 | the engine calls succeed exactly when both decoded documents are objects, otherwise the engine raises; on success there is one suggestion per source field |
| App.AnalyzeUnfold | app.py:43-53 | two non-empty objects pass the request checks, are not parsed again since they were not sent as text, and reach the engine calls unchanged |
| App.AnalyzeSpec | app.py:55-60 | the field lists are the extracted leaf paths of each document; each suggestion pairs a flattened source path with a flattened target path or with nothing; targets are used once; a match scores at least 30; the list is best first |
| App.PreviewSpec | app.py:97-108 | a missing or empty source document is refused with the 400 `source_json is required`; preview of a non-empty object succeeds exactly when `transform_data` does and returns its result; without mappings it returns `{}` |
| App.Shape | app.py:146-150 | an exported entry has exactly the keys `source`, `target` and `transform`, in that order; for a kept entry `source` and `target` are copied; `transform` is copied or null |
| App.FilterMapWitness | app.py:145-153 | a filtering comprehension keeps exactly the accepted entries, each rewritten, in their original order |
| App.FilterMapIdempotent | app.py:145-153 | when a rewritten entry is still accepted and rewriting it again changes nothing, filtering twice is filtering once |
| App.ValidMappingsFilter | app.py:145-153 | the exported list holds exactly the entries with a truthy source and target, in their original order |
| App.ValidMappingsIdempotent | app.py:145-153 | filtering an exported list returns it unchanged |
| App.ExportConfig | app.py:155-159 | the configuration has version `1.0`, the fixed description, and the filtered list as `mappings` |
| App.ExportRoundTrip | app.py:145-159 | exporting the mappings of an exported configuration gives the same configuration |

## Left out

- The body of `difflib.SequenceMatcher.ratio` is not modelled. The ratio is a
  parameter bounded to [0, 100], and Python's float rounding is replaced by
  integer hundredths.
- Case mapping is ASCII-only. Python's `lower`/`upper` also map non-ASCII
  letters (and `'ß'.upper()` is `'SS'`). `\d` is ASCII digits only, where
  Python also matches other Unicode decimal digits.
- In `repr`, non-ASCII characters other than U+0080–U+00A0 and U+00AD are
  treated as printable. Python escapes the remaining non-printable code points
  with `\u`/`\U`.
- Floats are not part of the JSON model. So `to_int` on a float and the
  `inf`/`NaN` exceptions it can raise are not covered.
- Python's limit on converting integers of more than 4300 digits to and from
  text is not modelled. In Python that limit raises, and `apply_transform` then
  returns its input unchanged.
- RoundTrip.FlattenRebuild: holds only for plain documents: every key
  non-empty and free of `.` and `[]`, keys distinct at every level, no empty
  sub-object, and no array whose first element is an object. Outside that,
  the flattened paths lose information (an empty object vanishes, an array
  of objects keeps only its first element, a dotted key splits) and the
  rebuild does not give the document back.
- Reshape.Mapping: a mapping's `source`, `target` and `transform` are strings
  or absent. Other JSON values in those places, and entries that are not
  objects, are not modelled.
- App.Preview: `mappings` in the request is a list of such mappings. A request
  whose `mappings` is not a list is not modelled.
- App.ExportConfig: `mappings` in the request is a list. Other values are
  not modelled:
  - `null`, a number or a boolean is not iterable, and the filter raises
    (a 500);
  - a non-empty string or object is iterated, and `m.get` then raises on a
    character or a key;
  - an empty string or object iterates nothing, and export succeeds with
    `"mappings": []`.
- Similarity.SimilaritySymmetric: holds only for a symmetric ratio. difflib's
  ratio depends on argument order (`'tide'`/`'diet'` gives 0.25 one way and
  0.5 the other), so `calculate_similarity` is not symmetric in general.
- App.ValidMappings: entries are JSON objects. An entry that is not an object
  makes Python raise, and the model does not cover it.
- Flask routing, `request.get_json`, the `No data provided` check, HTTP status
  codes, the health endpoint and the static front end are I/O glue.
- `json.loads` is a parameter. A failed parse is an `InvalidJson` result,
  without the parser's message.
- Exception messages are not modelled. An exception inside the engine is one
  `InternalError` result.

## Findings

None: no contract that the code evidently intends failed to hold. Two
behaviours read like accidents but are modelled as written:

- In `suggest_mappings`, `if best_match:` is false for a target field named by
  the empty string. Such a winner gives a no-match entry and is not consumed.
- In `flatten_json`, `if parent_key` is false for an empty parent. A member
  with key `""` below the top level is joined as `parent.`, while at the top
  level it stays `""`.
