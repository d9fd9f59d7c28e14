/** Field-name similarity (`calculate_similarity`), in hundredths. */
module Similarity {
  import opened Strings
  import opened Normalize

  /** A score in hundredths: 0 stands for 0.0 and 100 for 1.0, which is also
      what `round(x, 2)` can produce. */
  type Percent = x: int | 0 <= x <= 100

  /** `SequenceMatcher(None, a, b).ratio()` rounded to two places, in
      hundredths. difflib is not part of this model, so the ratio is a
      parameter: any function into [0, 100]. */
  type RatioFn = (string, string) -> Percent

  /** The fixed synonym table: a concept key and its alternate spellings. */
  const Synonyms: seq<(string, seq<string>)> := [
    ("id", ["identifier", "uid", "key", "code"]),
    ("name", ["title", "label", "display_name"]),
    ("email", ["e_mail", "mail", "email_address"]),
    ("phone", ["telephone", "tel", "phone_number", "mobile"]),
    ("address", ["addr", "location", "street"]),
    ("user", ["customer", "client", "contact"]),
    ("date", ["datetime", "timestamp", "time"]),
    ("created", ["create_date", "created_at", "creation_date"]),
    ("updated", ["update_date", "updated_at", "modification_date"])
  ]

  /** `any(v in s for v in values)`. */
  predicate AnyIn(values: seq<string>, s: string) {
    values != [] && (Contains(s, values[0]) || AnyIn(values[1..], s))
  }

  /** The synonym rule for one table row, in either direction. */
  predicate RowFires(key: string, values: seq<string>, a: string, b: string) {
    (Contains(a, key) && AnyIn(values, b)) || (Contains(b, key) && AnyIn(values, a))
  }

  /** Some row of `table` fires for the pair. */
  predicate SynonymIn(table: seq<(string, seq<string>)>, a: string, b: string) {
    table != [] && (RowFires(table[0].0, table[0].1, a, b) || SynonymIn(table[1..], a, b))
  }

  predicate SynonymMatch(a: string, b: string) {
    SynonymIn(Synonyms, a, b)
  }

  /** One normalised name is a substring of the other. */
  predicate Nested(a: string, b: string) {
    Contains(b, a) || Contains(a, b)
  }

  /** `calculate_similarity(source, target)`: 100 when the canonical forms
      agree; otherwise the ratio, raised to 85 when one canonical form contains
      the other and to 80 when the synonym table fires. */
  function CalculateSimilarity(ratio: RatioFn, source: string, target: string): (r: Percent)
    ensures NormalizeFieldName(source) == NormalizeFieldName(target) ==> r == 100
    ensures Nested(NormalizeFieldName(source), NormalizeFieldName(target)) ==> r >= 85
    ensures SynonymMatch(NormalizeFieldName(source), NormalizeFieldName(target)) ==> r >= 80
  {
    var sn := NormalizeFieldName(source);
    var tn := NormalizeFieldName(target);
    if sn == tn then 100
    else
      var base := ratio(sn, tn);
      var contained := if Nested(sn, tn) && base < 85 then 85 else base;
      if SynonymMatch(sn, tn) && contained < 80 then 80 else contained
  }

  /** When the canonical forms differ, the score is the least value that is at
      least the ratio and honours every boost that applies: it is the ratio
      itself, or a boost floor that applies. */
  lemma SimilarityIsLeastBoost(ratio: RatioFn, source: string, target: string)
    requires NormalizeFieldName(source) != NormalizeFieldName(target)
    ensures var sn, tn := NormalizeFieldName(source), NormalizeFieldName(target);
      var r := CalculateSimilarity(ratio, source, target);
      && r >= ratio(sn, tn)
      && (r == ratio(sn, tn) || (r == 85 && Nested(sn, tn)) || (r == 80 && SynonymMatch(sn, tn)))
  {
  }

  /** With no containment and no synonym, the score is exactly the ratio. */
  lemma SimilarityPlainRatio(ratio: RatioFn, source: string, target: string)
    requires var sn, tn := NormalizeFieldName(source), NormalizeFieldName(target);
      sn != tn && !Nested(sn, tn) && !SynonymMatch(sn, tn)
    ensures CalculateSimilarity(ratio, source, target)
         == ratio(NormalizeFieldName(source), NormalizeFieldName(target))
  {
  }

  /** A name that normalises to nothing is contained in every name, so it
      scores at least 0.85 against anything. */
  lemma EmptyNameScoresHigh(ratio: RatioFn, source: string, target: string)
    requires NormalizeFieldName(source) == ""
    ensures CalculateSimilarity(ratio, source, target) >= 85
  {
    ContainsEmpty(NormalizeFieldName(target));
  }

  lemma {:induction false} SynonymInSymmetric(table: seq<(string, seq<string>)>, a: string, b: string)
    ensures SynonymIn(table, a, b) == SynonymIn(table, b, a)
  {
    if table != [] {
      SynonymInSymmetric(table[1..], a, b);
    }
  }

  /** Every heuristic but the ratio is symmetric, so a symmetric ratio makes
      the whole score symmetric. */
  lemma SimilaritySymmetric(ratio: RatioFn, a: string, b: string)
    requires forall x, y :: ratio(x, y) == ratio(y, x)
    ensures CalculateSimilarity(ratio, a, b) == CalculateSimilarity(ratio, b, a)
  {
    SynonymInSymmetric(Synonyms, NormalizeFieldName(a), NormalizeFieldName(b));
  }

  /** Camel case and snake case of the same words score 1.0, whatever the ratio. */
  lemma SimilarityCamelSnake(ratio: RatioFn)
    ensures CalculateSimilarity(ratio, "customer_id", "customerId") == 100
    ensures CalculateSimilarity(ratio, "customerID", "customer_id") == 100
  {
    NormalizeFixesCanonical("customer_id");
    NormalizeCustomerId();
    NormalizeCustomerID();
  }
}
