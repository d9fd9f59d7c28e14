/** `suggest_mappings`: greedy, source-first, one-to-one assignment of target
    fields to source fields, then a stable sort by confidence, highest first. */
module Suggest {
  import opened Wrappers
  import opened Similarity

  /** One suggestion as the engine returns it. An empty `target` means no
      match was found. */
  datatype Suggestion = Suggestion(source: string, target: string, confidence: int, transform: Option<string>)

  /** The score of `target` against `source`. */
  function Score(ratio: RatioFn, source: string, target: string): Percent {
    CalculateSimilarity(ratio, source, target)
  }

  /** A target the inner loop could pick: not yet consumed, at or above the
      threshold, and strictly above the initial best score of 0.0. */
  predicate Eligible(ratio: RatioFn, source: string, target: string, used: set<string>, threshold: int) {
    target !in used && Score(ratio, source, target) >= threshold && Score(ratio, source, target) > 0
  }

  /** Index `k` holds the first eligible target, in target order, whose score
      is the highest among all eligible targets. */
  predicate IsFirstBest(ratio: RatioFn, source: string, targets: seq<string>, used: set<string>, threshold: int, k: int) {
    && 0 <= k < |targets|
    && Eligible(ratio, source, targets[k], used, threshold)
    && (forall j :: 0 <= j < |targets| && Eligible(ratio, source, targets[j], used, threshold) ==>
          Score(ratio, source, targets[j]) <= Score(ratio, source, targets[k]))
    && (forall j :: 0 <= j < k && Eligible(ratio, source, targets[j], used, threshold) ==>
          Score(ratio, source, targets[j]) < Score(ratio, source, targets[k]))
  }

  predicate NoneEligible(ratio: RatioFn, source: string, targets: seq<string>, used: set<string>, threshold: int) {
    forall j :: 0 <= j < |targets| ==> !Eligible(ratio, source, targets[j], used, threshold)
  }

  /** The inner `for target_field in target_fields` loop from index `i`, with
      the running `best_match` and `best_score`. */
  function Scan(ratio: RatioFn, source: string, targets: seq<string>, used: set<string>, threshold: int,
                i: nat, best: Option<string>, bestScore: int): (Option<string>, int)
    requires i <= |targets|
    decreases |targets| - i
  {
    if i == |targets| then (best, bestScore)
    else if targets[i] in used then Scan(ratio, source, targets, used, threshold, i + 1, best, bestScore)
    else
      var score := Score(ratio, source, targets[i]);
      if score > bestScore && score >= threshold then
        Scan(ratio, source, targets, used, threshold, i + 1, Some(targets[i]), score)
      else
        Scan(ratio, source, targets, used, threshold, i + 1, best, bestScore)
  }

  /** Index `k` (at or after `i`) is an eligible target that scores `s`, is
      the scan's result `m`, and beats every eligible target between `i` and `k`. */
  predicate WinsFrom(ratio: RatioFn, source: string, targets: seq<string>, used: set<string>, threshold: int,
                     i: int, k: int, m: Option<string>, s: int) {
    && 0 <= i <= k < |targets|
    && Eligible(ratio, source, targets[k], used, threshold)
    && m == Some(targets[k]) && s == Score(ratio, source, targets[k])
    && forall j :: i <= j < k && Eligible(ratio, source, targets[j], used, threshold) ==>
         Score(ratio, source, targets[j]) < s
  }

  /** The scan's score never drops, and the running best is kept when the
      score stays put. */
  lemma {:induction false} ScanKeeps(ratio: RatioFn, source: string, targets: seq<string>, used: set<string>, threshold: int,
                                     i: nat, best: Option<string>, bestScore: int)
    requires i <= |targets|
    ensures var (m, s) := Scan(ratio, source, targets, used, threshold, i, best, bestScore);
      s >= bestScore && (s == bestScore ==> m == best)
    decreases |targets| - i
  {
    if i < |targets| {
      var score := Score(ratio, source, targets[i]);
      if targets[i] !in used && score > bestScore && score >= threshold {
        ScanKeeps(ratio, source, targets, used, threshold, i + 1, Some(targets[i]), score);
      } else {
        ScanKeeps(ratio, source, targets, used, threshold, i + 1, best, bestScore);
      }
    }
  }

  /** The scan's score bounds the score of every eligible target it visits
      that beats the running best. */
  lemma {:induction false} ScanBound(ratio: RatioFn, source: string, targets: seq<string>, used: set<string>, threshold: int,
                                     i: nat, best: Option<string>, bestScore: int)
    requires i <= |targets|
    ensures var (m, s) := Scan(ratio, source, targets, used, threshold, i, best, bestScore);
      forall j :: i <= j < |targets| && Eligible(ratio, source, targets[j], used, threshold) ==>
        Score(ratio, source, targets[j]) <= s || Score(ratio, source, targets[j]) <= bestScore
    decreases |targets| - i
  {
    if i < |targets| {
      var score := Score(ratio, source, targets[i]);
      if targets[i] !in used && score > bestScore && score >= threshold {
        ScanBound(ratio, source, targets, used, threshold, i + 1, Some(targets[i]), score);
        ScanKeeps(ratio, source, targets, used, threshold, i + 1, Some(targets[i]), score);
      } else {
        ScanBound(ratio, source, targets, used, threshold, i + 1, best, bestScore);
      }
    }
  }

  lemma {:induction false} ScanSpec(ratio: RatioFn, source: string, targets: seq<string>, used: set<string>, threshold: int,
                                    i: nat, best: Option<string>, bestScore: int)
    requires i <= |targets| && bestScore >= 0
    ensures var (m, s) := Scan(ratio, source, targets, used, threshold, i, best, bestScore);
      && s >= bestScore
      && (forall j :: i <= j < |targets| && Eligible(ratio, source, targets[j], used, threshold) ==>
            Score(ratio, source, targets[j]) <= s)
      && (s == bestScore ==> m == best)
      && (s > bestScore ==> exists k :: WinsFrom(ratio, source, targets, used, threshold, i, k, m, s))
    decreases |targets| - i
  {
    ScanKeeps(ratio, source, targets, used, threshold, i, best, bestScore);
    ScanBound(ratio, source, targets, used, threshold, i, best, bestScore);
    if i < |targets| {
      var score := Score(ratio, source, targets[i]);
      if targets[i] !in used && score > bestScore && score >= threshold {
        ScanSpec(ratio, source, targets, used, threshold, i + 1, Some(targets[i]), score);
        var (m, s) := Scan(ratio, source, targets, used, threshold, i + 1, Some(targets[i]), score);
        if s == score {
          assert WinsFrom(ratio, source, targets, used, threshold, i, i, m, s);
        } else {
          var k :| WinsFrom(ratio, source, targets, used, threshold, i + 1, k, m, s);
          WinsExtend(ratio, source, targets, used, threshold, i, k, m, s);
        }
      } else {
        ScanSpec(ratio, source, targets, used, threshold, i + 1, best, bestScore);
        var (m, s) := Scan(ratio, source, targets, used, threshold, i + 1, best, bestScore);
        if s > bestScore {
          var k :| WinsFrom(ratio, source, targets, used, threshold, i + 1, k, m, s);
          WinsExtend(ratio, source, targets, used, threshold, i, k, m, s);
        }
      }
    }
  }

  /** A winner from `i + 1` that beats `targets[i]` (when eligible) is a
      winner from `i`. */
  lemma WinsExtend(ratio: RatioFn, source: string, targets: seq<string>, used: set<string>, threshold: int,
                   i: nat, k: int, m: Option<string>, s: int)
    requires WinsFrom(ratio, source, targets, used, threshold, i + 1, k, m, s)
    requires Eligible(ratio, source, targets[i], used, threshold) ==> Score(ratio, source, targets[i]) < s
    ensures WinsFrom(ratio, source, targets, used, threshold, i, k, m, s)
  {
  }

  /** The whole inner loop: the chosen target and its score. */
  function BestMatch(ratio: RatioFn, source: string, targets: seq<string>, used: set<string>, threshold: int): (Option<string>, int) {
    Scan(ratio, source, targets, used, threshold, 0, None, 0)
  }

  /** The inner loop finds nothing exactly when no target is eligible, and
      otherwise picks the first eligible target of highest score. */
  lemma BestMatchSpec(ratio: RatioFn, source: string, targets: seq<string>, used: set<string>, threshold: int)
    ensures var (m, s) := BestMatch(ratio, source, targets, used, threshold);
      && (m.None? <==> NoneEligible(ratio, source, targets, used, threshold))
      && (m.None? ==> s == 0)
      && (m.Some? ==> exists k :: IsFirstBest(ratio, source, targets, used, threshold, k)
                                && m.value == targets[k] && s == Score(ratio, source, targets[k]))
  {
    ScanSpec(ratio, source, targets, used, threshold, 0, None, 0);
    var (m, s) := BestMatch(ratio, source, targets, used, threshold);
    if s > 0 {
      var k :| WinsFrom(ratio, source, targets, used, threshold, 0, k, m, s);
      assert IsFirstBest(ratio, source, targets, used, threshold, k);
    }
  }

  /** One pass of the outer loop for `source`: the inner loop's winner with
      its score, or an empty target with confidence 0. `if best_match:`
      treats an empty target name like no match. */
  function Step(ratio: RatioFn, source: string, targets: seq<string>, used: set<string>, threshold: int): Suggestion {
    var (m, s) := BestMatch(ratio, source, targets, used, threshold);
    if m.Some? && m.value != "" then Suggestion(source, m.value, s, None)
    else Suggestion(source, "", 0, None)
  }

  /** The consumed set after emitting `e`. */
  function Consume(used: set<string>, e: Suggestion): set<string> {
    used + (if e.target != "" then {e.target} else {})
  }

  /** The outer loop over `source_fields`, with the set of consumed targets. */
  function Assign(ratio: RatioFn, sources: seq<string>, targets: seq<string>, threshold: int, used: set<string>): (r: seq<Suggestion>)
    ensures |r| == |sources|
    decreases |sources|
  {
    if sources == [] then []
    else
      var e := Step(ratio, sources[0], targets, used, threshold);
      [e] + Assign(ratio, sources[1..], targets, threshold, Consume(used, e))
  }

  /** The non-empty targets of a list of suggestions. */
  function UsedBy(r: seq<Suggestion>): set<string> {
    if r == [] then {} else (if r[0].target != "" then {r[0].target} else {}) + UsedBy(r[1..])
  }

  /** What one greedy step must produce for `source`, given the targets
      consumed so far: the first best eligible target with its score, or an
      empty target with confidence 0 when nothing is eligible or the winner is
      the empty name. */
  ghost predicate ChoiceOk(ratio: RatioFn, source: string, targets: seq<string>, used: set<string>, threshold: int, e: Suggestion) {
    && e.source == source
    && e.transform == None
    && (e.target != "" ==>
          && e.confidence == Score(ratio, source, e.target)
          && exists k :: IsFirstBest(ratio, source, targets, used, threshold, k) && targets[k] == e.target)
    && (e.target == "" ==>
          && e.confidence == 0
          && (NoneEligible(ratio, source, targets, used, threshold)
              || exists k :: IsFirstBest(ratio, source, targets, used, threshold, k) && targets[k] == ""))
  }

  /** The greedy policy, stated entry by entry: entry `i` is the right choice
      for source `i` once the targets of entries `0..i-1` are consumed. */
  ghost predicate GreedyChoices(ratio: RatioFn, sources: seq<string>, targets: seq<string>, threshold: int, used: set<string>, r: seq<Suggestion>) {
    && |r| == |sources|
    && forall i :: 0 <= i < |r| ==> ChoiceAt(ratio, sources, targets, threshold, used, r, i)
  }

  /** Entry `i` is the right choice for source `i`, given the targets
      consumed before the run and by entries `0..i-1`. */
  ghost predicate ChoiceAt(ratio: RatioFn, sources: seq<string>, targets: seq<string>, threshold: int, used: set<string>, r: seq<Suggestion>, i: int) {
    && 0 <= i < |r| && i < |sources|
    && ChoiceOk(ratio, sources[i], targets, used + UsedBy(r[..i]), threshold, r[i])
  }

  lemma FirstBestUnique(ratio: RatioFn, source: string, targets: seq<string>, used: set<string>, threshold: int, k1: int, k2: int)
    requires IsFirstBest(ratio, source, targets, used, threshold, k1)
    requires IsFirstBest(ratio, source, targets, used, threshold, k2)
    ensures k1 == k2
  {
  }

  /** A suggestion is a correct greedy choice exactly when it is the one
      `Step` computes. */
  lemma StepSpec(ratio: RatioFn, source: string, targets: seq<string>, used: set<string>, threshold: int, e: Suggestion)
    ensures ChoiceOk(ratio, source, targets, used, threshold, e) <==> e == Step(ratio, source, targets, used, threshold)
  {
    BestMatchSpec(ratio, source, targets, used, threshold);
    var (m, s) := BestMatch(ratio, source, targets, used, threshold);
    var st := Step(ratio, source, targets, used, threshold);
    if m.Some? {
      var k :| IsFirstBest(ratio, source, targets, used, threshold, k)
            && m.value == targets[k] && s == Score(ratio, source, targets[k]);
      if m.value == "" {
        assert targets[k] == "";
      }
    }
    assert ChoiceOk(ratio, source, targets, used, threshold, st);
    if ChoiceOk(ratio, source, targets, used, threshold, e) {
      if e.target != "" {
        var k' :| IsFirstBest(ratio, source, targets, used, threshold, k') && targets[k'] == e.target;
        assert Eligible(ratio, source, targets[k'], used, threshold);
        assert m.Some?;
        var k :| IsFirstBest(ratio, source, targets, used, threshold, k)
              && m.value == targets[k] && s == Score(ratio, source, targets[k]);
        FirstBestUnique(ratio, source, targets, used, threshold, k, k');
      } else if m.Some? {
        var k :| IsFirstBest(ratio, source, targets, used, threshold, k)
              && m.value == targets[k] && s == Score(ratio, source, targets[k]);
        assert Eligible(ratio, source, targets[k], used, threshold);
        var k' :| IsFirstBest(ratio, source, targets, used, threshold, k') && targets[k'] == "";
        FirstBestUnique(ratio, source, targets, used, threshold, k, k');
      }
    }
  }

  lemma UsedByCons(e: Suggestion, rest: seq<Suggestion>, n: nat)
    requires n <= |rest|
    ensures ([e] + rest)[..n + 1] == [e] + rest[..n]
    ensures UsedBy([e] + rest[..n]) == (if e.target != "" then {e.target} else {}) + UsedBy(rest[..n])
  {
    assert ([e] + rest[..n])[1..] == rest[..n];
  }

  /** Prepending a correct first choice to a correct greedy run from the
      updated consumed set gives a correct greedy run. */
  lemma GreedyCons(ratio: RatioFn, sources: seq<string>, targets: seq<string>, threshold: int,
                   used: set<string>, e: Suggestion, rest: seq<Suggestion>)
    requires |sources| > 0
    requires ChoiceOk(ratio, sources[0], targets, used, threshold, e)
    requires GreedyChoices(ratio, sources[1..], targets, threshold, Consume(used, e), rest)
    ensures GreedyChoices(ratio, sources, targets, threshold, used, [e] + rest)
  {
    var r := [e] + rest;
    forall i | 0 <= i < |r|
      ensures ChoiceAt(ratio, sources, targets, threshold, used, r, i)
    {
      if i == 0 {
        assert r[..0] == [];
      } else {
        GreedyConsAt(ratio, sources, targets, threshold, used, e, rest, i - 1);
      }
    }
  }

  lemma GreedyConsAt(ratio: RatioFn, sources: seq<string>, targets: seq<string>, threshold: int,
                     used: set<string>, e: Suggestion, rest: seq<Suggestion>, i: nat)
    requires |sources| > 0
    requires GreedyChoices(ratio, sources[1..], targets, threshold, Consume(used, e), rest)
    requires i < |rest|
    ensures ChoiceOk(ratio, sources[i + 1], targets, used + UsedBy(([e] + rest)[..i + 1]), threshold, ([e] + rest)[i + 1])
  {
    assert ChoiceAt(ratio, sources[1..], targets, threshold, Consume(used, e), rest, i);
    UsedByCons(e, rest, i);
    assert used + UsedBy(([e] + rest)[..i + 1]) == Consume(used, e) + UsedBy(rest[..i]);
    assert ChoiceOk(ratio, sources[1..][i], targets, Consume(used, e) + UsedBy(rest[..i]), threshold, rest[i]);
    assert sources[i + 1] == sources[1..][i] && ([e] + rest)[i + 1] == rest[i];
  }

  /** `Assign` follows the greedy policy at every step. */
  lemma {:induction false} AssignIsGreedy(ratio: RatioFn, sources: seq<string>, targets: seq<string>, threshold: int, used: set<string>)
    ensures GreedyChoices(ratio, sources, targets, threshold, used, Assign(ratio, sources, targets, threshold, used))
    decreases |sources|
  {
    if sources != [] {
      var r := Assign(ratio, sources, targets, threshold, used);
      var e := Step(ratio, sources[0], targets, used, threshold);
      StepSpec(ratio, sources[0], targets, used, threshold, e);
      AssignIsGreedy(ratio, sources[1..], targets, threshold, Consume(used, e));
      assert r == [e] + Assign(ratio, sources[1..], targets, threshold, Consume(used, e));
      GreedyCons(ratio, sources, targets, threshold, used, e, r[1..]);
      assert r == [e] + r[1..];
    }
  }

  /** The converse of `GreedyCons`: a correct greedy run splits into a
      correct first choice and a correct run over the remaining sources. */
  lemma GreedyTail(ratio: RatioFn, sources: seq<string>, targets: seq<string>, threshold: int,
                   used: set<string>, r: seq<Suggestion>)
    requires |sources| > 0
    requires GreedyChoices(ratio, sources, targets, threshold, used, r)
    ensures ChoiceOk(ratio, sources[0], targets, used, threshold, r[0])
    ensures GreedyChoices(ratio, sources[1..], targets, threshold, Consume(used, r[0]), r[1..])
  {
    GreedyHead(ratio, sources, targets, threshold, used, r);
    var rest := r[1..];
    forall i | 0 <= i < |rest|
      ensures ChoiceAt(ratio, sources[1..], targets, threshold, Consume(used, r[0]), rest, i)
    {
      GreedyTailAt(ratio, sources, targets, threshold, used, r, i);
    }
  }

  lemma GreedyHead(ratio: RatioFn, sources: seq<string>, targets: seq<string>, threshold: int,
                   used: set<string>, r: seq<Suggestion>)
    requires |sources| > 0
    requires GreedyChoices(ratio, sources, targets, threshold, used, r)
    ensures ChoiceOk(ratio, sources[0], targets, used, threshold, r[0])
  {
    assert ChoiceAt(ratio, sources, targets, threshold, used, r, 0);
    assert r[..0] == [];
    assert used + UsedBy(r[..0]) == used;
    assert ChoiceOk(ratio, sources[0], targets, used + UsedBy(r[..0]), threshold, r[0]);
  }

  lemma GreedyTailAt(ratio: RatioFn, sources: seq<string>, targets: seq<string>, threshold: int,
                     used: set<string>, r: seq<Suggestion>, i: nat)
    requires GreedyChoices(ratio, sources, targets, threshold, used, r)
    requires i + 1 < |r|
    ensures ChoiceOk(ratio, sources[1..][i], targets, Consume(used, r[0]) + UsedBy(r[1..][..i]), threshold, r[1..][i])
  {
    assert ChoiceAt(ratio, sources, targets, threshold, used, r, i + 1);
    ChoiceOkShift(ratio, sources, targets, threshold, used, r, i);
  }

  /** Entry `i + 1` of a run, seen as entry `i` of the run's tail. */
  lemma ChoiceOkShift(ratio: RatioFn, sources: seq<string>, targets: seq<string>, threshold: int,
                      used: set<string>, r: seq<Suggestion>, i: nat)
    requires i + 1 < |r| && i + 1 < |sources|
    requires ChoiceOk(ratio, sources[i + 1], targets, used + UsedBy(r[..i + 1]), threshold, r[i + 1])
    ensures ChoiceOk(ratio, sources[1..][i], targets, Consume(used, r[0]) + UsedBy(r[1..][..i]), threshold, r[1..][i])
  {
    assert sources[1..][i] == sources[i + 1] && r[1..][i] == r[i + 1];
    assert r == [r[0]] + r[1..];
    UsedByCons(r[0], r[1..], i);
    assert used + UsedBy(r[..i + 1]) == Consume(used, r[0]) + UsedBy(r[1..][..i]);
  }

  /** The greedy policy admits exactly one result, so it is the one `Assign`
      computes. */
  lemma {:induction false} GreedyChoicesUnique(ratio: RatioFn, sources: seq<string>, targets: seq<string>, threshold: int,
                                               used: set<string>, r: seq<Suggestion>)
    requires GreedyChoices(ratio, sources, targets, threshold, used, r)
    ensures r == Assign(ratio, sources, targets, threshold, used)
    decreases |sources|
  {
    if sources != [] {
      GreedyTail(ratio, sources, targets, threshold, used, r);
      StepSpec(ratio, sources[0], targets, used, threshold, r[0]);
      GreedyChoicesUnique(ratio, sources[1..], targets, threshold, Consume(used, r[0]), r[1..]);
      assert r == [r[0]] + r[1..];
    }
  }

  // ---------------------------------------------------------------------------
  // Consequences of the greedy policy.
  // ---------------------------------------------------------------------------

  /** No non-empty target appears twice. */
  predicate OneToOne(r: seq<Suggestion>) {
    forall i, j :: 0 <= i < |r| && 0 <= j < |r| && i != j && r[i].target != "" ==> r[i].target != r[j].target
  }

  /** What every single suggestion promises: an empty target has confidence
      0; a non-empty one is a target field, scored by the similarity, at or
      above the threshold and above 0. */
  predicate WellScored(ratio: RatioFn, targets: seq<string>, threshold: int, e: Suggestion) {
    && e.transform == None
    && (e.target == "" ==> e.confidence == 0)
    && (e.target != "" ==>
          && e.target in targets
          && e.confidence == Score(ratio, e.source, e.target)
          && e.confidence >= threshold && e.confidence > 0)
  }

  lemma {:induction false} UsedByMember(r: seq<Suggestion>, i: nat)
    requires i < |r| && r[i].target != ""
    ensures r[i].target in UsedBy(r)
  {
    if i > 0 {
      UsedByMember(r[1..], i - 1);
    }
  }

  /** Entry `i` of a greedy run is well scored, belongs to source `i`, and
      takes a target not consumed before it. */
  lemma GreedyEntry(ratio: RatioFn, sources: seq<string>, targets: seq<string>, threshold: int,
                    used: set<string>, r: seq<Suggestion>, i: nat)
    requires GreedyChoices(ratio, sources, targets, threshold, used, r)
    requires i < |r|
    ensures WellScored(ratio, targets, threshold, r[i]) && r[i].source == sources[i]
    ensures r[i].target != "" ==> r[i].target !in used + UsedBy(r[..i])
  {
    assert ChoiceAt(ratio, sources, targets, threshold, used, r, i);
    if r[i].target != "" {
      var k :| IsFirstBest(ratio, sources[i], targets, used + UsedBy(r[..i]), threshold, k) && targets[k] == r[i].target;
    }
  }

  /** Every entry of a greedy run is well scored, and entry `i` is for source `i`. */
  lemma GreedyWellScored(ratio: RatioFn, sources: seq<string>, targets: seq<string>, threshold: int,
                         used: set<string>, r: seq<Suggestion>)
    requires GreedyChoices(ratio, sources, targets, threshold, used, r)
    ensures forall i :: 0 <= i < |r| ==> WellScored(ratio, targets, threshold, r[i]) && r[i].source == sources[i]
  {
    forall i | 0 <= i < |r|
      ensures WellScored(ratio, targets, threshold, r[i]) && r[i].source == sources[i]
    {
      GreedyEntry(ratio, sources, targets, threshold, used, r, i);
    }
  }

  /** A greedy run never takes a target consumed before it started. */
  lemma GreedyFresh(ratio: RatioFn, sources: seq<string>, targets: seq<string>, threshold: int,
                    used: set<string>, r: seq<Suggestion>)
    requires GreedyChoices(ratio, sources, targets, threshold, used, r)
    ensures forall i :: 0 <= i < |r| && r[i].target != "" ==> r[i].target !in used
  {
    forall i | 0 <= i < |r| && r[i].target != "" ensures r[i].target !in used {
      GreedyEntry(ratio, sources, targets, threshold, used, r, i);
    }
  }

  /** A greedy run never uses a target twice. */
  lemma GreedyOneToOne(ratio: RatioFn, sources: seq<string>, targets: seq<string>, threshold: int,
                       used: set<string>, r: seq<Suggestion>)
    requires GreedyChoices(ratio, sources, targets, threshold, used, r)
    ensures OneToOne(r)
  {
    forall i, j | 0 <= i < |r| && 0 <= j < |r| && i != j && r[i].target != ""
      ensures r[i].target != r[j].target
    {
      if i < j {
        GreedyEntry(ratio, sources, targets, threshold, used, r, j);
        UsedByMember(r[..j], i);
      } else if r[j].target != "" {
        GreedyEntry(ratio, sources, targets, threshold, used, r, i);
        UsedByMember(r[..i], j);
      }
    }
  }

  // ---------------------------------------------------------------------------
  // mappings.sort(key=confidence, reverse=True)
  // ---------------------------------------------------------------------------

  /** Places `x` before the first element whose confidence is not above its
      own, so it precedes every element of equal confidence. */
  function InsertByConfidence(x: Suggestion, t: seq<Suggestion>): (r: seq<Suggestion>)
    ensures multiset(r) == multiset(t) + multiset{x}
  {
    if t == [] || x.confidence >= t[0].confidence then [x] + t
    else
      assert t == [t[0]] + t[1..];
      [t[0]] + InsertByConfidence(x, t[1..])
  }

  /** Stable sort by confidence, highest first. */
  function SortByConfidence(s: seq<Suggestion>): (r: seq<Suggestion>)
    ensures multiset(r) == multiset(s)
  {
    if s == [] then []
    else
      assert s == [s[0]] + s[1..];
      InsertByConfidence(s[0], SortByConfidence(s[1..]))
  }

  predicate NonIncreasing(r: seq<Suggestion>) {
    forall i, j :: 0 <= i < j < |r| ==> r[i].confidence >= r[j].confidence
  }

  /** The entries with confidence `c`, in their order. */
  function WithConfidence(s: seq<Suggestion>, c: int): seq<Suggestion> {
    if s == [] then []
    else (if s[0].confidence == c then [s[0]] else []) + WithConfidence(s[1..], c)
  }

  lemma WithConfidenceCons(e: Suggestion, s: seq<Suggestion>, c: int)
    ensures WithConfidence([e] + s, c) == (if e.confidence == c then [e] else []) + WithConfidence(s, c)
  {
    assert ([e] + s)[1..] == s;
  }

  /** Every element of the insertion result is `x` or came from `t`. */
  lemma InsertMember(x: Suggestion, t: seq<Suggestion>, y: Suggestion)
    requires y in InsertByConfidence(x, t)
    ensures y == x || y in t
  {
    assert y in multiset(InsertByConfidence(x, t));
  }

  lemma {:induction false} InsertSorted(x: Suggestion, t: seq<Suggestion>)
    requires NonIncreasing(t)
    ensures NonIncreasing(InsertByConfidence(x, t))
  {
    if t != [] && x.confidence < t[0].confidence {
      InsertSorted(x, t[1..]);
      var r := InsertByConfidence(x, t[1..]);
      forall j | 0 <= j < |r| ensures t[0].confidence >= r[j].confidence {
        InsertMember(x, t[1..], r[j]);
      }
      ConsSorted(t[0], r);
    }
  }

  lemma ConsSorted(e: Suggestion, r: seq<Suggestion>)
    requires NonIncreasing(r)
    requires forall j :: 0 <= j < |r| ==> e.confidence >= r[j].confidence
    ensures NonIncreasing([e] + r)
  {
  }

  lemma {:induction false} InsertStable(x: Suggestion, t: seq<Suggestion>, c: int)
    ensures WithConfidence(InsertByConfidence(x, t), c)
         == (if x.confidence == c then [x] else []) + WithConfidence(t, c)
  {
    if t == [] || x.confidence >= t[0].confidence {
      WithConfidenceCons(x, t, c);
    } else {
      InsertStable(x, t[1..], c);
      WithConfidenceCons(t[0], InsertByConfidence(x, t[1..]), c);
      WithConfidenceCons(t[0], t[1..], c);
      assert t == [t[0]] + t[1..];
    }
  }

  /** The sort orders by confidence and keeps the relative order of entries
      of equal confidence. */
  lemma {:induction false} SortSpec(s: seq<Suggestion>, c: int)
    ensures NonIncreasing(SortByConfidence(s))
    ensures WithConfidence(SortByConfidence(s), c) == WithConfidence(s, c)
  {
    if s != [] {
      SortSpec(s[1..], c);
      InsertSorted(s[0], SortByConfidence(s[1..]));
      InsertStable(s[0], SortByConfidence(s[1..]), c);
      WithConfidenceCons(s[0], s[1..], c);
      assert s == [s[0]] + s[1..];
    }
  }

  /** Prepending an entry whose target no other entry uses keeps a list
      one-to-one. */
  lemma ConsOneToOne(x: Suggestion, t: seq<Suggestion>)
    requires OneToOne(t)
    requires forall y :: y in t && x.target != "" ==> y.target != x.target
    ensures OneToOne([x] + t)
  {
    var r := [x] + t;
    forall i, j | 0 <= i < |r| && 0 <= j < |r| && i != j && r[i].target != ""
      ensures r[i].target != r[j].target
    {
      if i > 0 && j > 0 {
        assert r[i] == t[i - 1] && r[j] == t[j - 1];
      } else if i == 0 {
        assert r[j] in t;
      } else {
        assert r[i] in t;
      }
    }
  }

  /** The first entry of a one-to-one list shares its target with no later one. */
  lemma HeadDistinct(t: seq<Suggestion>, y: Suggestion)
    requires OneToOne(t) && t != []
    requires y in t[1..] && t[0].target != ""
    ensures y.target != t[0].target
  {
    var j :| 0 <= j < |t[1..]| && t[1..][j] == y;
    assert t[j + 1] == y;
  }

  lemma {:induction false} InsertOneToOne(x: Suggestion, t: seq<Suggestion>)
    requires OneToOne(t)
    requires forall y :: y in t && x.target != "" ==> y.target != x.target
    ensures OneToOne(InsertByConfidence(x, t))
  {
    if t == [] || x.confidence >= t[0].confidence {
      ConsOneToOne(x, t);
    } else {
      assert OneToOne(t[1..]);
      InsertOneToOne(x, t[1..]);
      var r' := InsertByConfidence(x, t[1..]);
      forall y | y in r' && t[0].target != "" ensures y.target != t[0].target {
        InsertMember(x, t[1..], y);
        if y == x {
          assert t[0] in t;
        } else {
          HeadDistinct(t, y);
        }
      }
      ConsOneToOne(t[0], r');
    }
  }

  /** Sorting keeps a one-to-one list one-to-one. */
  lemma {:induction false} SortOneToOne(s: seq<Suggestion>)
    requires OneToOne(s)
    ensures OneToOne(SortByConfidence(s))
  {
    if s != [] {
      assert OneToOne(s[1..]);
      SortOneToOne(s[1..]);
      var t := SortByConfidence(s[1..]);
      var x := s[0];
      forall y | y in t && x.target != "" ensures y.target != x.target {
        assert y in multiset(s[1..]);
        HeadDistinct(s, y);
      }
      InsertOneToOne(x, t);
    }
  }

  // ---------------------------------------------------------------------------
  // suggest_mappings
  // ---------------------------------------------------------------------------

  /** The threshold the engine uses when none is given (0.3). */
  const DefaultThreshold: int := 30

  /** Greedy one-to-one assignment over the sources in order, then a stable
      sort by confidence, highest first. */
  function SuggestMappings(ratio: RatioFn, sources: seq<string>, targets: seq<string>, threshold: int): (r: seq<Suggestion>)
    ensures |r| == |sources|
    ensures multiset(r) == multiset(Assign(ratio, sources, targets, threshold, {}))
  {
    var a := Assign(ratio, sources, targets, threshold, {});
    assert |multiset(SortByConfidence(a))| == |multiset(a)|;
    SortByConfidence(a)
  }

  /** The reordering is stable: the suggestions of each confidence keep
      their source order. */
  lemma SuggestMappingsStable(ratio: RatioFn, sources: seq<string>, targets: seq<string>, threshold: int, c: int)
    ensures WithConfidence(SuggestMappings(ratio, sources, targets, threshold), c)
         == WithConfidence(Assign(ratio, sources, targets, threshold, {}), c)
  {
    SortSpec(Assign(ratio, sources, targets, threshold, {}), c);
  }

  /** The suggestions come highest confidence first and use no target twice. */
  lemma SuggestMappingsOrdered(ratio: RatioFn, sources: seq<string>, targets: seq<string>, threshold: int)
    ensures NonIncreasing(SuggestMappings(ratio, sources, targets, threshold))
    ensures OneToOne(SuggestMappings(ratio, sources, targets, threshold))
  {
    var a := Assign(ratio, sources, targets, threshold, {});
    AssignIsGreedy(ratio, sources, targets, threshold, {});
    GreedyOneToOne(ratio, sources, targets, threshold, {}, a);
    SortOneToOne(a);
    SortSpec(a, 0);
  }

  /** Every suggestion is well scored and belongs to a source field, and
      every source field has a suggestion. */
  lemma SuggestMappingsEntries(ratio: RatioFn, sources: seq<string>, targets: seq<string>, threshold: int)
    ensures var r := SuggestMappings(ratio, sources, targets, threshold);
      && (forall j :: 0 <= j < |r| ==> WellScored(ratio, targets, threshold, r[j]) && r[j].source in sources)
      && (forall i :: 0 <= i < |sources| ==> exists j :: 0 <= j < |r| && r[j].source == sources[i])
  {
    var a := Assign(ratio, sources, targets, threshold, {});
    AssignIsGreedy(ratio, sources, targets, threshold, {});
    GreedyWellScored(ratio, sources, targets, threshold, {}, a);
    PermutedEntries(ratio, sources, targets, threshold, a, SuggestMappings(ratio, sources, targets, threshold));
  }

  /** A permutation of a run with one well-scored entry per source keeps
      every entry well scored and covers exactly the same sources. */
  lemma PermutedEntries(ratio: RatioFn, sources: seq<string>, targets: seq<string>, threshold: int,
                        a: seq<Suggestion>, r: seq<Suggestion>)
    requires |a| == |sources| && multiset(r) == multiset(a)
    requires forall i :: 0 <= i < |a| ==> WellScored(ratio, targets, threshold, a[i]) && a[i].source == sources[i]
    ensures forall j :: 0 <= j < |r| ==> WellScored(ratio, targets, threshold, r[j]) && r[j].source in sources
    ensures forall i :: 0 <= i < |sources| ==> exists j :: 0 <= j < |r| && r[j].source == sources[i]
  {
    forall j | 0 <= j < |r| ensures WellScored(ratio, targets, threshold, r[j]) && r[j].source in sources {
      assert r[j] in multiset(a);
      var k :| 0 <= k < |a| && a[k] == r[j];
    }
    forall i | 0 <= i < |sources| ensures exists j :: 0 <= j < |r| && r[j].source == sources[i] {
      assert a[i] in multiset(r);
      var j :| 0 <= j < |r| && r[j] == a[i];
    }
  }
}
