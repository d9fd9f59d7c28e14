/** Canonical form of a field name (`normalize_field_name`): camel-case
    boundaries become underscores, letters are lowered, separator runs become
    one underscore, and everything outside `[a-z0-9_]` is dropped. */
module Normalize {
  import opened Strings

  /** Index just past the run of lowercase letters that starts at `k`. */
  function LowerRunEnd(s: string, k: nat): (j: nat)
    requires k <= |s|
    ensures k <= j <= |s|
    decreases |s| - k
  {
    if k < |s| && IsLower(s[k]) then LowerRunEnd(s, k + 1) else k
  }

  /** The pattern `(.)([A-Z][a-z]+)` matches at the start of `s`
      (`.` is any character but a newline). */
  predicate WordAt(s: string) {
    |s| >= 3 && s[0] != '\n' && IsUpper(s[1]) && IsLower(s[2])
  }

  /** `re.sub('(.)([A-Z][a-z]+)', r'\1_\2', s)`: scanning left to right, an
      underscore goes between any character and a following capitalised
      word; the scan resumes after the word's last lowercase letter. */
  function SplitWords(s: string): string
    decreases |s|
  {
    if WordAt(s) then
      var j := LowerRunEnd(s, 3);
      [s[0], '_'] + s[1..j] + SplitWords(s[j..])
    else if s == [] then []
    else [s[0]] + SplitWords(s[1..])
  }

  /** The pattern `([a-z0-9])([A-Z])` matches at the start of `s`. */
  predicate HumpAt(s: string) {
    |s| >= 2 && (IsLower(s[0]) || IsDigit(s[0])) && IsUpper(s[1])
  }

  /** `re.sub('([a-z0-9])([A-Z])', r'\1_\2', s)`: an underscore goes between a
      lowercase letter or digit and a following capital; the scan resumes
      after the capital. */
  function SplitHumps(s: string): string
    decreases |s|
  {
    if HumpAt(s) then [s[0], '_', s[1]] + SplitHumps(s[2..])
    else if s == [] then []
    else [s[0]] + SplitHumps(s[1..])
  }

  /** A character of the class `[-.\s]`. */
  predicate IsSeparator(c: char) {
    c == '-' || c == '.' || IsSpace(c)
  }

  /** `re.sub(r'[-.\s]+', '_', s)`: each maximal run of separators becomes a
      single underscore. */
  function CollapseSeparators(s: string): string
    decreases |s|
  {
    if s == [] then []
    else if IsSeparator(s[0]) then
      if |s| >= 2 && IsSeparator(s[1]) then CollapseSeparators(s[1..])
      else "_" + CollapseSeparators(s[1..])
    else [s[0]] + CollapseSeparators(s[1..])
  }

  /** A character of the class `[a-z0-9_]`. */
  predicate IsNameChar(c: char) {
    IsLower(c) || IsDigit(c) || c == '_'
  }

  predicate AllNameChars(s: string) {
    forall i :: 0 <= i < |s| ==> IsNameChar(s[i])
  }

  /** `re.sub(r'[^a-z0-9_]', '', s)`. */
  function KeepNameChars(s: string): (r: string)
    ensures AllNameChars(r)
    ensures |r| <= |s|
  {
    if s == [] then []
    else if IsNameChar(s[0]) then [s[0]] + KeepNameChars(s[1..])
    else KeepNameChars(s[1..])
  }

  /** `normalize_field_name(field)`. */
  function NormalizeFieldName(field: string): (r: string)
    ensures AllNameChars(r)
  {
    KeepNameChars(CollapseSeparators(Lower(SplitHumps(SplitWords(field)))))
  }

  // ---------------------------------------------------------------------------
  // The rewrites only insert underscores.
  // ---------------------------------------------------------------------------

  /** `s` with every underscore deleted. */
  function DropUnderscores(s: string): string {
    if s == [] then [] else (if s[0] == '_' then [] else [s[0]]) + DropUnderscores(s[1..])
  }

  lemma {:induction false} DropUnderscoresConcat(a: string, b: string)
    ensures DropUnderscores(a + b) == DropUnderscores(a) + DropUnderscores(b)
  {
    if a == [] {
      assert a + b == b;
    } else {
      assert (a + b)[1..] == a[1..] + b;
      DropUnderscoresConcat(a[1..], b);
    }
  }

  /** `t` is `s` with underscores inserted: `s` is what remains of `t` once
      some of its underscores are taken out. */
  predicate InsertsUnderscores(s: string, t: string)
    decreases |t|
  {
    if t == [] then s == []
    else
      || (s != [] && s[0] == t[0] && InsertsUnderscores(s[1..], t[1..]))
      || (t[0] == '_' && InsertsUnderscores(s, t[1..]))
  }

  lemma {:induction false} InsertsNothing(s: string)
    ensures InsertsUnderscores(s, s)
    decreases |s|
  {
    if s != [] {
      InsertsNothing(s[1..]);
    }
  }

  lemma {:induction false} InsertsConcat(a: string, b: string, c: string, d: string)
    requires InsertsUnderscores(a, b) && InsertsUnderscores(c, d)
    ensures InsertsUnderscores(a + c, b + d)
    decreases |b|
  {
    if b == [] {
      assert a + c == c && b + d == d;
    } else {
      assert (b + d)[0] == b[0] && (b + d)[1..] == b[1..] + d;
      if a != [] && a[0] == b[0] && InsertsUnderscores(a[1..], b[1..]) {
        InsertsConcat(a[1..], b[1..], c, d);
        assert (a + c)[0] == a[0] && (a + c)[1..] == a[1..] + c;
      } else {
        InsertsConcat(a, b[1..], c, d);
      }
    }
  }

  /** Deleting an underscore is not an insertion, although it looks like one
      once underscores are dropped. */
  lemma DeletionIsNotInsertion()
    ensures !InsertsUnderscores("a_b", "ab")
    ensures DropUnderscores("ab") == DropUnderscores("a_b")
  {
    assert "a_b"[1..] == "_b" && "ab"[1..] == "b" && "b"[1..] == [];
    assert !InsertsUnderscores("_b", "b");
  }

  /** Inserting one underscore after the first character is invisible once
      underscores are dropped. */
  lemma DropInsertedUnderscore(s: string, j: nat)
    requires 1 <= j <= |s|
    ensures DropUnderscores([s[0], '_'] + s[1..j]) == DropUnderscores(s[..j])
  {
    DropUnderscoresConcat([s[0], '_'], s[1..j]);
    DropUnderscoresConcat([s[0]], ['_']);
    assert [s[0]] + ['_'] == [s[0], '_'];
    DropUnderscoresConcat([s[0]], s[1..j]);
    assert s[..j] == [s[0]] + s[1..j];
  }

  /** The first camel-case rewrite only inserts underscores: its output is
      its input with underscores inserted, so deleting all underscores from
      both gives the same string. */
  lemma SplitWordsInsertsUnderscores(s: string)
    ensures InsertsUnderscores(s, SplitWords(s))
    ensures DropUnderscores(SplitWords(s)) == DropUnderscores(s)
  {
    SplitWordsInsertion(s);
    SplitWordsDrop(s);
  }

  lemma {:induction false} SplitWordsInsertion(s: string)
    ensures InsertsUnderscores(s, SplitWords(s))
    decreases |s|
  {
    if WordAt(s) {
      var j := LowerRunEnd(s, 3);
      SplitWordsInsertion(s[j..]);
      var w := [s[0], '_'] + s[1..j];
      assert w[0] == s[..j][0] && s[..j][1..] == s[1..j] && w[1..] == ['_'] + s[1..j];
      assert (['_'] + s[1..j])[1..] == s[1..j];
      InsertsNothing(s[1..j]);
      assert InsertsUnderscores(s[..j], w);
      InsertsConcat(s[..j], w, s[j..], SplitWords(s[j..]));
      assert s == s[..j] + s[j..];
    } else if s != [] {
      SplitWordsInsertion(s[1..]);
      assert ([s[0]] + SplitWords(s[1..]))[1..] == SplitWords(s[1..]);
    }
  }

  lemma {:induction false} SplitWordsDrop(s: string)
    ensures DropUnderscores(SplitWords(s)) == DropUnderscores(s)
    decreases |s|
  {
    if WordAt(s) {
      var j := LowerRunEnd(s, 3);
      SplitWordsDrop(s[j..]);
      DropUnderscoresConcat([s[0], '_'] + s[1..j], SplitWords(s[j..]));
      DropInsertedUnderscore(s, j);
      DropUnderscoresConcat(s[..j], s[j..]);
      assert s == s[..j] + s[j..];
    } else if s != [] {
      SplitWordsDrop(s[1..]);
      DropUnderscoresConcat([s[0]], SplitWords(s[1..]));
      DropUnderscoresConcat([s[0]], s[1..]);
      assert s == [s[0]] + s[1..];
    }
  }

  /** The second camel-case rewrite only inserts underscores. */
  lemma SplitHumpsInsertsUnderscores(s: string)
    ensures InsertsUnderscores(s, SplitHumps(s))
    ensures DropUnderscores(SplitHumps(s)) == DropUnderscores(s)
  {
    SplitHumpsInsertion(s);
    SplitHumpsDrop(s);
  }

  lemma {:induction false} SplitHumpsInsertion(s: string)
    ensures InsertsUnderscores(s, SplitHumps(s))
    decreases |s|
  {
    if HumpAt(s) {
      SplitHumpsInsertion(s[2..]);
      var w := [s[0], '_', s[1]];
      assert w[1..] == ['_', s[1]] && w[1..][1..] == [s[1]] && [s[0], s[1]][1..] == [s[1]];
      InsertsNothing([s[1]]);
      assert InsertsUnderscores([s[0], s[1]], w);
      InsertsConcat([s[0], s[1]], w, s[2..], SplitHumps(s[2..]));
      assert s == [s[0], s[1]] + s[2..];
    } else if s != [] {
      SplitHumpsInsertion(s[1..]);
      assert ([s[0]] + SplitHumps(s[1..]))[1..] == SplitHumps(s[1..]);
    }
  }

  lemma {:induction false} SplitHumpsDrop(s: string)
    ensures DropUnderscores(SplitHumps(s)) == DropUnderscores(s)
    decreases |s|
  {
    if HumpAt(s) {
      SplitHumpsDrop(s[2..]);
      DropUnderscoresConcat([s[0], '_', s[1]], SplitHumps(s[2..]));
      DropUnderscoresConcat([s[0], s[1]], s[2..]);
      assert s == [s[0], s[1]] + s[2..];
      assert DropUnderscores([s[0], '_', s[1]]) == DropUnderscores([s[0], s[1]]);
    } else if s != [] {
      SplitHumpsDrop(s[1..]);
      DropUnderscoresConcat([s[0]], SplitHumps(s[1..]));
      DropUnderscoresConcat([s[0]], s[1..]);
      assert s == [s[0]] + s[1..];
    }
  }

  // ---------------------------------------------------------------------------
  // Every step leaves a canonical name alone, so normalising is idempotent.
  // ---------------------------------------------------------------------------

  predicate NoUpper(s: string) {
    forall i :: 0 <= i < |s| ==> !IsUpper(s[i])
  }

  lemma {:induction false} SplitWordsNoUpper(s: string)
    requires NoUpper(s)
    ensures SplitWords(s) == s
    decreases |s|
  {
    if s != [] {
      assert !WordAt(s);
      SplitWordsNoUpper(s[1..]);
    }
  }

  lemma {:induction false} SplitHumpsNoUpper(s: string)
    requires NoUpper(s)
    ensures SplitHumps(s) == s
    decreases |s|
  {
    if s != [] {
      assert !HumpAt(s);
      SplitHumpsNoUpper(s[1..]);
    }
  }

  lemma {:induction false} CollapseNoSeparator(s: string)
    requires AllNameChars(s)
    ensures CollapseSeparators(s) == s
    decreases |s|
  {
    if s != [] {
      assert !IsSeparator(s[0]);
      CollapseNoSeparator(s[1..]);
    }
  }

  lemma {:induction false} KeepNameCharsFixes(s: string)
    requires AllNameChars(s)
    ensures KeepNameChars(s) == s
  {
    if s != [] {
      KeepNameCharsFixes(s[1..]);
    }
  }

  lemma LowerNoUpper(s: string)
    requires NoUpper(s)
    ensures Lower(s) == s
  {
  }

  lemma CanonicalTail(s: string)
    requires AllNameChars(s)
    ensures KeepNameChars(CollapseSeparators(s)) == s
  {
    CollapseNoSeparator(s);
    KeepNameCharsFixes(s);
  }

  /** A name already made of `[a-z0-9_]` is its own canonical form. */
  lemma NormalizeFixesCanonical(s: string)
    requires AllNameChars(s)
    ensures NormalizeFieldName(s) == s
  {
    SplitWordsNoUpper(s);
    SplitHumpsNoUpper(s);
    LowerNoUpper(s);
    CollapseNoSeparator(s);
    KeepNameCharsFixes(s);
  }

  /** Normalising twice is normalising once. */
  lemma NormalizeIdempotent(s: string)
    ensures NormalizeFieldName(NormalizeFieldName(s)) == NormalizeFieldName(s)
  {
    NormalizeFixesCanonical(NormalizeFieldName(s));
  }

  // ---------------------------------------------------------------------------
  // Worked examples.
  // ---------------------------------------------------------------------------

  /** Matches are non-overlapping: in `aBcDe` the word `Bc` is split off and
      the scan resumes at `D`, so `cDe` is never considered. */
  lemma SplitWordsExample()
    ensures SplitWords("aBcDe") == "a_BcDe"
  {
  }

  /** Lowercasing distributes over concatenation. */
  lemma LowerConcat(a: string, b: string)
    ensures Lower(a + b) == Lower(a) + Lower(b)
  {
  }

  /** Positions `1..k` of `s` hold no capital. */
  predicate NoUpperThrough(s: string, k: nat) {
    forall i :: 0 < i <= k && i < |s| ==> !IsUpper(s[i])
  }

  lemma NoUpperThroughTail(s: string, k: nat)
    requires 0 < k <= |s| && NoUpperThrough(s, k)
    ensures NoUpperThrough(s[1..], k - 1)
  {
    forall i | 0 < i <= k - 1 && i < |s| - 1 ensures !IsUpper(s[1..][i]) {
      assert s[1..][i] == s[i + 1];
    }
  }

  lemma Assoc(a: string, b: string, c: string)
    ensures a + (b + c) == (a + b) + c
  {
  }

  lemma ConsConcat(c: char, a: string, b: string)
    ensures [c] + (a + b) == ([c] + a) + b
  {
  }

  lemma ConsSlices(s: string, k: nat)
    requires 0 < k <= |s|
    ensures s[1..][k - 1..] == s[k..]
    ensures s[..k] == [s[0]] + s[1..][..k - 1]
  {
  }

  lemma SplitWordsHead(s: string)
    requires |s| >= 1 && (|s| == 1 || !IsUpper(s[1]))
    ensures SplitWords(s) == [s[0]] + SplitWords(s[1..])
  {
  }

  lemma SplitHumpsHead(s: string)
    requires |s| >= 1 && (|s| == 1 || !IsUpper(s[1]))
    ensures SplitHumps(s) == [s[0]] + SplitHumps(s[1..])
  {
  }

  /** With no capital at positions `1..k`, the first rewrite copies the
      first `k` characters and carries on from `k`. */
  lemma {:induction false} SplitWordsFrom(s: string, k: nat)
    requires k <= |s| && NoUpperThrough(s, k)
    ensures SplitWords(s) == s[..k] + SplitWords(s[k..])
    decreases k
  {
    if k > 0 {
      SplitWordsHead(s);
      NoUpperThroughTail(s, k);
      SplitWordsFrom(s[1..], k - 1);
      ConsSlices(s, k);
      ConsConcat(s[0], s[1..][..k - 1], SplitWords(s[k..]));
    }
  }

  /** Likewise for the second rewrite. */
  lemma {:induction false} SplitHumpsFrom(s: string, k: nat)
    requires k <= |s| && NoUpperThrough(s, k)
    ensures SplitHumps(s) == s[..k] + SplitHumps(s[k..])
    decreases k
  {
    if k > 0 {
      SplitHumpsHead(s);
      NoUpperThroughTail(s, k);
      SplitHumpsFrom(s[1..], k - 1);
      ConsSlices(s, k);
      ConsConcat(s[0], s[1..][..k - 1], SplitHumps(s[k..]));
    }
  }

  lemma {:induction false} CollapseSkip(a: string, b: string)
    requires AllNameChars(a)
    ensures CollapseSeparators(a + b) == a + CollapseSeparators(b)
    decreases |a|
  {
    if a == [] {
      assert a + b == b;
    } else {
      assert !IsSeparator(a[0]);
      assert (a + b)[1..] == a[1..] + b;
      CollapseSkip(a[1..], b);
    }
  }

  /** A word of lowercase letters. */
  predicate LowerWord(w: string) {
    forall i :: 0 <= i < |w| ==> IsLower(w[i])
  }

  /** A lowercase word has no capital after its first character, and none
      at its end either when what follows does not start with one. */
  lemma WordNoUpperThrough(w: string, t: string, k: nat)
    requires LowerWord(w) && k <= |w|
    requires k < |w| || t == [] || !IsUpper(t[0])
    ensures NoUpperThrough(w + t, k)
  {
    forall i | 0 < i <= k && i < |w + t| ensures !IsUpper((w + t)[i]) {
      if i < |w| {
        assert (w + t)[i] == w[i];
      } else {
        assert (w + t)[i] == t[0];
      }
    }
  }

  /** Splitting `w + t` before the last character of `w`. */
  lemma SplitBeforeLast(w: string, t: string)
    requires |w| >= 1
    ensures (w + t)[..|w| - 1] == w[..|w| - 1]
    ensures (w + t)[|w| - 1..] == [w[|w| - 1]] + t
    ensures w + t == w[..|w| - 1] + ([w[|w| - 1]] + t)
  {
  }

  lemma SplitAtEnd(w: string, t: string)
    ensures (w + t)[..|w|] == w && (w + t)[|w|..] == t
  {
  }

  lemma ThreeID(c: char)
    requires IsLower(c)
    ensures SplitWords([c] + "ID") == [c] + "ID"
    ensures SplitHumps([c] + "ID") == [c] + "_ID"
  {
    assert [c] + "ID" == [c, 'I', 'D'] && [c] + "_ID" == [c, '_', 'I', 'D'];
    assert [c, 'I', 'D'][1..] == ['I', 'D'] && ['I', 'D'][1..] == ['D'];
    assert [c, 'I', 'D'][2..] == ['D'];
  }

  lemma ThreeId(c: char)
    requires IsLower(c)
    ensures SplitWords([c] + "Id") == [c] + "_Id"
  {
    assert [c] + "Id" == [c, 'I', 'd'] && [c] + "_Id" == [c, '_', 'I', 'd'];
    assert WordAt([c, 'I', 'd']) && LowerRunEnd([c, 'I', 'd'], 3) == 3;
    assert [c, 'I', 'd'][1..3] == ['I', 'd'] && [c, 'I', 'd'][3..] == [];
  }

  lemma UnderscoreId()
    ensures SplitHumps("_Id") == "_Id"
  {
    assert "_Id"[1..] == "Id" && "Id"[1..] == "d";
  }

  /** The two camel-case rewrites on `w` followed by the capitals `ID`:
      only the second fires, once. */
  lemma SplitTrailingID(w: string)
    requires |w| >= 1 && LowerWord(w)
    ensures SplitWords(w + "ID") == w + "ID"
    ensures SplitHumps(w + "ID") == w + "_ID"
  {
    var n := |w| - 1;
    WordNoUpperThrough(w, "ID", n);
    SplitBeforeLast(w, "ID");
    SplitBeforeLast(w, "_ID");
    SplitWordsFrom(w + "ID", n);
    SplitHumpsFrom(w + "ID", n);
    ThreeID(w[n]);
  }

  /** The same for `w` followed by the capitalised word `Id`: the first
      rewrite splits it off and the second then finds nothing. */
  lemma SplitTrailingId(w: string)
    requires |w| >= 1 && LowerWord(w)
    ensures SplitWords(w + "Id") == w + "_Id"
    ensures SplitHumps(w + "_Id") == w + "_Id"
  {
    var n := |w| - 1;
    WordNoUpperThrough(w, "Id", n);
    SplitBeforeLast(w, "Id");
    SplitBeforeLast(w, "_Id");
    SplitWordsFrom(w + "Id", n);
    ThreeId(w[n]);
    WordNoUpperThrough(w, "_Id", |w|);
    SplitAtEnd(w, "_Id");
    SplitHumpsFrom(w + "_Id", |w|);
    UnderscoreId();
  }

  /** Lowering `w_ID` or `w_Id` gives `w_id`, already canonical. */
  lemma LowerTrailingId(w: string, tail: string)
    requires LowerWord(w) && (tail == "_ID" || tail == "_Id")
    ensures Lower(w + tail) == w + "_id"
    ensures AllNameChars(w + "_id")
  {
    LowerConcat(w, tail);
    assert NoUpper(w);
    LowerNoUpper(w);
    assert Lower(tail) == "_id";
  }

  /** A lowercase word followed by `ID` normalises to snake case. */
  lemma NormalizeTrailingID(w: string)
    requires |w| >= 1 && LowerWord(w)
    ensures NormalizeFieldName(w + "ID") == w + "_id"
  {
    SplitTrailingID(w);
    LowerTrailingId(w, "_ID");
    CanonicalTail(w + "_id");
  }

  /** A lowercase word followed by `Id` normalises to snake case. */
  lemma NormalizeTrailingId(w: string)
    requires |w| >= 1 && LowerWord(w)
    ensures NormalizeFieldName(w + "Id") == w + "_id"
  {
    SplitTrailingId(w);
    LowerTrailingId(w, "_Id");
    CanonicalTail(w + "_id");
  }

  lemma HyphenNoUpper(a: string, b: string)
    requires LowerWord(a) && LowerWord(b)
    ensures NoUpper(a + "-" + b)
  {
    var s := a + "-" + b;
    forall i | 0 <= i < |s| ensures !IsUpper(s[i]) {
      if i < |a| {
        assert s[i] == a[i];
      } else if i > |a| {
        assert s[i] == b[i - |a| - 1];
      }
    }
  }

  lemma LowerWordNameChars(a: string, b: string)
    requires LowerWord(a) && LowerWord(b)
    ensures AllNameChars(a) && AllNameChars(b) && AllNameChars(a + "_" + b)
  {
    var s := a + "_" + b;
    forall i | 0 <= i < |s| ensures IsNameChar(s[i]) {
      if i < |a| {
        assert s[i] == a[i];
      } else if i > |a| {
        assert s[i] == b[i - |a| - 1];
      }
    }
  }

  lemma CollapseLeadingHyphen(b: string)
    requires LowerWord(b)
    ensures CollapseSeparators("-" + b) == "_" + b
  {
    var s := "-" + b;
    assert s[1..] == b;
    assert IsSeparator(s[0]);
    if b != [] {
      assert s[1] == b[0] && IsLower(b[0]);
      assert !IsSeparator(s[1]);
    }
    assert CollapseSeparators(s) == "_" + CollapseSeparators(b);
    LowerWordNameChars(b, b);
    CollapseNoSeparator(b);
  }

  /** The hyphen between two lowercase words becomes one underscore. */
  lemma CollapseHyphen(a: string, b: string)
    requires LowerWord(a) && LowerWord(b)
    ensures CollapseSeparators(a + "-" + b) == a + "_" + b
  {
    LowerWordNameChars(a, b);
    Assoc(a, "-", b);
    CollapseSkip(a, "-" + b);
    CollapseLeadingHyphen(b);
    Assoc(a, "_", b);
  }

  /** Two lowercase words joined by a hyphen normalise to snake case. */
  lemma NormalizeHyphen(a: string, b: string)
    requires LowerWord(a) && LowerWord(b)
    ensures NormalizeFieldName(a + "-" + b) == a + "_" + b
  {
    var s := a + "-" + b;
    HyphenNoUpper(a, b);
    SplitWordsNoUpper(s);
    SplitHumpsNoUpper(s);
    LowerNoUpper(s);
    CollapseHyphen(a, b);
    LowerWordNameChars(a, b);
    KeepNameCharsFixes(a + "_" + b);
  }

  lemma NormalizeCustomerID()
    ensures NormalizeFieldName("customerID") == "customer_id"
  {
    NormalizeTrailingID("customer");
    assert "customer" + "ID" == "customerID" && "customer" + "_id" == "customer_id";
  }

  lemma NormalizeCustomerId()
    ensures NormalizeFieldName("customerId") == "customer_id"
  {
    NormalizeTrailingId("customer");
    assert "customer" + "Id" == "customerId" && "customer" + "_id" == "customer_id";
  }

  lemma NormalizeFullName()
    ensures NormalizeFieldName("full-name") == "full_name"
  {
    NormalizeHyphen("full", "name");
    assert "full" + "-" + "name" == "full-name" && "full" + "_" + "name" == "full_name";
  }
}
