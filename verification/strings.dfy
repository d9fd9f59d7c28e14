/** The string operations the engine borrows from Python's `str`, on
    sequences of Unicode scalar values. Case mapping is ASCII-only. */
module Strings {

  predicate IsUpper(c: char) { 'A' <= c <= 'Z' }
  predicate IsLower(c: char) { 'a' <= c <= 'z' }
  predicate IsDigit(c: char) { '0' <= c <= '9' }

  /** `str.isspace()` for one character, which is also what `\s` matches in a
      `str` pattern. */
  predicate IsSpace(c: char) {
    var n := c as int;
    || 0x09 <= n <= 0x0D || 0x1C <= n <= 0x20 || n == 0x85 || n == 0xA0
    || n == 0x1680 || 0x2000 <= n <= 0x200A || n == 0x2028 || n == 0x2029
    || n == 0x202F || n == 0x205F || n == 0x3000
  }

  function LowerChar(c: char): char {
    if IsUpper(c) then (c as int + 32) as char else c
  }

  function UpperChar(c: char): char {
    if IsLower(c) then (c as int - 32) as char else c
  }

  /** `s.lower()`, restricted to the ASCII letters. */
  function Lower(s: string): (r: string)
    ensures |r| == |s|
    ensures forall i :: 0 <= i < |s| ==> r[i] == LowerChar(s[i])
  {
    if s == [] then [] else [LowerChar(s[0])] + Lower(s[1..])
  }

  /** `s.upper()`, restricted to the ASCII letters. */
  function Upper(s: string): (r: string)
    ensures |r| == |s|
    ensures forall i :: 0 <= i < |s| ==> r[i] == UpperChar(s[i])
  {
    if s == [] then [] else [UpperChar(s[0])] + Upper(s[1..])
  }

  /** Python's `sub in s`. */
  predicate Contains(s: string, sub: string) {
    sub <= s || (s != [] && Contains(s[1..], sub))
  }

  /** `sub` occurs in `s` starting at index `i`. */
  predicate OccursAt(s: string, sub: string, i: int) {
    0 <= i && i + |sub| <= |s| && s[i..i + |sub|] == sub
  }

  /** The substring test agrees with "some slice of `s` equals `sub`". */
  lemma {:induction false} ContainsSlice(s: string, sub: string)
    ensures Contains(s, sub) <==> exists i :: OccursAt(s, sub, i)
  {
    if s == [] {
      if sub <= s {
        assert OccursAt(s, sub, 0);
      }
      if exists i :: OccursAt(s, sub, i) {
        var i :| OccursAt(s, sub, i);
        assert sub <= s;
      }
    } else {
      ContainsSlice(s[1..], sub);
      if sub <= s {
        assert OccursAt(s, sub, 0);
      } else if Contains(s[1..], sub) {
        var i :| OccursAt(s[1..], sub, i);
        assert s[i + 1..i + 1 + |sub|] == s[1..][i..i + |sub|];
        assert OccursAt(s, sub, i + 1);
      }
      if exists i :: OccursAt(s, sub, i) {
        var i :| OccursAt(s, sub, i);
        if i == 0 {
          assert sub <= s;
        } else {
          assert s[1..][i - 1..i - 1 + |sub|] == s[i..i + |sub|];
          assert OccursAt(s[1..], sub, i - 1);
        }
      }
    }
  }

  /** The empty string is in every string. */
  lemma ContainsEmpty(s: string)
    ensures Contains(s, "")
  {
  }

  // ---------------------------------------------------------------------------
  // str.split('.') and '.'.join
  // ---------------------------------------------------------------------------

  /** `s.split('.')`: never empty; `"a..b"` gives `["a", "", "b"]`. */
  function SplitDot(s: string): (parts: seq<string>)
    ensures |parts| >= 1
  {
    if s == [] then [""]
    else if s[0] == '.' then [""] + SplitDot(s[1..])
    else
      var rest := SplitDot(s[1..]);
      [[s[0]] + rest[0]] + rest[1..]
  }

  /** `'.'.join(parts)`. */
  function JoinDot(parts: seq<string>): string
    requires |parts| >= 1
  {
    if |parts| == 1 then parts[0] else parts[0] + "." + JoinDot(parts[1..])
  }

  /** Splitting yields exactly one more part than there are dots. */
  lemma {:induction false} SplitDotCount(s: string)
    ensures |SplitDot(s)| == 1 <==> '.' !in s
    ensures '.' !in s ==> SplitDot(s) == [s]
  {
    if s != [] {
      SplitDotCount(s[1..]);
      assert s == [s[0]] + s[1..];
    }
  }

  /** Joining the parts of a split gives the original string back. */
  lemma {:induction false} JoinSplit(s: string)
    ensures JoinDot(SplitDot(s)) == s
  {
    if s == [] {
    } else if s[0] == '.' {
      JoinSplit(s[1..]);
      assert s == "" + "." + s[1..];
    } else {
      JoinSplit(s[1..]);
      var rest := SplitDot(s[1..]);
      if |rest| == 1 {
        assert s == [s[0]] + rest[0];
      } else {
        assert JoinDot(rest) == rest[0] + "." + JoinDot(rest[1..]);
        var parts := [[s[0]] + rest[0]] + rest[1..];
        assert parts[1..] == rest[1..];
        assert s == [s[0]] + s[1..];
      }
    }
  }

  /** Splitting a join of dot-free parts gives the parts back. */
  lemma {:induction false} SplitJoin(parts: seq<string>)
    requires |parts| >= 1
    requires forall i :: 0 <= i < |parts| ==> '.' !in parts[i]
    ensures SplitDot(JoinDot(parts)) == parts
  {
    if |parts| == 1 {
      SplitDotCount(parts[0]);
    } else {
      SplitJoin(parts[1..]);
      SplitPrefix(parts[0], JoinDot(parts[1..]));
      assert parts == [parts[0]] + parts[1..];
    }
  }

  lemma {:induction false} SplitPrefix(a: string, b: string)
    requires '.' !in a
    ensures SplitDot(a + "." + b) == [a] + SplitDot(b)
  {
    if a == [] {
      assert a + "." + b == "." + b;
      assert ("." + b)[1..] == b;
    } else {
      SplitPrefix(a[1..], b);
      assert (a + "." + b)[1..] == a[1..] + "." + b;
      assert [a[0]] + a[1..] == a;
    }
  }

  /** A join of two or more parts contains a dot; a join of one dot-free part
      does not. */
  lemma {:induction false} JoinDotHasDot(parts: seq<string>)
    requires |parts| >= 1
    ensures |parts| >= 2 ==> '.' in JoinDot(parts)
    ensures |parts| == 1 ==> JoinDot(parts) == parts[0]
  {
    if |parts| >= 2 {
      var s := JoinDot(parts);
      assert s[|parts[0]|] == '.';
    }
  }

  // ---------------------------------------------------------------------------
  // str.replace('[]', '')
  // ---------------------------------------------------------------------------

  /** `s.replace('[]', '')`: removes non-overlapping `[]` pairs scanning left
      to right, in a single pass. */
  function StripBrackets(s: string): (r: string)
    ensures |r| <= |s|
  {
    if |s| >= 2 && s[0] == '[' && s[1] == ']' then StripBrackets(s[2..])
    else if s == [] then []
    else [s[0]] + StripBrackets(s[1..])
  }

  /** A string with no `[]` in it is left alone. */
  lemma {:induction false} StripBracketsNone(s: string)
    requires !Contains(s, "[]")
    ensures StripBrackets(s) == s
  {
    if s != [] {
      assert !("[]" <= s);
      StripBracketsNone(s[1..]);
    }
  }

  // ---------------------------------------------------------------------------
  // str(int) and int(str)
  // ---------------------------------------------------------------------------

  function DigitChar(d: nat): char
    requires d < 10
  {
    ('0' as int + d) as char
  }

  function DigitValue(c: char): nat
    requires IsDigit(c)
  {
    c as int - '0' as int
  }

  /** Decimal digits of a natural number, most significant first. */
  function NatToString(n: nat): (r: string)
    ensures |r| >= 1
    ensures forall i :: 0 <= i < |r| ==> IsDigit(r[i])
  {
    if n < 10 then [DigitChar(n)] else NatToString(n / 10) + [DigitChar(n % 10)]
  }

  /** `str(n)` for an integer. */
  function IntToString(n: int): string {
    if n < 0 then "-" + NatToString(-n) else NatToString(n)
  }

  predicate AllDigits(s: string) {
    forall i :: 0 <= i < |s| ==> IsDigit(s[i])
  }

  /** The value of a run of decimal digits (leading zeros allowed, as `int()` does). */
  function ParseDigits(s: string): nat
    requires AllDigits(s)
  {
    if s == [] then 0 else 10 * ParseDigits(s[..|s| - 1]) + DigitValue(s[|s| - 1])
  }

  /** Reading back the digits printed for `n` gives `n`. */
  lemma {:induction false} ParseNatToString(n: nat)
    ensures ParseDigits(NatToString(n)) == n
  {
    if n >= 10 {
      ParseNatToString(n / 10);
      var s := NatToString(n);
      assert s[..|s| - 1] == NatToString(n / 10);
    }
  }

  // ---------------------------------------------------------------------------
  // str.strip()
  // ---------------------------------------------------------------------------

  function TrimLeft(s: string): (r: string)
    ensures |r| <= |s| && r == s[|s| - |r|..]
    ensures r != [] ==> !IsSpace(r[0])
    ensures forall i :: 0 <= i < |s| - |r| ==> IsSpace(s[i])
  {
    if s != [] && IsSpace(s[0]) then TrimLeft(s[1..]) else s
  }

  function TrimRight(s: string): (r: string)
    ensures |r| <= |s| && r == s[..|r|]
    ensures r != [] ==> !IsSpace(r[|r| - 1])
    ensures forall i :: |r| <= i < |s| ==> IsSpace(s[i])
  {
    if s != [] && IsSpace(s[|s| - 1]) then TrimRight(s[..|s| - 1]) else s
  }

  /** Every character of `s` before index `lo` or from index `hi` on is whitespace. */
  predicate SpaceOutside(s: string, lo: int, hi: int) {
    (forall j :: 0 <= j < lo && j < |s| ==> IsSpace(s[j]))
    && (forall j :: 0 <= hi <= j < |s| ==> IsSpace(s[j]))
  }

  /** `s.strip()`: the longest slice of `s` that neither starts nor ends with
      whitespace, after dropping only whitespace at both ends. */
  function Strip(s: string): (r: string)
    ensures r != [] ==> !IsSpace(r[0]) && !IsSpace(r[|r| - 1])
    ensures exists i :: OccursAt(s, r, i) && SpaceOutside(s, i, i + |r|)
  {
    StripSlice(s);
    TrimRight(TrimLeft(s))
  }

  lemma StripSlice(s: string)
    ensures var l := TrimLeft(s); var i := |s| - |l|;
      OccursAt(s, TrimRight(l), i) && SpaceOutside(s, i, i + |TrimRight(l)|)
  {
    var l := TrimLeft(s);
    var i := |s| - |l|;
    TrimRightSlice(s, i, l);
    TrimRightSpace(s, i, l);
  }

  lemma TrimRightSlice(s: string, i: nat, l: string)
    requires i + |l| == |s| && l == s[i..]
    ensures OccursAt(s, TrimRight(l), i)
  {
    var r := TrimRight(l);
    assert s[i..i + |r|] == l[..|r|];
  }

  lemma TrimRightSpace(s: string, i: nat, l: string)
    requires i + |l| == |s| && l == s[i..]
    requires forall j :: 0 <= j < i ==> IsSpace(s[j])
    ensures SpaceOutside(s, i, i + |TrimRight(l)|)
  {
    var r := TrimRight(l);
    forall j | i + |r| <= j < |s| ensures IsSpace(s[j]) {
      assert s[j] == l[j - i];
    }
  }
}
