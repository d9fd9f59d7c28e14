/** `apply_transform`: the five named value transforms. */
module Transform {
  import opened Wrappers
  import opened JsonModel
  import opened Strings
  import opened PyRepr

  // ---------------------------------------------------------------------------
  // re.search(r'-?\d+', text)
  // ---------------------------------------------------------------------------

  /** The end of the run of digits starting at `i`. */
  function DigitRunEnd(s: string, i: nat): (e: nat)
    requires i <= |s|
    ensures i <= e <= |s|
    ensures forall j :: i <= j < e ==> IsDigit(s[j])
    ensures e == |s| || !IsDigit(s[e])
    decreases |s| - i
  {
    if i < |s| && IsDigit(s[i]) then DigitRunEnd(s, i + 1) else i
  }

  /** The pattern `-?\d+` can start matching at `i`. */
  predicate NumberAt(s: string, i: int) {
    0 <= i < |s| && (IsDigit(s[i]) || (s[i] == '-' && i + 1 < |s| && IsDigit(s[i + 1])))
  }

  /** `int(m.group())` for the greedy match starting at `i`. */
  function NumberValueAt(s: string, i: int): int
    requires NumberAt(s, i)
  {
    if IsDigit(s[i]) then ParseDigits(s[i..DigitRunEnd(s, i)])
    else -(ParseDigits(s[i + 1..DigitRunEnd(s, i + 1)]) as int)
  }

  /** The leftmost match at or after `i`, as an integer. */
  function FirstNumberFrom(s: string, i: nat): Option<int>
    requires i <= |s|
    decreases |s| - i
  {
    if i == |s| then None
    else if NumberAt(s, i) then Some(NumberValueAt(s, i))
    else FirstNumberFrom(s, i + 1)
  }

  function FirstNumber(s: string): Option<int> {
    FirstNumberFrom(s, 0)
  }

  lemma {:induction false} FirstNumberFromNone(s: string, i: nat)
    requires i <= |s|
    ensures FirstNumberFrom(s, i).None? <==> forall j :: i <= j < |s| ==> !IsDigit(s[j])
    decreases |s| - i
  {
    if i < |s| {
      FirstNumberFromNone(s, i + 1);
    }
  }

  /** There is a match exactly when the text holds a digit. */
  lemma FirstNumberNone(s: string)
    ensures FirstNumber(s).None? <==> forall j :: 0 <= j < |s| ==> !IsDigit(s[j])
  {
    FirstNumberFromNone(s, 0);
  }

  /** The scan skips text without digits. */
  lemma {:induction false} FirstNumberSkips(s: string, i: nat, k: nat)
    requires i <= k <= |s|
    requires forall j :: i <= j < k ==> !NumberAt(s, j)
    ensures FirstNumberFrom(s, i) == FirstNumberFrom(s, k)
    decreases k - i
  {
    if i < k {
      FirstNumberSkips(s, i + 1, k);
    }
  }

  /** `k` is the leftmost position at or after `i` where the pattern can
      start. */
  predicate LeftmostNumberAt(s: string, i: int, k: int) {
    i <= k && NumberAt(s, k) && forall j :: i <= j < k ==> !NumberAt(s, j)
  }

  /** Where the scan stops when it finds a number. */
  lemma {:induction false} FirstNumberFromAt(s: string, i: nat) returns (k: nat)
    requires i <= |s| && FirstNumberFrom(s, i).Some?
    ensures k < |s| && LeftmostNumberAt(s, i, k)
    ensures FirstNumberFrom(s, i) == Some(NumberValueAt(s, k))
    decreases |s| - i
  {
    if NumberAt(s, i) {
      k := i;
    } else {
      k := FirstNumberFromAt(s, i + 1);
    }
  }

  /** The scan finds the leftmost position where the pattern can start,
      and reads the number there. */
  lemma FirstNumberFromLeftmost(s: string, i: nat, v: int)
    requires i <= |s|
    ensures FirstNumberFrom(s, i) == Some(v) <==>
      exists k :: LeftmostNumberAt(s, i, k) && v == NumberValueAt(s, k)
  {
    if FirstNumberFrom(s, i) == Some(v) {
      var k := FirstNumberFromAt(s, i);
    }
    if exists k :: LeftmostNumberAt(s, i, k) && v == NumberValueAt(s, k) {
      var k :| LeftmostNumberAt(s, i, k) && v == NumberValueAt(s, k);
      FirstNumberSkips(s, i, k);
    }
  }

  /** The digits of a natural number, followed by a non-digit or nothing,
      read back as that number. */
  lemma DigitsValue(s: string, i: nat, n: nat)
    requires i + |NatToString(n)| <= |s|
    requires s[i..i + |NatToString(n)|] == NatToString(n)
    requires i + |NatToString(n)| == |s| || !IsDigit(s[i + |NatToString(n)|])
    ensures DigitRunEnd(s, i) == i + |NatToString(n)|
    ensures ParseDigits(s[i..DigitRunEnd(s, i)]) == n
  {
    var d := NatToString(n);
    forall j | i <= j < i + |d| ensures IsDigit(s[j]) {
      assert s[j] == d[j - i];
    }
    DigitRunEndAt(s, i, i + |d|);
    ParseNatToString(n);
  }

  lemma {:induction false} DigitRunEndAt(s: string, i: nat, e: nat)
    requires i <= e <= |s|
    requires forall j :: i <= j < e ==> IsDigit(s[j])
    requires e == |s| || !IsDigit(s[e])
    ensures DigitRunEnd(s, i) == e
    decreases e - i
  {
    if i < e {
      DigitRunEndAt(s, i + 1, e);
    }
  }

  /** A prefix without digits, not ending in a minus sign, holds no match. */
  lemma NoNumberBefore(s: string, k: nat)
    requires k <= |s|
    requires forall j :: 0 <= j < k ==> !IsDigit(s[j])
    requires k == 0 || s[k - 1] != '-'
    ensures FirstNumber(s) == FirstNumberFrom(s, k)
  {
    forall j | 0 <= j < k ensures !NumberAt(s, j) {
      if j + 1 < k {
        assert !IsDigit(s[j + 1]);
      }
    }
    FirstNumberSkips(s, 0, k);
  }

  /** The match at `k` of `str(n)` followed by a non-digit reads `n`. */
  lemma NumberAtIntToString(s: string, k: nat, n: int)
    requires k + |IntToString(n)| <= |s|
    requires s[k..k + |IntToString(n)|] == IntToString(n)
    requires k + |IntToString(n)| == |s| || !IsDigit(s[k + |IntToString(n)|])
    ensures NumberAt(s, k) && NumberValueAt(s, k) == n
  {
    var t := IntToString(n);
    if n >= 0 {
      assert s[k] == t[0];
      DigitsValue(s, k, n);
    } else {
      var d := NatToString(-n);
      assert t == "-" + d;
      assert s[k] == t[0];
      assert s[k + 1..k + 1 + |d|] == s[k..k + |t|][1..];
      assert s[k + 1] == d[0];
      DigitsValue(s, k + 1, -n);
    }
  }

  /** A number printed after text without digits (and not right after a
      minus sign), and before a non-digit, is the first number found. */
  lemma FirstNumberAfterText(p: string, n: int, rest: string)
    requires forall j :: 0 <= j < |p| ==> !IsDigit(p[j])
    requires p == [] || p[|p| - 1] != '-'
    requires rest == [] || !IsDigit(rest[0])
    ensures FirstNumber(p + IntToString(n) + rest) == Some(n)
  {
    var t := IntToString(n);
    var s := p + t + rest;
    assert s[..|p|] == p;
    NoNumberBefore(s, |p|);
    assert s[|p|..|p| + |t|] == t;
    assert |p| + |t| == |s| || s[|p| + |t|] == rest[0];
    NumberAtIntToString(s, |p|, n);
  }

  /** `int(str(n)) == n` through the regex: printing an integer and
      scanning for the first number gives it back. */
  lemma FirstNumberOfIntToString(n: int)
    ensures FirstNumber(IntToString(n)) == Some(n)
  {
    FirstNumberAfterText([], n, []);
    assert [] + IntToString(n) + [] == IntToString(n);
  }

  // ---------------------------------------------------------------------------
  // apply_transform(value, transform)
  // ---------------------------------------------------------------------------

  /** The transform names the engine recognises. */
  predicate IsKnownTransform(t: string) {
    t == "lowercase" || t == "uppercase" || t == "trim" || t == "to_string" || t == "to_int"
  }

  /** `to_int`: integers (and booleans, which Python counts as integers) are
      kept; anything else is printed and scanned for its first number, with
      0 when there is none. */
  function ToInt(value: Json): (r: int)
    ensures value.JInt? ==> r == value.i
    ensures value.JStr? && FirstNumber(value.s).None? ==> r == 0
    ensures value.JStr? ==> r == FirstNumber(value.s).GetOr(0)
  {
    match value
    case JInt(n) => n
    case JBool(b) => if b then 1 else 0
    case _ => FirstNumber(Str(value)).GetOr(0)
  }

  /** `apply_transform(value, transform)`. */
  function ApplyTransform(value: Json, transform: string): (r: Json)
    ensures value.JNull? ==> r == JNull
    ensures !value.JNull? && transform == "to_int" ==> r.JInt?
    ensures !value.JNull? && IsKnownTransform(transform) && transform != "to_int" ==> r.JStr?
    ensures !IsKnownTransform(transform) ==> r == value
  {
    if value.JNull? then JNull
    else if transform == "lowercase" then JStr(Lower(Str(value)))
    else if transform == "uppercase" then JStr(Upper(Str(value)))
    else if transform == "trim" then JStr(Strip(Str(value)))
    else if transform == "to_string" then JStr(Str(value))
    else if transform == "to_int" then JInt(ToInt(value))
    else value
  }

  // ---------------------------------------------------------------------------
  // Properties
  // ---------------------------------------------------------------------------

  lemma LowerIdempotent(s: string)
    ensures Lower(Lower(s)) == Lower(s)
  {
  }

  lemma UpperIdempotent(s: string)
    ensures Upper(Upper(s)) == Upper(s)
  {
  }

  lemma UpperLower(s: string)
    ensures Upper(Lower(s)) == Upper(s)
    ensures Lower(Upper(s)) == Lower(s)
  {
  }

  lemma {:induction false} StripIdempotent(s: string)
    ensures Strip(Strip(s)) == Strip(s)
  {
    var r := Strip(s);
    assert TrimLeft(r) == r;
    assert TrimRight(r) == r;
  }

  /** Applying any transform a second time changes nothing. */
  lemma ApplyIdempotent(value: Json, transform: string)
    ensures ApplyTransform(ApplyTransform(value, transform), transform) == ApplyTransform(value, transform)
  {
    if !value.JNull? {
      var s := Str(value);
      if transform == "lowercase" {
        LowerIdempotent(s);
      } else if transform == "uppercase" {
        UpperIdempotent(s);
      } else if transform == "trim" {
        StripIdempotent(s);
      }
    }
  }

  /** Case transforms only look at the case of the text: lowercasing first
      does not change what uppercasing gives, and the other way round. */
  lemma CaseTransformsCompose(value: Json)
    ensures ApplyTransform(ApplyTransform(value, "lowercase"), "uppercase") == ApplyTransform(value, "uppercase")
    ensures ApplyTransform(ApplyTransform(value, "uppercase"), "lowercase") == ApplyTransform(value, "lowercase")
  {
    if !value.JNull? {
      UpperLower(Str(value));
    }
  }

  /** `to_string` then `to_int` gives an integer back unchanged. */
  lemma ToStringToInt(n: int)
    ensures ApplyTransform(ApplyTransform(JInt(n), "to_string"), "to_int") == JInt(n)
  {
    FirstNumberOfIntToString(n);
  }

  /** `to_int` on text takes the first number in it, so a price like
      `$42.50` becomes 42. */
  lemma ToIntPrice()
    ensures ApplyTransform(JStr("$42.50"), "to_int") == JInt(42)
  {
    assert "$42.50" == "$" + IntToString(42) + ".50";
    FirstNumberAfterText("$", 42, ".50");
  }

  /** Lowercasing leaves no upper-case letter and keeps the length of the
      printed value; trimming leaves no whitespace at either end. */
  lemma ApplyTextShape(value: Json)
    requires !value.JNull?
    ensures var r := ApplyTransform(value, "lowercase");
      |r.s| == |Str(value)| && forall i :: 0 <= i < |r.s| ==> !IsUpper(r.s[i])
    ensures var r := ApplyTransform(value, "uppercase");
      |r.s| == |Str(value)| && forall i :: 0 <= i < |r.s| ==> !IsLower(r.s[i])
    ensures var r := ApplyTransform(value, "trim");
      r.s != [] ==> !IsSpace(r.s[0]) && !IsSpace(r.s[|r.s| - 1])
    ensures ApplyTransform(value, "to_string") == JStr(Str(value))
  {
    ApplyCaseTransform(value);
    ApplyTrimTransform(value);
  }

  lemma ApplyCaseTransform(value: Json)
    requires !value.JNull?
    ensures ApplyTransform(value, "lowercase") == JStr(Lower(Str(value)))
    ensures ApplyTransform(value, "uppercase") == JStr(Upper(Str(value)))
  {
  }

  lemma ApplyTrimTransform(value: Json)
    requires !value.JNull?
    ensures ApplyTransform(value, "trim") == JStr(Strip(Str(value)))
    ensures ApplyTransform(value, "to_string") == JStr(Str(value))
  {
  }
}
