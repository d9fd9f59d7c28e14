/** Python's `str()` of a parsed JSON value: the value itself for a string,
    and the `repr` form (`None`, `True`, `[1, 'a']`, `{'k': 2}`) otherwise. */
module PyRepr {
  import opened Wrappers
  import opened JsonModel
  import opened Strings

  // ---------------------------------------------------------------------------
  // repr of a string
  // ---------------------------------------------------------------------------

  function HexDigit(d: nat): char
    requires d < 16
  {
    if d < 10 then DigitChar(d) else ('a' as int + d - 10) as char
  }

  predicate IsHex(c: char) { IsDigit(c) || 'a' <= c <= 'f' }

  function HexValue(c: char): nat
    requires IsHex(c)
  {
    if IsDigit(c) then DigitValue(c) else c as int - 'a' as int + 10
  }

  lemma HexRoundTrip(d: nat)
    requires d < 16
    ensures IsHex(HexDigit(d)) && HexValue(HexDigit(d)) == d
  {
  }

  /** The quote `repr` picks: a double quote only when the text holds a
      single quote and no double quote. */
  function QuoteFor(s: string): char {
    if '\'' in s && '"' !in s then '"' else '\''
  }

  predicate IsQuote(q: char) { q == '\'' || q == '"' }

  /** Characters `repr` writes as `\xhh`: the C0 controls, DEL, the C1
      controls, the no-break space and the soft hyphen. */
  predicate HexEscaped(c: char) {
    var n := c as int;
    n < 0x20 || 0x7F <= n <= 0xA0 || n == 0xAD
  }

  /** How `repr` writes one character inside quotes `q`. */
  function EscapeChar(c: char, q: char): string {
    if c == q || c == '\\' then ['\\', c]
    else if c == '\t' then "\\t"
    else if c == '\n' then "\\n"
    else if c == '\r' then "\\r"
    else if HexEscaped(c) then "\\x" + [HexDigit(c as int / 16), HexDigit(c as int % 16)]
    else [c]
  }

  function EscapeAll(s: string, q: char): string {
    if s == [] then [] else EscapeChar(s[0], q) + EscapeAll(s[1..], q)
  }

  /** `repr(s)`. */
  function StrRepr(s: string): (r: string)
    ensures |r| >= |s| + 2
    ensures r[0] == r[|r| - 1] == QuoteFor(s)
  {
    EscapeAllLength(s, QuoteFor(s));
    [QuoteFor(s)] + EscapeAll(s, QuoteFor(s)) + [QuoteFor(s)]
  }

  lemma {:induction false} EscapeAllLength(s: string, q: char)
    ensures |EscapeAll(s, q)| >= |s|
  {
    if s != [] {
      EscapeAllLength(s[1..], q);
    }
  }

  // ---------------------------------------------------------------------------
  // Reading a string literal back, as Python's parser does for the escapes
  // above.
  // ---------------------------------------------------------------------------

  function Unescape(t: string): string
    decreases |t|
  {
    if t == [] then []
    else if t[0] == '\\' && |t| >= 2 then
      if t[1] == 't' then ['\t'] + Unescape(t[2..])
      else if t[1] == 'n' then ['\n'] + Unescape(t[2..])
      else if t[1] == 'r' then ['\r'] + Unescape(t[2..])
      else if t[1] == 'x' && |t| >= 4 && IsHex(t[2]) && IsHex(t[3]) then
        [(16 * HexValue(t[2]) + HexValue(t[3])) as char] + Unescape(t[4..])
      else [t[1]] + Unescape(t[2..])
    else [t[0]] + Unescape(t[1..])
  }

  /** The text between the quotes of a quoted literal, decoded. */
  function ReadStrLiteral(t: string): Option<string> {
    if |t| >= 2 && IsQuote(t[0]) && t[|t| - 1] == t[0] then Some(Unescape(t[1..|t| - 1]))
    else None
  }

  lemma UnescapeChar(c: char, q: char, rest: string)
    requires IsQuote(q)
    ensures Unescape(EscapeChar(c, q) + rest) == [c] + Unescape(rest)
  {
    var t := EscapeChar(c, q) + rest;
    if c == q || c == '\\' {
      assert t[2..] == rest;
    } else if c == '\t' || c == '\n' || c == '\r' {
      assert t[2..] == rest;
    } else if HexEscaped(c) {
      var n := c as int;
      HexRoundTrip(n / 16);
      HexRoundTrip(n % 16);
      assert t[4..] == rest;
      assert (16 * HexValue(t[2]) + HexValue(t[3])) as char == c;
    } else {
      assert t[1..] == rest;
    }
  }

  lemma {:induction false} UnescapeEscapeAll(s: string, q: char)
    requires IsQuote(q)
    ensures Unescape(EscapeAll(s, q)) == s
  {
    if s != [] {
      UnescapeEscapeAll(s[1..], q);
      UnescapeChar(s[0], q, EscapeAll(s[1..], q));
    }
  }

  /** `repr` of a string reads back as the same string. */
  lemma StrReprRoundTrip(s: string)
    ensures ReadStrLiteral(StrRepr(s)) == Some(s)
  {
    var q := QuoteFor(s);
    var r := StrRepr(s);
    assert r[1..|r| - 1] == EscapeAll(s, q);
    UnescapeEscapeAll(s, q);
  }

  // ---------------------------------------------------------------------------
  // repr and str of a JSON value
  // ---------------------------------------------------------------------------

  function BoolRepr(b: bool): string {
    if b then "True" else "False"
  }

  function Repr(j: Json): string
    decreases Size(j), 1
  {
    match j
    case JNull => "None"
    case JBool(b) => BoolRepr(b)
    case JInt(n) => IntToString(n)
    case JStr(s) => StrRepr(s)
    case JArr(a) => "[" + ReprElems(a) + "]"
    case JObj(fs) => "{" + ReprFields(fs) + "}"
  }

  /** The elements of a list, separated by `, `. */
  function ReprElems(a: seq<Json>): string
    decreases SizeElems(a), 2
  {
    if a == [] then ""
    else if |a| == 1 then Repr(a[0])
    else
      assert Size(a[0]) >= 1;
      Repr(a[0]) + ", " + ReprElems(a[1..])
  }

  /** The members of a dict as `key: value`, separated by `, `. */
  function ReprFields(fs: seq<(string, Json)>): string
    decreases SizeFields(fs), 2
  {
    if fs == [] then ""
    else
      SizeFieldsCons(fs);
      var member := StrRepr(fs[0].0) + ": " + Repr(fs[0].1);
      if |fs| == 1 then member else member + ", " + ReprFields(fs[1..])
  }

  /** `str(value)`. */
  function Str(j: Json): string {
    if j.JStr? then j.s else Repr(j)
  }

  /** The printed form of a container is bracketed, so it never reads as a
      bare number; a string's is quoted. */
  lemma ReprShape(j: Json)
    ensures j.JArr? ==> Repr(j)[0] == '[' && Repr(j)[|Repr(j)| - 1] == ']'
    ensures j.JObj? ==> Repr(j)[0] == '{' && Repr(j)[|Repr(j)| - 1] == '}'
    ensures j.JStr? ==> ReadStrLiteral(Repr(j)) == Some(j.s)
  {
    if j.JStr? {
      StrReprRoundTrip(j.s);
    }
  }
}
