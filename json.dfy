/**
 * What `JSON.parse` accepts: the JSON-text grammar of section 2 of RFC 8259
 * (the same grammar as ECMA-404), as a recogniser. Each function reads the
 * text from position `i` and answers the position just after what it
 * recognised, or None when the grammar rejects it.
 */
module Json {
  import opened Wrappers
  import Strings

  /** JSON insignificant whitespace: space, horizontal tab, line feed, carriage return. */
  predicate IsWs(c: char) {
    c == ' ' || c == '\t' || c == '\n' || c == '\r'
  }

  predicate IsDigit(c: char) {
    '0' <= c <= '9'
  }

  predicate IsHexDigit(c: char) {
    IsDigit(c) || 'a' <= c <= 'f' || 'A' <= c <= 'F'
  }

  /** The characters a JSON value can begin with. */
  predicate StartsValue(c: char) {
    c == '{' || c == '[' || c == '"' || c == 't' || c == 'f' || c == 'n' || c == '-' || IsDigit(c)
  }

  function SkipWs(s: string, i: nat): (j: nat)
    requires i <= |s|
    ensures i <= j <= |s|
    ensures forall k | i <= k < j :: IsWs(s[k])
    ensures j < |s| ==> !IsWs(s[j])
    decreases |s| - i
  {
    if i < |s| && IsWs(s[i]) then SkipWs(s, i + 1) else i
  }

  function SkipDigits(s: string, i: nat): (j: nat)
    requires i <= |s|
    ensures i <= j <= |s|
    ensures forall k | i <= k < j :: IsDigit(s[k])
    ensures j < |s| ==> !IsDigit(s[j])
    decreases |s| - i
  {
    if i < |s| && IsDigit(s[i]) then SkipDigits(s, i + 1) else i
  }

  /** `true`, `false` or `null`. */
  function Literal(s: string, i: nat, word: string): (r: Option<nat>)
    requires i <= |s| && |word| > 0
    ensures r.Some? ==> i < r.value <= |s| && s[i..r.value] == word
  {
    if i + |word| <= |s| && s[i..i + |word|] == word then Some(i + |word|) else None
  }

  /** number = [ minus ] int [ frac ] [ exp ] */
  function Number(s: string, i: nat): (r: Option<nat>)
    requires i <= |s|
    ensures r.Some? ==> i < r.value <= |s|
  {
    var a := if i < |s| && s[i] == '-' then i + 1 else i;
    if a >= |s| then None
    else if s[a] == '0' then FracExp(s, a + 1)
    else if '1' <= s[a] <= '9' then FracExp(s, SkipDigits(s, a + 1))
    else None
  }

  /** [ frac ] [ exp ], where frac = "." 1*DIGIT and exp = ("e"/"E") [ "-"/"+" ] 1*DIGIT */
  function FracExp(s: string, j: nat): (r: Option<nat>)
    requires j <= |s|
    ensures r.Some? ==> j <= r.value <= |s|
  {
    var f :=
      if j < |s| && s[j] == '.' then
        var d := SkipDigits(s, j + 1);
        if d == j + 1 then None else Some(d)
      else Some(j);
    match f
    case None => None
    case Some(f) =>
      if f < |s| && (s[f] == 'e' || s[f] == 'E') then
        var g := if f + 1 < |s| && (s[f + 1] == '+' || s[f + 1] == '-') then f + 2 else f + 1;
        var d := SkipDigits(s, g);
        if d == g then None else Some(d)
      else Some(f)
  }

  /**
   * The characters of a string after its opening quotation mark, up to and
   * including the closing one. Control characters (below U+0020) must be
   * escaped; an escape is one of \" \\ \/ \b \f \n \r \t or \u and four hex digits.
   */
  function StringBody(s: string, i: nat): (r: Option<nat>)
    requires i <= |s|
    ensures r.Some? ==> i < r.value <= |s|
    decreases |s| - i
  {
    if i >= |s| then None
    else if s[i] == '"' then Some(i + 1)
    else if s[i] == '\\' then
      if i + 1 >= |s| then None
      else if s[i + 1] in "\"\\/bfnrt" then StringBody(s, i + 2)
      else if s[i + 1] == 'u' && i + 6 <= |s|
              && IsHexDigit(s[i + 2]) && IsHexDigit(s[i + 3])
              && IsHexDigit(s[i + 4]) && IsHexDigit(s[i + 5]) then StringBody(s, i + 6)
      else None
    else if s[i] < ' ' then None
    else StringBody(s, i + 1)
  }

  /** value = false / null / true / object / array / number / string */
  function Value(s: string, i: nat): (r: Option<nat>)
    requires i <= |s|
    ensures r.Some? ==> i < r.value <= |s| && StartsValue(s[i])
    decreases |s| - i, 0
  {
    if i >= |s| then None
    else if s[i] == '{' then Object(s, i + 1)
    else if s[i] == '[' then Array(s, i + 1)
    else if s[i] == '"' then StringBody(s, i + 1)
    else if s[i] == 't' then Literal(s, i, "true")
    else if s[i] == 'f' then Literal(s, i, "false")
    else if s[i] == 'n' then Literal(s, i, "null")
    else if s[i] == '-' || IsDigit(s[i]) then Number(s, i)
    else None
  }

  /** After "[": ws, then "]" or a list of elements. */
  function Array(s: string, i: nat): (r: Option<nat>)
    requires i <= |s|
    ensures r.Some? ==> i < r.value <= |s|
    decreases |s| - i, 2
  {
    var j := SkipWs(s, i);
    if j < |s| && s[j] == ']' then Some(j + 1) else Elements(s, j)
  }

  /** value ws ( "," ws Elements / "]" ) */
  function Elements(s: string, i: nat): (r: Option<nat>)
    requires i <= |s|
    ensures r.Some? ==> i < r.value <= |s|
    decreases |s| - i, 1
  {
    match Value(s, i)
    case None => None
    case Some(e) =>
      var j := SkipWs(s, e);
      if j < |s| && s[j] == ',' then Elements(s, SkipWs(s, j + 1))
      else if j < |s| && s[j] == ']' then Some(j + 1)
      else None
  }

  /** After "{": ws, then "}" or a list of members. */
  function Object(s: string, i: nat): (r: Option<nat>)
    requires i <= |s|
    ensures r.Some? ==> i < r.value <= |s|
    decreases |s| - i, 2
  {
    var j := SkipWs(s, i);
    if j < |s| && s[j] == '}' then Some(j + 1) else Members(s, j)
  }

  /** string ws ":" ws value ws ( "," ws Members / "}" ) */
  function Members(s: string, i: nat): (r: Option<nat>)
    requires i <= |s|
    ensures r.Some? ==> i < r.value <= |s|
    decreases |s| - i, 1
  {
    if i < |s| && s[i] == '"' then
      match StringBody(s, i + 1)
      case None => None
      case Some(k) =>
        var j := SkipWs(s, k);
        if j < |s| && s[j] == ':' then
          match Value(s, SkipWs(s, j + 1))
          case None => None
          case Some(e) =>
            var m := SkipWs(s, e);
            if m < |s| && s[m] == ',' then Members(s, SkipWs(s, m + 1))
            else if m < |s| && s[m] == '}' then Some(m + 1)
            else None
        else None
    else None
  }

  /** JSON-text = ws value ws: `JSON.parse(s)` does not throw. */
  predicate IsJson(s: string) {
    var i := SkipWs(s, 0);
    match Value(s, i)
    case None => false
    case Some(e) => SkipWs(s, e) == |s|
  }

  /** Every JSON text holds a character `trim` does not strip. */
  lemma JsonIsNotBlank(s: string)
    requires IsJson(s)
    ensures !Strings.IsBlank(s)
  {
    var i := SkipWs(s, 0);
    assert Value(s, i).Some?;
    assert StartsValue(s[i]);
    assert !Strings.IsWhitespace(s[i]);
  }

  /** `JSON.parse('{"a":1}')` succeeds. */
  lemma SmallObjectIsJson()
    ensures IsJson("{\"a\":1}")
  {
    var s := "{\"a\":1}";
    assert SkipWs(s, 0) == 0;
    assert StringBody(s, 3) == Some(4);
    assert StringBody(s, 2) == Some(4);
    assert SkipWs(s, 4) == 4;
    assert SkipWs(s, 5) == 5;
    assert SkipDigits(s, 6) == 6;
    assert FracExp(s, 6) == Some(6);
    assert Number(s, 5) == Some(6);
    assert Value(s, 5) == Some(6);
    assert SkipWs(s, 6) == 6;
    assert Members(s, 1) == Some(7);
    assert SkipWs(s, 1) == 1;
    assert Object(s, 1) == Some(7);
    assert Value(s, 0) == Some(7);
    assert SkipWs(s, 7) == 7;
  }

  /** `JSON.parse('{bad')` throws. */
  lemma UnquotedKeyIsNotJson()
    ensures !IsJson("{bad")
  {
    var s := "{bad";
    assert SkipWs(s, 0) == 0;
    assert SkipWs(s, 1) == 1;
    assert Members(s, 1) == None;
    assert Value(s, 0) == None;
  }

  /** `JSON.parse("")` and `JSON.parse("  ")` throw: there is no value. */
  lemma WhitespaceOnlyIsNotJson(s: string)
    requires forall k | 0 <= k < |s| :: IsWs(s[k])
    ensures !IsJson(s)
  {
    assert SkipWs(s, 0) == |s|;
  }
}
