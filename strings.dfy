/**
 * The JavaScript string operations the dashboard relies on:
 * `startsWith`, `trim` (used only as an emptiness test), and
 * `split(sep)[1]` as it is rendered inside a template literal.
 */
module Strings {
  import opened Wrappers

  /** `s.startsWith(prefix)` */
  predicate StartsWith(s: string, prefix: string) {
    |prefix| <= |s| && s[..|prefix|] == prefix
  }

  /**
   * The code points `String.prototype.trim` strips: ECMAScript WhiteSpace
   * (TAB, VT, FF, ZWNBSP and every Zs space) and LineTerminator (LF, CR, LS, PS).
   */
  predicate IsWhitespace(c: char) {
    || c == '\t' || c == '\U{000B}' || c == '\U{000C}' || c == ' '
    || c == '\U{00A0}' || c == '\U{1680}' || ('\U{2000}' <= c <= '\U{200A}')
    || c == '\U{202F}' || c == '\U{205F}' || c == '\U{3000}' || c == '\U{FEFF}'
    || c == '\n' || c == '\r' || c == '\U{2028}' || c == '\U{2029}'
  }

  /** Every character of `s` is whitespace (the empty string included). */
  predicate IsBlank(s: string) {
    forall i | 0 <= i < |s| :: IsWhitespace(s[i])
  }

  /** `s.trimStart()`: drops the leading whitespace. */
  function TrimStart(s: string): string {
    if |s| > 0 && IsWhitespace(s[0]) then TrimStart(s[1..]) else s
  }

  /** `TrimStart` keeps a suffix of `s` that starts with a kept character, and what it drops is whitespace. */
  lemma {:induction false} TrimStartDropsBlank(s: string)
    ensures |TrimStart(s)| <= |s| && TrimStart(s) == s[|s| - |TrimStart(s)|..]
    ensures TrimStart(s) == "" || !IsWhitespace(TrimStart(s)[0])
    ensures IsBlank(s[..|s| - |TrimStart(s)|])
    decreases |s|
  {
    if |s| > 0 && IsWhitespace(s[0]) {
      TrimStartDropsBlank(s[1..]);
      var r := TrimStart(s[1..]);
      assert s[..|s| - |r|] == [s[0]] + s[1..][..|s[1..]| - |r|];
    }
  }

  /** `s.trimEnd()`: drops the trailing whitespace. */
  function TrimEnd(s: string): string {
    if |s| > 0 && IsWhitespace(s[|s| - 1]) then TrimEnd(s[..|s| - 1]) else s
  }

  /** `TrimEnd` keeps a prefix of `s` that ends with a kept character, and what it drops is whitespace. */
  lemma {:induction false} TrimEndDropsBlank(s: string)
    ensures |TrimEnd(s)| <= |s| && TrimEnd(s) == s[..|TrimEnd(s)|]
    ensures TrimEnd(s) == "" || !IsWhitespace(TrimEnd(s)[|TrimEnd(s)| - 1])
    ensures IsBlank(s[|TrimEnd(s)|..])
    decreases |s|
  {
    if |s| > 0 && IsWhitespace(s[|s| - 1]) {
      TrimEndDropsBlank(s[..|s| - 1]);
      var r := TrimEnd(s[..|s| - 1]);
      assert s[|r|..] == s[..|s| - 1][|r|..] + [s[|s| - 1]];
    }
  }

  /** `s.trim()`: what is left neither starts nor ends with whitespace. */
  function Trim(s: string): (r: string)
    ensures |r| <= |s|
    ensures r == "" || (!IsWhitespace(r[0]) && !IsWhitespace(r[|r| - 1]))
  {
    TrimStartDropsBlank(s);
    TrimEndDropsBlank(TrimStart(s));
    TrimEnd(TrimStart(s))
  }

  /** `trim` removes whitespace at the two ends only: the result is a slice of `s` with blank text on both sides. */
  lemma TrimDropsOnlyOuterWhitespace(s: string)
    ensures exists i | 0 <= i <= |s| - |Trim(s)| ::
              Trim(s) == s[i..i + |Trim(s)|] && IsBlank(s[..i]) && IsBlank(s[i + |Trim(s)|..])
  {
    var t := TrimStart(s);
    var r := TrimEnd(t);
    var i := |s| - |t|;
    TrimStartDropsBlank(s);
    TrimEndDropsBlank(t);
    assert r == s[i..i + |r|];
    assert s[i + |r|..] == t[|r|..];
  }

  /** Nothing is left of `s` by `TrimStart` exactly when `s` is all whitespace. */
  lemma TrimStartEmptyIffBlank(s: string)
    ensures TrimStart(s) == "" <==> IsBlank(s)
    ensures TrimStart(s) != "" ==> !IsWhitespace(TrimStart(s)[0])
  {
    var r := TrimStart(s);
    TrimStartDropsBlank(s);
    if r == "" {
      assert s[..|s| - |r|] == s;
    } else {
      assert r[0] == s[|s| - |r|];
    }
  }

  /** Nothing is left of `s` by `TrimEnd` exactly when `s` is all whitespace. */
  lemma TrimEndEmptyIffBlank(s: string)
    ensures TrimEnd(s) == "" <==> IsBlank(s)
  {
    var r := TrimEnd(s);
    TrimEndDropsBlank(s);
    if r == "" {
      assert s[|r|..] == s;
    } else {
      assert r[|r| - 1] == s[|r| - 1];
    }
  }

  /** `!s.trim()` holds exactly for the strings made only of whitespace. */
  lemma BlankIffTrimEmpty(s: string)
    ensures Trim(s) == "" <==> IsBlank(s)
  {
    TrimStartEmptyIffBlank(s);
    TrimEndEmptyIffBlank(TrimStart(s));
    var t := TrimStart(s);
    if t != "" {
      assert !IsWhitespace(t[0]);
      assert !IsBlank(t);
    }
  }

  /** `s.split(sep)`: the pieces between separators, in order; never empty. */
  function Split(s: string, sep: char): (parts: seq<string>)
    ensures |parts| >= 1
    decreases |s|
  {
    if |s| == 0 then [""]
    else
      var rest := Split(s[1..], sep);
      if s[0] == sep then [""] + rest
      else [[s[0]] + rest[0]] + rest[1..]
  }

  /** `parts.join(sep)` */
  function Join(parts: seq<string>, sep: char): string
    decreases |parts|
  {
    if |parts| == 0 then ""
    else if |parts| == 1 then parts[0]
    else parts[0] + [sep] + Join(parts[1..], sep)
  }

  /** Splitting loses nothing: joining the pieces gives back the string, and no piece holds the separator. */
  lemma {:induction false} SplitJoin(s: string, sep: char)
    ensures Join(Split(s, sep), sep) == s
    ensures forall i | 0 <= i < |Split(s, sep)| :: sep !in Split(s, sep)[i]
    decreases |s|
  {
    if |s| > 0 {
      var rest := Split(s[1..], sep);
      SplitJoin(s[1..], sep);
      if s[0] == sep {
        assert Split(s, sep) == [""] + rest;
        assert ([""] + rest)[1..] == rest;
        assert s == [sep] + s[1..];
      } else {
        var parts := Split(s, sep);
        assert parts == [[s[0]] + rest[0]] + rest[1..];
        if |rest| == 1 {
          assert s == [s[0]] + s[1..];
        } else {
          assert parts[1..] == rest[1..];
          assert Join(rest, sep) == rest[0] + [sep] + Join(rest[1..], sep);
          assert s == [s[0]] + s[1..];
        }
        forall i | 0 <= i < |parts| ensures sep !in parts[i] {
          if i > 0 { assert parts[i] == rest[i]; }
        }
      }
    }
  }

  lemma {:induction false} SplitWithoutSeparator(s: string, sep: char)
    requires sep !in s
    ensures Split(s, sep) == [s]
    decreases |s|
  {
    if |s| > 0 {
      SplitWithoutSeparator(s[1..], sep);
      assert s == [s[0]] + s[1..];
    }
  }

  /** A separator-free head comes off as the first piece. */
  lemma {:induction false} SplitAtFirst(a: string, b: string, sep: char)
    requires sep !in a
    ensures Split(a + [sep] + b, sep) == [a] + Split(b, sep)
    decreases |a|
  {
    var s := a + [sep] + b;
    if |a| == 0 {
      assert s == [sep] + b;
      assert s[1..] == b;
    } else {
      SplitAtFirst(a[1..], b, sep);
      assert s[1..] == a[1..] + [sep] + b;
      assert a == [a[0]] + a[1..];
    }
  }

  lemma {:induction false} SplitHasTwoPiecesWithSeparator(s: string, sep: char)
    requires sep in s
    ensures |Split(s, sep)| >= 2
    decreases |s|
  {
    if s[0] != sep {
      assert sep in s[1..] by {
        var k :| 0 <= k < |s| && s[k] == sep;
        assert s[1..][k - 1] == sep;
      }
      SplitHasTwoPiecesWithSeparator(s[1..], sep);
    }
  }

  /** `s.split("/")[1]`, which is `undefined` when `s` holds no '/'. */
  function SecondSegment(s: string): (seg: Option<string>)
    ensures seg.Some? ==> '/' in s && '/' !in seg.value
  {
    SplitJoin(s, '/');
    assert '/' !in s ==> |Split(s, '/')| == 1 by {
      if '/' !in s { SplitWithoutSeparator(s, '/'); }
    }
    var parts := Split(s, '/');
    if |parts| >= 2 then Some(parts[1]) else None
  }

  /** The second segment is missing exactly when there is no '/'. */
  lemma SecondSegmentMissingIffNoSlash(s: string)
    ensures SecondSegment(s) == None <==> '/' !in s
  {
    if '/' in s {
      SplitHasTwoPiecesWithSeparator(s, '/');
    } else {
      SplitWithoutSeparator(s, '/');
    }
  }

  /**
   * For `type/subtype` followed by nothing or by further '/'-pieces, the
   * second segment is `subtype`.
   */
  lemma SecondSegmentOfMime(top: string, sub: string, rest: string)
    requires '/' !in top && '/' !in sub
    requires rest == "" || rest[0] == '/'
    ensures SecondSegment(top + "/" + sub + rest) == Some(sub)
  {
    var s := top + "/" + sub + rest;
    assert s == top + ['/'] + (sub + rest);
    SplitAtFirst(top, sub + rest, '/');
    if rest == "" {
      assert sub + rest == sub;
      SplitWithoutSeparator(sub, '/');
    } else {
      assert sub + rest == sub + ['/'] + rest[1..];
      SplitAtFirst(sub, rest[1..], '/');
    }
  }

  /** A value as a template literal renders it: `undefined` for a missing one. */
  function Render(o: Option<string>): string {
    match o
    case Some(v) => v
    case None => "undefined"
  }
}
