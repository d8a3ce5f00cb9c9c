/**
 * The parts of ECMAScript string semantics the client relies on:
 * `String.prototype.trim` and the truthiness of (possibly absent) strings.
 */
module Text {
  import opened Types

  /** ECMAScript WhiteSpace and LineTerminator code points, the set `trim` strips. */
  predicate IsWhitespace(c: char) {
    || c == '\t' || c == '\n' || c == '\r' || c == ' '
    || c == '\U{B}' || c == '\U{C}' || c == '\U{A0}' || c == '\U{1680}'
    || ('\U{2000}' <= c <= '\U{200A}')
    || c == '\U{2028}' || c == '\U{2029}' || c == '\U{202F}' || c == '\U{205F}'
    || c == '\U{3000}' || c == '\U{FEFF}'
  }

  /** True when every character of `s` is whitespace (vacuously for ""). */
  predicate AllWhitespace(s: string) {
    forall i :: 0 <= i < |s| ==> IsWhitespace(s[i])
  }

  /** `s` without its leading whitespace. */
  function TrimStart(s: string): string {
    if |s| > 0 && IsWhitespace(s[0]) then TrimStart(s[1..]) else s
  }

  /** `s` without its trailing whitespace. */
  function TrimEnd(s: string): string {
    if |s| > 0 && IsWhitespace(s[|s| - 1]) then TrimEnd(s[..|s| - 1]) else s
  }

  /** `s.trim()`: strips whitespace from both ends. */
  function Trim(s: string): string {
    TrimEnd(TrimStart(s))
  }

  /**
   * `TrimStart` keeps the longest suffix that does not start with whitespace;
   * everything it drops is whitespace.
   */
  lemma {:induction false} TrimStartSpec(s: string)
    ensures var r := TrimStart(s);
            && |r| <= |s| && r == s[|s| - |r|..]
            && AllWhitespace(s[..|s| - |r|])
            && (r != [] ==> !IsWhitespace(r[0]))
  {
    if |s| > 0 && IsWhitespace(s[0]) {
      TrimStartSpec(s[1..]);
      var r := TrimStart(s[1..]);
      assert s[1..][|s| - 1 - |r|..] == s[|s| - |r|..];
      assert s[..|s| - |r|] == [s[0]] + s[1..][..|s| - 1 - |r|];
    } else {
      assert s[..0] == [];
    }
  }

  /**
   * `TrimEnd` keeps the longest prefix that does not end with whitespace;
   * everything it drops is whitespace.
   */
  lemma {:induction false} TrimEndSpec(s: string)
    ensures var r := TrimEnd(s);
            && |r| <= |s| && r == s[..|r|]
            && AllWhitespace(s[|r|..])
            && (r != [] ==> !IsWhitespace(r[|r| - 1]))
  {
    if |s| > 0 && IsWhitespace(s[|s| - 1]) {
      TrimEndSpec(s[..|s| - 1]);
      var r := TrimEnd(s[..|s| - 1]);
      assert s[..|s| - 1][..|r|] == s[..|r|];
      assert s[|r|..] == s[..|s| - 1][|r|..] + [s[|s| - 1]];
    } else {
      assert s[|s|..] == [];
    }
  }

  /** The trimmed text is a contiguous piece of `s` with only whitespace around it. */
  lemma TrimIsInfix(s: string)
    ensures var k, r := |s| - |TrimStart(s)|, Trim(s);
            && 0 <= k && k + |r| <= |s| && r == s[k..k + |r|]
            && AllWhitespace(s[..k]) && AllWhitespace(s[k + |r|..])
  {
    TrimStartSpec(s);
    var t := TrimStart(s);
    TrimEndSpec(t);
    var r := TrimEnd(t);
    var k := |s| - |t|;
    assert r == s[k..][..|r|];
    assert s[k..][..|r|] == s[k..k + |r|];
    assert t[|r|..] == s[k + |r|..];
  }

  /** The trimmed text neither starts nor ends with whitespace. */
  lemma TrimEndsNonWhitespace(s: string)
    ensures var r := Trim(s);
            r != [] ==> !IsWhitespace(r[0]) && !IsWhitespace(r[|r| - 1])
  {
    TrimStartSpec(s);
    var t := TrimStart(s);
    TrimEndSpec(t);
    var r := TrimEnd(t);
    assert r != [] ==> r[0] == t[0];
  }

  /** Trimming leaves nothing exactly when the text is whitespace only. */
  lemma TrimEmptyIffWhitespace(s: string)
    ensures Trim(s) == [] <==> AllWhitespace(s)
  {
    TrimStartSpec(s);
    var t := TrimStart(s);
    TrimEndSpec(t);
    if Trim(s) == [] {
      assert t == t[0..];
      assert t == [];
      assert s[..|s|] == s;
    } else {
      var r := Trim(s);
      assert r[0] == t[0] && t[0] == s[|s| - |t|];
    }
  }

  /** Trimming twice is trimming once. */
  lemma TrimIdempotent(s: string)
    ensures Trim(Trim(s)) == Trim(s)
  {
    TrimEndsNonWhitespace(s);
    var r := Trim(s);
    if r != [] {
      assert TrimStart(r) == r;
      assert TrimEnd(r) == r;
    }
  }

  /** ECMAScript truthiness of an optional string: present and non-empty. */
  predicate Truthy(o: Option<string>) {
    o.Some? && o.value != ""
  }
}
