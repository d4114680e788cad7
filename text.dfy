/** The part of JavaScript string handling the data layer relies on:
    `String.prototype.trim` and the truthiness of a string. */
module Text {

  /** The characters `trim` removes: the WhiteSpace and LineTerminator code points of
      ECMAScript (tab, vertical tab, form feed, space, no-break space, byte order mark,
      the Unicode space separators, line feed, carriage return, line and paragraph separators). */
  predicate IsWhitespace(c: char) {
    || c == '\t' || c == '\n' || c == '\U{000B}' || c == '\U{000C}' || c == '\r'
    || c == ' ' || c == '\U{00A0}' || c == '\U{1680}'
    || ('\U{2000}' <= c <= '\U{200A}')
    || c == '\U{2028}' || c == '\U{2029}' || c == '\U{202F}' || c == '\U{205F}'
    || c == '\U{3000}' || c == '\U{FEFF}'
  }

  /** A string made of whitespace only (the empty string included). */
  predicate IsBlank(s: string) {
    forall i :: 0 <= i < |s| ==> IsWhitespace(s[i])
  }

  /** Drops the leading whitespace. */
  function TrimStart(s: string): (r: string)
    ensures |r| <= |s| && r == s[|s| - |r|..]
    ensures IsBlank(s[..|s| - |r|])
    ensures r == [] || !IsWhitespace(r[0])
  {
    if s == [] || !IsWhitespace(s[0]) then s
    else
      var r := TrimStart(s[1..]);
      assert s[1..][..|s| - 1 - |r|] == s[1..|s| - |r|];
      r
  }

  /** Drops the trailing whitespace. */
  function TrimEnd(s: string): (r: string)
    ensures |r| <= |s| && r == s[..|r|]
    ensures IsBlank(s[|r|..])
    ensures r == [] || !IsWhitespace(r[|r| - 1])
  {
    if s == [] || !IsWhitespace(s[|s| - 1]) then s
    else
      var r := TrimEnd(s[..|s| - 1]);
      assert s[..|s| - 1][|r|..] == s[|r|..|s| - 1];
      r
  }

  /** `s.trim()`: the longest slice of `s` that neither starts nor ends with whitespace,
      obtained by cutting whitespace only. */
  function Trim(s: string): (r: string)
    ensures exists i, j :: 0 <= i <= j <= |s| && r == s[i..j] && IsBlank(s[..i]) && IsBlank(s[j..])
    ensures r == [] || (!IsWhitespace(r[0]) && !IsWhitespace(r[|r| - 1]))
  {
    var t := TrimStart(s);
    var r := TrimEnd(t);
    var i, j := |s| - |t|, |s| - |t| + |r|;
    assert r == s[i..j];
    assert s[j..] == t[|r|..];
    r
  }

  /** `!s.trim()`: trimming yields the empty (falsy) string exactly when `s` is blank. */
  lemma TrimEmptyIffBlank(s: string)
    ensures Trim(s) == [] <==> IsBlank(s)
  {
    var r := Trim(s);
    var i, j :| 0 <= i <= j <= |s| && r == s[i..j] && IsBlank(s[..i]) && IsBlank(s[j..]);
    if r == [] {
      assert i == j;
      forall k | 0 <= k < |s| ensures IsWhitespace(s[k]) {
        if k < i { assert s[..i][k] == s[k]; } else { assert s[j..][k - j] == s[k]; }
      }
    } else {
      var c := r[0];
      assert !IsWhitespace(c);
      assert s[i] == c;
    }
  }

  /** Trimming twice is trimming once. */
  lemma TrimIdempotent(s: string)
    ensures Trim(Trim(s)) == Trim(s)
  {
    var t := Trim(s);
    if t != [] {
      var i, j :| 0 <= i <= j <= |t| && Trim(t) == t[i..j] && IsBlank(t[..i]) && IsBlank(t[j..]);
      if i > 0 { assert t[..i][0] == t[0]; }
      if j < |t| { assert t[j..][|t| - 1 - j] == t[|t| - 1]; }
    } else {
      TrimEmptyIffBlank(t);
    }
  }

  /** `pattern` occurs in `s` starting at index `i`. */
  predicate OccursAt(pattern: string, s: string, i: int) {
    0 <= i && i + |pattern| <= |s| && s[i..i + |pattern|] == pattern
  }

  /** `pattern` occurs somewhere in `s` (`s.includes(pattern)`). */
  predicate Occurs(pattern: string, s: string) {
    exists i :: 0 <= i <= |s| && OccursAt(pattern, s, i)
  }

  lemma OccursAtFront(pattern: string, rest: string)
    ensures OccursAt(pattern, pattern + rest, 0)
  {
    assert (pattern + rest)[..|pattern|] == pattern;
  }

  /** An occurrence stays one, shifted, when text is put in front. */
  lemma OccursAfter(front: string, pattern: string, s: string, i: int)
    requires OccursAt(pattern, s, i)
    ensures OccursAt(pattern, front + s, |front| + i)
  {
    assert (front + s)[|front| + i..|front| + i + |pattern|] == s[i..i + |pattern|];
  }

  /** An occurrence stays one when text is put after it. */
  lemma OccursBefore(pattern: string, s: string, i: int, back: string)
    requires OccursAt(pattern, s, i)
    ensures OccursAt(pattern, s + back, i)
  {
    assert (s + back)[i..i + |pattern|] == s[i..i + |pattern|];
  }
}
