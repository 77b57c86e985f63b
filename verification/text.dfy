/**
  String trimming as `String.prototype.trim` performs it in ECMAScript: strip
  every leading and trailing code point that is WhiteSpace or a
  LineTerminator, and keep the rest untouched.
 */
module Text {

  /** The WhiteSpace and LineTerminator code points of ECMAScript:
      TAB, VT, FF, SPACE, NBSP, ZWNBSP, the Unicode "Zs" space separators,
      LF, CR, LINE SEPARATOR and PARAGRAPH SEPARATOR. */
  predicate IsWhitespace(c: char) {
    || c == '\t' || c == '\U{000B}' || c == '\U{000C}' || c == ' '
    || c == '\U{00A0}' || c == '\U{FEFF}'
    || c == '\U{1680}' || ('\U{2000}' <= c <= '\U{200A}')
    || c == '\U{202F}' || c == '\U{205F}' || c == '\U{3000}'
    || c == '\n' || c == '\r' || c == '\U{2028}' || c == '\U{2029}'
  }

  predicate AllWhitespace(s: string) {
    forall i :: 0 <= i < |s| ==> IsWhitespace(s[i])
  }

  /** Text that neither starts nor ends with white space, so trimming leaves
      it as it is. */
  predicate Clean(s: string) {
    s != [] && !IsWhitespace(s[0]) && !IsWhitespace(s[|s| - 1])
  }

  /** `r` is the slice `s[i..j]` of `s`, everything outside the slice is white
      space, and the slice neither starts nor ends with white space. */
  ghost predicate TrimmedFrom(s: string, r: string, i: int, j: int) {
    && 0 <= i <= j <= |s|
    && r == s[i..j]
    && AllWhitespace(s[..i])
    && AllWhitespace(s[j..])
    && (r == [] || (!IsWhitespace(r[0]) && !IsWhitespace(r[|r| - 1])))
  }

  /** Drops the leading white space of `s`. */
  function TrimStart(s: string): (r: string)
    ensures |r| <= |s| && r == s[|s| - |r|..]
    ensures AllWhitespace(s[..|s| - |r|])
    ensures r == [] || !IsWhitespace(r[0])
    decreases |s|
  {
    if |s| > 0 && IsWhitespace(s[0]) then
      var r := TrimStart(s[1..]);
      assert s[..|s| - |r|] == [s[0]] + s[1..][..|s[1..]| - |r|];
      r
    else
      s
  }

  /** Drops the trailing white space of `s`. */
  function TrimEnd(s: string): (r: string)
    ensures |r| <= |s| && r == s[..|r|]
    ensures AllWhitespace(s[|r|..])
    ensures r == [] || !IsWhitespace(r[|r| - 1])
    decreases |s|
  {
    if |s| > 0 && IsWhitespace(s[|s| - 1]) then
      var r := TrimEnd(s[..|s| - 1]);
      assert s[|r|..] == s[..|s| - 1][|r|..] + [s[|s| - 1]];
      r
    else
      s
  }

  /** `String.prototype.trim`: the text between the leading and the trailing
      white space; empty exactly when the input is white space only. */
  function Trim(s: string): (r: string)
    ensures exists i, j :: TrimmedFrom(s, r, i, j)
    ensures r == [] <==> AllWhitespace(s)
  {
    var t := TrimStart(s);
    var r := TrimEnd(t);
    var i := |s| - |t|;
    assert s[i..i + |r|] == r;
    assert s[i + |r|..] == t[|r|..];
    assert TrimmedFrom(s, r, i, i + |r|);
    assert r == [] ==> s == s[..i] + t[|r|..];
    r
  }

  /** A trimmed slice is empty exactly when the whole string is white space. */
  lemma TrimmedFromEmpty(s: string, r: string, i: int, j: int)
    requires TrimmedFrom(s, r, i, j)
    ensures r == [] <==> AllWhitespace(s)
  {
  }

  /** A non-empty trimmed slice starts at the first and ends after the last
      code point of `s` that is not white space. */
  lemma TrimmedFromBounds(s: string, r: string, i: int, j: int)
    requires TrimmedFrom(s, r, i, j) && r != []
    ensures i < j && !IsWhitespace(s[i]) && !IsWhitespace(s[j - 1])
    ensures forall k :: 0 <= k < |s| && !IsWhitespace(s[k]) ==> i <= k < j
  {
  }

  /** At most one string is trimmed from `s`, so `Trim` is determined by
      `TrimmedFrom`. */
  lemma TrimmedFromUnique(s: string, r: string, i: int, j: int, r': string, i': int, j': int)
    requires TrimmedFrom(s, r, i, j)
    requires TrimmedFrom(s, r', i', j')
    ensures r == r'
  {
  }

  /** Any slice bounded by white space and free of it at both ends is the
      result of `Trim`. */
  lemma TrimCharacterised(s: string, r: string, i: int, j: int)
    requires TrimmedFrom(s, r, i, j)
    ensures Trim(s) == r
  {
    var t := Trim(s);
    var i', j' :| TrimmedFrom(s, t, i', j');
    TrimmedFromUnique(s, r, i, j, t, i', j');
  }

  /** Text that neither starts nor ends with white space trims to itself. */
  lemma TrimClean(s: string)
    requires Clean(s)
    ensures Trim(s) == s
  {
  }

  /** Trimming twice is trimming once. */
  lemma TrimIdempotent(s: string)
    ensures Trim(Trim(s)) == Trim(s)
  {
  }
}
