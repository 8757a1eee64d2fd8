/**
 * The JavaScript string operations the study components rely on, over
 * `seq<char>`: `toLowerCase` (ASCII letters only), `trim`, `includes`,
 * `startsWith`, `endsWith`, and the regular-expression classes `\s` and `\w`.
 */
module Text {

  /** The white-space class of JavaScript: the set `\s` matches and `trim` removes. */
  predicate IsWhitespace(c: char) {
    || c == ' ' || c == '\t' || c == '\n' || c == '\U{000B}' || c == '\U{000C}' || c == '\r'
    || c == '\U{00A0}' || c == '\U{1680}' || ('\U{2000}' <= c <= '\U{200A}')
    || c == '\U{2028}' || c == '\U{2029}' || c == '\U{202F}' || c == '\U{205F}'
    || c == '\U{3000}' || c == '\U{FEFF}'
  }

  /** The word-character class `\w` of a JavaScript regular expression without the `u` flag. */
  predicate IsWordChar(c: char) {
    ('a' <= c <= 'z') || ('A' <= c <= 'Z') || ('0' <= c <= '9') || c == '_'
  }

  /** `toLowerCase` on one character: an ASCII capital becomes its small letter, 32 code points on; every other character is kept. */
  function LowerChar(c: char): (r: char)
    ensures !('A' <= r <= 'Z')
    ensures 'A' <= c <= 'Z' ==> 'a' <= r <= 'z' && r as int - c as int == 'a' as int - 'A' as int
    ensures !('A' <= c <= 'Z') ==> r == c
    ensures IsWordChar(c) <==> IsWordChar(r)
    ensures IsWhitespace(c) <==> IsWhitespace(r)
  {
    if 'A' <= c <= 'Z' then (c as int + 32) as char else c
  }

  /** `s.toLowerCase()`, restricted to the ASCII letters. */
  function ToLower(s: string): (r: string)
    ensures |r| == |s|
    ensures forall i :: 0 <= i < |s| ==> r[i] == LowerChar(s[i])
  {
    seq(|s|, i requires 0 <= i < |s| => LowerChar(s[i]))
  }

  /** The index of the first character at or after `i` that is not white space, or `|s|`. */
  function SkipForward(s: string, i: nat): (k: nat)
    requires i <= |s|
    ensures i <= k <= |s| && (k == |s| || !IsWhitespace(s[k]))
    ensures forall j :: i <= j < k ==> IsWhitespace(s[j])
    decreases |s| - i
  {
    if i < |s| && IsWhitespace(s[i]) then SkipForward(s, i + 1) else i
  }

  /** The index just past the last character in `s[lo..e]` that is not white space, or `lo`. */
  function SkipBackward(s: string, lo: nat, e: nat): (k: nat)
    requires lo <= e <= |s|
    ensures lo <= k <= e && (k == lo || !IsWhitespace(s[k - 1]))
    ensures forall j :: k <= j < e ==> IsWhitespace(s[j])
    decreases e
  {
    if e > lo && IsWhitespace(s[e - 1]) then SkipBackward(s, lo, e - 1) else e
  }

  /**
   * Drops the leading white space: what remains is a suffix of `s` that does
   * not start with white space, and every character cut is white space.
   */
  function TrimStart(s: string): (r: string)
    ensures |r| <= |s| && r == s[|s| - |r|..]
    ensures r == [] || !IsWhitespace(r[0])
    ensures forall j :: 0 <= j < |s| - |r| ==> IsWhitespace(s[j])
  {
    s[SkipForward(s, 0)..]
  }

  predicate NoEdgeWhitespace(s: string) {
    s == [] || (!IsWhitespace(s[0]) && !IsWhitespace(s[|s| - 1]))
  }

  /**
   * `s.trim()`: the longest slice of `s` without white space at either end.
   * It starts at the first character that is not white space, and every
   * character outside it is white space.
   */
  function Trim(s: string): (r: string)
    ensures NoEdgeWhitespace(r)
    ensures |r| <= |s|
    ensures var k := SkipForward(s, 0); k + |r| <= |s| && r == s[k..k + |r|]
    ensures var k := SkipForward(s, 0);
            forall j :: 0 <= j < |s| && !(k <= j < k + |r|) ==> IsWhitespace(s[j])
  {
    var lo := SkipForward(s, 0);
    var hi := SkipBackward(s, lo, |s|);
    assert NoEdgeWhitespace(s[lo..hi]) by {
      if lo < hi {
        assert s[lo..hi][0] == s[lo] && s[lo..hi][hi - lo - 1] == s[hi - 1];
      }
    }
    assert forall j :: 0 <= j < |s| && !(lo <= j < hi) ==> IsWhitespace(s[j]);
    s[lo..hi]
  }

  /** Start-trimming text that starts with white space is start-trimming the rest. */
  lemma TrimStartSkips(s: string)
    requires s != [] && IsWhitespace(s[0])
    ensures TrimStart(s) == TrimStart(s[1..])
  {
    var t := TrimStart(s[1..]);
    var k := 1 + (|s| - 1 - |t|);
    forall j | 0 <= j < k ensures IsWhitespace(s[j]) {
      if j > 0 { assert s[j] == s[1..][j - 1]; }
    }
    assert k == |s| || s[k] == t[0];
    assert s[k..] == t;
    TrimStartUnique(s, k);
  }

  /** The start-trimmed suffix is the only suffix that begins after white space and does not begin with white space. */
  lemma TrimStartUnique(s: string, k: nat)
    requires k <= |s| && (k == |s| || !IsWhitespace(s[k]))
    requires forall j :: 0 <= j < k ==> IsWhitespace(s[j])
    ensures TrimStart(s) == s[k..]
  {
    var m := SkipForward(s, 0);
    assert m == k;
  }

  /** `p` occurs in `s` starting at index `i`. */
  predicate OccursAt(s: string, p: string, i: int) {
    0 <= i <= |s| - |p| && s[i..i + |p|] == p
  }

  /** `s.includes(p)`: `p` occurs in `s` as a contiguous substring. */
  predicate Includes(s: string, p: string) {
    exists i | 0 <= i <= |s| - |p| :: OccursAt(s, p, i)
  }

  /** `s.startsWith(p)`. */
  predicate StartsWith(s: string, p: string) {
    |p| <= |s| && s[..|p|] == p
  }

  /** `s.endsWith(p)`. */
  predicate EndsWith(s: string, p: string) {
    |p| <= |s| && s[|s| - |p|..] == p
  }

  /** Every string includes the empty string and itself. */
  lemma IncludesEmptyAndSelf(s: string)
    ensures Includes(s, "") && Includes(s, s)
  {
    assert OccursAt(s, "", 0);
    assert OccursAt(s, s, 0);
  }

  /** A slice of `s` is included in `s`. */
  lemma SliceIncluded(s: string, i: nat, j: nat)
    requires i <= j <= |s|
    ensures Includes(s, s[i..j])
  {
    assert OccursAt(s, s[i..j], i);
  }

  /** Inclusion is transitive: a substring of a substring is a substring. */
  lemma IncludesTransitive(s: string, m: string, p: string)
    requires Includes(s, m) && Includes(m, p)
    ensures Includes(s, p)
  {
    var i :| 0 <= i <= |s| - |m| && OccursAt(s, m, i);
    var j :| 0 <= j <= |m| - |p| && OccursAt(m, p, j);
    forall k | 0 <= k < |p| ensures s[i + j + k] == p[k] {
      assert p[k] == m[j + k] == s[i + j + k];
    }
    assert s[i + j..i + j + |p|] == p;
    assert OccursAt(s, p, i + j);
  }

  /** The trimmed string is a substring of the original. */
  lemma TrimIncluded(s: string)
    ensures Includes(s, Trim(s))
  {
    var lo := SkipForward(s, 0);
    SliceIncluded(s, lo, lo + |Trim(s)|);
  }

  /** Trimming leaves a string with no white space at its ends unchanged. */
  lemma {:induction false} TrimNoEdge(s: string)
    requires NoEdgeWhitespace(s)
    ensures Trim(s) == s
  {
    if s != [] {
      assert SkipForward(s, 0) == 0;
      assert SkipBackward(s, 0, |s|) == |s|;
    }
  }
}
