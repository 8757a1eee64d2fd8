/**
 * Write mode: the learner types the answer to each flashcard and the answer
 * is graded against the card's answer after both are normalised — equal,
 * one containing the other, or an edit-distance similarity above 0.8.
 */
module WriteMode {
  import opened Types
  import opened Text

  // ---------------------------------------------------------------------------
  // Normalisation: lowercase, trim, strip `[^\w\s]`, collapse `\s+` to " ".
  // ---------------------------------------------------------------------------

  /** A character that `replace(/[^\w\s]/g, "")` keeps. */
  predicate Kept(c: char) {
    IsWordChar(c) || IsWhitespace(c)
  }

  /** The characters a normalised answer is made of: lower-case ASCII word characters and the space. */
  predicate IsNormalChar(c: char) {
    ('a' <= c <= 'z') || ('0' <= c <= '9') || c == '_' || c == ' '
  }

  predicate NoDoubleSpace(s: string) {
    forall i :: 0 <= i < |s| - 1 ==> !(s[i] == ' ' && s[i + 1] == ' ')
  }

  /** A character that survives lower-casing and punctuation stripping. */
  predicate LowerKept(c: char) {
    Kept(c) && !('A' <= c <= 'Z')
  }

  /** `s.replace(/[^\w\s]/g, "")`: the characters of `s` that are word characters or white space, in order. */
  function StripPunctuation(s: string): (r: string)
    ensures |r| <= |s|
    ensures forall i :: 0 <= i < |r| ==> Kept(r[i])
    ensures (forall i :: 0 <= i < |s| ==> Kept(s[i])) ==> r == s
  {
    if s == [] then []
    else if Kept(s[0]) then [s[0]] + StripPunctuation(s[1..])
    else StripPunctuation(s[1..])
  }

  /** Stripping only drops characters, so text without upper-case letters keeps none. */
  lemma {:induction false} StripLower(s: string)
    requires forall i :: 0 <= i < |s| ==> !('A' <= s[i] <= 'Z')
    ensures forall i :: 0 <= i < |StripPunctuation(s)| ==> LowerKept(StripPunctuation(s)[i])
    decreases |s|
  {
    if s != [] {
      StripLower(s[1..]);
    }
  }

  /** `s.replace(/\s+/g, " ")`: every maximal run of white space becomes one space. */
  function CollapseWhitespace(s: string): (r: string)
    ensures |r| <= |s|
    ensures r == [] <==> s == []
    ensures r != [] ==> r[0] == (if IsWhitespace(s[0]) then ' ' else s[0])
    ensures NoDoubleSpace(r)
    decreases |s|
  {
    if s == [] then []
    else if IsWhitespace(s[0]) then [' '] + CollapseWhitespace(TrimStart(s[1..]))
    else [s[0]] + CollapseWhitespace(s[1..])
  }

  /** Collapsing punctuation-free, lower-case text leaves only the characters of a normalised answer. */
  lemma {:induction false} CollapsedChars(s: string)
    requires forall i :: 0 <= i < |s| ==> LowerKept(s[i])
    ensures forall i :: 0 <= i < |CollapseWhitespace(s)| ==> IsNormalChar(CollapseWhitespace(s)[i])
    decreases |s|
  {
    if s != [] {
      if IsWhitespace(s[0]) {
        var rest := TrimStart(s[1..]);
        assert forall i :: 0 <= i < |rest| ==> rest[i] == s[|s| - |rest| + i];
        CollapsedChars(rest);
      } else {
        CollapsedChars(s[1..]);
      }
    }
  }

  /**
   * Stripping works character by character: the strip of a concatenation is
   * the concatenation of the strips, so the result is exactly the kept
   * characters of `s`, in order.
   */
  lemma {:induction false} StripConcat(a: string, b: string)
    ensures StripPunctuation(a + b) == StripPunctuation(a) + StripPunctuation(b)
    decreases |a|
  {
    if a == [] {
      assert a + b == b;
    } else {
      assert (a + b)[1..] == a[1..] + b;
      StripConcat(a[1..], b);
    }
  }

  /** One more character is kept exactly when `replace(/[^\w\s]/g, "")` keeps it. */
  lemma StripSnoc(s: string, c: char)
    ensures StripPunctuation(s + [c]) == StripPunctuation(s) + (if Kept(c) then [c] else [])
  {
    StripConcat(s, [c]);
    assert StripPunctuation([c]) == (if Kept(c) then [c] else []) by {
      assert [c][1..] == [];
    }
  }

  /**
   * The character-by-character reading of `replace(/\s+/g, " ")`: a
   * non-space character is copied, a white-space character that starts a
   * run is replaced by one space, and the rest of the run is dropped.
   * `inRun` says whether the previous character was white space.
   */
  function CollapseScan(s: string, inRun: bool): string
    decreases |s|
  {
    if s == [] then []
    else if !IsWhitespace(s[0]) then [s[0]] + CollapseScan(s[1..], false)
    else if inRun then CollapseScan(s[1..], true)
    else [' '] + CollapseScan(s[1..], true)
  }

  /** Inside a run, the rest of the run is dropped: scanning on is scanning from where the run ends. */
  lemma {:induction false} ScanSkipsRun(w: string)
    ensures CollapseScan(w, true) == CollapseScan(TrimStart(w), false)
    decreases |w|
  {
    if w != [] && IsWhitespace(w[0]) {
      ScanSkipsRun(w[1..]);
      TrimStartSkips(w);
    } else {
      TrimStartUnique(w, 0);
    }
  }

  /** Collapsing is the character-by-character scan: every non-space character survives in order and every white-space run becomes exactly one space. */
  lemma {:induction false} CollapseIsScan(s: string)
    ensures CollapseWhitespace(s) == CollapseScan(s, false)
    decreases |s|
  {
    if s != [] {
      if IsWhitespace(s[0]) {
        ScanSkipsRun(s[1..]);
        CollapseIsScan(TrimStart(s[1..]));
      } else {
        CollapseIsScan(s[1..]);
      }
    }
  }

  /** `normalizeAnswer`: lowercase, trim, strip punctuation, collapse white space, in that order. */
  function Normalize(answer: string): string {
    CollapseWhitespace(StripPunctuation(Trim(ToLower(answer))))
  }

  /**
   * A normalised answer is made of lower-case ASCII word characters and
   * single spaces only.
   */
  lemma NormalizeShape(answer: string)
    ensures forall i :: 0 <= i < |Normalize(answer)| ==> IsNormalChar(Normalize(answer)[i])
    ensures NoDoubleSpace(Normalize(answer))
  {
    var trimmed := Trim(ToLower(answer));
    TrimmedLower(answer);
    StripLower(trimmed);
    CollapsedChars(StripPunctuation(trimmed));
  }

  /** Trimming lower-cased text leaves no upper-case letter. */
  lemma TrimmedLower(answer: string)
    ensures forall j :: 0 <= j < |Trim(ToLower(answer))| ==> !('A' <= Trim(ToLower(answer))[j] <= 'Z')
  {
    TrimNoUpper(ToLower(answer));
  }

  /** Trimming only cuts characters, so it adds no upper-case letter. */
  lemma TrimNoUpper(w: string)
    requires forall i :: 0 <= i < |w| ==> !('A' <= w[i] <= 'Z')
    ensures forall j :: 0 <= j < |Trim(w)| ==> !('A' <= Trim(w)[j] <= 'Z')
  {
    SliceNoUpper(w, SkipForward(w, 0), SkipForward(w, 0) + |Trim(w)|);
  }

  /** A slice of text without upper-case letters has none either. */
  lemma SliceNoUpper(w: string, i: nat, j: nat)
    requires i <= j <= |w|
    requires forall n :: 0 <= n < |w| ==> !('A' <= w[n] <= 'Z')
    ensures forall n :: 0 <= n < j - i ==> !('A' <= w[i..j][n] <= 'Z')
  {
    forall n | 0 <= n < j - i ensures !('A' <= w[i..j][n] <= 'Z') {
      assert w[i..j][n] == w[i + n];
    }
  }

  // ---------------------------------------------------------------------------
  // Edit distance
  // ---------------------------------------------------------------------------

  function Min3(x: nat, y: nat, z: nat): (m: nat)
    ensures m <= x && m <= y && m <= z
    ensures m == x || m == y || m == z
  {
    if x <= y && x <= z then x else if y <= z then y else z
  }

  /**
   * Levenshtein distance between `a` and `b` (unit-cost insertion, deletion
   * and substitution), by the recurrence the matrix of `levenshteinDistance`
   * fills in: cell (i, j) is the distance between the first i characters of
   * `a` and the first j of `b`.
   */
  function EditDistance(a: string, b: string): nat
    decreases |a| + |b|
  {
    if |a| == 0 then |b|
    else if |b| == 0 then |a|
    else if a[|a| - 1] == b[|b| - 1] then EditDistance(a[..|a| - 1], b[..|b| - 1])
    else 1 + Min3(EditDistance(a[..|a| - 1], b[..|b| - 1]),
                  EditDistance(a, b[..|b| - 1]),
                  EditDistance(a[..|a| - 1], b))
  }

  /** The distance does not depend on the order of its arguments. */
  lemma {:induction false} EditDistanceSymmetric(a: string, b: string)
    ensures EditDistance(a, b) == EditDistance(b, a)
    decreases |a| + |b|
  {
    if |a| > 0 && |b| > 0 {
      EditDistanceSymmetric(a[..|a| - 1], b[..|b| - 1]);
      if a[|a| - 1] != b[|b| - 1] {
        EditDistanceSymmetric(a, b[..|b| - 1]);
        EditDistanceSymmetric(a[..|a| - 1], b);
      }
    }
  }

  /** The distance is at least the difference of the lengths and at most the longer length. */
  lemma {:induction false} EditDistanceBounds(a: string, b: string)
    ensures |a| - |b| <= EditDistance(a, b) && |b| - |a| <= EditDistance(a, b)
    ensures EditDistance(a, b) <= if |a| < |b| then |b| else |a|
    decreases |a| + |b|
  {
    if |a| > 0 && |b| > 0 {
      EditDistanceBounds(a[..|a| - 1], b[..|b| - 1]);
      if a[|a| - 1] != b[|b| - 1] {
        EditDistanceBounds(a, b[..|b| - 1]);
        EditDistanceBounds(a[..|a| - 1], b);
      }
    }
  }

  /** The distance is zero exactly when the strings are equal. */
  lemma {:induction false} EditDistanceZeroIff(a: string, b: string)
    ensures EditDistance(a, b) == 0 <==> a == b
    decreases |a| + |b|
  {
    if |a| > 0 && |b| > 0 {
      var a', b' := a[..|a| - 1], b[..|b| - 1];
      EditDistanceZeroIff(a', b');
      if a[|a| - 1] == b[|b| - 1] {
        assert a == a' + [a[|a| - 1]] && b == b' + [b[|b| - 1]];
      } else {
        assert a != b;
      }
    }
  }

  /**
   * `levenshteinDistance(str1, str2)`: fills the (|str2| + 1) x (|str1| + 1)
   * matrix row by row and returns its bottom-right cell.
   */
  method LevenshteinDistance(str1: string, str2: string) returns (d: nat)
    ensures d == EditDistance(str1, str2)
  {
    var matrix := new nat[|str2| + 1, |str1| + 1];
    for i := 0 to |str2| + 1
      invariant forall r :: 0 <= r < i ==> matrix[r, 0] == r
    {
      matrix[i, 0] := i;
    }
    for j := 0 to |str1| + 1
      invariant forall c :: 0 <= c < j ==> matrix[0, c] == c
      invariant forall r :: 1 <= r <= |str2| ==> matrix[r, 0] == r
    {
      matrix[0, j] := j;
    }
    for i := 1 to |str2| + 1
      invariant forall r, c {:trigger matrix[r, c]} :: 0 <= r < i && 0 <= c <= |str1| ==> matrix[r, c] == EditDistance(str2[..r], str1[..c])
      invariant forall r :: i <= r <= |str2| ==> matrix[r, 0] == r
    {
      FillRow(matrix, str2, str1, i);
    }
    assert str2[..|str2|] == str2 && str1[..|str1|] == str1;
    d := matrix[|str2|, |str1|];
    EditDistanceSymmetric(str2, str1);
  }

  /** Fills row `i` of the matrix from the row above it and the cell to its left. */
  method FillRow(matrix: array2<nat>, a: string, b: string, i: nat)
    requires matrix.Length0 == |a| + 1 && matrix.Length1 == |b| + 1 && 1 <= i <= |a|
    requires forall r, c {:trigger matrix[r, c]} :: 0 <= r < i && 0 <= c <= |b| ==> matrix[r, c] == EditDistance(a[..r], b[..c])
    requires forall r :: i <= r <= |a| ==> matrix[r, 0] == r
    modifies matrix
    ensures forall r, c {:trigger matrix[r, c]} :: 0 <= r <= i && 0 <= c <= |b| ==> matrix[r, c] == EditDistance(a[..r], b[..c])
    ensures forall r :: i < r <= |a| ==> matrix[r, 0] == r
  {
    for j := 1 to |b| + 1
      invariant forall r, c {:trigger matrix[r, c]} :: 0 <= r < i && 0 <= c <= |b| ==> matrix[r, c] == EditDistance(a[..r], b[..c])
      invariant forall r :: i < r <= |a| ==> matrix[r, 0] == r
      invariant forall c {:trigger matrix[i, c]} :: 0 <= c < j ==> matrix[i, c] == EditDistance(a[..i], b[..c])
    {
      var cell := if a[i - 1] == b[j - 1] then matrix[i - 1, j - 1]
                  else Min3(matrix[i - 1, j - 1] + 1, matrix[i, j - 1] + 1, matrix[i - 1, j] + 1);
      assert cell == EditDistance(a[..i], b[..j]) by {
        EditDistancePrefixStep(a, b, i, j);
      }
      matrix[i, j] := cell;
    }
  }

  /** The edge and the inner cells of the matrix, stated on prefixes. */
  lemma EditDistancePrefixStep(a: string, b: string, i: nat, j: nat)
    requires 1 <= i <= |a| && 1 <= j <= |b|
    ensures EditDistance(a[..i], b[..0]) == i && EditDistance(a[..0], b[..j]) == j
    ensures EditDistance(a[..i], b[..j]) ==
      if a[i - 1] == b[j - 1] then EditDistance(a[..i - 1], b[..j - 1])
      else Min3(EditDistance(a[..i - 1], b[..j - 1]) + 1,
                EditDistance(a[..i], b[..j - 1]) + 1,
                EditDistance(a[..i - 1], b[..j]) + 1)
  {
    assert a[..i][..i - 1] == a[..i - 1];
    assert b[..j][..j - 1] == b[..j - 1];
  }

  // ---------------------------------------------------------------------------
  // Similarity and grading
  // ---------------------------------------------------------------------------

  /**
   * `calculateSimilarity`: 1 when both strings are empty, otherwise
   * (L - d) / L where L is the longer length and d the edit distance
   * from the longer to the shorter string. It lies in [0, 1] and is 1
   * exactly when the strings are equal.
   */
  function Similarity(str1: string, str2: string): (r: real)
    ensures 0.0 <= r <= 1.0
    ensures r == 1.0 <==> str1 == str2
  {
    var longer := if |str1| > |str2| then str1 else str2;
    var shorter := if |str1| > |str2| then str2 else str1;
    EditDistanceBounds(longer, shorter);
    EditDistanceZeroIff(longer, shorter);
    if |longer| == 0 then 1.0
    else
      FractionOfLength(|longer| - EditDistance(longer, shorter), |longer|);
      Fraction(|longer| - EditDistance(longer, shorter), |longer|)
  }

  /** The quotient n / L of an integer by a positive length. */
  function Fraction(n: int, L: nat): real
    requires L > 0
  {
    n as real / L as real
  }

  /** A count out of a length is a fraction in [0, 1], and it is 1 exactly when the count is the whole length. */
  lemma FractionOfLength(n: int, L: nat)
    requires L > 0 && 0 <= n <= L
    ensures 0.0 <= Fraction(n, L) <= 1.0
    ensures Fraction(n, L) == 1.0 <==> n == L
  {
    var f := Fraction(n, L);
    assert f * L as real == n as real;
    if f == 1.0 { assert n as real == L as real; }
  }

  /** The longer of the two lengths. */
  function LongerLength(a: string, b: string): nat {
    if |a| > |b| then |a| else |b|
  }

  lemma MulMonotone(x: real, y: real, k: real)
    requires k > 0.0
    ensures x > y ==> x * k > y * k
    ensures x <= y ==> x * k <= y * k
  {
  }

  /** For a positive length L and a distance d, the ratio (L - d) / L exceeds 0.8 exactly when L > 5 d. */
  lemma RatioAboveFourFifths(L: nat, d: int)
    requires L > 0
    ensures Fraction(L - d, L) > 0.8 <==> L > 5 * d
  {
    var x := Fraction(L - d, L);
    assert x * L as real == (L - d) as real;
    MulMonotone(x, 0.8, L as real);
  }

  /** For non-empty input, similarity is (L - d) / L with d the distance between the arguments in either order. */
  lemma SimilarityIsRatio(a: string, b: string)
    requires LongerLength(a, b) > 0
    ensures Similarity(a, b) == Fraction(LongerLength(a, b) - EditDistance(a, b), LongerLength(a, b))
  {
    EditDistanceSymmetric(a, b);
  }

  /** For non-empty input, the similarity exceeds 0.8 exactly when L > 5 d. */
  lemma SimilarityAboveIff(a: string, b: string)
    requires LongerLength(a, b) > 0
    ensures Similarity(a, b) > 0.8 <==> LongerLength(a, b) > 5 * EditDistance(a, b)
  {
    SimilarityIsRatio(a, b);
    RatioAboveFourFifths(LongerLength(a, b), EditDistance(a, b));
  }

  /** The similarity test `> 0.8` is the integer test L > 5 d, or both strings empty. */
  lemma SimilarityThreshold(a: string, b: string)
    ensures Similarity(a, b) > 0.8 <==>
            LongerLength(a, b) == 0 || LongerLength(a, b) > 5 * EditDistance(a, b)
  {
    if LongerLength(a, b) > 0 {
      SimilarityAboveIff(a, b);
    }
  }

  /** Similarity does not depend on the order of its arguments, even when both lengths are equal. */
  lemma SimilaritySymmetric(a: string, b: string)
    ensures Similarity(a, b) == Similarity(b, a)
  {
    EditDistanceSymmetric(a, b);
  }

  /** The verdict on two normalised answers, as `checkAnswer` computes it. */
  predicate IsCorrect(u: string, r: string) {
    u == r || Includes(r, u) || Includes(u, r) || Similarity(u, r) > 0.8
  }

  /** `checkAnswer`'s verdict on a typed answer against the card's answer. */
  predicate Grade(userAnswer: string, reference: string) {
    IsCorrect(Normalize(userAnswer), Normalize(reference))
  }

  /** Grading is symmetric in the typed answer and the reference. */
  lemma GradeSymmetric(userAnswer: string, reference: string)
    ensures Grade(userAnswer, reference) == Grade(reference, userAnswer)
  {
    SimilaritySymmetric(Normalize(userAnswer), Normalize(reference));
  }

  /** Equal normalised answers, or one contained in the other, are always accepted. */
  lemma ContainmentAccepted(userAnswer: string, reference: string)
    requires var u, r := Normalize(userAnswer), Normalize(reference);
             u == r || Includes(r, u) || Includes(u, r)
    ensures Grade(userAnswer, reference)
  {
  }

  /** An answer that normalises to the empty string, such as "!!!", is accepted against any reference. */
  lemma EmptyAnswerAccepted(userAnswer: string, reference: string)
    requires Normalize(userAnswer) == ""
    ensures Grade(userAnswer, reference)
  {
    IncludesEmptyAndSelf(Normalize(reference));
  }

  /** Grading on similarity alone accepts exactly when L > 5 d for the normalised answers. */
  lemma GradeBySimilarity(userAnswer: string, reference: string)
    ensures var u, r := Normalize(userAnswer), Normalize(reference);
            Grade(userAnswer, reference) <==>
            u == r || Includes(r, u) || Includes(u, r)
            || LongerLength(u, r) == 0 || LongerLength(u, r) > 5 * EditDistance(u, r)
  {
    SimilarityThreshold(Normalize(userAnswer), Normalize(reference));
  }

  /** A word character other than an upper-case letter: what a single normalised word is made of. */
  predicate IsLowerWordChar(c: char) {
    ('a' <= c <= 'z') || ('0' <= c <= '9') || c == '_'
  }

  /** Lower-casing leaves text without upper-case letters unchanged. */
  lemma ToLowerNoUpper(s: string)
    requires forall i :: 0 <= i < |s| ==> !('A' <= s[i] <= 'Z')
    ensures ToLower(s) == s
  {
    assert forall i :: 0 <= i < |s| ==> ToLower(s)[i] == s[i];
  }

  /** Collapsing white space leaves text without white space unchanged. */
  lemma {:induction false} CollapseNoWhitespace(s: string)
    requires forall i :: 0 <= i < |s| ==> !IsWhitespace(s[i])
    ensures CollapseWhitespace(s) == s
    decreases |s|
  {
    if s != [] {
      CollapseNoWhitespace(s[1..]);
    }
  }

  /** A lower-case word character is neither white space, punctuation nor an upper-case letter. */
  lemma LowerWordCharClass(c: char)
    requires IsLowerWordChar(c)
    ensures !IsWhitespace(c) && Kept(c) && !('A' <= c <= 'Z')
  {
  }

  lemma LowerWordUnchangedByToLower(w: string)
    requires forall i :: 0 <= i < |w| ==> IsLowerWordChar(w[i])
    ensures ToLower(w) == w
  {
    forall i | 0 <= i < |w| ensures !('A' <= w[i] <= 'Z') {
      LowerWordCharClass(w[i]);
    }
    ToLowerNoUpper(w);
  }

  lemma LowerWordUnchangedByTrim(w: string)
    requires forall i :: 0 <= i < |w| ==> IsLowerWordChar(w[i])
    ensures Trim(w) == w
  {
    if w != [] {
      LowerWordCharClass(w[0]);
      LowerWordCharClass(w[|w| - 1]);
    }
    TrimNoEdge(w);
  }

  lemma LowerWordUnchangedByStrip(w: string)
    requires forall i :: 0 <= i < |w| ==> IsLowerWordChar(w[i])
    ensures StripPunctuation(w) == w
  {
    forall i | 0 <= i < |w| ensures Kept(w[i]) {
      LowerWordCharClass(w[i]);
    }
  }

  lemma LowerWordUnchangedByCollapse(w: string)
    requires forall i :: 0 <= i < |w| ==> IsLowerWordChar(w[i])
    ensures CollapseWhitespace(w) == w
  {
    forall i | 0 <= i < |w| ensures !IsWhitespace(w[i]) {
      LowerWordCharClass(w[i]);
    }
    CollapseNoWhitespace(w);
  }

  /** A single lower-case word is its own normal form. */
  lemma NormalWordFixed(w: string)
    requires forall i :: 0 <= i < |w| ==> IsLowerWordChar(w[i])
    ensures Normalize(w) == w
  {
    LowerWordUnchangedByToLower(w);
    LowerWordUnchangedByTrim(w);
    LowerWordUnchangedByStrip(w);
    LowerWordUnchangedByCollapse(w);
  }

  /** Stripping a word followed by " !" drops only the "!". */
  lemma {:induction false} StripWordBang(w: string)
    requires forall i :: 0 <= i < |w| ==> IsLowerWordChar(w[i])
    ensures StripPunctuation(w + " !") == w + " "
    decreases |w|
  {
    if w == [] {
      assert (" !")[1..] == "!";
    } else {
      LowerWordCharClass(w[0]);
      assert (w + " !")[1..] == w[1..] + " !";
      StripWordBang(w[1..]);
    }
  }

  /** Collapsing a word followed by one space changes nothing. */
  lemma {:induction false} CollapseWordSpace(w: string)
    requires forall i :: 0 <= i < |w| ==> IsLowerWordChar(w[i])
    ensures CollapseWhitespace(w + " ") == w + " "
    decreases |w|
  {
    if w == [] {
      assert (" ")[1..] == "";
    } else {
      LowerWordCharClass(w[0]);
      assert (w + " ")[1..] == w[1..] + " ";
      CollapseWordSpace(w[1..]);
    }
  }

  /**
   * Trimming comes before stripping punctuation, so the space before a
   * trailing "!" survives: "paris !" normalises to "paris ", not "paris".
   */
  lemma TrailingSpaceSurvives(w: string)
    requires |w| > 0 && forall i :: 0 <= i < |w| ==> IsLowerWordChar(w[i])
    ensures Normalize(w + " !") == w + " "
  {
    LowerTrimWordBang(w);
    StripWordBang(w);
    CollapseWordSpace(w);
  }

  /** A lower-case word followed by " !" is unchanged by lower-casing and trimming. */
  lemma LowerTrimWordBang(w: string)
    requires |w| > 0 && forall i :: 0 <= i < |w| ==> IsLowerWordChar(w[i])
    ensures Trim(ToLower(w + " !")) == w + " !"
  {
    var s := w + " !";
    forall i | 0 <= i < |s| ensures !('A' <= s[i] <= 'Z') {
      if i < |w| {
        LowerWordCharClass(w[i]);
      }
    }
    ToLowerNoUpper(s);
    LowerWordCharClass(w[0]);
    TrimNoEdge(s);
  }

  /** Lower-casing twice is lower-casing once. */
  lemma ToLowerIdempotent(s: string)
    ensures ToLower(ToLower(s)) == ToLower(s)
  {
    ToLowerNoUpper(ToLower(s));
  }

  /** Normalisation does not see letter case: an answer and its lower-cased form normalise alike. */
  lemma NormalizeIgnoresCase(s: string)
    ensures Normalize(ToLower(s)) == Normalize(s)
  {
    ToLowerIdempotent(s);
  }

  /** Grading does not see letter case in either answer. */
  lemma GradeIgnoresCase(userAnswer: string, reference: string)
    ensures Grade(ToLower(userAnswer), reference) == Grade(userAnswer, reference)
    ensures Grade(userAnswer, ToLower(reference)) == Grade(userAnswer, reference)
  {
    NormalizeIgnoresCase(userAnswer);
    NormalizeIgnoresCase(reference);
  }

  /** "pariz" and "paris" are one substitution apart. */
  lemma ParizDistance()
    ensures EditDistance("pariz", "paris") == 1
  {
    var u, r := "pariz", "paris";
    assert u[..4] == r[..4] == "pari";
    EditDistanceZeroIff("pari", "pari");
    EditDistanceBounds(u, r[..4]);
    EditDistanceBounds(u[..4], r);
  }

  /** Neither of "pariz" and "paris" contains the other. */
  lemma ParizNotContained()
    ensures !Includes("paris", "pariz") && !Includes("pariz", "paris")
  {
    var u, r := "pariz", "paris";
    assert !OccursAt(r, u, 0) by { assert r[4] != u[4]; }
    assert !OccursAt(u, r, 0) by { assert r[4] != u[4]; }
  }

  /**
   * The boundary case: "pariz" against "paris" has distance 1 over length 5,
   * a similarity of exactly 0.8, which the strict test rejects.
   */
  lemma ParizRejected()
    ensures !IsCorrect("pariz", "paris")
  {
    ParizDistance();
    ParizNotContained();
    SimilarityThreshold("pariz", "paris");
  }

  // ---------------------------------------------------------------------------
  // The session
  // ---------------------------------------------------------------------------

  /** One graded answer: the card, the text as typed, and the verdict. */
  datatype CardResult = CardResult(card: Flashcard, userAnswer: string, correct: bool)

  /** `calculateSimilarity`, computing the distance with the matrix. */
  method CalculateSimilarity(str1: string, str2: string) returns (sim: real)
    ensures sim == Similarity(str1, str2)
  {
    var longer := if |str1| > |str2| then str1 else str2;
    var shorter := if |str1| > |str2| then str2 else str1;
    if |longer| == 0 {
      return 1.0;
    }
    var d := LevenshteinDistance(longer, shorter);
    EditDistanceSymmetric(longer, shorter);
    sim := (|longer| - d) as real / |longer| as real;
  }

  /** The verdict `checkAnswer` computes for a typed answer. */
  method CheckVerdict(userAnswer: string, reference: string) returns (correct: bool)
    ensures correct == Grade(userAnswer, reference)
  {
    var normalizedUser := Normalize(userAnswer);
    var normalizedCorrect := Normalize(reference);
    correct := normalizedUser == normalizedCorrect
            || Includes(normalizedCorrect, normalizedUser)
            || Includes(normalizedUser, normalizedCorrect);
    if !correct {
      var sim := CalculateSimilarity(normalizedUser, normalizedCorrect);
      correct := sim > 0.8;
    }
  }

  class WriteSession {
    const flashcards: seq<Flashcard>
    var currentIndex: nat
    var userAnswer: string
    var showResult: bool
    var isCorrect: bool
    var results: seq<CardResult>
    var gameComplete: bool

    /**
     * One result per card already answered, plus the one on show; the shown
     * verdict is the last result's. The handlers exist only for a non-empty deck.
     */
    ghost predicate Valid()
      reads this
    {
      && |flashcards| > 0
      && currentIndex < |flashcards|
      && |results| == currentIndex + (if showResult then 1 else 0)
      && (showResult ==> results[|results| - 1].correct == isCorrect)
    }

    constructor (flashcards: seq<Flashcard>)
      requires |flashcards| > 0
      ensures Valid() && this.flashcards == flashcards
      ensures currentIndex == 0 && userAnswer == "" && !showResult && !isCorrect
      ensures results == [] && !gameComplete
    {
      this.flashcards := flashcards;
      currentIndex := 0;
      userAnswer := "";
      showResult := false;
      isCorrect := false;
      results := [];
      gameComplete := false;
    }

    method SetUserAnswer(text: string)
      modifies this`userAnswer
      ensures userAnswer == text
    {
      userAnswer := text;
    }

    /** `checkAnswer`: grade the typed answer and append exactly one result. */
    method CheckAnswer()
      requires Valid() && !showResult
      modifies this
      ensures Valid() && showResult
      ensures isCorrect == Grade(old(userAnswer), flashcards[old(currentIndex)].a)
      ensures results == old(results) + [CardResult(flashcards[old(currentIndex)], old(userAnswer), isCorrect)]
      ensures currentIndex == old(currentIndex) && userAnswer == old(userAnswer)
      ensures gameComplete == old(gameComplete)
    {
      var correct := CheckVerdict(userAnswer, flashcards[currentIndex].a);
      ShowVerdict(correct);
    }

    /** Puts a verdict on show for the current card and records it. */
    method ShowVerdict(correct: bool)
      requires Valid() && !showResult
      modifies this
      ensures Valid() && showResult && isCorrect == correct
      ensures results == old(results) + [CardResult(flashcards[old(currentIndex)], old(userAnswer), correct)]
      ensures currentIndex == old(currentIndex) && userAnswer == old(userAnswer)
      ensures gameComplete == old(gameComplete)
    {
      isCorrect := correct;
      showResult := true;
      results := results + [CardResult(flashcards[currentIndex], userAnswer, correct)];
    }

    /** `handleNext`: move to the next card, or finish after the last one. */
    method HandleNext()
      requires Valid() && showResult
      modifies this
      ensures Valid() && results == old(results) && isCorrect == old(isCorrect)
      ensures old(currentIndex) < |flashcards| - 1 ==>
                currentIndex == old(currentIndex) + 1 && userAnswer == "" && !showResult
                && gameComplete == old(gameComplete)
      ensures old(currentIndex) == |flashcards| - 1 ==>
                gameComplete && currentIndex == old(currentIndex)
                && userAnswer == old(userAnswer) && showResult
    {
      if currentIndex < |flashcards| - 1 {
        currentIndex := currentIndex + 1;
        userAnswer := "";
        showResult := false;
      } else {
        gameComplete := true;
      }
    }

    /** `handleKeyDown`: Enter continues after a verdict, or checks a non-blank answer. */
    method HandleKeyDown(key: string)
      requires Valid()
      modifies this
      ensures Valid()
      ensures key != "Enter" || (!old(showResult) && Trim(old(userAnswer)) == "") ==>
                results == old(results) && showResult == old(showResult) && currentIndex == old(currentIndex)
                && userAnswer == old(userAnswer) && isCorrect == old(isCorrect) && gameComplete == old(gameComplete)
      ensures key == "Enter" && old(showResult) ==>
                results == old(results) && isCorrect == old(isCorrect)
                && (old(currentIndex) < |flashcards| - 1 ==>
                      currentIndex == old(currentIndex) + 1 && userAnswer == "" && !showResult
                      && gameComplete == old(gameComplete))
                && (old(currentIndex) == |flashcards| - 1 ==>
                      gameComplete && currentIndex == old(currentIndex)
                      && userAnswer == old(userAnswer) && showResult)
      ensures key == "Enter" && !old(showResult) && Trim(old(userAnswer)) != "" ==>
                showResult && isCorrect == Grade(old(userAnswer), flashcards[old(currentIndex)].a)
                && results == old(results) + [CardResult(flashcards[old(currentIndex)], old(userAnswer), isCorrect)]
                && currentIndex == old(currentIndex) && userAnswer == old(userAnswer)
                && gameComplete == old(gameComplete)
    {
      if key == "Enter" {
        if showResult {
          HandleNext();
        } else if Trim(userAnswer) != "" {
          CheckAnswer();
        }
      }
    }

    /** `handleRestart`: back to the first card with no results. */
    method HandleRestart()
      requires |flashcards| > 0
      modifies this
      ensures Valid()
      ensures currentIndex == 0 && userAnswer == "" && !showResult && results == [] && !gameComplete
      ensures isCorrect == old(isCorrect)
    {
      currentIndex := 0;
      userAnswer := "";
      showResult := false;
      results := [];
      gameComplete := false;
    }

    /** `overrideCorrect`: mark the last result correct, leaving the earlier ones as they were. */
    method OverrideCorrect()
      requires Valid() && |results| > 0
      modifies this
      ensures Valid() && isCorrect
      ensures results == MarkLastCorrect(old(results))
      ensures currentIndex == old(currentIndex) && showResult == old(showResult)
      ensures userAnswer == old(userAnswer) && gameComplete == old(gameComplete)
    {
      var updatedResults := results;
      var last := |updatedResults| - 1;
      updatedResults := updatedResults[last := updatedResults[last].(correct := true)];
      assert updatedResults == MarkLastCorrect(results);
      results := updatedResults;
      isCorrect := true;
    }
  }

  /** Marking the last result correct, as `overrideCorrect` does to the list. */
  function MarkLastCorrect(results: seq<CardResult>): (r: seq<CardResult>)
    requires |results| > 0
    ensures |r| == |results| && r[|r| - 1].correct
    ensures r[|r| - 1].card == results[|r| - 1].card && r[|r| - 1].userAnswer == results[|r| - 1].userAnswer
    ensures forall i :: 0 <= i < |r| - 1 ==> r[i] == results[i]
  {
    results[|results| - 1 := results[|results| - 1].(correct := true)]
  }

  /** Overriding twice is overriding once. */
  lemma MarkLastCorrectIdempotent(results: seq<CardResult>)
    requires |results| > 0
    ensures MarkLastCorrect(MarkLastCorrect(results)) == MarkLastCorrect(results)
  {
  }
}
