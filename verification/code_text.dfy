/**
 Normalisation of coupon codes: the schema's `trim` and `uppercase` setters.
 Trimming removes the characters JavaScript's `String.prototype.trim` removes;
 upper-casing maps only the ASCII letters `a`..`z`.
 */
module CodeText {

  /** The characters `String.prototype.trim` strips from either end of a string. */
  predicate IsWhitespace(c: char) {
    || ('\t' <= c <= '\r')
    || c == ' '
    || c == '\U{00A0}'
    || c == '\U{1680}'
    || ('\U{2000}' <= c <= '\U{200A}')
    || c == '\U{2028}' || c == '\U{2029}'
    || c == '\U{202F}' || c == '\U{205F}'
    || c == '\U{3000}' || c == '\U{FEFF}'
  }

  predicate IsLower(c: char) {
    'a' <= c <= 'z'
  }

  function UpperChar(c: char): (u: char)
    ensures !IsLower(u)
    ensures IsWhitespace(u) == IsWhitespace(c)
    ensures !IsLower(c) ==> u == c
  {
    if IsLower(c) then (c as int - 32) as char else c
  }

  /** `toUpperCase`, restricted to ASCII letters. */
  function Upper(s: string): (r: string)
    ensures |r| == |s|
    ensures forall k :: 0 <= k < |r| ==> !IsLower(r[k])
    ensures forall k :: 0 <= k < |s| ==>
      && (IsLower(s[k]) ==> r[k] as int == s[k] as int - 32)
      && (!IsLower(s[k]) ==> r[k] == s[k])
  {
    seq(|s|, i requires 0 <= i < |s| => UpperChar(s[i]))
  }

  predicate NoEdgeWhitespace(t: string) {
    |t| == 0 || (!IsWhitespace(t[0]) && !IsWhitespace(t[|t| - 1]))
  }

  /** `s[i..j]` is the core of `s`: everything outside it is whitespace and its ends are not. */
  ghost predicate CoreBounds(s: string, i: int, j: int) {
    && 0 <= i <= j <= |s|
    && (forall k :: 0 <= k < i ==> IsWhitespace(s[k]))
    && (forall k :: j <= k < |s| ==> IsWhitespace(s[k]))
    && (i < j ==> !IsWhitespace(s[i]) && !IsWhitespace(s[j - 1]))
  }

  /** `r` is `s` with all leading and trailing whitespace removed: the reference meaning of trimming. */
  ghost predicate IsTrimOf(r: string, s: string) {
    exists i, j :: CoreBounds(s, i, j) && r == s[i..j]
  }

  /** Index of the first non-whitespace character at or after `i` (or `|s|`). */
  function CoreStart(s: string, i: nat): (k: nat)
    requires i <= |s|
    ensures i <= k <= |s|
    ensures forall m :: i <= m < k ==> IsWhitespace(s[m])
    ensures k < |s| ==> !IsWhitespace(s[k])
    decreases |s| - i
  {
    if i < |s| && IsWhitespace(s[i]) then CoreStart(s, i + 1) else i
  }

  /** Index just past the last non-whitespace character of `s[lo..j]` (or `lo`). */
  function CoreEnd(s: string, lo: nat, j: nat): (k: nat)
    requires lo <= j <= |s|
    ensures lo <= k <= j
    ensures forall m :: k <= m < j ==> IsWhitespace(s[m])
    ensures lo < k ==> !IsWhitespace(s[k - 1])
  {
    if lo < j && IsWhitespace(s[j - 1]) then CoreEnd(s, lo, j - 1) else j
  }

  /** `trim()`: the result is the whitespace-free core of `s`. */
  function Trim(s: string): (r: string)
    ensures IsTrimOf(r, s)
  {
    var i := CoreStart(s, 0);
    var j := CoreEnd(s, i, |s|);
    assert CoreBounds(s, i, j);
    s[i..j]
  }

  /** The core of a string is unique. */
  lemma CoreBoundsUnique(s: string, i: int, j: int, i': int, j': int)
    requires CoreBounds(s, i, j) && CoreBounds(s, i', j')
    ensures s[i..j] == s[i'..j']
  {
    if i < j && i' < j' {
      assert i == i' && j == j';
    }
  }

  /** The trimmed form of a string is unique. */
  lemma TrimOfIsUnique(r: string, r': string, s: string)
    requires IsTrimOf(r, s) && IsTrimOf(r', s)
    ensures r == r'
  {
    var i, j :| CoreBounds(s, i, j) && r == s[i..j];
    var i', j' :| CoreBounds(s, i', j') && r' == s[i'..j'];
    CoreBoundsUnique(s, i, j, i', j');
  }

  /** Trimming agrees with its reference meaning in both directions. */
  lemma TrimCharacterised(r: string, s: string)
    ensures r == Trim(s) <==> IsTrimOf(r, s)
  {
    if IsTrimOf(r, s) {
      TrimOfIsUnique(r, Trim(s), s);
    }
  }

  /** The stored form of a code: trimmed, then upper-cased. */
  function Normalize(s: string): (r: string)
    ensures |r| <= |s|
  {
    Upper(Trim(s))
  }

  /** A code in stored form: no surrounding whitespace and no lower-case letter. */
  predicate IsNormalized(s: string) {
    NoEdgeWhitespace(s) && forall k :: 0 <= k < |s| ==> !IsLower(s[k])
  }

  lemma UpperOfUpperFree(s: string)
    requires forall k :: 0 <= k < |s| ==> !IsLower(s[k])
    ensures Upper(s) == s
  {
  }

  lemma UpperKeepsEdges(t: string)
    requires NoEdgeWhitespace(t)
    ensures NoEdgeWhitespace(Upper(t))
  {
    if |t| > 0 {
      assert Upper(t)[0] == UpperChar(t[0]);
      assert Upper(t)[|t| - 1] == UpperChar(t[|t| - 1]);
    }
  }

  /** What `Normalize` produces is in stored form. */
  lemma NormalizeIsNormalized(s: string)
    ensures IsNormalized(Normalize(s))
  {
    var t := Trim(s);
    var i, j :| CoreBounds(s, i, j) && t == s[i..j];
    assert NoEdgeWhitespace(t) by {
      assert |t| > 0 ==> t[0] == s[i] && t[|t| - 1] == s[j - 1];
    }
    UpperKeepsEdges(t);
  }

  /** The stored forms are exactly the fixpoints of normalisation. */
  lemma NormalizedIffFixpoint(s: string)
    ensures IsNormalized(s) <==> Normalize(s) == s
  {
    if IsNormalized(s) {
      assert CoreBounds(s, 0, |s|) && s == s[0..|s|];
      TrimOfIsUnique(s, Trim(s), s);
      UpperOfUpperFree(s);
    } else if Normalize(s) == s {
      NormalizeIsNormalized(s);
    }
  }

  /** Normalising an already stored code leaves it unchanged. */
  lemma NormalizeIdempotent(s: string)
    ensures Normalize(Normalize(s)) == Normalize(s)
  {
    NormalizeIsNormalized(s);
    NormalizedIffFixpoint(Normalize(s));
  }

  lemma UpperSlice(s: string, i: int, j: int)
    requires 0 <= i <= j <= |s|
    ensures Upper(s)[i..j] == Upper(s[i..j])
  {
  }

  /** Trimming and upper-casing commute, so the setters' order does not matter. */
  lemma TrimUpperCommute(s: string)
    ensures Trim(Upper(s)) == Upper(Trim(s))
  {
    var t := Trim(s);
    var i, j :| CoreBounds(s, i, j) && t == s[i..j];
    var u := Upper(s);
    assert CoreBounds(u, i, j) by {
      assert forall k :: 0 <= k < |s| ==> u[k] == UpperChar(s[k]);
    }
    UpperSlice(s, i, j);
    TrimOfIsUnique(Upper(t), Trim(u), u);
  }

  /** Codes that differ only in the case of their letters normalise to the same stored code. */
  lemma NormalizeIgnoresCase(a: string, b: string)
    requires Upper(a) == Upper(b)
    ensures Normalize(a) == Normalize(b)
  {
    TrimUpperCommute(a);
    TrimUpperCommute(b);
  }

  /** Upper-casing before normalising, as the controller does, changes nothing. */
  lemma NormalizeAfterUpper(s: string)
    ensures Normalize(Upper(s)) == Normalize(s)
  {
    UpperOfUpperFree(Upper(s));
    NormalizeIgnoresCase(Upper(s), s);
  }
}
