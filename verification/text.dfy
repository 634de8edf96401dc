/**
 * String trimming as JavaScript's `String.prototype.trim` performs it; Joi's
 * `string().trim()` rule applies it to every string field of both schemas.
 */
module Text {

  /** The ECMAScript WhiteSpace and LineTerminator code points that `trim` removes. */
  predicate IsSpace(c: char)
  {
    || c == '\t' || c == '\n' || c == '\U{000B}' || c == '\U{000C}' || c == '\r' || c == ' '
    || c == '\U{00A0}' || c == '\U{1680}' || ('\U{2000}' <= c <= '\U{200A}')
    || c == '\U{2028}' || c == '\U{2029}' || c == '\U{202F}' || c == '\U{205F}'
    || c == '\U{3000}' || c == '\U{FEFF}'
  }

  /** Every character of `s` in positions `lo..hi` is white space. */
  predicate SpaceBetween(s: string, lo: int, hi: int)
    requires 0 <= lo <= hi <= |s|
  {
    forall k :: lo <= k < hi ==> IsSpace(s[k])
  }

  /** Every character of `s` is white space (the empty string included). */
  predicate AllSpace(s: string)
  {
    SpaceBetween(s, 0, |s|)
  }

  /** `s` neither starts nor ends with white space. */
  predicate NoEdgeSpace(s: string)
  {
    |s| == 0 || (!IsSpace(s[0]) && !IsSpace(s[|s| - 1]))
  }

  /** The first position at or after `i` that does not hold white space (`|s|` if none does). */
  function SkipSpaceForward(s: string, i: nat): (r: nat)
    requires i <= |s|
    ensures i <= r <= |s| && SpaceBetween(s, i, r)
    ensures r == |s| || !IsSpace(s[r])
    decreases |s| - i
  {
    if i < |s| && IsSpace(s[i]) then SkipSpaceForward(s, i + 1) else i
  }

  /** The last position `r` in `lo..j` such that `s[r - 1]` is not white space (`lo` if there is none). */
  function SkipSpaceBackward(s: string, lo: nat, j: nat): (r: nat)
    requires lo <= j <= |s|
    ensures lo <= r <= j && SpaceBetween(s, r, j)
    ensures r == lo || !IsSpace(s[r - 1])
  {
    if lo < j && IsSpace(s[j - 1]) then SkipSpaceBackward(s, lo, j - 1) else j
  }

  /**
   * `s` without its leading and trailing white space: a string with no white
   * space at its edges, empty exactly when `s` is all white space.
   */
  function Trim(s: string): (r: string)
    ensures |r| <= |s|
    ensures NoEdgeSpace(r)
    ensures r == "" <==> AllSpace(s)
  {
    var a := SkipSpaceForward(s, 0);
    var b := SkipSpaceBackward(s, a, |s|);
    assert a < b ==> s[a..b][0] == s[a] && s[a..b][b - a - 1] == s[b - 1];
    s[a..b]
  }

  /** Skipping forward from `k` stops at the first non-space position `i` when only spaces lie between. */
  lemma {:induction false} SkipForwardStops(s: string, k: nat, i: nat)
    requires k <= i < |s| && SpaceBetween(s, k, i) && !IsSpace(s[i])
    ensures SkipSpaceForward(s, k) == i
    decreases i - k
  {
    if k < i {
      SkipForwardStops(s, k + 1, i);
    }
  }

  /** Skipping backward from `j` stops right after the last non-space position when only spaces follow it. */
  lemma {:induction false} SkipBackwardStops(s: string, lo: nat, i: nat, j: nat)
    requires lo < i <= j <= |s| && SpaceBetween(s, i, j) && !IsSpace(s[i - 1])
    ensures SkipSpaceBackward(s, lo, j) == i
    decreases j - i
  {
    if i < j {
      SkipBackwardStops(s, lo, i, j - 1);
    }
  }

  /**
   * Reference definition of trimming: whenever `s` splits into white space,
   * a core with no white space at its edges, and white space, `Trim`
   * returns exactly that core.
   */
  lemma {:induction false} TrimUnique(s: string, i: nat, j: nat)
    requires i <= j <= |s|
    requires SpaceBetween(s, 0, i) && SpaceBetween(s, j, |s|) && NoEdgeSpace(s[i..j])
    ensures Trim(s) == s[i..j]
  {
    if i == j {
      assert AllSpace(s);
    } else {
      assert s[i..j][0] == s[i] && s[i..j][j - i - 1] == s[j - 1];
      SkipForwardStops(s, 0, i);
      SkipBackwardStops(s, i, j, |s|);
    }
  }

  /** Trimming twice is trimming once. */
  lemma TrimIdempotent(s: string)
    ensures Trim(Trim(s)) == Trim(s)
  {
    var r := Trim(s);
    assert r[0..|r|] == r;
    TrimUnique(r, 0, |r|);
  }
}
