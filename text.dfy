/** JavaScript's `String.prototype.trim`, over code points. */
module Text {

  /** The ECMAScript WhiteSpace and LineTerminator code points, the characters
      `trim` removes from both ends of a string. */
  predicate IsWhitespace(c: char) {
    c == '\t' || c == '\n' || c == '\U{000B}' || c == '\U{000C}' || c == '\r' ||
    c == ' ' || c == '\U{00A0}' || c == '\U{1680}' ||
    ('\U{2000}' <= c <= '\U{200A}') ||
    c == '\U{2028}' || c == '\U{2029}' || c == '\U{202F}' || c == '\U{205F}' ||
    c == '\U{3000}' || c == '\U{FEFF}'
  }

  /** A string with no whitespace at either end. */
  predicate IsTrimmed(s: string) {
    s == [] || (!IsWhitespace(s[0]) && !IsWhitespace(s[|s| - 1]))
  }

  /** Every character of `s` is whitespace. */
  predicate AllWhitespace(s: string) {
    forall i :: 0 <= i < |s| ==> IsWhitespace(s[i])
  }

  /** The first index at or after `lo` that does not hold whitespace, or
      `|s|` when there is none. */
  function SkipLeading(s: string, lo: nat): (b: nat)
    requires lo <= |s|
    ensures lo <= b <= |s|
    ensures forall i :: lo <= i < b ==> IsWhitespace(s[i])
    ensures b < |s| ==> !IsWhitespace(s[b])
    decreases |s| - lo
  {
    if lo < |s| && IsWhitespace(s[lo]) then SkipLeading(s, lo + 1) else lo
  }

  /** The smallest end `e`, between `lo` and `hi`, such that only whitespace
      lies in `s[e..hi]`. */
  function SkipTrailing(s: string, lo: nat, hi: nat): (e: nat)
    requires lo <= hi <= |s|
    ensures lo <= e <= hi
    ensures forall i :: e <= i < hi ==> IsWhitespace(s[i])
    ensures e > lo ==> !IsWhitespace(s[e - 1])
    decreases hi
  {
    if hi > lo && IsWhitespace(s[hi - 1]) then SkipTrailing(s, lo, hi - 1) else hi
  }

  /** `r` is what `trim` leaves of `s`: the slice of `s` starting at `lo`,
      with only whitespace around it and no whitespace at its ends. */
  predicate TrimmedSlice(r: string, s: string, lo: int) {
    0 <= lo && lo + |r| <= |s| && r == s[lo..lo + |r|] &&
    (forall i :: 0 <= i < lo ==> IsWhitespace(s[i])) &&
    (forall i :: lo + |r| <= i < |s| ==> IsWhitespace(s[i])) &&
    IsTrimmed(r)
  }

  /** `trim`: the result has no whitespace at either end, and it is empty
      exactly when the input is all whitespace. TrimSlice says which slice
      of the input it is. */
  function Trim(s: string): (r: string)
    ensures IsTrimmed(r)
    ensures r == [] <==> AllWhitespace(s)
  {
    var lo := SkipLeading(s, 0);
    var hi := SkipTrailing(s, lo, |s|);
    assert lo < hi ==> s[lo..hi][0] == s[lo] && s[lo..hi][hi - lo - 1] == s[hi - 1];
    assert lo < hi ==> !IsWhitespace(s[lo]);
    assert lo == hi ==> AllWhitespace(s);
    s[lo..hi]
  }

  /** `trim` only cuts whitespace off the two ends of its input. */
  lemma TrimSlice(s: string)
    ensures exists lo :: TrimmedSlice(Trim(s), s, lo)
  {
    var lo := SkipLeading(s, 0);
    var hi := SkipTrailing(s, lo, |s|);
    assert Trim(s) == s[lo..hi];
    assert TrimmedSlice(Trim(s), s, lo);
  }

  /** A trimmed string is its own trim. */
  lemma TrimTrimmed(s: string)
    requires IsTrimmed(s)
    ensures Trim(s) == s
  {
    if s != [] {
      assert SkipLeading(s, 0) == 0;
      assert SkipTrailing(s, 0, |s|) == |s|;
      assert s[0..|s|] == s;
    }
  }

  /** Trimming is idempotent. */
  lemma TrimIdempotent(s: string)
    ensures Trim(Trim(s)) == Trim(s)
  {
    TrimTrimmed(Trim(s));
  }
}
