/** Character-level helpers on strings: Rust's notion of whitespace, `str::trim`,
    and counting occurrences of a character. */
module Text {

  /** Rust's `char::is_whitespace`: the characters with the Unicode White_Space property. */
  predicate IsWhitespace(c: char) {
    || ('\t' <= c <= '\r')          // tab, line feed, vertical tab, form feed, carriage return
    || c == ' '
    || c == '\U{85}'                // next line
    || c == '\U{A0}'                // no-break space
    || c == '\U{1680}'              // ogham space mark
    || ('\U{2000}' <= c <= '\U{200A}')
    || c == '\U{2028}'              // line separator
    || c == '\U{2029}'              // paragraph separator
    || c == '\U{202F}'              // narrow no-break space
    || c == '\U{205F}'              // medium mathematical space
    || c == '\U{3000}'              // ideographic space
  }

  /** A string with no whitespace at either end. */
  predicate IsTrimmed(s: string) {
    s == [] || (!IsWhitespace(s[0]) && !IsWhitespace(s[|s| - 1]))
  }

  predicate AllWhitespace(s: string) {
    forall i :: 0 <= i < |s| ==> IsWhitespace(s[i])
  }

  /** Length of the maximal whitespace prefix of `s`. */
  function LeadingWhitespace(s: string): (n: nat)
    ensures n <= |s|
    ensures forall i :: 0 <= i < n ==> IsWhitespace(s[i])
    ensures n < |s| ==> !IsWhitespace(s[n])
  {
    if s == [] || !IsWhitespace(s[0]) then 0 else 1 + LeadingWhitespace(s[1..])
  }

  /** Length of the maximal whitespace suffix of `s`. */
  function TrailingWhitespace(s: string): (n: nat)
    ensures n <= |s|
    ensures forall i :: |s| - n <= i < |s| ==> IsWhitespace(s[i])
    ensures n < |s| ==> !IsWhitespace(s[|s| - n - 1])
  {
    if s == [] || !IsWhitespace(s[|s| - 1]) then 0 else 1 + TrailingWhitespace(s[..|s| - 1])
  }

  /** `t` is the slice of `s` starting at `lo`, with only whitespace before and after it. */
  ghost predicate IsSliceAmidWhitespace(t: string, s: string, lo: int) {
    && 0 <= lo <= |s| - |t|
    && t == s[lo..lo + |t|]
    && (forall i :: 0 <= i < lo ==> IsWhitespace(s[i]))
    && (forall i :: lo + |t| <= i < |s| ==> IsWhitespace(s[i]))
  }

  /** `t` is what remains of `s` once maximal whitespace runs are cut from both ends:
      a contiguous slice of `s`, trimmed, with only whitespace outside it. */
  ghost predicate IsTrimOf(t: string, s: string) {
    IsTrimmed(t) && exists lo :: IsSliceAmidWhitespace(t, s, lo)
  }

  /** Rust's `str::trim`. */
  function Trim(s: string): (t: string)
    ensures IsTrimOf(t, s)
    ensures t == [] <==> AllWhitespace(s)
  {
    var lo := LeadingWhitespace(s);
    if lo == |s| then
      assert IsSliceAmidWhitespace([], s, lo);
      []
    else
      var hi := |s| - TrailingWhitespace(s);
      assert !IsWhitespace(s[lo]) && lo < hi;
      assert s[lo..hi][0] == s[lo];
      assert s[lo..hi][hi - lo - 1] == s[hi - 1];
      assert IsSliceAmidWhitespace(s[lo..hi], s, lo);
      s[lo..hi]
  }

  /** Trimming an already trimmed string changes nothing; in particular `Trim` is idempotent. */
  lemma TrimOfTrimmed(s: string)
    requires IsTrimmed(s)
    ensures Trim(s) == s
  {
    assert LeadingWhitespace(s) == 0;
    assert TrailingWhitespace(s) == 0;
    assert s[0..|s|] == s;
  }

  /** Number of occurrences of `c` in `s`. */
  function Count(s: string, c: char): (n: nat)
    ensures n <= |s|
  {
    if s == [] then 0 else (if s[0] == c then 1 else 0) + Count(s[1..], c)
  }

  lemma {:induction false} CountAppend(a: string, b: string, c: char)
    ensures Count(a + b, c) == Count(a, c) + Count(b, c)
  {
    if a == [] {
      assert a + b == b;
    } else {
      assert (a + b)[1..] == a[1..] + b;
      CountAppend(a[1..], b, c);
    }
  }
}
