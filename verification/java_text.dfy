/** Java string and byte primitives the core relies on. */
module JavaText {

  /** One octet, as Java's `byte` seen unsigned. */
  type byte = b: int | 0 <= b < 256

  /** `String.trim()` removes every leading and trailing char whose code is at most U+0020. */
  predicate IsTrimmed(c: char) {
    c <= ' '
  }

  /** Index of the first char at or after `i` that `String.trim()` keeps, or `|s|`. */
  function LeadingEnd(s: string, i: nat): (r: nat)
    requires i <= |s|
    ensures i <= r <= |s|
    ensures forall k :: i <= k < r ==> IsTrimmed(s[k])
    ensures r < |s| ==> !IsTrimmed(s[r])
    decreases |s| - i
  {
    if i < |s| && IsTrimmed(s[i]) then LeadingEnd(s, i + 1) else i
  }

  /** Index just past the last char before `j`, and not before `lo`, that `String.trim()`
      keeps, or `lo`. */
  function TrailingStart(s: string, lo: nat, j: nat): (r: nat)
    requires lo <= j <= |s|
    ensures lo <= r <= j
    ensures forall k :: r <= k < j ==> IsTrimmed(s[k])
    ensures lo < r ==> !IsTrimmed(s[r - 1])
  {
    if lo < j && IsTrimmed(s[j - 1]) then TrailingStart(s, lo, j - 1) else j
  }

  /** Neither end of `s` is whitespace in the sense of `String.trim()`. */
  predicate Clean(s: string) {
    s != [] ==> !IsTrimmed(s[0]) && !IsTrimmed(s[|s| - 1])
  }

  /** Every character of `s` is one `String.trim()` removes. */
  predicate AllTrimmed(s: string) {
    forall k :: 0 <= k < |s| ==> IsTrimmed(s[k])
  }

  /** Java's `String.trim()`: advance a start index past the leading chars at most U+0020,
      pull an end index back past the trailing ones, and keep what lies between. */
  function Trim(s: string): (r: string)
    ensures |r| <= |s| && Clean(r)
    ensures r == [] <==> forall k :: 0 <= k < |s| ==> IsTrimmed(s[k])
    ensures Clean(s) ==> r == s
  {
    var i := LeadingEnd(s, 0);
    var j := TrailingStart(s, i, |s|);
    assert i < j ==> s[i..j][0] == s[i] && s[i..j][j - i - 1] == s[j - 1];
    s[i..j]
  }

  /** `trim` keeps one contiguous slice of its input, starting after the leading chars at most
      U+0020, and drops only such chars before and after it. */
  lemma TrimIsSlice(s: string)
    ensures var r := Trim(s); var i := LeadingEnd(s, 0);
      i + |r| <= |s| && r == s[i..i + |r|] && AllTrimmed(s[..i]) && AllTrimmed(s[i + |r|..])
  {
    var i := LeadingEnd(s, 0);
    var j := TrailingStart(s, i, |s|);
    assert Trim(s) == s[i..j];
    forall k | 0 <= k < i
      ensures IsTrimmed(s[..i][k])
    {
      assert s[..i][k] == s[k];
    }
    forall k | 0 <= k < |s| - j
      ensures IsTrimmed(s[j..][k])
    {
      assert s[j..][k] == s[j + k];
    }
  }

  predicate StartsWith(s: string, prefix: string) {
    |prefix| <= |s| && s[..|prefix|] == prefix
  }

  predicate EndsWith(s: string, suffix: string) {
    |suffix| <= |s| && s[|s| - |suffix|..] == suffix
  }
}
