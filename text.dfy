/**
 * String primitives the contact form relies on: the whitespace class shared by
 * `String.prototype.trim` and the regular-expression class `\s`, trimming, and
 * `String.prototype.length`, which counts UTF-16 code units.
 */
module Text {

  /**
   * ECMAScript WhiteSpace and LineTerminator code points (section 12.2 and 12.3 of
   * ECMA-262): tab, line feed, vertical tab, form feed, carriage return, space,
   * no-break space, the Unicode Zs separators, the line and paragraph separators
   * and the byte-order mark. `trim` strips exactly these, and `\s` matches exactly these.
   */
  predicate IsSpace(c: char) {
    var n := c as int;
    (0x09 <= n <= 0x0D) || n == 0x20 || n == 0xA0 || n == 0x1680
    || (0x2000 <= n <= 0x200A) || n == 0x2028 || n == 0x2029
    || n == 0x202F || n == 0x205F || n == 0x3000 || n == 0xFEFF
  }

  predicate AllSpace(s: string) {
    forall i | 0 <= i < |s| :: IsSpace(s[i])
  }

  predicate NoSpace(s: string) {
    forall i | 0 <= i < |s| :: !IsSpace(s[i])
  }

  /** Every character of `s[i..j]` is whitespace. */
  predicate SpaceBetween(s: string, i: nat, j: nat)
    requires i <= j <= |s|
  {
    forall k | i <= k < j :: IsSpace(s[k])
  }

  /** Scanning up from `i`: the index of the first character that is not whitespace, or `|s|`. */
  function StartIndex(s: string, i: nat): (k: nat)
    requires i <= |s|
    ensures i <= k <= |s| && SpaceBetween(s, i, k)
    ensures k == |s| || !IsSpace(s[k])
    decreases |s| - i
  {
    if i < |s| && IsSpace(s[i]) then StartIndex(s, i + 1) else i
  }

  /** Scanning down from `j` to `lo`: the index just past the last character that is not whitespace, or `lo`. */
  function EndIndex(s: string, lo: nat, j: nat): (k: nat)
    requires lo <= j <= |s|
    ensures lo <= k <= j && SpaceBetween(s, k, j)
    ensures k == lo || !IsSpace(s[k - 1])
    decreases j
  {
    if lo < j && IsSpace(s[j - 1]) then EndIndex(s, lo, j - 1) else j
  }

  /**
   * `String.prototype.trim`: the slice of `s` from its first to its last
   * character that is not whitespace; it neither starts nor ends with whitespace.
   */
  function Trim(s: string): (r: string)
    ensures |r| <= |s|
    ensures r == [] || (!IsSpace(r[0]) && !IsSpace(r[|r| - 1]))
  {
    var lo := StartIndex(s, 0);
    s[lo..EndIndex(s, lo, |s|)]
  }

  /** `Trim(s)` is the slice `s[lo..lo + |Trim(s)|]`, and everything around it is whitespace. */
  lemma TrimSlice(s: string) returns (lo: nat)
    ensures lo + |Trim(s)| <= |s|
    ensures Trim(s) == s[lo..lo + |Trim(s)|]
    ensures SpaceBetween(s, 0, lo) && SpaceBetween(s, lo + |Trim(s)|, |s|)
  {
    lo := StartIndex(s, 0);
  }

  /**
   * Trimming is determined by its shape: any slice of `s` that is surrounded by
   * whitespace and neither starts nor ends with whitespace is `Trim(s)`.
   */
  lemma TrimUnique(s: string, lo: nat, hi: nat)
    requires lo <= hi <= |s|
    requires SpaceBetween(s, 0, lo) && SpaceBetween(s, hi, |s|)
    requires lo == hi || (!IsSpace(s[lo]) && !IsSpace(s[hi - 1]))
    ensures Trim(s) == s[lo..hi]
  {
  }

  /** Where each character of `p + v + q` comes from. */
  lemma PaddedAt(p: string, v: string, q: string, k: nat)
    requires k < |p| + |v| + |q|
    ensures (p + v + q)[k] == if k < |p| then p[k] else if k < |p| + |v| then v[k - |p|] else q[k - |p| - |v|]
  {
  }

  /** Whitespace before `v[lo]` stays whitespace once `v` is padded. */
  lemma PaddedSpaceBefore(p: string, v: string, q: string, lo: nat)
    requires AllSpace(p) && lo <= |v| && SpaceBetween(v, 0, lo)
    ensures SpaceBetween(p + v + q, 0, |p| + lo)
  {
    forall k | 0 <= k < |p| + lo ensures IsSpace((p + v + q)[k]) {
      PaddedAt(p, v, q, k);
    }
  }

  /** Whitespace after `v[hi - 1]` stays whitespace once `v` is padded. */
  lemma PaddedSpaceAfter(p: string, v: string, q: string, hi: nat)
    requires AllSpace(q) && hi <= |v| && SpaceBetween(v, hi, |v|)
    ensures SpaceBetween(p + v + q, |p| + hi, |p + v + q|)
  {
    forall k | |p| + hi <= k < |p + v + q| ensures IsSpace((p + v + q)[k]) {
      PaddedAt(p, v, q, k);
    }
  }

  /** A slice of `v` is found, shifted by `|p|`, in the padded string. */
  lemma PaddedSlice(p: string, v: string, q: string, lo: nat, hi: nat)
    requires lo <= hi <= |v|
    ensures (p + v + q)[|p| + lo..|p| + hi] == v[lo..hi]
  {
    forall k | 0 <= k < hi - lo ensures (p + v + q)[|p| + lo..|p| + hi][k] == v[lo..hi][k] {
      PaddedAt(p, v, q, |p| + lo + k);
    }
  }

  /** A slice with whitespace around it, and none at its ends, is what trimming keeps. */
  lemma TrimShifted(s: string, v: string, off: nat, lo: nat, hi: nat)
    requires lo <= hi <= |v| && off + hi <= |s|
    requires SpaceBetween(s, 0, off + lo) && SpaceBetween(s, off + hi, |s|)
    requires s[off + lo..off + hi] == v[lo..hi]
    requires lo == hi || (!IsSpace(v[lo]) && !IsSpace(v[hi - 1]))
    ensures Trim(s) == v[lo..hi]
  {
    if lo < hi {
      assert s[off + lo] == s[off + lo..off + hi][0] == v[lo];
      assert s[off + hi - 1] == s[off + lo..off + hi][hi - lo - 1] == v[hi - 1];
    }
    TrimUnique(s, off + lo, off + hi);
  }

  /** Surrounding whitespace never reaches the trimmed value. */
  lemma TrimIgnoresPadding(p: string, v: string, q: string)
    requires AllSpace(p) && AllSpace(q)
    ensures Trim(p + v + q) == Trim(v)
  {
    var lo := StartIndex(v, 0);
    var hi := EndIndex(v, lo, |v|);
    PaddedSpaceBefore(p, v, q, lo);
    PaddedSpaceAfter(p, v, q, hi);
    PaddedSlice(p, v, q, lo, hi);
    TrimShifted(p + v + q, v, |p|, lo, hi);
  }

  /** Trimming twice is trimming once. */
  lemma {:induction false} TrimIdempotent(s: string)
    ensures Trim(Trim(s)) == Trim(s)
  {
    TrimUnique(Trim(s), 0, |Trim(s)|);
  }

  /** UTF-16 code units needed for one code point: two for a supplementary-plane character. */
  function Utf16Units(c: char): nat {
    if c as int > 0xFFFF then 2 else 1
  }

  /**
   * `String.prototype.length`: the number of UTF-16 code units, which lies between
   * the number of code points and twice that, and equals the number of code
   * points when every one of them is in the Basic Multilingual Plane.
   */
  function Utf16Length(s: string): (n: nat)
    ensures |s| <= n <= 2 * |s|
    ensures n == 0 <==> s == []
    ensures (forall i | 0 <= i < |s| :: s[i] as int <= 0xFFFF) ==> n == |s|
  {
    if s == [] then 0 else Utf16Units(s[0]) + Utf16Length(s[1..])
  }

}
