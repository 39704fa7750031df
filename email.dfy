/**
 * The contact form's email rule, the regular expression
 * `^[^\s@]+@[^\s@]+\.[^\s@]+$`, written out as a predicate over strings, and
 * the plain-words reading of it: exactly one `@`, a non-empty part before it,
 * no whitespace anywhere, and a `.` after the `@` with a character on each side.
 */
module Email {
  import opened Text

  /** One character of the class `[^\s@]`. */
  predicate Plain(c: char) {
    !IsSpace(c) && c != '@'
  }

  /** A run of `[^\s@]` characters (possibly empty; the pattern adds the `+`). */
  predicate AllPlain(s: string) {
    forall i | 0 <= i < |s| :: Plain(s[i])
  }

  /**
   * The regular expression as written: `s` splits as `a + "@" + b + "." + c`
   * with `a`, `b` and `c` non-empty runs of `[^\s@]`. The `@` sits at index
   * `at` and the escaped `.` at index `dot`.
   */
  predicate MatchesEmailPattern(s: string) {
    exists at, dot | 0 < at < dot - 1 && dot < |s| - 1 ::
      s[at] == '@' && s[dot] == '.'
      && AllPlain(s[..at]) && AllPlain(s[at + 1..dot]) && AllPlain(s[dot + 1..])
  }

  /** The domain part holds a `.` with at least one character before and after it. */
  predicate HasInnerDot(d: string) {
    exists k | 0 < k < |d| - 1 :: d[k] == '.'
  }

  /**
   * What an address accepted by the form looks like: exactly one `@`, not at the
   * start, no whitespace anywhere, and an inner `.` somewhere after the `@`.
   */
  predicate IsEmailAddress(s: string) {
    multiset(s)['@'] == 1 && NoSpace(s)
    && exists at | 0 < at < |s| :: s[at] == '@' && HasInnerDot(s[at + 1..])
  }

  /** A run without `@` contributes no `@` to the count. */
  lemma {:induction false} PlainHasNoAt(s: string)
    requires AllPlain(s)
    ensures multiset(s)['@'] == 0
  {
    if s != [] {
      assert s == [s[0]] + s[1..];
      assert AllPlain(s[1..]) by {
        forall i | 0 <= i < |s| - 1 ensures Plain(s[1..][i]) { assert s[1..][i] == s[i + 1]; }
      }
      PlainHasNoAt(s[1..]);
    }
  }

  /** With a single `@` in `s`, the one at `at` is the only one. */
  lemma OnlyAt(s: string, at: nat)
    requires at < |s| && s[at] == '@' && multiset(s)['@'] == 1
    ensures forall j | 0 <= j < |s| && j != at :: s[j] != '@'
  {
    assert s == s[..at] + [s[at]] + s[at + 1..];
    assert multiset(s[..at])['@'] == 0 && multiset(s[at + 1..])['@'] == 0;
    forall j | 0 <= j < |s| && j != at ensures s[j] != '@' {
      if j < at {
        assert s[j] in multiset(s[..at]) by { assert s[..at][j] == s[j]; }
      } else {
        assert s[j] in multiset(s[at + 1..]) by { assert s[at + 1..][j - at - 1] == s[j]; }
      }
    }
  }

  /** Gluing runs of `[^\s@]` around one `@` and one `.` gives a single `@` and no whitespace. */
  lemma JoinedParts(a: string, b: string, c: string)
    requires AllPlain(a) && AllPlain(b) && AllPlain(c)
    ensures multiset(a + ['@'] + b + ['.'] + c)['@'] == 1
    ensures NoSpace(a + ['@'] + b + ['.'] + c)
  {
    var s := a + ['@'] + b + ['.'] + c;
    PlainHasNoAt(a);
    PlainHasNoAt(b);
    PlainHasNoAt(c);
    assert multiset(s) == multiset(a) + multiset{'@'} + multiset(b) + multiset{'.'} + multiset(c);
    forall i | 0 <= i < |s| ensures !IsSpace(s[i]) {
      if i < |a| {
        assert s[i] == a[i];
      } else if |a| < i < |a| + 1 + |b| {
        assert s[i] == b[i - |a| - 1];
      } else if |a| + 1 + |b| < i {
        assert s[i] == c[i - |a| - |b| - 2];
      }
    }
  }

  /** A string split as the pattern requires has a single `@` and no whitespace. */
  lemma PatternParts(s: string, at: nat, dot: nat)
    requires 0 < at < dot - 1 && dot < |s| - 1 && s[at] == '@' && s[dot] == '.'
    requires AllPlain(s[..at]) && AllPlain(s[at + 1..dot]) && AllPlain(s[dot + 1..])
    ensures multiset(s)['@'] == 1 && NoSpace(s)
  {
    var a, b, c := s[..at], s[at + 1..dot], s[dot + 1..];
    assert s == a + ['@'] + b + ['.'] + c;
    JoinedParts(a, b, c);
  }

  lemma PatternImpliesAddress(s: string)
    requires MatchesEmailPattern(s)
    ensures IsEmailAddress(s)
  {
    var at, dot :| 0 < at < dot - 1 && dot < |s| - 1 && s[at] == '@' && s[dot] == '.'
      && AllPlain(s[..at]) && AllPlain(s[at + 1..dot]) && AllPlain(s[dot + 1..]);
    PatternParts(s, at, dot);
    assert s[at + 1..][dot - at - 1] == '.';
  }

  /** A stretch without whitespace or `@` is a run of `[^\s@]`. */
  lemma PlainSlice(s: string, lo: nat, hi: nat)
    requires lo <= hi <= |s| && NoSpace(s)
    requires forall j | lo <= j < hi :: s[j] != '@'
    ensures AllPlain(s[lo..hi])
  {
    forall i | 0 <= i < hi - lo ensures Plain(s[lo..hi][i]) {
      assert s[lo..hi][i] == s[lo + i];
    }
  }

  /** A string with its only `@` at `at`, a `.` at `dot` and no whitespace splits as the pattern requires. */
  lemma AddressSplit(s: string, at: nat, dot: nat)
    requires 0 < at < dot - 1 && dot < |s| - 1 && s[at] == '@' && s[dot] == '.' && NoSpace(s)
    requires forall j | 0 <= j < |s| && j != at :: s[j] != '@'
    ensures MatchesEmailPattern(s)
  {
    PlainSlice(s, 0, at);
    PlainSlice(s, at + 1, dot);
    PlainSlice(s, dot + 1, |s|);
    assert s[..at] == s[0..at] && s[dot + 1..] == s[dot + 1..|s|];
  }

  lemma AddressImpliesPattern(s: string)
    requires IsEmailAddress(s)
    ensures MatchesEmailPattern(s)
  {
    var at :| 0 < at < |s| && s[at] == '@' && HasInnerDot(s[at + 1..]);
    var k :| 0 < k < |s[at + 1..]| - 1 && s[at + 1..][k] == '.';
    OnlyAt(s, at);
    AddressSplit(s, at, at + 1 + k);
  }

  /** The regular expression accepts exactly the addresses described in plain words. */
  lemma EmailPatternIff(s: string)
    ensures MatchesEmailPattern(s) <==> IsEmailAddress(s)
  {
    if MatchesEmailPattern(s) { PatternImpliesAddress(s); }
    if IsEmailAddress(s) { AddressImpliesPattern(s); }
  }

}
