/** String facts shared by the model: where a literal occurs, how a
    left-to-right literal search counts matches, and decimal rendering of
    naturals (Python's `str(n)` / f-string `{n}` for n >= 0). */
module Text {

  // ---------------------------------------------------------------------
  // Occurrences of a literal
  // ---------------------------------------------------------------------

  /** `p` occurs in `s` starting at index `i`. */
  predicate OccursAt(p: string, s: string, i: nat) {
    i + |p| <= |s| && s[i..i + |p|] == p
  }

  /** `p` occurs somewhere in `s` (Python's `p in s`). */
  predicate Contains(s: string, p: string) {
    exists i: nat | i <= |s| :: OccursAt(p, s, i)
  }

  /** The leftmost index at which `p` occurs in `s`. */
  lemma FirstOccurrence(p: string, s: string) returns (i: nat)
    requires Contains(s, p)
    ensures i <= |s| && OccursAt(p, s, i)
    ensures forall m :: 0 <= m < i ==> !OccursAt(p, s, m)
  {
    var j: nat :| j <= |s| && OccursAt(p, s, j);
    i := 0;
    while i < j && !OccursAt(p, s, i)
      invariant i <= j
      invariant forall m :: 0 <= m < i ==> !OccursAt(p, s, m)
      decreases j - i
    {
      i := i + 1;
    }
  }

  /** Number of matches a left-to-right search finds when every match
      resumes the search just after itself: what `len(re.findall(p, s))`
      returns for a pattern `p` without metacharacters. */
  function CountMatches(p: string, s: string): (r: nat)
    requires |p| > 0
    ensures r * |p| <= |s|
    decreases |s|
  {
    if |s| < |p| then 0
    else if p <= s then 1 + CountMatches(p, s[|p|..])
    else CountMatches(p, s[1..])
  }

  /** Number of indices at which `p` occurs, overlapping occurrences
      included. */
  function Occurrences(p: string, s: string): nat
    requires |p| > 0
    decreases |s|
  {
    if |s| < |p| then 0
    else (if p <= s then 1 else 0) + Occurrences(p, s[1..])
  }

  /** No proper suffix of `p` is also a prefix of `p`, so two occurrences
      of `p` can never overlap. */
  predicate SelfDisjoint(p: string) {
    forall k :: 0 < k < |p| ==> !(p[k..] <= p)
  }

  /** The first character of `p` never reappears in `p`. */
  predicate HeadUnique(p: string) {
    |p| > 0 && p[0] !in p[1..]
  }

  lemma HeadUniqueIsSelfDisjoint(p: string)
    requires HeadUnique(p)
    ensures SelfDisjoint(p)
  {
    forall k | 0 < k < |p|
      ensures !(p[k..] <= p)
    {
      assert p[1..][k - 1] == p[k];
      assert p[k..][0] != p[0];
    }
  }

  /** Inside a match of a self-disjoint `p` that starts at index 0 of `s`,
      no further occurrence starts before index |p|. */
  lemma {:induction false} NoOccurrenceInsideMatch(p: string, s: string, k: nat)
    requires |p| > 0 && SelfDisjoint(p) && p <= s && 1 <= k <= |p|
    ensures Occurrences(p, s[k..]) == Occurrences(p, s[|p|..])
    decreases |p| - k
  {
    if k < |p| {
      // A match at k would make p[k..] a prefix of p.
      assert p[k..] != p[..|p| - k];
      var j :| 0 <= j < |p| - k && p[k..][j] != p[..|p| - k][j];
      assert s[k..][j] == s[k + j] == p[k + j];
      assert !(p <= s[k..]);
      NoOccurrenceInsideMatch(p, s, k + 1);
      assert s[k..][1..] == s[k + 1..];
    }
  }

  /** For a literal that cannot overlap itself, the resuming search counts
      every occurrence. */
  lemma {:induction false} CountMatchesIsOccurrences(p: string, s: string)
    requires |p| > 0 && SelfDisjoint(p)
    ensures CountMatches(p, s) == Occurrences(p, s)
    decreases |s|
  {
    if |s| < |p| {
    } else if p <= s {
      CountMatchesIsOccurrences(p, s[|p|..]);
      NoOccurrenceInsideMatch(p, s, 1);
    } else {
      CountMatchesIsOccurrences(p, s[1..]);
    }
  }

  /** The search finds something exactly when the literal occurs. */
  lemma {:induction false} CountMatchesPositive(p: string, s: string)
    requires |p| > 0
    ensures CountMatches(p, s) > 0 <==> Contains(s, p)
    decreases |s|
  {
    if |s| < |p| {
      forall i: nat | i <= |s|
        ensures !OccursAt(p, s, i)
      {
      }
    } else if p <= s {
      assert OccursAt(p, s, 0);
    } else {
      CountMatchesPositive(p, s[1..]);
      if Contains(s, p) {
        var i: nat :| i <= |s| && OccursAt(p, s, i);
        assert i != 0;
        assert s[1..][i - 1..i - 1 + |p|] == s[i..i + |p|];
        assert OccursAt(p, s[1..], i - 1);
      }
      if Contains(s[1..], p) {
        var i: nat :| i <= |s[1..]| && OccursAt(p, s[1..], i);
        assert s[i + 1..i + 1 + |p|] == s[1..][i..i + |p|];
        assert OccursAt(p, s, i + 1);
      }
    }
  }

  /** Reading `u` from index `i`, some character of `p` at an index >= j
      disagrees with `u` before `u` ends; so `p` cannot start at index `i`
      of `u`, whatever text follows `u`. */
  predicate MismatchFrom(p: string, u: string, i: nat, j: nat)
    decreases |p| - j
  {
    j < |p| && i + j < |u| && (u[i + j] != p[j] || MismatchFrom(p, u, i, j + 1))
  }

  /** `p` cannot start at any index in [lo, hi) of `u`. */
  predicate NoStartIn(p: string, u: string, lo: nat, hi: nat) {
    forall k :: lo <= k < hi ==> MismatchFrom(p, u, k, 0)
  }

  /** A single disagreeing character, early enough, is a mismatch. */
  lemma {:induction false} MismatchWitness(p: string, u: string, i: nat, j: nat, k: nat)
    requires k <= j < |p| && i + j < |u| && u[i + j] != p[j]
    ensures MismatchFrom(p, u, i, k)
    decreases j - k
  {
    if k < j {
      MismatchWitness(p, u, i, j, k + 1);
    }
  }

  /** A single disagreeing character rules out one start index. */
  lemma NoStartAt(p: string, u: string, i: nat, j: nat)
    requires j < |p| && i + j < |u| && u[i + j] != p[j]
    ensures NoStartIn(p, u, i, i + 1)
  {
    MismatchWitness(p, u, i, j, 0);
  }

  lemma NoStartInJoin(p: string, u: string, lo: nat, mid: nat, hi: nat)
    requires lo <= mid <= hi && NoStartIn(p, u, lo, mid) && NoStartIn(p, u, mid, hi)
    ensures NoStartIn(p, u, lo, hi)
  {
  }

  /** Where the first character of `p` is absent, `p` cannot start. */
  lemma HeadAbsent(p: string, u: string, lo: nat, hi: nat)
    requires 0 < |p| && lo <= hi <= |u| && p[0] !in u[lo..hi]
    ensures NoStartIn(p, u, lo, hi)
  {
    forall k | lo <= k < hi
      ensures MismatchFrom(p, u, k, 0)
    {
      assert u[lo..hi][k - lo] == u[k];
      MismatchWitness(p, u, k, 0, 0);
    }
  }

  lemma {:induction false} MismatchIndex(p: string, u: string, i: nat, j: nat)
    requires MismatchFrom(p, u, i, j)
    ensures exists k :: j <= k < |p| && i + k < |u| && u[i + k] != p[k]
    decreases |p| - j
  {
    if u[i + j] == p[j] {
      MismatchIndex(p, u, i, j + 1);
    }
  }

  lemma MismatchBlocksPrefix(p: string, u: string, i: nat, rest: string)
    requires MismatchFrom(p, u, i, 0)
    ensures !(p <= (u + rest)[i..])
  {
    MismatchIndex(p, u, i, 0);
    var k :| 0 <= k < |p| && i + k < |u| && u[i + k] != p[k];
    assert (u + rest)[i..][k] == u[i + k];
  }

  /** Text from index `i` of `u` in which `p` cannot start adds no match to
      the search, whatever follows it. */
  lemma {:induction false} SkipUnmatched(p: string, u: string, i: nat, rest: string)
    requires |p| > 0 && i <= |u| && NoStartIn(p, u, i, |u|)
    ensures CountMatches(p, u[i..] + rest) == CountMatches(p, rest)
    decreases |u| - i
  {
    if i == |u| {
      assert u[i..] + rest == rest;
    } else {
      MismatchBlocksPrefix(p, u, i, rest);
      assert (u + rest)[i..] == u[i..] + rest;
      assert (u[i..] + rest)[1..] == u[i + 1..] + rest;
      SkipUnmatched(p, u, i + 1, rest);
    }
  }

  lemma PrefixExtended(h: string, a: string, b: string)
    requires h <= a
    ensures h <= a + b
  {
    assert (a + b)[..|h|] == a[..|h|];
  }

  lemma ContainsHead(p: string, b: string)
    ensures Contains(p + b, p)
  {
    assert (p + b)[0..|p|] == p;
    assert OccursAt(p, p + b, 0);
  }

  /** An occurrence survives text added on the right. */
  lemma ContainsBefore(s: string, b: string, p: string)
    requires Contains(s, p)
    ensures Contains(s + b, p)
  {
    var i: nat :| i <= |s| && OccursAt(p, s, i);
    assert (s + b)[i..i + |p|] == s[i..i + |p|];
    assert OccursAt(p, s + b, i);
  }

  /** An occurrence survives text added on the left. */
  lemma ContainsAfter(a: string, s: string, p: string)
    requires Contains(s, p)
    ensures Contains(a + s, p)
  {
    var i: nat :| i <= |s| && OccursAt(p, s, i);
    assert (a + s)[|a| + i..|a| + i + |p|] == s[i..i + |p|];
    assert OccursAt(p, a + s, |a| + i);
  }

  // ---------------------------------------------------------------------
  // Decimal rendering
  // ---------------------------------------------------------------------

  predicate IsDigit(c: char) {
    '0' <= c <= '9'
  }

  predicate AllDigits(s: string) {
    forall i :: 0 <= i < |s| ==> IsDigit(s[i])
  }

  /** Some character of `s` is a decimal digit. */
  predicate HasDigit(s: string) {
    exists i :: 0 <= i < |s| && IsDigit(s[i])
  }

  function DigitChar(d: nat): (c: char)
    requires d < 10
    ensures IsDigit(c)
  {
    ('0' as int + d) as char
  }

  function DigitValue(c: char): (d: nat)
    requires IsDigit(c)
    ensures d < 10
  {
    c as int - '0' as int
  }

  /** Canonical decimal rendering of `n`: non-empty, all digits, no leading
      zero unless the number is 0 itself. */
  function NatToString(n: nat): (r: string)
    ensures |r| > 0 && AllDigits(r)
    ensures |r| > 1 ==> r[0] != '0'
    decreases n
  {
    if n < 10 then [DigitChar(n)]
    else NatToString(n / 10) + [DigitChar(n % 10)]
  }

  /** The number a string of decimal digits denotes. */
  function DigitsValue(s: string): nat
    requires AllDigits(s)
    decreases |s|
  {
    if |s| == 0 then 0
    else 10 * DigitsValue(s[..|s| - 1]) + DigitValue(s[|s| - 1])
  }

  lemma {:induction false} DigitsValueOfNatToString(n: nat)
    ensures DigitsValue(NatToString(n)) == n
    decreases n
  {
    if n >= 10 {
      var r := NatToString(n);
      assert r[..|r| - 1] == NatToString(n / 10);
      DigitsValueOfNatToString(n / 10);
    }
  }

  lemma NatToStringInjective(m: nat, n: nat)
    requires NatToString(m) == NatToString(n)
    ensures m == n
  {
    DigitsValueOfNatToString(m);
    DigitsValueOfNatToString(n);
  }

  /** `n` copies of `c`. */
  function Repeat(c: char, n: nat): (r: string)
    ensures |r| == n && forall i :: 0 <= i < n ==> r[i] == c
  {
    seq(n, _ => c)
  }
}
