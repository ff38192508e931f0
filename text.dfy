/**
 * The few Python string operations the bot relies on: `str.strip()` with no
 * argument, `str.isdigit()`, the substring test `p in s` and `str.endswith`.
 * Strings are sequences of Unicode scalar values.
 */
module Text {

  /** The characters for which Python's `str.isspace()` holds; `str.strip()` removes exactly these. */
  predicate IsSpace(c: char) {
    c == ' ' || ('\t' <= c <= '\r') || ('\U{1c}' <= c <= '\U{1f}')
    || c == '\U{85}' || c == '\U{a0}' || c == '\U{1680}'
    || ('\U{2000}' <= c <= '\U{200a}') || c == '\U{2028}' || c == '\U{2029}'
    || c == '\U{202f}' || c == '\U{205f}' || c == '\U{3000}'
  }

  /** Every character of `s` in the index range [lo, hi) is whitespace. */
  predicate SpaceBetween(s: string, lo: nat, hi: nat)
    requires lo <= hi <= |s|
  {
    forall k :: lo <= k < hi ==> IsSpace(s[k])
  }

  predicate AllSpace(s: string) {
    SpaceBetween(s, 0, |s|)
  }

  /** Scans forward from `i` past whitespace: the first non-whitespace index at or after `i`, or `|s|`. */
  function SkipSpace(s: string, i: nat): (j: nat)
    requires i <= |s|
    ensures i <= j <= |s| && SpaceBetween(s, i, j)
    ensures j == |s| || !IsSpace(s[j])
    decreases |s| - i
  {
    if i == |s| || !IsSpace(s[i]) then i else SkipSpace(s, i + 1)
  }

  /** Scans backward from `j` past whitespace, never below `lo`. */
  function SkipSpaceBack(s: string, lo: nat, j: nat): (k: nat)
    requires lo <= j <= |s|
    ensures lo <= k <= j && SpaceBetween(s, k, j)
    ensures k == lo || !IsSpace(s[k - 1])
    decreases j - lo
  {
    if j == lo || !IsSpace(s[j - 1]) then j else SkipSpaceBack(s, lo, j - 1)
  }

  /** Where the stripped text of `s` begins. */
  function StripStart(s: string): nat {
    SkipSpace(s, 0)
  }

  /** Where the stripped text of `s` ends (exclusive). */
  function StripEnd(s: string): (e: nat)
    ensures StripStart(s) <= e <= |s|
  {
    SkipSpaceBack(s, StripStart(s), |s|)
  }

  /**
   * Python's `s.strip()`: the text of `s` between its leading and its
   * trailing whitespace, itself neither starting nor ending with whitespace.
   */
  function Strip(s: string): (r: string)
    ensures |r| <= |s|
    ensures SpaceBetween(s, 0, StripStart(s)) && SpaceBetween(s, StripEnd(s), |s|)
    ensures r == [] || (!IsSpace(r[0]) && !IsSpace(r[|r| - 1]))
  {
    s[StripStart(s)..StripEnd(s)]
  }

  /** Python's `str.isdigit()` restricted to the ASCII digits; false on the empty string. */
  predicate IsDigits(s: string) {
    |s| > 0 && forall k :: 0 <= k < |s| ==> '0' <= s[k] <= '9'
  }

  predicate OccursAt(s: string, p: string, i: nat) {
    i + |p| <= |s| && s[i..i + |p|] == p
  }

  /** Python's substring test `p in s`. */
  function Contains(s: string, p: string): (b: bool)
    ensures b <==> exists i: nat :: OccursAt(s, p, i)
  {
    if |s| < |p| then
      false
    else if s[..|p|] == p then
      assert OccursAt(s, p, 0);
      true
    else
      var b := Contains(s[1..], p);
      assert forall i: nat :: OccursAt(s[1..], p, i) <==> OccursAt(s, p, i + 1) by {
        forall i: nat ensures OccursAt(s[1..], p, i) <==> OccursAt(s, p, i + 1) {
          if i + |p| <= |s[1..]| {
            assert s[1..][i..i + |p|] == s[i + 1..i + 1 + |p|];
          }
        }
      }
      assert !OccursAt(s, p, 0);
      assert forall i: nat :: OccursAt(s, p, i) ==> i == 0 || OccursAt(s[1..], p, i - 1);
      b
  }

  /** Python's `s.endswith(suffix)`. */
  predicate EndsWith(s: string, suffix: string) {
    |suffix| <= |s| && s[|s| - |suffix|..] == suffix
  }

  /** Stripping is the empty string exactly when the whole input is whitespace. */
  lemma StripEmptyIffAllSpace(s: string)
    ensures Strip(s) == [] <==> AllSpace(s)
  {
    var i, j := StripStart(s), StripEnd(s);
    if Strip(s) == [] {
      // the forward scan stops at a non-whitespace character, which the backward scan would keep
      if i < |s| { assert false; }
      assert SpaceBetween(s, 0, i);
    } else {
      assert s[i] == Strip(s)[0];
    }
  }

  /**
   * Any split of `s` into whitespace, a text that neither starts nor ends
   * with whitespace, and whitespace, has that text as its stripped form.
   */
  lemma StripUnique(s: string, i: nat, j: nat)
    requires i <= j <= |s|
    requires SpaceBetween(s, 0, i) && SpaceBetween(s, j, |s|)
    requires i == j || (!IsSpace(s[i]) && !IsSpace(s[j - 1]))
    ensures Strip(s) == s[i..j]
  {
    var i', j' := StripStart(s), StripEnd(s);
    if i == j {
      forall k | 0 <= k < |s| ensures IsSpace(s[k]) {
        if k < i { assert SpaceBetween(s, 0, i); } else { assert SpaceBetween(s, j, |s|); }
      }
      StripEmptyIffAllSpace(s);
    } else {
      if i' == j' {
        StripEmptyIffAllSpace(s);
        assert false;
      }
      assert !IsSpace(s[i']) && !IsSpace(s[j' - 1]) by {
        assert s[i'] == Strip(s)[0];
        assert s[j' - 1] == Strip(s)[|Strip(s)| - 1];
      }
      assert i' == i;
      assert j' == j;
    }
  }

  /** Stripping twice is stripping once. */
  lemma StripIdempotent(s: string)
    ensures Strip(Strip(s)) == Strip(s)
  {
    var r := Strip(s);
    StripUnique(r, 0, |r|);
    assert r[0..|r|] == r;
  }

  /** Where the stripped text of `a + s` lies when `a` is whitespace. */
  lemma PadStartBounds(a: string, s: string)
    requires AllSpace(a)
    ensures var u, i, j := a + s, StripStart(s), StripEnd(s);
      SpaceBetween(u, 0, |a| + i) && SpaceBetween(u, |a| + j, |u|)
      && (i == j || (!IsSpace(u[|a| + i]) && !IsSpace(u[|a| + j - 1])))
  {
    var u, i, j := a + s, StripStart(s), StripEnd(s);
    forall k | 0 <= k < |a| + i ensures IsSpace(u[k]) {
      if k < |a| { assert u[k] == a[k]; } else { assert u[k] == s[k - |a|]; }
    }
    forall k | |a| + j <= k < |u| ensures IsSpace(u[k]) {
      assert u[k] == s[k - |a|];
    }
    if i < j {
      assert s[i] == Strip(s)[0] && s[j - 1] == Strip(s)[|Strip(s)| - 1];
      assert u[|a| + i] == s[i] && u[|a| + j - 1] == s[j - 1];
    }
  }

  /** Leading whitespace does not change the stripped form. */
  lemma StripPadStart(a: string, s: string)
    requires AllSpace(a)
    ensures Strip(a + s) == Strip(s)
  {
    var u, i, j := a + s, StripStart(s), StripEnd(s);
    PadStartBounds(a, s);
    StripUnique(u, |a| + i, |a| + j);
    assert u[|a| + i..|a| + j] == s[i..j];
  }

  /** Where the stripped text of `s + b` lies when `b` is whitespace. */
  lemma PadEndBounds(s: string, b: string)
    requires AllSpace(b)
    ensures var u, i, j := s + b, StripStart(s), StripEnd(s);
      SpaceBetween(u, 0, i) && SpaceBetween(u, j, |u|)
      && (i == j || (!IsSpace(u[i]) && !IsSpace(u[j - 1])))
  {
    var u, i, j := s + b, StripStart(s), StripEnd(s);
    forall k | 0 <= k < i ensures IsSpace(u[k]) {
      assert u[k] == s[k];
    }
    forall k | j <= k < |u| ensures IsSpace(u[k]) {
      if k < |s| { assert u[k] == s[k]; } else { assert u[k] == b[k - |s|]; }
    }
    if i < j {
      assert s[i] == Strip(s)[0] && s[j - 1] == Strip(s)[|Strip(s)| - 1];
      assert u[i] == s[i] && u[j - 1] == s[j - 1];
    }
  }

  /** Trailing whitespace does not change the stripped form. */
  lemma StripPadEnd(s: string, b: string)
    requires AllSpace(b)
    ensures Strip(s + b) == Strip(s)
  {
    var u, i, j := s + b, StripStart(s), StripEnd(s);
    PadEndBounds(s, b);
    StripUnique(u, i, j);
    assert u[i..j] == s[i..j];
  }

  /** Occurrences inside an infix of `s` are occurrences in that infix, shifted. */
  lemma OccursInInfix(s: string, p: string, lo: nat, hi: nat, n: nat)
    requires lo <= n && n + |p| <= hi <= |s|
    ensures OccursAt(s, p, n) <==> OccursAt(s[lo..hi], p, n - lo)
  {
    var a, b := s[lo..hi][n - lo..n - lo + |p|], s[n..n + |p|];
    forall k | 0 <= k < |p| ensures a[k] == b[k] {
      assert a[k] == s[lo..hi][n - lo + k] == s[n + k];
    }
    assert a == b;
  }

  /** An occurrence in the stripped form of `s` is an occurrence in `s`. */
  lemma ContainsOfStripped(s: string, p: string)
    requires Contains(Strip(s), p)
    ensures Contains(s, p)
  {
    var i, j := StripStart(s), StripEnd(s);
    var m: nat :| OccursAt(s[i..j], p, m);
    OccursInInfix(s, p, i, j, i + m);
  }

  /** An occurrence of `p` in `s` lies in the stripped form when `p` neither starts nor ends with whitespace. */
  lemma OccurrenceWithinStrip(s: string, p: string, n: nat)
    requires p != [] && !IsSpace(p[0]) && !IsSpace(p[|p| - 1])
    requires OccursAt(s, p, n)
    ensures StripStart(s) <= n && n + |p| <= StripEnd(s)
  {
    var i, j := StripStart(s), StripEnd(s);
    assert s[n] == p[0] && s[n + |p| - 1] == p[|p| - 1];
  }

  /**
   * An occurrence in `s` of a pattern that neither starts nor ends with
   * whitespace is an occurrence in the stripped form of `s`.
   */
  lemma ContainsInStripped(s: string, p: string)
    requires p != [] && !IsSpace(p[0]) && !IsSpace(p[|p| - 1])
    requires Contains(s, p)
    ensures Contains(Strip(s), p)
  {
    var n: nat :| OccursAt(s, p, n);
    OccurrenceWithinStrip(s, p, n);
    OccursInInfix(s, p, StripStart(s), StripEnd(s), n);
  }
}
