/** Two generic scanners that every hand-written matcher in this model is
    built from: the end of a maximal run of characters of one class, and the
    first index at which a position predicate holds (leftmost search). */
module Scan {
  import opened Wrappers

  /** End of the maximal run of characters satisfying `p` that starts at
      index `i` of `s` (the greedy `[...]*` of a regular expression). */
  function Span(s: string, i: nat, p: char -> bool): (j: nat)
    requires i <= |s|
    ensures i <= j <= |s|
    ensures forall k :: i <= k < j ==> p(s[k])
    ensures j == |s| || !p(s[j])
    decreases |s| - i
  {
    if i == |s| || !p(s[i]) then i else Span(s, i + 1, p)
  }

  /** The smallest index in `[from, n)` satisfying `p`, if any. */
  function FirstIndex(n: nat, p: nat -> bool, from: nat): (r: Option<nat>)
    requires from <= n
    ensures r.Some? ==> from <= r.value < n && p(r.value)
    ensures r.Some? ==> forall k :: from <= k < r.value ==> !p(k)
    ensures r.None? ==> forall k :: from <= k < n ==> !p(k)
    decreases n - from
  {
    if from == n then None
    else if p(from) then Some(from)
    else FirstIndex(n, p, from + 1)
  }

  /** Two maximal runs from the same start are the same run. */
  lemma SpanUnique(s: string, i: nat, p: char -> bool, j: nat)
    requires i <= j <= |s|
    requires forall k :: i <= k < j ==> p(s[k])
    requires j == |s| || !p(s[j])
    ensures Span(s, i, p) == j
  {
  }

  /** A run of `p`-characters between a prefix and a suffix that does not
      start with one is spanned whole. */
  lemma SpanOver(pre: string, d: string, post: string, p: char -> bool)
    requires forall k :: 0 <= k < |d| ==> p(d[k])
    requires post == [] || !p(post[0])
    ensures Span(pre + d + post, |pre|, p) == |pre| + |d|
  {
    var s := pre + d + post;
    forall k | |pre| <= k < |pre| + |d| ensures p(s[k]) {
      assert s[k] == d[k - |pre|];
    }
    if post != [] {
      assert s[|pre| + |d|] == post[0];
    }
    SpanUnique(s, |pre|, p, |pre| + |d|);
  }

  /** `s[i..j]` is the first maximal run of characters satisfying `p`. */
  predicate IsFirstRun(s: string, p: char -> bool, i: nat, j: nat) {
    i < j <= |s|
    && (forall k :: 0 <= k < i ==> !p(s[k]))
    && (forall k :: i <= k < j ==> p(s[k]))
    && (j == |s| || !p(s[j]))
  }

  /** The first maximal run of characters satisfying `p` (what `re.search`
      of `[...]+` finds), as a pair of bounds. */
  function FirstRun(s: string, p: char -> bool): (r: Option<(nat, nat)>)
    ensures r.Some? ==> IsFirstRun(s, p, r.value.0, r.value.1)
    ensures r.None? <==> forall k :: 0 <= k < |s| ==> !p(s[k])
  {
    var at := (i: nat) => i < |s| && p(s[i]);
    match FirstIndex(|s|, at, 0)
    case None =>
      forall k | 0 <= k < |s| ensures !p(s[k]) {
        assert !at(k);
      }
      None
    case Some(i) =>
      forall k | 0 <= k < i ensures !p(s[k]) {
        assert !at(k);
      }
      Some((i, Span(s, i, p)))
  }

  /** The first run is unique. */
  lemma FirstRunUnique(s: string, p: char -> bool, i: nat, j: nat)
    requires IsFirstRun(s, p, i, j)
    ensures FirstRun(s, p) == Some((i, j))
  {
    assert p(s[i]);
    SpanUnique(s, i, p, j);
  }

  /** Leftmost-match search (`re.search`): `at(i)` is what a match
      starting at index `i` captures, if one starts there; the result is the
      capture of the smallest index in `[0, n]` where a match starts. */
  function Search<T>(n: nat, at: nat -> Option<T>): (r: Option<T>)
    ensures r.None? <==> forall i :: 0 <= i <= n ==> at(i).None?
    ensures r.Some? ==> exists i :: 0 <= i <= n && at(i) == r
    ensures forall i :: (0 <= i <= n && at(i).Some? && forall k :: 0 <= k < i ==> at(k).None?) ==> r == at(i)
  {
    var starts := (i: nat) => at(i).Some?;
    match FirstIndex(n + 1, starts, 0)
    case None =>
      forall i | 0 <= i <= n ensures at(i).None? {
        assert !starts(i);
      }
      None
    case Some(i) =>
      forall k | 0 <= k < i ensures at(k).None? {
        assert !starts(k);
      }
      at(i)
  }
}
