/**
 * Sequence operations shared by the three catalogue variants: order-keeping
 * filtering (`Array.prototype.filter`, a `WHERE` clause), the `LIMIT`/`OFFSET`
 * window and `Array.prototype.slice`.
 */
module Seqs {

  /** `a` can be obtained from `b` by deleting elements, keeping the rest in order. */
  ghost predicate SubsequenceOf<T>(a: seq<T>, b: seq<T>)
    decreases |b|
  {
    if |a| == 0 then true
    else if |b| == 0 then false
    else (a[0] == b[0] && SubsequenceOf(a[1..], b[1..])) || SubsequenceOf(a, b[1..])
  }

  /** The elements of `s` satisfying `keep`, in their original order. */
  function Filter<T(==)>(s: seq<T>, keep: T -> bool): (r: seq<T>)
    ensures |r| <= |s|
    ensures forall i :: 0 <= i < |r| ==> r[i] in s && keep(r[i])
    ensures forall i :: 0 <= i < |s| && keep(s[i]) ==> s[i] in r
    ensures multiset(r) <= multiset(s)
    ensures KeepsCounts(r, s, keep)
    ensures SubsequenceOf(r, s)
  {
    if |s| == 0 then []
    else
      var rest := Filter(s[1..], keep);
      var r := if keep(s[0]) then [s[0]] + rest else rest;
      FilterStepKept(s, keep, rest, r);
      FilterStepComplete(s, keep, rest, r);
      FilterStepOrder(s, keep, rest, r);
      FilterCountStep(s, keep, rest, r);
      r
  }

  /*
   * The recursive step of `Filter`, one property at a time: `r` is the
   * filter `rest` of the tail, with the head in front when it is kept.
   */

  lemma FilterStepKept<T>(s: seq<T>, keep: T -> bool, rest: seq<T>, r: seq<T>)
    requires |s| > 0 && r == (if keep(s[0]) then [s[0]] + rest else rest)
    requires forall i :: 0 <= i < |rest| ==> rest[i] in s[1..] && keep(rest[i])
    ensures forall i :: 0 <= i < |r| ==> r[i] in s && keep(r[i])
  {
    forall i | 0 <= i < |r| ensures r[i] in s && keep(r[i]) {
      if !keep(s[0]) || i > 0 {
        var k := if keep(s[0]) then i - 1 else i;
        assert r[i] == rest[k] && rest[k] in s[1..];
      }
    }
  }

  lemma FilterStepComplete<T>(s: seq<T>, keep: T -> bool, rest: seq<T>, r: seq<T>)
    requires |s| > 0 && r == (if keep(s[0]) then [s[0]] + rest else rest)
    requires forall i :: 0 <= i < |s[1..]| && keep(s[1..][i]) ==> s[1..][i] in rest
    ensures forall i :: 0 <= i < |s| && keep(s[i]) ==> s[i] in r
  {
    forall i | 0 <= i < |s| && keep(s[i]) ensures s[i] in r {
      if i > 0 {
        assert s[i] == s[1..][i - 1];
      }
    }
  }

  lemma FilterStepOrder<T>(s: seq<T>, keep: T -> bool, rest: seq<T>, r: seq<T>)
    requires |s| > 0 && r == (if keep(s[0]) then [s[0]] + rest else rest)
    requires multiset(rest) <= multiset(s[1..]) && SubsequenceOf(rest, s[1..])
    ensures multiset(r) <= multiset(s) && SubsequenceOf(r, s)
  {
    assert s == [s[0]] + s[1..];
    assert keep(s[0]) ==> r[1..] == rest;
  }

  /** Every element of `s` occurs in `r` as often as `keep` lets it through: all of its copies, or none. */
  ghost predicate KeepsCounts<T>(r: seq<T>, s: seq<T>, keep: T -> bool) {
    forall i :: 0 <= i < |s| ==> multiset(r)[s[i]] == if keep(s[i]) then multiset(s)[s[i]] else 0
  }

  /** Prepending the head, when kept, extends the counts of the tail's filter to the whole sequence. */
  lemma FilterCountStep<T>(s: seq<T>, keep: T -> bool, rest: seq<T>, r: seq<T>)
    requires |s| > 0 && r == (if keep(s[0]) then [s[0]] + rest else rest)
    requires multiset(rest) <= multiset(s[1..]) && KeepsCounts(rest, s[1..], keep)
    ensures KeepsCounts(r, s, keep)
  {
    assert s == [s[0]] + s[1..];
    assert multiset(r) == (if keep(s[0]) then multiset{s[0]} else multiset{}) + multiset(rest);
    forall i | 0 <= i < |s|
      ensures multiset(r)[s[i]] == if keep(s[i]) then multiset(s)[s[i]] else 0
    {
      if s[i] in s[1..] {
        var j :| 0 <= j < |s[1..]| && s[1..][j] == s[i];
      } else {
        assert multiset(s[1..])[s[i]] == 0;
      }
    }
  }

  /** Filtering with a predicate every element satisfies keeps the sequence whole. */
  lemma {:induction false} FilterKeepsAll<T>(s: seq<T>, keep: T -> bool)
    requires forall i :: 0 <= i < |s| ==> keep(s[i])
    ensures Filter(s, keep) == s
  {
    if |s| > 0 {
      FilterKeepsAll(s[1..], keep);
      assert s == [s[0]] + s[1..];
    }
  }

  /** `SQL ... LIMIT limit OFFSET offset`: skip `offset` elements, then take at most `limit`. */
  function Window<T>(s: seq<T>, offset: nat, limit: nat): (r: seq<T>)
    ensures |r| <= limit
    ensures offset >= |s| ==> r == []
    ensures offset < |s| ==> |r| == (if offset + limit <= |s| then limit else |s| - offset)
    ensures forall i :: 0 <= i < |r| ==> r[i] == s[offset + i]
  {
    var lo := if offset < |s| then offset else |s|;
    var hi := if offset + limit < |s| then offset + limit else |s|;
    s[lo..hi]
  }

  /** The element at position `p` is in every window that covers `p`. */
  lemma WindowHolds<T>(s: seq<T>, offset: nat, limit: nat, p: nat)
    requires offset <= p < offset + limit && p < |s|
    ensures s[p] in Window(s, offset, limit)
  {
    assert Window(s, offset, limit)[p - offset] == s[p];
  }

  /** Two adjacent windows make up one window of their joint length. */
  lemma WindowsAdjoin<T>(s: seq<T>, offset: nat, a: nat, b: nat)
    ensures Window(s, offset, a) + Window(s, offset + a, b) == Window(s, offset, a + b)
  {
  }

  /** Two pages of the same size, one right after the other, make the window of twice that size. */
  lemma AdjacentWindows<T>(s: seq<T>, offset: nat, limit: nat, first: seq<T>, second: seq<T>)
    requires first == Window(s, offset, limit) && second == Window(s, offset + limit, limit)
    ensures first + second == Window(s, offset, 2 * limit)
  {
    WindowsAdjoin(s, offset, limit, limit);
  }

  /** A position argument of `slice`: negative counts from the end, then clamped to `[0, n]`. */
  function SliceIndex(k: int, n: nat): (r: nat)
    ensures r <= n
    ensures 0 <= k ==> r == (if k < n then k else n)
    ensures k < 0 ==> r == (if n + k < 0 then 0 else n + k)
  {
    if k < 0 then (if n + k < 0 then 0 else n + k) else if k < n then k else n
  }

  /** `s.slice(start, end)` of JavaScript. */
  function JsSlice<T>(s: seq<T>, start: int, end: int): (r: seq<T>)
    ensures 0 <= start && start <= end ==> r == Window(s, start, end - start)
    ensures 0 <= end <= start || end <= start < 0 ==> r == []
    ensures start <= end ==> |r| <= end - start
    ensures var lo, hi := SliceIndex(start, |s|), SliceIndex(end, |s|);
      |r| == (if lo < hi then hi - lo else 0) && forall i :: 0 <= i < |r| ==> r[i] == s[lo + i]
    ensures |r| <= |s|
    ensures forall i :: 0 <= i < |r| ==> r[i] in s
  {
    var lo := SliceIndex(start, |s|);
    var hi := SliceIndex(end, |s|);
    if lo < hi then s[lo..hi] else []
  }

  /** A negative start within range counts back from the end: it is the same slice as from `|s| + start`. */
  lemma SliceFromEnd<T>(s: seq<T>, start: int, end: int)
    requires -|s| <= start < 0
    ensures JsSlice(s, start, end) == JsSlice(s, |s| + start, end)
  {
  }

  /** Elements at distinct positions differ. */
  ghost predicate NoDuplicates<T>(s: seq<T>) {
    forall i, j :: 0 <= i < j < |s| ==> s[i] != s[j]
  }

  lemma {:induction false} NoDuplicatesCount<T>(s: seq<T>, x: T)
    requires NoDuplicates(s)
    ensures multiset(s)[x] <= 1
  {
    if |s| > 0 {
      assert s == [s[0]] + s[1..];
      NoDuplicatesCount(s[1..], x);
      if s[0] == x {
        assert x !in s[1..];
      }
    }
  }

  /** An element occurring at two positions is counted at least twice. */
  lemma RepeatCount<T>(s: seq<T>, i: int, j: int)
    requires 0 <= i < j < |s| && s[i] == s[j]
    ensures multiset(s)[s[i]] >= 2
  {
    assert s == s[..j] + [s[j]] + s[j + 1..];
    assert s[i] in s[..j];
  }
}
