/**
 * The two orders the catalogue produces: records sorted descending by a
 * two-part key (`ORDER BY last_seen DESC, id DESC`, or a comparator on
 * `lastSeen`), and strings sorted ascending with duplicates collapsed
 * (`SELECT DISTINCT ... ORDER BY`, `Array.from(new Set(..)).sort()`).
 */
module Ordering {
  import opened Text
  import opened Seqs

  /** A sort key compared lexicographically: first component, then second. */
  type Key = (int, int)

  predicate KeyGe(a: Key, b: Key) {
    a.0 > b.0 || (a.0 == b.0 && a.1 >= b.1)
  }

  predicate KeyGt(a: Key, b: Key) {
    a.0 > b.0 || (a.0 == b.0 && a.1 > b.1)
  }

  /** Every earlier element has a key at least as large as every later one. */
  ghost predicate SortedDesc<T>(s: seq<T>, key: T -> Key) {
    forall i, j :: 0 <= i < j < |s| ==> KeyGe(key(s[i]), key(s[j]))
  }

  /** Keys strictly decrease along `s`. */
  ghost predicate StrictlyDesc<T>(s: seq<T>, key: T -> Key) {
    forall i, j :: 0 <= i < j < |s| ==> KeyGt(key(s[i]), key(s[j]))
  }

  /** Places `x` before the first element whose key does not exceed its own. */
  function InsertDesc<T>(x: T, s: seq<T>, key: T -> Key): (r: seq<T>)
    requires SortedDesc(s, key)
    ensures SortedDesc(r, key)
    ensures multiset(r) == multiset(s) + multiset{x}
  {
    if |s| == 0 || KeyGe(key(x), key(s[0])) then
      [x] + s
    else
      var rest := InsertDesc(x, s[1..], key);
      var r := [s[0]] + rest;
      assert SortedDesc(r, key) by {
        forall k | 0 <= k < |rest| ensures KeyGe(key(s[0]), key(rest[k])) {
          assert rest[k] in multiset(s[1..]) + multiset{x};
          if rest[k] != x {
            SortedHeadDominates(s, key, rest[k]);
          }
        }
      }
      assert multiset(r) == multiset(s) + multiset{x} by {
        assert s == [s[0]] + s[1..];
      }
      r
  }

  /** The head of a sorted sequence has a key at least as large as that of any later element. */
  lemma SortedHeadDominates<T>(s: seq<T>, key: T -> Key, y: T)
    requires SortedDesc(s, key) && |s| > 0 && y in multiset(s[1..])
    ensures KeyGe(key(s[0]), key(y))
  {
    var j :| 0 <= j < |s[1..]| && s[1..][j] == y;
    assert s[j + 1] == y;
  }

  /** Insertion sort, descending by `key`; a stable sort. */
  function SortDesc<T>(s: seq<T>, key: T -> Key): (r: seq<T>)
    ensures SortedDesc(r, key)
    ensures multiset(r) == multiset(s)
    ensures |r| == |s|
  {
    if |s| == 0 then []
    else
      assert s == [s[0]] + s[1..];
      InsertDesc(s[0], SortDesc(s[1..], key), key)
  }

  lemma HeadIn<T>(s: seq<T>)
    requires |s| > 0
    ensures s[0] in s
  {
  }

  /** Removing the same first element from two equal multisets leaves equal multisets. */
  lemma MultisetTail<T>(a: seq<T>, b: seq<T>)
    requires |a| > 0 && |b| > 0 && a[0] == b[0]
    requires multiset(a) == multiset(b)
    ensures multiset(a[1..]) == multiset(b[1..])
  {
    assert a == [a[0]] + a[1..];
    assert b == [b[0]] + b[1..];
    assert multiset(a) == multiset{a[0]} + multiset(a[1..]);
    assert multiset(b) == multiset{b[0]} + multiset(b[1..]);
    assert multiset(a[1..]) == multiset(a) - multiset{a[0]};
  }

  /** The first element of a strictly descending sequence has the largest key, so two such heads agree. */
  lemma StrictlyDescHead<T>(a: seq<T>, b: seq<T>, key: T -> Key)
    requires StrictlyDesc(a, key) && StrictlyDesc(b, key)
    requires |a| > 0 && |b| > 0 && a[0] in b && b[0] in a
    ensures a[0] == b[0]
  {
    if a[0] != b[0] {
      assert false;
    }
  }

  /**
   * A strictly descending order is determined by its elements: two strictly
   * descending permutations of each other are the same sequence.
   */
  lemma {:induction false} StrictlyDescUnique<T>(a: seq<T>, b: seq<T>, key: T -> Key)
    requires StrictlyDesc(a, key) && StrictlyDesc(b, key)
    requires multiset(a) == multiset(b)
    ensures a == b
    decreases |a|
  {
    assert |a| == |multiset(a)| == |multiset(b)| == |b|;
    if |a| > 0 {
      assert a[0] in multiset(b) && b[0] in multiset(a);
      StrictlyDescHead(a, b, key);
      MultisetTail(a, b);
      StrictlyDescUnique(a[1..], b[1..], key);
      assert a == [a[0]] + a[1..] && b == [b[0]] + b[1..];
    }
  }

  /** A window of a sorted sequence is sorted and holds elements of the sequence only. */
  lemma WindowOfSorted<T>(s: seq<T>, key: T -> Key, offset: nat, limit: nat)
    requires SortedDesc(s, key)
    ensures SortedDesc(Window(s, offset, limit), key)
    ensures forall x :: x in Window(s, offset, limit) ==> x in s
  {
  }

  /** Strings strictly increase along `s`, so no string occurs twice. */
  ghost predicate StrictlyAscending(s: seq<string>) {
    forall i, j :: 0 <= i < j < |s| ==> Less(s[i], s[j])
  }

  /** Adds `x` to a strictly ascending list unless it is already there. */
  function InsertDistinct(x: string, s: seq<string>): (r: seq<string>)
    requires StrictlyAscending(s)
    ensures StrictlyAscending(r)
    ensures forall y :: y in r <==> y == x || y in s
  {
    if |s| == 0 then [x]
    else if x == s[0] then s
    else if Less(x, s[0]) then
      assert forall j :: 0 < j < |s| ==> Less(s[0], s[j]);
      forall j | 0 < j < |s| ensures Less(x, s[j]) { LessTransitive(x, s[0], s[j]); }
      [x] + s
    else
      LessTotal(x, s[0]);
      var rest := InsertDistinct(x, s[1..]);
      assert s == [s[0]] + s[1..];
      assert forall j :: 0 <= j < |rest| ==> rest[j] == x || rest[j] in s[1..];
      assert forall j :: 0 <= j < |rest| ==> Less(s[0], rest[j]);
      [s[0]] + rest
  }

  /** The distinct strings of `s`, in ascending order. */
  function SortedDistinct(s: seq<string>): (r: seq<string>)
    ensures StrictlyAscending(r)
    ensures forall y :: y in r <==> y in s
  {
    if |s| == 0 then []
    else
      assert s == [s[0]] + s[1..];
      InsertDistinct(s[0], SortedDistinct(s[1..]))
  }

  /** Two strictly ascending lists with the same elements are equal. */
  lemma {:induction false} AscendingUnique(a: seq<string>, b: seq<string>)
    requires StrictlyAscending(a) && StrictlyAscending(b)
    requires forall y :: y in a <==> y in b
    ensures a == b
    decreases |a|
  {
    if |a| == 0 {
      if |b| > 0 {
        HeadIn(b);
        assert false;
      }
    } else {
      assert a[0] in b;
      if a[0] != b[0] {
        var k :| 0 <= k < |b| && b[k] == a[0];
        assert b[0] in a;
        var m :| 0 <= m < |a| && a[m] == b[0];
        assert Less(b[0], a[0]) && Less(a[0], b[0]);
        LessAsymmetric(a[0], b[0]);
        assert false;
      }
      forall y
        ensures y in a[1..] <==> y in b[1..]
      {
        if y in a[1..] {
          var i :| 1 <= i < |a| && a[i] == y;
          LessIrreflexive(a[0]);
          assert y != a[0];
          assert y in b;
        }
        if y in b[1..] {
          var i :| 1 <= i < |b| && b[i] == y;
          LessIrreflexive(b[0]);
          assert y != b[0];
          assert y in a;
        }
      }
      AscendingUnique(a[1..], b[1..]);
      assert a == [a[0]] + a[1..] && b == [b[0]] + b[1..];
    }
  }
}
