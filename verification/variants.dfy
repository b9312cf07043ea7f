/**
 * Where the three implementations of the same endpoints part ways: the
 * database routes, the in-memory storage and the stateless variant.
 */
module Variants {
  import opened Wrappers
  import opened Seqs
  import opened Schema
  import opened Catalog
  import opened Ordering
  import Routes
  import Storage
  import RoutesSimple

  /**
   * `limit=0`: the database routes fall back to the default page of 24
   * (`parseInt('0') || 24`), the stateless variant slices nothing.
   */
  lemma ZeroLimit(rows: seq<Tool>, dataset: seq<RoutesSimple.Entry>, search: string, category: string)
    ensures Routes.ListTools(rows, search, category, Some(0), None).limit == Routes.DefaultLimit
    ensures var p := Routes.ListTools(rows, search, category, Some(0), None);
      |p.tools| == if p.total < Routes.DefaultLimit then p.total else Routes.DefaultLimit
    ensures RoutesSimple.ListTools(dataset, search, category, Some(0), None).tools == []
  {
  }

  /**
   * `offset=-1`: the database routes clamp it to the first page, the
   * stateless variant counts it from the end and, on a short listing,
   * returns only the last match.
   */
  lemma NegativeOffset(rows: seq<Tool>, dataset: seq<RoutesSimple.Entry>, search: string, category: string)
    requires 1 <= |RoutesSimple.FilterEntries(dataset, search, category)| < RoutesSimple.DefaultLimit
    ensures Routes.ListTools(rows, search, category, None, Some(-1)).offset == 0
    ensures var all := RoutesSimple.FilterEntries(dataset, search, category);
      RoutesSimple.ListTools(dataset, search, category, None, Some(-1)).tools == [all[|all| - 1]]
  {
    var all := RoutesSimple.FilterEntries(dataset, search, category);
    var n := |all|;
    assert Routes.ListTools(rows, search, category, None, Some(-1)).offset == 0 by {
      assert Routes.EffectiveOffset(Some(-1)) == 0;
    }
    assert RoutesSimple.ListTools(dataset, search, category, None, Some(-1)).tools == JsSlice(all, -1, 23) by {
      assert RoutesSimple.EffectiveLimit(None) == 24;
    }
    assert JsSlice(all, -1, 23) == [all[n - 1]] by {
      assert SliceIndex(-1, n) == n - 1 && SliceIndex(23, n) == n;
      assert all[n - 1..n] == [all[n - 1]];
    }
  }

  /** A two-element arrangement of two distinct values is one of the two orders. */
  lemma TwoArrangements<T>(q: seq<T>, a: T, b: T)
    requires a != b && multiset(q) == multiset{a, b}
    ensures q == [a, b] || q == [b, a]
  {
    assert |q| == |multiset(q)| == 2;
    assert a in multiset(q) && b in multiset(q);
    assert q[0] in multiset(q) && q[1] in multiset(q);
    if q[0] == q[1] {
      assert false;
    }
    assert q == [q[0], q[1]];
  }

  /** Two tools seen at the same moment: the query's `id DESC` puts the later one first. */
  lemma TiesByDecreasingIdInQuery(x: Tool, y: Tool)
    requires x.lastSeen == y.lastSeen && x.id < y.id
    ensures Routes.Ordered([x, y], "", "") == [y, x]
  {
    SelectUnfiltered([x, y], "");
    var q := Routes.Ordered([x, y], "", "");
    TwoArrangements(q, x, y);
    if q == [x, y] {
      assert false;
    }
  }

  /** The same two tools in the in-memory store: the stable sort keeps the earlier one first. */
  lemma TiesByIncreasingIdInMemory(x: Tool, y: Tool)
    requires x.lastSeen == y.lastSeen && 1 <= x.id < y.id
    ensures Storage.GetTools(Storage.MemStore([x, y], y.id + 1), "", "") == [x, y]
  {
    SelectUnfiltered([x, y], "");
    var g := Storage.GetTools(Storage.MemStore([x, y], y.id + 1), "", "");
    TwoArrangements(g, x, y);
    if g == [y, x] {
      assert false;
    }
  }
}
