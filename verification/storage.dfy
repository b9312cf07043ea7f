/**
 * `backend/storage.ts`: the in-memory `MemStorage` (a `Map` from id to tool,
 * iterated in insertion order, and a `nextId` counter) and the
 * post-processing `DrizzleStorage.getCategories` applies to the rows the
 * database returns.
 */
module Storage {
  import opened Wrappers
  import opened Seqs
  import opened Ordering
  import opened Schema
  import opened Catalog

  /** The tools of a `MemStorage` in the map's insertion order, and its `nextId`. */
  datatype MemStore = MemStore(tools: seq<Tool>, nextId: nat)

  /** A store as the constructor creates it, before `initializeData`. */
  function NewMemStore(): MemStore {
    MemStore([], 1)
  }

  /** Ids are positive, strictly increasing in insertion order, and below `nextId`. */
  ghost predicate Valid(s: MemStore) {
    && (forall i :: 0 <= i < |s.tools| ==> 1 <= s.tools[i].id < s.nextId)
    && (forall i, j :: 0 <= i < j < |s.tools| ==> s.tools[i].id < s.tools[j].id)
  }

  /** `Map.set(id, tool)`: replaces the entry with that id in place, or appends a new one. */
  function MapSet(tools: seq<Tool>, t: Tool): (r: seq<Tool>)
    ensures (forall i :: 0 <= i < |tools| ==> tools[i].id != t.id) ==> r == tools + [t]
  {
    if |tools| == 0 then [t]
    else if tools[0].id == t.id then [t] + tools[1..]
    else [tools[0]] + MapSet(tools[1..], t)
  }

  /**
   * `createTool`: the tool gets the current `nextId`, which then advances,
   * absent optional columns are null, and `lastSeen` is the current time.
   * URLs are not compared with the stored ones.
   */
  function CreateTool(s: MemStore, ins: InsertTool, now: Timestamp): (r: (MemStore, Tool))
    ensures r.1.id == s.nextId && r.1.lastSeen == now && ToInsert(r.1) == ins
    ensures r.0.nextId == s.nextId + 1
    ensures Valid(s) ==> r.0.tools == s.tools + [r.1]
    ensures Valid(s) && s.nextId >= 1 ==> Valid(r.0)
  {
    var t := Materialize(ins, s.nextId, now);
    (MemStore(MapSet(s.tools, t), s.nextId + 1), t)
  }

  /** `initializeData`: `createTool` for every sample in order, `clock[i]` being the time of the i-th call. */
  function Seed(s: MemStore, samples: seq<InsertTool>, clock: seq<Timestamp>): (r: MemStore)
    requires |clock| == |samples|
    requires Valid(s) && s.nextId >= 1
    ensures Valid(r)
    ensures r.nextId == s.nextId + |samples|
    ensures |r.tools| == |s.tools| + |samples|
    ensures r.tools[..|s.tools|] == s.tools
    ensures forall k :: 0 <= k < |samples| ==> r.tools[|s.tools| + k] == Materialize(samples[k], s.nextId + k, clock[k])
    decreases |samples|
  {
    if |samples| == 0 then s
    else
      var s1 := CreateTool(s, samples[0], clock[0]).0;
      var r := Seed(s1, samples[1..], clock[1..]);
      forall k | 1 <= k < |samples|
        ensures r.tools[|s.tools| + k] == Materialize(samples[k], s.nextId + k, clock[k])
      {
        assert r.tools[|s1.tools| + (k - 1)] == Materialize(samples[1..][k - 1], s1.nextId + (k - 1), clock[1..][k - 1]);
      }
      assert r.tools[..|s.tools|] == r.tools[..|s1.tools|][..|s.tools|];
      r
  }

  /**
   * `createTool` does not enforce URL uniqueness: seeding two samples with the
   * same URL (as the sample data does with `https://runwayml.com`) keeps
   * both, under different ids.
   */
  lemma SeedKeepsDuplicateUrls(samples: seq<InsertTool>, clock: seq<Timestamp>, i: int, j: int)
    requires |clock| == |samples|
    requires 0 <= i < j < |samples| && samples[i].url == samples[j].url
    ensures var r := Seed(NewMemStore(), samples, clock);
      r.tools[i].url == r.tools[j].url && r.tools[i].id == i + 1 && r.tools[j].id == j + 1
  {
    var r := Seed(NewMemStore(), samples, clock);
    assert r.tools[0 + i] == Materialize(samples[i], 1 + i, clock[i]);
    assert r.tools[0 + j] == Materialize(samples[j], 1 + j, clock[j]);
  }

  /** `sort((a, b) => b.lastSeen - a.lastSeen)`: only `lastSeen` is compared. */
  function LastSeenKey(t: Tool): Key {
    (t.lastSeen, 0)
  }

  /** Timestamps never increase along `r`. */
  ghost predicate NewestFirst(r: seq<Tool>) {
    forall i, j :: 0 <= i < j < |r| ==> r[i].lastSeen >= r[j].lastSeen
  }

  /** Among tools with equal timestamps, ids increase along `r`. */
  ghost predicate TiesByIncreasingId(r: seq<Tool>) {
    forall i, j :: 0 <= i < j < |r| && r[i].lastSeen == r[j].lastSeen ==> r[i].id < r[j].id
  }

  /** Newest first, and among equal timestamps the smaller id first. */
  function StableKey(t: Tool): Key {
    (t.lastSeen as int, -(t.id as int))
  }

  /** Inserting a tool whose id is below every id of the list: both keys place it alike. */
  lemma {:induction false} InsertSameForSmallerId(x: Tool, l: seq<Tool>)
    requires SortedDesc(l, LastSeenKey) && SortedDesc(l, StableKey)
    requires forall k :: 0 <= k < |l| ==> x.id < l[k].id
    ensures InsertDesc(x, l, LastSeenKey) == InsertDesc(x, l, StableKey)
  {
    if |l| > 0 && !KeyGe(LastSeenKey(x), LastSeenKey(l[0])) {
      InsertSameForSmallerId(x, l[1..]);
    }
  }

  /** On tools in increasing id order, sorting by `lastSeen` alone also orders ties by id. */
  lemma {:induction false} SortIsStable(s: seq<Tool>)
    requires forall i, j :: 0 <= i < j < |s| ==> s[i].id < s[j].id
    ensures SortDesc(s, LastSeenKey) == SortDesc(s, StableKey)
  {
    if |s| > 0 {
      SortIsStable(s[1..]);
      var l := SortDesc(s[1..], LastSeenKey);
      forall k | 0 <= k < |l| ensures s[0].id < l[k].id {
        assert l[k] in multiset(s[1..]);
      }
      InsertSameForSmallerId(s[0], l);
    }
  }

  /**
   * `getTools`: the search and category filters, then a stable sort newest
   * first; tools with equal `lastSeen` keep the map's insertion order.
   */
  function GetTools(s: MemStore, search: string, category: string): (r: seq<Tool>)
    requires Valid(s)
    ensures multiset(r) == multiset(Select(s.tools, search, category))
    ensures forall t :: t in r <==> t in s.tools && Matches(t, search, category)
    ensures NewestFirst(r) && TiesByIncreasingId(r)
  {
    SelectionOrder(s.tools, search, category);
    SortedSelectionMembers(s.tools, search, category);
    SortDesc(Select(s.tools, search, category), LastSeenKey)
  }

  lemma SortedSelectionMembers(tools: seq<Tool>, search: string, category: string)
    ensures forall t :: t in SortDesc(Select(tools, search, category), LastSeenKey) <==> t in tools && Matches(t, search, category)
  {
    var sel := Select(tools, search, category);
    var r := SortDesc(sel, LastSeenKey);
    assert forall t :: t in r <==> t in multiset(sel);
  }

  /** A reordering of tools with distinct ids still has distinct ids at distinct positions. */
  lemma PermutationKeepsDistinctIds(r: seq<Tool>, sel: seq<Tool>)
    requires forall i, j :: 0 <= i < j < |sel| ==> sel[i].id < sel[j].id
    requires multiset(r) == multiset(sel)
    ensures forall i, j :: 0 <= i < j < |r| ==> r[i].id != r[j].id
  {
    assert NoDuplicates(sel);
    forall i, j | 0 <= i < j < |r|
      ensures r[i].id != r[j].id
    {
      if r[i] == r[j] {
        RepeatCount(r, i, j);
        NoDuplicatesCount(sel, r[i]);
        assert false;
      }
      assert r[i] in multiset(sel) && r[j] in multiset(sel);
      var a :| 0 <= a < |sel| && sel[a] == r[i];
      var b :| 0 <= b < |sel| && sel[b] == r[j];
    }
  }

  /** The sorted selection is newest first, and ties are in increasing id order. */
  lemma SortedByRecencyThenId(sel: seq<Tool>)
    requires forall i, j :: 0 <= i < j < |sel| ==> sel[i].id < sel[j].id
    ensures var r := SortDesc(sel, LastSeenKey);
      NewestFirst(r) && TiesByIncreasingId(r)
  {
    var r := SortDesc(sel, LastSeenKey);
    SortIsStable(sel);
    assert SortedDesc(r, StableKey);
    PermutationKeepsDistinctIds(r, sel);
    forall i, j | 0 <= i < j < |r|
      ensures r[i].lastSeen >= r[j].lastSeen
      ensures r[i].lastSeen == r[j].lastSeen ==> r[i].id < r[j].id
    {
      assert KeyGe(StableKey(r[i]), StableKey(r[j]));
    }
  }

  /** Selecting from tools in increasing id order and sorting: newest first, ties by increasing id. */
  lemma SelectionOrder(tools: seq<Tool>, search: string, category: string)
    requires forall i, j :: 0 <= i < j < |tools| ==> tools[i].id < tools[j].id
    ensures var r := SortDesc(Select(tools, search, category), LastSeenKey);
      NewestFirst(r) && TiesByIncreasingId(r)
  {
    var sel := Select(tools, search, category);
    SubsequenceIdOrder(sel, tools);
    SortedByRecencyThenId(sel);
  }

  lemma {:induction false} SubsequenceIdOrder(a: seq<Tool>, b: seq<Tool>)
    requires SubsequenceOf(a, b)
    requires forall i, j :: 0 <= i < j < |b| ==> b[i].id < b[j].id
    ensures forall i, j :: 0 <= i < j < |a| ==> a[i].id < a[j].id
    ensures forall i :: 0 <= i < |a| ==> a[i] in b
    decreases |b|
  {
    if |a| > 0 {
      if a[0] == b[0] && SubsequenceOf(a[1..], b[1..]) {
        SubsequenceIdOrder(a[1..], b[1..]);
        forall j | 0 < j < |a| ensures a[0].id < a[j].id {
          assert a[j] == a[1..][j - 1];
          var k :| 0 <= k < |b[1..]| && b[1..][k] == a[j];
          assert b[k + 1] == a[j];
        }
      } else {
        SubsequenceIdOrder(a, b[1..]);
      }
    }
  }

  /** With no search and no category restriction, `getTools` returns exactly the stored tools, reordered. */
  lemma GetToolsUnfiltered(s: MemStore, category: string)
    requires Valid(s)
    requires category == "" || category == "all"
    ensures multiset(GetTools(s, "", category)) == multiset(s.tools)
  {
    SelectUnfiltered(s.tools, category);
  }

  /** `getCategories`: the distinct truthy categories, sorted. */
  function GetCategories(s: MemStore): (r: seq<string>)
    ensures StrictlyAscending(r)
    ensures forall c :: c in r <==> c != "" && exists t :: t in s.tools && t.category == Some(c)
  {
    CategoryList(s.tools)
  }

  /**
   * `DrizzleStorage.getCategories` after its query: `listing` holds the
   * distinct non-null categories the database returned; the empty one is
   * dropped and the rest sorted.
   */
  function DrizzleCategories(listing: seq<string>): (r: seq<string>)
    ensures StrictlyAscending(r)
    ensures forall c :: c in r <==> c in listing && c != ""
  {
    var truthy := Filter(listing, (c: string) => c != "");
    assert forall c :: c in truthy <==> c in listing && c != "" by {
      forall c ensures c in truthy <==> c in listing && c != "" {
        if c in listing && c != "" {
          var i :| 0 <= i < |listing| && listing[i] == c;
        }
        if c in truthy {
          var i :| 0 <= i < |truthy| && truthy[i] == c;
        }
      }
    }
    SortedDistinct(truthy)
  }

  /**
   * The database path and the in-memory path list the same categories: when
   * `listing` holds exactly the non-null categories of the tools, both give
   * the same sorted list.
   */
  lemma DrizzleCategoriesAgree(tools: seq<Tool>, nextId: nat, listing: seq<string>)
    requires forall c :: c in listing <==> exists t :: t in tools && t.category == Some(c)
    ensures DrizzleCategories(listing) == GetCategories(MemStore(tools, nextId))
  {
    AscendingUnique(DrizzleCategories(listing), GetCategories(MemStore(tools, nextId)));
  }
}
