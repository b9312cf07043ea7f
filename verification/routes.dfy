/**
 * The SQL-backed API of `server/routes.ts`: the `/api/tools` query with its
 * clamped window, `/api/categories`, the bearer guard of
 * `/api/admin/refresh`, and the seed-if-empty rule of `initializeDatabase`.
 * The table is `Upsert.Table`; every SQL statement is a function over it.
 */
module Routes {
  import opened Wrappers
  import opened Text
  import opened Seqs
  import opened Ordering
  import opened Schema
  import opened Catalog
  import opened Upsert

  const DefaultLimit: int := 24
  const MaxLimit: int := 48

  /**
   * `Math.min(Math.max(parseInt(limit) || 24, 1), 48)`: `None` stands for a
   * missing or unparseable value (`NaN`); zero is falsy and also becomes 24.
   */
  function EffectiveLimit(limit: Option<int>): (r: int)
    ensures 1 <= r <= MaxLimit
    ensures limit == None || limit == Some(0) ==> r == DefaultLimit
    ensures limit.Some? && limit.value < 0 ==> r == 1
    ensures limit.Some? && 1 <= limit.value <= MaxLimit ==> r == limit.value
    ensures limit.Some? && limit.value > MaxLimit ==> r == MaxLimit
  {
    var parsed := if limit.None? || limit.value == 0 then DefaultLimit else limit.value;
    var atLeastOne := if parsed < 1 then 1 else parsed;
    if atLeastOne > MaxLimit then MaxLimit else atLeastOne
  }

  /** `Math.max(parseInt(offset) || 0, 0)`. */
  function EffectiveOffset(offset: Option<int>): (r: nat)
    ensures offset.None? || offset.value <= 0 ==> r == 0
    ensures offset.Some? && offset.value > 0 ==> r == offset.value
  {
    var parsed := if offset.None? then 0 else offset.value;
    if parsed < 0 then 0 else parsed
  }

  /** `ORDER BY last_seen DESC, id DESC`. */
  function RecencyKey(t: Tool): Key {
    (t.lastSeen, t.id)
  }

  /** The whole filtered set in response order. */
  function Ordered(rows: seq<Tool>, search: string, category: string): (r: seq<Tool>)
    ensures SortedDesc(r, RecencyKey)
    ensures multiset(r) == multiset(Select(rows, search, category))
    ensures |r| == |Select(rows, search, category)|
    ensures forall t :: t in r ==> t in rows && Matches(t, search, category)
  {
    var sel := Select(rows, search, category);
    var r := SortDesc(sel, RecencyKey);
    assert forall t :: t in r ==> t in multiset(sel);
    r
  }

  /** The body of a `/api/tools` response: the page and its `pagination` object. */
  datatype Page = Page(tools: seq<Tool>, total: nat, limit: int, offset: int, hasMore: bool)

  /**
   * `GET /api/tools`: the count of the whole filtered set, then the window
   * `LIMIT limit OFFSET offset` of that set in recency order.
   */
  function ListTools(rows: seq<Tool>, search: string, category: string, limit: Option<int>, offset: Option<int>): (r: Page)
    ensures 1 <= r.limit <= MaxLimit && r.limit == EffectiveLimit(limit)
    ensures 0 <= r.offset && r.offset == EffectiveOffset(offset)
    ensures r.total == |Select(rows, search, category)|
    ensures r.tools == Window(Ordered(rows, search, category), r.offset, r.limit)
    ensures |r.tools| <= r.limit
    ensures r.offset >= r.total ==> r.tools == []
    ensures forall t :: t in r.tools ==> t in rows && Matches(t, search, category)
    ensures SortedDesc(r.tools, RecencyKey)
    ensures r.hasMore <==> r.offset + r.limit < r.total
  {
    var l := EffectiveLimit(limit);
    var o := EffectiveOffset(offset);
    var total := |Select(rows, search, category)|;
    var all := Ordered(rows, search, category);
    assert |all| == total;
    var page := Window(all, o, l);
    WindowOfSorted(all, RecencyKey, o, l);
    forall t | t in page ensures t in rows && Matches(t, search, category) {
      assert t in all;
    }
    Page(page, total, l, o, o + l < total)
  }

  /** `total` depends on the filters only, never on the requested window. */
  lemma TotalIgnoresWindow(rows: seq<Tool>, search: string, category: string,
                           limit1: Option<int>, offset1: Option<int>, limit2: Option<int>, offset2: Option<int>)
    ensures ListTools(rows, search, category, limit1, offset1).total == ListTools(rows, search, category, limit2, offset2).total
  {
  }

  /**
   * Consecutive pages tile the recency order: the page at `o` followed by
   * the page at `o + limit` is the window of twice the limit at `o`, so
   * stepping through pages neither skips nor repeats a row.
   */
  lemma ConsecutivePagesAdjoin(rows: seq<Tool>, search: string, category: string, limit: int, o: nat)
    requires 1 <= limit <= MaxLimit
    ensures ListTools(rows, search, category, Some(limit), Some(o)).tools
            + ListTools(rows, search, category, Some(limit), Some(o + limit)).tools
            == Window(Ordered(rows, search, category), o, 2 * limit)
  {
    var all := Ordered(rows, search, category);
    var first := ListTools(rows, search, category, Some(limit), Some(o)).tools;
    var second := ListTools(rows, search, category, Some(limit), Some(o + limit)).tools;
    assert first == Window(all, o, limit) by {
      PageIsWindow(rows, search, category, limit, o);
    }
    assert second == Window(all, o + limit, limit) by {
      PageIsWindow(rows, search, category, limit, o + limit);
    }
    AdjacentWindows(all, o, limit, first, second);
  }

  /** A request with an in-range limit and a non-negative offset gets exactly that window of the recency order. */
  lemma PageIsWindow(rows: seq<Tool>, search: string, category: string, limit: int, o: nat)
    requires 1 <= limit <= MaxLimit
    ensures ListTools(rows, search, category, Some(limit), Some(o)).tools == Window(Ordered(rows, search, category), o, limit)
  {
    assert EffectiveLimit(Some(limit)) == limit && EffectiveOffset(Some(o)) == o;
  }

  /** An offset a client reaches from 0 by repeatedly adding `limit`. */
  ghost predicate PageAligned(o: int, limit: int)
    requires limit >= 1
    decreases o
  {
    o == 0 || (o >= limit && PageAligned(o - limit, limit))
  }

  /** Every position lies on a page that starts at an aligned offset. */
  lemma {:induction false} PageStart(p: nat, limit: int) returns (o: nat)
    requires limit >= 1
    ensures PageAligned(o, limit) && o <= p < o + limit
    decreases p
  {
    if p < limit {
      o := 0;
    } else {
      var prev := PageStart(p - limit, limit);
      o := prev + limit;
    }
  }

  /**
   * Paging with a fixed limit from offset 0 reaches every matching row: each
   * one is on the page whose offset is the multiple of the limit just below
   * its position in the recency order.
   */
  lemma PagingReachesEveryMatch(rows: seq<Tool>, search: string, category: string, limit: int, t: Tool)
    requires 1 <= limit <= MaxLimit
    requires t in rows && Matches(t, search, category)
    ensures exists o: nat :: PageAligned(o, limit) && t in ListTools(rows, search, category, Some(limit), Some(o)).tools
  {
    var all := Ordered(rows, search, category);
    var sel := Select(rows, search, category);
    assert t in sel;
    assert t in multiset(sel);
    assert t in multiset(all);
    var p :| 0 <= p < |all| && all[p] == t;
    var o := PageStart(p, limit);
    OnPage(rows, search, category, limit, o, p);
  }

  /** The row at position `p` of the recency order is on the page at offset `o` when `o <= p < o + limit`. */
  lemma OnPage(rows: seq<Tool>, search: string, category: string, limit: int, o: nat, p: nat)
    requires 1 <= limit <= MaxLimit
    requires o <= p < o + limit && p < |Ordered(rows, search, category)|
    ensures Ordered(rows, search, category)[p] in ListTools(rows, search, category, Some(limit), Some(o)).tools
  {
    PageIsWindow(rows, search, category, limit, o);
    WindowHolds(Ordered(rows, search, category), o, limit, p);
  }

  /**
   * `ORDER BY last_seen DESC, id DESC` leaves nothing to chance: when ids are
   * unique, any arrangement of the filtered rows in that order is the one
   * the query returns.
   */
  lemma OrderIsDetermined(rows: seq<Tool>, search: string, category: string, q: seq<Tool>)
    requires UniqueIds(rows)
    requires multiset(q) == multiset(Select(rows, search, category))
    requires SortedDesc(q, RecencyKey)
    ensures q == Ordered(rows, search, category)
  {
    var sel := Select(rows, search, category);
    var all := Ordered(rows, search, category);
    assert NoDuplicates(rows);
    forall s: seq<Tool> | multiset(s) == multiset(sel) && SortedDesc(s, RecencyKey)
      ensures StrictlyDesc(s, RecencyKey)
    {
      forall i, j | 0 <= i < j < |s|
        ensures KeyGt(RecencyKey(s[i]), RecencyKey(s[j]))
      {
        if s[i] == s[j] {
          RepeatCount(s, i, j);
          NoDuplicatesCount(rows, s[i]);
          assert false;
        }
        assert s[i] in multiset(sel) && s[j] in multiset(sel);
        assert s[i] in rows && s[j] in rows;
        assert s[i].id != s[j].id;
      }
    }
    StrictlyDescUnique(q, all, RecencyKey);
  }

  /** `GET /api/categories`: `SELECT DISTINCT category ... WHERE category IS NOT NULL AND category != '' ORDER BY category`. */
  function Categories(rows: seq<Tool>): (r: seq<string>)
    ensures StrictlyAscending(r)
    ensures forall c :: c in r <==> c != "" && exists t :: t in rows && t.category == Some(c)
  {
    CategoryList(rows)
  }

  /** The JSON answer of `POST /api/admin/refresh`. */
  datatype RefreshResponse = Unauthorized | Refreshed(totalProcessed: nat)

  const BearerPrefix: string := "Bearer "

  /** The guard: an `Authorization` header that starts with `Bearer `; the token itself is not checked. */
  predicate Authorized(authorization: Option<string>) {
    authorization.Some? && IsPrefix(BearerPrefix, authorization.value)
  }

  /**
   * `POST /api/admin/refresh`: rejects a request without the bearer prefix
   * before touching the table; otherwise runs `bulkUpsertTools` on the
   * curated dataset and reports its `processed` count, which is a success
   * response even when the batch was rolled back.
   */
  function Refresh(t: Table, authorization: Option<string>, dataset: seq<Candidate>, now: Timestamp, fault: Fault)
    : (r: (Table, RefreshResponse))
    ensures !Authorized(authorization) ==> r == (t, Unauthorized)
    ensures Authorized(authorization) ==> r.1.Refreshed?
    ensures Authorized(authorization) && fault.NoFault? ==> r.1.totalProcessed == |dataset|
    ensures Authorized(authorization) && fault.FaultAt? ==>
      r.0.rows == t.rows && r.1.totalProcessed == (if fault.step < |dataset| then fault.step else |dataset|)
    ensures Valid(t) ==> Valid(r.0)
  {
    if !Authorized(authorization) then (t, Unauthorized)
    else
      var outcome := BulkUpsert(t, dataset, now, fault);
      (outcome.table, Refreshed(outcome.processed))
  }

  const SeedSize: int := 50

  /**
   * The seeding step of `initializeDatabase`: an empty table receives the
   * first 50 tools of the dataset through `bulkUpsertTools`; a table with
   * any row is left alone.
   */
  function InitializeDatabase(t: Table, dataset: seq<Candidate>, now: Timestamp, fault: Fault): (r: Table)
    ensures |t.rows| > 0 ==> r == t
    ensures |t.rows| == 0 && fault.FaultAt? ==> r.rows == []
    ensures |t.rows| == 0 && fault.NoFault? ==>
      && Valid(r)
      && |r.rows| <= SeedSize
      && (forall k :: 0 <= k < |dataset| && k < SeedSize ==> Stored(r.rows, UrlKey(dataset[k].url)))
      && (forall i :: 0 <= i < |r.rows| ==> InBatch(UrlKey(r.rows[i].url), dataset[..if |dataset| < SeedSize then |dataset| else SeedSize]))
  {
    if |t.rows| > 0 then t
    else
      var starter := JsSlice(dataset, 0, SeedSize);
      assert starter == dataset[..if |dataset| < SeedSize then |dataset| else SeedSize];
      BatchOnEmpty(t, starter, now);
      assert forall k :: 0 <= k < |dataset| && k < SeedSize ==> starter[k] == dataset[k];
      BulkUpsert(t, starter, now, fault).table
  }

  /** Tool A of the worked scenario below. */
  function ScenarioA(): Tool {
    Tool(1, "A", "https://x.com", None, None, Some("Text"), Some("curated"), 10)
  }

  /** Tool B of the worked scenario below. */
  function ScenarioB(): Tool {
    Tool(2, "B", "https://y.com", None, None, Some("Images"), Some("curated"), 10)
  }

  /** A listing whose filter keeps exactly the first of two rows. */
  lemma ListFirstOfTwo(x: Tool, y: Tool, category: string)
    requires Matches(x, "", category) && !Matches(y, "", category)
    ensures var page := ListTools([x, y], "", category, None, None);
      page.tools == [x] && page.total == 1 && !page.hasMore
  {
    assert Filter([y], (z: Tool) => Matches(z, "", category)) == [];
    assert Select([x, y], "", category) == [x];
  }

  /** A listing whose filter keeps neither of two rows. */
  lemma ListNoneOfTwo(x: Tool, y: Tool, category: string)
    requires !Matches(x, "", category) && !Matches(y, "", category)
    ensures ListTools([x, y], "", category, None, None).total == 0
  {
    assert Filter([y], (z: Tool) => Matches(z, "", category)) == [];
    assert Select([x, y], "", category) == [];
  }

  /**
   * A worked scenario: with tools A (`https://x.com`, Text) and B
   * (`https://y.com`, Images), the Text listing holds only A; refreshing
   * with A2 at A's URL in category Images updates A in place, and the Text
   * listing becomes empty.
   */
  lemma RecategoriseScenario()
    ensures var t := Table([ScenarioA(), ScenarioB()], 3);
            var before := ListTools(t.rows, "", "Text", None, None);
            var c := Candidate("A2", "https://x.com", None, None, Some("Images"));
            var after := Refresh(t, Some("Bearer token"), [c], 11, NoFault).0;
      && before.tools == [ScenarioA()] && before.total == 1 && !before.hasMore
      && after.rows == [ScenarioA().(name := "A2", category := Some("Images"), lastSeen := 11), ScenarioB()]
      && ListTools(after.rows, "", "Text", None, None).total == 0
  {
    var a, b := ScenarioA(), ScenarioB();
    var t := Table([a, b], 3);
    ListFirstOfTwo(a, b, "Text");
    var c := Candidate("A2", "https://x.com", None, None, Some("Images"));
    assert Authorized(Some("Bearer token")) by {
      assert "Bearer token"[..|BearerPrefix|] == BearerPrefix;
    }
    var after := Refresh(t, Some("Bearer token"), [c], 11, NoFault).0;
    assert [c][..0] == [];
    assert ApplyBatch(t, [c], 11) == UpsertOne(t, c, 11);
    assert after == UpsertOne(t, c, 11);
    assert FindUrl(t.rows, UrlKey(c.url)) == Some(0);
    var a2 := a.(name := "A2", category := Some("Images"), lastSeen := 11);
    assert after.rows == [a2, b];
    ListNoneOfTwo(a2, b, "Text");
  }
}
