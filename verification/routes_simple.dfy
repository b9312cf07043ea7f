/**
 * The stateless variant of the API, `server/routes-simple.ts`: the same
 * filters over a fixed in-memory dataset, `slice`-based paging with only an
 * upper clamp on the limit, a constant category list, and a refresh that
 * reports the dataset's size without changing anything.
 */
module RoutesSimple {
  import opened Wrappers
  import opened Text
  import opened Seqs
  import opened Schema
  import opened Catalog

  /** One tool of the fixed dataset; every column is present. */
  datatype Entry = Entry(
    id: nat,
    name: string,
    url: string,
    description: string,
    imageUrl: string,
    category: string,
    source: string)

  /** Search over the lower-cased name or description, then exact category unless `""` or `"all"`. */
  predicate EntryMatches(e: Entry, search: string, category: string) {
    && (search == "" || Contains(Lower(e.name), Lower(search)) || Contains(Lower(e.description), Lower(search)))
    && (category == "" || category == "all" || e.category == category)
  }

  /** The entries kept by both filters, in dataset order. */
  function FilterEntries(dataset: seq<Entry>, search: string, category: string): (r: seq<Entry>)
    ensures forall e :: e in r <==> e in dataset && EntryMatches(e, search, category)
    ensures SubsequenceOf(r, dataset)
  {
    var r := Filter(dataset, e => EntryMatches(e, search, category));
    assert forall e :: e in r ==> e in dataset && EntryMatches(e, search, category) by {
      forall e | e in r ensures e in dataset && EntryMatches(e, search, category) {
        var i :| 0 <= i < |r| && r[i] == e;
      }
    }
    assert forall e :: e in dataset && EntryMatches(e, search, category) ==> e in r by {
      forall e | e in dataset && EntryMatches(e, search, category) ensures e in r {
        var i :| 0 <= i < |dataset| && dataset[i] == e;
      }
    }
    r
  }

  /** An entry seen as a stored tool (every optional column present). */
  function AsTool(e: Entry, lastSeen: Timestamp): Tool {
    Tool(e.id, e.name, e.url, Some(e.description), Some(e.imageUrl), Some(e.category), Some(e.source), lastSeen)
  }

  /** The filter of this variant is the catalogue filter of the other two. */
  lemma SameFilterAsCatalog(e: Entry, lastSeen: Timestamp, search: string, category: string)
    ensures EntryMatches(e, search, category) == Matches(AsTool(e, lastSeen), search, category)
  {
  }

  const DefaultLimit: int := 24
  const MaxLimit: int := 48

  /** `Math.min(parseInt(limit || '24'), 48)`: capped above, not clamped below. */
  function EffectiveLimit(limit: Option<int>): (r: int)
    ensures r <= MaxLimit
    ensures limit.None? ==> r == DefaultLimit
    ensures limit.Some? && limit.value <= MaxLimit ==> r == limit.value
    ensures limit.Some? && limit.value > MaxLimit ==> r == MaxLimit
  {
    var parsed := limit.GetOr(DefaultLimit);
    if parsed < MaxLimit then parsed else MaxLimit
  }

  /** The `/api/tools` answer: the page and its `pagination` object. */
  datatype Page = Page(tools: seq<Entry>, total: nat, limit: int, offset: int, hasMore: bool)

  /**
   * `GET /api/tools`: filter, then `tools.slice(offset, offset + limit)`;
   * `offset` defaults to 0 and is not clamped. Unparseable numbers are not
   * modelled: `None` means the parameter is absent.
   */
  function ListTools(dataset: seq<Entry>, search: string, category: string, limit: Option<int>, offset: Option<int>)
    : (r: Page)
    ensures r.limit == EffectiveLimit(limit) && r.offset == offset.GetOr(0)
    ensures r.total == |FilterEntries(dataset, search, category)|
    ensures r.hasMore <==> r.offset + r.limit < r.total
    ensures r.tools == JsSlice(FilterEntries(dataset, search, category), r.offset, r.offset + r.limit)
    ensures 0 <= r.offset && 0 <= r.limit ==>
      |r.tools| <= r.limit && r.tools == Window(FilterEntries(dataset, search, category), r.offset, r.limit)
    ensures r.limit <= 0 && (r.offset < 0 || 0 <= r.offset + r.limit) ==> r.tools == []
    ensures forall e :: e in r.tools ==> e in dataset && EntryMatches(e, search, category)
  {
    var tools := FilterEntries(dataset, search, category);
    var l := EffectiveLimit(limit);
    var o := offset.GetOr(0);
    var page := JsSlice(tools, o, o + l);
    Page(page, |tools|, l, o, o + l < |tools|)
  }

  /**
   * A negative `limit` escapes the cap: with `limit=-1` and no offset the
   * slice ends one before the end, so every match but the last comes back,
   * however many there are.
   */
  lemma NegativeLimitEscapesCap(dataset: seq<Entry>, search: string, category: string)
    requires |FilterEntries(dataset, search, category)| > MaxLimit + 1
    ensures var r := ListTools(dataset, search, category, Some(-1), None);
      |r.tools| == r.total - 1 && |r.tools| > MaxLimit
  {
  }

  /** The limit with the lower clamp the cap evidently intends: never negative, never above 48. */
  function CappedLimit(limit: Option<int>): (r: nat)
    ensures r <= MaxLimit
    ensures limit.None? ==> r == DefaultLimit
    ensures limit.Some? && 0 <= limit.value <= MaxLimit ==> r == limit.value
    ensures limit.Some? && limit.value < 0 ==> r == 0
    ensures limit.Some? && limit.value > MaxLimit ==> r == MaxLimit
  {
    var parsed := limit.GetOr(DefaultLimit);
    if parsed < 0 then 0 else if parsed < MaxLimit then parsed else MaxLimit
  }

  /**
   * `GET /api/tools` with the corrected limit: the same filter, count and
   * `slice`, but no page ever holds more than 48 entries, whatever the
   * offset.
   */
  function ListToolsCapped(dataset: seq<Entry>, search: string, category: string, limit: Option<int>, offset: Option<int>)
    : (r: Page)
    ensures r.limit == CappedLimit(limit) && r.offset == offset.GetOr(0)
    ensures r.total == |FilterEntries(dataset, search, category)|
    ensures r.hasMore <==> r.offset + r.limit < r.total
    ensures |r.tools| <= r.limit <= MaxLimit
    ensures 0 <= r.offset ==> r.tools == Window(FilterEntries(dataset, search, category), r.offset, r.limit)
    ensures forall e :: e in r.tools ==> e in dataset && EntryMatches(e, search, category)
  {
    var tools := FilterEntries(dataset, search, category);
    var l := CappedLimit(limit);
    var o := offset.GetOr(0);
    Page(JsSlice(tools, o, o + l), |tools|, l, o, o + l < |tools|)
  }

  /** Where the source's limit is not negative, the corrected listing answers exactly as the source does. */
  lemma CappedAgreesWhenNotNegative(dataset: seq<Entry>, search: string, category: string, limit: Option<int>, offset: Option<int>)
    requires limit.None? || 0 <= limit.value
    ensures ListToolsCapped(dataset, search, category, limit, offset) == ListTools(dataset, search, category, limit, offset)
  {
  }

  /** `GET /api/categories`: a constant list, independent of the data. */
  function Categories(): (r: seq<string>)
    ensures |r| == 10 && r[0] == "Text" && r[1] == "Images"
  {
    ["Text", "Images", "Video", "Audio", "Developer Tools", "Productivity", "Search", "Marketing", "Education", "Health"]
  }

  /** The constant list is not in ascending order, unlike the derived lists of the other variants. */
  lemma CategoriesNotAscending()
    ensures !Ordering.StrictlyAscending(Categories())
  {
    var r := Categories();
    assert Less(r[1], r[0]);
    LessAsymmetric(r[1], r[0]);
  }

  /** The answer of `POST /api/admin/refresh`. */
  datatype RefreshReport = RefreshReport(success: bool, totalProcessed: nat)

  /**
   * `POST /api/admin/refresh`: no authorization check and no state; it
   * reports as processed exactly the number of tools an unfiltered listing
   * counts.
   */
  function Refresh(dataset: seq<Entry>): (r: RefreshReport)
    ensures r.success
    ensures r.totalProcessed == |dataset|
    ensures r.totalProcessed == ListTools(dataset, "", "", None, None).total
  {
    FilterKeepsAll(dataset, e => EntryMatches(e, "", ""));
    RefreshReport(true, |dataset|)
  }
}
