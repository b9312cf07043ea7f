# AI tools catalogue — a Dafny model

A model of the catalogue logic of an AI-tools directory and proofs about it.
The directory serves a searchable, paged list of tools and a list of categories.
An administrator can refresh the catalogue by upserting a curated batch keyed on the lower-cased URL.
The logic exists in three variants, and the model covers all three:

- the SQL-backed routes: `server/routes.ts` (modules `Routes` and `Upsert`);
- the in-memory store: `backend/storage.ts` (module `Storage`);
- the stateless variant: `server/routes-simple.ts` (module `RoutesSimple`).

Supporting modules:

- `Schema`: the record and insert shapes of `shared/schema.ts`.
- `Catalog`: the search and category filter shared by the first two variants, and the derived category list.
- `Text`: ASCII lower-casing, substring search, and lexicographic order.
- `Seqs`: filter, SQL `LIMIT/OFFSET` window, JavaScript `slice`, subsequences.
- `Ordering`: a stable insertion sort on a descending key, and sorted de-duplication.
- `Variants`: where the three variants give different answers.
- `Wrappers`: `Option`.

Modelling choices:

- The database table is a sequence of rows plus the next value of the `BIGSERIAL` id sequence (`Upsert.Table`).
- Every SQL statement is a pure function over that table.
- Every `INSERT ... ON CONFLICT` draws a sequence value, whether or not it ends in the update branch.
- A rollback returns no drawn values.
- A transaction failure is an oracle argument (`Upsert.Fault`):
  - `FaultAt(k)` means the first `k` statements ran before the failure;
  - `k >= |batch|` means `COMMIT` itself failed.
- `NOW()` and `new Date()` are natural-number timestamps passed in by the caller.
- `NOW()` is one value for the whole transaction.
- Query parameters are `Option<int>`. `None` means absent. For `server/routes.ts`, `None` also stands for an unparseable value, because `parseInt(...) || default` treats `NaN` like a missing value there.
- The search is a plain substring test after ASCII lower-casing.
- String sorting is lexicographic by character code.

Two behaviours worth noting:

- `limit=0` on `/api/tools` yields a page of 24, not 1. `parseInt('0') || 24` treats 0 as missing (`Routes.EffectiveLimit`).
- A refresh whose batch fails still answers `success` with a count. The count is the number of statements that ran before the failure, not 0, even though the rows are rolled back (`Upsert.BulkUpsert`, `Routes.Refresh`).

## Model

| member | source | states |
|---|---|---|
| Schema.Materialize | shared/schema.ts:6-24 | A stored row takes the store's generated id and timestamp. Its insertable columns are exactly the insert shape's, so a caller sets neither `id` nor `lastSeen`. |
| Schema.MaterializeToInsert | shared/schema.ts:21-24 | The insert shape loses only `id` and `lastSeen`: a row is rebuilt exactly from its insert shape, id and timestamp. |
| Text.Contains | backend/storage.ts:122 | `includes`: true exactly when the needle occurs at some position of the haystack. |
| Text.Lower | backend/storage.ts:119 | `toLowerCase` on ASCII: keeps the length and leaves no upper-case letter. Each `A`..`Z` becomes its lower-case letter (code plus 32), and every other character is unchanged. |
| Text.LowerIdempotent | backend/storage.ts:119-123 | Lower-casing an already lower-cased string changes nothing. |
| Seqs.Window | server/routes.ts:45 | `LIMIT/OFFSET`: at most `limit` rows; empty when the offset is past the end; otherwise exactly the rows from the offset on, up to the limit. |
| Seqs.JsSlice | server/routes-simple.ts:49 | `slice`, for any bounds: each bound counts from the end when negative and is then clamped to the sequence, giving positions `lo` and `hi`. The result is the `hi - lo` elements starting at `lo`, or empty when `hi <= lo`. For non-negative bounds this is the window between them. |
| Seqs.SliceFromEnd | server/routes-simple.ts:49 | A negative start at most the length counts back from the end: slicing from `start` equals slicing from `length + start`. |
| Seqs.Filter | server/routes-simple.ts:33-44 | `Array.filter`: keeps exactly the elements satisfying the predicate, in their original order. Every copy of a kept value survives, so a kept value occurs as often as in the input, and a dropped value does not occur. |
| Catalog.PresentCategories | backend/storage.ts:139-143 | Holds a category iff some row has it non-null and non-empty. |
| Ordering.SortDesc | backend/storage.ts:131-134 | The result is a permutation of the input ordered by non-increasing key. |
| Ordering.SortedDistinct | backend/storage.ts:144 | The result is strictly ascending and holds exactly the input's values. |
| Ordering.StrictlyDescUnique | server/routes.ts:45 | Two strictly descending permutations of each other are the same sequence, so a total order fixes the answer. |
| Catalog.Select | server/routes.ts:31-39 | A row is kept iff the search is empty or its lower-cased name or non-null description contains the lower-cased search, and the category is empty, `all`, or equal to its category. Kept rows stay in stored order. |
| Catalog.SearchIgnoresCase | server/routes.ts:31-33 | The search matches the same rows whether or not the search term is lower-cased first, as ILIKE is case-insensitive. |
| Catalog.SelectUnfiltered | backend/storage.ts:115-129 | With no search and category `""` or `all`, every row is kept, in order. |
| Catalog.CategoryList | server/routes.ts:77-83 | The list is strictly ascending, so it has no duplicates. It holds a category iff some row has it non-null and non-empty. |
| Routes.EffectiveLimit | server/routes.ts:21 | The limit is always in [1, 48]. Absent or 0 gives 24, negative gives 1, 1..48 is kept, and above 48 gives 48. |
| Routes.EffectiveOffset | server/routes.ts:22 | The offset is never negative. Absent or non-positive gives 0; a positive one is kept. |
| Routes.Ordered | server/routes.ts:45 | The filtered rows, all of them and nothing else, newest `last_seen` first and then higher `id` first. |
| Routes.ListTools | server/routes.ts:17-67 | The page holds at most `limit` matching rows, taken from the recency order at the clamped offset. It is empty past the end. `total` counts every match. `hasMore` iff `offset + limit < total`. |
| Routes.TotalIgnoresWindow | server/routes.ts:41-43 | `total` does not depend on limit or offset. |
| Routes.PageIsWindow | server/routes.ts:21-48 | A limit in [1, 48] and a non-negative offset give exactly the window of the recency order at that offset. |
| Routes.ConsecutivePagesAdjoin | server/routes.ts:45-48 | The page at `o` followed by the page at `o + limit` is the window of twice the limit at `o`: paging neither skips nor repeats a row. |
| Routes.PagingReachesEveryMatch | server/routes.ts:45-48 | Paging from offset 0 in steps of `limit` puts every matching row on some page. |
| Routes.OrderIsDetermined | server/routes.ts:45 | With unique ids, any arrangement of the matches in `last_seen DESC, id DESC` order is the listing's order. |
| Routes.Categories | server/routes.ts:77-83 | Distinct non-null, non-empty categories present in the table, ascending. |
| Routes.Refresh | server/routes.ts:91-116 | A request without an `Authorization` header starting with `Bearer ` is refused and the table is untouched. Otherwise the batch runs and its `processed` count is reported as success, also after a rollback. The table invariant is kept. |
| Routes.InitializeDatabase | server/routes.ts:143-149 | A non-empty table is left alone. An empty one receives the first 50 dataset tools: one row per URL among them, no other row, and the invariant holds. A failure leaves it empty. |
| Routes.ListFirstOfTwo | server/routes.ts:31-48 | On two rows of which only the first matches, the default listing is that row alone, with total 1 and no more pages. |
| Routes.ListNoneOfTwo | server/routes.ts:31-43 | On two rows of which neither matches, the total is 0. |
| Routes.RecategoriseScenario | server/routes.ts:291-300 | With A (Text) and B (Images), the Text listing is [A]. Refreshing with A's URL in Images updates A in place, keeping its id and source, and the Text listing becomes empty. |
| Upsert.FindUrl | server/routes.ts:294 | The conflict target: finds a row whose lower-cased URL is the key, or establishes that none has it. |
| Upsert.UpsertOne | server/routes.ts:291-300 | One statement draws an id. On a conflict the row keeps its position, `id`, URL casing and `source` and takes the candidate's columns and time. Otherwise one row with the drawn id and source `curated` is appended. Rows with other URLs are unchanged. URL uniqueness, id uniqueness and the sequence bound are preserved. |
| Upsert.ApplyBatchFrame | server/routes.ts:290-302 | After the statements of a batch: the sequence has advanced by the batch length; existing rows keep position, `id`, URL and `source`; rows whose URL is not in the batch are untouched; new rows only carry batch URLs and source `curated`; the invariant holds. |
| Upsert.ApplyBatchCarriesLast | server/routes.ts:294-299 | Every row whose URL occurs in the batch carries the columns of the last candidate with that URL. |
| Upsert.ApplyBatchCovers | server/routes.ts:290-302 | Every candidate's URL has a row afterwards. |
| Upsert.ApplyBatchNoGrowth | server/routes.ts:294 | A batch whose URLs are all stored adds no row. |
| Upsert.BulkUpsert | server/routes.ts:284-311 | Without a fault, `processed` is the batch length and the sequence has advanced by it. With a fault, the rows equal the pre-batch rows and `processed` counts the statements that ran. The invariant holds either way. |
| Upsert.BulkUpsertCommitted | server/routes.ts:284-311 | After a committed batch, URLs are unique. For each candidate that is last with its URL, exactly one row has that URL, and it carries that candidate's columns. |
| Upsert.RefreshIdempotent | server/routes.ts:284-311 | Running the same batch again adds no row; it only moves `last_seen` of the batch's rows to the new time. |
| Upsert.BatchOnEmpty | server/routes.ts:143-147 | On an empty table, a batch yields a valid table with at most one row per candidate, a row for each candidate's URL, and no other row. |
| Storage.MapSet | backend/storage.ts:157 | `Map.set` with a fresh id appends the tool at the end of the iteration order. |
| Storage.CreateTool | backend/storage.ts:147-159 | The new tool has id `nextId`, the current time and the insert's columns. `nextId` advances by one. Exactly one entry is appended, so ids stay unique and increasing. |
| Storage.Seed | backend/storage.ts:110-112 | Seeding appends one tool per sample, in order, with consecutive ids, and keeps what was stored before. |
| Storage.SeedKeepsDuplicateUrls | backend/storage.ts:110-112 | Two samples with the same URL both persist, under different ids. |
| Storage.GetTools | backend/storage.ts:115-135 | The result is a permutation of the matching tools, newest first. Tools with the same timestamp keep insertion order, which is increasing id. |
| Storage.SortIsStable | backend/storage.ts:131-134 | On tools in id order, sorting by `lastSeen` alone equals sorting by `lastSeen` and then by increasing id. |
| Storage.GetToolsUnfiltered | backend/storage.ts:115-135 | With no search and category `""` or `all`, the result is exactly the stored tools, reordered. |
| Storage.GetCategories | backend/storage.ts:137-145 | Distinct truthy categories of the stored tools, ascending. |
| Storage.DrizzleCategories | backend/storage.ts:224-232 | The database rows' categories without the empty one, distinct and ascending. |
| Storage.DrizzleCategoriesAgree | backend/storage.ts:217-237 | Given the same tools, the database path and the in-memory path list the same categories. |
| RoutesSimple.FilterEntries | server/routes-simple.ts:30-44 | An entry is kept iff the search is empty or the lower-cased name or description contains it, and the category is empty, `all` or equal. The result is a subsequence of the dataset. |
| RoutesSimple.SameFilterAsCatalog | server/routes-simple.ts:33-44 | This filter agrees with the catalogue filter of the other variants on every entry. |
| RoutesSimple.EffectiveLimit | server/routes-simple.ts:47 | The limit is capped at 48 with a default of 24, and not clamped below. |
| RoutesSimple.ListTools | server/routes-simple.ts:25-64 | The offset defaults to 0 and is not clamped. `total` is the filtered length. `hasMore` iff `offset + limit < total`. For every offset and limit, the page is `slice(offset, offset + limit)` of the filtered entries. For non-negative offset and limit, that is the window at the offset, of at most `limit` entries. A non-positive limit gives an empty page unless the slice end becomes negative. The page holds only matches. |
| RoutesSimple.NegativeLimitEscapesCap | server/routes-simple.ts:47-49 | With `limit=-1` and more than 49 matches, the page holds all matches but the last, which is more than 48. |
| RoutesSimple.CappedLimit | server/routes-simple.ts:47 | The corrected limit is always in [0, 48]: default 24, negative gives 0. |
| RoutesSimple.ListToolsCapped | server/routes-simple.ts:47-49 | The corrected listing never returns more than 48 entries, whatever the offset, and otherwise answers as the source does. |
| RoutesSimple.CappedAgreesWhenNotNegative | server/routes-simple.ts:47-49 | For an absent or non-negative limit, the corrected listing equals the source's. |
| RoutesSimple.Categories | server/routes-simple.ts:66-74 | The category list is the fixed list of ten names starting with Text and Images. |
| RoutesSimple.CategoriesNotAscending | server/routes-simple.ts:69 | That constant list is not in ascending order, unlike the derived lists of the other variants. |
| RoutesSimple.Refresh | server/routes-simple.ts:6-22 | The refresh always succeeds and changes nothing. It reports as processed the size of the dataset, which is the total of an unfiltered listing. |
| Variants.ZeroLimit | server/routes.ts:21 | `limit=0` yields a default page of up to 24 rows from the SQL routes, and an empty page from the stateless variant. |
| Variants.NegativeOffset | server/routes-simple.ts:48-49 | `offset=-1` is the first page in the SQL routes. In the stateless variant, with fewer than 24 matches, it is the last match alone. |
| Variants.TiesByDecreasingIdInQuery | server/routes.ts:45 | Two rows with equal `last_seen` are listed by the query with the higher id first. |
| Variants.TiesByIncreasingIdInMemory | backend/storage.ts:131-134 | The same two tools come back from the in-memory store with the lower id first. |

## Left out

- Database plumbing: the pg `Pool`, the neon/drizzle setup, SQL text assembly, placeholder numbering. These are foreign libraries and I/O; the table is an abstract sequence.
- `DrizzleStorage`'s fallback to the in-memory store on a missing connection or a failed query. This is I/O error handling.
- `DrizzleStorage.getTools`, `createTool` and `initializeData`. The first is the same filter as `MemStorage.getTools`, with only a `lastSeen` order, which the database leaves unspecified on ties. The others are plain inserts.
- The 500 error answers of every route, including those from I/O failures.
- Routes.ListTools: an offset beyond the signed 64-bit range of PostgreSQL's `OFFSET` (for example `offset=1e20`) makes the query fail, and the route answers 500 (server/routes.ts:22, 45-46, 68-70). The model's offset is unbounded, so it returns an empty page instead.
- Transaction isolation and concurrent refreshes. A batch is one atomic step.
- A failure of `ROLLBACK` itself. The model assumes the rollback succeeds.
- Whether a statement that fails draws a sequence value. Under a fault, the sequence is not described.
- ILIKE `%` and `_` wildcards, Unicode case folding and collation. Search is a plain substring test after ASCII lower-casing, and sorting is by character code.
- `parseInt` parsing and NaN. In `server/routes.ts`, an unparseable value falls back to the default and is `None`. In `server/routes-simple.ts`, an unparseable `limit` or `offset` gives `NaN`: the slice is empty, `hasMore` is false and the echoed numbers are `NaN`. That case is not modelled there, and `None` only means absent.
- Nullable `last_seen`: every write path sets it, so it is a plain timestamp. The `!a.lastSeen` branch of the in-memory sort comparator is therefore never taken.
- Timestamps are natural numbers supplied by the caller, not wall-clock time.
- The literal datasets of the seeding and refresh code. They are inputs.
- The schema file (shared/schema.ts:16) declares a plain, non-unique index on `lower(url)` under the same name, `uniq_ai_tools_url`, as the unique index that server/routes.ts:138 creates. The model's table invariant assumes the unique index. If the schema's plain index exists first, the `CREATE UNIQUE INDEX IF NOT EXISTS` does nothing. Every `ON CONFLICT ((LOWER(url)))` then fails for lack of a matching unique index. The model sees that only as a failure of the first statement, `FaultAt(0)`.
- The user-interface components: presentation only.
- Storage.GetTools: stated for a store whose ids increase in insertion order, which is every store `createTool` builds.

## Findings

| source | as written | input that shows it | evidently intended | confidence | as-written member | corrected member |
|---|---|---|---|---|---|---|
| server/routes-simple.ts:47-49 | The limit is `Math.min(parseInt(limit), 48)`, with no lower clamp, and is passed as `slice(offset, offset + limit)`. | `GET /api/tools?limit=-1` on a dataset with 50 or more matches: `slice(0, -1)` returns every match but the last, far more than 48. | A page never holds more than 48 tools. | high, not executed | RoutesSimple.NegativeLimitEscapesCap | RoutesSimple.ListToolsCapped |
