/**
 * `bulkUpsertTools`: one transaction that runs, for every candidate in turn,
 * `INSERT ... ON CONFLICT ((LOWER(url))) DO UPDATE`, then commits; any fault
 * rolls the rows back while the count of statements already run is still
 * returned.
 */
module Upsert {
  import opened Wrappers
  import opened Schema

  /** One element of the curated batch; `source` is not part of it (the statement writes 'curated'). */
  datatype Candidate = Candidate(
    name: string,
    url: string,
    description: Option<string>,
    imageUrl: Option<string>,
    category: Option<string>)

  /**
   * The `ai_tools` table: its rows and the next value of the `BIGSERIAL` id
   * sequence. Every `INSERT` draws a sequence value, also when it ends in the
   * conflict update, and a rollback does not return drawn values.
   */
  datatype Table = Table(rows: seq<Tool>, nextId: nat)

  const CuratedSource: string := "curated"

  ghost predicate UniqueUrls(rows: seq<Tool>) {
    forall i, j :: 0 <= i < |rows| && 0 <= j < |rows| && i != j ==> UrlKey(rows[i].url) != UrlKey(rows[j].url)
  }

  ghost predicate UniqueIds(rows: seq<Tool>) {
    forall i, j :: 0 <= i < |rows| && 0 <= j < |rows| && i != j ==> rows[i].id != rows[j].id
  }

  /**
   * The table invariant: the unique index on `LOWER(url)`, the primary key,
   * and a sequence that is ahead of every id already drawn.
   */
  ghost predicate Valid(t: Table) {
    && UniqueUrls(t.rows)
    && UniqueIds(t.rows)
    && (forall i :: 0 <= i < |t.rows| ==> t.rows[i].id < t.nextId)
  }

  /** Some row has normalised URL `key`. */
  ghost predicate Stored(rows: seq<Tool>, key: string) {
    exists i :: 0 <= i < |rows| && UrlKey(rows[i].url) == key
  }

  /** Some candidate of `batch` has normalised URL `key`. */
  ghost predicate InBatch(key: string, batch: seq<Candidate>) {
    exists k :: 0 <= k < |batch| && UrlKey(batch[k].url) == key
  }

  /** The row holds the candidate's mutable columns and was touched at `now`. */
  predicate Carries(row: Tool, c: Candidate, now: Timestamp) {
    && row.name == c.name
    && row.description == c.description
    && row.imageUrl == c.imageUrl
    && row.category == c.category
    && row.lastSeen == now
  }

  /** The position of the row whose normalised URL is `key`, if any. */
  function FindUrl(rows: seq<Tool>, key: string): (r: Option<nat>)
    ensures r.Some? ==> r.value < |rows| && UrlKey(rows[r.value].url) == key
    ensures r.None? ==> forall i :: 0 <= i < |rows| ==> UrlKey(rows[i].url) != key
  {
    if |rows| == 0 then None
    else if UrlKey(rows[0].url) == key then Some(0)
    else
      match FindUrl(rows[1..], key)
      case None => None
      case Some(i) => Some(i + 1)
  }

  /**
   * One `INSERT ... ON CONFLICT DO UPDATE` statement. On a conflict the
   * existing row keeps its `id`, the casing of its `url` and its `source`;
   * otherwise a new row is appended with the drawn id and source 'curated'.
   */
  function UpsertOne(t: Table, c: Candidate, now: Timestamp): (r: Table)
    ensures r.nextId == t.nextId + 1
    ensures |t.rows| <= |r.rows| <= |t.rows| + 1
    ensures forall i :: 0 <= i < |t.rows| ==>
      r.rows[i].id == t.rows[i].id && r.rows[i].url == t.rows[i].url && r.rows[i].source == t.rows[i].source
    ensures forall i :: 0 <= i < |t.rows| && UrlKey(t.rows[i].url) != UrlKey(c.url) ==> r.rows[i] == t.rows[i]
    ensures |r.rows| == |t.rows| + 1 ==>
      && (forall i :: 0 <= i < |t.rows| ==> UrlKey(t.rows[i].url) != UrlKey(c.url))
      && r.rows[|t.rows|] == Tool(t.nextId, c.name, c.url, c.description, c.imageUrl, c.category, Some(CuratedSource), now)
    ensures Stored(t.rows, UrlKey(c.url)) ==> |r.rows| == |t.rows|
    ensures Valid(t) ==> Valid(r)
    ensures Valid(t) ==> forall i :: 0 <= i < |r.rows| && UrlKey(r.rows[i].url) == UrlKey(c.url) ==> Carries(r.rows[i], c, now)
    ensures Stored(r.rows, UrlKey(c.url))
  {
    match FindUrl(t.rows, UrlKey(c.url))
    case Some(i) =>
      var prev := t.rows[i];
      var updated := prev.(name := c.name, description := c.description, imageUrl := c.imageUrl,
                           category := c.category, lastSeen := now);
      var r := Table(t.rows[i := updated], t.nextId + 1);
      assert UrlKey(r.rows[i].url) == UrlKey(c.url);
      r
    case None =>
      var added := Tool(t.nextId, c.name, c.url, c.description, c.imageUrl, c.category, Some(CuratedSource), now);
      var r := Table(t.rows + [added], t.nextId + 1);
      assert r.rows[|t.rows|] == added;
      assert UrlKey(r.rows[|t.rows|].url) == UrlKey(c.url);
      r
  }

  /** The statements of the batch run in order; the rows as they stand before `COMMIT`. */
  function ApplyBatch(t: Table, batch: seq<Candidate>, now: Timestamp): (r: Table)
    decreases |batch|
  {
    if |batch| == 0 then t
    else UpsertOne(ApplyBatch(t, batch[..|batch| - 1], now), batch[|batch| - 1], now)
  }

  /** The last position in `batch` whose normalised URL is `key`. */
  function LastIndex(batch: seq<Candidate>, key: string): (k: nat)
    requires InBatch(key, batch)
    ensures k < |batch| && UrlKey(batch[k].url) == key
    ensures forall j :: k < j < |batch| ==> UrlKey(batch[j].url) != key
    decreases |batch|
  {
    if UrlKey(batch[|batch| - 1].url) == key then |batch| - 1
    else
      var init := batch[..|batch| - 1];
      assert InBatch(key, init) by {
        var k :| 0 <= k < |batch| && UrlKey(batch[k].url) == key;
        assert init[k] == batch[k];
      }
      LastIndex(init, key)
  }

  /** How a fault oracle interrupts the transaction. */
  datatype Fault =
    | NoFault
      /** The statement at position `step` throws; `step >= |batch|` means `COMMIT` throws. */
    | FaultAt(step: nat)

  datatype BatchOutcome = BatchOutcome(table: Table, processed: nat)

  /**
   * `bulkUpsertTools`. Without a fault the batch is committed and `processed`
   * is its length. With a fault the rows are rolled back, yet `processed`
   * still counts the statements that ran before it.
   */
  function BulkUpsert(t: Table, batch: seq<Candidate>, now: Timestamp, fault: Fault): (r: BatchOutcome)
    ensures fault.NoFault? ==> r.processed == |batch|
    ensures fault.NoFault? ==> r.table.nextId == t.nextId + |batch| && |t.rows| <= |r.table.rows|
    ensures fault.FaultAt? ==> r.table.rows == t.rows
    ensures fault.FaultAt? ==> r.processed == (if fault.step < |batch| then fault.step else |batch|)
    ensures Valid(t) ==> Valid(r.table)
  {
    ApplyBatchFrame(t, batch, now);
    match fault
    case NoFault =>
      BatchOutcome(ApplyBatch(t, batch, now), |batch|)
    case FaultAt(step) =>
      var ran := if step < |batch| then step else |batch|;
      BatchOutcome(Table(t.rows, t.nextId + ran), ran)
  }

  /**
   * What running a batch keeps: the invariant, the sequence advancing by one
   * per statement, rows updated in place (same position, `id`, `url` and
   * `source`), rows whose URL is not in the batch untouched, and new rows
   * only for URLs of the batch, with source 'curated'.
   */
  lemma {:induction false} ApplyBatchFrame(t: Table, batch: seq<Candidate>, now: Timestamp)
    ensures var r := ApplyBatch(t, batch, now);
      && r.nextId == t.nextId + |batch|
      && (Valid(t) ==> Valid(r))
      && |t.rows| <= |r.rows| <= |t.rows| + |batch|
      && (forall i :: 0 <= i < |t.rows| ==>
            r.rows[i].id == t.rows[i].id && r.rows[i].url == t.rows[i].url && r.rows[i].source == t.rows[i].source)
      && (forall i :: 0 <= i < |t.rows| && !InBatch(UrlKey(t.rows[i].url), batch) ==> r.rows[i] == t.rows[i])
      && (forall i :: |t.rows| <= i < |r.rows| ==>
            InBatch(UrlKey(r.rows[i].url), batch) && r.rows[i].source == Some(CuratedSource) && t.nextId <= r.rows[i].id)
    decreases |batch|
  {
    if |batch| > 0 {
      var init := batch[..|batch| - 1];
      var c := batch[|batch| - 1];
      ApplyBatchFrame(t, init, now);
      var mid := ApplyBatch(t, init, now);
      var r := ApplyBatch(t, batch, now);
      assert r == UpsertOne(mid, c, now);
      forall key | InBatch(key, init) ensures InBatch(key, batch) {
        var k :| 0 <= k < |init| && UrlKey(init[k].url) == key;
        assert batch[k] == init[k];
      }
      forall i | 0 <= i < |t.rows| && !InBatch(UrlKey(t.rows[i].url), batch)
        ensures r.rows[i] == t.rows[i]
      {
        assert UrlKey(c.url) != UrlKey(t.rows[i].url);
      }
      forall i | |t.rows| <= i < |r.rows|
        ensures InBatch(UrlKey(r.rows[i].url), batch)
      {
        if i >= |mid.rows| {
          assert UrlKey(r.rows[i].url) == UrlKey(batch[|batch| - 1].url);
        }
      }
    }
  }

  /**
   * After a batch, every row whose normalised URL occurs in it holds the
   * columns of the LAST candidate with that URL and was touched at `now`.
   */
  lemma {:induction false} ApplyBatchCarriesLast(t: Table, batch: seq<Candidate>, now: Timestamp)
    requires Valid(t)
    ensures CarriesLast(ApplyBatch(t, batch, now).rows, batch, now)
    decreases |batch|
  {
    if |batch| > 0 {
      var init := batch[..|batch| - 1];
      var c := batch[|batch| - 1];
      ApplyBatchCarriesLast(t, init, now);
      var mid := ApplyBatch(t, init, now);
      assert Valid(mid) by {
        ApplyBatchFrame(t, init, now);
      }
      CarriesLastStep(mid, init, c, now);
      assert batch == init + [c];
      assert ApplyBatch(t, batch, now) == UpsertOne(mid, c, now);
    }
  }

  /** Every row whose normalised URL occurs in `batch` carries the last candidate with that URL. */
  ghost predicate CarriesLast(rows: seq<Tool>, batch: seq<Candidate>, now: Timestamp) {
    forall i :: 0 <= i < |rows| && InBatch(UrlKey(rows[i].url), batch) ==>
      Carries(rows[i], batch[LastIndex(batch, UrlKey(rows[i].url))], now)
  }

  /** One more statement keeps every row carrying the last candidate of its URL. */
  lemma CarriesLastStep(mid: Table, init: seq<Candidate>, c: Candidate, now: Timestamp)
    requires Valid(mid) && CarriesLast(mid.rows, init, now)
    ensures CarriesLast(UpsertOne(mid, c, now).rows, init + [c], now)
  {
    var batch := init + [c];
    var r := UpsertOne(mid, c, now);
    forall i | 0 <= i < |r.rows| && InBatch(UrlKey(r.rows[i].url), batch)
      ensures Carries(r.rows[i], batch[LastIndex(batch, UrlKey(r.rows[i].url))], now)
    {
      var key := UrlKey(r.rows[i].url);
      if key == UrlKey(c.url) {
        assert LastIndex(batch, key) == |batch| - 1;
      } else {
        assert i < |mid.rows|;
        assert r.rows[i] == mid.rows[i];
        assert batch[..|batch| - 1] == init;
        LastIndexOfInit(init, c, key);
      }
    }
  }

  /** A key other than the appended candidate's has its last position in the earlier part. */
  lemma LastIndexOfInit(init: seq<Candidate>, c: Candidate, key: string)
    requires InBatch(key, init + [c]) && UrlKey(c.url) != key
    ensures InBatch(key, init)
    ensures LastIndex(init + [c], key) == LastIndex(init, key)
    ensures (init + [c])[LastIndex(init, key)] == init[LastIndex(init, key)]
  {
    var batch := init + [c];
    assert batch[..|batch| - 1] == init;
    var k :| 0 <= k < |batch| && UrlKey(batch[k].url) == key;
    assert k < |init| && init[k] == batch[k];
  }

  /** After a batch, every candidate's normalised URL has a row. */
  lemma {:induction false} ApplyBatchCovers(t: Table, batch: seq<Candidate>, now: Timestamp)
    ensures forall k :: 0 <= k < |batch| ==> Stored(ApplyBatch(t, batch, now).rows, UrlKey(batch[k].url))
    decreases |batch|
  {
    if |batch| > 0 {
      var init := batch[..|batch| - 1];
      var c := batch[|batch| - 1];
      ApplyBatchCovers(t, init, now);
      var mid := ApplyBatch(t, init, now);
      var r := ApplyBatch(t, batch, now);
      assert r == UpsertOne(mid, c, now);
      forall k | 0 <= k < |batch| - 1
        ensures Stored(r.rows, UrlKey(batch[k].url))
      {
        assert init[k] == batch[k];
        assert Stored(mid.rows, UrlKey(init[k].url));
        var i :| 0 <= i < |mid.rows| && UrlKey(mid.rows[i].url) == UrlKey(init[k].url);
        assert r.rows[i].url == mid.rows[i].url;
      }
    }
  }

  /** A batch whose every URL is already stored adds no row. */
  lemma {:induction false} ApplyBatchNoGrowth(t: Table, batch: seq<Candidate>, now: Timestamp)
    requires forall k :: 0 <= k < |batch| ==> Stored(t.rows, UrlKey(batch[k].url))
    ensures |ApplyBatch(t, batch, now).rows| == |t.rows|
    decreases |batch|
  {
    if |batch| > 0 {
      var init := batch[..|batch| - 1];
      var c := batch[|batch| - 1];
      assert forall k :: 0 <= k < |init| ==> init[k] == batch[k];
      ApplyBatchNoGrowth(t, init, now);
      ApplyBatchFrame(t, init, now);
      var mid := ApplyBatch(t, init, now);
      assert Stored(t.rows, UrlKey(c.url));
      var i :| 0 <= i < |t.rows| && UrlKey(t.rows[i].url) == UrlKey(c.url);
      assert UrlKey(mid.rows[i].url) == UrlKey(c.url);
    }
  }

  /** No later candidate of `batch` shares the normalised URL of the one at `k`. */
  ghost predicate LastFor(batch: seq<Candidate>, k: int)
    requires 0 <= k < |batch|
  {
    forall j :: k < j < |batch| ==> UrlKey(batch[j].url) != UrlKey(batch[k].url)
  }

  /**
   * A committed batch keeps the table valid, and for each candidate that is
   * the last one with its normalised URL there is exactly one row with that
   * URL, holding that candidate's columns and touched at `now`.
   */
  lemma BulkUpsertCommitted(t: Table, batch: seq<Candidate>, now: Timestamp)
    requires Valid(t)
    ensures var r := BulkUpsert(t, batch, now, NoFault).table;
      && Valid(r)
      && forall k :: 0 <= k < |batch| && LastFor(batch, k) ==>
           exists i :: && 0 <= i < |r.rows|
                        && UrlKey(r.rows[i].url) == UrlKey(batch[k].url)
                        && Carries(r.rows[i], batch[k], now)
                        && forall j :: 0 <= j < |r.rows| && UrlKey(r.rows[j].url) == UrlKey(batch[k].url) ==> j == i
  {
    var r := BulkUpsert(t, batch, now, NoFault).table;
    assert r == ApplyBatch(t, batch, now);
    ApplyBatchFrame(t, batch, now);
    ApplyBatchCovers(t, batch, now);
    ApplyBatchCarriesLast(t, batch, now);
    forall k | 0 <= k < |batch| && LastFor(batch, k)
      ensures exists i :: && 0 <= i < |r.rows|
                          && UrlKey(r.rows[i].url) == UrlKey(batch[k].url)
                          && Carries(r.rows[i], batch[k], now)
                          && forall j :: 0 <= j < |r.rows| && UrlKey(r.rows[j].url) == UrlKey(batch[k].url) ==> j == i
    {
      var key := UrlKey(batch[k].url);
      assert Stored(r.rows, key);
      var i :| 0 <= i < |r.rows| && UrlKey(r.rows[i].url) == key;
      assert InBatch(key, batch);
      assert LastIndex(batch, key) == k;
    }
  }

  /**
   * Refreshing twice with the same batch creates no row the first refresh
   * did not: the second one only moves `lastSeen` of the batch's rows to its
   * own time and leaves every other column and row as the first left it.
   */
  lemma RefreshIdempotent(t: Table, batch: seq<Candidate>, now1: Timestamp, now2: Timestamp)
    requires Valid(t)
    ensures var r1 := BulkUpsert(t, batch, now1, NoFault).table;
            var r2 := BulkUpsert(r1, batch, now2, NoFault).table;
      && |r2.rows| == |r1.rows|
      && forall i :: 0 <= i < |r1.rows| ==>
           r2.rows[i] == (if InBatch(UrlKey(r1.rows[i].url), batch) then r1.rows[i].(lastSeen := now2) else r1.rows[i])
  {
    var r1 := ApplyBatch(t, batch, now1);
    var r2 := ApplyBatch(r1, batch, now2);
    ApplyBatchFrame(t, batch, now1);
    ApplyBatchCovers(t, batch, now1);
    ApplyBatchCarriesLast(t, batch, now1);
    ApplyBatchNoGrowth(r1, batch, now2);
    ApplyBatchFrame(r1, batch, now2);
    ApplyBatchCarriesLast(r1, batch, now2);
    forall i | 0 <= i < |r1.rows| && InBatch(UrlKey(r1.rows[i].url), batch)
      ensures r2.rows[i] == r1.rows[i].(lastSeen := now2)
    {
      assert UrlKey(r2.rows[i].url) == UrlKey(r1.rows[i].url);
    }
  }

  /**
   * A batch run on an empty table yields a valid table with at most one row
   * per candidate, a row for every candidate's URL, and no other row.
   */
  lemma BatchOnEmpty(t: Table, batch: seq<Candidate>, now: Timestamp)
    requires |t.rows| == 0
    ensures var r := ApplyBatch(t, batch, now);
      && Valid(r)
      && |r.rows| <= |batch|
      && (forall k :: 0 <= k < |batch| ==> Stored(r.rows, UrlKey(batch[k].url)))
      && (forall i :: 0 <= i < |r.rows| ==> InBatch(UrlKey(r.rows[i].url), batch))
  {
    ApplyBatchFrame(t, batch, now);
    ApplyBatchCovers(t, batch, now);
  }
}
