/**
 What the warehouse stores, told from the rows that were sent: column by column, and which row it comes from;
 and when a whole call is refused.
 */
module OdsRows {
  import opened IsoTime
  import opened Events
  import opened Dedup
  import opened Ods

  /** A stored row holds the columns of a sent row, and when it was stored. */
  predicate StoredFrom(v: OdsRow, r: Row, now: int)
    requires ValidRow(r)
  {
    && v.time == Instant(r.time) && v.updated == Instant(r.updated) && v.details == r.details
    && v.country == r.country && v.riskClass == r.riskClass
    && v.sourceWindowStart == r.sourceWindowStart && v.sourceWindowEnd == r.sourceWindowEnd
    && v.ingestedAt == now
  }

  // ----- one call -----

  /** No row of the id is newer than what is stored for it. */
  predicate NoneNewer(t: Table, rows: seq<Row>, id: string)
    requires ValidRows(rows)
  {
    forall i :: 0 <= i < |rows| && rows[i].id == id ==> id in t && Instant(rows[i].updated) <= t[id].updated
  }

  /** Row i is the first of the newest rows of the id, and newer than what is stored for it. */
  predicate Wins(t: Table, rows: seq<Row>, id: string, i: nat)
    requires ValidRows(rows)
  {
    FirstNewest(rows, id, i) && (id in t ==> t[id].updated < Instant(rows[i].updated))
  }

  ghost predicate Outcome(t: Table, rows: seq<Row>, now: int, t': Table, id: string)
    requires ValidRows(rows)
  {
    if NoneNewer(t, rows, id) then (id in t' <==> id in t) && (id in t ==> t'[id] == t[id])
    else exists i :: 0 <= i < |rows| && Wins(t, rows, id, i) && id in t' && StoredFrom(t'[id], rows[i], now)
  }

  lemma NextAfterNone(t: Table, rows: seq<Row>, now: int, t1: Table, id: string, n: nat)
    requires ValidRows(rows) && |rows| == n + 1 && NoneNewer(t, rows[..n], id)
    requires (id in t1 <==> id in t) && (id in t ==> t1[id] == t[id])
    ensures Outcome(t, rows, now, MergeRow(t1, Arrival(rows[n].id, ToOds(rows[n], now))), id)
  {
    var r := rows[n];
    assert forall j :: 0 <= j < n ==> rows[..n][j] == rows[j];
    if r.id == id && (id !in t || t[id].updated < Instant(r.updated)) {
      var t2 := MergeRow(t1, Arrival(r.id, ToOds(r, now)));
      assert Wins(t, rows, id, n) && StoredFrom(t2[id], rows[n], now);
      assert !NoneNewer(t, rows, id);
    } else {
      assert NoneNewer(t, rows, id);
    }
  }

  lemma NextAfterSome(t: Table, rows: seq<Row>, now: int, t1: Table, id: string, n: nat, i: nat)
    requires ValidRows(rows) && |rows| == n + 1 && i < n && Wins(t, rows[..n], id, i)
    requires id in t1 && StoredFrom(t1[id], rows[i], now)
    ensures Outcome(t, rows, now, MergeRow(t1, Arrival(rows[n].id, ToOds(rows[n], now))), id)
  {
    var r := rows[n];
    var t2 := MergeRow(t1, Arrival(r.id, ToOds(r, now)));
    assert rows[..n][i] == rows[i] && !NoneNewer(t, rows, id);
    if r.id == id && Instant(rows[i].updated) < Instant(r.updated) {
      NewerRowWins(rows, id, i);
      assert Wins(t, rows, id, n) && StoredFrom(t2[id], rows[n], now);
    } else {
      OtherRowLoses(rows, id, i);
      assert Wins(t, rows, id, i) && StoredFrom(t2[id], rows[i], now);
    }
  }

  lemma NextOutcome(t: Table, rows: seq<Row>, now: int, t1: Table, id: string, n: nat)
    requires ValidRows(rows) && |rows| == n + 1 && Outcome(t, rows[..n], now, t1, id)
    ensures Outcome(t, rows, now, MergeRow(t1, Arrival(rows[n].id, ToOds(rows[n], now))), id)
  {
    if NoneNewer(t, rows[..n], id) {
      NextAfterNone(t, rows, now, t1, id, n);
    } else {
      var i :| 0 <= i < n && Wins(t, rows[..n], id, i) && id in t1 && StoredFrom(t1[id], rows[..n][i], now);
      NextAfterSome(t, rows, now, t1, id, n, i);
    }
  }

  lemma {:induction false} MergeOutcome(t: Table, rows: seq<Row>, now: int, id: string)
    requires ValidRows(rows)
    ensures Outcome(t, rows, now, Merge(t, Arrivals(rows, now)), id)
  {
    if |rows| > 0 {
      var n := |rows| - 1;
      MergeOutcome(t, rows[..n], now, id);
      assert Arrivals(rows, now)[..n] == Arrivals(rows[..n], now);
      NextOutcome(t, rows, now, Merge(t, Arrivals(rows[..n], now)), id, n);
    }
  }

  /** What a call that succeeds leaves for an id: what was there, if no row is newer; else the columns of the
      first of the newest rows. */
  lemma {:induction false} UpsertStores(t: Table, rows: seq<Row>, now: int, id: string)
    requires ValidRows(rows) && Upserted(t, rows, now).Some?
    ensures Outcome(t, rows, now, Upserted(t, rows, now).value, id)
  {
    UpsertMerges(t, rows, now);
    MergeOutcome(t, rows, now, id);
  }

  // ----- all batches -----

  /** A raw row of a batch. */
  predicate Raw(bs: seq<Batch>, b: nat, i: nat, id: string) {
    b < |bs| && i < |bs[b].raw| && bs[b].raw[i].id == id
  }

  /** Raw row i of batch b is among the newest ever received for the id, and no earlier batch had one as new. */
  ghost predicate Newest(bs: seq<Batch>, b: nat, i: nat, id: string)
    requires SilverBatches(bs)
  {
    && Raw(bs, b, i, id) && SilverBatch(bs[b])
    && forall c: nat, j: nat {:trigger Raw(bs, c, j, id)} :: Raw(bs, c, j, id) ==>
         SilverBatch(bs[c]) && Instant(bs[c].raw[j].updated) <= Instant(bs[b].raw[i].updated)
         && (c < b ==> Instant(bs[c].raw[j].updated) < Instant(bs[b].raw[i].updated))
  }

  /** The stored row of an id comes from a newest raw row; an id that was never received is not stored. */
  ghost predicate Kept(bs: seq<Batch>, t: Table, id: string)
    requires SilverBatches(bs)
  {
    if id in t then
      exists b: nat, i: nat :: Newest(bs, b, i, id) && StoredFrom(t[id], bs[b].raw[i], bs[b].at)
    else
      forall b: nat, i: nat {:trigger Raw(bs, b, i, id)} :: !Raw(bs, b, i, id)
  }

  /** What a batch keeps covers what it received. */
  lemma KeptCovers(b: Batch, i: nat) returns (k: nat)
    requires SilverBatch(b) && i < |b.raw|
    ensures k < |b.kept| && b.kept[k].id == b.raw[i].id && Instant(b.raw[i].updated) <= Instant(b.kept[k].updated)
  {
    TextOrderKeepsNewest(b.raw, b.kept);
    assert Has(b.kept, b.raw[i].id);
    k :| 0 <= k < |b.kept| && b.kept[k].id == b.raw[i].id;
  }

  lemma KeptIsReceived(b: Batch, k: nat) returns (i: nat)
    requires SilverBatch(b) && k < |b.kept|
    ensures i < |b.raw| && b.raw[i] == b.kept[k]
  {
    assert b.kept[k] in b.raw;
    i :| 0 <= i < |b.raw| && b.raw[i] == b.kept[k];
  }

  lemma NewBatchOlder(b: Batch, t: Table, id: string, i: nat)
    requires SilverBatch(b) && NoneNewer(t, b.kept, id) && i < |b.raw| && b.raw[i].id == id
    ensures id in t && Instant(b.raw[i].updated) <= t[id].updated
  {
    var k := KeptCovers(b, i);
  }

  lemma StillNewest(bs: seq<Batch>, t: Table, id: string, n: nat, b: nat, i: nat)
    requires SilverBatches(bs) && |bs| == n + 1 && Newest(bs[..n], b, i, id)
    requires SilverBatch(bs[n]) && NoneNewer(t, bs[n].kept, id)
    requires id in t && t[id].updated == Instant(bs[b].raw[i].updated)
    ensures Newest(bs, b, i, id)
  {
    assert Raw(bs[..n], b, i, id);
    forall c: nat, j: nat | Raw(bs, c, j, id)
      ensures SilverBatch(bs[c]) && Instant(bs[c].raw[j].updated) <= Instant(bs[b].raw[i].updated)
      ensures c < b ==> Instant(bs[c].raw[j].updated) < Instant(bs[b].raw[i].updated)
    {
      if c == n {
        NewBatchOlder(bs[n], t, id, j);
      } else {
        assert Raw(bs[..n], c, j, id);
      }
    }
  }

  lemma NothingNew(bs: seq<Batch>, t: Table, id: string, n: nat)
    requires SilverBatches(bs) && |bs| == n + 1 && Kept(bs[..n], t, id)
    requires SilverBatch(bs[n]) && NoneNewer(t, bs[n].kept, id)
    ensures Kept(bs, t, id)
  {
    if id in t {
      var b: nat, i: nat :| Newest(bs[..n], b, i, id) && StoredFrom(t[id], bs[..n][b].raw[i], bs[..n][b].at);
      StillNewest(bs, t, id, n, b, i);
    } else {
      forall c: nat, j: nat ensures !Raw(bs, c, j, id) {
        if Raw(bs, c, j, id) && c == n {
          NewBatchOlder(bs[n], t, id, j);
        }
        assert !Raw(bs[..n], c, j, id);
      }
    }
  }

  lemma OlderStored(bs: seq<Batch>, t: Table, id: string, c: nat, j: nat)
    requires SilverBatches(bs) && Kept(bs, t, id) && Raw(bs, c, j, id)
    ensures SilverBatch(bs[c]) && id in t && Instant(bs[c].raw[j].updated) <= t[id].updated
  {
  }

  lemma SomethingNew(bs: seq<Batch>, t: Table, id: string, n: nat, k: nat, t': Table)
    requires SilverBatches(bs) && |bs| == n + 1 && Kept(bs[..n], t, id)
    requires SilverBatch(bs[n]) && k < |bs[n].kept| && Wins(t, bs[n].kept, id, k)
    requires id in t' && StoredFrom(t'[id], bs[n].kept[k], bs[n].at)
    ensures Kept(bs, t', id)
  {
    var i := KeptIsReceived(bs[n], k);
    assert Raw(bs, n, i, id);
    forall c: nat, j: nat | Raw(bs, c, j, id)
      ensures SilverBatch(bs[c]) && Instant(bs[c].raw[j].updated) <= Instant(bs[n].raw[i].updated)
      ensures c < n ==> Instant(bs[c].raw[j].updated) < Instant(bs[n].raw[i].updated)
    {
      if c == n {
        var l := KeptCovers(bs[n], j);
      } else {
        assert Raw(bs[..n], c, j, id);
        OlderStored(bs[..n], t, id, c, j);
      }
    }
    assert Newest(bs, n, i, id);
  }

  lemma SameEntry(bs: seq<Batch>, t: Table, t': Table, id: string)
    requires SilverBatches(bs) && Kept(bs, t, id) && (id in t' <==> id in t) && (id in t ==> t'[id] == t[id])
    ensures Kept(bs, t', id)
  {
  }

  lemma NextBatch(bs: seq<Batch>, t: Table, t': Table, id: string, n: nat)
    requires SilverBatches(bs) && |bs| == n + 1 && SilverBatch(bs[n]) && Kept(bs[..n], t, id)
    requires Outcome(t, bs[n].kept, bs[n].at, t', id)
    ensures Kept(bs, t', id)
  {
    var b := bs[n];
    if NoneNewer(t, b.kept, id) {
      NothingNew(bs, t, id, n);
      SameEntry(bs, t, t', id);
    } else {
      var k :| 0 <= k < |b.kept| && Wins(t, b.kept, id, k) && id in t' && StoredFrom(t'[id], b.kept[k], b.at);
      SomethingNew(bs, t, id, n, k, t');
    }
  }

  /** The warehouse after any batches: for every id ever received, and no other, one row; its columns are those of
      a raw row with the greatest `updated` of all raw rows of the id, from the first batch that had one as new,
      and it is stamped with the time of that batch's load. Ties may be decided in any way. */
  lemma {:induction false} WarehouseHoldsNewestRows(bs: seq<Batch>, id: string)
    requires SilverBatches(bs)
    ensures Loaded(bs).Some? && Kept(bs, Loaded(bs).value, id)
  {
    LoadedMerges(bs);
    if |bs| > 0 {
      var n := |bs| - 1;
      assert SilverBatch(bs[n]);
      WarehouseHoldsNewestRows(bs[..n], id);
      UpsertStores(Loaded(bs[..n]).value, bs[n].kept, bs[n].at, id);
      NextBatch(bs, Loaded(bs[..n]).value, Loaded(bs).value, id, n);
    }
  }

  // ----- refused calls -----

  /** The page of a row. */
  function PageNo(i: nat): nat {
    i / 2000
  }

  lemma PageShift(i: nat)
    ensures i < 2000 ==> PageNo(i) == 0
    ensures i >= 2000 ==> PageNo(i) == PageNo(i - 2000) + 1
  {
  }

  /** Row j repeats the id of an earlier row of its page of 2000 that was written. */
  predicate ClashInPage(t: Table, rows: seq<Row>, now: int, i: nat, j: nat)
    requires ValidRows(rows) && i < j < |rows|
  {
    PageNo(i) == PageNo(j) && rows[i].id == rows[j].id && WrittenAt(t, rows, now, i)
  }

  ghost predicate SomeClash(t: Table, rows: seq<Row>, now: int)
    requires ValidRows(rows)
  {
    exists i: nat, j: nat :: i < j < |rows| && ClashInPage(t, rows, now, i, j)
  }

  lemma FirstPageClash(t: Table, rows: seq<Row>, now: int, k: nat, i: nat, j: nat)
    requires ValidRows(rows) && i < j < k <= |rows| && k <= 2000
    ensures ClashInPage(t, rows, now, i, j) <==> Repeats(t, rows[..k], now, i, j)
  {
    PageShift(i);
    PageShift(j);
    assert rows[..k][..i] == rows[..i];
  }

  lemma WrittenInRest(t: Table, rows: seq<Row>, now: int, i: nat)
    requires ValidRows(rows) && 2000 <= i < |rows|
    ensures WrittenAt(t, rows, now, i)
       <==> WrittenAt(Merge(t, Arrivals(rows[..2000], now)), rows[2000..], now, i - 2000)
  {
    var rest := rows[2000..];
    assert rows[..i] == rows[..2000] + rest[..i - 2000];
    assert Arrivals(rows[..i], now) == Arrivals(rows[..2000], now) + Arrivals(rest[..i - 2000], now);
    MergeAppend(t, Arrivals(rows[..2000], now), Arrivals(rest[..i - 2000], now));
  }

  lemma LaterPageClash(t: Table, rows: seq<Row>, now: int, t': Table, i: nat, j: nat)
    requires ValidRows(rows) && 2000 <= i < j < |rows| && t' == Merge(t, Arrivals(rows[..2000], now))
    ensures ClashInPage(t, rows, now, i, j) <==> ClashInPage(t', rows[2000..], now, i - 2000, j - 2000)
  {
    PageShift(i);
    PageShift(j);
    WrittenInRest(t, rows, now, i);
  }

  lemma FirstPageRefusedIff(t: Table, rows: seq<Row>, now: int, k: nat)
    requires ValidRows(rows) && k == PageOf(rows)
    ensures Statement(t, {}, rows[..k], now).None?
       <==> exists i: nat, j: nat :: i < j < k && ClashInPage(t, rows, now, i, j)
  {
    var page := rows[..k];
    RefusedIff(t, {}, page, now);
    if j :| 0 <= j < |page| && Clashes(t, {}, page, now, j) {
      var i :| 0 <= i < j && Repeats(t, page, now, i, j);
      FirstPageClash(t, rows, now, k, i, j);
    }
    if i: nat, j: nat :| i < j < k && ClashInPage(t, rows, now, i, j) {
      FirstPageClash(t, rows, now, k, i, j);
      assert Clashes(t, {}, page, now, j);
    }
  }

  /** A clash whose second row is beyond the first page is one of the rest. */
  lemma ClashGoesOn(t: Table, rows: seq<Row>, now: int, t': Table, i: nat, j: nat)
    requires ValidRows(rows) && i < j < |rows| && 2000 <= j && ClashInPage(t, rows, now, i, j)
    requires t' == Merge(t, Arrivals(rows[..2000], now))
    ensures SomeClash(t', rows[2000..], now)
  {
    PageShift(i);
    PageShift(j);
    LaterPageClash(t, rows, now, t', i, j);
  }

  lemma ClashComesFrom(t: Table, rows: seq<Row>, now: int, t': Table)
    requires ValidRows(rows) && |rows| > 2000 && t' == Merge(t, Arrivals(rows[..2000], now))
    requires SomeClash(t', rows[2000..], now)
    ensures SomeClash(t, rows, now)
  {
    var i: nat, j: nat :| i < j < |rows[2000..]| && ClashInPage(t', rows[2000..], now, i, j);
    LaterPageClash(t, rows, now, t', i + 2000, j + 2000);
  }

  /** A call is refused, and nothing of it kept, if and only if in some page of 2000 rows a row repeats the id of
      an earlier one that was written. */
  lemma {:induction false} CallRefusedIff(t: Table, rows: seq<Row>, now: int)
    requires ValidRows(rows)
    ensures Upserted(t, rows, now).None? <==> SomeClash(t, rows, now)
    decreases |rows|
  {
    if |rows| > 0 {
      var k := PageOf(rows);
      FirstPageRefusedIff(t, rows, now, k);
      if Statement(t, {}, rows[..k], now).Some? {
        var t' := Statement(t, {}, rows[..k], now).value;
        StatementMerges(t, {}, rows[..k], now);
        CallRefusedIff(t', rows[k..], now);
        if SomeClash(t, rows, now) {
          var i: nat, j: nat :| i < j < |rows| && ClashInPage(t, rows, now, i, j);
          ClashGoesOn(t, rows, now, t', i, j);
        }
        if SomeClash(t', rows[k..], now) {
          ClashComesFrom(t, rows, now, t');
        }
      }
    }
  }
}
