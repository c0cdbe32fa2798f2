/**
 The warehouse table ods.fct_earthquake_event and its upsert: rows are sent in pages, each page is one
 INSERT ... ON CONFLICT (id) DO UPDATE ... WHERE current.updated < EXCLUDED.updated, and the whole call is
 one transaction.
 */
module Ods {
  import opened Options
  import opened IsoTime
  import opened Events
  import opened Dedup

  const PAGE_SIZE := 2000

  datatype OdsRow = OdsRow(
    time: int, updated: int, details: Details, country: Option<string>, riskClass: Option<string>,
    sourceWindowStart: int, sourceWindowEnd: int, ingestedAt: int)

  type Table = map<string, OdsRow>

  function ToOds(r: Row, now: int): OdsRow
    requires ValidRow(r)
  {
    OdsRow(Instant(r.time), Instant(r.updated), r.details, r.country, r.riskClass,
           r.sourceWindowStart, r.sourceWindowEnd, now)
  }

  // ----- one statement, one call -----

  /** Does this row insert or overwrite? */
  predicate Writes(t: Table, id: string, v: OdsRow) {
    id !in t || t[id].updated < v.updated
  }

  /** One page. A row that meets an id written earlier by the same statement makes the database refuse the
      statement; a row that was only compared and not written does not. */
  function Statement(t: Table, written: set<string>, page: seq<Row>, now: int): Option<Table>
    requires ValidRows(page)
    decreases |page|
  {
    if |page| == 0 then Some(t)
    else
      var r := page[0];
      var v := ToOds(r, now);
      if r.id in written then None
      else if Writes(t, r.id, v) then Statement(t[r.id := v], written + {r.id}, page[1..], now)
      else Statement(t, written, page[1..], now)
  }

  function PageOf(rows: seq<Row>): nat {
    if |rows| < PAGE_SIZE then |rows| else PAGE_SIZE
  }

  /** All pages; None stands for the exception, after which nothing is kept. */
  function Upserted(t: Table, rows: seq<Row>, now: int): Option<Table>
    requires ValidRows(rows)
    decreases |rows|
  {
    if |rows| == 0 then Some(t)
    else
      match Statement(t, {}, rows[..PageOf(rows)], now)
      case None => None
      case Some(t') => Upserted(t', rows[PageOf(rows)..], now)
  }

  class Repository {
    var ods: Table

    constructor (ods: Table)
      ensures this.ods == ods
    {
      this.ods := ods;
    }

    /** Returns the number of input rows, or None when the database raised and the call was rolled back. */
    method UpsertEarthquakes(rows: seq<Row>, now: int) returns (count: Option<nat>)
      requires ValidRows(rows)
      modifies this
      ensures match Upserted(old(ods), rows, now)
              case None => count == None && ods == old(ods)
              case Some(t) => count == Some(|rows|) && ods == t
    {
      var table, sent := ods, 0;
      while sent < |rows|
        invariant 0 <= sent <= |rows| && ods == old(ods)
        invariant Upserted(table, rows[sent..], now) == Upserted(old(ods), rows, now)
      {
        var rest := rows[sent..];
        var size := PageOf(rest);
        var page := Statement(table, {}, rest[..size], now);
        if page.None? {
          return None;
        }
        table := page.value;
        assert rest[size..] == rows[sent + size..];
        sent := sent + size;
      }
      ods := table;
      return Some(|rows|);
    }
  }

  // ----- what a call that succeeds does: the guarded merge, row by row -----

  datatype Arrival = Arrival(id: string, row: OdsRow)

  function MergeRow(t: Table, a: Arrival): Table {
    if Writes(t, a.id, a.row) then t[a.id := a.row] else t
  }

  function Merge(t: Table, s: seq<Arrival>): Table {
    if |s| == 0 then t else MergeRow(Merge(t, s[..|s| - 1]), s[|s| - 1])
  }

  function Arrivals(rows: seq<Row>, now: int): (s: seq<Arrival>)
    requires ValidRows(rows)
    ensures |s| == |rows| && forall i :: 0 <= i < |s| ==> s[i] == Arrival(rows[i].id, ToOds(rows[i], now))
  {
    seq(|rows|, i requires 0 <= i < |rows| => Arrival(rows[i].id, ToOds(rows[i], now)))
  }

  lemma {:induction false} MergeAppend(t: Table, a: seq<Arrival>, b: seq<Arrival>)
    ensures Merge(t, a + b) == Merge(Merge(t, a), b)
  {
    if |b| == 0 {
      assert a + b == a;
    } else {
      MergeAppend(t, a, b[..|b| - 1]);
      assert (a + b)[..|a + b| - 1] == a + b[..|b| - 1];
    }
  }

  lemma MergeFirst(t: Table, a: Arrival, rest: seq<Arrival>)
    ensures Merge(t, [a] + rest) == Merge(MergeRow(t, a), rest)
  {
    assert [a][..0] == [];
    assert Merge(t, [a]) == MergeRow(t, a);
    MergeAppend(t, [a], rest);
  }

  lemma {:induction false} StatementMerges(t: Table, written: set<string>, page: seq<Row>, now: int)
    requires ValidRows(page) && Statement(t, written, page, now).Some?
    ensures Statement(t, written, page, now).value == Merge(t, Arrivals(page, now))
    decreases |page|
  {
    if |page| > 0 {
      var a := Arrival(page[0].id, ToOds(page[0], now));
      assert Arrivals(page, now) == [a] + Arrivals(page[1..], now);
      MergeFirst(t, a, Arrivals(page[1..], now));
      StatementMerges(MergeRow(t, a), if Writes(t, a.id, a.row) then written + {a.id} else written, page[1..], now);
    }
  }

  lemma {:induction false} DistinctStatementRuns(t: Table, written: set<string>, page: seq<Row>, now: int)
    requires ValidRows(page) && DistinctIds(page) && forall i :: 0 <= i < |page| ==> page[i].id !in written
    ensures Statement(t, written, page, now).Some?
    decreases |page|
  {
    if |page| > 0 {
      var v := ToOds(page[0], now);
      if Writes(t, page[0].id, v) {
        DistinctStatementRuns(t[page[0].id := v], written + {page[0].id}, page[1..], now);
      } else {
        DistinctStatementRuns(t, written, page[1..], now);
      }
    }
  }

  /** A call that succeeds is the guarded merge of its rows, in order, whatever the pages. */
  lemma {:induction false} UpsertMerges(t: Table, rows: seq<Row>, now: int)
    requires ValidRows(rows) && Upserted(t, rows, now).Some?
    ensures Upserted(t, rows, now).value == Merge(t, Arrivals(rows, now))
    decreases |rows|
  {
    if |rows| > 0 {
      var k := PageOf(rows);
      StatementMerges(t, {}, rows[..k], now);
      assert Arrivals(rows, now) == Arrivals(rows[..k], now) + Arrivals(rows[k..], now);
      MergeAppend(t, Arrivals(rows[..k], now), Arrivals(rows[k..], now));
      UpsertMerges(Statement(t, {}, rows[..k], now).value, rows[k..], now);
    }
  }

  /** A call whose ids are all different always succeeds. */
  lemma {:induction false} DistinctUpsertSucceeds(t: Table, rows: seq<Row>, now: int)
    requires ValidRows(rows) && DistinctIds(rows)
    ensures Upserted(t, rows, now).Some?
    decreases |rows|
  {
    if |rows| > 0 {
      var k := PageOf(rows);
      DistinctStatementRuns(t, {}, rows[..k], now);
      DistinctUpsertSucceeds(Statement(t, {}, rows[..k], now).value, rows[k..], now);
    }
  }

  /** Row i of a page inserts or overwrites when its turn comes. */
  predicate WrittenAt(t: Table, page: seq<Row>, now: int, i: nat)
    requires ValidRows(page) && i < |page|
  {
    Writes(Merge(t, Arrivals(page[..i], now)), page[i].id, ToOds(page[i], now))
  }

  /** Row j repeats the id of row i, which was written. */
  predicate Repeats(t: Table, page: seq<Row>, now: int, i: nat, j: nat)
    requires ValidRows(page) && i < j < |page|
  {
    page[i].id == page[j].id && WrittenAt(t, page, now, i)
  }

  /** Row j meets an id that this statement has already written. */
  predicate Clashes(t: Table, written: set<string>, page: seq<Row>, now: int, j: nat)
    requires ValidRows(page) && j < |page|
  {
    page[j].id in written || exists i :: 0 <= i < j && Repeats(t, page, now, i, j)
  }

  lemma WrittenLater(t: Table, page: seq<Row>, now: int, i: nat)
    requires ValidRows(page) && 0 < i < |page|
    ensures WrittenAt(t, page, now, i)
       <==> WrittenAt(MergeRow(t, Arrival(page[0].id, ToOds(page[0], now))), page[1..], now, i - 1)
  {
    var a := Arrival(page[0].id, ToOds(page[0], now));
    assert page[..i][1..] == page[1..][..i - 1];
    assert Arrivals(page[..i], now) == [a] + Arrivals(page[1..][..i - 1], now);
    MergeFirst(t, a, Arrivals(page[1..][..i - 1], now));
  }

  function Writing(t: Table, written: set<string>, r: Row, now: int): set<string>
    requires ValidRow(r)
  {
    if Writes(t, r.id, ToOds(r, now)) then written + {r.id} else written
  }

  lemma FirstRow(t: Table, page: seq<Row>, now: int)
    requires ValidRows(page) && |page| > 0
    ensures WrittenAt(t, page, now, 0) <==> Writes(t, page[0].id, ToOds(page[0], now))
  {
    assert page[..0] == [];
    assert Arrivals([], now) == [];
  }

  lemma ClashesDown(t: Table, written: set<string>, page: seq<Row>, now: int, j: nat)
    requires ValidRows(page) && 0 < j < |page| && Clashes(t, written, page, now, j)
    ensures Clashes(MergeRow(t, Arrival(page[0].id, ToOds(page[0], now))), Writing(t, written, page[0], now),
                    page[1..], now, j - 1)
  {
    if page[j].id !in written {
      var i :| 0 <= i < j && Repeats(t, page, now, i, j);
      if i == 0 {
        FirstRow(t, page, now);
      } else {
        WrittenLater(t, page, now, i);
        assert Repeats(MergeRow(t, Arrival(page[0].id, ToOds(page[0], now))), page[1..], now, i - 1, j - 1);
      }
    }
  }

  lemma ClashesUp(t: Table, written: set<string>, page: seq<Row>, now: int, j: nat)
    requires ValidRows(page) && 0 < j < |page|
    requires Clashes(MergeRow(t, Arrival(page[0].id, ToOds(page[0], now))), Writing(t, written, page[0], now),
                    page[1..], now, j - 1)
    ensures Clashes(t, written, page, now, j)
  {
    var t' := MergeRow(t, Arrival(page[0].id, ToOds(page[0], now)));
    if page[j].id in Writing(t, written, page[0], now) {
      FirstRow(t, page, now);
      assert page[j].id in written || Repeats(t, page, now, 0, j);
    } else {
      var i :| 0 <= i < j - 1 && Repeats(t', page[1..], now, i, j - 1);
      WrittenLater(t, page, now, i + 1);
      assert Repeats(t, page, now, i + 1, j);
    }
  }

  /** The database refuses a page exactly when some row of it meets an id that an earlier row of the same
      page has written; a repeated id whose first row was only compared goes through. */
  lemma {:induction false} RefusedIff(t: Table, written: set<string>, page: seq<Row>, now: int)
    requires ValidRows(page)
    ensures Statement(t, written, page, now).None?
       <==> exists j :: 0 <= j < |page| && Clashes(t, written, page, now, j)
    decreases |page|
  {
    if |page| > 0 {
      var t', written' := MergeRow(t, Arrival(page[0].id, ToOds(page[0], now))), Writing(t, written, page[0], now);
      RefusedIff(t', written', page[1..], now);
      assert Clashes(t, written, page, now, 0) <==> page[0].id in written;
      if j :| 0 < j < |page| && Clashes(t, written, page, now, j) {
        ClashesDown(t, written, page, now, j);
        assert Clashes(t', written', page[1..], now, j - 1);
      }
      if j :| 0 <= j < |page[1..]| && Clashes(t', written', page[1..], now, j) {
        ClashesUp(t, written, page, now, j + 1);
        assert Clashes(t, written, page, now, j + 1);
      }
    }
  }

  // ----- convergence -----

  /** What the merge is about: everything but where a row came from and when it was stored. */
  datatype Content = Content(
    time: int, updated: int, details: Details, country: Option<string>, riskClass: Option<string>)

  function ContentOf(v: OdsRow): Content {
    Content(v.time, v.updated, v.details, v.country, v.riskClass)
  }

  function View(t: Table): map<string, Content> {
    map id | id in t :: ContentOf(t[id])
  }

  type Supply = set<(string, Content)>

  /** All that a history ever supplied: ids with contents, regardless of order and number. */
  function Supplied(s: seq<Arrival>): Supply {
    if |s| == 0 then {} else Supplied(s[..|s| - 1]) + {(s[|s| - 1].id, ContentOf(s[|s| - 1].row))}
  }

  /** The table holds, for exactly the ids supplied, a supplied content with the greatest `updated`. */
  predicate HoldsNewest(t: Table, supply: Supply) {
    && (forall id :: id in t ==> (id, ContentOf(t[id])) in supply)
    && (forall e :: e in supply ==> e.0 in t && e.1.updated <= t[e.0].updated)
  }

  lemma MergeRowHolds(t: Table, supply: Supply, a: Arrival)
    requires HoldsNewest(t, supply)
    ensures HoldsNewest(MergeRow(t, a), supply + {(a.id, ContentOf(a.row))})
  {
  }

  /** For any sequence of arrivals the table ends up with the newest content of every id. */
  lemma {:induction false} MergeHoldsNewest(s: seq<Arrival>)
    ensures HoldsNewest(Merge(map[], s), Supplied(s))
  {
    if |s| > 0 {
      MergeHoldsNewest(s[..|s| - 1]);
      MergeRowHolds(Merge(map[], s[..|s| - 1]), Supplied(s[..|s| - 1]), s[|s| - 1]);
    }
  }

  predicate NewestOfId(supply: Supply, e: (string, Content)) {
    e in supply && forall g :: g in supply && g.0 == e.0 ==> g.1.updated <= e.1.updated
  }

  /** No id was supplied with two different contents that tie for its greatest `updated`; in particular when
      an id and its `updated` determine the content. */
  ghost predicate UniqueNewest(supply: Supply) {
    forall e, f {:trigger NewestOfId(supply, e), NewestOfId(supply, f)} ::
      NewestOfId(supply, e) && NewestOfId(supply, f) && e.0 == f.0 ==> e == f
  }

  predicate AtLeastAsNew(part: Supply, e: (string, Content)) {
    exists f :: f in part && f.0 == e.0 && e.1.updated <= f.1.updated
  }

  /** One supply loses nothing of another: all of it is in the other, and for everything in the other it has
      something at least as new. */
  predicate Represents(part: Supply, whole: Supply) {
    part <= whole && forall e {:trigger AtLeastAsNew(part, e)} :: e in whole ==> AtLeastAsNew(part, e)
  }

  lemma NewestAgreeAt(p: Table, part: Supply, w: Table, whole: Supply, id: string)
    requires HoldsNewest(p, part) && HoldsNewest(w, whole) && UniqueNewest(whole) && Represents(part, whole)
    ensures id in p <==> id in w
    ensures id in p ==> ContentOf(p[id]) == ContentOf(w[id])
  {
    if id in w {
      var e := (id, ContentOf(w[id]));
      assert AtLeastAsNew(part, e);
      var f :| f in part && f.0 == e.0 && e.1.updated <= f.1.updated;
      assert id in p && w[id].updated <= p[id].updated;
    }
    if id in p {
      var g := (id, ContentOf(p[id]));
      assert g in whole;
      assert id in w && p[id].updated <= w[id].updated;
      assert NewestOfId(whole, (id, ContentOf(w[id]))) && NewestOfId(whole, g);
    }
  }

  /** Two tables that hold the newest of a supply and of a representative of it agree. */
  lemma {:induction false} NewestAgree(p: Table, part: Supply, w: Table, whole: Supply)
    requires HoldsNewest(p, part) && HoldsNewest(w, whole) && UniqueNewest(whole) && Represents(part, whole)
    ensures View(p) == View(w)
  {
    forall id
      ensures id in p <==> id in w
      ensures id in p ==> ContentOf(p[id]) == ContentOf(w[id])
    {
      NewestAgreeAt(p, part, w, whole, id);
    }
  }

  /** Convergence: the order of arrival, overlaps, repeats and paging do not matter, only which contents were
      supplied. */
  lemma {:induction false} MergeConverges(a: seq<Arrival>, b: seq<Arrival>)
    requires UniqueNewest(Supplied(a)) && Supplied(a) == Supplied(b)
    ensures View(Merge(map[], a)) == View(Merge(map[], b))
  {
    MergeHoldsNewest(a);
    MergeHoldsNewest(b);
    forall e | e in Supplied(a) ensures AtLeastAsNew(Supplied(a), e) {
    }
    NewestAgree(Merge(map[], a), Supplied(a), Merge(map[], b), Supplied(b));
  }

  function Entry(a: Arrival): (string, Content) {
    (a.id, ContentOf(a.row))
  }

  lemma {:induction false} SuppliedHas(s: seq<Arrival>, i: nat)
    requires i < |s|
    ensures Entry(s[i]) in Supplied(s)
  {
    if i < |s| - 1 {
      SuppliedHas(s[..|s| - 1], i);
    }
  }

  lemma {:induction false} SuppliedFrom(s: seq<Arrival>, e: (string, Content)) returns (i: nat)
    requires e in Supplied(s)
    ensures i < |s| && Entry(s[i]) == e
  {
    if e in Supplied(s[..|s| - 1]) {
      i := SuppliedFrom(s[..|s| - 1], e);
    } else {
      i := |s| - 1;
    }
  }

  lemma {:induction false} SuppliedAppend(a: seq<Arrival>, b: seq<Arrival>)
    ensures Supplied(a + b) == Supplied(a) + Supplied(b)
  {
    if |b| == 0 {
      assert a + b == a;
    } else {
      SuppliedAppend(a, b[..|b| - 1]);
      assert (a + b)[..|a + b| - 1] == a + b[..|b| - 1];
    }
  }

  lemma {:induction false} NewestStays(t: Table, s: seq<Arrival>, id: string)
    requires id in t && forall i :: 0 <= i < |s| && s[i].id == id ==> s[i].row.updated <= t[id].updated
    ensures id in Merge(t, s) && Merge(t, s)[id] == t[id]
  {
    if |s| > 0 {
      NewestStays(t, s[..|s| - 1], id);
    }
  }

  /** A newest entry that comes first is the one that stays, and adds nothing to the supply. */
  lemma NewestFirst(s: seq<Arrival>, i: nat)
    requires i < |s| && NewestOfId(Supplied(s), Entry(s[i]))
    ensures Supplied([s[i]] + s) == Supplied(s)
    ensures s[i].id in View(Merge(map[], [s[i]] + s)) && View(Merge(map[], [s[i]] + s))[s[i].id] == ContentOf(s[i].row)
  {
    SuppliedAppend([s[i]], s);
    assert [s[i]][..0] == [];
    assert Supplied([s[i]]) == {Entry(s[i])};
    MergeFirst(map[], s[i], s);
    forall j | 0 <= j < |s| && s[j].id == s[i].id ensures s[j].row.updated <= s[i].row.updated {
      SuppliedHas(s, j);
    }
    NewestStays(MergeRow(map[], s[i]), s, s[i].id);
  }

  /** The condition of the convergence theorem is exact: whenever two contents tie for the newest of an id,
      the same supply in two orders ends in two different tables. */
  lemma {:induction false} TiesDivide(s: seq<Arrival>)
    requires !UniqueNewest(Supplied(s))
    ensures exists a, b :: Supplied(a) == Supplied(s) && Supplied(b) == Supplied(s)
                           && View(Merge(map[], a)) != View(Merge(map[], b))
  {
    var e, f :| NewestOfId(Supplied(s), e) && NewestOfId(Supplied(s), f) && e.0 == f.0 && e != f;
    var i := SuppliedFrom(s, e);
    var j := SuppliedFrom(s, f);
    NewestFirst(s, i);
    NewestFirst(s, j);
    var a, b := [s[i]] + s, [s[j]] + s;
    assert View(Merge(map[], a))[e.0] == e.1 && View(Merge(map[], b))[e.0] == f.1;
    assert Supplied(a) == Supplied(s) && Supplied(b) == Supplied(s);
  }

  // ----- from silver batches to the warehouse -----

  /** A silver batch as received, and what its deduplication kept. */
  datatype Batch = Batch(raw: seq<Row>, kept: seq<Row>, at: int)

  /** The query kept one newest row per id: any of its possible answers. */
  predicate SilverBatch(b: Batch) {
    ValidRows(b.raw) && ValidRows(b.kept) && RowNumberOne(b.raw, b.kept)
  }

  predicate SilverBatches(bs: seq<Batch>) {
    forall i :: 0 <= i < |bs| ==> SilverBatch(bs[i])
  }

  /** Loading the kept rows of each batch in turn; None if any load raised. */
  function Loaded(bs: seq<Batch>): Option<Table>
    requires SilverBatches(bs)
  {
    if |bs| == 0 then Some(map[])
    else
      var b := bs[|bs| - 1];
      assert SilverBatch(b);
      match Loaded(bs[..|bs| - 1])
      case None => None
      case Some(t) => Upserted(t, b.kept, b.at)
  }

  /** Every raw row of every batch, as if nothing had been deduplicated. */
  function RawArrivals(bs: seq<Batch>): seq<Arrival>
    requires SilverBatches(bs)
  {
    if |bs| == 0 then []
    else
      assert SilverBatch(bs[|bs| - 1]);
      RawArrivals(bs[..|bs| - 1]) + Arrivals(bs[|bs| - 1].raw, bs[|bs| - 1].at)
  }

  function KeptArrivals(bs: seq<Batch>): seq<Arrival>
    requires SilverBatches(bs)
  {
    if |bs| == 0 then []
    else
      assert SilverBatch(bs[|bs| - 1]);
      KeptArrivals(bs[..|bs| - 1]) + Arrivals(bs[|bs| - 1].kept, bs[|bs| - 1].at)
  }

  lemma {:induction false} LoadedMerges(bs: seq<Batch>)
    requires SilverBatches(bs)
    ensures Loaded(bs) == Some(Merge(map[], KeptArrivals(bs)))
  {
    if |bs| > 0 {
      var n, b := |bs| - 1, bs[|bs| - 1];
      assert SilverBatch(b);
      LoadedMerges(bs[..n]);
      var t := Merge(map[], KeptArrivals(bs[..n]));
      DistinctUpsertSucceeds(t, b.kept, b.at);
      UpsertMerges(t, b.kept, b.at);
      MergeAppend(map[], KeptArrivals(bs[..n]), Arrivals(b.kept, b.at));
    }
  }

  lemma KeptIsRaw(b: Batch, e: (string, Content))
    requires SilverBatch(b) && e in Supplied(Arrivals(b.kept, b.at))
    ensures e in Supplied(Arrivals(b.raw, b.at))
  {
    var k := SuppliedFrom(Arrivals(b.kept, b.at), e);
    assert b.kept[k] in b.raw;
    var i :| 0 <= i < |b.raw| && b.raw[i] == b.kept[k];
    SuppliedHas(Arrivals(b.raw, b.at), i);
  }

  lemma RawIsCovered(b: Batch, e: (string, Content))
    requires SilverBatch(b) && e in Supplied(Arrivals(b.raw, b.at))
    ensures AtLeastAsNew(Supplied(Arrivals(b.kept, b.at)), e)
  {
    TextOrderKeepsNewest(b.raw, b.kept);
    var i := SuppliedFrom(Arrivals(b.raw, b.at), e);
    assert Has(b.kept, b.raw[i].id);
    var k :| 0 <= k < |b.kept| && b.kept[k].id == b.raw[i].id;
    SuppliedHas(Arrivals(b.kept, b.at), k);
    var f := Entry(Arrivals(b.kept, b.at)[k]);
    assert f.0 == e.0 && e.1.updated <= f.1.updated;
  }

  /** What one batch keeps represents the whole batch. */
  lemma BatchRepresents(b: Batch)
    requires SilverBatch(b)
    ensures Represents(Supplied(Arrivals(b.kept, b.at)), Supplied(Arrivals(b.raw, b.at)))
  {
    forall e | e in Supplied(Arrivals(b.kept, b.at)) ensures e in Supplied(Arrivals(b.raw, b.at)) {
      KeptIsRaw(b, e);
    }
    forall e | e in Supplied(Arrivals(b.raw, b.at)) ensures AtLeastAsNew(Supplied(Arrivals(b.kept, b.at)), e) {
      RawIsCovered(b, e);
    }
  }

  lemma RepresentsUnion(p0: Supply, w0: Supply, p1: Supply, w1: Supply)
    requires Represents(p0, w0) && Represents(p1, w1)
    ensures Represents(p0 + p1, w0 + w1)
  {
    forall e | e in w0 + w1 ensures AtLeastAsNew(p0 + p1, e) {
      if e in w0 {
        assert AtLeastAsNew(p0, e);
      } else {
        assert AtLeastAsNew(p1, e);
      }
    }
  }

  lemma {:induction false} KeptRepresentsRaw(bs: seq<Batch>)
    requires SilverBatches(bs)
    ensures Represents(Supplied(KeptArrivals(bs)), Supplied(RawArrivals(bs)))
  {
    if |bs| > 0 {
      var n, b := |bs| - 1, bs[|bs| - 1];
      assert SilverBatch(b);
      KeptRepresentsRaw(bs[..n]);
      BatchRepresents(b);
      SuppliedAppend(KeptArrivals(bs[..n]), Arrivals(b.kept, b.at));
      SuppliedAppend(RawArrivals(bs[..n]), Arrivals(b.raw, b.at));
      RepresentsUnion(Supplied(KeptArrivals(bs[..n])), Supplied(RawArrivals(bs[..n])),
                      Supplied(Arrivals(b.kept, b.at)), Supplied(Arrivals(b.raw, b.at)));
    }
  }

  /** End to end: deduplicating every silver batch by text and loading it never fails and loses nothing.
      The warehouse ends with the newest content ever received for every id, exactly as if every raw row
      had been merged. */
  lemma {:induction false} SilverToWarehouse(bs: seq<Batch>)
    requires SilverBatches(bs) && UniqueNewest(Supplied(RawArrivals(bs)))
    ensures Loaded(bs).Some?
    ensures View(Loaded(bs).value) == View(Merge(map[], RawArrivals(bs)))
    ensures HoldsNewest(Merge(map[], RawArrivals(bs)), Supplied(RawArrivals(bs)))
  {
    LoadedMerges(bs);
    KeptRepresentsRaw(bs);
    MergeHoldsNewest(KeptArrivals(bs));
    MergeHoldsNewest(RawArrivals(bs));
    NewestAgree(Loaded(bs).value, Supplied(KeptArrivals(bs)),
                Merge(map[], RawArrivals(bs)), Supplied(RawArrivals(bs)));
  }

  /** Hence two pipelines that received the same contents, cut into windows and batches in any way, with any
      overlaps and any resolution of ties, end with the same table. */
  lemma {:induction false} PipelinesAgree(a: seq<Batch>, b: seq<Batch>)
    requires SilverBatches(a) && SilverBatches(b)
    requires Supplied(RawArrivals(a)) == Supplied(RawArrivals(b)) && UniqueNewest(Supplied(RawArrivals(a)))
    ensures Loaded(a).Some? && Loaded(b).Some? && View(Loaded(a).value) == View(Loaded(b).value)
  {
    SilverToWarehouse(a);
    SilverToWarehouse(b);
    MergeConverges(RawArrivals(a), RawArrivals(b));
  }
}
