/**
 Deduplication of one silver batch: the query form, which numbers the rows of an id by their `updated`
 text, and the loop form, which keeps a dictionary. Both keep the newest row of every id.
 */
module Dedup {
  import opened Options
  import opened IsoTime
  import opened Events

  predicate Has(rows: seq<Row>, id: string) {
    exists i :: 0 <= i < |rows| && rows[i].id == id
  }

  predicate DistinctIds(rows: seq<Row>) {
    forall i, j :: 0 <= i < j < |rows| ==> rows[i].id != rows[j].id
  }

  /** One row of the input for every id of the input. */
  predicate OnePerId(rows: seq<Row>, out: seq<Row>) {
    && DistinctIds(out)
    && (forall k :: 0 <= k < |out| ==> out[k] in rows)
    && (forall i :: 0 <= i < |rows| ==> Has(out, rows[i].id))
  }

  /** A possible answer of the query: row_number() OVER (PARTITION BY id ORDER BY updated DESC) = 1, with
      `updated` compared as text. Ties and the order of the answer are up to the database. */
  predicate RowNumberOne(rows: seq<Row>, out: seq<Row>) {
    && OnePerId(rows, out)
    && forall k, i :: 0 <= k < |out| && 0 <= i < |rows| && rows[i].id == out[k].id ==>
         !LexLess(Iso(out[k].updated), Iso(rows[i].updated))
  }

  /** The newest row of every id, with `updated` compared as a time. */
  predicate NewestPerId(rows: seq<Row>, out: seq<Row>)
    requires ValidRows(rows)
  {
    && OnePerId(rows, out)
    && forall k, i :: 0 <= k < |out| && 0 <= i < |rows| && rows[i].id == out[k].id ==>
         ValidRow(out[k]) && Instant(rows[i].updated) <= Instant(out[k].updated)
  }

  /** The query compares text and still keeps exactly what a comparison of times would keep. */
  lemma {:induction false} TextOrderKeepsNewest(rows: seq<Row>, out: seq<Row>)
    requires ValidRows(rows)
    ensures RowNumberOne(rows, out) <==> NewestPerId(rows, out)
  {
    if OnePerId(rows, out) {
      forall k, i | 0 <= k < |out| && 0 <= i < |rows| && rows[i].id == out[k].id
        ensures ValidRow(out[k])
        ensures !LexLess(Iso(out[k].updated), Iso(rows[i].updated))
           <==> Instant(rows[i].updated) <= Instant(out[k].updated)
      {
        var j :| 0 <= j < |rows| && rows[j] == out[k];
        assert ValidRow(rows[j]) && ValidRow(rows[i]);
        IsoOrderIsInstantOrder(out[k].updated, rows[i].updated);
      }
    }
  }

  // ----- the loop -----

  /** The dictionary entry of an id after the rows have been seen. */
  function Best(rows: seq<Row>, id: string): Option<Row>
    requires ValidRows(rows)
    ensures Best(rows, id).Some? ==> ValidRow(Best(rows, id).value)
  {
    if |rows| == 0 then None
    else
      var before, r := Best(rows[..|rows| - 1], id), rows[|rows| - 1];
      if r.id == id && (before.None? || Instant(before.value.updated) < Instant(r.updated)) then Some(r) else before
  }

  /** The keys of the dictionary, in insertion order: replacing a value keeps the key's position. */
  function FirstSeen(rows: seq<Row>): seq<string> {
    if |rows| == 0 then []
    else
      var before, id := FirstSeen(rows[..|rows| - 1]), rows[|rows| - 1].id;
      if id in before then before else before + [id]
  }

  lemma {:induction false} SeenIds(rows: seq<Row>, id: string)
    ensures id in FirstSeen(rows) <==> Has(rows, id)
  {
    if |rows| > 0 {
      var n := |rows| - 1;
      SeenIds(rows[..n], id);
      if Has(rows, id) && rows[n].id != id {
        var i :| 0 <= i < |rows| && rows[i].id == id;
        assert rows[..n][i].id == id;
      }
      if Has(rows[..n], id) {
        var i :| 0 <= i < n && rows[..n][i].id == id;
        assert rows[i].id == id;
      }
      assert rows[n].id == id ==> Has(rows, id);
    }
  }

  lemma {:induction false} SeenOnce(rows: seq<Row>)
    ensures forall i, j :: 0 <= i < j < |FirstSeen(rows)| ==> FirstSeen(rows)[i] != FirstSeen(rows)[j]
  {
    if |rows| > 0 {
      SeenOnce(rows[..|rows| - 1]);
    }
  }

  /** Row i is the first one of its id that carries the greatest `updated` of that id. */
  predicate FirstNewest(rows: seq<Row>, id: string, i: nat)
    requires ValidRows(rows)
  {
    && i < |rows| && rows[i].id == id
    && (forall j :: 0 <= j < |rows| && rows[j].id == id ==> Instant(rows[j].updated) <= Instant(rows[i].updated))
    && (forall j :: 0 <= j < i && rows[j].id == id ==> Instant(rows[j].updated) < Instant(rows[i].updated))
  }

  lemma NewerRowWins(rows: seq<Row>, id: string, i: nat)
    requires ValidRows(rows) && |rows| > 0 && FirstNewest(rows[..|rows| - 1], id, i) && rows[|rows| - 1].id == id
    requires Instant(rows[i].updated) < Instant(rows[|rows| - 1].updated)
    ensures FirstNewest(rows, id, |rows| - 1)
  {
    assert forall j :: 0 <= j < |rows| - 1 ==> rows[..|rows| - 1][j] == rows[j];
  }

  lemma OtherRowLoses(rows: seq<Row>, id: string, i: nat)
    requires ValidRows(rows) && |rows| > 0 && FirstNewest(rows[..|rows| - 1], id, i)
    requires rows[|rows| - 1].id == id ==> Instant(rows[|rows| - 1].updated) <= Instant(rows[i].updated)
    ensures FirstNewest(rows, id, i)
  {
    assert forall j :: 0 <= j < |rows| - 1 ==> rows[..|rows| - 1][j] == rows[j];
  }

  lemma {:induction false} NoRowNoBest(rows: seq<Row>, id: string)
    requires ValidRows(rows) && !Has(rows, id)
    ensures Best(rows, id).None?
  {
    if |rows| > 0 {
      var n := |rows| - 1;
      assert forall j :: 0 <= j < n ==> rows[..n][j] == rows[j];
      assert rows[n].id != id;
      NoRowNoBest(rows[..n], id);
    }
  }

  /** The entry kept for an id is its first row among those with the greatest `updated`. */
  lemma {:induction false} BestIsFirstNewest(rows: seq<Row>, id: string) returns (i: nat)
    requires ValidRows(rows) && Has(rows, id)
    ensures FirstNewest(rows, id, i) && Best(rows, id) == Some(rows[i])
  {
    var n := |rows| - 1;
    var before := rows[..n];
    if Has(before, id) {
      i := BestIsFirstNewest(before, id);
      if rows[n].id == id && Instant(rows[i].updated) < Instant(rows[n].updated) {
        NewerRowWins(rows, id, i);
        i := n;
      } else {
        OtherRowLoses(rows, id, i);
      }
    } else {
      NoRowNoBest(before, id);
      assert forall j :: 0 <= j < n ==> before[j] == rows[j];
      i := n;
    }
  }

  /** list(by_id.values()) */
  method ClearDuplicates(rows: seq<Row>) returns (out: seq<Row>)
    requires ValidRows(rows)
    ensures |out| == |FirstSeen(rows)|
    ensures forall k :: 0 <= k < |out| ==> Some(out[k]) == Best(rows, FirstSeen(rows)[k])
  {
    var byId: map<string, Row> := map[];
    var order: seq<string> := [];
    for i := 0 to |rows|
      invariant order == FirstSeen(rows[..i])
      invariant forall id :: id in order <==> id in byId
      invariant forall id :: Best(rows[..i], id) == if id in byId then Some(byId[id]) else None
    {
      var row := rows[i];
      assert rows[..i + 1][..i] == rows[..i] && rows[..i + 1][i] == row;
      if row.id !in byId || Instant(byId[row.id].updated) < Instant(row.updated) {
        if row.id !in byId {
          order := order + [row.id];
        }
        byId := byId[row.id := row];
      }
    }
    assert rows[..|rows|] == rows;
    out := [];
    for k := 0 to |order|
      invariant |out| == k
      invariant forall m :: 0 <= m < k ==> order[m] in byId && out[m] == byId[order[m]]
    {
      assert order[k] in order;
      out := out + [byId[order[k]]];
    }
  }

  /** The loop refines the query, resolves its ties to the first row, and answers in order of first
      appearance; so one statement never meets an id twice. */
  lemma {:induction false} LoopRefinesQuery(rows: seq<Row>, out: seq<Row>)
    requires ValidRows(rows) && |out| == |FirstSeen(rows)|
    requires forall k :: 0 <= k < |out| ==> Some(out[k]) == Best(rows, FirstSeen(rows)[k])
    ensures RowNumberOne(rows, out) && DistinctIds(out)
    ensures forall k :: 0 <= k < |out| ==> out[k].id == FirstSeen(rows)[k]
  {
    forall k | 0 <= k < |out|
      ensures out[k].id == FirstSeen(rows)[k] && out[k] in rows
      ensures forall i :: 0 <= i < |rows| && rows[i].id == out[k].id ==>
                ValidRow(out[k]) && Instant(rows[i].updated) <= Instant(out[k].updated)
    {
      SeenIds(rows, FirstSeen(rows)[k]);
      var i := BestIsFirstNewest(rows, FirstSeen(rows)[k]);
    }
    SeenOnce(rows);
    forall i | 0 <= i < |rows| ensures Has(out, rows[i].id) {
      SeenIds(rows, rows[i].id);
      var k :| 0 <= k < |FirstSeen(rows)| && FirstSeen(rows)[k] == rows[i].id;
      assert out[k].id == rows[i].id;
    }
    assert NewestPerId(rows, out);
    TextOrderKeepsNewest(rows, out);
  }

  /** The first row of the id is row i. */
  predicate FirstOf(rows: seq<Row>, id: string, i: nat) {
    i < |rows| && rows[i].id == id && forall j :: 0 <= j < i ==> rows[j].id != id
  }

  lemma {:induction false} FirstRowOf(rows: seq<Row>, id: string) returns (i: nat)
    requires Has(rows, id)
    ensures FirstOf(rows, id, i)
  {
    var n := |rows| - 1;
    if Has(rows[..n], id) {
      i := FirstRowOf(rows[..n], id);
      assert forall j :: 0 <= j < n ==> rows[..n][j] == rows[j];
    } else {
      i := n;
      forall j | 0 <= j < n ensures rows[j].id != id {
        assert rows[..n][j] == rows[j];
      }
    }
  }

  lemma {:induction false} SeenInOrder(rows: seq<Row>, k: nat, l: nat) returns (i: nat)
    requires k < l < |FirstSeen(rows)|
    ensures FirstOf(rows, FirstSeen(rows)[k], i)
    ensures forall j :: 0 <= j <= i ==> rows[j].id != FirstSeen(rows)[l]
  {
    var n := |rows| - 1;
    var before := rows[..n];
    assert forall j :: 0 <= j < n ==> before[j] == rows[j];
    if l < |FirstSeen(before)| {
      i := SeenInOrder(before, k, l);
    } else {
      SeenIds(before, FirstSeen(before)[k]);
      SeenIds(before, rows[n].id);
      i := FirstRowOf(before, FirstSeen(before)[k]);
      forall j | 0 <= j < n ensures rows[j].id != rows[n].id {
        assert before[j] == rows[j];
      }
    }
  }

  lemma FirstOfUnique(rows: seq<Row>, id: string, i: nat, j: nat)
    requires FirstOf(rows, id, i) && FirstOf(rows, id, j)
    ensures i == j
  {
  }

  lemma SeenComesFirst(rows: seq<Row>, k: nat, l: nat, i: nat, j: nat)
    requires k < l < |FirstSeen(rows)|
    requires FirstOf(rows, FirstSeen(rows)[k], i) && FirstOf(rows, FirstSeen(rows)[l], j)
    ensures i < j
  {
    var f := SeenInOrder(rows, k, l);
    FirstOfUnique(rows, FirstSeen(rows)[k], i, f);
  }

  lemma LoopIds(rows: seq<Row>, out: seq<Row>, k: nat)
    requires ValidRows(rows) && k < |out| == |FirstSeen(rows)|
    requires forall m :: 0 <= m < |out| ==> Some(out[m]) == Best(rows, FirstSeen(rows)[m])
    ensures out[k].id == FirstSeen(rows)[k]
  {
    LoopRefinesQuery(rows, out);
  }

  /** The loop answers in order of first appearance: of two ids, the one that comes first in the input comes first
      in the result. */
  lemma {:induction false} LoopKeepsOrder(rows: seq<Row>, out: seq<Row>, k: nat, l: nat, i: nat, j: nat)
    requires ValidRows(rows) && |out| == |FirstSeen(rows)|
    requires forall m :: 0 <= m < |out| ==> Some(out[m]) == Best(rows, FirstSeen(rows)[m])
    requires k < |out| && l < |out| && FirstOf(rows, out[k].id, i) && FirstOf(rows, out[l].id, j)
    ensures k < l <==> i < j
  {
    LoopIds(rows, out, k);
    LoopIds(rows, out, l);
    if k < l {
      SeenComesFirst(rows, k, l, i, j);
    } else if l < k {
      SeenComesFirst(rows, l, k, j, i);
    }
  }
}
