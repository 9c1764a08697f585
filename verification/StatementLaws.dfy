/** What each statement of the store leaves, column by column and row by row. */
module StatementLaws {
  import opened Wrappers
  import opened Tables
  import opened StoreSteps
  import opened Supersession

  /** The same row in every column but those that a statement writes. */
  predicate SameFacts(a: Node, b: Node) {
    a.uuid == b.uuid && a.bankId == b.bankId && a.factType == b.factType && a.expiresAt == b.expiresAt && a.createdAt == b.createdAt
  }

  /** A row that is inserted: what was given, with no vector, source or
      retraction yet, and one timestamp. */
  lemma InsertedRow(t: Tables, id: int, n: NewNode, uuid: string, now: int, k: int)
    requires id !in t.nodes
    ensures
      var after := Inserted(t, id, NodeOf(n, uuid, now));
      && id in after.nodes
      && (var node := after.nodes[id];
         && node.uuid == uuid && node.bankId == n.bankId && node.factType == n.factType && node.text == n.text
         && node.expiresAt == n.expiresAt && node.createdAt == now && node.updatedAt == now
         && node.embedding.None? && node.supersededBy.None? && node.proofCount == 0)
      && (k in t.nodes ==> k in after.nodes && after.nodes[k] == t.nodes[k]) && (k in after.nodes ==> k in t.nodes || k == id)
      && after.vectors == t.vectors && after.sources == t.sources && after.banks == t.banks
  {}

  /** A deletion takes the row, its index row and every link to or from it, and
      leaves the text and the vector of all others. */
  lemma DeletedRows(t: Tables, id: int, k: int, s: int)
    ensures
      var after := Deleted(t, id);
      && (k in after.nodes <==> k in t.nodes && k != id)
      && (id in t.nodes ==> (k in after.vectors <==> k in t.vectors && k != id))
      && (k in after.vectors ==> after.vectors[k] == t.vectors[k])
      && (id in t.nodes ==> ((k, s) in after.sources <==> (k, s) in t.sources && k != id && s != id))
      && (k in after.nodes ==>
            && SameFacts(t.nodes[k], after.nodes[k]) && after.nodes[k].text == t.nodes[k].text
            && after.nodes[k].embedding == t.nodes[k].embedding && after.nodes[k].updatedAt == t.nodes[k].updatedAt
            && after.nodes[k].supersededBy == if t.nodes[k].supersededBy == Some(id) && id in t.nodes then None else t.nodes[k].supersededBy)
  {
    hide SourcesOf;
  }

  /** A new text drops the embedding and touches nothing else, the index row
      included. */
  lemma TextUpdatedRow(t: Tables, id: int, text: string, now: int, k: int)
    ensures
      var after := TextUpdated(t, id, text, now);
      && after.nodes.Keys == t.nodes.Keys && after.vectors == t.vectors && after.sources == t.sources
      && (k in t.nodes && k != id ==> after.nodes[k] == t.nodes[k])
      && (id in t.nodes ==>
            && SameFacts(t.nodes[id], after.nodes[id]) && after.nodes[id].text == text && after.nodes[id].embedding.None?
            && after.nodes[id].updatedAt == now && after.nodes[id].supersededBy == t.nodes[id].supersededBy
            && after.nodes[id].proofCount == t.nodes[id].proofCount)
  {}

  /** A vector goes into the column, where there is a row, and into the index. */
  lemma EmbeddedRows(t: Tables, id: int, bankId: string, v: Vector, now: int, k: int)
    ensures
      var after := Embedded(t, id, bankId, v, now);
      && after.nodes.Keys == t.nodes.Keys && after.sources == t.sources
      && (k in t.nodes && k != id ==> after.nodes[k] == t.nodes[k])
      && (k != id ==> (k in after.vectors <==> k in t.vectors) && (k in t.vectors ==> after.vectors[k] == t.vectors[k]))
      && id in after.vectors && after.vectors[id].bankId == bankId && after.vectors[id].embedding == v
      && (id in t.nodes ==>
            && SameFacts(t.nodes[id], after.nodes[id]) && after.nodes[id].text == t.nodes[id].text
            && after.nodes[id].embedding == Some(v) && after.nodes[id].updatedAt == now)
  {}

  predicate Untouched(t: Tables, after: Tables, id: int) {
    (id in after.vectors <==> id in t.vectors) && (id in t.vectors ==> after.vectors[id] == t.vectors[id])
  }

  predicate Holds(after: Tables, row: EmbeddedRow) {
    && row.id in after.vectors && after.vectors[row.id] == Indexed(row.bankId, row.v)
    && (row.id in after.nodes ==> after.nodes[row.id].embedding == Some(row.v))
  }

  /** Row `i` is the last of the batch for its rowid. */
  predicate LastFor(batch: seq<EmbeddedRow>, i: int) {
    0 <= i < |batch| && forall m :: i < m < |batch| ==> batch[m].id != batch[i].id
  }

  /** In a batch the last vector for a rowid wins, and a rowid that is not in it
      keeps what it has. */
  lemma {:induction false} LastVectorWins(t: Tables, batch: seq<EmbeddedRow>, now: int)
    ensures forall i :: LastFor(batch, i) ==> Holds(EmbeddedAll(t, batch, now), batch[i])
    ensures forall id :: (forall i :: 0 <= i < |batch| ==> batch[i].id != id) ==> Untouched(t, EmbeddedAll(t, batch, now), id)
    decreases |batch|
  {
    if batch == [] {
    } else {
      var n := |batch| - 1;
      var part := batch[..n];
      var before, after := EmbeddedAll(t, part, now), EmbeddedAll(t, batch, now);
      assert after == Embedded(before, batch[n].id, batch[n].bankId, batch[n].v, now);
      LastVectorWins(t, part, now);
      hide EmbeddedAll, Untouched, Holds;
      forall i | LastFor(batch, i) ensures Holds(after, batch[i]) {
        if i < n {
          assert LastFor(part, i) && batch[n].id != batch[i].id;
        }
        OneVector(before, after, batch[n], now, batch[i], i == n);
      }
      forall id | forall i :: 0 <= i < |batch| ==> batch[i].id != id ensures Untouched(t, after, id) {
        assert batch[n].id != id;
        assert forall i :: 0 <= i < n ==> part[i] == batch[i];
        StillUntouched(t, before, after, batch[n], now, id);
      }
    }
  }

  lemma OneVector(before: Tables, after: Tables, last: EmbeddedRow, now: int, row: EmbeddedRow, same: bool)
    requires after == Embedded(before, last.id, last.bankId, last.v, now)
    requires if same then row == last else row.id != last.id && Holds(before, row)
    ensures Holds(after, row)
  {}

  lemma StillUntouched(t: Tables, before: Tables, after: Tables, last: EmbeddedRow, now: int, id: int)
    requires after == Embedded(before, last.id, last.bankId, last.v, now) && last.id != id && Untouched(t, before, id)
    ensures Untouched(t, after, id)
  {}

  // ---------- Retractions ----------

  /** The pair may retract node `k`, as the tables are before the call. */
  predicate Retracts(t: Tables, bankId: string, pair: (int, int), k: int) {
    pair.0 == k && MaySupersede(t, bankId, k, pair.1)
  }

  predicate NoneRetracts(t: Tables, bankId: string, pairs: seq<(int, int)>, k: int) {
    forall i :: 0 <= i < |pairs| ==> !Retracts(t, bankId, pairs[i], k)
  }

  /** What a list of pairs leaves of node `k`: retracted by the first pair that
      may, and untouched if none may. */
  predicate RetractedByFirst(t: Tables, after: Tables, bankId: string, pairs: seq<(int, int)>, now: int, k: int)
    requires k in t.nodes
  {
    && k in after.nodes
    && if NoneRetracts(t, bankId, pairs, k) then after.nodes[k] == t.nodes[k]
       else exists i :: 0 <= i < |pairs| && Retracts(t, bankId, pairs[i], k)
              && (forall m :: 0 <= m < i ==> !Retracts(t, bankId, pairs[m], k))
              && after.nodes[k] == t.nodes[k].(supersededBy := Some(pairs[i].1), updatedAt := now)
  }

  lemma {:induction false} RetractionsExactly(t: Tables, bankId: string, pairs: seq<(int, int)>, now: int)
    ensures
      var after := SupersededAll(t, bankId, pairs, now);
      && after.nodes.Keys == t.nodes.Keys && after.vectors == t.vectors && after.sources == t.sources
      && forall k :: k in t.nodes ==> RetractedByFirst(t, after, bankId, pairs, now, k)
    decreases |pairs|
  {
    if pairs == [] {
    } else {
      var n := |pairs| - 1;
      var before, after := SupersededAll(t, bankId, pairs[..n], now), SupersededAll(t, bankId, pairs, now);
      RetractionsExactly(t, bankId, pairs[..n], now);
      var (x, y) := pairs[n];
      assert after == Superseded(before, bankId, x, y, now);
      hide SupersededAll, RetractedByFirst;
      if x in t.nodes {
        GuardAfter(t, before, bankId, pairs[..n], now, x, y);
      }
      forall k | k in t.nodes ensures RetractedByFirst(t, after, bankId, pairs, now, k) {
        OnePair(t, before, after, bankId, pairs, now, k);
      }
    }
  }

  /** The guard reads what no retraction changes, and whether one came before. */
  lemma GuardAfter(t: Tables, before: Tables, bankId: string, pairs: seq<(int, int)>, now: int, x: int, y: int)
    requires before.nodes.Keys == t.nodes.Keys && x in t.nodes
    requires forall k :: k in t.nodes ==> RetractedByFirst(t, before, bankId, pairs, now, k)
    ensures MaySupersede(before, bankId, x, y) <==>
            MaySupersede(t, bankId, x, y) && NoneRetracts(t, bankId, pairs, x)
  {
    assert RetractedByFirst(t, before, bankId, pairs, now, x);
    if y in t.nodes {
      assert RetractedByFirst(t, before, bankId, pairs, now, y);
    }
  }

  lemma OnePair(t: Tables, before: Tables, after: Tables, bankId: string, pairs: seq<(int, int)>, now: int, k: int)
    requires pairs != [] && k in t.nodes && before.nodes.Keys == t.nodes.Keys
    requires RetractedByFirst(t, before, bankId, pairs[..|pairs| - 1], now, k)
    requires after == Superseded(before, bankId, pairs[|pairs| - 1].0, pairs[|pairs| - 1].1, now)
    requires
      var x, y := pairs[|pairs| - 1].0, pairs[|pairs| - 1].1;
      x in t.nodes ==>
        (MaySupersede(before, bankId, x, y) <==>
         MaySupersede(t, bankId, x, y) && NoneRetracts(t, bankId, pairs[..|pairs| - 1], x))
    ensures RetractedByFirst(t, after, bankId, pairs, now, k)
  {
    var n := |pairs| - 1;
    var part := pairs[..n];
    assert forall i :: 0 <= i < n ==> part[i] == pairs[i];
    var none := forall i :: 0 <= i < n ==> !Retracts(t, bankId, part[i], k);
    if none {
      assert before.nodes[k] == t.nodes[k];
      assert Retracts(t, bankId, pairs[n], k) ==> pairs[n].0 == k;
    } else {
      var i :| 0 <= i < n && Retracts(t, bankId, part[i], k) && (forall m :: 0 <= m < i ==> !Retracts(t, bankId, part[m], k))
               && before.nodes[k] == t.nodes[k].(supersededBy := Some(part[i].1), updatedAt := now);
      assert Retracts(t, bankId, pairs[i], k);
      assert after.nodes[k] == before.nodes[k];
    }
  }

  /** The nodes that some pair of the list may retract. */
  ghost function Retracted(t: Tables, bankId: string, pairs: seq<(int, int)>): set<int> {
    set k | k in t.nodes && exists i :: 0 <= i < |pairs| && Retracts(t, bankId, pairs[i], k)
  }

  /** Every node that is retracted is counted once. */
  lemma {:induction false} RetractionsCounted(t: Tables, bankId: string, pairs: seq<(int, int)>, now: int)
    ensures SupersededCount(t, bankId, pairs, now) == |Retracted(t, bankId, pairs)|
    decreases |pairs|
  {
    if pairs == [] {
      assert Retracted(t, bankId, pairs) == {};
    } else {
      var n := |pairs| - 1;
      var part := pairs[..n];
      var (x, y) := pairs[n];
      RetractionsCounted(t, bankId, part, now);
      RetractionsExactly(t, bankId, part, now);
      var before := SupersededAll(t, bankId, part, now);
      CountGrows(t, bankId, pairs, now);
      hide SupersededAll, SupersededCount, RetractedByFirst, MaySupersede, Retracted;
      GuardNeedsNode(t, before, bankId, x, y);
      if x in t.nodes {
        GuardAfter(t, before, bankId, part, now, x, y);
      }
      RetractedGrows(t, bankId, pairs);
    }
  }

  lemma CountGrows(t: Tables, bankId: string, pairs: seq<(int, int)>, now: int)
    requires pairs != []
    ensures
      var n := |pairs| - 1;
      SupersededCount(t, bankId, pairs, now) == SupersededCount(t, bankId, pairs[..n], now)
        + if MaySupersede(SupersededAll(t, bankId, pairs[..n], now), bankId, pairs[n].0, pairs[n].1) then 1 else 0
  {
    hide MaySupersede, SupersededAll;
  }

  /** The last pair adds its node, unless an earlier one did. */
  lemma RetractedGrows(t: Tables, bankId: string, pairs: seq<(int, int)>)
    requires pairs != []
    ensures
      var n := |pairs| - 1;
      var x := pairs[n].0;
      |Retracted(t, bankId, pairs)| == |Retracted(t, bankId, pairs[..n])|
        + if x in t.nodes && MaySupersede(t, bankId, x, pairs[n].1) && NoneRetracts(t, bankId, pairs[..n], x) then 1 else 0
  {
    var n := |pairs| - 1;
    var part, x := pairs[..n], pairs[n].0;
    var was, all := Retracted(t, bankId, part), Retracted(t, bankId, pairs);
    forall k ensures k in all <==> k in was || (k == x && k in t.nodes && Retracts(t, bankId, pairs[n], k)) {
      RetractedIn(t, bankId, pairs, k);
    }
    hide MaySupersede, Retracted;
    RetractedIs(t, bankId, part, x);
    assert all == if x in t.nodes && MaySupersede(t, bankId, x, pairs[n].1) then was + {x} else was;
  }

  lemma RetractedIs(t: Tables, bankId: string, pairs: seq<(int, int)>, k: int)
    ensures k in Retracted(t, bankId, pairs) <==> k in t.nodes && !NoneRetracts(t, bankId, pairs, k)
  {
    hide MaySupersede;
  }

  lemma RetractedIn(t: Tables, bankId: string, pairs: seq<(int, int)>, k: int)
    requires pairs != []
    ensures
      var n := |pairs| - 1;
      k in Retracted(t, bankId, pairs) <==>
      k in Retracted(t, bankId, pairs[..n]) || (k in t.nodes && Retracts(t, bankId, pairs[n], k))
  {
    hide MaySupersede, Retracted, Retracts;
    var n := |pairs| - 1;
    var part := pairs[..n];
    RetractedIs(t, bankId, pairs, k);
    RetractedIs(t, bankId, part, k);
    assert forall i :: 0 <= i < n ==> part[i] == pairs[i];
    if i :| 0 <= i < n && Retracts(t, bankId, part[i], k) {
      assert Retracts(t, bankId, pairs[i], k);
    }
    if i :| 0 <= i < |pairs| && Retracts(t, bankId, pairs[i], k) {
      assert i < n ==> Retracts(t, bankId, part[i], k);
    }
  }

  lemma GuardNeedsNode(t: Tables, before: Tables, bankId: string, x: int, y: int)
    requires before.nodes.Keys == t.nodes.Keys
    ensures MaySupersede(before, bankId, x, y) || MaySupersede(t, bankId, x, y) ==> x in t.nodes
  {}

  /** Taking one retraction back. */
  lemma UnretractedRow(t: Tables, bankId: string, id: int, now: int, k: int)
    ensures
      var after := Unsuperseded(t, bankId, id, now);
      && after.nodes.Keys == t.nodes.Keys && after.vectors == t.vectors && after.sources == t.sources
      && (k in t.nodes && k != id ==> after.nodes[k] == t.nodes[k])
      && (id in t.nodes ==>
            if t.nodes[id].bankId == bankId && t.nodes[id].supersededBy.Some? then
              && SameFacts(t.nodes[id], after.nodes[id]) && after.nodes[id].supersededBy.None? && after.nodes[id].text == t.nodes[id].text
              && after.nodes[id].embedding == t.nodes[id].embedding && after.nodes[id].updatedAt == now
            else after.nodes[id] == t.nodes[id])
  {}

  // ---------- Reading ----------

  /** Recall is served exactly the asked-for rows of the bank that nothing
      supersedes and that have not expired by now, as they stand. */
  lemma ServedExactly(t: Tables, bankId: string, ids: seq<int>, now: int, id: int)
    ensures
      var rows := Hydrated(t, bankId, ids, now);
      && (id in rows <==>
            && id in ids && id in t.nodes && t.nodes[id].bankId == bankId && t.nodes[id].supersededBy.None?
            && (t.nodes[id].expiresAt.Some? ==> now < t.nodes[id].expiresAt.value))
      && (id in rows ==> rows[id] == t.nodes[id])
  {}
}
