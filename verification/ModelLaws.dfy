/** What patching and citing do to a mental model, column by column. */
module ModelLaws {
  import opened Wrappers
  import opened Tables
  import opened MentalModels

  const NoPatch := Patch(None, None, None, None, None, None, None, None, false, false)

  /** A new model is what was given, with nothing refreshed or cited. */
  lemma FreshColumns(m: NewModel, embedding: Option<Vector>, now: int)
    ensures
      var after := FreshModel(m, embedding, now);
      && after.id == m.id && after.bankId == m.bankId && after.name == m.name && after.sourceQuery == m.sourceQuery
      && after.content == m.content && after.maxTokens == m.maxTokens && after.trigger == m.trigger
      && after.reflectResponse.None? && after.lastRefreshedAt.None? && after.refreshWatermark.None?
      && after.embedding == embedding && after.citedCount == 0 && after.lastCitedAt.None? && after.createdAt == now
      && after.embeddingModel == if embedding.Some? then Some("fastembed:intfloat/multilingual-e5-small") else None
  {}

  /** A patched model: every column that was given has the new value, every other
      one its old; a trigger can be cleared and a vector too, unless there is a
      new one. */
  lemma PatchedColumns(m: Model, p: Patch, e: Option<Vector>)
    ensures
      var after := Patched(m, p, e);
      && after.id == m.id && after.bankId == m.bankId && after.createdAt == m.createdAt
      && after.citedCount == m.citedCount && after.lastCitedAt == m.lastCitedAt
      && (if p.name.Some? then Some(after.name) == p.name else after.name == m.name)
      && (if p.content.Some? then Some(after.content) == p.content else after.content == m.content)
      && after.sourceQuery == (if p.sourceQuery.Some? then p.sourceQuery else m.sourceQuery)
      && after.maxTokens == (if p.maxTokens.Some? then p.maxTokens else m.maxTokens)
      && after.trigger == (if p.clearTrigger then None else if p.trigger.Some? then p.trigger else m.trigger)
      && after.reflectResponse == (if p.reflectResponse.Some? then p.reflectResponse else m.reflectResponse)
      && after.lastRefreshedAt == (if p.lastRefreshedAt.Some? then p.lastRefreshedAt else m.lastRefreshedAt)
      && after.refreshWatermark == (if p.refreshWatermark.Some? then p.refreshWatermark else m.refreshWatermark)
      && (if e.Some? then after.embedding == e && after.embeddingModel == Some("fastembed:intfloat/multilingual-e5-small")
          else if p.clearEmbedding then after.embedding.None? && after.embeddingModel.None?
          else after.embedding == m.embedding && after.embeddingModel == m.embeddingModel)
  {}

  /** An empty patch changes nothing, and a patch applied twice is applied once. */
  lemma PatchOnce(m: Model, p: Patch, e: Option<Vector>)
    ensures Patched(m, NoPatch, None) == m
    ensures Patched(Patched(m, p, e), p, e) == Patched(m, p, e)
  {}

  /** Citing a list raises a model's counter by as often as the list names it and
      sets its date if it does; nothing else changes. */
  lemma {:induction false} CitedColumns(rows: Rows, bankId: string, ids: seq<string>, now: int, k: int)
    requires k in rows
    ensures
      var after := CitedAll(rows, bankId, ids, now);
      var times := if rows[k].bankId == bankId then multiset(ids)[rows[k].id] else 0;
      && after.Keys == rows.Keys
      && after[k] == rows[k].(citedCount := rows[k].citedCount + times,
                              lastCitedAt := if times > 0 then Some(now) else rows[k].lastCitedAt)
    decreases |ids|
  {
    if ids == [] {
    } else {
      CitedColumns(rows, bankId, ids[..|ids| - 1], now, k);
      CitedOnce(CitedAll(rows, bankId, ids[..|ids| - 1], now), bankId, ids[|ids| - 1], now, k);
      hide CitedRows;
      assert ids == ids[..|ids| - 1] + [ids[|ids| - 1]];
    }
  }

  lemma CitedOnce(rows: Rows, bankId: string, id: string, now: int, k: int)
    requires k in rows
    ensures
      var after := CitedRows(rows, bankId, id, now);
      && after.Keys == rows.Keys
      && after[k] == if rows[k].bankId == bankId && rows[k].id == id
                     then rows[k].(citedCount := rows[k].citedCount + 1, lastCitedAt := Some(now)) else rows[k]
  {}

  /** The places of a list that name a model of the bank. */
  function Named(rows: Rows, bankId: string, ids: seq<string>): set<nat> {
    set i: nat | i < |ids| && Has(rows, bankId, ids[i])
  }

  /** The answer counts those places, repeats included. */
  lemma {:induction false} HitsCounted(rows: Rows, bankId: string, ids: seq<string>)
    ensures Hits(rows, bankId, ids) == |Named(rows, bankId, ids)|
    decreases |ids|
  {
    hide Has;
    if ids == [] {
    } else {
      var n := |ids| - 1;
      HitsCounted(rows, bankId, ids[..n]);
      var was := Named(rows, bankId, ids[..n]);
      assert Named(rows, bankId, ids) == if Has(rows, bankId, ids[n]) then was + {n} else was;
    }
  }
}
