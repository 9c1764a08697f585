/**
 Mental models: a row and its vector written in one transaction, so the vector
 table holds a row exactly where the embedding is set, and a row names the
 producer of its vector exactly where it has one.
 */
module MentalModels {
  import opened Common
  import opened Wrappers
  import opened Tables

  datatype Error = Invalid | Storage

  const EMBEDDING_MODEL_ID := "fastembed:intfloat/multilingual-e5-small"

  datatype Model = Model(
    id: string,
    bankId: string,
    name: string,
    sourceQuery: Option<string>,
    content: string,
    maxTokens: Option<int>,
    trigger: Option<string>,
    reflectResponse: Option<string>,
    lastRefreshedAt: Option<int>,
    refreshWatermark: Option<int>,
    embedding: Option<Vector>,
    embeddingModel: Option<string>,
    citedCount: nat,
    lastCitedAt: Option<int>,
    createdAt: int)

  datatype NewModel = NewModel(id: string, bankId: string, name: string, sourceQuery: Option<string>, content: string,
                               maxTokens: Option<int>, trigger: Option<string>)

  function Producer(embedding: Option<Vector>): Option<string> {
    if embedding.Some? then Some(EMBEDDING_MODEL_ID) else None
  }

  /** A model nobody has cited or refreshed yet. */
  function FreshModel(m: NewModel, embedding: Option<Vector>, now: int): Model {
    Model(m.id, m.bankId, m.name, m.sourceQuery, m.content, m.maxTokens, m.trigger, None, None, None,
          embedding, Producer(embedding), 0, None, now)
  }

  /** The fields to overwrite; what is not given is left alone. */
  datatype Patch = Patch(
    name: Option<string>,
    sourceQuery: Option<string>,
    content: Option<string>,
    maxTokens: Option<int>,
    trigger: Option<string>,
    reflectResponse: Option<string>,
    lastRefreshedAt: Option<int>,
    refreshWatermark: Option<int>,
    clearEmbedding: bool,
    clearTrigger: bool)

  function OrElse<T>(given: Option<T>, otherwise: T): T { if given.Some? then given.value else otherwise }

  /** For a column that may be null. */
  function OrKeep<T>(given: Option<T>, kept: Option<T>): Option<T> { if given.Some? then given else kept }

  function Patched(m: Model, patch: Patch, embedding: Option<Vector>): Model {
    var clear := patch.clearEmbedding && embedding.None?;
    Model(
      m.id, m.bankId,
      OrElse(patch.name, m.name),
      OrKeep(patch.sourceQuery, m.sourceQuery),
      OrElse(patch.content, m.content),
      OrKeep(patch.maxTokens, m.maxTokens),
      if patch.clearTrigger then None else OrKeep(patch.trigger, m.trigger),
      OrKeep(patch.reflectResponse, m.reflectResponse),
      OrKeep(patch.lastRefreshedAt, m.lastRefreshedAt),
      OrKeep(patch.refreshWatermark, m.refreshWatermark),
      if clear then None else OrKeep(embedding, m.embedding),
      if clear then None else OrKeep(Producer(embedding), m.embeddingModel),
      m.citedCount, m.lastCitedAt, m.createdAt)
  }

  predicate Encodes(embedding: Option<Vector>) { embedding.Some? ==> |embedding.value| == EMBEDDING_DIM }

  type Rows = map<int, Model>

  /** Row `k` is model `id` of the bank. */
  predicate Is(rows: Rows, bankId: string, id: string, k: int) {
    k in rows && rows[k].bankId == bankId && rows[k].id == id
  }

  predicate Has(rows: Rows, bankId: string, id: string) {
    exists k :: k in rows && Is(rows, bankId, id, k)
  }

  function PatchedRows(rows: Rows, bankId: string, id: string, patch: Patch, embedding: Option<Vector>): Rows {
    map k | k in rows :: if Is(rows, bankId, id, k) then Patched(rows[k], patch, embedding) else rows[k]
  }

  function CitedRows(rows: Rows, bankId: string, id: string, now: int): Rows {
    map k | k in rows ::
      if Is(rows, bankId, id, k) then rows[k].(citedCount := rows[k].citedCount + 1, lastCitedAt := Some(now)) else rows[k]
  }

  function CitedAll(rows: Rows, bankId: string, ids: seq<string>, now: int): Rows {
    if ids == [] then rows else CitedRows(CitedAll(rows, bankId, ids[..|ids| - 1], now), bankId, ids[|ids| - 1], now)
  }

  /** One row per bank and id. */
  ghost predicate KeysUnique(rows: Rows) {
    forall i, j :: i in rows && j in rows && rows[i].id == rows[j].id && rows[i].bankId == rows[j].bankId ==> i == j
  }

  /** The vector table is the set embeddings, no more and no less. */
  ghost predicate InStep(rows: Rows, vectors: map<int, Indexed>) {
    && (forall k :: k in vectors <==> k in rows && rows[k].embedding.Some?)
    && (forall k :: k in vectors ==> vectors[k] == Indexed(rows[k].bankId, rows[k].embedding.value))
  }

  /** A row names a producer exactly when it has a vector. */
  ghost predicate Stamped(rows: Rows) {
    forall k :: k in rows ==> (rows[k].embedding.Some? <==> rows[k].embeddingModel.Some?)
  }

  /** How many of the cited ids name a model of the bank. */
  function Hits(rows: Rows, bankId: string, ids: seq<string>): nat {
    if ids == [] then 0
    else Hits(rows, bankId, ids[..|ids| - 1]) + if Has(rows, bankId, ids[|ids| - 1]) then 1 else 0
  }

  lemma {:induction false} CitingKeepsNames(rows: Rows, bankId: string, ids: seq<string>, now: int, id: string)
    ensures Has(CitedAll(rows, bankId, ids, now), bankId, id) <==> Has(rows, bankId, id)
    decreases |ids|
  {
    if ids == [] {
    } else {
      var before := CitedAll(rows, bankId, ids[..|ids| - 1], now);
      var after := CitedRows(before, bankId, ids[|ids| - 1], now);
      CitingKeepsNames(rows, bankId, ids[..|ids| - 1], now, id);
      assert forall k :: Is(before, bankId, id, k) <==> Is(after, bankId, id, k);
    }
  }

  lemma CitingKeeps(rows: Rows, vectors: map<int, Indexed>, bankId: string, id: string, now: int)
    requires KeysUnique(rows) && InStep(rows, vectors) && Stamped(rows)
    ensures
      var after := CitedRows(rows, bankId, id, now);
      KeysUnique(after) && InStep(after, vectors) && Stamped(after)
  {}

  function VectorsAfter(vectors: map<int, Indexed>, k: int, bankId: string, patch: Patch, embedding: Option<Vector>): map<int, Indexed> {
    if embedding.Some? then vectors[k := Indexed(bankId, embedding.value)]
    else if patch.clearEmbedding then vectors - {k}
    else vectors
  }

  lemma PatchKeeps(rows: Rows, vectors: map<int, Indexed>, bankId: string, id: string, k: int, patch: Patch, embedding: Option<Vector>)
    requires KeysUnique(rows) && InStep(rows, vectors) && Stamped(rows) && Is(rows, bankId, id, k)
    ensures
      var after := PatchedRows(rows, bankId, id, patch, embedding);
      && after == rows[k := Patched(rows[k], patch, embedding)]
      && KeysUnique(after) && InStep(after, VectorsAfter(vectors, k, bankId, patch, embedding)) && Stamped(after)
  {}

  lemma PatchMisses(rows: Rows, bankId: string, id: string, patch: Patch, embedding: Option<Vector>)
    requires !Has(rows, bankId, id)
    ensures PatchedRows(rows, bankId, id, patch, embedding) == rows
  {}

  class Store {
    var banks: set<string>
    var rows: Rows
    var vectors: map<int, Indexed>

    ghost predicate Valid()
      reads this
    {
      KeysUnique(rows) && InStep(rows, vectors) && Stamped(rows)
    }

    constructor (banks: set<string>)
      ensures Valid() && this.banks == banks && rows == map[]
    {
      this.banks, rows, vectors := banks, map[], map[];
    }

    method Locate(bankId: string, id: string) returns (r: Option<int>)
      ensures r.Some? <==> Has(rows, bankId, id)
      ensures r.Some? ==> Is(rows, bankId, id, r.value)
    {
      if k :| k in rows && Is(rows, bankId, id, k) {
        r := Some(k);
      } else {
        r := None;
      }
    }

    /** vec0 has no upsert: a rewrite is a delete and an insert. */
    method WriteVec(k: int, bankId: string, v: Vector)
      modifies this`vectors
      ensures vectors == old(vectors)[k := Indexed(bankId, v)]
    {
      vectors := vectors - {k};
      vectors := vectors[k := Indexed(bankId, v)];
    }

    method Insert(m: NewModel, embedding: Option<Vector>, now: int) returns (r: Result<int, Error>)
      requires Valid()
      modifies this
      ensures Valid() && banks == old(banks)
      ensures r.Err? <==> !Encodes(embedding) || m.bankId !in banks || Has(old(rows), m.bankId, m.id)
      ensures r.Err? ==> rows == old(rows) && vectors == old(vectors)
      ensures r.Ok? ==> r.value !in old(rows) && rows == old(rows)[r.value := FreshModel(m, embedding, now)]
    {
      if !Encodes(embedding) {
        return Err(Invalid);
      }
      var twin := Locate(m.bankId, m.id);
      if m.bankId !in banks || twin.Some? {
        return Err(Storage);
      }
      var k := FreshRowid(rows.Keys);
      rows := rows[k := FreshModel(m, embedding, now)];
      if embedding.Some? {
        WriteVec(k, m.bankId, embedding.value);
      }
      r := Ok(k);
    }

    /** A changed text takes its vector with it, or loses it; either way the
        two tables agree. */
    method Update(bankId: string, id: string, patch: Patch, embedding: Option<Vector>) returns (r: Result<nat, Error>)
      requires Valid()
      modifies this
      ensures Valid() && banks == old(banks)
      ensures r.Err? <==> !Encodes(embedding)
      ensures r.Err? ==> rows == old(rows) && vectors == old(vectors)
      ensures r.Ok? ==> r.value == (if Has(old(rows), bankId, id) then 1 else 0)
      ensures r.Ok? ==> rows == PatchedRows(old(rows), bankId, id, patch, embedding)
      ensures r == Ok(0) ==> rows == old(rows) && vectors == old(vectors)
    {
      hide KeysUnique, InStep, Stamped, Patched, PatchedRows, Has;
      if !Encodes(embedding) {
        return Err(Invalid);
      }
      var clear := patch.clearEmbedding && embedding.None?;
      var found := Locate(bankId, id);
      if found.None? {
        PatchMisses(rows, bankId, id, patch, embedding);
        return Ok(0);
      }
      var k := found.value;
      PatchKeeps(rows, vectors, bankId, id, k, patch, embedding);
      rows := rows[k := Patched(rows[k], patch, embedding)];
      if embedding.Some? {
        WriteVec(k, bankId, embedding.value);
      } else if clear {
        vectors := vectors - {k};
      }
      r := Ok(1);
    }

    method Delete(bankId: string, id: string) returns (deleted: nat)
      requires Valid()
      modifies this
      ensures Valid() && banks == old(banks)
      ensures rows == map k | k in old(rows) && !Is(old(rows), bankId, id, k) :: old(rows)[k]
      ensures deleted == if Has(old(rows), bankId, id) then 1 else 0
    {
      var found := Locate(bankId, id);
      if found.None? {
        return 0;
      }
      rows := rows - {found.value};
      vectors := vectors - {found.value};
      deleted := 1;
    }

    /** Citing bumps counters and touches no vector. */
    method RecordCitations(bankId: string, ids: seq<string>, now: int) returns (n: nat)
      requires Valid()
      modifies this`rows
      ensures Valid()
      ensures rows == CitedAll(old(rows), bankId, ids, now) && n == Hits(old(rows), bankId, ids)
    {
      hide KeysUnique, InStep, Stamped, CitedRows, Has;
      n := 0;
      for i := 0 to |ids|
        invariant Valid()
        invariant rows == CitedAll(old(rows), bankId, ids[..i], now) && n == Hits(old(rows), bankId, ids[..i])
      {
        assert ids[..i + 1][..i] == ids[..i];
        var found := Locate(bankId, ids[i]);
        CitingKeepsNames(old(rows), bankId, ids[..i], now, ids[i]);
        CitingKeeps(rows, vectors, bankId, ids[i], now);
        rows := CitedRows(rows, bankId, ids[i], now);
        if found.Some? {
          n := n + 1;
        }
      }
      assert ids[..|ids|] == ids;
    }
  }
}
