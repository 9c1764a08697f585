/** Batches of statements, and the rowid and rollback facts the store needs. */
module StoreSteps {
  import opened Common
  import opened Wrappers
  import opened Tables
  import opened Consolidation

  /** What an insert is given; a node starts without embedding, sources or
      retraction. */
  datatype NewNode = NewNode(bankId: string, factType: FactType, text: string, expiresAt: Option<int>)

  datatype EmbeddedRow = EmbeddedRow(id: int, bankId: string, v: Vector)

  /** What a plan did. */
  datatype Applied = Applied(created: seq<int>, updated: seq<(int, string)>, deleted: nat)

  function NodeOf(n: NewNode, uuid: string, now: int): Node {
    Node(uuid, n.bankId, n.factType, n.text, None, 0, None, n.expiresAt, now, now)
  }

  lemma RowidUnique(nodes: map<int, Node>, a: int, b: int)
    requires NextRowid(nodes, a) && NextRowid(nodes, b)
    ensures a == b
  {}

  function EmbeddedAll(t: Tables, batch: seq<EmbeddedRow>, now: int): Tables {
    if batch == [] then t
    else
      var row := batch[|batch| - 1];
      Embedded(EmbeddedAll(t, batch[..|batch| - 1], now), row.id, row.bankId, row.v, now)
  }

  lemma EmbeddedKeepsRest(t: Tables, id: int, bankId: string, v: Vector, now: int)
    ensures var after := Embedded(t, id, bankId, v, now);
            after.banks == t.banks && after.sources == t.sources
  {}

  function SupersededCount(t: Tables, bankId: string, pairs: seq<(int, int)>, now: int): nat {
    if pairs == [] then 0
    else
      var (retracted, replacement) := pairs[|pairs| - 1];
      SupersededCount(t, bankId, pairs[..|pairs| - 1], now)
      + if MaySupersede(SupersededAll(t, bankId, pairs[..|pairs| - 1], now), bankId, retracted, replacement) then 1 else 0
  }

  /** The recount finds the survivor unless it was told to drop it. */
  lemma MergeLeavesKeep(t: Tables, keep: int, drop: int, text: string, now: int)
    requires keep in t.nodes && drop in t.nodes
    ensures
      var united := Union(t, keep, drop);
      var written := if t.nodes[keep].text != text then TextUpdated(united, keep, text, now) else united;
      && keep in Deleted(written, drop).nodes <==> keep != drop
  {}

  /** A failed create fails the batch it is in. */
  lemma {:induction false} CreateErrorStays(t: Tables, bankId: string, creates: seq<NewObservation>, uuids: seq<string>, now: int,
                                            k: nat)
    requires |uuids| == |creates| && k <= |creates|
    requires CreateAll(t, bankId, creates[..k], uuids[..k], now).Err?
    ensures CreateAll(t, bankId, creates, uuids, now) == CreateAll(t, bankId, creates[..k], uuids[..k], now)
    decreases |creates|
  {
    hide Create;
    if k == |creates| {
      assert creates[..k] == creates && uuids[..k] == uuids;
    } else {
      var n := |creates| - 1;
      assert creates[..n][..k] == creates[..k] && uuids[..n][..k] == uuids[..k];
      CreateErrorStays(t, bankId, creates[..n], uuids[..n], now, k);
    }
  }

  // ---------- What a plan reports ----------

  /** The rowids that the first creates got. */
  ghost predicate CreatedRowids(ids: seq<int>, t: Tables, bankId: string, creates: seq<NewObservation>, uuids: seq<string>, now: int)
    requires |uuids| == |creates|
  {
    && |ids| == |creates|
    && forall k :: 0 <= k < |ids| ==>
         && CreateAll(t, bankId, creates[..k], uuids[..k], now).Ok?
         && ids[k] == NewRowid(CreateAll(t, bankId, creates[..k], uuids[..k], now).value.nodes)
  }

  /** The updates that found their target, with the rowid it had. */
  ghost function UpdatesDone(t: Tables, bankId: string, updates: seq<ObservationUpdate>, now: int): seq<(int, string)> {
    if updates == [] then []
    else
      var n := |updates| - 1;
      var found := Find(UpdateAll(t, bankId, updates[..n], now), bankId, updates[n].uuid);
      UpdatesDone(t, bankId, updates[..n], now) + if found.Some? then [(found.value, updates[n].uuid)] else []
  }

  /** The deletes that found their target. */
  ghost function DeletesDone(t: Tables, bankId: string, deletes: seq<string>): nat {
    if deletes == [] then 0
    else
      var n := |deletes| - 1;
      DeletesDone(t, bankId, deletes[..n]) + if Find(DeleteAll(t, bankId, deletes[..n]), bankId, deletes[n]).Some? then 1 else 0
  }

  // ---------- A batch of nodes ----------

  ghost function InsertOne(t: Tables, n: NewNode, uuid: string, now: int): Result<Tables, Error> {
    if n.bankId !in t.banks || UuidTaken(t, uuid) then Err(Storage)
    else Ok(Inserted(t, NewRowid(t.nodes), NodeOf(n, uuid, now)))
  }

  ghost function InsertAll(t: Tables, batch: seq<NewNode>, uuids: seq<string>, now: int): Result<Tables, Error>
    requires |uuids| == |batch|
  {
    if batch == [] then Ok(t)
    else
      var k := |batch| - 1;
      match InsertAll(t, batch[..k], uuids[..k], now)
      case Err(e) => Err(e)
      case Ok(u) => InsertOne(u, batch[k], uuids[k], now)
  }

  lemma {:induction false} InsertErrorStays(t: Tables, batch: seq<NewNode>, uuids: seq<string>, now: int, k: nat)
    requires |uuids| == |batch| && k <= |batch| && InsertAll(t, batch[..k], uuids[..k], now).Err?
    ensures InsertAll(t, batch, uuids, now) == InsertAll(t, batch[..k], uuids[..k], now)
    decreases |batch|
  {
    hide InsertOne;
    if k == |batch| {
      assert batch[..k] == batch && uuids[..k] == uuids;
    } else {
      var n := |batch| - 1;
      assert batch[..n][..k] == batch[..k] && uuids[..n][..k] == uuids[..k];
      InsertErrorStays(t, batch[..n], uuids[..n], now, k);
    }
  }

  lemma InsertOneKeeps(t: Tables, n: NewNode, uuid: string, now: int)
    requires Valid(t) && InsertOne(t, n, uuid, now).Ok?
    ensures Valid(InsertOne(t, n, uuid, now).value)
  {
    hide Valid, NextRowid;
    InsertKeeps(t, NewRowid(t.nodes), NodeOf(n, uuid, now));
  }

  /** A batch gets consecutive rowids, in its order, and one timestamp. */
  lemma {:induction false} BatchRowids(t: Tables, batch: seq<NewNode>, uuids: seq<string>, now: int, k: nat)
    requires |uuids| == |batch| && InsertAll(t, batch, uuids, now).Ok? && k < |batch|
    ensures
      var after := InsertAll(t, batch, uuids, now).value;
      var id := NewRowid(t.nodes) + k;
      && id in after.nodes && after.nodes[id] == NodeOf(batch[k], uuids[k], now)
    ensures NewRowid(InsertAll(t, batch, uuids, now).value.nodes) == NewRowid(t.nodes) + |batch|
    decreases |batch|
  {
    hide NextRowid;
    var n := |batch| - 1;
    var before := InsertAll(t, batch[..n], uuids[..n], now).value;
    if n == 0 {
    } else {
      BatchRowids(t, batch[..n], uuids[..n], now, if k < n then k else n - 1);
    }
    RowidAfterInsert(before, batch[n], uuids[n], now);
  }

  lemma RowidAfterInsert(t: Tables, n: NewNode, uuid: string, now: int)
    ensures NewRowid(Inserted(t, NewRowid(t.nodes), NodeOf(n, uuid, now)).nodes) == NewRowid(t.nodes) + 1
  {
    var id := NewRowid(t.nodes);
    var after := Inserted(t, id, NodeOf(n, uuid, now)).nodes;
    assert id in after;
    RowidUnique(after, id + 1, NewRowid(after));
  }

  // ---------- Rebuilding the vector index ----------

  const REBUILD_CHUNK := 500

  predicate InScope(bank: Option<string>, bankId: string) { bank.None? || bank.value == bankId }

  /** The index rows that the embeddings of the scope call for. */
  function Called(t: Tables, bank: Option<string>): map<int, Indexed> {
    map id | id in t.nodes && InScope(bank, t.nodes[id].bankId) && t.nodes[id].embedding.Some? ::
      Indexed(t.nodes[id].bankId, t.nodes[id].embedding.value)
  }

  function Cleared(vectors: map<int, Indexed>, bank: Option<string>): map<int, Indexed> {
    map id | id in vectors && !InScope(bank, vectors[id].bankId) :: vectors[id]
  }

  /** An index row in another bank's partition sits where one is called for. */
  ghost predicate Clash(t: Tables, bank: Option<string>, id: int) {
    id in Called(t, bank) && id in Cleared(t.vectors, bank)
  }

  function Rebuilt(t: Tables, bank: Option<string>): Tables {
    t.(vectors := Cleared(t.vectors, bank) + Called(t, bank))
  }

  /** An unscoped rebuild leaves exactly the embeddings, each in its bank's
      partition, whatever the index held; orphans go. */
  lemma RebuildIsExact(t: Tables)
    ensures var after := Rebuilt(t, None);
            && (forall id :: id in after.vectors <==> id in t.nodes && t.nodes[id].embedding.Some?)
            && (forall id :: id in after.vectors ==>
                  after.vectors[id] == Indexed(t.nodes[id].bankId, t.nodes[id].embedding.value))
            && EmbeddingsIndexed(after)
  {}

  /** Each embedding is indexed under its own bank. */
  ghost predicate BanksAligned(t: Tables) {
    forall id :: id in t.nodes && t.nodes[id].embedding.Some? && id in t.vectors ==> t.vectors[id].bankId == t.nodes[id].bankId
  }

  /** An embedded node of another bank whose vector stands under the scope. */
  ghost predicate Strayed(t: Tables, bank: Option<string>, id: int) {
    && id in t.nodes && t.nodes[id].embedding.Some? && !InScope(bank, t.nodes[id].bankId)
    && id in t.vectors && InScope(bank, t.vectors[id].bankId)
  }

  /** A rebuild of a scope keeps every embedding indexed exactly when no other
      bank's vector has strayed into it. With the banks aligned none has, and
      they stay aligned; setting a vector keeps them aligned exactly when it
      names the bank of the node that has the rowid by then. */
  lemma ScopedRebuildKeeps(t: Tables, bank: Option<string>, id: int, bankId: string, v: Vector, now: int)
    requires EmbeddingsIndexed(t)
    ensures EmbeddingsIndexed(Rebuilt(t, bank)) <==> forall k :: !Strayed(t, bank, k)
    ensures BanksAligned(t) ==> (forall k :: !Strayed(t, bank, k)) && BanksAligned(Rebuilt(t, bank))
    ensures BanksAligned(t) ==>
      (BanksAligned(Embedded(t, id, bankId, v, now)) <==> (id in t.nodes ==> t.nodes[id].bankId == bankId))
  {
    var after := Rebuilt(t, bank);
    if EmbeddingsIndexed(after) {
      forall k ensures !Strayed(t, bank, k) {
        assert k in after.vectors ==> !Strayed(t, bank, k);
      }
    }
    if forall k :: !Strayed(t, bank, k) {
      forall k | k in t.nodes && t.nodes[k].embedding.Some?
        ensures k in after.vectors && after.vectors[k].embedding == t.nodes[k].embedding.value
      {
        assert !Strayed(t, bank, k);
      }
    }
    if id in t.nodes {
      assert Embedded(t, id, bankId, v, now).nodes[id].embedding.Some?;
    }
  }

  ghost predicate Enumerates(rows: seq<int>, m: map<int, Indexed>) {
    && (forall k :: 0 <= k < |rows| ==> rows[k] in m)
    && (forall id :: id in m ==> id in rows)
    && (forall i, j :: 0 <= i < j < |rows| ==> rows[i] != rows[j])
  }

  /** The keys of a map, each once. */
  method Rows(m: map<int, Indexed>) returns (rows: seq<int>)
    ensures Enumerates(rows, m) && |rows| == |m|
  {
    rows := [];
    var left := m.Keys;
    while left != {}
      invariant left <= m.Keys
      invariant forall k :: 0 <= k < |rows| ==> rows[k] in m && rows[k] !in left
      invariant forall id :: id in m && id !in left ==> id in rows
      invariant forall i, j :: 0 <= i < j < |rows| ==> rows[i] != rows[j]
      invariant |rows| + |left| == |m.Keys|
      decreases |left|
    {
      var id := Pick(left);
      rows := rows + [id];
      left := left - {id};
    }
  }

  function Prefix(called: map<int, Indexed>, rows: seq<int>, n: nat): map<int, Indexed>
    requires n <= |rows|
  {
    map id | id in called && id in rows[..n] :: called[id]
  }

  lemma PrefixGrows(called: map<int, Indexed>, rows: seq<int>, n: nat, kept: map<int, Indexed>)
    requires n < |rows| && Enumerates(rows, called)
    ensures rows[n] in called
    ensures rows[n] in kept + Prefix(called, rows, n) <==> rows[n] in kept
    ensures rows[n] !in kept ==>
      (kept + Prefix(called, rows, n))[rows[n] := called[rows[n]]] == kept + Prefix(called, rows, n + 1)
  {
    assert rows[n] in rows;
    assert rows[..n + 1] == rows[..n] + [rows[n]];
  }

  lemma PrefixEnds(called: map<int, Indexed>, rows: seq<int>)
    requires Enumerates(rows, called)
    ensures Prefix(called, rows, 0) == map[] && Prefix(called, rows, |rows|) == called
  {
    assert rows[..|rows|] == rows;
    forall id | id in called
      ensures id in Prefix(called, rows, |rows|)
    {
      assert id in rows;
    }
  }

  lemma ClashIsAt(t: Tables, bank: Option<string>, rows: seq<int>)
    requires Enumerates(rows, Called(t, bank))
    ensures (exists id :: Clash(t, bank, id)) <==> exists k :: 0 <= k < |rows| && rows[k] in Cleared(t.vectors, bank)
  {
    hide Called, Cleared;
    if id :| Clash(t, bank, id) {
      assert id in rows;
    }
    if k :| 0 <= k < |rows| && rows[k] in Cleared(t.vectors, bank) {
      assert rows[k] in rows;
      assert Clash(t, bank, rows[k]);
    }
  }

  /** What a rebuild that met a clash leaves: the index without the scope, and
      the rows of the `n` embeddings that whole chunks had inserted. */
  ghost predicate Stopped(t: Tables, bank: Option<string>, rows: seq<int>, n: nat, left: map<int, Indexed>) {
    && Enumerates(rows, Called(t, bank)) && n <= |rows| && n % REBUILD_CHUNK == 0
    && left == Cleared(t.vectors, bank) + Prefix(Called(t, bank), rows, n)
    && (forall k :: 0 <= k < n ==> !Clash(t, bank, rows[k]))
    && (exists k :: n <= k < |rows| && k < n + REBUILD_CHUNK && Clash(t, bank, rows[k]))
  }

  lemma StoppedHere(t: Tables, bank: Option<string>, rows: seq<int>, n: nat, left: map<int, Indexed>)
    requires Enumerates(rows, Called(t, bank)) && n <= |rows| && n % REBUILD_CHUNK == 0
    requires left == Cleared(t.vectors, bank) + Prefix(Called(t, bank), rows, n)
    requires forall k :: 0 <= k < n ==> rows[k] !in Cleared(t.vectors, bank)
    requires exists k :: n <= k < |rows| && k < n + REBUILD_CHUNK && rows[k] in Cleared(t.vectors, bank)
    ensures Stopped(t, bank, rows, n, left)
  {
    hide Called, Cleared, Prefix;
    var k :| n <= k < |rows| && k < n + REBUILD_CHUNK && rows[k] in Cleared(t.vectors, bank);
    assert Clash(t, bank, rows[k]);
  }

  /** After it, an embedding of the scope is indexed as called for if its chunk
      came before the clash; of the rest, only another bank's row is there. */
  lemma StoppedLoses(t: Tables, bank: Option<string>, rows: seq<int>, n: nat, left: map<int, Indexed>, k: nat)
    requires Stopped(t, bank, rows, n, left) && k < |rows|
    ensures k < n ==> rows[k] in left && left[rows[k]] == Called(t, bank)[rows[k]]
    ensures k >= n ==> (rows[k] in left <==> Clash(t, bank, rows[k]))
    ensures k >= n && rows[k] in left ==> !InScope(bank, left[rows[k]].bankId)
  {
    assert rows[k] in Called(t, bank);
    if k < n {
      assert rows[..n][k] == rows[k];
    } else {
      assert rows[k] !in rows[..n];
    }
  }

  lemma NoClash(t: Tables)
    ensures forall id :: !Clash(t, None, id)
  {}

  lemma RebuiltIsValid(t: Tables)
    requires Valid(t)
    ensures Valid(Rebuilt(t, None))
  {}
}
