/**
 The memory store: its tables updated in place, each write one transaction
 that commits or changes nothing. Uuids and the clock are parameters.
 */
module Store {
  import opened Common
  import opened Wrappers
  import opened Tables
  import opened Consolidation
  import opened PlanLaws
  import opened Supersession
  import opened StoreSteps

  class Db {
    var banks: set<string>
    var nodes: map<int, Node>
    var vectors: map<int, Indexed>
    var sources: map<(int, int), int>

    function State(): Tables
      reads this
    {
      Tables(banks, nodes, vectors, sources)
    }

    constructor (banks: set<string>)
      ensures State() == Tables(banks, map[], map[], map[]) && Valid(State())
    {
      this.banks, nodes, vectors, sources := banks, map[], map[], map[];
    }

    // ---------- Statements ----------

    method NextId() returns (id: int)
      ensures id == NewRowid(nodes)
    {
      var left := nodes.Keys;
      var top := 0;
      while left != {}
        invariant left <= nodes.Keys
        invariant left == nodes.Keys || (top in nodes && forall k :: k in nodes && k !in left ==> k <= top)
        decreases |left|
      {
        var k := Pick(left);
        top := if left == nodes.Keys || top < k then k else top;
        left := left - {k};
      }
      id := top + 1;
      if nodes == map[] {
        id := 1;
      } else {
        assert nodes.Keys != {};
      }
      RowidUnique(nodes, id, NewRowid(nodes));
    }

    method InsertRow(node: Node) returns (id: int)
      modifies this`nodes
      ensures id == NewRowid(old(nodes)) && State() == Inserted(old(State()), id, node)
    {
      id := NextId();
      nodes := nodes[id := node];
    }

    method LinkSources(observation: int, bankId: string, sourceIds: seq<int>, now: int)
      modifies this`sources
      ensures State() == LinkedAll(old(State()), observation, bankId, sourceIds, now)
    {
      for i := 0 to |sourceIds|
        invariant State() == LinkedAll(old(State()), observation, bankId, sourceIds[..i], now)
      {
        var s := sourceIds[i];
        assert sourceIds[..i + 1][..i] == sourceIds[..i];
        if s in nodes && nodes[s].bankId == bankId && (observation, s) !in sources {
          sources := sources[(observation, s) := now];
        }
      }
      assert sourceIds[..|sourceIds|] == sourceIds;
    }

    method RecountProof(observation: int) returns (r: Option<nat>)
      modifies this`nodes
      ensures State() == Recounted(old(State()), observation)
      ensures r == if observation in old(nodes) then Some(|SourcesOf(sources, observation)|) else None
    {
      if observation !in nodes {
        return None;
      }
      nodes := nodes[observation := nodes[observation].(proofCount := |SourcesOf(sources, observation)|)];
      r := Some(nodes[observation].proofCount);
    }

    method DeleteRow(id: int)
      modifies this`nodes, this`vectors, this`sources
      ensures State() == Deleted(old(State()), id)
    {
      if id !in nodes {
        return;
      }
      var before := sources;
      sources := Without(sources, id);
      nodes := map k | k in nodes && k != id ::
        nodes[k].(supersededBy := if nodes[k].supersededBy == Some(id) then None else nodes[k].supersededBy,
                  proofCount := if (k, id) in before then |SourcesOf(sources, k)| else nodes[k].proofCount);
      vectors := vectors - {id};
      assert nodes == Deleted(old(State()), id).nodes;
    }

    method UpdateTextRow(id: int, text: string, now: int)
      modifies this`nodes
      ensures State() == TextUpdated(old(State()), id, text, now)
    {
      if id in nodes {
        nodes := nodes[id := nodes[id].(text := text, embedding := None, updatedAt := now)];
      }
    }

    method SetEmbeddingRow(id: int, bankId: string, v: Vector, now: int)
      modifies this`nodes, this`vectors
      ensures State() == Embedded(old(State()), id, bankId, v, now)
    {
      if id in nodes {
        nodes := nodes[id := nodes[id].(embedding := Some(v), updatedAt := now)];
      }
      vectors := vectors - {id};
      vectors := vectors[id := Indexed(bankId, v)];
    }

    method FindByUuid(bankId: string, uuid: string) returns (r: Option<int>)
      requires UuidsUnique(State())
      ensures r == Find(State(), bankId, uuid)
    {
      if id :| id in nodes && Names(State(), bankId, uuid, id) {
        FindIsTheOne(State(), bankId, uuid, id);
        r := Some(id);
      } else {
        r := None;
      }
    }

    // ---------- Nodes ----------

    method Insert(n: NewNode, uuid: string, now: int) returns (r: Result<int, Error>)
      requires Valid(State())
      modifies this
      ensures Valid(State())
      ensures r.Err? <==> n.bankId !in banks || UuidTaken(old(State()), uuid)
      ensures r.Err? ==> State() == old(State())
      ensures r.Ok? ==> r.value == NewRowid(old(nodes)) && State() == Inserted(old(State()), r.value, NodeOf(n, uuid, now))
    {
      var taken := IsTaken(uuid);
      if n.bankId !in banks || taken {
        return Err(Storage);
      }
      InsertKeeps(State(), NewRowid(nodes), NodeOf(n, uuid, now));
      var id := InsertRow(NodeOf(n, uuid, now));
      r := Ok(id);
    }

    /** All of a batch, or none of it. */
    method InsertBatch(batch: seq<NewNode>, uuids: seq<string>, now: int) returns (r: Result<seq<int>, Error>)
      requires Valid(State()) && |uuids| == |batch|
      modifies this
      ensures Valid(State())
      ensures match InsertAll(old(State()), batch, uuids, now)
              case Ok(t) => State() == t && r.Ok? && |r.value| == |batch|
                            && forall k :: 0 <= k < |batch| ==> r.value[k] == NewRowid(old(nodes)) + k
              case Err(e) => r == Err(e) && State() == old(State())
    {
      hide Valid, NextRowid, UuidTaken;
      var nodes0 := nodes;
      var ids := [];
      for i := 0 to |batch|
        invariant InsertAll(old(State()), batch[..i], uuids[..i], now) == Ok(State())
        invariant Valid(State()) && banks == old(banks) && vectors == old(vectors) && sources == old(sources)
        invariant |ids| == i && forall k :: 0 <= k < i ==> ids[k] == NewRowid(old(nodes)) + k
        invariant NewRowid(nodes) == NewRowid(old(nodes)) + i
      {
        assert batch[..i + 1][..i] == batch[..i] && uuids[..i + 1][..i] == uuids[..i];
        var taken := IsTaken(uuids[i]);
        if batch[i].bankId !in banks || taken {
          InsertErrorStays(old(State()), batch, uuids, now, i + 1);
          nodes := nodes0;
          assert State() == old(State());
          return Err(Storage);
        }
        InsertOneKeeps(State(), batch[i], uuids[i], now);
        RowidAfterInsert(State(), batch[i], uuids[i], now);
        var id := InsertRow(NodeOf(batch[i], uuids[i], now));
        ids := ids + [id];
      }
      assert batch[..|batch|] == batch && uuids[..|uuids|] == uuids;
      r := Ok(ids);
    }

    method IsTaken(uuid: string) returns (taken: bool)
      ensures taken == UuidTaken(State(), uuid)
    {
      taken := exists id :: id in nodes && nodes[id].uuid == uuid;
    }

    method Delete(id: int)
      requires Valid(State())
      modifies this
      ensures Valid(State()) && State() == Deleted(old(State()), id)
    {
      DeleteKeeps(State(), id);
      DeleteRow(id);
    }

    method UpdateText(id: int, text: string, now: int)
      requires Valid(State())
      modifies this
      ensures Valid(State()) && State() == TextUpdated(old(State()), id, text, now)
    {
      TextKeeps(State(), id, text, now);
      UpdateTextRow(id, text, now);
    }

    method SetEmbedding(id: int, bankId: string, v: Vector, now: int) returns (r: Result<(), Error>)
      requires Valid(State())
      modifies this
      ensures Valid(State())
      ensures r.Err? <==> |v| != EMBEDDING_DIM
      ensures State() == if r.Ok? then Embedded(old(State()), id, bankId, v, now) else old(State())
    {
      if |v| != EMBEDDING_DIM {
        return Err(Invalid);
      }
      EmbedKeeps(State(), id, bankId, v, now);
      SetEmbeddingRow(id, bankId, v, now);
      r := Ok(());
    }

    /** All of a batch, or none of it. */
    method SetEmbeddingsBatch(batch: seq<EmbeddedRow>, now: int) returns (r: Result<(), Error>)
      requires Valid(State())
      modifies this
      ensures Valid(State())
      ensures r.Err? <==> exists k :: 0 <= k < |batch| && |batch[k].v| != EMBEDDING_DIM
      ensures State() == if r.Ok? then EmbeddedAll(old(State()), batch, now) else old(State())
    {
      hide Valid, Embedded;
      var nodes0, vectors0 := nodes, vectors;
      for i := 0 to |batch|
        invariant State() == EmbeddedAll(old(State()), batch[..i], now)
        invariant Valid(State())
        invariant banks == old(banks) && sources == old(sources)
        invariant forall k :: 0 <= k < i ==> |batch[k].v| == EMBEDDING_DIM
      {
        var row := batch[i];
        if |row.v| != EMBEDDING_DIM {
          nodes, vectors := nodes0, vectors0;
          assert State() == old(State());
          return Err(Invalid);
        }
        assert batch[..i + 1][..i] == batch[..i];
        EmbedKeeps(State(), row.id, row.bankId, row.v, now);
        EmbeddedKeepsRest(State(), row.id, row.bankId, row.v, now);
        SetEmbeddingRow(row.id, row.bankId, row.v, now);
      }
      assert batch[..|batch|] == batch;
      r := Ok(());
    }

    /** How many of the pairs retracted a node. */
    method MarkSuperseded(bankId: string, pairs: seq<(int, int)>, now: int) returns (changed: nat)
      requires Valid(State())
      modifies this
      ensures Valid(State()) && State() == SupersededAll(old(State()), bankId, pairs, now)
      ensures changed == SupersededCount(old(State()), bankId, pairs, now)
    {
      hide Valid;
      changed := 0;
      SupersedeAllKeeps(State(), bankId, pairs, now);
      for i := 0 to |pairs|
        invariant State() == SupersededAll(old(State()), bankId, pairs[..i], now)
        invariant changed == SupersededCount(old(State()), bankId, pairs[..i], now)
      {
        var (retracted, replacement) := pairs[i];
        assert pairs[..i + 1][..i] == pairs[..i];
        if MaySupersede(State(), bankId, retracted, replacement) {
          nodes := nodes[retracted := nodes[retracted].(supersededBy := Some(replacement), updatedAt := now)];
          changed := changed + 1;
        }
      }
      assert pairs[..|pairs|] == pairs;
    }

    method ClearSuperseded(bankId: string, id: int, now: int) returns (cleared: bool)
      requires Valid(State())
      modifies this
      ensures Valid(State()) && State() == Unsuperseded(old(State()), bankId, id, now)
      ensures cleared <==> id in old(nodes) && old(nodes)[id].bankId == bankId && old(nodes)[id].supersededBy.Some?
    {
      ClearKeeps(State(), bankId, id, now);
      cleared := id in nodes && nodes[id].bankId == bankId && nodes[id].supersededBy.Some?;
      if cleared {
        nodes := nodes[id := nodes[id].(supersededBy := None, updatedAt := now)];
      }
    }

    // ---------- Observations ----------

    /** Inside a transaction: on an error the caller rolls back. */
    method InsertObservationTx(bankId: string, uuid: string, c: NewObservation, now: int) returns (r: Result<int, Error>)
      modifies this`nodes, this`vectors, this`sources
      ensures match Create(old(State()), bankId, uuid, c, now)
              case Ok(t) => r == Ok(NewRowid(old(nodes))) && State() == t
              case Err(e) => r == Err(e)
    {
      hide LinkedAll, Recounted, SourcesOf, NextRowid;
      if |c.embedding| != EMBEDDING_DIM {
        return Err(Invalid);
      }
      var taken := IsTaken(uuid);
      if bankId !in banks || taken {
        return Err(Storage);
      }
      var id := InsertRow(FreshObservation(uuid, bankId, c, now));
      if id in vectors {
        return Err(Storage);
      }
      vectors := vectors[id := Indexed(bankId, c.embedding)];
      assert State() == Placed(old(State()), id, uuid, bankId, c, now);
      LinkSources(id, bankId, c.sourceIds, now);
      var proof := RecountProof(id);
      r := Ok(id);
    }

    method InsertObservation(bankId: string, uuid: string, c: NewObservation, now: int) returns (r: Result<int, Error>)
      requires Valid(State())
      modifies this
      ensures Valid(State())
      ensures match Create(old(State()), bankId, uuid, c, now)
              case Ok(t) => r == Ok(NewRowid(old(nodes))) && State() == t
              case Err(e) => r == Err(e) && State() == old(State())
    {
      hide Valid, Create;
      var nodes0, vectors0, sources0 := nodes, vectors, sources;
      if Create(State(), bankId, uuid, c, now).Ok? {
        CreateIsValid(State(), bankId, uuid, c, now);
      }
      r := InsertObservationTx(bankId, uuid, c, now);
      if r.Err? {
        nodes, vectors, sources := nodes0, vectors0, sources0;
      }
    }

    /** The survivor's rowid and count; an error changes nothing. */
    method MergeObservation(bankId: string, keepUuid: string, dropUuid: string, text: string, now: int)
      returns (r: Result<(int, nat), Error>)
      requires Valid(State())
      modifies this
      ensures Valid(State())
      ensures match Merge(old(State()), bankId, keepUuid, dropUuid, text, now)
              case Ok(t) => r.Ok? && State() == t && Find(old(State()), bankId, keepUuid) == Some(r.value.0)
                            && r.value.1 == |SourcesOf(t.sources, r.value.0)|
              case Err(e) => r == Err(e) && State() == old(State())
      ensures r.Ok? ==> OnlyNamed(old(State()), State(), bankId, {keepUuid, dropUuid})
    {
      hide Valid, OnlyNamed, SourcesOf, Deleted, TextUpdated, Union;
      MergeIsSafe(State(), bankId, keepUuid, dropUuid, text, now);
      ValidParts(State());
      var nodes0, vectors0, sources0 := nodes, vectors, sources;
      var keep := FindByUuid(bankId, keepUuid);
      if keep.None? {
        return Err(NotFound);
      }
      var drop := FindByUuid(bankId, dropUuid);
      if drop.None? {
        return Err(NotFound);
      }
      var keepId, dropId := keep.value, drop.value;
      var current := nodes[keepId].text;
      UniteSources(keepId, dropId);
      if current != text {
        UpdateTextRow(keepId, text, now);
      }
      DeleteRow(dropId);
      var proof := RecountProof(keepId);
      MergeLeavesKeep(old(State()), keepId, dropId, text, now);
      if proof.None? {
        nodes, vectors, sources := nodes0, vectors0, sources0;
        return Err(Storage);
      }
      r := Ok((keepId, proof.value));
    }

    method UniteSources(keep: int, drop: int)
      modifies this`sources
      ensures State() == Union(old(State()), keep, drop)
    {
      hide Copied;
      sources := Copied(sources, keep, drop);
    }

    /** A whole plan, or none of it. */
    method ApplyPlan(bankId: string, creates: seq<NewObservation>, uuids: seq<string>, updates: seq<ObservationUpdate>,
                     deletes: seq<string>, now: int)
      returns (r: Result<Applied, Error>)
      requires Valid(State()) && |uuids| == |creates|
      modifies this
      ensures Valid(State())
      ensures match Plan(old(State()), bankId, creates, uuids, updates, deletes, now)
              case Ok(t) => r.Ok? && State() == t && CreatedRowids(r.value.created, old(State()), bankId, creates, uuids, now)
              case Err(e) => r == Err(e) && State() == old(State())
      ensures r.Ok? ==>
        var created := CreateAll(old(State()), bankId, creates, uuids, now).value;
        && r.value.updated == UpdatesDone(created, bankId, updates, now)
        && r.value.deleted == DeletesDone(UpdateAll(created, bankId, updates, now), bankId, deletes)
      ensures r.Ok? ==> OnlyNamed(old(State()), State(), bankId, UuidsOf(updates, deletes))
    {
      hide Valid, OnlyNamed, CreateAll, UpdateAll, DeleteAll, UuidsOf, CreatedRowids, UpdatesDone, DeletesDone;
      PlanIsSafe(State(), bankId, creates, uuids, updates, deletes, now);
      var nodes0, vectors0, sources0 := nodes, vectors, sources;
      var created := ApplyCreates(bankId, creates, uuids, now);
      if created.Err? {
        nodes, vectors, sources := nodes0, vectors0, sources0;
        return Err(created.error);
      }
      var updated := ApplyUpdates(bankId, updates, now);
      var deleted := ApplyDeletes(bankId, deletes);
      r := Ok(Applied(created.value, updated, deleted));
    }

    method ApplyCreates(bankId: string, creates: seq<NewObservation>, uuids: seq<string>, now: int)
      returns (r: Result<seq<int>, Error>)
      requires Valid(State()) && |uuids| == |creates|
      modifies this`nodes, this`vectors, this`sources
      ensures match CreateAll(old(State()), bankId, creates, uuids, now)
              case Ok(t) => r.Ok? && State() == t && Valid(t) && CreatedRowids(r.value, old(State()), bankId, creates, uuids, now)
              case Err(e) => r == Err(e)
    {
      hide Valid, Create, OnlyNamed, NextRowid;
      var ids := [];
      for i := 0 to |creates|
        invariant CreateAll(old(State()), bankId, creates[..i], uuids[..i], now) == Ok(State())
        invariant |ids| == i && forall k :: 0 <= k < i ==>
          && CreateAll(old(State()), bankId, creates[..k], uuids[..k], now).Ok?
          && ids[k] == NewRowid(CreateAll(old(State()), bankId, creates[..k], uuids[..k], now).value.nodes)
      {
        assert creates[..i + 1][..i] == creates[..i] && uuids[..i + 1][..i] == uuids[..i];
        var one := InsertObservationTx(bankId, uuids[i], creates[i], now);
        if one.Err? {
          CreateErrorStays(old(State()), bankId, creates, uuids, now, i + 1);
          return Err(one.error);
        }
        ids := ids + [one.value];
      }
      assert creates[..|creates|] == creates && uuids[..|creates|] == uuids;
      CreatesAreSafe(old(State()), bankId, creates, uuids, now, {});
      r := Ok(ids);
    }

    method ApplyUpdates(bankId: string, updates: seq<ObservationUpdate>, now: int) returns (done: seq<(int, string)>)
      requires Valid(State())
      modifies this`nodes, this`sources
      ensures State() == UpdateAll(old(State()), bankId, updates, now) && Valid(State())
      ensures done == UpdatesDone(old(State()), bankId, updates, now)
    {
      hide Valid, Find, LinkedAll, Recounted, TextUpdated, SourcesOf;
      done := [];
      for i := 0 to |updates|
        invariant State() == UpdateAll(old(State()), bankId, updates[..i], now)
        invariant done == UpdatesDone(old(State()), bankId, updates[..i], now)
        invariant Valid(State())
      {
        var u := updates[i];
        assert updates[..i + 1][..i] == updates[..i];
        UpdateIsValid(State(), bankId, u, now);
        ValidParts(State());
        var target := FindByUuid(bankId, u.uuid);
        if target.None? {
          assert done + [] == done;
          continue;
        }
        var id := target.value;
        if nodes[id].text != u.text {
          UpdateTextRow(id, u.text, now);
        }
        LinkSources(id, bankId, u.sourceIds, now);
        var proof := RecountProof(id);
        done := done + [(id, u.uuid)];
      }
      assert updates[..|updates|] == updates;
    }

    method ApplyDeletes(bankId: string, deletes: seq<string>) returns (deleted: nat)
      requires Valid(State())
      modifies this`nodes, this`vectors, this`sources
      ensures State() == DeleteAll(old(State()), bankId, deletes) && Valid(State())
      ensures deleted == DeletesDone(old(State()), bankId, deletes)
    {
      hide Valid, Find, Deleted;
      deleted := 0;
      for i := 0 to |deletes|
        invariant State() == DeleteAll(old(State()), bankId, deletes[..i])
        invariant deleted == DeletesDone(old(State()), bankId, deletes[..i])
        invariant Valid(State())
      {
        assert deletes[..i + 1][..i] == deletes[..i];
        DeleteIsValid(State(), bankId, deletes[i]);
        ValidParts(State());
        var target := FindByUuid(bankId, deletes[i]);
        if target.Some? {
          DeleteRow(target.value);
          deleted := deleted + 1;
        }
      }
      assert deletes[..|deletes|] == deletes;
    }

    // ---------- Search ----------

    /** One chunk of index rows, all or none. */
    method InsertChunk(called: map<int, Indexed>, rows: seq<int>, start: nat, end: nat, ghost kept: map<int, Indexed>)
      returns (clash: bool)
      requires start <= end <= |rows| && Enumerates(rows, called)
      requires vectors == kept + Prefix(called, rows, start)
      modifies this`vectors
      ensures !clash ==> vectors == kept + Prefix(called, rows, end) && forall k :: start <= k < end ==> rows[k] !in kept
      ensures clash ==> vectors == old(vectors) && exists k :: start <= k < end && rows[k] in kept
    {
      hide Prefix, Enumerates;
      var before := vectors;
      for i := start to end
        invariant vectors == kept + Prefix(called, rows, i)
        invariant forall k :: start <= k < i ==> rows[k] !in kept
      {
        PrefixGrows(called, rows, i, kept);
        if rows[i] in vectors {
          vectors := before;
          return true;
        }
        vectors := vectors[rows[i] := called[rows[i]]];
      }
      clash := false;
    }

    method InsertChunks(called: map<int, Indexed>, rows: seq<int>, ghost kept: map<int, Indexed>)
      returns (clash: bool, ghost done: nat)
      requires Enumerates(rows, called) && vectors == kept + Prefix(called, rows, 0)
      modifies this`vectors
      ensures done <= |rows| && vectors == kept + Prefix(called, rows, done)
      ensures forall k :: 0 <= k < done ==> rows[k] !in kept
      ensures if clash then
          done % REBUILD_CHUNK == 0 && exists k :: done <= k < |rows| && k < done + REBUILD_CHUNK && rows[k] in kept
        else
          done == |rows|
    {
      hide Prefix, Enumerates;
      var rebuilt: nat := 0;
      while rebuilt < |rows|
        invariant rebuilt <= |rows|
        invariant rebuilt < |rows| ==> rebuilt % REBUILD_CHUNK == 0
        invariant vectors == kept + Prefix(called, rows, rebuilt)
        invariant forall k :: 0 <= k < rebuilt ==> rows[k] !in kept
      {
        var next := if |rows| - rebuilt < REBUILD_CHUNK then |rows| else rebuilt + REBUILD_CHUNK;
        clash := InsertChunk(called, rows, rebuilt, next, kept);
        if clash {
          done := rebuilt;
          return;
        }
        rebuilt := next;
      }
      clash, done := false, rebuilt;
    }

    /** Deletes the index of the scope and inserts it again in chunks, each
        its own transaction: on a clash the chunks before it stay. */
    method RebuildVecIndex(bank: Option<string>) returns (r: Result<nat, Error>)
      requires Valid(State())
      modifies this`vectors
      ensures r.Ok? <==> forall id :: !Clash(old(State()), bank, id)
      ensures r.Ok? ==> State() == Rebuilt(old(State()), bank) && r.value == |Called(old(State()), bank)|
      ensures r.Err? ==> r.error == Storage && exists rows, n :: Stopped(old(State()), bank, rows, n, vectors)
      ensures bank.None? ==> r.Ok? && Valid(State())
    {
      hide Valid, Called, Cleared, Prefix, Enumerates, Clash, Stopped;
      ghost var t := State();
      if bank.None? {
        NoClash(t);
        RebuiltIsValid(t);
      }
      var called := Called(State(), bank);
      var rows := Rows(called);
      vectors := Cleared(vectors, bank);
      PrefixEnds(called, rows);
      ClashIsAt(t, bank, rows);
      var clash, done := InsertChunks(called, rows, vectors);
      if clash {
        StoppedHere(t, bank, rows, done, vectors);
        return Err(Storage);
      }
      r := Ok(|rows|);
    }

    /** The live rows among `ids`. */
    method Hydrate(bankId: string, ids: seq<int>, now: int) returns (rows: map<int, Node>)
      ensures rows == Hydrated(State(), bankId, ids, now)
    {
      rows := map[];
      for i := 0 to |ids|
        invariant rows == Hydrated(State(), bankId, ids[..i], now)
      {
        var id := ids[i];
        assert ids[..i + 1] == ids[..i] + [id];
        if id in nodes && nodes[id].bankId == bankId && nodes[id].supersededBy.None?
           && (nodes[id].expiresAt.None? || nodes[id].expiresAt.value > now) {
          rows := rows[id := nodes[id]];
        }
      }
      assert ids[..|ids|] == ids;
    }
  }
}
