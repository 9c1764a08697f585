/**
 Merges and plans touch only what they name by uuid: the frame of each step,
 carried over whole plans.
 */
module PlanLaws {
  import opened Tables
  import opened Consolidation

  lemma CreatedTouchesNothing(t: Tables, id: int, uuid: string, bankId: string, c: NewObservation, now: int, named: set<string>)
    requires KeysHold(t) && id !in t.nodes
    ensures OnlyNamed(t, Created(t, id, uuid, bankId, c, now), bankId, named)
  {
    hide LinkedAll, SourcesOf;
    LinkedKeys(Placed(t, id, uuid, bankId, c, now), id, bankId, c.sourceIds, now);
  }

  lemma UpdatedTouchesOne(t: Tables, bankId: string, id: int, u: ObservationUpdate, now: int, named: set<string>)
    requires Names(t, bankId, u.uuid, id) && u.uuid in named
    ensures OnlyNamed(t, Updated(t, bankId, id, u, now), bankId, named)
  {
    hide LinkedAll, SourcesOf;
    var written := if t.nodes[id].text != u.text then TextUpdated(t, id, u.text, now) else t;
    LinkedKeys(written, id, bankId, u.sourceIds, now);
  }

  lemma DeletedTouchesOne(t: Tables, bankId: string, id: int, named: set<string>)
    requires Named(t, bankId, named, id)
    ensures OnlyNamed(t, Deleted(t, id), bankId, named)
  {
    hide SourcesOf;
  }

  lemma UnionTouchesOne(t: Tables, bankId: string, keep: int, drop: int, named: set<string>)
    requires Named(t, bankId, named, keep) && Named(t, bankId, named, drop)
    ensures OnlyNamed(t, Union(t, keep, drop), bankId, named)
  {
    hide SourcesOf;
  }

  lemma TextTouchesOne(t: Tables, bankId: string, id: int, text: string, now: int, named: set<string>)
    requires Named(t, bankId, named, id)
    ensures OnlyNamed(t, TextUpdated(t, id, text, now), bankId, named)
  {}

  lemma RecountTouchesOne(t: Tables, bankId: string, id: int, named: set<string>)
    requires Named(t, bankId, named, id)
    ensures OnlyNamed(t, Recounted(t, id), bankId, named)
  {
    hide SourcesOf;
  }

  /** A merge touches the two observations it names. */
  lemma FoldedTouchesTwo(t: Tables, bankId: string, keep: int, drop: int, text: string, now: int, named: set<string>)
    requires Valid(t) && keep != drop && Named(t, bankId, named, keep) && Named(t, bankId, named, drop)
    ensures OnlyNamed(t, Folded(t, keep, drop, text, now), bankId, named)
  {
    hide SourcesOf, OnlyNamed, KeysHold, ProofCounted, UuidsUnique, EmbeddingsIndexed, SupersededLater;
    var united := Union(t, keep, drop);
    var written := if t.nodes[keep].text != text then TextUpdated(united, keep, text, now) else united;
    var deleted := Deleted(written, drop);
    var after := Recounted(deleted, keep);
    UnionTouchesOne(t, bankId, keep, drop, named);
    OnlyNamedHere(united, bankId, named);
    TextTouchesOne(united, bankId, keep, text, now, named);
    DeletedTouchesOne(written, bankId, drop, named);
    RecountTouchesOne(deleted, bankId, keep, named);
    MergeKeys(t, keep, drop, text, now);
    OnlyNamedThen(t, united, written, bankId, named);
    OnlyNamedThen(t, written, deleted, bankId, named);
    OnlyNamedThen(t, deleted, after, bankId, named);
  }

  lemma MergeKeys(t: Tables, keep: int, drop: int, text: string, now: int)
    requires Valid(t) && keep in t.nodes && drop in t.nodes && keep != drop && t.nodes[keep].bankId == t.nodes[drop].bankId
    ensures
      var united := Union(t, keep, drop);
      var written := if t.nodes[keep].text != text then TextUpdated(united, keep, text, now) else united;
      KeysHold(t) && KeysHold(united) && KeysHold(written) && KeysHold(Deleted(written, drop)) && SupersededLater(t)
  {
    hide Valid, ValidBut, TextUpdated, Deleted, KeysHold, SupersededLater;
    var united := Union(t, keep, drop);
    var written := if t.nodes[keep].text != text then TextUpdated(united, keep, text, now) else united;
    ValidParts(t);
    UnionKeeps(t, keep, drop);
    TextKeepsBut(united, keep, text, now);
    TextKeepsKeys(united, keep, text, now);
    DeleteKeepsBut(written, keep, drop);
    ValidButParts(united, keep);
    ValidButParts(written, keep);
    ValidButParts(Deleted(written, drop), keep);
  }

  lemma ValidButParts(t: Tables, id: int)
    requires ValidBut(t, id)
    ensures KeysHold(t)
  {}

  /** Whatever was deleted and inserted since the uuids were read, a merge
      changes or deletes only the observations of the bank that they name,
      removes no fact, and keeps every promise of the tables. */
  lemma MergeIsSafe(t: Tables, bankId: string, keepUuid: string, dropUuid: string, text: string, now: int)
    requires Valid(t)
    ensures var r := Merge(t, bankId, keepUuid, dropUuid, text, now);
            r.Ok? ==> Valid(r.value) && OnlyNamed(t, r.value, bankId, {keepUuid, dropUuid})
  {
    hide Valid, OnlyNamed, Folded;
    var keep, drop := Find(t, bankId, keepUuid), Find(t, bankId, dropUuid);
    if keep.Some? && drop.Some? && keep != drop {
      FoldedIsValid(t, keep.value, drop.value, text, now);
      FoldedTouchesTwo(t, bankId, keep.value, drop.value, text, now, {keepUuid, dropUuid});
    }
  }

  lemma ValidParts(t: Tables)
    requires Valid(t)
    ensures SupersededLater(t) && KeysHold(t) && UuidsUnique(t)
  {}

  lemma {:induction false} CreatesAreSafe(t: Tables, bankId: string, creates: seq<NewObservation>, uuids: seq<string>, now: int,
                                          named: set<string>)
    requires Valid(t) && |uuids| == |creates|
    ensures var r := CreateAll(t, bankId, creates, uuids, now);
            r.Ok? ==> Valid(r.value) && OnlyNamed(t, r.value, bankId, named)
    decreases |creates|
  {
    hide Valid, OnlyNamed, Created, NextRowid;
    if creates == [] {
      OnlyNamedHere(t, bankId, named);
    } else {
      var n := |creates| - 1;
      CreatesAreSafe(t, bankId, creates[..n], uuids[..n], now, named);
      var before := CreateAll(t, bankId, creates[..n], uuids[..n], now);
      if before.Ok? && Create(before.value, bankId, uuids[n], creates[n], now).Ok? {
        var after := Create(before.value, bankId, uuids[n], creates[n], now).value;
        CreateIsValid(before.value, bankId, uuids[n], creates[n], now);
        ValidParts(t);
        ValidParts(before.value);
        CreatedTouchesNothing(before.value, NewRowid(before.value.nodes), uuids[n], bankId, creates[n], now, named);
        OnlyNamedThen(t, before.value, after, bankId, named);
      }
    }
  }

  lemma {:induction false} UpdatesAreSafe(t: Tables, bankId: string, updates: seq<ObservationUpdate>, now: int, named: set<string>)
    requires Valid(t) && forall k :: 0 <= k < |updates| ==> updates[k].uuid in named
    ensures var after := UpdateAll(t, bankId, updates, now);
            Valid(after) && OnlyNamed(t, after, bankId, named)
    decreases |updates|
  {
    hide Valid, OnlyNamed, Updated;
    OnlyNamedHere(t, bankId, named);
    if updates == [] {
    } else {
      var n := |updates| - 1;
      var before := UpdateAll(t, bankId, updates[..n], now);
      UpdatesAreSafe(t, bankId, updates[..n], now, named);
      UpdateIsValid(before, bankId, updates[n], now);
      var found := Find(before, bankId, updates[n].uuid);
      if found.Some? {
        UpdatedTouchesOne(before, bankId, found.value, updates[n], now, named);
        ValidParts(t);
        ValidParts(before);
        OnlyNamedThen(t, before, UpdateAll(t, bankId, updates, now), bankId, named);
      }
    }
  }

  lemma {:induction false} DeletesAreSafe(t: Tables, bankId: string, deletes: seq<string>, named: set<string>)
    requires Valid(t) && forall k :: 0 <= k < |deletes| ==> deletes[k] in named
    ensures var after := DeleteAll(t, bankId, deletes);
            Valid(after) && OnlyNamed(t, after, bankId, named)
    decreases |deletes|
  {
    hide Valid, OnlyNamed, Deleted;
    OnlyNamedHere(t, bankId, named);
    if deletes == [] {
    } else {
      var n := |deletes| - 1;
      var before := DeleteAll(t, bankId, deletes[..n]);
      DeletesAreSafe(t, bankId, deletes[..n], named);
      DeleteIsValid(before, bankId, deletes[n]);
      var found := Find(before, bankId, deletes[n]);
      if found.Some? {
        DeletedTouchesOne(before, bankId, found.value, named);
        ValidParts(t);
        ValidParts(before);
        OnlyNamedThen(t, before, DeleteAll(t, bankId, deletes), bankId, named);
      }
    }
  }

  function UuidsOf(updates: seq<ObservationUpdate>, deletes: seq<string>): set<string> {
    (set u | u in updates :: u.uuid) + (set d | d in deletes)
  }

  /** The same for a whole plan. */
  lemma PlanIsSafe(t: Tables, bankId: string, creates: seq<NewObservation>, uuids: seq<string>,
                   updates: seq<ObservationUpdate>, deletes: seq<string>, now: int)
    requires Valid(t) && |uuids| == |creates|
    ensures var r := Plan(t, bankId, creates, uuids, updates, deletes, now);
            r.Ok? ==> Valid(r.value) && OnlyNamed(t, r.value, bankId, UuidsOf(updates, deletes))
  {
    hide Valid, OnlyNamed;
    var named := UuidsOf(updates, deletes);
    var created := CreateAll(t, bankId, creates, uuids, now);
    if created.Ok? {
      CreatesAreSafe(t, bankId, creates, uuids, now, named);
      UpdatesAreSafe(created.value, bankId, updates, now, named);
      var updated := UpdateAll(created.value, bankId, updates, now);
      DeletesAreSafe(updated, bankId, deletes, named);
      var deleted := DeleteAll(updated, bankId, deletes);
      ValidParts(t);
      ValidParts(created.value);
      ValidParts(updated);
      OnlyNamedThen(t, created.value, updated, bankId, named);
      OnlyNamedThen(t, updated, deleted, bankId, named);
    }
  }

  lemma FrameKeepsFacts(before: Tables, after: Tables, bankId: string, named: set<string>, id: int)
    requires OnlyNamed(before, after, bankId, named)
    requires id in before.nodes && before.nodes[id].factType != Observation
    ensures id in after.nodes && SameRow(before.nodes[id], after.nodes[id])
  {}

  /** Pointers and sources stay within one bank, so the frame of one bank is
      all of another. */
  lemma FrameKeepsBanks(before: Tables, after: Tables, bankId: string, named: set<string>, id: int)
    requires Valid(before) && Valid(after) && OnlyNamed(before, after, bankId, named)
    requires id in before.nodes && before.nodes[id].bankId != bankId
    ensures id in after.nodes && after.nodes[id] == before.nodes[id]
  {
    assert PointerKept(before, after, bankId, named, id);
    forall s
      ensures s in SourcesOf(before.sources, id) <==> s in SourcesOf(after.sources, id)
    {
      SourceKey(before.sources, id, s);
      SourceKey(after.sources, id, s);
    }
    assert SourcesOf(before.sources, id) == SourcesOf(after.sources, id);
  }

  /** No plan removes or rewrites a source fact. */
  lemma FactsSurvive(t: Tables, bankId: string, creates: seq<NewObservation>, uuids: seq<string>,
                     updates: seq<ObservationUpdate>, deletes: seq<string>, now: int, id: int)
    requires Valid(t) && |uuids| == |creates| && id in t.nodes && t.nodes[id].factType != Observation
    ensures var r := Plan(t, bankId, creates, uuids, updates, deletes, now);
            r.Ok? ==> id in r.value.nodes && SameRow(t.nodes[id], r.value.nodes[id])
  {
    hide Valid, Plan, OnlyNamed, SameRow;
    PlanIsSafe(t, bankId, creates, uuids, updates, deletes, now);
    var r := Plan(t, bankId, creates, uuids, updates, deletes, now);
    if r.Ok? {
      FrameKeepsFacts(t, r.value, bankId, UuidsOf(updates, deletes), id);
    }
  }

  /** Nor does a merge, even of two uuids that name facts: it finds none. */
  lemma FactsSurviveMerge(t: Tables, bankId: string, keepUuid: string, dropUuid: string, text: string, now: int, id: int)
    requires Valid(t) && id in t.nodes && t.nodes[id].factType != Observation
    ensures var r := Merge(t, bankId, keepUuid, dropUuid, text, now);
            r.Ok? ==> id in r.value.nodes && SameRow(t.nodes[id], r.value.nodes[id])
  {
    hide Valid, Merge, OnlyNamed, SameRow;
    MergeIsSafe(t, bankId, keepUuid, dropUuid, text, now);
    var r := Merge(t, bankId, keepUuid, dropUuid, text, now);
    if r.Ok? {
      FrameKeepsFacts(t, r.value, bankId, {keepUuid, dropUuid}, id);
    }
  }

  /** A plan changes nothing at all in another bank. */
  lemma OtherBanksUntouched(t: Tables, bankId: string, creates: seq<NewObservation>, uuids: seq<string>,
                            updates: seq<ObservationUpdate>, deletes: seq<string>, now: int, id: int)
    requires Valid(t) && |uuids| == |creates| && id in t.nodes && t.nodes[id].bankId != bankId
    ensures var r := Plan(t, bankId, creates, uuids, updates, deletes, now);
            r.Ok? ==> id in r.value.nodes && r.value.nodes[id] == t.nodes[id]
  {
    hide Valid, Plan, OnlyNamed;
    PlanIsSafe(t, bankId, creates, uuids, updates, deletes, now);
    var r := Plan(t, bankId, creates, uuids, updates, deletes, now);
    if r.Ok? {
      FrameKeepsBanks(t, r.value, bankId, UuidsOf(updates, deletes), id);
    }
  }

  /** Nor does a merge. */
  lemma OtherBanksUntouchedByMerge(t: Tables, bankId: string, keepUuid: string, dropUuid: string, text: string, now: int, id: int)
    requires Valid(t) && id in t.nodes && t.nodes[id].bankId != bankId
    ensures var r := Merge(t, bankId, keepUuid, dropUuid, text, now);
            r.Ok? ==> id in r.value.nodes && r.value.nodes[id] == t.nodes[id]
  {
    hide Valid, Merge, OnlyNamed;
    MergeIsSafe(t, bankId, keepUuid, dropUuid, text, now);
    var r := Merge(t, bankId, keepUuid, dropUuid, text, now);
    if r.Ok? {
      FrameKeepsBanks(t, r.value, bankId, {keepUuid, dropUuid}, id);
    }
  }

  // ---------- Recycled rowids ----------

  /** Deleting the last row and inserting again gives the same rowid to
      another node: a rowid read before does not name what it named. */
  lemma RowidComesBack(t: Tables, id: int)
    requires id in t.nodes && id > 0 && forall k :: k in t.nodes ==> k <= id
    requires id - 1 in t.nodes || (id == 1 && t.nodes.Keys == {1})
    ensures NewRowid(Deleted(t, id).nodes) == id
  {
    var left := Deleted(t, id).nodes;
    if id - 1 in t.nodes {
      assert id - 1 in left;
    } else {
      assert left == map[];
    }
    var next := NextRowidExists(left);
  }

  /** A vector set for a node that has gone stays behind in the index, and the
      next observation to get that rowid is refused. */
  lemma OrphanVectorRefuses(t: Tables, bankId: string, id: int, v: Vector, now: int, uuid: string, c: NewObservation)
    requires NextRowid(t.nodes, id)
    ensures CreateError(Embedded(t, id, bankId, v, now), bankId, uuid, c).Some?
  {
    var next := NextRowidExists(t.nodes);
  }

  /** No index row without its node: what keeps that from happening. */
  ghost predicate NoOrphans(t: Tables) {
    forall id :: id in t.vectors ==> id in t.nodes
  }

  /** While there are no orphans a create is refused only for its vector, its
      bank or its uuid; and setting a vector makes an orphan exactly when the
      node has gone. */
  lemma OrphansExactly(t: Tables, id: int, bankId: string, v: Vector, now: int, uuid: string, c: NewObservation)
    requires NoOrphans(t)
    ensures CreateError(t, bankId, uuid, c).Some?
            <==> |c.embedding| != EMBEDDING_DIM || bankId !in t.banks || UuidTaken(t, uuid)
    ensures NoOrphans(Embedded(t, id, bankId, v, now)) <==> id in t.nodes
  {
    assert NewRowid(t.nodes) !in t.nodes;
  }
}
