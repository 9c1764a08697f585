/**
 The rebuild of the vector index beside other writers: a snapshot is read, the
 scope is deleted, and each chunk is inserted, all in transactions of their own
 that other writes can come between.
 */
module RebuildRace {
  import opened Wrappers
  import opened Tables
  import opened Consolidation
  import opened PlanLaws
  import opened StoreSteps

  // ---------- One rowid ----------

  /** What the tables hold at a rowid: a node or none, the embedding its column
      holds, and the row of the index. */
  datatype Cell = Cell(present: bool, wanted: Option<Vector>, row: Option<Indexed>)

  function CellOf(t: Tables, id: int): Cell {
    Cell(id in t.nodes, if id in t.nodes then t.nodes[id].embedding else None, if id in t.vectors then Some(t.vectors[id]) else None)
  }

  predicate Agrees(c: Cell) {
    c.wanted.Some? ==> c.row.Some? && c.row.value.embedding == c.wanted.value
  }

  lemma IndexedAgrees(t: Tables)
    ensures EmbeddingsIndexed(t) <==> forall id :: Agrees(CellOf(t, id))
  {
    if EmbeddingsIndexed(t) {
      forall id ensures Agrees(CellOf(t, id)) {}
    }
    if forall id :: Agrees(CellOf(t, id)) {
      forall id | id in t.nodes && t.nodes[id].embedding.Some?
        ensures id in t.vectors && t.vectors[id].embedding == t.nodes[id].embedding.value
      {
        assert Agrees(CellOf(t, id));
      }
    }
  }

  // ---------- Other writers ----------

  /** A write that leaves the index in step at every rowid it touches. */
  ghost predicate Lawful(t: Tables, after: Tables) {
    forall id :: CellOf(after, id) == CellOf(t, id) || Agrees(CellOf(after, id))
  }

  lemma LawfulThen(a: Tables, b: Tables, c: Tables)
    requires Lawful(a, b) && Lawful(b, c)
    ensures Lawful(a, c)
  {}

  /** The statements are, in any state of the tables. */
  lemma StatementsAreLawful(t: Tables, id: int, node: Node, text: string, bankId: string, v: Vector, now: int)
    ensures node.embedding.None? ==> Lawful(t, Inserted(t, id, node))
    ensures Lawful(t, Deleted(t, id)) && Lawful(t, TextUpdated(t, id, text, now)) && Lawful(t, Embedded(t, id, bankId, v, now))
    ensures Lawful(t, Unsuperseded(t, bankId, id, now)) && Lawful(t, Recounted(t, id))
  {
    hide SourcesOf;
  }

  lemma {:induction false} RetractionsAreLawful(t: Tables, bankId: string, pairs: seq<(int, int)>, now: int)
    ensures Lawful(t, SupersededAll(t, bankId, pairs, now))
  {
    if pairs == [] {
    } else {
      var n := |pairs| - 1;
      RetractionsAreLawful(t, bankId, pairs[..n], now);
      var (retracted, replacement) := pairs[n];
      var before := SupersededAll(t, bankId, pairs[..n], now);
      hide SupersededAll, Lawful;
      OneRetraction(before, bankId, retracted, replacement, now);
      LawfulThen(t, before, Superseded(before, bankId, retracted, replacement, now));
      assert SupersededAll(t, bankId, pairs, now) == Superseded(before, bankId, retracted, replacement, now) by {
        LastPair(t, bankId, pairs, now);
      }
    }
  }

  lemma LastPair(t: Tables, bankId: string, pairs: seq<(int, int)>, now: int)
    requires pairs != []
    ensures
      var p := pairs[|pairs| - 1];
      SupersededAll(t, bankId, pairs, now) == Superseded(SupersededAll(t, bankId, pairs[..|pairs| - 1], now), bankId, p.0, p.1, now)
  {}

  lemma OneRetraction(t: Tables, bankId: string, retracted: int, replacement: int, now: int)
    ensures Lawful(t, Superseded(t, bankId, retracted, replacement, now))
  {}

  lemma LinksAreLawful(t: Tables, id: int, bankId: string, sources: seq<int>, now: int)
    ensures Lawful(t, LinkedAll(t, id, bankId, sources, now))
  {
    LinkedKeys(t, id, bankId, sources, now);
  }

  lemma CreateIsLawful(t: Tables, bankId: string, uuid: string, c: NewObservation, now: int)
    requires Create(t, bankId, uuid, c, now).Ok?
    ensures Lawful(t, Create(t, bankId, uuid, c, now).value)
  {
    hide LinkedAll, Recounted, UuidTaken, NextRowid, Lawful;
    var id := NewRowid(t.nodes);
    var placed := Placed(t, id, uuid, bankId, c, now);
    PlacedIsLawful(t, id, uuid, bankId, c, now);
    LinksAreLawful(placed, id, bankId, c.sourceIds, now);
    var linked := LinkedAll(placed, id, bankId, c.sourceIds, now);
    StatementsAreLawful(linked, id, FreshObservation(uuid, bankId, c, now), "", bankId, [], now);
    LawfulThen(t, placed, linked);
    LawfulThen(t, linked, Recounted(linked, id));
  }

  lemma PlacedIsLawful(t: Tables, id: int, uuid: string, bankId: string, c: NewObservation, now: int)
    ensures Lawful(t, Placed(t, id, uuid, bankId, c, now))
  {}

  lemma UpdatedIsLawful(t: Tables, bankId: string, id: int, u: ObservationUpdate, now: int)
    requires id in t.nodes
    ensures Lawful(t, Updated(t, bankId, id, u, now))
  {
    hide LinkedAll, Recounted, Lawful, TextUpdated;
    var node := t.nodes[id];
    var written := if node.text != u.text then TextUpdated(t, id, u.text, now) else t;
    StatementsAreLawful(t, id, node, u.text, bankId, [], now);
    SameIsLawful(t);
    LinksAreLawful(written, id, bankId, u.sourceIds, now);
    var linked := LinkedAll(written, id, bankId, u.sourceIds, now);
    StatementsAreLawful(linked, id, node, "", bankId, [], now);
    LawfulThen(t, written, linked);
    LawfulThen(t, linked, Recounted(linked, id));
  }

  lemma SameIsLawful(t: Tables)
    ensures Lawful(t, t)
  {}

  lemma MergeIsLawful(t: Tables, bankId: string, keepUuid: string, dropUuid: string, text: string, now: int)
    requires Merge(t, bankId, keepUuid, dropUuid, text, now).Ok?
    ensures Lawful(t, Merge(t, bankId, keepUuid, dropUuid, text, now).value)
  {
    hide Union, Recounted, Lawful, TextUpdated, Deleted, Find;
    var keep, drop := Find(t, bankId, keepUuid).value, Find(t, bankId, dropUuid).value;
    var node := t.nodes[keep];
    var united := Union(t, keep, drop);
    var written := if node.text != text then TextUpdated(united, keep, text, now) else united;
    var deleted := Deleted(written, drop);
    UnionIsLawful(t, keep, drop);
    StatementsAreLawful(united, keep, node, text, bankId, [], now);
    SameIsLawful(united);
    StatementsAreLawful(written, drop, node, text, bankId, [], now);
    StatementsAreLawful(deleted, keep, node, text, bankId, [], now);
    LawfulThen(t, united, written);
    LawfulThen(t, written, deleted);
    LawfulThen(t, deleted, Recounted(deleted, keep));
  }

  lemma UnionIsLawful(t: Tables, keep: int, drop: int)
    ensures Lawful(t, Union(t, keep, drop))
  {}

  lemma {:induction false} CreatesAreLawful(t: Tables, bankId: string, creates: seq<NewObservation>, uuids: seq<string>, now: int)
    requires |uuids| == |creates| && CreateAll(t, bankId, creates, uuids, now).Ok?
    ensures Lawful(t, CreateAll(t, bankId, creates, uuids, now).value)
    decreases |creates|
  {
    hide Create, Lawful;
    if creates == [] {
      SameIsLawful(t);
    } else {
      var n := |creates| - 1;
      CreatesAreLawful(t, bankId, creates[..n], uuids[..n], now);
      var before := CreateAll(t, bankId, creates[..n], uuids[..n], now).value;
      CreateIsLawful(before, bankId, uuids[n], creates[n], now);
      LawfulThen(t, before, CreateAll(t, bankId, creates, uuids, now).value);
    }
  }

  lemma {:induction false} UpdatesAreLawful(t: Tables, bankId: string, updates: seq<ObservationUpdate>, now: int)
    ensures Lawful(t, UpdateAll(t, bankId, updates, now))
    decreases |updates|
  {
    hide Updated, Lawful, Find;
    SameIsLawful(t);
    if updates == [] {
    } else {
      var n := |updates| - 1;
      UpdatesAreLawful(t, bankId, updates[..n], now);
      var before := UpdateAll(t, bankId, updates[..n], now);
      var found := Find(before, bankId, updates[n].uuid);
      if found.Some? {
        UpdatedIsLawful(before, bankId, found.value, updates[n], now);
        LawfulThen(t, before, UpdateAll(t, bankId, updates, now));
      }
    }
  }

  lemma {:induction false} DeletesAreLawful(t: Tables, bankId: string, deletes: seq<string>)
    ensures Lawful(t, DeleteAll(t, bankId, deletes))
    decreases |deletes|
  {
    hide Deleted, Lawful, Find;
    SameIsLawful(t);
    if deletes == [] {
    } else {
      var n := |deletes| - 1;
      DeletesAreLawful(t, bankId, deletes[..n]);
      var before := DeleteAll(t, bankId, deletes[..n]);
      var found := Find(before, bankId, deletes[n]);
      if found.Some? {
        StatementsAreLawful(before, found.value, before.nodes[found.value], "", bankId, [], 0);
        LawfulThen(t, before, DeleteAll(t, bankId, deletes));
      }
    }
  }

  /** So is a whole plan. */
  lemma PlanIsLawful(t: Tables, bankId: string, creates: seq<NewObservation>, uuids: seq<string>, updates: seq<ObservationUpdate>,
                     deletes: seq<string>, now: int)
    requires |uuids| == |creates| && Plan(t, bankId, creates, uuids, updates, deletes, now).Ok?
    ensures Lawful(t, Plan(t, bankId, creates, uuids, updates, deletes, now).value)
  {
    hide Lawful, CreateAll, UpdateAll, DeleteAll;
    var created := CreateAll(t, bankId, creates, uuids, now).value;
    var updated := UpdateAll(created, bankId, updates, now);
    CreatesAreLawful(t, bankId, creates, uuids, now);
    UpdatesAreLawful(created, bankId, updates, now);
    DeletesAreLawful(updated, bankId, deletes);
    LawfulThen(t, created, updated);
    LawfulThen(t, updated, DeleteAll(updated, bankId, deletes));
  }

  lemma {:induction false} EmbedsAreLawful(t: Tables, batch: seq<EmbeddedRow>, now: int)
    ensures Lawful(t, EmbeddedAll(t, batch, now))
    decreases |batch|
  {
    hide Lawful, Embedded;
    SameIsLawful(t);
    if batch == [] {
    } else {
      var n := |batch| - 1;
      EmbedsAreLawful(t, batch[..n], now);
      var before, row := EmbeddedAll(t, batch[..n], now), batch[n];
      EmbedIsLawful(before, row.id, row.bankId, row.v, now);
      LawfulThen(t, before, EmbeddedAll(t, batch, now));
    }
  }

  lemma EmbedIsLawful(t: Tables, id: int, bankId: string, v: Vector, now: int)
    ensures Lawful(t, Embedded(t, id, bankId, v, now))
  {}

  // ---------- The rebuild ----------

  /** Past the snapshot; inserting, with so many rows behind it; or given up. */
  datatype Phase = Snapped | Inserting(done: nat) | Failed

  datatype Rebuild = Rebuild(t: Tables, phase: Phase)

  /** Another write, or the rebuild's next transaction. */
  datatype Step = Other(after: Tables) | Clear | Insert

  /** What the rebuild read: the scope, the rows called for and their order. */
  datatype Snapshot = Snapshot(bank: Option<string>, called: map<int, Indexed>, rows: seq<int>)

  ghost predicate Taken(snap: Snapshot, t: Tables) {
    snap.called == Called(t, snap.bank) && Enumerates(snap.rows, snap.called)
  }

  function ChunkEnd(snap: Snapshot, done: nat): (end: nat)
    requires done < |snap.rows|
    ensures done < end <= |snap.rows|
  {
    if |snap.rows| - done < REBUILD_CHUNK then |snap.rows| else done + REBUILD_CHUNK
  }

  function Slice(snap: Snapshot, from: nat, end: nat): map<int, Indexed>
    requires from <= end <= |snap.rows|
  {
    map id | id in snap.called && id in snap.rows[from..end] :: snap.called[id]
  }

  predicate Meets(t: Tables, snap: Snapshot, from: nat, end: nat)
    requires from <= end <= |snap.rows|
  {
    exists k :: from <= k < end && snap.rows[k] in t.vectors
  }

  function Next(r: Rebuild, snap: Snapshot, e: Step): Rebuild {
    match (e, r.phase)
    case (Other(after), _) => r.(t := after)
    case (Clear, Snapped) => Rebuild(r.t.(vectors := Cleared(r.t.vectors, snap.bank)), Inserting(0))
    case (Insert, Inserting(done)) =>
      if done >= |snap.rows| then r
      else
        var end := ChunkEnd(snap, done);
        if Meets(r.t, snap, done, end) then r.(phase := Failed)
        else Rebuild(r.t.(vectors := r.t.vectors + Slice(snap, done, end)), Inserting(end))
    case _ => r
  }

  function After(t: Tables, snap: Snapshot, run: seq<Step>): Rebuild {
    if run == [] then Rebuild(t, Snapped) else Next(After(t, snap, run[..|run| - 1]), snap, run[|run| - 1])
  }

  ghost predicate IsRun(t: Tables, snap: Snapshot, run: seq<Step>) {
    run == []
    || (IsRun(t, snap, run[..|run| - 1])
        && (run[|run| - 1].Other? ==> Lawful(After(t, snap, run[..|run| - 1]).t, run[|run| - 1].after)))
  }

  predicate Finished(snap: Snapshot, r: Rebuild) { r.phase == Inserting(|snap.rows|) }

  /** Since the index was cleared, another write has changed something at `id`. */
  ghost predicate Touched(t: Tables, snap: Snapshot, run: seq<Step>, id: int) {
    if run == [] then false
    else
      var before := After(t, snap, run[..|run| - 1]);
      || Touched(t, snap, run[..|run| - 1], id)
      || (before.phase.Inserting? && run[|run| - 1].Other? && CellOf(run[|run| - 1].after, id) != CellOf(before.t, id))
  }

  /** The tables right after the clear. */
  ghost function AtClear(t: Tables, snap: Snapshot, run: seq<Step>): Tables {
    if run == [] then t
    else
      var before := After(t, snap, run[..|run| - 1]);
      if before.phase.Snapped? then After(t, snap, run).t else AtClear(t, snap, run[..|run| - 1])
  }

  predicate WentIn(snap: Snapshot, done: nat, id: int)
    requires done <= |snap.rows|
  {
    id in snap.rows[..done]
  }

  /** What holds at each rowid while rows are being inserted. */
  ghost predicate Tracks(t: Tables, snap: Snapshot, run: seq<Step>, id: int) {
    var r, at := After(t, snap, run), CellOf(AtClear(t, snap, run), id);
    var now := CellOf(r.t, id);
    && (r.phase.Snapped? ==> !Touched(t, snap, run, id))
    && (r.phase.Inserting? ==>
      && r.phase.done <= |snap.rows|
      && (Touched(t, snap, run, id) ==> Agrees(now))
      && (!Touched(t, snap, run, id) ==>
            if WentIn(snap, r.phase.done, id) then
              at.row.None? && id in snap.called && now == at.(row := Some(snap.called[id]))
            else now == at))
  }

  lemma {:induction false} EveryRunTracks(t: Tables, snap: Snapshot, run: seq<Step>, id: int)
    requires IsRun(t, snap, run) && Enumerates(snap.rows, snap.called)
    ensures Tracks(t, snap, run, id)
    decreases |run|
  {
    hide Cleared, Lawful, Enumerates;
    if run == [] {
    } else {
      var n := |run| - 1;
      EveryRunTracks(t, snap, run[..n], id);
      var before := After(t, snap, run[..n]);
      match run[n] {
        case Other(after) =>
          LawfulAt(before.t, after, id);
        case Clear =>
        case Insert =>
          if before.phase.Inserting? && before.phase.done < |snap.rows| {
            ChunkTracks(t, snap, run, id);
          }
      }
    }
  }

  lemma LawfulAt(t: Tables, after: Tables, id: int)
    requires Lawful(t, after)
    ensures CellOf(after, id) == CellOf(t, id) || Agrees(CellOf(after, id))
  {}

  /** A chunk that goes in: its rowids had no row. */
  lemma ChunkTracks(t: Tables, snap: Snapshot, run: seq<Step>, id: int)
    requires run != [] && run[|run| - 1].Insert? && Enumerates(snap.rows, snap.called)
    requires Tracks(t, snap, run[..|run| - 1], id)
    requires
      var before := After(t, snap, run[..|run| - 1]);
      before.phase.Inserting? && before.phase.done < |snap.rows|
    ensures Tracks(t, snap, run, id)
  {
    var before := After(t, snap, run[..|run| - 1]);
    var done := before.phase.done;
    var end := ChunkEnd(snap, done);
    if Meets(before.t, snap, done, end) {
      return;
    }
    SliceCell(snap, done, end, before.t, id);
    hide Slice, CellOf, Agrees, Enumerates;
    assert Touched(t, snap, run, id) == Touched(t, snap, run[..|run| - 1], id);
    assert AtClear(t, snap, run) == AtClear(t, snap, run[..|run| - 1]);
  }

  lemma SliceCell(snap: Snapshot, done: nat, end: nat, t: Tables, id: int)
    requires done <= end <= |snap.rows| && Enumerates(snap.rows, snap.called) && !Meets(t, snap, done, end)
    ensures
      var after := t.(vectors := t.vectors + Slice(snap, done, end));
      var now, was := CellOf(after, id), CellOf(t, id);
      && (id in snap.rows[..end] <==> id in snap.rows[..done] || id in snap.rows[done..end])
      && (if id in snap.rows[done..end] then
            was.row.None? && id in snap.called && !(id in snap.rows[..done]) && now == was.(row := Some(snap.called[id]))
          else now == was)
      && (Agrees(was) ==> id in snap.rows[done..end] ==> Agrees(now))
  {
    assert snap.rows[..end] == snap.rows[..done] + snap.rows[done..end];
    if id in snap.rows[done..end] {
      var k :| 0 <= k < end - done && snap.rows[done..end][k] == id;
      assert snap.rows[done + k] == id;
    }
  }

  // ---------- Where the index ends ----------

  /** An embedding that the clear took out of the index, that the snapshot does
      not hold, and that no other write has come near since. */
  ghost predicate Missed(t: Tables, snap: Snapshot, run: seq<Step>, id: int) {
    var at := CellOf(AtClear(t, snap, run), id);
    && !Agrees(at) && !(id in snap.called && snap.called[id].embedding == at.wanted.value)
    && !Touched(t, snap, run, id)
  }

  lemma EveryRowWentIn(snap: Snapshot, id: int)
    requires Enumerates(snap.rows, snap.called)
    ensures WentIn(snap, |snap.rows|, id) <==> id in snap.called
  {
    assert snap.rows[..|snap.rows|] == snap.rows;
  }

  /** A rebuild that gets through, with any writes between its transactions,
      leaves every embedding indexed exactly when it has missed none. */
  lemma EndsInStep(t: Tables, snap: Snapshot, run: seq<Step>)
    requires IsRun(t, snap, run) && Enumerates(snap.rows, snap.called) && Finished(snap, After(t, snap, run))
    ensures EmbeddingsIndexed(After(t, snap, run).t) <==> forall id :: !Missed(t, snap, run, id)
  {
    hide IsRun, After, AtClear, Touched, CellOf, Enumerates, WentIn, EmbeddingsIndexed;
    var end := After(t, snap, run).t;
    IndexedAgrees(end);
    forall id ensures Agrees(CellOf(end, id)) <==> !Missed(t, snap, run, id) {
      EveryRunTracks(t, snap, run, id);
      EveryRowWentIn(snap, id);
    }
  }

  lemma {:induction false} ClearedFirst(t: Tables, snap: Snapshot, run: seq<Step>)
    requires run != [] && run[0] == Clear
    ensures AtClear(t, snap, run) == t.(vectors := Cleared(t.vectors, snap.bank)) && !After(t, snap, run).phase.Snapped?
    decreases |run|
  {
    hide Cleared;
    var n := |run| - 1;
    if n == 0 {
      assert run[..n] == [];
    } else {
      ClearedFirst(t, snap, run[..n]);
    }
  }

  /** When nothing comes between the snapshot and the clear, what is missed is
      what has strayed into the scope from another bank, if no write repairs it. */
  lemma MissedWhenQuiet(t: Tables, snap: Snapshot, run: seq<Step>, id: int)
    requires run != [] && run[0] == Clear && Taken(snap, t) && EmbeddingsIndexed(t)
    ensures Missed(t, snap, run, id) <==> Strayed(t, snap.bank, id) && !Touched(t, snap, run, id)
  {
    hide Touched, After, Enumerates;
    ClearedFirst(t, snap, run);
  }

  // ---------- When it fails ----------

  /** A row stands at a rowid that the snapshot calls for: one that another write
      put there, or one of another bank that the clear has left. */
  ghost predicate Blocked(t: Tables, snap: Snapshot, run: seq<Step>, id: int) {
    if Touched(t, snap, run, id) then id in After(t, snap, run).t.vectors else id in AtClear(t, snap, run).vectors
  }

  lemma {:induction false} KeptIsOutside(t: Tables, snap: Snapshot, run: seq<Step>, id: int)
    requires !After(t, snap, run).phase.Snapped? && id in AtClear(t, snap, run).vectors
    ensures !InScope(snap.bank, AtClear(t, snap, run).vectors[id].bankId)
    decreases |run|
  {
    hide InScope;
    var before := After(t, snap, run[..|run| - 1]);
    if before.phase.Snapped? {
    } else {
      KeptIsOutside(t, snap, run[..|run| - 1], id);
    }
  }

  /** The next chunk fails exactly when one of its rowids is blocked. Where no
      other write has come near, that takes a row of another bank, so a rebuild
      of everything fails only by another write. */
  lemma FailsExactly(t: Tables, snap: Snapshot, run: seq<Step>)
    requires IsRun(t, snap, run) && Enumerates(snap.rows, snap.called)
    requires var phase := After(t, snap, run).phase; phase.Inserting? && phase.done < |snap.rows|
    ensures
      var r := After(t, snap, run);
      var end := ChunkEnd(snap, r.phase.done);
      && (Next(r, snap, Insert).phase.Failed? <==>
            exists k :: r.phase.done <= k < end && Blocked(t, snap, run, snap.rows[k]))
      && (forall k :: r.phase.done <= k < end && Blocked(t, snap, run, snap.rows[k]) && !Touched(t, snap, run, snap.rows[k]) ==>
            && snap.rows[k] in AtClear(t, snap, run).vectors
            && !InScope(snap.bank, AtClear(t, snap, run).vectors[snap.rows[k]].bankId))
  {
    hide IsRun, After, AtClear, Touched, InScope;
    var r := After(t, snap, run);
    var end := ChunkEnd(snap, r.phase.done);
    forall k | r.phase.done <= k < end
      ensures Blocked(t, snap, run, snap.rows[k]) <==> snap.rows[k] in r.t.vectors
    {
      EveryRunTracks(t, snap, run, snap.rows[k]);
      NotInYet(snap, r.phase.done, k);
    }
    forall k | r.phase.done <= k < end && Blocked(t, snap, run, snap.rows[k]) && !Touched(t, snap, run, snap.rows[k])
      ensures !InScope(snap.bank, AtClear(t, snap, run).vectors[snap.rows[k]].bankId)
    {
      KeptIsOutside(t, snap, run, snap.rows[k]);
    }
  }

  lemma NotInYet(snap: Snapshot, done: nat, k: nat)
    requires Enumerates(snap.rows, snap.called) && done <= k < |snap.rows|
    ensures !WentIn(snap, done, snap.rows[k])
  {}

  // ---------- Orphans ----------

  ghost predicate Tidy(t: Tables, after: Tables) {
    forall id :: id in after.vectors && id !in after.nodes ==> id in t.vectors && id !in t.nodes
  }

  /** Only setting a vector for a node that has gone is not. */
  lemma StatementsAreTidy(t: Tables, id: int, node: Node, text: string, bankId: string, v: Vector, now: int)
    ensures Tidy(t, Inserted(t, id, node)) && Tidy(t, Deleted(t, id)) && Tidy(t, TextUpdated(t, id, text, now))
    ensures NoOrphans(t) ==> (Tidy(t, Embedded(t, id, bankId, v, now)) <==> id in t.nodes)
  {
    if NoOrphans(t) && Tidy(t, Embedded(t, id, bankId, v, now)) {
      assert id in Embedded(t, id, bankId, v, now).vectors;
    }
  }

  ghost predicate TidyRun(t: Tables, snap: Snapshot, run: seq<Step>) {
    forall j :: 0 <= j < |run| && run[j].Other? ==> Tidy(After(t, snap, run[..j]).t, run[j].after)
  }

  /** Event `j` inserts a chunk with a row whose node has gone. */
  ghost predicate LateRow(t: Tables, snap: Snapshot, run: seq<Step>, j: nat)
    requires j < |run|
  {
    var r := After(t, snap, run[..j]);
    && run[j].Insert? && r.phase.Inserting? && r.phase.done < |snap.rows|
    && var end := ChunkEnd(snap, r.phase.done);
       && !Meets(r.t, snap, r.phase.done, end)
       && exists k :: r.phase.done <= k < end && snap.rows[k] !in r.t.nodes
  }

  lemma SliceOrphans(snap: Snapshot, done: nat, end: nat, t: Tables)
    requires done <= end <= |snap.rows| && Enumerates(snap.rows, snap.called) && NoOrphans(t)
    ensures NoOrphans(t.(vectors := t.vectors + Slice(snap, done, end))) <==> forall k :: done <= k < end ==> snap.rows[k] in t.nodes
  {
    var after := t.(vectors := t.vectors + Slice(snap, done, end));
    if NoOrphans(after) {
      forall k | done <= k < end ensures snap.rows[k] in t.nodes {
        assert snap.rows[done..end][k - done] == snap.rows[k];
        assert snap.rows[k] in Slice(snap, done, end);
      }
    }
    if forall k :: done <= k < end ==> snap.rows[k] in t.nodes {
      forall id | id in after.vectors ensures id in t.nodes {
        if id in Slice(snap, done, end) {
          var k :| 0 <= k < end - done && snap.rows[done..end][k] == id;
          assert snap.rows[done + k] == id;
        }
      }
    }
  }

  /** One step makes an orphan exactly if it inserts such a row. */
  lemma StepOrphans(t: Tables, snap: Snapshot, run: seq<Step>)
    requires run != [] && Enumerates(snap.rows, snap.called) && TidyRun(t, snap, run)
    requires NoOrphans(After(t, snap, run[..|run| - 1]).t)
    ensures NoOrphans(After(t, snap, run).t) <==> !LateRow(t, snap, run, |run| - 1)
  {
    var n := |run| - 1;
    var before := After(t, snap, run[..n]);
    var phase := before.phase;
    hide Enumerates, Slice, Meets;
    if run[n].Insert? && phase.Inserting? && phase.done < |snap.rows| {
      SliceOrphans(snap, phase.done, ChunkEnd(snap, phase.done), before.t);
    } else if run[n].Other? {
      assert Tidy(before.t, run[n].after);
    }
  }

  /** No state of the run has an orphan exactly when every node was still there
      when its row went in. */
  lemma {:induction false} OrphansExactlyLate(t: Tables, snap: Snapshot, run: seq<Step>)
    requires Enumerates(snap.rows, snap.called) && TidyRun(t, snap, run) && NoOrphans(t)
    ensures (forall j :: 0 <= j <= |run| ==> NoOrphans(After(t, snap, run[..j]).t))
            <==> forall j :: 0 <= j < |run| ==> !LateRow(t, snap, run, j)
    decreases |run|
  {
    if run == [] {
      assert run[..0] == [];
    } else {
      var n := |run| - 1;
      hide After, NoOrphans, Enumerates, LateRow;
      PrefixesAgree(t, snap, run);
      OrphansExactlyLate(t, snap, run[..n]);
      assert run[..n + 1] == run;
      if NoOrphans(After(t, snap, run[..n]).t) {
        StepOrphans(t, snap, run);
      }
      assert run[..n][..n] == run[..n];
      assert forall j :: 0 <= j <= n ==> run[..n][..j] == run[..j];
    }
  }

  lemma PrefixesAgree(t: Tables, snap: Snapshot, run: seq<Step>)
    requires run != []
    ensures
      var n := |run| - 1;
      && (TidyRun(t, snap, run) ==> TidyRun(t, snap, run[..n]))
      && forall j :: 0 <= j < n ==> (LateRow(t, snap, run[..n], j) <==> LateRow(t, snap, run, j))
  {
    hide After, Tidy, Meets;
    var n := |run| - 1;
    forall j | 0 <= j < n ensures run[..n][..j] == run[..j] && run[..n][j] == run[j] {}
    if TidyRun(t, snap, run) {
      forall j | 0 <= j < n && run[..n][j].Other? ensures Tidy(After(t, snap, run[..n][..j]).t, run[..n][j].after) {
        assert Tidy(After(t, snap, run[..j]).t, run[j].after);
      }
    }
  }

  // ---------- Alone ----------

  /** With no other write in between, the chunks so far are in the cleared index:
      the steps are those of the method that runs alone. */
  lemma {:induction false} AloneIsExact(t: Tables, snap: Snapshot, run: seq<Step>)
    requires Taken(snap, t) && run != [] && run[0] == Clear && forall j :: 0 <= j < |run| ==> !run[j].Other?
    ensures
      var r := After(t, snap, run);
      && !r.phase.Snapped?
      && (r.phase.Inserting? ==>
            && r.phase.done <= |snap.rows|
            && r.t == t.(vectors := Cleared(t.vectors, snap.bank) + Prefix(snap.called, snap.rows, r.phase.done))
            && forall k :: 0 <= k < r.phase.done ==> !Clash(t, snap.bank, snap.rows[k]))
      && (Finished(snap, r) ==> r.t == Rebuilt(t, snap.bank))
      && (r.phase.Failed? ==> exists k :: 0 <= k < |snap.rows| && Clash(t, snap.bank, snap.rows[k]))
    decreases |run|
  {
    hide Cleared, Called, Enumerates;
    PrefixEnds(snap.called, snap.rows);
    var n := |run| - 1;
    if n == 0 {
      assert run[..0] == [];
      NoneYet(t, snap);
    } else {
      AloneIsExact(t, snap, run[..n]);
      var before := After(t, snap, run[..n]);
      if before.phase.Inserting? && before.phase.done < |snap.rows| {
        AloneStep(t, snap, before, run[n]);
      }
    }
  }

  lemma NoneYet(t: Tables, snap: Snapshot)
    requires Taken(snap, t)
    ensures Cleared(t.vectors, snap.bank) + Prefix(snap.called, snap.rows, 0) == Cleared(t.vectors, snap.bank)
  {}

  lemma AloneStep(t: Tables, snap: Snapshot, r: Rebuild, e: Step)
    requires Taken(snap, t) && !e.Other? && r.phase.Inserting? && r.phase.done < |snap.rows|
    requires r.t == t.(vectors := Cleared(t.vectors, snap.bank) + Prefix(snap.called, snap.rows, r.phase.done))
    requires forall k :: 0 <= k < r.phase.done ==> !Clash(t, snap.bank, snap.rows[k])
    ensures
      var after := Next(r, snap, e);
      && !after.phase.Snapped?
      && (after.phase.Inserting? ==>
            && after.phase.done <= |snap.rows|
            && after.t == t.(vectors := Cleared(t.vectors, snap.bank) + Prefix(snap.called, snap.rows, after.phase.done))
            && forall k :: 0 <= k < after.phase.done ==> !Clash(t, snap.bank, snap.rows[k]))
      && (after.phase.Failed? ==> exists k :: 0 <= k < |snap.rows| && Clash(t, snap.bank, snap.rows[k]))
  {
    if e.Insert? {
      var done := r.phase.done;
      var end := ChunkEnd(snap, done);
      forall k | done <= k < end
        ensures snap.rows[k] in r.t.vectors <==> Clash(t, snap.bank, snap.rows[k])
      {
        NotInYet(snap, done, k);
      }
      hide Cleared, Called, Enumerates;
      SlicesJoin(snap, done, end);
    }
  }

  lemma SlicesJoin(snap: Snapshot, done: nat, end: nat)
    requires done <= end <= |snap.rows|
    ensures forall kept: map<int, Indexed> ::
              (kept + Prefix(snap.called, snap.rows, done)) + Slice(snap, done, end) == kept + Prefix(snap.called, snap.rows, end)
  {
    assert snap.rows[..end] == snap.rows[..done] + snap.rows[done..end];
  }

  // ---------- What other writes can do ----------

  /** Setting the vector of a node of the first chunk, after the clear, makes the
      rebuild fail, whatever was in the index. */
  lemma EmbedAfterClearFails(t: Tables, snap: Snapshot, k: nat, bankId: string, v: Vector, now: int)
    requires Taken(snap, t) && k < |snap.rows| && k < REBUILD_CHUNK
    ensures
      var cleared := After(t, snap, [Clear]).t;
      var run := [Clear, Other(Embedded(cleared, snap.rows[k], bankId, v, now)), Insert];
      IsRun(t, snap, run) && After(t, snap, run).phase.Failed?
  {
    hide Enumerates, Called, Cleared;
    var cleared := After(t, snap, [Clear]).t;
    var run := [Clear, Other(Embedded(cleared, snap.rows[k], bankId, v, now)), Insert];
    ThreeSteps(t, snap, run[0], run[1], run[2]);
    EmbedIsLawful(cleared, snap.rows[k], bankId, v, now);
    assert snap.rows[k] in After(t, snap, [run[0], run[1]]).t.vectors;
  }

  lemma ThreeSteps(t: Tables, snap: Snapshot, a: Step, b: Step, c: Step)
    ensures After(t, snap, []) == Rebuild(t, Snapped)
    ensures After(t, snap, [a]) == Next(Rebuild(t, Snapped), snap, a)
    ensures After(t, snap, [a, b]) == Next(After(t, snap, [a]), snap, b)
    ensures After(t, snap, [a, b, c]) == Next(After(t, snap, [a, b]), snap, c)
    ensures IsRun(t, snap, [a, b, c]) <==>
              && (a.Other? ==> Lawful(t, a.after)) && (b.Other? ==> Lawful(After(t, snap, [a]).t, b.after))
              && (c.Other? ==> Lawful(After(t, snap, [a, b]).t, c.after))
  {
    hide Lawful, Next;
    assert [a][..0] == [] && [a, b][..1] == [a] && [a, b, c][..2] == [a, b];
    assert IsRun(t, snap, []);
    assert IsRun(t, snap, [a]) <==> (a.Other? ==> Lawful(t, a.after));
    assert IsRun(t, snap, [a, b]) <==> IsRun(t, snap, [a]) && (b.Other? ==> Lawful(After(t, snap, [a]).t, b.after));
  }

  /** A vector set between the snapshot and the clear, for a node that had none
      or another, is lost: the rebuild gets through and the index lacks it. */
  lemma EmbedBeforeClearIsLost(t: Tables, snap: Snapshot, id: int, v: Vector, now: int)
    requires Taken(snap, t) && |snap.rows| <= REBUILD_CHUNK && (forall k :: !Clash(t, snap.bank, k))
    requires id in t.nodes && InScope(snap.bank, t.nodes[id].bankId) && t.nodes[id].embedding != Some(v)
    ensures
      var run := [Other(Embedded(t, id, t.nodes[id].bankId, v, now)), Clear, Insert];
      && IsRun(t, snap, run) && Finished(snap, After(t, snap, run))
      && !EmbeddingsIndexed(After(t, snap, run).t)
  {
    var embedded := Embedded(t, id, t.nodes[id].bankId, v, now);
    var run := [Other(embedded), Clear, Insert];
    ThreeSteps(t, snap, run[0], run[1], run[2]);
    EmbedIsLawful(t, id, t.nodes[id].bankId, v, now);
    ClearedCells(t, snap, embedded, id);
    OneChunk(snap, After(t, snap, [run[0], run[1]]));
    var end := After(t, snap, run).t;
    assert end.nodes[id].embedding == Some(v);
    hide Enumerates, Called;
    assert id in end.vectors ==> id in snap.called && end.vectors[id] == snap.called[id];
  }

  lemma ClearedCells(t: Tables, snap: Snapshot, embedded: Tables, id: int)
    requires Taken(snap, t) && (forall k :: !Clash(t, snap.bank, k)) && id in t.nodes && InScope(snap.bank, t.nodes[id].bankId)
    requires embedded.vectors.Keys == t.vectors.Keys + {id} && id in embedded.vectors
    requires embedded.vectors[id].bankId == t.nodes[id].bankId
    requires forall k :: k in t.vectors && k != id ==> embedded.vectors[k] == t.vectors[k]
    ensures
      var cleared := Cleared(embedded.vectors, snap.bank);
      id !in cleared && forall k :: 0 <= k < |snap.rows| ==> snap.rows[k] !in cleared
  {
    forall k | 0 <= k < |snap.rows| ensures snap.rows[k] !in Cleared(embedded.vectors, snap.bank) {
      assert !Clash(t, snap.bank, snap.rows[k]);
    }
  }

  /** A single chunk, into an index that has none of its rowids. */
  lemma OneChunk(snap: Snapshot, r: Rebuild)
    requires r.phase == Inserting(0) && |snap.rows| <= REBUILD_CHUNK && Enumerates(snap.rows, snap.called)
    requires forall k :: 0 <= k < |snap.rows| ==> snap.rows[k] !in r.t.vectors
    ensures
      var after := Next(r, snap, Insert);
      Finished(snap, after) && after.t == r.t.(vectors := r.t.vectors + snap.called)
  {
    assert snap.rows[0..|snap.rows|] == snap.rows;
    var slice := Slice(snap, 0, |snap.rows|);
    forall id | id in snap.called ensures id in slice {
      assert id in snap.rows;
    }
    assert slice == snap.called;
    if |snap.rows| == 0 {
      assert snap.called.Keys == {};
    }
  }

  /** A node of the snapshot deleted before its chunk comes back as an orphan,
      which gets a later create at that rowid refused. */
  lemma DeleteLeavesOrphan(t: Tables, snap: Snapshot, id: int)
    requires Taken(snap, t) && |snap.rows| <= REBUILD_CHUNK && (forall k :: !Clash(t, snap.bank, k)) && id in snap.called
    ensures
      var run := [Other(Deleted(t, id)), Clear, Insert];
      && IsRun(t, snap, run) && Finished(snap, After(t, snap, run))
      && !NoOrphans(After(t, snap, run).t)
  {
    var run := [Other(Deleted(t, id)), Clear, Insert];
    ThreeSteps(t, snap, run[0], run[1], run[2]);
    StatementsAreLawful(t, id, t.nodes[id], "", "", [], 0);
    forall k | 0 <= k < |snap.rows| ensures snap.rows[k] !in Cleared(Deleted(t, id).vectors, snap.bank) {
      assert !Clash(t, snap.bank, snap.rows[k]);
    }
    OneChunk(snap, After(t, snap, [run[0], run[1]]));
    hide Enumerates, Called;
    var end := After(t, snap, run).t;
    assert id in end.vectors && id !in end.nodes;
  }
}
