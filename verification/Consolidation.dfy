/**
 Consolidation as steps on the tables: creating an observation with its
 sources, merging two, applying a plan; and what these leave alone.
 */
module Consolidation {
  import opened Wrappers
  import opened Tables

  datatype Error = Invalid | NotFound | Storage

  datatype NewObservation = NewObservation(text: string, embedding: Vector, sourceIds: seq<int>)

  datatype ObservationUpdate = ObservationUpdate(uuid: string, text: string, sourceIds: seq<int>)

  // ---------- Naming by uuid ----------

  /** Row `id` is the observation of this bank with this uuid. */
  predicate Names(t: Tables, bankId: string, uuid: string, id: int) {
    id in t.nodes && t.nodes[id].uuid == uuid && t.nodes[id].bankId == bankId && t.nodes[id].factType == Observation
  }

  ghost function Find(t: Tables, bankId: string, uuid: string): (r: Option<int>)
    ensures r.Some? ==> Names(t, bankId, uuid, r.value)
    ensures r.None? ==> forall id :: !Names(t, bankId, uuid, id)
  {
    if exists id :: Names(t, bankId, uuid, id) then
      var id :| Names(t, bankId, uuid, id);
      Some(id)
    else None
  }

  lemma FindIsTheOne(t: Tables, bankId: string, uuid: string, id: int)
    requires UuidsUnique(t) && Names(t, bankId, uuid, id)
    ensures Find(t, bankId, uuid) == Some(id)
  {}

  // ---------- Creating ----------

  function FreshObservation(uuid: string, bankId: string, c: NewObservation, now: int): Node {
    Node(uuid, bankId, Observation, c.text, Some(c.embedding), 0, None, None, now, now)
  }

  /** Node row and index row, not linked yet. */
  function Placed(t: Tables, id: int, uuid: string, bankId: string, c: NewObservation, now: int): Tables {
    Inserted(t, id, FreshObservation(uuid, bankId, c, now)).(vectors := t.vectors[id := Indexed(bankId, c.embedding)])
  }

  function Created(t: Tables, id: int, uuid: string, bankId: string, c: NewObservation, now: int): Tables {
    Recounted(LinkedAll(Placed(t, id, uuid, bankId, c, now), id, bankId, c.sourceIds, now), id)
  }

  /** Why a create is refused: a vector of the wrong width, an unknown bank, a
      uuid in use, or an index row left at the new rowid. */
  ghost function CreateError(t: Tables, bankId: string, uuid: string, c: NewObservation): Option<Error> {
    if |c.embedding| != EMBEDDING_DIM then Some(Invalid)
    else if bankId !in t.banks || UuidTaken(t, uuid) || NewRowid(t.nodes) in t.vectors then Some(Storage)
    else None
  }

  ghost function Create(t: Tables, bankId: string, uuid: string, c: NewObservation, now: int): Result<Tables, Error> {
    match CreateError(t, bankId, uuid, c)
    case Some(e) => Err(e)
    case None => Ok(Created(t, NewRowid(t.nodes), uuid, bankId, c, now))
  }

  lemma PlacedIsValidBut(t: Tables, id: int, uuid: string, bankId: string, c: NewObservation, now: int)
    requires Valid(t) && id !in t.nodes && !UuidTaken(t, uuid)
    ensures ValidBut(Placed(t, id, uuid, bankId, c, now), id)
  {
    hide SourcesOf;
  }

  lemma CreatedIsValid(t: Tables, id: int, uuid: string, bankId: string, c: NewObservation, now: int)
    requires Valid(t) && id !in t.nodes && !UuidTaken(t, uuid)
    ensures Valid(Created(t, id, uuid, bankId, c, now))
  {
    hide Valid, ValidBut, LinkedAll, Recounted, UuidTaken;
    PlacedIsValidBut(t, id, uuid, bankId, c, now);
    LinkAllKeeps(Placed(t, id, uuid, bankId, c, now), id, bankId, c.sourceIds, now);
    RecountKeeps(LinkedAll(Placed(t, id, uuid, bankId, c, now), id, bankId, c.sourceIds, now), id);
  }

  lemma {:induction false} LinkedKeys(t: Tables, observation: int, bankId: string, sources: seq<int>, now: int)
    ensures
      var after := LinkedAll(t, observation, bankId, sources, now);
      && after.nodes == t.nodes && after.banks == t.banks && after.vectors == t.vectors
      && forall k: (int, int) :: k in after.sources <==>
           k in t.sources || (k.0 == observation && k.1 in sources && k.1 in t.nodes && t.nodes[k.1].bankId == bankId)
    decreases |sources|
  {
    if sources == [] {
    } else {
      LinkedKeys(t, observation, bankId, sources[..|sources| - 1], now);
    }
  }

  /** Exactly the named nodes of the bank become sources. */
  lemma LinkedSources(t: Tables, observation: int, bankId: string, sources: seq<int>, now: int, s: int)
    ensures s in SourcesOf(LinkedAll(t, observation, bankId, sources, now).sources, observation)
            <==> s in SourcesOf(t.sources, observation) || (s in sources && s in t.nodes && t.nodes[s].bankId == bankId)
  {
    LinkedKeys(t, observation, bankId, sources, now);
    SourceKey(t.sources, observation, s);
    SourceKey(LinkedAll(t, observation, bankId, sources, now).sources, observation, s);
  }

  lemma SourceKey(sources: map<(int, int), int>, observation: int, s: int)
    ensures s in SourcesOf(sources, observation) <==> (observation, s) in sources
  {
    if s in SourcesOf(sources, observation) {
      var k :| k in sources && k.0 == observation && k.1 == s;
      assert k == (observation, s);
    }
  }

  /** The sources of a created observation are the named nodes of its bank,
      and itself when the rowid it got was named: a source deleted since it
      was read, whose rowid came back. */
  lemma CreatedSources(t: Tables, id: int, uuid: string, bankId: string, c: NewObservation, now: int, s: int)
    requires KeysHold(t) && id !in t.nodes
    ensures s in SourcesOf(Created(t, id, uuid, bankId, c, now).sources, id)
            <==> s in c.sourceIds && (s == id || (s in t.nodes && t.nodes[s].bankId == bankId))
  {
    hide LinkedAll, SourcesOf;
    var placed := Placed(t, id, uuid, bankId, c, now);
    LinkedSources(placed, id, bankId, c.sourceIds, now, s);
    SourceKey(t.sources, id, s);
  }

  // ---------- Merging ----------

  /** What `drop` is folded into `keep` leaves. */
  function Folded(t: Tables, keep: int, drop: int, text: string, now: int): Tables
    requires keep in t.nodes
  {
    var united := Union(t, keep, drop);
    var written := if t.nodes[keep].text != text then TextUpdated(united, keep, text, now) else united;
    Recounted(Deleted(written, drop), keep)
  }

  ghost function Merge(t: Tables, bankId: string, keepUuid: string, dropUuid: string, text: string, now: int): Result<Tables, Error> {
    var keep, drop := Find(t, bankId, keepUuid), Find(t, bankId, dropUuid);
    if keep.None? || drop.None? then Err(NotFound)
    // Told to drop what it keeps, the recount finds no row.
    else if keep == drop then Err(Storage)
    else Ok(Folded(t, keep.value, drop.value, text, now))
  }

  lemma FoldedIsValid(t: Tables, keep: int, drop: int, text: string, now: int)
    requires Valid(t) && keep in t.nodes && drop in t.nodes && keep != drop && t.nodes[keep].bankId == t.nodes[drop].bankId
    ensures Valid(Folded(t, keep, drop, text, now))
  {
    hide Valid, ValidBut, TextUpdated, Deleted, Recounted;
    UnionKeeps(t, keep, drop);
    var united := Union(t, keep, drop);
    TextKeepsBut(united, keep, text, now);
    var written := if t.nodes[keep].text != text then TextUpdated(united, keep, text, now) else united;
    assert written.nodes.Keys == t.nodes.Keys by {
      TextKeepsKeys(united, keep, text, now);
    }
    DeleteKeepsBut(written, keep, drop);
    RecountKeeps(Deleted(written, drop), keep);
  }

  lemma TextKeepsKeys(t: Tables, id: int, text: string, now: int)
    ensures TextUpdated(t, id, text, now).nodes.Keys == t.nodes.Keys
    ensures id in t.nodes ==> TextUpdated(t, id, text, now).nodes[id].bankId == t.nodes[id].bankId
    ensures TextUpdated(t, id, text, now).sources == t.sources
  {}

  /** The survivor has the sources of both, less the observation that went,
      and says so; its text is the merged one, and its vector survives exactly
      when the text did not change. */
  lemma FoldedUnites(t: Tables, keep: int, drop: int, text: string, now: int, s: int)
    requires Valid(t) && keep in t.nodes && drop in t.nodes && keep != drop
    ensures
      var after := Folded(t, keep, drop, text, now);
      && keep in after.nodes && drop !in after.nodes
      && after.nodes[keep].text == text && after.nodes[keep].uuid == t.nodes[keep].uuid
      && after.nodes[keep].proofCount == |SourcesOf(after.sources, keep)|
      && after.nodes[keep].embedding == (if t.nodes[keep].text == text then t.nodes[keep].embedding else None)
      && (s in SourcesOf(after.sources, keep)
          <==> s != drop && (s in SourcesOf(t.sources, keep) || s in SourcesOf(t.sources, drop)))
  {
    hide SourcesOf, Valid;
    var united := Union(t, keep, drop);
    var written := if t.nodes[keep].text != text then TextUpdated(united, keep, text, now) else united;
    SourceKey(Folded(t, keep, drop, text, now).sources, keep, s);
    SourceKey(t.sources, keep, s);
    SourceKey(t.sources, drop, s);
    UnionKey(t, keep, drop, s);
  }

  lemma UnionKey(t: Tables, keep: int, drop: int, s: int)
    ensures (keep, s) in Union(t, keep, drop).sources <==> (keep, s) in t.sources || (drop, s) in t.sources
  {
    if (drop, s) in t.sources {
      assert (drop, s).0 == drop && (keep, (drop, s).1) == (keep, s);
    }
  }

  // ---------- A plan ----------

  ghost function CreateAll(t: Tables, bankId: string, creates: seq<NewObservation>, uuids: seq<string>, now: int): Result<Tables, Error>
    requires |uuids| == |creates|
  {
    if creates == [] then Ok(t)
    else
      var n := |creates| - 1;
      match CreateAll(t, bankId, creates[..n], uuids[..n], now)
      case Err(e) => Err(e)
      case Ok(u) => Create(u, bankId, uuids[n], creates[n], now)
  }

  function Updated(t: Tables, bankId: string, id: int, u: ObservationUpdate, now: int): Tables
    requires id in t.nodes
  {
    var written := if t.nodes[id].text != u.text then TextUpdated(t, id, u.text, now) else t;
    Recounted(LinkedAll(written, id, bankId, u.sourceIds, now), id)
  }

  /** An update whose target has gone is skipped. */
  ghost function Update(t: Tables, bankId: string, u: ObservationUpdate, now: int): Tables {
    match Find(t, bankId, u.uuid)
    case Some(id) => Updated(t, bankId, id, u, now)
    case None => t
  }

  ghost function UpdateAll(t: Tables, bankId: string, updates: seq<ObservationUpdate>, now: int): Tables {
    if updates == [] then t
    else Update(UpdateAll(t, bankId, updates[..|updates| - 1], now), bankId, updates[|updates| - 1], now)
  }

  ghost function Delete(t: Tables, bankId: string, uuid: string): Tables {
    match Find(t, bankId, uuid)
    case Some(id) => Deleted(t, id)
    case None => t
  }

  ghost function DeleteAll(t: Tables, bankId: string, deletes: seq<string>): Tables {
    if deletes == [] then t
    else Delete(DeleteAll(t, bankId, deletes[..|deletes| - 1]), bankId, deletes[|deletes| - 1])
  }

  ghost function Plan(t: Tables, bankId: string, creates: seq<NewObservation>, uuids: seq<string>,
                      updates: seq<ObservationUpdate>, deletes: seq<string>, now: int): Result<Tables, Error>
    requires |uuids| == |creates|
  {
    match CreateAll(t, bankId, creates, uuids, now)
    case Err(e) => Err(e)
    case Ok(u) => Ok(DeleteAll(UpdateAll(u, bankId, updates, now), bankId, deletes))
  }

  lemma UpdateIsValid(t: Tables, bankId: string, u: ObservationUpdate, now: int)
    requires Valid(t)
    ensures Valid(Update(t, bankId, u, now))
  {
    hide Valid, ValidBut, TextUpdated, LinkedAll, Recounted, Find;
    match Find(t, bankId, u.uuid) {
      case None =>
      case Some(id) =>
        ValidIsValidBut(t, id);
        TextKeepsBut(t, id, u.text, now);
        TextKeepsKeys(t, id, u.text, now);
        var written := if t.nodes[id].text != u.text then TextUpdated(t, id, u.text, now) else t;
        LinkAllKeeps(written, id, bankId, u.sourceIds, now);
        RecountKeeps(LinkedAll(written, id, bankId, u.sourceIds, now), id);
    }
  }

  lemma CreateIsValid(t: Tables, bankId: string, uuid: string, c: NewObservation, now: int)
    requires Valid(t) && Create(t, bankId, uuid, c, now).Ok?
    ensures Valid(Create(t, bankId, uuid, c, now).value)
  {
    hide Valid, UuidTaken, Created, NextRowid;
    CreatedIsValid(t, NewRowid(t.nodes), uuid, bankId, c, now);
  }

  lemma DeleteIsValid(t: Tables, bankId: string, uuid: string)
    requires Valid(t)
    ensures Valid(Delete(t, bankId, uuid))
  {
    hide Valid, Deleted, Find;
    match Find(t, bankId, uuid) {
      case None =>
      case Some(id) => DeleteKeeps(t, id);
    }
  }

  // ---------- What is left alone ----------

  /** The row was, when the step began, an observation of the bank that the
      step names. */
  predicate Named(t: Tables, bankId: string, named: set<string>, id: int) {
    id in t.nodes && t.nodes[id].bankId == bankId && t.nodes[id].factType == Observation && t.nodes[id].uuid in named
  }

  predicate SameRow(a: Node, b: Node) {
    a.(supersededBy := b.supersededBy, proofCount := b.proofCount) == b
  }

  predicate SameName(a: Node, b: Node) {
    a.uuid == b.uuid && a.bankId == b.bankId && a.factType == b.factType
  }

  /** Every row that is not named is there as it was, but for a pointer or a
      source that a named row took with it; and every row that is there was
      there, or was created as an observation of the bank. */
  ghost predicate OnlyNamed(before: Tables, after: Tables, bankId: string, named: set<string>) {
    && (forall id :: id in before.nodes && !Named(before, bankId, named, id) ==>
          && id in after.nodes && SameRow(before.nodes[id], after.nodes[id])
          && PointerKept(before, after, bankId, named, id))
    && (forall k: (int, int) :: k in before.sources && !Named(before, bankId, named, k.0) && !Named(before, bankId, named, k.1) ==>
          k in after.sources)
    && (forall k: (int, int) :: k in after.sources && k.0 in before.nodes && !Named(before, bankId, named, k.0) ==>
          k in before.sources)
    && (forall id :: id in after.nodes ==>
          || (id in before.nodes && SameName(before.nodes[id], after.nodes[id]))
          || (after.nodes[id].bankId == bankId && after.nodes[id].factType == Observation))
  }

  ghost predicate PointerKept(before: Tables, after: Tables, bankId: string, named: set<string>, id: int)
    requires id in before.nodes && id in after.nodes
  {
    var was, now := before.nodes[id].supersededBy, after.nodes[id].supersededBy;
    now == was || (now.None? && was.Some? && Named(before, bankId, named, was.value))
  }

  lemma OnlyNamedHere(t: Tables, bankId: string, named: set<string>)
    ensures OnlyNamed(t, t, bankId, named)
  {}

  /** Two steps that touch only what they name, one after the other. */
  lemma OnlyNamedThen(a: Tables, b: Tables, c: Tables, bankId: string, named: set<string>)
    requires SupersededLater(a) && KeysHold(a) && KeysHold(b)
    requires OnlyNamed(a, b, bankId, named) && OnlyNamed(b, c, bankId, named)
    ensures OnlyNamed(a, c, bankId, named)
  {
    forall id | id in a.nodes && !Named(a, bankId, named, id)
      ensures !Named(b, bankId, named, id) && id in b.nodes
    {}
    ThenSources(a, b, c, bankId, named);
    ThenRows(a, b, c, bankId, named);
  }

  lemma ThenSources(a: Tables, b: Tables, c: Tables, bankId: string, named: set<string>)
    requires KeysHold(a) && KeysHold(b)
    requires OnlyNamed(a, b, bankId, named) && OnlyNamed(b, c, bankId, named)
    ensures forall k: (int, int) :: k in a.sources && !Named(a, bankId, named, k.0) && !Named(a, bankId, named, k.1) ==> k in c.sources
    ensures forall k: (int, int) :: k in c.sources && k.0 in a.nodes && !Named(a, bankId, named, k.0) ==> k in a.sources
  {
    forall id | id in a.nodes && !Named(a, bankId, named, id)
      ensures !Named(b, bankId, named, id) && id in b.nodes
    {}
  }

  lemma ThenRows(a: Tables, b: Tables, c: Tables, bankId: string, named: set<string>)
    requires SupersededLater(a)
    requires OnlyNamed(a, b, bankId, named) && OnlyNamed(b, c, bankId, named)
    ensures forall id :: id in a.nodes && !Named(a, bankId, named, id) ==>
      id in c.nodes && SameRow(a.nodes[id], c.nodes[id]) && PointerKept(a, c, bankId, named, id)
    ensures forall id :: id in c.nodes ==>
      || (id in a.nodes && SameName(a.nodes[id], c.nodes[id]))
      || (c.nodes[id].bankId == bankId && c.nodes[id].factType == Observation)
  {
    forall id | id in a.nodes && !Named(a, bankId, named, id)
      ensures id in c.nodes && SameRow(a.nodes[id], c.nodes[id]) && PointerKept(a, c, bankId, named, id)
    {
      assert id in b.nodes && !Named(b, bankId, named, id);
      assert PointerKept(a, b, bankId, named, id) && PointerKept(b, c, bankId, named, id);
      var was := a.nodes[id].supersededBy;
      if b.nodes[id].supersededBy == was && was.Some? && Named(b, bankId, named, was.value) {
        assert was.value in a.nodes;
        assert Named(a, bankId, named, was.value);
      }
    }
  }
}
