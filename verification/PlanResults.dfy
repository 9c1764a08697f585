/**
 What a plan achieves, read off the tables it leaves: the text, the vector and
 the sources of every observation that it updates or creates, the observations
 that it deletes, and what it reports of all that.
 */
module PlanResults {
  import opened Wrappers
  import opened Tables
  import opened Consolidation
  import opened PlanLaws
  import opened StoreSteps

  /** Some observation of the bank has this uuid. */
  ghost predicate Known(t: Tables, bankId: string, uuid: string) {
    exists id :: Names(t, bankId, uuid, id)
  }

  /** A source that an update of this observation names. */
  ghost predicate NamedSource(updates: seq<ObservationUpdate>, uuid: string, s: int) {
    exists k :: 0 <= k < |updates| && updates[k].uuid == uuid && s in updates[k].sourceIds
  }

  /** The text of the last update of this observation, or what it was. */
  predicate TextIs(updates: seq<ObservationUpdate>, uuid: string, was: string, text: string) {
    if forall k :: 0 <= k < |updates| ==> updates[k].uuid != uuid then text == was
    else exists k :: 0 <= k < |updates| && updates[k].uuid == uuid && updates[k].text == text
                     && forall m :: k < m < |updates| ==> updates[m].uuid != uuid
  }

  predicate TextKept(updates: seq<ObservationUpdate>, uuid: string, was: string) {
    forall k :: 0 <= k < |updates| && updates[k].uuid == uuid ==> updates[k].text == was
  }

  // ---------- Updates ----------

  /** One update: the named observation has the new text and keeps its vector if
      that is the old one; no other row changes. */
  lemma OneUpdate(t: Tables, bankId: string, u: ObservationUpdate, now: int, k: int)
    requires UuidsUnique(t) && k in t.nodes
    ensures
      var after := Update(t, bankId, u, now);
      && after.nodes.Keys == t.nodes.Keys && SameName(t.nodes[k], after.nodes[k])
      && (if Names(t, bankId, u.uuid, k) then
            && after.nodes[k].text == u.text
            && after.nodes[k].embedding == (if t.nodes[k].text == u.text then t.nodes[k].embedding else None)
          else after.nodes[k] == t.nodes[k])
  {
    hide LinkedAll, SourcesOf;
    var found := Find(t, bankId, u.uuid);
    if found.Some? {
      var id := found.value;
      var written := if t.nodes[id].text != u.text then TextUpdated(t, id, u.text, now) else t;
      LinkedKeys(written, id, bankId, u.sourceIds, now);
    }
  }

  lemma OneUpdateSources(t: Tables, bankId: string, u: ObservationUpdate, now: int, k: int, s: int)
    requires UuidsUnique(t) && k in t.nodes
    ensures
      var after := Update(t, bankId, u, now);
      (k, s) in after.sources <==>
      (k, s) in t.sources
      || (Names(t, bankId, u.uuid, k) && s in u.sourceIds && s in t.nodes && t.nodes[s].bankId == bankId)
  {
    hide LinkedAll, SourcesOf;
    var found := Find(t, bankId, u.uuid);
    if found.Some? {
      var id := found.value;
      var written := if t.nodes[id].text != u.text then TextUpdated(t, id, u.text, now) else t;
      LinkedKeys(written, id, bankId, u.sourceIds, now);
    }
  }

  lemma {:induction false} UpdatesKeepNames(t: Tables, bankId: string, updates: seq<ObservationUpdate>, now: int)
    requires UuidsUnique(t)
    ensures
      var after := UpdateAll(t, bankId, updates, now);
      && UuidsUnique(after) && after.nodes.Keys == t.nodes.Keys
      && forall k :: k in t.nodes ==> SameName(t.nodes[k], after.nodes[k])
    decreases |updates|
  {
    hide Update;
    if updates == [] {
    } else {
      var n := |updates| - 1;
      UpdatesKeepNames(t, bankId, updates[..n], now);
      var before := UpdateAll(t, bankId, updates[..n], now);
      UpdateNames(before, bankId, updates[n], now);
    }
  }

  lemma UpdateNames(t: Tables, bankId: string, u: ObservationUpdate, now: int)
    requires UuidsUnique(t)
    ensures
      var after := Update(t, bankId, u, now);
      && UuidsUnique(after) && after.nodes.Keys == t.nodes.Keys
      && forall k :: k in t.nodes ==> SameName(t.nodes[k], after.nodes[k])
  {
    hide LinkedAll, SourcesOf;
    var found := Find(t, bankId, u.uuid);
    if found.Some? {
      var id := found.value;
      var written := if t.nodes[id].text != u.text then TextUpdated(t, id, u.text, now) else t;
      LinkedKeys(written, id, bankId, u.sourceIds, now);
    }
  }

  lemma TextStep(updates: seq<ObservationUpdate>, uuid: string, was: string, text: string, text': string)
    requires updates != []
    requires TextIs(updates[..|updates| - 1], uuid, was, text)
    requires text' == if updates[|updates| - 1].uuid == uuid then updates[|updates| - 1].text else text
    ensures TextIs(updates, uuid, was, text')
  {
    var n := |updates| - 1;
    var part := updates[..n];
    assert forall k :: 0 <= k < n ==> part[k] == updates[k];
    if updates[n].uuid == uuid {
      assert updates[n].text == text';
    } else if k :| 0 <= k < |part| && part[k].uuid == uuid && part[k].text == text && forall m :: k < m < |part| ==> part[m].uuid != uuid {
      assert updates[k].uuid == uuid && updates[k].text == text';
    }
  }

  lemma KeptStep(updates: seq<ObservationUpdate>, uuid: string, was: string)
    requires updates != []
    ensures TextKept(updates, uuid, was) <==>
            TextKept(updates[..|updates| - 1], uuid, was)
            && (updates[|updates| - 1].uuid == uuid ==> updates[|updates| - 1].text == was)
  {
    var part := updates[..|updates| - 1];
    assert forall k :: 0 <= k < |part| ==> part[k] == updates[k];
  }

  lemma KeptIsWas(updates: seq<ObservationUpdate>, uuid: string, was: string, text: string)
    requires TextKept(updates, uuid, was) && TextIs(updates, uuid, was, text)
    ensures text == was
  {}

  /** An observation after all updates. */
  lemma {:induction false} UpdatesOn(t: Tables, bankId: string, updates: seq<ObservationUpdate>, now: int, uuid: string, id: int)
    requires UuidsUnique(t) && Names(t, bankId, uuid, id)
    ensures
      var after := UpdateAll(t, bankId, updates, now);
      && Names(after, bankId, uuid, id) && TextIs(updates, uuid, t.nodes[id].text, after.nodes[id].text)
      && after.nodes[id].embedding == (if TextKept(updates, uuid, t.nodes[id].text) then t.nodes[id].embedding else None)
    decreases |updates|
  {
    hide Update, TextIs, TextKept;
    if updates == [] {
      NoUpdates(uuid, t.nodes[id].text);
    } else {
      var n := |updates| - 1;
      var before := UpdateAll(t, bankId, updates[..n], now);
      UpdatesOn(t, bankId, updates[..n], now, uuid, id);
      UpdatesKeepNames(t, bankId, updates[..n], now);
      OneUpdate(before, bankId, updates[n], now, id);
      var after := Update(before, bankId, updates[n], now);
      TextStep(updates, uuid, t.nodes[id].text, before.nodes[id].text, after.nodes[id].text);
      KeptStep(updates, uuid, t.nodes[id].text);
      if TextKept(updates[..n], uuid, t.nodes[id].text) {
        KeptIsWas(updates[..n], uuid, t.nodes[id].text, before.nodes[id].text);
      }
    }
  }

  lemma NoUpdates(uuid: string, was: string)
    ensures TextIs([], uuid, was, was) && TextKept([], uuid, was)
  {}

  lemma NamedStep(updates: seq<ObservationUpdate>, uuid: string, s: int)
    requires updates != []
    ensures NamedSource(updates, uuid, s) <==>
            NamedSource(updates[..|updates| - 1], uuid, s)
            || (updates[|updates| - 1].uuid == uuid && s in updates[|updates| - 1].sourceIds)
  {
    var n := |updates| - 1;
    var part := updates[..n];
    if k :| 0 <= k < |part| && part[k].uuid == uuid && s in part[k].sourceIds {
      assert updates[k] == part[k];
    }
    if k :| 0 <= k < |updates| && updates[k].uuid == uuid && s in updates[k].sourceIds {
      assert k < n ==> part[k] == updates[k];
    }
  }

  lemma {:induction false} UpdatesSources(t: Tables, bankId: string, updates: seq<ObservationUpdate>, now: int, uuid: string, id: int, s: int)
    requires UuidsUnique(t) && Names(t, bankId, uuid, id)
    ensures (id, s) in UpdateAll(t, bankId, updates, now).sources <==>
            (id, s) in t.sources || (NamedSource(updates, uuid, s) && s in t.nodes && t.nodes[s].bankId == bankId)
    decreases |updates|
  {
    hide Update, NamedSource;
    if updates == [] {
      NoneNamed(uuid, s);
    } else {
      var n := |updates| - 1;
      var before := UpdateAll(t, bankId, updates[..n], now);
      UpdatesSources(t, bankId, updates[..n], now, uuid, id, s);
      UpdatesKeepNames(t, bankId, updates[..n], now);
      OneUpdateSources(before, bankId, updates[n], now, id, s);
      NamedStep(updates, uuid, s);
    }
  }

  lemma NoneNamed(uuid: string, s: int)
    ensures !NamedSource([], uuid, s)
  {}

  // ---------- Deletes ----------

  ghost predicate Doomed(t: Tables, bankId: string, deletes: seq<string>, id: int) {
    id in t.nodes && t.nodes[id].bankId == bankId && t.nodes[id].factType == Observation && t.nodes[id].uuid in deletes
  }

  /** After all deletes exactly the named observations are gone; what is left has
      the text and the vector it had, and the sources that are left. */
  lemma {:induction false} DeletesOn(t: Tables, bankId: string, deletes: seq<string>, id: int)
    requires UuidsUnique(t)
    ensures UuidsUnique(DeleteAll(t, bankId, deletes))
    ensures
      var after := DeleteAll(t, bankId, deletes);
      && (id in after.nodes <==> id in t.nodes && !Doomed(t, bankId, deletes, id))
      && (id in after.nodes ==>
            && SameName(t.nodes[id], after.nodes[id]) && after.nodes[id].text == t.nodes[id].text
            && after.nodes[id].embedding == t.nodes[id].embedding)
    decreases |deletes|
  {
    hide SourcesOf, Without;
    if deletes == [] {
    } else {
      var n := |deletes| - 1;
      var before := DeleteAll(t, bankId, deletes[..n]);
      DeletesOn(t, bankId, deletes[..n], id);
      assert deletes == deletes[..n] + [deletes[n]];
      if Names(before, bankId, deletes[n], id) {
        FindIsTheOne(before, bankId, deletes[n], id);
      }
      var found := Find(before, bankId, deletes[n]);
      if found.Some? {
        DeletesOn(t, bankId, deletes[..n], found.value);
        DeletedUnique(before, found.value);
      }
    }
  }

  lemma DeletedUnique(t: Tables, id: int)
    requires UuidsUnique(t) && id in t.nodes
    ensures
      var after := Deleted(t, id);
      && UuidsUnique(after) && after.nodes.Keys == t.nodes.Keys - {id}
      && forall k :: k in after.nodes ==>
           && SameName(t.nodes[k], after.nodes[k]) && after.nodes[k].text == t.nodes[k].text
           && after.nodes[k].embedding == t.nodes[k].embedding
  {
    hide SourcesOf, Without;
  }

  lemma {:induction false} DeletesSources(t: Tables, bankId: string, deletes: seq<string>, id: int, s: int)
    requires UuidsUnique(t)
    ensures
      var after := DeleteAll(t, bankId, deletes);
      (id, s) in after.sources <==> (id, s) in t.sources && !Doomed(t, bankId, deletes, id) && !Doomed(t, bankId, deletes, s)
    decreases |deletes|
  {
    hide SourcesOf;
    if deletes == [] {
    } else {
      var n := |deletes| - 1;
      var before := DeleteAll(t, bankId, deletes[..n]);
      DeletesSources(t, bankId, deletes[..n], id, s);
      DeletesOn(t, bankId, deletes[..n], id);
      DeletesOn(t, bankId, deletes[..n], s);
      assert deletes == deletes[..n] + [deletes[n]];
      hide DeleteAll;
      LastDelete(t, bankId, deletes);
      if Names(before, bankId, deletes[n], id) {
        FindIsTheOne(before, bankId, deletes[n], id);
      }
      if Names(before, bankId, deletes[n], s) {
        FindIsTheOne(before, bankId, deletes[n], s);
      }
      var found := Find(before, bankId, deletes[n]);
      if found.Some? {
        DeletesOn(t, bankId, deletes[..n], found.value);
      }
    }
  }

  lemma LastDelete(t: Tables, bankId: string, deletes: seq<string>)
    requires deletes != []
    ensures DeleteAll(t, bankId, deletes) == Delete(DeleteAll(t, bankId, deletes[..|deletes| - 1]), bankId, deletes[|deletes| - 1])
  {}

  // ---------- Creates ----------

  /** One create: every row that was there stays as it is. */
  lemma OneCreate(t: Tables, bankId: string, uuid: string, c: NewObservation, now: int)
    requires UuidsUnique(t) && KeysHold(t) && Create(t, bankId, uuid, c, now).Ok?
    ensures
      var after, id := Create(t, bankId, uuid, c, now).value, NewRowid(t.nodes);
      && id !in t.nodes && after.nodes.Keys == t.nodes.Keys + {id} && (forall k :: k in t.nodes ==> k < id)
      && (forall k :: k in t.nodes ==> after.nodes[k] == t.nodes[k])
      && (forall k: (int, int) :: k.0 != id ==> (k in after.sources <==> k in t.sources))
      && Names(after, bankId, uuid, id) && after.nodes[id].text == c.text && after.nodes[id].embedding == Some(c.embedding)
      && (forall s :: (id, s) in after.sources <==> s in c.sourceIds && (s == id || (s in t.nodes && t.nodes[s].bankId == bankId)))
      && UuidsUnique(after)
  {
    hide LinkedAll, SourcesOf;
    var id := NewRowid(t.nodes);
    var placed := Placed(t, id, uuid, bankId, c, now);
    LinkedKeys(placed, id, bankId, c.sourceIds, now);
    assert forall s :: (id, s) !in t.sources;
  }

  /** A created observation: its text and vector, and the nodes of the bank that
      it names, as far as they were there. */
  ghost predicate CreatedAs(t: Tables, bankId: string, uuid: string, c: NewObservation, id: int) {
    && Names(t, bankId, uuid, id) && t.nodes[id].text == c.text && t.nodes[id].embedding == Some(c.embedding)
    && forall s :: (id, s) in t.sources <==> s in c.sourceIds && s <= id && s in t.nodes && t.nodes[s].bankId == bankId
  }

  ghost predicate WasCreated(t: Tables, bankId: string, uuid: string, c: NewObservation) {
    exists id :: CreatedAs(t, bankId, uuid, c, id)
  }

  lemma {:induction false} CreatesOn(t: Tables, bankId: string, creates: seq<NewObservation>, uuids: seq<string>, now: int)
    requires Valid(t) && |uuids| == |creates| && CreateAll(t, bankId, creates, uuids, now).Ok?
    ensures
      var after := CreateAll(t, bankId, creates, uuids, now).value;
      && Valid(after) && (forall k :: k in t.nodes ==> k in after.nodes && after.nodes[k] == t.nodes[k])
      && (forall k: (int, int) :: k.0 in t.nodes ==> (k in after.sources <==> k in t.sources))
      && (forall k :: k in after.nodes && k !in t.nodes ==> after.nodes[k].uuid in uuids)
      && (forall i :: 0 <= i < |creates| ==> WasCreated(after, bankId, uuids[i], creates[i]))
    decreases |creates|
  {
    hide Create, Valid, CreatedAs;
    if creates == [] {
    } else {
      var n := |creates| - 1;
      CreatesOn(t, bankId, creates[..n], uuids[..n], now);
      var before := CreateAll(t, bankId, creates[..n], uuids[..n], now).value;
      var after := CreateAll(t, bankId, creates, uuids, now).value;
      ValidParts(before);
      OneCreate(before, bankId, uuids[n], creates[n], now);
      CreateIsValid(before, bankId, uuids[n], creates[n], now);
      var id := NewRowid(before.nodes);
      forall i | 0 <= i < |creates| ensures WasCreated(after, bankId, uuids[i], creates[i]) {
        if i == n {
          NewIsCreated(before, after, bankId, uuids[n], creates[n], id);
        } else {
          assert creates[..n][i] == creates[i] && uuids[..n][i] == uuids[i];
          assert WasCreated(before, bankId, uuids[..n][i], creates[..n][i]);
          var x :| CreatedAs(before, bankId, uuids[i], creates[i], x);
          OldStaysCreated(before, after, bankId, uuids[i], creates[i], x, id);
        }
      }
    }
  }

  lemma NewIsCreated(t: Tables, after: Tables, bankId: string, uuid: string, c: NewObservation, id: int)
    requires id !in t.nodes && after.nodes.Keys == t.nodes.Keys + {id} && (forall k :: k in t.nodes ==> k < id)
    requires forall k :: k in t.nodes ==> after.nodes[k] == t.nodes[k]
    requires Names(after, bankId, uuid, id) && after.nodes[id].text == c.text && after.nodes[id].embedding == Some(c.embedding)
    requires forall s :: (id, s) in after.sources <==> s in c.sourceIds && (s == id || (s in t.nodes && t.nodes[s].bankId == bankId))
    ensures CreatedAs(after, bankId, uuid, c, id)
  {}

  lemma OldStaysCreated(t: Tables, after: Tables, bankId: string, uuid: string, c: NewObservation, x: int, id: int)
    requires CreatedAs(t, bankId, uuid, c, x)
    requires id !in t.nodes && after.nodes.Keys == t.nodes.Keys + {id} && (forall k :: k in t.nodes ==> k < id)
    requires forall k :: k in t.nodes ==> after.nodes[k] == t.nodes[k]
    requires forall k: (int, int) :: k.0 != id ==> (k in after.sources <==> k in t.sources)
    ensures CreatedAs(after, bankId, uuid, c, x)
  {}

  // ---------- A whole plan ----------

  ghost predicate PlanOk(t: Tables, bankId: string, creates: seq<NewObservation>, uuids: seq<string>,
                         updates: seq<ObservationUpdate>, deletes: seq<string>, now: int) {
    Valid(t) && |uuids| == |creates| && Plan(t, bankId, creates, uuids, updates, deletes, now).Ok?
  }

  /** What updates and deletes make of an observation `id` of the tables `t`. */
  ghost predicate Results(t: Tables, after: Tables, bankId: string, updates: seq<ObservationUpdate>, deletes: seq<string>,
                          uuid: string, id: int)
    requires id in t.nodes
  {
    if uuid in deletes then id !in after.nodes
    else
      && Names(after, bankId, uuid, id) && TextIs(updates, uuid, t.nodes[id].text, after.nodes[id].text)
      && after.nodes[id].embedding == (if TextKept(updates, uuid, t.nodes[id].text) then t.nodes[id].embedding else None)
      && (forall s :: (id, s) in after.sources <==>
            && s in after.nodes
            && ((id, s) in t.sources || (NamedSource(updates, uuid, s) && after.nodes[s].bankId == bankId)))
      && after.nodes[id].proofCount == |SourcesOf(after.sources, id)|
  }

  lemma UpdatesThenDeletes(t: Tables, bankId: string, updates: seq<ObservationUpdate>, deletes: seq<string>, now: int, uuid: string, id: int)
    requires Valid(t) && Names(t, bankId, uuid, id)
    ensures
      var after := DeleteAll(UpdateAll(t, bankId, updates, now), bankId, deletes);
      Results(t, after, bankId, updates, deletes, uuid, id)
  {
    hide UpdateAll, DeleteAll, TextIs, TextKept, NamedSource, Valid, SourcesOf;
    ValidParts(t);
    var updated := UpdateAll(t, bankId, updates, now);
    var after := DeleteAll(updated, bankId, deletes);
    UpdatesKeepNames(t, bankId, updates, now);
    UpdatesOn(t, bankId, updates, now, uuid, id);
    DeletesOn(updated, bankId, deletes, id);
    UpdatesAreSafe(t, bankId, updates, now, UuidsOf(updates, deletes)) by { UuidsAreNamed(updates, deletes); }
    DeletesAreSafe(updated, bankId, deletes, UuidsOf(updates, deletes)) by { UuidsAreNamed(updates, deletes); }
    if uuid !in deletes {
      forall s
        ensures (id, s) in after.sources <==>
                s in after.nodes && ((id, s) in t.sources || (NamedSource(updates, uuid, s) && after.nodes[s].bankId == bankId))
      {
        UpdatesSources(t, bankId, updates, now, uuid, id, s);
        DeletesSources(updated, bankId, deletes, id, s);
        DeletesOn(updated, bankId, deletes, s);
        if (id, s) in t.sources {
          SourceIsThere(t, id, s);
        }
      }
      CountHolds(after, id);
    }
  }

  lemma UuidsAreNamed(updates: seq<ObservationUpdate>, deletes: seq<string>)
    ensures forall k :: 0 <= k < |updates| ==> updates[k].uuid in UuidsOf(updates, deletes)
    ensures forall k :: 0 <= k < |deletes| ==> deletes[k] in UuidsOf(updates, deletes)
  {}

  lemma SourceIsThere(t: Tables, id: int, s: int)
    requires Valid(t) && (id, s) in t.sources
    ensures s in t.nodes
  {
    assert (id, s).1 == s;
  }

  lemma CountHolds(t: Tables, id: int)
    requires Valid(t) && id in t.nodes
    ensures t.nodes[id].proofCount == |SourcesOf(t.sources, id)|
  {}

  /** An observation that was there: gone if a delete names it; otherwise it has
      the text of its last update, its old vector exactly when no update changed
      the text, and the sources it had with the named nodes of the bank, less
      those that are gone. */
  lemma PlanOnObservation(t: Tables, bankId: string, creates: seq<NewObservation>, uuids: seq<string>,
                          updates: seq<ObservationUpdate>, deletes: seq<string>, now: int, uuid: string, id: int)
    requires PlanOk(t, bankId, creates, uuids, updates, deletes, now) && Names(t, bankId, uuid, id)
    ensures Results(t, Plan(t, bankId, creates, uuids, updates, deletes, now).value, bankId, updates, deletes, uuid, id)
  {
    hide Valid, CreateAll, UpdateAll, DeleteAll, TextIs, TextKept, NamedSource, SourcesOf, CreatedAs;
    CreatesOn(t, bankId, creates, uuids, now);
    var created := CreateAll(t, bankId, creates, uuids, now).value;
    UpdatesThenDeletes(created, bankId, updates, deletes, now, uuid, id);
    forall s ensures (id, s) in created.sources <==> (id, s) in t.sources {
      assert (id, s).0 == id;
    }
  }

  /** An observation that the plan creates: gone if a delete names it; otherwise
      there, under its uuid, and updated like any other. */
  lemma PlanOnCreate(t: Tables, bankId: string, creates: seq<NewObservation>, uuids: seq<string>,
                     updates: seq<ObservationUpdate>, deletes: seq<string>, now: int, i: nat) returns (id: int)
    requires PlanOk(t, bankId, creates, uuids, updates, deletes, now) && i < |creates|
    ensures id !in t.nodes
    ensures
      var after := Plan(t, bankId, creates, uuids, updates, deletes, now).value;
      var uuid, c := uuids[i], creates[i];
      if uuid in deletes then id !in after.nodes
      else
        && Names(after, bankId, uuid, id) && TextIs(updates, uuid, c.text, after.nodes[id].text)
        && after.nodes[id].embedding == (if TextKept(updates, uuid, c.text) then Some(c.embedding) else None)
        && (forall s :: (id, s) in after.sources <==>
              && s in after.nodes && after.nodes[s].bankId == bankId
              && ((s in c.sourceIds && s <= id) || NamedSource(updates, uuid, s)))
  {
    hide Valid, CreateAll, UpdateAll, DeleteAll, TextIs, TextKept, NamedSource, SourcesOf;
    CreatesOn(t, bankId, creates, uuids, now);
    var created := CreateAll(t, bankId, creates, uuids, now).value;
    var updated := UpdateAll(created, bankId, updates, now);
    var after := DeleteAll(updated, bankId, deletes);
    assert WasCreated(created, bankId, uuids[i], creates[i]);
    id :| CreatedAs(created, bankId, uuids[i], creates[i], id);
    CreatedIsNew(t, bankId, creates, uuids, now, i, id);
    UpdatesThenDeletes(created, bankId, updates, deletes, now, uuids[i], id);
    forall s | s in after.nodes ensures s in created.nodes && after.nodes[s].bankId == created.nodes[s].bankId {
      ValidParts(created);
      UpdatesKeepNames(created, bankId, updates, now);
      DeletesOn(updated, bankId, deletes, s);
    }
  }

  lemma {:induction false} CreatedIsNew(t: Tables, bankId: string, creates: seq<NewObservation>, uuids: seq<string>, now: int, i: nat, id: int)
    requires Valid(t) && |uuids| == |creates| && CreateAll(t, bankId, creates, uuids, now).Ok? && i < |creates|
    requires var created := CreateAll(t, bankId, creates, uuids, now).value; id in created.nodes && created.nodes[id].uuid == uuids[i]
    ensures id !in t.nodes
    decreases |creates|
  {
    hide Create, Valid;
    var n := |creates| - 1;
    var before := CreateAll(t, bankId, creates[..n], uuids[..n], now).value;
    CreatesOn(t, bankId, creates[..n], uuids[..n], now);
    ValidParts(before);
    OneCreate(before, bankId, uuids[n], creates[n], now);
    UuidWasFree(before, bankId, uuids[n], creates[n], now);
    if i < n {
      assert uuids[..n][i] == uuids[i];
      if id in before.nodes {
        CreatedIsNew(t, bankId, creates[..n], uuids[..n], now, i, id);
      }
    }
  }

  lemma UuidWasFree(t: Tables, bankId: string, uuid: string, c: NewObservation, now: int)
    requires Create(t, bankId, uuid, c, now).Ok?
    ensures forall k :: k in t.nodes ==> t.nodes[k].uuid != uuid
  {}

  /** No observation of the bank that a delete names is left, and every row that
      is new was created by the plan. */
  lemma PlanLeaves(t: Tables, bankId: string, creates: seq<NewObservation>, uuids: seq<string>,
                   updates: seq<ObservationUpdate>, deletes: seq<string>, now: int)
    requires PlanOk(t, bankId, creates, uuids, updates, deletes, now)
    ensures
      var after := Plan(t, bankId, creates, uuids, updates, deletes, now).value;
      && (forall uuid :: uuid in deletes ==> !Known(after, bankId, uuid))
      && (forall k :: k in after.nodes && k !in t.nodes ==> after.nodes[k].uuid in uuids)
  {
    hide Valid, CreateAll, UpdateAll, DeleteAll, SourcesOf, CreatedAs;
    CreatesOn(t, bankId, creates, uuids, now);
    var created := CreateAll(t, bankId, creates, uuids, now).value;
    ValidParts(created);
    UpdatesKeepNames(created, bankId, updates, now);
    var updated := UpdateAll(created, bankId, updates, now);
    var after := DeleteAll(updated, bankId, deletes);
    forall k | k in after.nodes
      ensures k in created.nodes && SameName(created.nodes[k], after.nodes[k]) && !Doomed(updated, bankId, deletes, k)
    {
      DeletesOn(updated, bankId, deletes, k);
    }
  }

  // ---------- What it reports ----------

  /** The updates that name an observation, in order, with its rowid. */
  ghost function FoundUpdates(t: Tables, bankId: string, updates: seq<ObservationUpdate>): seq<(int, string)> {
    if updates == [] then []
    else
      var n := |updates| - 1;
      FoundUpdates(t, bankId, updates[..n])
      + if Known(t, bankId, updates[n].uuid) then [(Find(t, bankId, updates[n].uuid).value, updates[n].uuid)] else []
  }

  lemma {:induction false} UpdatesReported(t: Tables, bankId: string, updates: seq<ObservationUpdate>, now: int)
    requires UuidsUnique(t)
    ensures UpdatesDone(t, bankId, updates, now) == FoundUpdates(t, bankId, updates)
    decreases |updates|
  {
    hide Names;
    if updates == [] {
    } else {
      var n := |updates| - 1;
      UpdatesReported(t, bankId, updates[..n], now);
      UpdatesKeepNames(t, bankId, updates[..n], now);
      SameFind(t, UpdateAll(t, bankId, updates[..n], now), bankId, updates[n].uuid);
    }
  }

  lemma SameFind(t: Tables, after: Tables, bankId: string, uuid: string)
    requires UuidsUnique(t) && UuidsUnique(after) && after.nodes.Keys == t.nodes.Keys
    requires forall k :: k in t.nodes ==> SameName(t.nodes[k], after.nodes[k])
    ensures Find(after, bankId, uuid) == Find(t, bankId, uuid) && (Known(t, bankId, uuid) <==> Find(t, bankId, uuid).Some?)
  {
    var a, b := Find(t, bankId, uuid), Find(after, bankId, uuid);
    if a.Some? {
      assert Names(after, bankId, uuid, a.value);
      FindIsTheOne(after, bankId, uuid, a.value);
    } else if b.Some? {
      assert Names(t, bankId, uuid, b.value);
    }
  }

  /** Each observation that is deleted is counted once, however often it is named. */
  lemma {:induction false} DeletesReported(t: Tables, bankId: string, deletes: seq<string>)
    requires UuidsUnique(t)
    ensures DeletesDone(t, bankId, deletes) == |set u | u in deletes && Known(t, bankId, u)|
    decreases |deletes|
  {
    if deletes == [] {
      assert (set u | u in deletes && Known(t, bankId, u)) == {};
    } else {
      var n := |deletes| - 1;
      var u := deletes[n];
      DeletesReported(t, bankId, deletes[..n]);
      assert deletes == deletes[..n] + [u];
      var before := set x | x in deletes[..n] && Known(t, bankId, x);
      var now := set x | x in deletes && Known(t, bankId, x);
      StillKnown(t, bankId, deletes[..n], u);
      if Known(t, bankId, u) && u !in deletes[..n] {
        assert now == before + {u};
      } else {
        assert now == before;
      }
    }
  }

  lemma StillKnown(t: Tables, bankId: string, deletes: seq<string>, uuid: string)
    requires UuidsUnique(t)
    ensures Find(DeleteAll(t, bankId, deletes), bankId, uuid).Some? <==> Known(t, bankId, uuid) && uuid !in deletes
  {
    hide DeleteAll;
    var after := DeleteAll(t, bankId, deletes);
    var found := Find(after, bankId, uuid);
    if found.Some? {
      DeletesOn(t, bankId, deletes, found.value);
      assert Names(t, bankId, uuid, found.value);
    }
    if id :| Names(t, bankId, uuid, id) {
      DeletesOn(t, bankId, deletes, id);
      if uuid !in deletes {
        assert Names(after, bankId, uuid, id);
      }
    }
  }
}
