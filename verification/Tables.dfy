/**
 The tables of the memory store as values, and what one statement does to
 them: foreign keys cascade or set null, triggers recount and drop index rows,
 rowids are recycled, uuids are not.
 */
module Tables {
  import opened Wrappers

  const EMBEDDING_DIM := 384

  type Vector = seq<int>

  datatype FactType = World | Experience | Observation

  datatype Node = Node(
    uuid: string,
    bankId: string,
    factType: FactType,
    text: string,
    embedding: Option<Vector>,
    proofCount: nat,
    supersededBy: Option<int>,
    expiresAt: Option<int>,
    createdAt: int,
    updatedAt: int)

  /** A row of the vector index. */
  datatype Indexed = Indexed(bankId: string, embedding: Vector)

  /** `sources` maps an observation and a source to when they were linked. */
  datatype Tables = Tables(banks: set<string>, nodes: map<int, Node>, vectors: map<int, Indexed>, sources: map<(int, int), int>)

  // ---------- What the schema and the code keep ----------

  function SourcesOf(sources: map<(int, int), int>, observation: int): set<int> {
    set k | k in sources && k.0 == observation :: k.1
  }

  ghost predicate UuidsUnique(t: Tables) {
    forall i, j :: i in t.nodes && j in t.nodes && t.nodes[i].uuid == t.nodes[j].uuid ==> i == j
  }

  /** Links join nodes that are there, within one bank. */
  ghost predicate KeysHold(t: Tables) {
    forall k :: k in t.sources ==> k.0 in t.nodes && k.1 in t.nodes && t.nodes[k.0].bankId == t.nodes[k.1].bankId
  }

  /** The stored count is the number of linked sources. */
  ghost predicate ProofCounted(t: Tables) {
    forall id :: id in t.nodes ==> t.nodes[id].proofCount == |SourcesOf(t.sources, id)|
  }

  /** A node with an embedding is in the index with that embedding. */
  ghost predicate EmbeddingsIndexed(t: Tables) {
    forall id :: id in t.nodes && t.nodes[id].embedding.Some? ==>
      id in t.vectors && t.vectors[id].embedding == t.nodes[id].embedding.value
  }

  /** Node `i` is older than node `j`; the rowid breaks ties. */
  predicate Earlier(t: Tables, i: int, j: int)
    requires i in t.nodes && j in t.nodes
  {
    t.nodes[i].createdAt < t.nodes[j].createdAt || (t.nodes[i].createdAt == t.nodes[j].createdAt && i < j)
  }

  /** What supersedes a node is a later node of the same bank. */
  ghost predicate SupersededLater(t: Tables) {
    forall id :: id in t.nodes && t.nodes[id].supersededBy.Some? ==>
      var later := t.nodes[id].supersededBy.value;
      later in t.nodes && t.nodes[later].bankId == t.nodes[id].bankId && Earlier(t, id, later)
  }

  ghost predicate Valid(t: Tables) {
    UuidsUnique(t) && KeysHold(t) && ProofCounted(t) && EmbeddingsIndexed(t) && SupersededLater(t)
  }

  // ---------- Statements ----------

  /** The rowid the next insert gets: one more than the largest in use, so the
      id of a deleted last row comes back. */
  ghost predicate NextRowid(nodes: map<int, Node>, id: int) {
    if nodes == map[] then id == 1
    else id - 1 in nodes && forall k :: k in nodes ==> k < id
  }

  function Inserted(t: Tables, id: int, node: Node): Tables {
    t.(nodes := t.nodes[id := node])
  }

  predicate UuidTaken(t: Tables, uuid: string) {
    exists id :: id in t.nodes && t.nodes[id].uuid == uuid
  }

  function Without(sources: map<(int, int), int>, id: int): map<(int, int), int> {
    map k | k in sources && k.0 != id && k.1 != id :: sources[k]
  }

  /** A node when node `id` has gone: pointers to it are nulled, and losing it
      as a source recounts. */
  function Bereft(t: Tables, k: int, id: int): Node
    requires k in t.nodes
  {
    var node := t.nodes[k];
    node.(supersededBy := if node.supersededBy == Some(id) then None else node.supersededBy,
          proofCount := if (k, id) in t.sources then |SourcesOf(Without(t.sources, id), k)| else node.proofCount)
  }

  /** Deleting a node row, with its cascades and triggers. */
  function Deleted(t: Tables, id: int): Tables {
    if id !in t.nodes then t
    else
      Tables(
        t.banks,
        map k | k in t.nodes && k != id :: Bereft(t, k, id),
        t.vectors - {id},
        Without(t.sources, id))
  }

  function TextUpdated(t: Tables, id: int, text: string, now: int): Tables {
    if id !in t.nodes then t
    else t.(nodes := t.nodes[id := t.nodes[id].(text := text, embedding := None, updatedAt := now)])
  }

  /** The column is written where there is a row, the index in any case. */
  function Embedded(t: Tables, id: int, bankId: string, v: Vector, now: int): Tables {
    t.(nodes := if id in t.nodes then t.nodes[id := t.nodes[id].(embedding := Some(v), updatedAt := now)] else t.nodes,
       vectors := t.vectors[id := Indexed(bankId, v)])
  }

  /** Insert-or-ignore of one source, if it is a node of the bank. */
  function Linked(t: Tables, observation: int, bankId: string, source: int, now: int): Tables {
    if source in t.nodes && t.nodes[source].bankId == bankId && (observation, source) !in t.sources then
      t.(sources := t.sources[(observation, source) := now])
    else t
  }

  function LinkedAll(t: Tables, observation: int, bankId: string, sources: seq<int>, now: int): Tables {
    if sources == [] then t
    else Linked(LinkedAll(t, observation, bankId, sources[..|sources| - 1], now), observation, bankId, sources[|sources| - 1], now)
  }

  /** The sources of `drop` copied to `keep`, those it has already left alone. */
  function Copied(sources: map<(int, int), int>, keep: int, drop: int): map<(int, int), int> {
    (map k | k in sources && k.0 == drop :: (keep, k.1) := sources[k]) + sources
  }

  function Union(t: Tables, keep: int, drop: int): Tables {
    t.(sources := Copied(t.sources, keep, drop))
  }

  function Recounted(t: Tables, observation: int): Tables {
    if observation !in t.nodes then t
    else t.(nodes := t.nodes[observation := t.nodes[observation].(proofCount := |SourcesOf(t.sources, observation)|)])
  }

  /** The guard of a retraction: same bank, not retracted yet, strictly later. */
  predicate MaySupersede(t: Tables, bankId: string, retracted: int, replacement: int) {
    && retracted in t.nodes && t.nodes[retracted].bankId == bankId
    && t.nodes[retracted].supersededBy.None?
    && retracted != replacement
    && replacement in t.nodes && t.nodes[replacement].bankId == bankId
    && Earlier(t, retracted, replacement)
  }

  function Superseded(t: Tables, bankId: string, retracted: int, replacement: int, now: int): Tables {
    if MaySupersede(t, bankId, retracted, replacement) then
      t.(nodes := t.nodes[retracted := t.nodes[retracted].(supersededBy := Some(replacement), updatedAt := now)])
    else t
  }

  function SupersededAll(t: Tables, bankId: string, pairs: seq<(int, int)>, now: int): Tables {
    if pairs == [] then t
    else
      var (retracted, replacement) := pairs[|pairs| - 1];
      Superseded(SupersededAll(t, bankId, pairs[..|pairs| - 1], now), bankId, retracted, replacement, now)
  }

  function Unsuperseded(t: Tables, bankId: string, id: int, now: int): Tables {
    if id in t.nodes && t.nodes[id].bankId == bankId && t.nodes[id].supersededBy.Some? then
      t.(nodes := t.nodes[id := t.nodes[id].(supersededBy := None, updatedAt := now)])
    else t
  }

  // ---------- Each statement keeps what is promised ----------

  /** There is always exactly one next rowid. */
  lemma NextRowidExists(nodes: map<int, Node>) returns (id: int)
    ensures NextRowid(nodes, id) && id !in nodes
    ensures forall other :: NextRowid(nodes, other) ==> other == id
  {
    if nodes == map[] {
      id := 1;
    } else {
      assert nodes.Keys != {};
      var top := Largest(nodes.Keys);
      id := top + 1;
    }
  }

  lemma Member<T>(s: set<T>) returns (x: T)
    requires s != {}
    ensures x in s
  {
    x :| x in s;
  }

  lemma {:induction false} Largest(ids: set<int>) returns (top: int)
    requires |ids| > 0
    ensures top in ids && forall k :: k in ids ==> k <= top
    decreases |ids|
  {
    top := Member(ids);
    var rest := ids - {top};
    if |rest| > 0 {
      var other := Largest(rest);
      forall k | k in ids
        ensures k <= if top < other then other else top
      {
        assert k == top || k in rest;
      }
      top := if top < other then other else top;
    } else {
      assert ids == rest + {top};
      assert rest == {};
    }
  }

  lemma RowidWitness(nodes: map<int, Node>)
    ensures exists id :: NextRowid(nodes, id)
    ensures forall id :: NextRowid(nodes, id) ==> id !in nodes
  {
    var id := NextRowidExists(nodes);
  }

  ghost function NewRowid(nodes: map<int, Node>): (id: int)
    ensures NextRowid(nodes, id) && id !in nodes
  {
    RowidWitness(nodes);
    var id :| NextRowid(nodes, id);
    id
  }

  lemma InsertKeeps(t: Tables, id: int, node: Node)
    requires Valid(t) && id !in t.nodes && !UuidTaken(t, node.uuid)
    requires node.proofCount == 0 && node.supersededBy.None? && node.embedding.None?
    ensures Valid(Inserted(t, id, node))
  {
    var after := Inserted(t, id, node);
    assert SourcesOf(t.sources, id) == {};
  }

  lemma TextKeeps(t: Tables, id: int, text: string, now: int)
    requires Valid(t)
    ensures Valid(TextUpdated(t, id, text, now))
  {}

  lemma EmbedKeeps(t: Tables, id: int, bankId: string, v: Vector, now: int)
    requires Valid(t)
    ensures Valid(Embedded(t, id, bankId, v, now))
  {}

  lemma SupersedeKeeps(t: Tables, bankId: string, retracted: int, replacement: int, now: int)
    requires Valid(t)
    ensures Valid(Superseded(t, bankId, retracted, replacement, now))
  {}

  lemma {:induction false} SupersedeAllKeeps(t: Tables, bankId: string, pairs: seq<(int, int)>, now: int)
    requires Valid(t)
    ensures Valid(SupersededAll(t, bankId, pairs, now))
    decreases |pairs|
  {
    hide Valid, Superseded;
    if pairs == [] {
    } else {
      SupersedeAllKeeps(t, bankId, pairs[..|pairs| - 1], now);
      var before := SupersededAll(t, bankId, pairs[..|pairs| - 1], now);
      SupersedeKeeps(before, bankId, pairs[|pairs| - 1].0, pairs[|pairs| - 1].1, now);
    }
  }

  lemma ClearKeeps(t: Tables, bankId: string, id: int, now: int)
    requires Valid(t)
    ensures Valid(Unsuperseded(t, bankId, id, now))
  {}

  /** What deleting a row leaves of the sources of another. */
  lemma SourcesWithout(sources: map<(int, int), int>, id: int, k: int)
    requires k != id
    ensures SourcesOf(Without(sources, id), k) == SourcesOf(sources, k) - {id}
    ensures (k, id) !in sources ==> SourcesOf(Without(sources, id), k) == SourcesOf(sources, k)
  {
    var left := Without(sources, id);
    forall s | s in SourcesOf(sources, k) - {id}
      ensures s in SourcesOf(left, k)
    {
      var key :| key in sources && key.0 == k && key.1 == s;
      assert key in left;
    }
    if (k, id) !in sources {
      forall s | s in SourcesOf(sources, k)
        ensures s != id
      {
        var key :| key in sources && key.0 == k && key.1 == s;
        assert key == (k, s);
      }
    }
  }

  lemma DeleteKeeps(t: Tables, id: int)
    requires Valid(t)
    ensures Valid(Deleted(t, id))
  {
    if id in t.nodes {
      DeleteKeepsCounts(t, id);
      DeleteKeepsRest(t, id);
    }
  }

  lemma DeleteKeepsCounts(t: Tables, id: int)
    requires Valid(t) && id in t.nodes
    ensures ProofCounted(Deleted(t, id))
  {
    var after := Deleted(t, id);
    forall k | k in after.nodes
      ensures after.nodes[k].proofCount == |SourcesOf(after.sources, k)|
    {
      SourcesWithout(t.sources, id, k);
    }
  }

  lemma DeleteKeepsRest(t: Tables, id: int)
    requires Valid(t) && id in t.nodes
    ensures var after := Deleted(t, id);
            UuidsUnique(after) && KeysHold(after) && EmbeddingsIndexed(after) && SupersededLater(after)
  {
    hide SourcesOf;
  }

  // ---------- Statements inside a transaction ----------

  /** Counts may be off for one node while its sources are being written. */
  ghost predicate ValidBut(t: Tables, id: int) {
    && UuidsUnique(t) && KeysHold(t) && EmbeddingsIndexed(t) && SupersededLater(t)
    && id in t.nodes
    && forall k :: k in t.nodes && k != id ==> t.nodes[k].proofCount == |SourcesOf(t.sources, k)|
  }

  lemma LinkKeeps(t: Tables, observation: int, bankId: string, source: int, now: int)
    requires ValidBut(t, observation) && t.nodes[observation].bankId == bankId
    ensures ValidBut(Linked(t, observation, bankId, source, now), observation)
  {
    var after := Linked(t, observation, bankId, source, now);
    forall k | k in t.nodes && k != observation
      ensures SourcesOf(after.sources, k) == SourcesOf(t.sources, k)
    {
      OtherSources(t.sources, after.sources, observation, k);
    }
  }

  lemma OtherSources(before: map<(int, int), int>, after: map<(int, int), int>, observation: int, k: int)
    requires k != observation
    requires forall key: (int, int) :: key.0 != observation ==> (key in before <==> key in after)
    ensures SourcesOf(after, k) == SourcesOf(before, k)
  {
    forall s | s in SourcesOf(after, k)
      ensures s in SourcesOf(before, k)
    {
      var key :| key in after && key.0 == k && key.1 == s;
      assert key in before;
    }
    forall s | s in SourcesOf(before, k)
      ensures s in SourcesOf(after, k)
    {
      var key :| key in before && key.0 == k && key.1 == s;
      assert key in after;
    }
  }

  lemma {:induction false} LinkAllKeeps(t: Tables, observation: int, bankId: string, sources: seq<int>, now: int)
    requires ValidBut(t, observation) && observation in t.nodes && t.nodes[observation].bankId == bankId
    ensures ValidBut(LinkedAll(t, observation, bankId, sources, now), observation)
    ensures LinkedAll(t, observation, bankId, sources, now).nodes == t.nodes
    ensures LinkedAll(t, observation, bankId, sources, now).vectors == t.vectors
    decreases |sources|
  {
    hide ValidBut;
    if sources == [] {
    } else {
      LinkAllKeeps(t, observation, bankId, sources[..|sources| - 1], now);
      LinkKeeps(LinkedAll(t, observation, bankId, sources[..|sources| - 1], now), observation, bankId, sources[|sources| - 1], now);
    }
  }

  lemma RecountKeeps(t: Tables, observation: int)
    requires ValidBut(t, observation)
    ensures Valid(Recounted(t, observation))
  {}

  lemma ValidIsValidBut(t: Tables, id: int)
    requires Valid(t) && id in t.nodes
    ensures ValidBut(t, id)
  {}

  lemma UnionKeeps(t: Tables, keep: int, drop: int)
    requires Valid(t) && keep in t.nodes && drop in t.nodes && t.nodes[keep].bankId == t.nodes[drop].bankId
    ensures ValidBut(Union(t, keep, drop), keep)
  {
    var after := Union(t, keep, drop);
    forall k | k in t.nodes && k != keep
      ensures SourcesOf(after.sources, k) == SourcesOf(t.sources, k)
    {
      OtherSources(t.sources, after.sources, keep, k);
    }
  }

  lemma TextKeepsBut(t: Tables, id: int, text: string, now: int)
    requires ValidBut(t, id)
    ensures ValidBut(TextUpdated(t, id, text, now), id)
  {}

  lemma DeleteKeepsBut(t: Tables, id: int, drop: int)
    requires ValidBut(t, id) && drop in t.nodes && drop != id
    ensures ValidBut(Deleted(t, drop), id)
  {
    var after := Deleted(t, drop);
    forall k | k in after.nodes && k != id
      ensures after.nodes[k].proofCount == |SourcesOf(after.sources, k)|
    {
      SourcesWithout(t.sources, drop, k);
    }
    DeleteButRest(t, id, drop);
  }

  lemma DeleteButRest(t: Tables, id: int, drop: int)
    requires ValidBut(t, id) && drop in t.nodes && drop != id
    ensures var after := Deleted(t, drop);
            UuidsUnique(after) && KeysHold(after) && EmbeddingsIndexed(after) && SupersededLater(after) && id in after.nodes
  {
    hide SourcesOf;
  }
}
