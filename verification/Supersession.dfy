/**
 Chains of supersession: acyclic, rising in age within one bank, ending in a
 node that nothing supersedes; and the one place that filters the retracted.
 */
module Supersession {
  import opened Wrappers
  import opened Tables

  /** The nodes later than `id`. */
  ghost function LaterThan(t: Tables, id: int): set<int>
    requires id in t.nodes
  {
    set k | k in t.nodes && Earlier(t, id, k)
  }

  lemma LaterShrinks(t: Tables, id: int, later: int)
    requires id in t.nodes && later in t.nodes && Earlier(t, id, later)
    ensures |LaterThan(t, later)| < |LaterThan(t, id)|
  {
    assert later in LaterThan(t, id) && later !in LaterThan(t, later);
    ProperSubsetIsSmaller(LaterThan(t, later), LaterThan(t, id));
  }

  lemma {:induction false} ProperSubsetIsSmaller(a: set<int>, b: set<int>)
    requires a < b
    ensures |a| < |b|
  {
    var rest := b - a;
    assert b == a + rest;
    assert rest != {};
    assert |rest| > 0;
  }

  /** The node a chain of supersession from `id` ends in. */
  ghost function ChainEnd(t: Tables, id: int): (r: int)
    requires SupersededLater(t) && id in t.nodes
    ensures r in t.nodes && t.nodes[r].supersededBy.None?
    ensures t.nodes[r].bankId == t.nodes[id].bankId
    ensures r == id || Earlier(t, id, r)
    decreases |LaterThan(t, id)|
  {
    if t.nodes[id].supersededBy.None? then id
    else
      var later := t.nodes[id].supersededBy.value;
      LaterShrinks(t, id, later);
      ChainEnd(t, later)
  }

  ghost predicate IsChain(t: Tables, chain: seq<int>) {
    && (forall k :: 0 <= k < |chain| ==> chain[k] in t.nodes)
    && (forall k :: 0 <= k < |chain| - 1 ==> t.nodes[chain[k]].supersededBy == Some(chain[k + 1]))
  }

  /** Every later link of a chain is a later node, of the same bank: no chain
      comes back to where it was. */
  lemma {:induction false} ChainsRise(t: Tables, chain: seq<int>, i: nat, j: nat)
    requires SupersededLater(t) && IsChain(t, chain) && i < j < |chain|
    ensures Earlier(t, chain[i], chain[j]) && chain[i] != chain[j]
    ensures t.nodes[chain[i]].bankId == t.nodes[chain[j]].bankId
    decreases j
  {
    if i == j - 1 {
    } else {
      ChainsRise(t, chain, i, j - 1);
    }
    assert t.nodes[chain[j - 1]].supersededBy == Some(chain[j]);
  }

  /** The retraction guard is exactly what it takes: a pair that fails it is
      one that would break the order, leave the bank or repoint a retraction. */
  lemma GuardIsExact(t: Tables, bankId: string, retracted: int, replacement: int, now: int)
    requires Valid(t) && retracted in t.nodes && t.nodes[retracted].bankId == bankId && t.nodes[retracted].supersededBy.None?
    ensures
      var after := t.(nodes := t.nodes[retracted := t.nodes[retracted].(supersededBy := Some(replacement), updatedAt := now)]);
      SupersededLater(after) <==> MaySupersede(t, bankId, retracted, replacement)
  {
    var after := t.(nodes := t.nodes[retracted := t.nodes[retracted].(supersededBy := Some(replacement), updatedAt := now)]);
    if SupersededLater(after) {
      assert after.nodes[retracted].supersededBy == Some(replacement);
    }
  }

  // ---------- Reading ----------

  /** The rows of `ids` that recall may use at `now`. */
  function Hydrated(t: Tables, bankId: string, ids: seq<int>, now: int): map<int, Node> {
    map id | id in t.nodes && id in ids && t.nodes[id].bankId == bankId && t.nodes[id].supersededBy.None?
             && (t.nodes[id].expiresAt.None? || t.nodes[id].expiresAt.value > now) :: t.nodes[id]
  }

  /** A retracted node is never served, and what replaces it in the end may be:
      it is live unless it has expired. */
  lemma ServedInstead(t: Tables, bankId: string, ids: seq<int>, now: int, id: int)
    requires Valid(t) && id in t.nodes && t.nodes[id].bankId == bankId
    ensures
      var end := ChainEnd(t, id);
      && (t.nodes[id].supersededBy.Some? ==> id !in Hydrated(t, bankId, ids, now) && end != id)
      && (end in ids && t.nodes[end].expiresAt.None? ==> end in Hydrated(t, bankId, ids, now))
  {
    if t.nodes[id].supersededBy.Some? {
      LaterShrinks(t, id, t.nodes[id].supersededBy.value);
    }
  }

  /** Nothing but its retraction keeps `id` from being served. */
  predicate LiveButRetracted(t: Tables, bankId: string, ids: seq<int>, now: int, id: int) {
    && id in t.nodes && id in ids && t.nodes[id].bankId == bankId && t.nodes[id].supersededBy.Some?
    && (t.nodes[id].expiresAt.None? || t.nodes[id].expiresAt.value > now)
  }

  /** Deleting a node takes it out of every answer and puts in exactly the
      live nodes it had superseded, each with the text and the vector it had;
      every other node is served as before or not at all as before. */
  lemma DeleteRevives(t: Tables, bankId: string, ids: seq<int>, now: int, id: int, k: int)
    requires Valid(t)
    ensures
      var before, after := Hydrated(t, bankId, ids, now), Hydrated(Deleted(t, id), bankId, ids, now);
      && (k in after <==>
            k != id && (k in before || (LiveButRetracted(t, bankId, ids, now, k) && t.nodes[k].supersededBy == Some(id))))
      && (k in after ==> after[k].text == t.nodes[k].text && after[k].embedding == t.nodes[k].embedding)
  {}
}
