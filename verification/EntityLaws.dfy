/** What a batch of facts leaves in the entity tables, column by column. */
module EntityLaws {
  import opened Wrappers
  import opened Entities

  /** The least of what is there. */
  predicate IsLeast(m: int, kept: Option<int>, given: int) {
    m <= given && (kept.Some? ==> m <= kept.value) && (m == given || kept == Some(m))
  }

  predicate IsGreatest(m: int, kept: Option<int>, given: int) {
    given <= m && (kept.Some? ==> kept.value <= m) && (m == given || kept == Some(m))
  }

  /** A known entity gets the batch's mentions on top of its own, and its dates
      widen to take in the batch; a new one starts with the batch's. */
  lemma MergedColumns(rows: Rows, id: int, bankId: string, name: string, stat: Stat, now: int)
    ensures
      var after := Merged(rows, id, bankId, name, stat, now);
      if id in rows then
        && after.bankId == rows[id].bankId && after.canonicalName == rows[id].canonicalName && after.createdAt == rows[id].createdAt
        && after.mentionCount == rows[id].mentionCount + stat.count
        && after.firstSeen.Some? && IsLeast(after.firstSeen.value, rows[id].firstSeen, stat.first)
        && after.lastSeen.Some? && IsGreatest(after.lastSeen.value, rows[id].lastSeen, stat.last)
      else
        && after.bankId == bankId && after.canonicalName == name && after.createdAt == now && after.mentionCount == stat.count
        && after.firstSeen == Some(stat.first) && after.lastSeen == Some(stat.last)
  {}

  /** One fact mentions a name as often as it lists it. */
  lemma MentionsOfOne(fact: Fact, name: string)
    ensures Mentions([fact], name) == multiset(fact.names)[name]
  {
    assert [fact][..0] == [];
  }

  /** The fact lists both entities. */
  predicate Lists(fact: Fact, ids: map<string, int>, x: int) {
    exists n :: n in fact.names && n in ids && ids[n] == x
  }

  /** One fact is shared by two entities when it lists both; the smaller id comes
      first. */
  lemma SharedOfOne(fact: Fact, ids: map<string, int>, k: (int, int))
    ensures Shared([fact], ids, k) == if k.0 < k.1 && Lists(fact, ids, k.0) && Lists(fact, ids, k.1) then 1 else 0
  {
    assert [fact][..0] == [];
  }

  /** The greater of the date on record and the batch's. */
  predicate MetLast(at: int, kept: Option<int>, shared: Option<int>) {
    shared.Some? && IsGreatest(at, kept, shared.value)
  }

  /** After a batch a pair has met as often as before and once more for every
      fact of the batch that lists both, last at the latest date of all. */
  lemma PairsAfter(table: Pairs, pairs: Pairs, facts: seq<Fact>, ids: map<string, int>, k: (int, int))
    requires Folds(pairs, facts, ids)
    ensures
      var after := Folded(table, pairs);
      var shared := Shared(facts, ids, k);
      && (k in after <==> k in table || shared > 0)
      && (k in after ==>
            && after[k].count == (if k in table then table[k].count else 0) + shared
            && (shared == 0 ==> after[k] == table[k])
            && (shared > 0 ==> MetLast(after[k].lastCooccurred, if k in table then Some(table[k].lastCooccurred) else None,
                                       LastShared(facts, ids, k))))
  {
    hide Shared, LastShared;
  }

  predicate Attaches(fact: Fact, ids: map<string, int>, n: int, x: int) {
    fact.nodeId == n && Lists(fact, ids, x)
  }

  /** A node is attached to exactly the entities that a fact of it lists. */
  lemma {:induction false} AttachedExactly(facts: seq<Fact>, ids: map<string, int>, n: int, x: int)
    ensures (n, x) in AttachedAll(facts, ids) <==> exists i :: 0 <= i < |facts| && Attaches(facts[i], ids, n, x)
    decreases |facts|
  {
    if facts == [] {
    } else {
      var last := |facts| - 1;
      AttachedExactly(facts[..last], ids, n, x);
      AttachedByOne(facts[last], ids, n, x);
      hide Attaches, Attached;
      assert forall i :: 0 <= i < last ==> facts[..last][i] == facts[i];
    }
  }

  lemma AttachedByOne(fact: Fact, ids: map<string, int>, n: int, x: int)
    ensures (n, x) in Attached(fact, ids) <==> Attaches(fact, ids, n, x)
  {}
}
