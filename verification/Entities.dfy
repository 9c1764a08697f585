/**
 Writing the entities of a batch of facts: mentions counted per entity, each
 attached to its node, and the pairs that share a fact folded, in one
 transaction. Names come resolved and normalized.
 */
module Entities {
  import opened Common
  import opened Wrappers

  datatype Entity = Entity(bankId: string, canonicalName: string, createdAt: int, mentionCount: int, firstSeen: Option<int>,
                           lastSeen: Option<int>)

  /** How often two entities shared a fact, and when last. */
  datatype Pair = Pair(count: int, lastCooccurred: int)

  datatype Fact = Fact(nodeId: int, names: seq<string>, seenAt: int)

  type Rows = map<int, Entity>

  // ---------- What a batch says ----------

  function Times(names: seq<string>, name: string): nat { multiset(names)[name] }

  /** How many times the batch names an entity. */
  function Mentions(facts: seq<Fact>, name: string): nat {
    if facts == [] then 0 else Mentions(facts[..|facts| - 1], name) + Times(facts[|facts| - 1].names, name)
  }

  predicate NamedBy(facts: seq<Fact>, name: string) {
    exists k :: 0 <= k < |facts| && name in facts[k].names
  }

  predicate Earliest(facts: seq<Fact>, name: string, at: int) {
    && (forall k :: 0 <= k < |facts| && name in facts[k].names ==> at <= facts[k].seenAt)
    && exists k :: 0 <= k < |facts| && name in facts[k].names && at == facts[k].seenAt
  }

  predicate Latest(facts: seq<Fact>, name: string, at: int) {
    && (forall k :: 0 <= k < |facts| && name in facts[k].names ==> facts[k].seenAt <= at)
    && exists k :: 0 <= k < |facts| && name in facts[k].names && at == facts[k].seenAt
  }

  datatype Stat = Stat(count: nat, first: int, last: int)

  type Stats = map<string, Stat>

  /** The fold of the mentions of a batch. */
  ghost predicate Counts(stats: Stats, facts: seq<Fact>) {
    && (forall name :: name in stats <==> NamedBy(facts, name))
    && (forall name :: name in stats ==>
          && stats[name].count == Mentions(facts, name)
          && Earliest(facts, name, stats[name].first) && Latest(facts, name, stats[name].last))
  }

  function Bump(stats: Stats, name: string, seenAt: int): Stats {
    var slot := if name in stats then stats[name] else Stat(0, seenAt, seenAt);
    stats[name := Stat(slot.count + 1, Min(slot.first, seenAt), Max(slot.last, seenAt))]
  }

  /** The batch with only the first `n` names of its last fact. */
  function Upto(facts: seq<Fact>, last: Fact, n: nat): seq<Fact>
    requires n <= |last.names|
  {
    facts + [last.(names := last.names[..n])]
  }

  lemma BumpCounts(stats: Stats, facts: seq<Fact>, last: Fact, n: nat)
    requires n < |last.names| && Counts(stats, Upto(facts, last, n))
    ensures Counts(Bump(stats, last.names[n], last.seenAt), Upto(facts, last, n + 1))
  {
    hide Mentions, NamedBy, Earliest, Latest, Upto;
    var before, after := Upto(facts, last, n), Upto(facts, last, n + 1);
    var name := last.names[n];
    UptoGrows(facts, last, n);
    var bumped := Bump(stats, name, last.seenAt);
    forall x
      ensures NamedBy(after, x) <==> NamedBy(before, x) || x == name
    {
      OneNameMore(before, after, |facts|, name, x);
    }
    forall x | x in bumped
      ensures bumped[x].count == Mentions(after, x)
      ensures Earliest(after, x, bumped[x].first) && Latest(after, x, bumped[x].last)
    {
      CountGrows(facts, last, n, x);
      if x !in stats {
        Unnamed(before, x);
      }
      SpanGrows(stats, before, after, |facts|, name, last.seenAt, x);
    }
  }

  lemma UptoGrows(facts: seq<Fact>, last: Fact, n: nat)
    requires n < |last.names|
    ensures
      var before, after := Upto(facts, last, n), Upto(facts, last, n + 1);
      && |before| == |after| == |facts| + 1
      && before[..|facts|] == after[..|facts|] && before[|facts| + 1..] == after[|facts| + 1..] == []
      && after[|facts|].names == before[|facts|].names + [last.names[n]]
      && before[|facts|].seenAt == after[|facts|].seenAt == last.seenAt
  {}

  lemma CountGrows(facts: seq<Fact>, last: Fact, n: nat, x: string)
    requires n < |last.names|
    ensures Mentions(Upto(facts, last, n + 1), x) == Mentions(Upto(facts, last, n), x) + if x == last.names[n] then 1 else 0
  {
    assert last.names[..n + 1] == last.names[..n] + [last.names[n]];
    assert Upto(facts, last, n)[..|facts|] == facts && Upto(facts, last, n + 1)[..|facts|] == facts;
  }

  lemma {:induction false} Unnamed(facts: seq<Fact>, x: string)
    requires !NamedBy(facts, x)
    ensures Mentions(facts, x) == 0
    decreases |facts|
  {
    if facts == [] {
    } else {
      Unnamed(facts[..|facts| - 1], x);
      assert x !in facts[|facts| - 1].names;
    }
  }

  lemma OneNameMore(before: seq<Fact>, after: seq<Fact>, k: nat, name: string, x: string)
    requires k < |before| == |after| && before[..k] == after[..k] && before[k + 1..] == after[k + 1..] == []
    requires after[k].names == before[k].names + [name]
    ensures NamedBy(after, x) <==> NamedBy(before, x) || x == name
  {
    forall i | 0 <= i < k
      ensures before[i] == after[i]
    {
      assert before[..k][i] == after[..k][i];
    }
    if x == name {
      assert x in after[k].names;
    }
    if NamedBy(before, x) {
      var i :| 0 <= i < |before| && x in before[i].names;
      assert x in after[i].names;
    }
    if NamedBy(after, x) && x != name {
      var i :| 0 <= i < |after| && x in after[i].names;
      assert x in before[i].names;
    }
  }

  lemma SpanGrows(stats: Stats, before: seq<Fact>, after: seq<Fact>, k: nat, name: string, seenAt: int, x: string)
    requires k < |before| == |after| && before[..k] == after[..k] && before[k + 1..] == after[k + 1..] == []
    requires after[k].names == before[k].names + [name] && before[k].seenAt == after[k].seenAt == seenAt
    requires x in stats <==> NamedBy(before, x)
    requires x in stats ==> Earliest(before, x, stats[x].first) && Latest(before, x, stats[x].last)
    requires x in Bump(stats, name, seenAt)
    ensures
      var bumped := Bump(stats, name, seenAt);
      Earliest(after, x, bumped[x].first) && Latest(after, x, bumped[x].last)
  {
    forall i | 0 <= i < |after|
      ensures before[i].seenAt == after[i].seenAt
      ensures x in after[i].names <==> x in before[i].names || (i == k && x == name)
    {
      if i < k {
        assert before[..k][i] == after[..k][i];
      }
    }
    assert x == name ==> x in after[k].names;
  }

  method CountMentions(facts: seq<Fact>) returns (stats: Stats)
    ensures Counts(stats, facts)
  {
    hide Counts, Bump;
    stats := map[];
    NothingCounted();
    for i := 0 to |facts|
      invariant Counts(stats, facts[..i])
    {
      var fact := facts[i];
      NoNamesYet(stats, facts[..i], fact);
      for n := 0 to |fact.names|
        invariant Counts(stats, Upto(facts[..i], fact, n))
      {
        BumpCounts(stats, facts[..i], fact, n);
        stats := Bump(stats, fact.names[n], fact.seenAt);
      }
      assert fact.names[..|fact.names|] == fact.names;
      assert Upto(facts[..i], fact, |fact.names|) == facts[..i + 1];
    }
    assert facts[..|facts|] == facts;
  }

  lemma NothingCounted()
    ensures Counts(map[], [])
  {}

  lemma NoNamesYet(stats: Stats, facts: seq<Fact>, fact: Fact)
    requires Counts(stats, facts)
    ensures Counts(stats, Upto(facts, fact, 0))
  {
    hide NamedBy, Earliest, Latest, Mentions, Upto;
    forall name
      ensures NamedBy(Upto(facts, fact, 0), name) <==> NamedBy(facts, name)
      ensures Mentions(Upto(facts, fact, 0), name) == Mentions(facts, name)
    {
      NamelessFact(facts, fact, name);
    }
    forall name | name in stats
      ensures Earliest(Upto(facts, fact, 0), name, stats[name].first) && Latest(Upto(facts, fact, 0), name, stats[name].last)
    {
      NamelessSpan(facts, fact, name, stats[name].first, stats[name].last);
    }
  }

  lemma NamelessFact(facts: seq<Fact>, fact: Fact, name: string)
    ensures NamedBy(Upto(facts, fact, 0), name) <==> NamedBy(facts, name)
    ensures Mentions(Upto(facts, fact, 0), name) == Mentions(facts, name)
  {
    var after := Upto(facts, fact, 0);
    assert after[..|facts|] == facts && after[|facts|].names == [];
    if NamedBy(facts, name) {
      var i :| 0 <= i < |facts| && name in facts[i].names;
      assert after[i] == facts[i];
    }
    if NamedBy(after, name) {
      var i :| 0 <= i < |after| && name in after[i].names;
      assert after[i] == facts[i];
    }
  }

  lemma NamelessSpan(facts: seq<Fact>, fact: Fact, name: string, first: int, last: int)
    requires Earliest(facts, name, first) && Latest(facts, name, last)
    ensures Earliest(Upto(facts, fact, 0), name, first) && Latest(Upto(facts, fact, 0), name, last)
  {
    var after := Upto(facts, fact, 0);
    assert after[|facts|].names == [];
    forall i | 0 <= i < |facts|
      ensures after[i] == facts[i]
    {}
  }

  /** Two batches count like one after the other. */
  lemma {:induction false} MentionsAdd(a: seq<Fact>, b: seq<Fact>, name: string)
    ensures Mentions(a + b, name) == Mentions(a, name) + Mentions(b, name)
    decreases |b|
  {
    if b == [] {
      assert a + b == a;
    } else {
      MentionsAdd(a, b[..|b| - 1], name);
      assert (a + b)[..|a + b| - 1] == a + b[..|b| - 1];
    }
  }

  // ---------- Upserting the entities ----------

  ghost predicate KeysUnique(rows: Rows) {
    forall i, j :: i in rows && j in rows && rows[i].bankId == rows[j].bankId && rows[i].canonicalName == rows[j].canonicalName
      ==> i == j
  }

  predicate IsEntity(rows: Rows, bankId: string, name: string, id: int) {
    id in rows && rows[id].bankId == bankId && rows[id].canonicalName == name
  }

  function Coalesce(x: Option<int>, y: int): int { if x.Some? then x.value else y }

  /** An entity after an insert-or-merge of its share of the batch. */
  function Merged(rows: Rows, id: int, bankId: string, name: string, stat: Stat, now: int): Entity {
    if id in rows then
      rows[id].(mentionCount := rows[id].mentionCount + stat.count,
                firstSeen := Some(Min(Coalesce(rows[id].firstSeen, stat.first), stat.first)),
                lastSeen := Some(Max(Coalesce(rows[id].lastSeen, stat.last), stat.last)))
    else Entity(bankId, name, now, stat.count, Some(stat.first), Some(stat.last))
  }

  /** The rows after the entities in `ids` were written: theirs merged, the
      others as they were. */
  ghost predicate Wrote(ids: map<string, int>, id: int) {
    exists name :: name in ids && ids[name] == id
  }

  ghost predicate Written(before: Rows, after: Rows, ids: map<string, int>, bankId: string, stats: Stats, now: int) {
    && KeysUnique(after)
    && (forall name :: name in ids ==>
          && name in stats && IsEntity(after, bankId, name, ids[name])
          && after[ids[name]] == Merged(before, ids[name], bankId, name, stats[name], now)
          && (ids[name] in before ==> IsEntity(before, bankId, name, ids[name])))
    && (forall id :: id in before ==> id in after && (after[id] == before[id] || Wrote(ids, id)))
    && (forall id :: id in after ==> id in before || Wrote(ids, id))
  }

  lemma NothingWritten(rows: Rows, bankId: string, stats: Stats, now: int)
    requires KeysUnique(rows)
    ensures Written(rows, rows, map[], bankId, stats, now)
  {}

  lemma OneWritten(before: Rows, after: Rows, ids: map<string, int>, bankId: string, stats: Stats, now: int, name: string, id: int)
    requires Written(before, after, ids, bankId, stats, now) && name in stats && name !in ids
    requires if id in after then IsEntity(after, bankId, name, id) else forall k :: !IsEntity(after, bankId, name, k)
    ensures Written(before, after[id := Merged(after, id, bankId, name, stats[name], now)], ids[name := id], bankId, stats, now)
  {
    hide KeysUnique, Merged;
    var more := ids[name := id];
    NotWrittenYet(before, after, ids, bankId, stats, now, name, id);
    assert more[name] == id;
    forall other | other in ids
      ensures more[other] == ids[other] != id
    {}
    forall k | Wrote(ids, k) || k == id
      ensures Wrote(more, k)
    {
      if k != id {
        var other :| other in ids && ids[other] == k;
        assert more[other] == k;
      }
    }
    WrittenKeepsKeys(before, after, ids, bankId, stats, now, name, id);
  }

  lemma NotWrittenYet(before: Rows, after: Rows, ids: map<string, int>, bankId: string, stats: Stats, now: int, name: string, id: int)
    requires Written(before, after, ids, bankId, stats, now) && name in stats && name !in ids
    requires if id in after then IsEntity(after, bankId, name, id) else forall k :: !IsEntity(after, bankId, name, k)
    ensures !Wrote(ids, id)
    ensures id in after <==> id in before
    ensures id in before ==> after[id] == before[id] && IsEntity(before, bankId, name, id)
    ensures Merged(after, id, bankId, name, stats[name], now) == Merged(before, id, bankId, name, stats[name], now)
    ensures IsEntity(after[id := Merged(after, id, bankId, name, stats[name], now)], bankId, name, id)
  {
    hide KeysUnique;
  }

  lemma WrittenKeepsKeys(before: Rows, after: Rows, ids: map<string, int>, bankId: string, stats: Stats, now: int, name: string, id: int)
    requires KeysUnique(after) && name in stats
    requires if id in after then IsEntity(after, bankId, name, id) else forall k :: !IsEntity(after, bankId, name, k)
    ensures KeysUnique(after[id := Merged(after, id, bankId, name, stats[name], now)])
  {
    forall k | k in after && after[k].bankId == bankId && after[k].canonicalName == name
      ensures k == id
    {
      assert IsEntity(after, bankId, name, k);
    }
  }

  // ---------- Pairs ----------

  function IdsOf(names: seq<string>, ids: map<string, int>): set<int> {
    set n | n in names && n in ids :: ids[n]
  }

  predicate Together(fact: Fact, ids: map<string, int>, k: (int, int)) {
    k.0 < k.1 && k.0 in IdsOf(fact.names, ids) && k.1 in IdsOf(fact.names, ids)
  }

  /** How many facts of the batch name both entities. */
  function Shared(facts: seq<Fact>, ids: map<string, int>, k: (int, int)): nat {
    if facts == [] then 0
    else Shared(facts[..|facts| - 1], ids, k) + if Together(facts[|facts| - 1], ids, k) then 1 else 0
  }

  /** When they last shared one. */
  function LastShared(facts: seq<Fact>, ids: map<string, int>, k: (int, int)): Option<int> {
    if facts == [] then None
    else
      var before := LastShared(facts[..|facts| - 1], ids, k);
      var fact := facts[|facts| - 1];
      if !Together(fact, ids, k) then before
      else Some(if before.Some? then Max(before.value, fact.seenAt) else fact.seenAt)
  }

  lemma {:induction false} LastSharedIsLatest(facts: seq<Fact>, ids: map<string, int>, k: (int, int))
    ensures var last := LastShared(facts, ids, k);
            && (last.None? <==> Shared(facts, ids, k) == 0)
            && (last.None? ==> forall i :: 0 <= i < |facts| ==> !Together(facts[i], ids, k))
            && (last.Some? ==> exists i :: 0 <= i < |facts| && Together(facts[i], ids, k) && facts[i].seenAt == last.value)
            && (last.Some? ==> forall i :: 0 <= i < |facts| && Together(facts[i], ids, k) ==> facts[i].seenAt <= last.value)
    decreases |facts|
  {
    hide Together;
    if facts == [] {
    } else {
      var n := |facts| - 1;
      LastSharedIsLatest(facts[..n], ids, k);
      forall i | 0 <= i < n
        ensures facts[..n][i] == facts[i]
      {}
      var before := LastShared(facts[..n], ids, k);
      if before.Some? {
        var i :| 0 <= i < n && Together(facts[..n][i], ids, k) && facts[..n][i].seenAt == before.value;
        assert Together(facts[i], ids, k);
      }
    }
  }

  type Pairs = map<(int, int), Pair>

  ghost predicate Folds(pairs: Pairs, facts: seq<Fact>, ids: map<string, int>) {
    && (forall k :: k in pairs <==> Shared(facts, ids, k) > 0)
    && (forall k :: k in pairs ==>
          pairs[k].count == Shared(facts, ids, k) && Some(pairs[k].lastCooccurred) == LastShared(facts, ids, k))
  }

  function BumpPair(pairs: Pairs, k: (int, int), seenAt: int): Pair {
    if k in pairs then Pair(pairs[k].count + 1, Max(pairs[k].lastCooccurred, seenAt)) else Pair(1, seenAt)
  }

  predicate Rising(s: seq<int>) { forall i, j :: 0 <= i < j < |s| ==> s[i] < s[j] }

  /** The pair of positions `p`, `q` comes before `i`, `j` in the nested loops. */
  predicate DoneAt(p: int, q: int, i: int, j: int) { p < q && (p < i || (p == i && q < j)) }

  ghost predicate Bumped(before: Pairs, after: Pairs, nodeIds: seq<int>, seenAt: int, i: int, j: int) {
    && (forall p, q :: 0 <= p < |nodeIds| && 0 <= q < |nodeIds| && DoneAt(p, q, i, j) ==>
          var k := (nodeIds[p], nodeIds[q]); k in after && after[k] == BumpPair(before, k, seenAt))
    && (forall p, q :: 0 <= p < |nodeIds| && 0 <= q < |nodeIds| && !DoneAt(p, q, i, j) ==>
          Same(before, after, (nodeIds[p], nodeIds[q])))
    && (forall k: (int, int) :: k.0 !in nodeIds || k.1 !in nodeIds ==> Same(before, after, k))
  }

  predicate Same(before: Pairs, after: Pairs, k: (int, int)) {
    (k in before <==> k in after) && (k in before ==> before[k] == after[k])
  }

  lemma BumpedOne(before: Pairs, after: Pairs, nodeIds: seq<int>, seenAt: int, i: nat, j: nat)
    requires i < j < |nodeIds| && Rising(nodeIds) && Bumped(before, after, nodeIds, seenAt, i, j)
    ensures
      var k := (nodeIds[i], nodeIds[j]);
      Bumped(before, after[k := BumpPair(after, k, seenAt)], nodeIds, seenAt, i, j + 1)
  {
    hide BumpPair;
    var k := (nodeIds[i], nodeIds[j]);
    var more := after[k := BumpPair(after, k, seenAt)];
    assert !DoneAt(i, j, i, j) && Same(before, after, k);
    SameBump(before, after, k, seenAt);
    forall p, q | 0 <= p < |nodeIds| && 0 <= q < |nodeIds|
      ensures
        var x := (nodeIds[p], nodeIds[q]);
        if DoneAt(p, q, i, j + 1) then x in more && more[x] == BumpPair(before, x, seenAt) else Same(before, more, x)
    {
      OnePlace(nodeIds, i, j, p, q);
      assert DoneAt(p, q, i, j + 1) <==> DoneAt(p, q, i, j) || (p == i && q == j);
      if !(p == i && q == j) {
        assert (nodeIds[p], nodeIds[q]) != k;
      }
    }
  }

  lemma SameBump(before: Pairs, after: Pairs, k: (int, int), seenAt: int)
    requires Same(before, after, k)
    ensures BumpPair(after, k, seenAt) == BumpPair(before, k, seenAt)
  {}

  lemma OnePlace(nodeIds: seq<int>, i: nat, j: nat, p: nat, q: nat)
    requires Rising(nodeIds) && i < |nodeIds| && j < |nodeIds| && p < |nodeIds| && q < |nodeIds|
    ensures (nodeIds[p], nodeIds[q]) == (nodeIds[i], nodeIds[j]) <==> p == i && q == j
  {}

  lemma BumpedRow(before: Pairs, after: Pairs, nodeIds: seq<int>, seenAt: int, i: nat)
    requires i < |nodeIds| && Bumped(before, after, nodeIds, seenAt, i, |nodeIds|)
    ensures Bumped(before, after, nodeIds, seenAt, i + 1, i + 2)
  {
    forall p, q | 0 <= p < |nodeIds| && 0 <= q < |nodeIds|
      ensures DoneAt(p, q, i + 1, i + 2) <==> DoneAt(p, q, i, |nodeIds|)
    {}
  }

  lemma BumpedNone(pairs: Pairs, nodeIds: seq<int>, seenAt: int)
    ensures Bumped(pairs, pairs, nodeIds, seenAt, 0, 1)
  {}

  /** Every pair of one fact, each once: the ids are distinct and rise. */
  method BumpAll(pairs: Pairs, nodeIds: seq<int>, seenAt: int) returns (after: Pairs)
    requires Rising(nodeIds)
    ensures Bumped(pairs, after, nodeIds, seenAt, |nodeIds|, |nodeIds| + 1)
  {
    hide Bumped, Rising, BumpPair;
    after := pairs;
    BumpedNone(pairs, nodeIds, seenAt);
    for i := 0 to |nodeIds|
      invariant Bumped(pairs, after, nodeIds, seenAt, i, i + 1)
    {
      for j := i + 1 to |nodeIds|
        invariant Bumped(pairs, after, nodeIds, seenAt, i, j)
      {
        BumpedOne(pairs, after, nodeIds, seenAt, i, j);
        var k := (nodeIds[i], nodeIds[j]);
        after := after[k := BumpPair(after, k, seenAt)];
      }
      BumpedRow(pairs, after, nodeIds, seenAt, i);
    }
  }

  lemma FoldsOneMore(pairs: Pairs, after: Pairs, facts: seq<Fact>, fact: Fact, ids: map<string, int>, nodeIds: seq<int>)
    requires Folds(pairs, facts, ids) && Rising(nodeIds)
    requires forall x :: x in nodeIds <==> x in IdsOf(fact.names, ids)
    requires Bumped(pairs, after, nodeIds, fact.seenAt, |nodeIds|, |nodeIds| + 1)
    ensures Folds(after, facts + [fact], ids)
  {
    hide IdsOf, BumpPair;
    var more := facts + [fact];
    assert more[..|facts|] == facts;
    forall k: (int, int)
      ensures if Together(fact, ids, k) then k in after && after[k] == BumpPair(pairs, k, fact.seenAt) else Same(pairs, after, k)
    {
      if k.0 in nodeIds && k.1 in nodeIds {
        var p :| 0 <= p < |nodeIds| && nodeIds[p] == k.0;
        var q :| 0 <= q < |nodeIds| && nodeIds[q] == k.1;
        assert k == (nodeIds[p], nodeIds[q]);
        assert DoneAt(p, q, |nodeIds|, |nodeIds| + 1) <==> Together(fact, ids, k);
      }
    }
    FoldsByStep(pairs, after, facts, fact, ids);
  }

  lemma FoldsByStep(pairs: Pairs, after: Pairs, facts: seq<Fact>, fact: Fact, ids: map<string, int>)
    requires Folds(pairs, facts, ids)
    requires forall k: (int, int) ::
      if Together(fact, ids, k) then k in after && after[k] == BumpPair(pairs, k, fact.seenAt) else Same(pairs, after, k)
    ensures Folds(after, facts + [fact], ids)
  {
    hide Together;
    assert (facts + [fact])[..|facts|] == facts;
    forall k: (int, int)
      ensures Shared(facts, ids, k) == 0 ==> LastShared(facts, ids, k).None?
    {
      LastSharedIsLatest(facts, ids, k);
    }
  }

  /** What a fact attaches to its node. */
  function Attached(fact: Fact, ids: map<string, int>): set<(int, int)> {
    set x | x in IdsOf(fact.names, ids) :: (fact.nodeId, x)
  }

  function AttachedAll(facts: seq<Fact>, ids: map<string, int>): set<(int, int)> {
    if facts == [] then {} else AttachedAll(facts[..|facts| - 1], ids) + Attached(facts[|facts| - 1], ids)
  }

  /** The pair table after a batch: counts added, dates raised. */
  function Folded(table: Pairs, batch: Pairs): Pairs {
    map k | k in table.Keys + batch.Keys ::
      if k !in batch then table[k]
      else if k !in table then batch[k]
      else Pair(table[k].count + batch[k].count, Max(table[k].lastCooccurred, batch[k].lastCooccurred))
  }

  lemma FoldedOne(table: Pairs, batch: Pairs, left: Pairs, k: (int, int))
    requires k in left && forall x :: x in left ==> x in batch
    ensures
      var sofar := Folded(table, batch - left.Keys);
      Folded(table, batch - (left.Keys - {k}))
      == sofar[k := if k in sofar then Pair(sofar[k].count + batch[k].count, Max(sofar[k].lastCooccurred, batch[k].lastCooccurred))
                    else batch[k]]
  {}

  /** Sorted, without repeats. */
  method SortedIds(names: seq<string>, ids: map<string, int>) returns (nodeIds: seq<int>)
    ensures Rising(nodeIds) && forall x :: x in nodeIds <==> x in IdsOf(names, ids)
  {
    nodeIds := [];
    for n := 0 to |names|
      invariant Rising(nodeIds) && forall x :: x in nodeIds <==> x in IdsOf(names[..n], ids)
    {
      assert names[..n + 1] == names[..n] + [names[n]];
      if names[n] in ids {
        nodeIds := InsertId(nodeIds, ids[names[n]]);
      }
    }
    assert names[..|names|] == names;
  }

  method InsertId(s: seq<int>, x: int) returns (r: seq<int>)
    requires Rising(s)
    ensures Rising(r) && forall y :: y in r <==> y in s || y == x
  {
    var i := 0;
    while i < |s| && s[i] < x
      invariant 0 <= i <= |s| && forall k :: 0 <= k < i ==> s[k] < x
    {
      i := i + 1;
    }
    if i < |s| && s[i] == x {
      return s;
    }
    r := s[..i] + [x] + s[i..];
    assert s == s[..i] + s[i..];
  }

  /** The names of a batch, in whatever order. */
  method PickName(left: Stats) returns (name: string)
    requires left.Keys != {}
    ensures name in left
  {
    name := Pick(left.Keys);
  }

  class Store {
    var banks: set<string>
    var nodes: set<int>
    var entities: Rows
    var nodeEntities: set<(int, int)>
    var cooccurrences: Pairs

    /** One row per bank and name, each pair stored once, the smaller first. */
    ghost predicate Valid()
      reads this
    {
      KeysUnique(entities) && forall k :: k in cooccurrences ==> k.0 < k.1
    }

    method Locate(bankId: string, name: string) returns (r: Option<int>)
      ensures r.Some? ==> IsEntity(entities, bankId, name, r.value)
      ensures r.None? ==> forall id :: !IsEntity(entities, bankId, name, id)
    {
      if id :| id in entities && IsEntity(entities, bankId, name, id) {
        r := Some(id);
      } else {
        r := None;
      }
    }

    method UpsertAll(bankId: string, stats: Stats, now: int) returns (ids: map<string, int>)
      requires KeysUnique(entities)
      modifies this`entities
      ensures Written(old(entities), entities, ids, bankId, stats, now) && ids.Keys == stats.Keys
    {
      hide Written, KeysUnique, Merged;
      ghost var before := entities;
      ids := map[];
      NothingWritten(entities, bankId, stats, now);
      var left := stats;
      while left.Keys != {}
        invariant Written(before, entities, ids, bankId, stats, now)
        invariant forall name :: name in stats <==> name in ids || name in left
        invariant forall name :: name in left ==> name !in ids
        decreases |left.Keys|
      {
        var name := PickName(left);
        var found := Locate(bankId, name);
        var id;
        if found.Some? {
          id := found.value;
        } else {
          id := FreshRowid(entities.Keys);
        }
        OneWritten(before, entities, ids, bankId, stats, now, name, id);
        entities := entities[id := Merged(entities, id, bankId, name, stats[name], now)];
        ids := ids[name := id];
        left := left - {name};
      }
    }

    method Attach(facts: seq<Fact>, ids: map<string, int>) returns (ok: bool)
      modifies this`nodeEntities
      ensures ok <==> forall k :: 0 <= k < |facts| && IdsOf(facts[k].names, ids) != {} ==> facts[k].nodeId in nodes
      ensures ok ==> nodeEntities == old(nodeEntities) + AttachedAll(facts, ids)
    {
      hide IdsOf;
      ok := true;
      for i := 0 to |facts|
        invariant nodeEntities == old(nodeEntities) + AttachedAll(facts[..i], ids)
        invariant forall k :: 0 <= k < i && IdsOf(facts[k].names, ids) != {} ==> facts[k].nodeId in nodes
      {
        var fact := facts[i];
        assert facts[..i + 1][..i] == facts[..i];
        if IdsOf(fact.names, ids) != {} && fact.nodeId !in nodes {
          return false;
        }
        nodeEntities := nodeEntities + Attached(fact, ids);
      }
      assert facts[..|facts|] == facts;
    }

    method FoldPairs(facts: seq<Fact>, ids: map<string, int>) returns (pairs: Pairs)
      ensures Folds(pairs, facts, ids)
    {
      hide Folds, IdsOf, Bumped, Rising;
      pairs := map[];
      NoPairs(ids);
      for i := 0 to |facts|
        invariant Folds(pairs, facts[..i], ids)
      {
        assert facts[..i + 1] == facts[..i] + [facts[i]];
        var nodeIds := SortedIds(facts[i].names, ids);
        var after := BumpAll(pairs, nodeIds, facts[i].seenAt);
        FoldsOneMore(pairs, after, facts[..i], facts[i], ids, nodeIds);
        pairs := after;
      }
      assert facts[..|facts|] == facts;
    }

    method WritePairs(pairs: Pairs)
      modifies this`cooccurrences
      ensures cooccurrences == Folded(old(cooccurrences), pairs)
    {
      hide Folded;
      ghost var table := cooccurrences;
      var left := pairs;
      NothingFolded(table, pairs);
      while left.Keys != {}
        invariant forall k :: k in left ==> k in pairs && left[k] == pairs[k]
        invariant cooccurrences == Folded(table, pairs - left.Keys)
        decreases |left.Keys|
      {
        var k := Pick(left.Keys);
        FoldedOne(table, pairs, left, k);
        cooccurrences := cooccurrences[k :=
          if k in cooccurrences then
            Pair(cooccurrences[k].count + left[k].count, Max(cooccurrences[k].lastCooccurred, left[k].lastCooccurred))
          else left[k]];
        left := left - {k};
      }
      assert pairs - left.Keys == pairs;
    }

    /** The whole batch, or an error and no change. */
    method WriteEntities(bankId: string, facts: seq<Fact>, now: int) returns (r: Option<map<string, int>>)
      requires Valid()
      modifies this
      ensures Valid() && banks == old(banks) && nodes == old(nodes)
      ensures r.None? <==> exists k :: 0 <= k < |facts| && facts[k].names != [] && (bankId !in banks || facts[k].nodeId !in nodes)
      ensures r.None? ==> entities == old(entities) && nodeEntities == old(nodeEntities) && cooccurrences == old(cooccurrences)
      ensures r.Some? ==>
        var ids := r.value;
        && (forall name :: name in ids <==> NamedBy(facts, name))
        && (exists stats :: Counts(stats, facts) && Written(old(entities), entities, ids, bankId, stats, now))
        && nodeEntities == old(nodeEntities) + AttachedAll(facts, ids)
        && (exists pairs :: Folds(pairs, facts, ids) && cooccurrences == Folded(old(cooccurrences), pairs))
    {
      hide Counts, Written, KeysUnique, Folds, Folded, IdsOf, NamedBy, AttachedAll;
      var stats := CountMentions(facts);
      CountedNames(stats, facts);
      if stats.Keys == {} {
        NoNames(stats, facts);
        Quiet(entities, nodeEntities, cooccurrences, bankId, stats, facts, now);
        return Some(map[]);
      }
      if bankId !in banks {
        return None;
      }
      var entities0, nodeEntities0 := entities, nodeEntities;
      var ids := UpsertAll(bankId, stats, now);
      NamesHaveIds(facts, ids);
      var ok := Attach(facts, ids);
      if !ok {
        entities, nodeEntities := entities0, nodeEntities0;
        return None;
      }
      var pairs := FoldPairs(facts, ids);
      PairsRise(cooccurrences, pairs, facts, ids);
      WritePairs(pairs);
      WrittenKeys(entities0, entities, ids, bankId, stats, now);
      r := Some(ids);
    }
  }

  lemma NothingFolded(table: Pairs, pairs: Pairs)
    ensures Folded(table, pairs - pairs.Keys) == table
  {
    assert pairs - pairs.Keys == map[];
  }

  lemma NoPairs(ids: map<string, int>)
    ensures Folds(map[], [], ids)
  {}

  lemma CountedNames(stats: Stats, facts: seq<Fact>)
    requires Counts(stats, facts)
    ensures forall name :: name in stats <==> NamedBy(facts, name)
    ensures stats.Keys != {} <==> exists k :: 0 <= k < |facts| && facts[k].names != []
  {
    if stats.Keys != {} {
      var name :| name in stats;
      var k :| 0 <= k < |facts| && name in facts[k].names;
      assert facts[k].names != [];
    }
    if k :| 0 <= k < |facts| && facts[k].names != [] {
      assert facts[k].names[0] in facts[k].names;
      assert NamedBy(facts, facts[k].names[0]);
    }
  }

  lemma NoNames(stats: Stats, facts: seq<Fact>)
    requires Counts(stats, facts) && stats.Keys == {}
    ensures stats == map[] && forall k :: 0 <= k < |facts| ==> facts[k].names == []
  {
    hide Counts;
    CountedNames(stats, facts);
  }

  /** A batch without names changes nothing. */
  lemma Quiet(entities: Rows, nodeEntities: set<(int, int)>, cooccurrences: Pairs, bankId: string, stats: Stats, facts: seq<Fact>, now: int)
    requires KeysUnique(entities) && stats == map[] && forall k :: 0 <= k < |facts| ==> facts[k].names == []
    ensures Written(entities, entities, map[], bankId, stats, now)
    ensures nodeEntities == nodeEntities + AttachedAll(facts, map[])
    ensures Folds(map[], facts, map[]) && cooccurrences == Folded(cooccurrences, map[])
  {
    NothingWritten(entities, bankId, stats, now);
    NothingAttached(facts);
    NothingShared(facts);
  }

  lemma {:induction false} NothingAttached(facts: seq<Fact>)
    ensures AttachedAll(facts, map[]) == {}
    decreases |facts|
  {
    if facts == [] {
    } else {
      NothingAttached(facts[..|facts| - 1]);
    }
  }

  lemma NothingShared(facts: seq<Fact>)
    ensures forall k :: Shared(facts, map[], k) == 0
  {
    forall k
      ensures Shared(facts, map[], k) == 0
    {
      NoneShared(facts, k);
    }
  }

  lemma {:induction false} NoneShared(facts: seq<Fact>, k: (int, int))
    ensures Shared(facts, map[], k) == 0
    decreases |facts|
  {
    if facts == [] {
    } else {
      NoneShared(facts[..|facts| - 1], k);
    }
  }

  lemma NamesHaveIds(facts: seq<Fact>, ids: map<string, int>)
    requires forall name :: name in ids <==> NamedBy(facts, name)
    ensures forall k :: 0 <= k < |facts| ==> (IdsOf(facts[k].names, ids) != {} <==> facts[k].names != [])
  {
    forall k | 0 <= k < |facts|
      ensures IdsOf(facts[k].names, ids) != {} <==> facts[k].names != []
    {
      if facts[k].names != [] {
        var name := facts[k].names[0];
        assert NamedBy(facts, name);
        assert ids[name] in IdsOf(facts[k].names, ids);
      }
    }
  }

  lemma PairsRise(table: Pairs, pairs: Pairs, facts: seq<Fact>, ids: map<string, int>)
    requires Folds(pairs, facts, ids) && forall k :: k in table ==> k.0 < k.1
    ensures forall k :: k in Folded(table, pairs) ==> k.0 < k.1
  {
    hide IdsOf;
    forall k | k in pairs
      ensures k.0 < k.1
    {
      SharedRise(facts, ids, k);
    }
  }

  lemma {:induction false} SharedRise(facts: seq<Fact>, ids: map<string, int>, k: (int, int))
    requires Shared(facts, ids, k) > 0
    ensures k.0 < k.1
    decreases |facts|
  {
    hide IdsOf;
    if Together(facts[|facts| - 1], ids, k) {
    } else {
      SharedRise(facts[..|facts| - 1], ids, k);
    }
  }

  lemma WrittenKeys(before: Rows, after: Rows, ids: map<string, int>, bankId: string, stats: Stats, now: int)
    requires Written(before, after, ids, bankId, stats, now)
    ensures KeysUnique(after)
  {}

  /** A pair is counted once per fact that names both, however often each. */
  lemma {:induction false} SharedAdds(a: seq<Fact>, b: seq<Fact>, ids: map<string, int>, k: (int, int))
    ensures Shared(a + b, ids, k) == Shared(a, ids, k) + Shared(b, ids, k)
    ensures Shared(a, ids, k) <= |a|
    decreases |b|, |a|
  {
    hide Together;
    if b == [] {
      assert a + b == a;
      if a != [] {
        SharedAdds(a[..|a| - 1], [], ids, k);
      }
    } else {
      SharedAdds(a, b[..|b| - 1], ids, k);
      assert (a + b)[..|a + b| - 1] == a + b[..|b| - 1];
    }
  }
}
