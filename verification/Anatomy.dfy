/**
 What a bank is, measured: the degrees of its nodes and its connected
 components, from one pass over its links.
 */
module Anatomy {
  import opened Reach
  import opened UnionFind

  const MAX_COMPONENTS := 12

  type Tally = map<string, nat>

  datatype Component = Component(size: nat, types: Tally)

  // ---------- Tables and counts ----------

  predicate DistinctIds(nodes: seq<Node>) {
    forall i, j :: 0 <= i < j < |nodes| ==> nodes[i].id != nodes[j].id
  }

  predicate Holds(nodes: seq<Node>, id: int) {
    exists i :: 0 <= i < |nodes| && nodes[i].id == id
  }

  /** Both ends are nodes of the bank. */
  predicate InBank(nodes: seq<Node>, link: Link) {
    Holds(nodes, link.source) && Holds(nodes, link.target)
  }

  /** The join of the link table with the bank's nodes on the source. */
  function LinksOf(nodes: seq<Node>, table: seq<Link>): (links: seq<Link>)
    ensures forall k :: 0 <= k < |links| ==> links[k] in table && Holds(nodes, links[k].source)
    ensures forall link :: link in table && Holds(nodes, link.source) ==> link in links
  {
    if table == [] then []
    else
      var before := LinksOf(nodes, table[..|table| - 1]);
      var link := table[|table| - 1];
      if Holds(nodes, link.source) then before + [link] else before
  }

  /** How many ends of in-bank links sit on node `id`. */
  function Degree(nodes: seq<Node>, links: seq<Link>, id: int): nat {
    if links == [] then 0
    else
      var link := links[|links| - 1];
      Degree(nodes, links[..|links| - 1], id)
      + if InBank(nodes, link) then (if link.source == id then 1 else 0) + (if link.target == id then 1 else 0) else 0
  }

  function InBankCount(nodes: seq<Node>, links: seq<Link>): nat {
    if links == [] then 0
    else InBankCount(nodes, links[..|links| - 1]) + if InBank(nodes, links[|links| - 1]) then 1 else 0
  }

  function CrossCount(nodes: seq<Node>, links: seq<Link>): nat {
    if links == [] then 0
    else
      var link := links[|links| - 1];
      CrossCount(nodes, links[..|links| - 1])
      + if InBank(nodes, link) && !SameType(nodes, link) then 1 else 0
  }

  /** The two ends carry the same fact type. */
  predicate SameType(nodes: seq<Node>, link: Link) {
    exists i, j :: 0 <= i < |nodes| && 0 <= j < |nodes| && nodes[i].id == link.source && nodes[j].id == link.target
                   && nodes[i].factType == nodes[j].factType
  }

  function Kinds(links: seq<Link>): (r: seq<string>)
    ensures |r| == |links| && forall k :: 0 <= k < |links| ==> r[k] == links[k].kind
  {
    seq(|links|, (k: int) requires 0 <= k < |links| => links[k].kind)
  }

  /** `tally` counts the entries of `s`, and nothing else. */
  ghost predicate Tallies(tally: Tally, s: seq<string>) {
    && (forall t :: t in tally <==> t in s)
    && (forall t :: t in tally ==> tally[t] == multiset(s)[t])
  }

  function Bump(tally: Tally, t: string): Tally {
    tally[t := (if t in tally then tally[t] else 0) + 1]
  }

  lemma BumpTallies(tally: Tally, s: seq<string>, t: string)
    requires Tallies(tally, s)
    ensures Tallies(Bump(tally, t), s + [t])
  {}

  // ---------- The pass over the links ----------

  /** The links read so far are joined, and nothing else is. */
  ghost predicate Joined(nodes: seq<Node>, links: seq<Link>, p: seq<nat>, measure: seq<nat>) {
    && |p| == |nodes|
    && Forest(p, measure)
    && (forall i, j :: 0 <= i < |p| && 0 <= j < |p| && Adjacent(nodes, links, i, j) ==>
          Root(p, measure, i) == Root(p, measure, j))
    && (forall i :: 0 <= i < |p| ==> Reachable(nodes, links, i, Root(p, measure, i)))
  }

  /** A shared root means a path, and a path means a shared root. */
  lemma RootsAreComponents(nodes: seq<Node>, links: seq<Link>, p: seq<nat>, measure: seq<nat>, i: nat, j: nat)
    requires Joined(nodes, links, p, measure) && i < |p| && j < |p|
    ensures Root(p, measure, i) == Root(p, measure, j) <==> Reachable(nodes, links, i, j)
  {
    hide Reachable, Adjacent, Root, Forest;
    if Root(p, measure, i) == Root(p, measure, j) {
      Symmetric(nodes, links, j, Root(p, measure, j));
      Transitive(nodes, links, i, Root(p, measure, i), j);
    }
    if Reachable(nodes, links, i, j) {
      Invariant(nodes, links, Labels(p, measure), i, j);
    }
  }

  ghost function Labels(p: seq<nat>, measure: seq<nat>): (mark: seq<nat>)
    requires Forest(p, measure)
    ensures |mark| == |p|
    ensures forall i :: 0 <= i < |p| ==> mark[i] == Root(p, measure, i)
  {
    seq(|p|, (x: int) requires 0 <= x < |p| => Root(p, measure, x))
  }

  lemma NothingJoined(nodes: seq<Node>, p: seq<nat>, measure: seq<nat>)
    requires |p| == |measure| == |nodes| && forall i :: 0 <= i < |p| ==> p[i] == i
    ensures Joined(nodes, [], p, measure)
  {
    hide Reachable;
    forall i | 0 <= i < |p|
      ensures Reachable(nodes, [], i, Root(p, measure, i))
    {
      Reflexive(nodes, [], i);
    }
  }

  /** Only the roots matter. */
  lemma SameRootsJoined(nodes: seq<Node>, links: seq<Link>, p: seq<nat>, measure: seq<nat>, q: seq<nat>, lifted: seq<nat>)
    requires Joined(nodes, links, p, measure) && |q| == |p| && Forest(q, lifted)
    requires forall i :: 0 <= i < |p| ==> Root(q, lifted, i) == Root(p, measure, i)
    ensures Joined(nodes, links, q, lifted)
  {
    hide Reachable, Adjacent, Root, Forest;
  }

  /** A link with an end outside the bank joins nothing. */
  lemma ForeignLink(nodes: seq<Node>, links: seq<Link>, link: Link, p: seq<nat>, measure: seq<nat>)
    requires Joined(nodes, links, p, measure) && !InBank(nodes, link)
    ensures Joined(nodes, links + [link], p, measure)
  {
    hide Reachable, Root, Forest;
    forall i, j | 0 <= i < |p| && 0 <= j < |p| && Adjacent(nodes, links + [link], i, j)
      ensures Adjacent(nodes, links, i, j)
    {
      OldOrNew(nodes, links, link, i, j);
    }
    forall i | 0 <= i < |p|
      ensures Reachable(nodes, links + [link], i, Root(p, measure, i))
    {
      MoreLinks(nodes, links, link, i, Root(p, measure, i));
    }
  }

  lemma OldOrNew(nodes: seq<Node>, links: seq<Link>, link: Link, i: nat, j: nat)
    requires i < |nodes| && j < |nodes|
    ensures Adjacent(nodes, links + [link], i, j) <==> Adjacent(nodes, links, i, j) || Touches(nodes, link, i, j)
  {
    hide Touches;
    if Adjacent(nodes, links + [link], i, j) {
      var k :| 0 <= k < |links| + 1 && Touches(nodes, (links + [link])[k], i, j);
      assert k < |links| ==> (links + [link])[k] == links[k];
    }
    if Adjacent(nodes, links, i, j) {
      var k :| 0 <= k < |links| && Touches(nodes, links[k], i, j);
      assert (links + [link])[k] == links[k];
    }
    if Touches(nodes, link, i, j) {
      assert (links + [link])[|links|] == link;
    }
  }

  /** Merging the roots of a link's two ends joins that link, and no more. */
  lemma LinkJoined(nodes: seq<Node>, links: seq<Link>, link: Link, p: seq<nat>, measure: seq<nat>,
                   q: seq<nat>, lifted: seq<nat>, a: nat, b: nat)
    requires DistinctIds(nodes) && Joined(nodes, links, p, measure) && |q| == |p| && Forest(q, lifted)
    requires a < |p| && b < |p| && nodes[a].id == link.source && nodes[b].id == link.target
    requires
      var ra, rb := Root(p, measure, a), Root(p, measure, b);
      forall i :: 0 <= i < |p| ==> Root(q, lifted, i) == if Root(p, measure, i) == ra then rb else Root(p, measure, i)
    ensures Joined(nodes, links + [link], q, lifted)
  {
    hide Reachable, Adjacent, Root, Forest;
    var ra, rb := Root(p, measure, a), Root(p, measure, b);
    forall i, j | 0 <= i < |p| && 0 <= j < |p| && Adjacent(nodes, links + [link], i, j)
      ensures Root(q, lifted, i) == Root(q, lifted, j)
    {
      OldOrNew(nodes, links, link, i, j);
      if Touches(nodes, link, i, j) {
        assert i == a || i == b;
      }
    }
    forall i | 0 <= i < |p|
      ensures Reachable(nodes, links + [link], i, Root(q, lifted, i))
    {
      MoreLinks(nodes, links, link, i, Root(p, measure, i));
      if Root(p, measure, i) == ra {
        MoreLinks(nodes, links, link, a, ra);
        MoreLinks(nodes, links, link, b, rb);
        Symmetric(nodes, links + [link], a, ra);
        Transitive(nodes, links + [link], i, ra, a);
        OldOrNew(nodes, links, link, a, b);
        Step(nodes, links + [link], i, a, b);
        Transitive(nodes, links + [link], i, b, rb);
      }
    }
  }

  /** Hanging one end's root below the other's joins the link. */
  lemma HungJoins(nodes: seq<Node>, links: seq<Link>, link: Link, p: seq<nat>, measure: seq<nat>, a: nat, b: nat)
    requires DistinctIds(nodes) && Joined(nodes, links, p, measure)
    requires a < |p| && b < |p| && nodes[a].id == link.source && nodes[b].id == link.target
    ensures
      var ra, rb := Root(p, measure, a), Root(p, measure, b);
      if ra == rb then Joined(nodes, links + [link], p, measure)
      else Joined(nodes, links + [link], p[ra := rb], Lifted(p, measure, ra, rb))
  {
    hide Reachable, Adjacent, Root, DistinctIds, Touches, Forest;
    var ra, rb := Root(p, measure, a), Root(p, measure, b);
    if ra != rb {
      UnionMerges(p, measure, ra, rb);
      LinkJoined(nodes, links, link, p, measure, p[ra := rb], Lifted(p, measure, ra, rb), a, b);
    } else {
      LinkJoined(nodes, links, link, p, measure, p, measure, a, b);
    }
  }

  /** One link between nodes `a` and `b` of the bank. */
  method JoinEnds(parent: array<nat>, nodes: seq<Node>, ghost links: seq<Link>, ghost link: Link, a: nat, b: nat,
                  ghost measure: seq<nat>)
    returns (ghost lifted: seq<nat>)
    requires DistinctIds(nodes) && Joined(nodes, links, parent[..], measure)
    requires a < parent.Length && b < parent.Length && nodes[a].id == link.source && nodes[b].id == link.target
    modifies parent
    ensures Joined(nodes, links + [link], parent[..], lifted)
  {
    hide Reachable, Adjacent, Root, Joined, DistinctIds, Touches, Forest, Lifted;
    ghost var was := parent[..];
    JoinedIsForest(nodes, links, was, measure);
    var ra := Find(parent, a, measure);
    var rb := Find(parent, b, measure);
    ghost var p := parent[..];
    SameRootsJoined(nodes, links, was, measure, p, measure);
    HungJoins(nodes, links, link, p, measure, a, b);
    lifted := measure;
    if ra != rb {
      lifted := Lifted(p, measure, ra, rb);
      parent[ra] := rb;
      assert parent[..] == p[ra := rb];
    }
  }

  lemma JoinedIsForest(nodes: seq<Node>, links: seq<Link>, p: seq<nat>, measure: seq<nat>)
    requires Joined(nodes, links, p, measure)
    ensures |p| == |nodes| && Forest(p, measure)
  {}

  // ---------- The index ----------

  ghost predicate Indexes(index: map<int, nat>, nodes: seq<Node>) {
    && (forall i :: 0 <= i < |nodes| ==> nodes[i].id in index)
    && (forall id :: id in index ==> index[id] < |nodes| && nodes[index[id]].id == id)
  }

  method IndexNodes(nodes: seq<Node>) returns (index: map<int, nat>)
    ensures Indexes(index, nodes)
  {
    index := map[];
    for i := 0 to |nodes|
      invariant forall k :: 0 <= k < i ==> nodes[k].id in index
      invariant forall id :: id in index ==> index[id] < i && nodes[index[id]].id == id
    {
      index := index[nodes[i].id := i];
    }
  }

  lemma IndexFinds(index: map<int, nat>, nodes: seq<Node>, link: Link)
    requires Indexes(index, nodes)
    ensures InBank(nodes, link) <==> link.source in index && link.target in index
  {}

  lemma IndexTypes(index: map<int, nat>, nodes: seq<Node>, link: Link)
    requires Indexes(index, nodes) && DistinctIds(nodes) && link.source in index && link.target in index
    ensures SameType(nodes, link) <==> nodes[index[link.source]].factType == nodes[index[link.target]].factType
  {}

  /** What the pass has tallied after `links`. */
  ghost predicate Tallied(nodes: seq<Node>, links: seq<Link>, degree: seq<nat>, kinds: Tally, cross: nat) {
    && |degree| == |nodes|
    && (forall i :: 0 <= i < |nodes| ==> degree[i] == Degree(nodes, links, nodes[i].id))
    && Tallies(kinds, Kinds(links))
    && cross == CrossCount(nodes, links)
  }

  lemma DegreeGrows(nodes: seq<Node>, links: seq<Link>, link: Link, id: int)
    ensures Degree(nodes, links + [link], id) == Degree(nodes, links, id)
            + if InBank(nodes, link) then (if link.source == id then 1 else 0) + (if link.target == id then 1 else 0) else 0
    ensures CrossCount(nodes, links + [link]) == CrossCount(nodes, links)
            + if InBank(nodes, link) && !SameType(nodes, link) then 1 else 0
  {
    hide InBank, SameType;
    assert (links + [link])[..|links|] == links;
  }

  lemma KindsGrow(links: seq<Link>, link: Link, kinds: Tally)
    requires Tallies(kinds, Kinds(links))
    ensures Tallies(Bump(kinds, link.kind), Kinds(links + [link]))
  {
    hide Tallies;
    BumpTallies(kinds, Kinds(links), link.kind);
    assert Kinds(links + [link]) == Kinds(links) + [link.kind];
  }

  lemma TalliedForeign(nodes: seq<Node>, links: seq<Link>, link: Link, degree: seq<nat>, kinds: Tally, cross: nat)
    requires Tallied(nodes, links, degree, kinds, cross) && !InBank(nodes, link)
    ensures Tallied(nodes, links + [link], degree, Bump(kinds, link.kind), cross)
  {
    hide InBank, Tallies, SameType, Degree, CrossCount, Kinds, Bump;
    KindsGrow(links, link, kinds);
    forall i | 0 <= i < |nodes|
      ensures degree[i] == Degree(nodes, links + [link], nodes[i].id)
    {
      DegreeGrows(nodes, links, link, nodes[i].id);
    }
    DegreeGrows(nodes, links, link, 0);
  }

  lemma TalliedLink(nodes: seq<Node>, links: seq<Link>, link: Link, degree: seq<nat>, kinds: Tally, cross: nat,
                    a: nat, b: nat, after: seq<nat>)
    requires DistinctIds(nodes) && Tallied(nodes, links, degree, kinds, cross) && InBank(nodes, link)
    requires a < |nodes| && b < |nodes| && nodes[a].id == link.source && nodes[b].id == link.target
    requires |after| == |degree|
    requires forall i :: 0 <= i < |degree| ==> after[i] == degree[i] + (if i == a then 1 else 0) + (if i == b then 1 else 0)
    ensures Tallied(nodes, links + [link], after, Bump(kinds, link.kind), cross + if SameType(nodes, link) then 0 else 1)
  {
    hide InBank, Tallies, SameType, Degree, CrossCount, Kinds, Bump;
    KindsGrow(links, link, kinds);
    forall i | 0 <= i < |nodes|
      ensures after[i] == Degree(nodes, links + [link], nodes[i].id)
    {
      DegreeGrows(nodes, links, link, nodes[i].id);
    }
    DegreeGrows(nodes, links, link, 0);
  }

  /** The pass itself. */
  method ReadLinks(nodes: seq<Node>, links: seq<Link>, parent: array<nat>, degree: array<nat>)
    returns (kinds: Tally, cross: nat, ghost measure: seq<nat>)
    requires DistinctIds(nodes) && parent.Length == degree.Length == |nodes| && parent != degree
    requires forall i :: 0 <= i < parent.Length ==> parent[i] == i && degree[i] == 0
    modifies parent, degree
    ensures Joined(nodes, links, parent[..], measure)
    ensures Tallied(nodes, links, degree[..], kinds, cross)
  {
    hide Joined, DistinctIds, InBank, SameType, Indexes, Tallies, Degree, Kinds;
    kinds, cross := map[], 0;
    measure := seq(|nodes|, i => 0);
    NothingJoined(nodes, parent[..], measure);
    TalliedNothing(nodes, degree[..]);
    var index := IndexNodes(nodes);
    for k := 0 to |links|
      invariant Joined(nodes, links[..k], parent[..], measure)
      invariant Tallied(nodes, links[..k], degree[..], kinds, cross)
    {
      var link := links[k];
      assert links[..k + 1] == links[..k] + [link];
      IndexFinds(index, nodes, link);
      if link.source !in index || link.target !in index {
        TalliedForeign(nodes, links[..k], link, degree[..], kinds, cross);
        ForeignLink(nodes, links[..k], link, parent[..], measure);
        kinds := Bump(kinds, link.kind);
        continue;
      }
      var a, b := LookUp(index, nodes, link.source), LookUp(index, nodes, link.target);
      IndexTypes(index, nodes, link);
      ghost var was := degree[..];
      degree[a] := degree[a] + 1;
      degree[b] := degree[b] + 1;
      TalliedLink(nodes, links[..k], link, was, kinds, cross, a, b, degree[..]);
      kinds := Bump(kinds, link.kind);
      if nodes[a].factType != nodes[b].factType {
        cross := cross + 1;
      }
      measure := JoinEnds(parent, nodes, links[..k], link, a, b, measure);
    }
    assert links[..|links|] == links;
  }

  function LookUp(index: map<int, nat>, nodes: seq<Node>, id: int): (i: nat)
    requires id in index && Indexes(index, nodes)
    ensures i == index[id] && i < |nodes| && nodes[i].id == id
  {
    index[id]
  }

  lemma TalliedNothing(nodes: seq<Node>, degree: seq<nat>)
    requires |degree| == |nodes| && forall i :: 0 <= i < |nodes| ==> degree[i] == 0
    ensures Tallied(nodes, [], degree, map[], 0)
  {}
}
