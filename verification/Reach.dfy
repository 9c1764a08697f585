/** Paths of in-bank links between the nodes of a bank. */
module Reach {
  datatype Node = Node(id: int, factType: string)

  datatype Link = Link(source: int, target: int, kind: string)

  ghost predicate Touches(nodes: seq<Node>, link: Link, i: nat, j: nat)
    requires i < |nodes| && j < |nodes|
  {
    || (link.source == nodes[i].id && link.target == nodes[j].id)
    || (link.source == nodes[j].id && link.target == nodes[i].id)
  }

  ghost predicate Adjacent(nodes: seq<Node>, links: seq<Link>, i: nat, j: nat)
    requires i < |nodes| && j < |nodes|
  {
    exists k :: 0 <= k < |links| && Touches(nodes, links[k], i, j)
  }

  ghost predicate IsPath(nodes: seq<Node>, links: seq<Link>, path: seq<nat>) {
    && path != []
    && (forall t :: 0 <= t < |path| ==> path[t] < |nodes|)
    && (forall t :: 0 < t < |path| ==> Adjacent(nodes, links, path[t - 1], path[t]))
  }

  ghost predicate Joins(nodes: seq<Node>, links: seq<Link>, i: nat, j: nat, path: seq<nat>) {
    IsPath(nodes, links, path) && path[0] == i && path[|path| - 1] == j
  }

  /** Some path of links leads from node `i` to node `j`. */
  ghost predicate Reachable(nodes: seq<Node>, links: seq<Link>, i: nat, j: nat) {
    exists path :: Joins(nodes, links, i, j, path)
  }

  lemma Reflexive(nodes: seq<Node>, links: seq<Link>, i: nat)
    requires i < |nodes|
    ensures Reachable(nodes, links, i, i)
  {
    assert Joins(nodes, links, i, i, [i]);
  }

  lemma Step(nodes: seq<Node>, links: seq<Link>, i: nat, j: nat, k: nat)
    requires Reachable(nodes, links, i, j) && j < |nodes| && k < |nodes| && Adjacent(nodes, links, j, k)
    ensures Reachable(nodes, links, i, k)
  {
    hide Adjacent;
    var path :| Joins(nodes, links, i, j, path);
    assert Joins(nodes, links, i, k, path + [k]);
  }

  lemma {:induction false} Transitive(nodes: seq<Node>, links: seq<Link>, i: nat, j: nat, k: nat)
    requires Reachable(nodes, links, i, j) && Reachable(nodes, links, j, k)
    ensures Reachable(nodes, links, i, k)
  {
    var path :| Joins(nodes, links, j, k, path);
    Follow(nodes, links, i, path);
  }

  lemma {:induction false} Follow(nodes: seq<Node>, links: seq<Link>, i: nat, path: seq<nat>)
    requires IsPath(nodes, links, path) && Reachable(nodes, links, i, path[0])
    ensures Reachable(nodes, links, i, path[|path| - 1])
    decreases |path|
  {
    hide Reachable, Adjacent;
    if |path| == 1 {
    } else {
      Follow(nodes, links, i, path[..|path| - 1]);
      Step(nodes, links, i, path[|path| - 2], path[|path| - 1]);
    }
  }

  lemma Symmetric(nodes: seq<Node>, links: seq<Link>, i: nat, j: nat)
    requires Reachable(nodes, links, i, j)
    ensures Reachable(nodes, links, j, i)
  {
    var path :| Joins(nodes, links, i, j, path);
    var n := |path|;
    var back := seq(n, (t: int) requires 0 <= t < n => path[n - 1 - t]);
    forall t | 0 < t < n
      ensures Adjacent(nodes, links, back[t - 1], back[t])
    {
      assert Adjacent(nodes, links, path[n - 1 - t], path[n - t]);
    }
    assert Joins(nodes, links, j, i, back);
  }

  lemma MoreLinks(nodes: seq<Node>, links: seq<Link>, link: Link, i: nat, j: nat)
    requires Reachable(nodes, links, i, j)
    ensures Reachable(nodes, links + [link], i, j)
  {
    var path :| Joins(nodes, links, i, j, path);
    forall t | 0 < t < |path|
      ensures Adjacent(nodes, links + [link], path[t - 1], path[t])
    {
      var k :| 0 <= k < |links| && Touches(nodes, links[k], path[t - 1], path[t]);
      assert (links + [link])[k] == links[k];
    }
    assert Joins(nodes, links + [link], i, j, path);
  }

  /** Whatever two adjacent nodes always share, reachable nodes share. */
  lemma Invariant(nodes: seq<Node>, links: seq<Link>, mark: seq<nat>, i: nat, j: nat)
    requires |mark| == |nodes|
    requires forall a, b :: 0 <= a < |nodes| && 0 <= b < |nodes| && Adjacent(nodes, links, a, b) ==> mark[a] == mark[b]
    requires Reachable(nodes, links, i, j)
    ensures i < |nodes| && j < |nodes| && mark[i] == mark[j]
  {
    var path :| Joins(nodes, links, i, j, path);
    Along(nodes, links, mark, path);
  }

  lemma {:induction false} Along(nodes: seq<Node>, links: seq<Link>, mark: seq<nat>, path: seq<nat>)
    requires |mark| == |nodes|
    requires forall a, b :: 0 <= a < |nodes| && 0 <= b < |nodes| && Adjacent(nodes, links, a, b) ==> mark[a] == mark[b]
    requires IsPath(nodes, links, path)
    ensures mark[path[0]] == mark[path[|path| - 1]]
    decreases |path|
  {
    hide Adjacent;
    if |path| == 1 {
    } else {
      Along(nodes, links, mark, path[..|path| - 1]);
    }
  }
}
