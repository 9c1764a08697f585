/**
 The disjoint-set forest of a bank's anatomy: `find` with path halving and no
 rank, over dense indices. A measure that falls along every parent pointer
 stands for the missing rank in the proofs.
 */
module UnionFind {
  /** `measure` falls along every pointer that is not a root's. */
  ghost predicate Forest(p: seq<nat>, measure: seq<nat>) {
    && |p| == |measure|
    && forall x :: 0 <= x < |p| ==> p[x] < |p| && (p[x] != x ==> measure[p[x]] < measure[x])
  }

  ghost function Root(p: seq<nat>, measure: seq<nat>, x: nat): (r: nat)
    requires Forest(p, measure) && x < |p|
    ensures r < |p| && p[r] == r
    ensures r != x ==> measure[r] < measure[x]
    decreases measure[x]
  {
    if p[x] == x then x else Root(p, measure, p[x])
  }

  /** One halving step: `x` skips to its grandparent. No root changes. */
  lemma HalvingKeepsRoots(p: seq<nat>, measure: seq<nat>, x: nat)
    requires Forest(p, measure) && x < |p|
    ensures var q := p[x := p[p[x]]];
            Forest(q, measure)
            && forall y :: 0 <= y < |p| ==> Root(q, measure, y) == Root(p, measure, y)
  {
    var q := p[x := p[p[x]]];
    forall y | 0 <= y < |p|
      ensures Root(q, measure, y) == Root(p, measure, y)
    {
      HalvingKeepsRoot(p, measure, x, y);
    }
  }

  lemma {:induction false} HalvingKeepsRoot(p: seq<nat>, measure: seq<nat>, x: nat, y: nat)
    requires Forest(p, measure) && x < |p| && y < |p|
    ensures var q := p[x := p[p[x]]];
            Forest(q, measure) && Root(q, measure, y) == Root(p, measure, y)
    decreases measure[y]
  {
    var q := p[x := p[p[x]]];
    if p[y] == y {
    } else {
      HalvingKeepsRoot(p, measure, x, q[y]);
      HalvingKeepsRoot(p, measure, x, p[y]);
    }
  }

  /** The root of `x`, with the path to it halved on the way. */
  method Find(parent: array<nat>, start: nat, ghost measure: seq<nat>) returns (root: nat)
    requires Forest(parent[..], measure) && start < parent.Length
    modifies parent
    ensures Forest(parent[..], measure)
    ensures forall y :: 0 <= y < parent.Length ==> Root(parent[..], measure, y) == Root(old(parent[..]), measure, y)
    ensures root == Root(parent[..], measure, start)
  {
    hide Root;
    var x: nat := start;
    ghost var was := parent[..];
    while parent[x] != x
      invariant x < parent.Length
      invariant Forest(parent[..], measure)
      invariant forall y :: 0 <= y < parent.Length ==> Root(parent[..], measure, y) == Root(was, measure, y)
      invariant Root(parent[..], measure, x) == Root(was, measure, start)
      decreases measure[x]
    {
      ghost var p := parent[..];
      HalvingKeepsRoots(p, measure, x);
      ParentSharesRoot(p, measure, x);
      ParentSharesRoot(p, measure, p[x]);
      parent[x] := parent[parent[x]];
      assert parent[..] == p[x := p[p[x]]];
      x := parent[x];
    }
    ParentSharesRoot(parent[..], measure, x);
    root := x;
  }

  lemma ParentSharesRoot(p: seq<nat>, measure: seq<nat>, x: nat)
    requires Forest(p, measure) && x < |p|
    ensures Root(p, measure, p[x]) == Root(p, measure, x)
    ensures p[x] == x ==> Root(p, measure, x) == x
  {}

  /** The measure after the tree of `ra` is hung below `rb`. */
  ghost function Lifted(p: seq<nat>, measure: seq<nat>, ra: nat, rb: nat): (lifted: seq<nat>)
    requires Forest(p, measure) && ra < |p| && rb < |p|
    ensures |lifted| == |p|
  {
    seq(|p|, (x: int) requires 0 <= x < |p| =>
      measure[x] + if Root(p, measure, x) == ra then measure[rb] + 1 else 0)
  }

  /** Hanging one root below another merges exactly their two trees. */
  lemma UnionMerges(p: seq<nat>, measure: seq<nat>, ra: nat, rb: nat)
    requires Forest(p, measure) && ra < |p| && rb < |p| && ra != rb && p[ra] == ra && p[rb] == rb
    ensures var q, lifted := p[ra := rb], Lifted(p, measure, ra, rb);
            Forest(q, lifted)
            && forall y :: 0 <= y < |p| ==>
                 Root(q, lifted, y) == if Root(p, measure, y) == ra then rb else Root(p, measure, y)
  {
    var q, lifted := p[ra := rb], Lifted(p, measure, ra, rb);
    UnionIsForest(p, measure, ra, rb);
    forall y | 0 <= y < |p|
      ensures Root(q, lifted, y) == if Root(p, measure, y) == ra then rb else Root(p, measure, y)
    {
      UnionRoot(p, measure, ra, rb, y);
    }
  }

  lemma UnionIsForest(p: seq<nat>, measure: seq<nat>, ra: nat, rb: nat)
    requires Forest(p, measure) && ra < |p| && rb < |p| && ra != rb && p[ra] == ra && p[rb] == rb
    ensures Forest(p[ra := rb], Lifted(p, measure, ra, rb))
  {
    forall x | 0 <= x < |p|
      ensures Root(p, measure, x) == Root(p, measure, p[x])
    {}
    assert Root(p, measure, ra) == ra && Root(p, measure, rb) == rb;
  }

  lemma {:induction false} UnionRoot(p: seq<nat>, measure: seq<nat>, ra: nat, rb: nat, y: nat)
    requires Forest(p, measure) && ra < |p| && rb < |p| && ra != rb && p[ra] == ra && p[rb] == rb && y < |p|
    requires Forest(p[ra := rb], Lifted(p, measure, ra, rb))
    ensures Root(p[ra := rb], Lifted(p, measure, ra, rb), y)
            == if Root(p, measure, y) == ra then rb else Root(p, measure, y)
    decreases measure[y]
  {
    if p[y] == y {
    } else {
      UnionRoot(p, measure, ra, rb, p[y]);
    }
  }
}
