/**
 The figures read off a bank's forest and degrees: components by fact type,
 largest first, and the degree distribution.
 */
module Census {
  import opened Reach
  import opened UnionFind
  import opened Anatomy

  // ---------- Sorting ----------

  predicate Ascending<T>(s: seq<T>, key: T -> int) {
    forall i, j :: 0 <= i < j < |s| ==> key(s[i]) <= key(s[j])
  }

  function Insert<T>(s: seq<T>, x: T, key: T -> int): seq<T> {
    if s == [] || key(s[|s| - 1]) <= key(x) then s + [x]
    else Insert(s[..|s| - 1], x, key) + [s[|s| - 1]]
  }

  /** The stable sort of `s` by `key`. */
  function SortBy<T>(s: seq<T>, key: T -> int): seq<T> {
    if s == [] then [] else Insert(SortBy(s[..|s| - 1], key), s[|s| - 1], key)
  }

  lemma {:induction false} InsertSize<T>(s: seq<T>, x: T, key: T -> int)
    ensures |Insert(s, x, key)| == |s| + 1
    ensures multiset(Insert(s, x, key)) == multiset(s) + multiset{x}
    decreases |s|
  {
    if s != [] && key(s[|s| - 1]) > key(x) {
      InsertSize(s[..|s| - 1], x, key);
      assert s == s[..|s| - 1] + [s[|s| - 1]];
    }
  }

  lemma {:induction false} InsertBound<T>(s: seq<T>, x: T, key: T -> int, bound: int)
    requires key(x) <= bound && forall i :: 0 <= i < |s| ==> key(s[i]) <= bound
    ensures forall i :: 0 <= i < |Insert(s, x, key)| ==> key(Insert(s, x, key)[i]) <= bound
    decreases |s|
  {
    if s != [] && key(s[|s| - 1]) > key(x) {
      InsertBound(s[..|s| - 1], x, key, bound);
    }
  }

  lemma {:induction false} InsertSorts<T>(s: seq<T>, x: T, key: T -> int)
    requires Ascending(s, key)
    ensures Ascending(Insert(s, x, key), key)
    decreases |s|
  {
    if s != [] && key(s[|s| - 1]) > key(x) {
      InsertSorts(s[..|s| - 1], x, key);
      InsertBound(s[..|s| - 1], x, key, key(s[|s| - 1]));
      SortedEnd(Insert(s[..|s| - 1], x, key), s[|s| - 1], key);
    }
  }

  lemma SortedEnd<T>(s: seq<T>, x: T, key: T -> int)
    requires Ascending(s, key) && forall i :: 0 <= i < |s| ==> key(s[i]) <= key(x)
    ensures Ascending(s + [x], key)
  {}

  /** The sort is an ascending permutation. */
  lemma {:induction false} SortSorts<T>(s: seq<T>, key: T -> int)
    ensures Ascending(SortBy(s, key), key)
    ensures multiset(SortBy(s, key)) == multiset(s)
    ensures |SortBy(s, key)| == |s|
    decreases |s|
  {
    hide Insert, Ascending;
    if s == [] {
      NothingSorted(key);
    } else {
      var before := s[..|s| - 1];
      SortSorts(before, key);
      InsertSorts(SortBy(before, key), s[|s| - 1], key);
      InsertSize(SortBy(before, key), s[|s| - 1], key);
      assert s == before + [s[|s| - 1]];
    }
  }

  lemma NothingSorted<T>(key: T -> int)
    ensures Ascending([], key)
  {}

  // ---------- Counting by key ----------

  predicate Distinct<T(==)>(s: seq<T>) {
    forall i, j :: 0 <= i < j < |s| ==> s[i] != s[j]
  }

  function CountsOf<T(==)>(s: seq<T>, keys: seq<T>): nat {
    if keys == [] then 0 else CountsOf(s, keys[..|keys| - 1]) + multiset(s)[keys[|keys| - 1]]
  }

  /** Distinct keys that cover a sequence count each of its entries once. */
  lemma {:induction false} CountsPartition<T>(s: seq<T>, keys: seq<T>)
    requires Distinct(keys) && forall x :: x in s ==> x in keys
    ensures CountsOf(s, keys) == |s|
    decreases |s|
  {
    if s == [] {
      NoCounts(s, keys);
    } else {
      var before, x := s[..|s| - 1], s[|s| - 1];
      assert s == before + [x];
      CountsPartition(before, keys);
      assert x in s;
      var k :| 0 <= k < |keys| && keys[k] == x;
      OneMore(before, x, keys, k);
    }
  }

  lemma {:induction false} NoCounts<T>(s: seq<T>, keys: seq<T>)
    requires s == []
    ensures CountsOf(s, keys) == 0
    decreases |keys|
  {
    if keys == [] {
    } else {
      NoCounts(s, keys[..|keys| - 1]);
    }
  }

  lemma {:induction false} OneMore<T>(s: seq<T>, x: T, keys: seq<T>, k: int)
    requires Distinct(keys) && k < |keys|
    requires 0 <= k ==> keys[k] == x
    requires k < 0 ==> x !in keys
    ensures CountsOf(s + [x], keys) == CountsOf(s, keys) + if k < 0 then 0 else 1
    decreases |keys|
  {
    if keys == [] {
    } else {
      var last := |keys| - 1;
      OneMore(s, x, keys[..last], if k == last then -1 else k);
    }
  }

  // ---------- Components ----------

  /** The fact types of the first `n` nodes whose mark is `root`. */
  function TypesIn(nodes: seq<Node>, mark: seq<nat>, n: nat, root: nat): (r: seq<string>)
    requires n <= |nodes| == |mark|
    ensures |r| == multiset(mark[..n])[root]
  {
    if n == 0 then []
    else
      assert mark[..n] == mark[..n - 1] + [mark[n - 1]];
      TypesIn(nodes, mark, n - 1, root) + if mark[n - 1] == root then [nodes[n - 1].factType] else []
  }

  type Groups = map<nat, Tally>

  ghost predicate Grouped(groups: Groups, nodes: seq<Node>, mark: seq<nat>, n: nat)
    requires n <= |nodes| == |mark|
  {
    && (forall root :: root in groups <==> root in mark[..n])
    && (forall root :: root in groups ==> Tallies(groups[root], TypesIn(nodes, mark, n, root)))
  }

  lemma NoTypes(nodes: seq<Node>, mark: seq<nat>, n: nat, root: nat)
    requires n <= |nodes| == |mark| && root !in mark[..n]
    ensures TypesIn(nodes, mark, n, root) == []
  {}

  lemma GroupGrows(groups: Groups, nodes: seq<Node>, mark: seq<nat>, n: nat)
    requires n < |nodes| == |mark| && Grouped(groups, nodes, mark, n)
    ensures
      var root := mark[n];
      Grouped(groups[root := Bump(if root in groups then groups[root] else map[], nodes[n].factType)], nodes, mark, n + 1)
  {
    hide Tallies, Bump, TypesIn;
    var root, factType := mark[n], nodes[n].factType;
    var tally: Tally := if root in groups then groups[root] else map[];
    assert mark[..n + 1] == mark[..n] + [root];
    if root !in groups {
      NoTypes(nodes, mark, n, root);
      EmptyTallies();
    }
    BumpTallies(tally, TypesIn(nodes, mark, n, root), factType);
    var after := groups[root := Bump(tally, factType)];
    forall r | r in after
      ensures Tallies(after[r], TypesIn(nodes, mark, n + 1, r))
    {
      TypesGrow(nodes, mark, n, r);
    }
  }

  lemma TypesGrow(nodes: seq<Node>, mark: seq<nat>, n: nat, root: nat)
    requires n < |nodes| == |mark|
    ensures TypesIn(nodes, mark, n + 1, root)
            == if mark[n] == root then TypesIn(nodes, mark, n, root) + [nodes[n].factType] else TypesIn(nodes, mark, n, root)
  {
    assert TypesIn(nodes, mark, n, root) + [] == TypesIn(nodes, mark, n, root);
  }

  lemma EmptyTallies()
    ensures Tallies(map[], [])
  {}

  /** The nodes by root, with the forest halved further on the way. */
  method GroupNodes(nodes: seq<Node>, parent: array<nat>, ghost measure: seq<nat>)
    returns (groups: Groups, ghost mark: seq<nat>)
    requires parent.Length == |nodes| && Forest(parent[..], measure)
    modifies parent
    ensures mark == old(Labels(parent[..], measure))
    ensures Grouped(groups, nodes, mark, |nodes|)
  {
    hide Grouped, Root, Forest;
    mark := Labels(parent[..], measure);
    groups := map[];
    NoGroups(nodes, mark);
    for i := 0 to |nodes|
      invariant Forest(parent[..], measure)
      invariant forall y :: 0 <= y < |nodes| ==> Root(parent[..], measure, y) == mark[y]
      invariant Grouped(groups, nodes, mark, i)
    {
      var root := Find(parent, i, measure);
      GroupGrows(groups, nodes, mark, i);
      groups := groups[root := Bump(if root in groups then groups[root] else map[], nodes[i].factType)];
    }
  }

  lemma NoGroups(nodes: seq<Node>, mark: seq<nat>)
    requires |nodes| == |mark|
    ensures Grouped(map[], nodes, mark, 0)
  {}

  /** The counts of `keys` are summed up in `size`, those of `left` are not. */
  ghost predicate Summed(tally: Tally, s: seq<string>, left: Tally, keys: seq<string>, size: nat) {
    && Distinct(keys)
    && (forall t :: t in tally <==> t in keys || t in left)
    && (forall t :: t in left ==> t !in keys && t in tally && left[t] == tally[t])
    && size == CountsOf(s, keys)
  }

  lemma SumGrows(tally: Tally, s: seq<string>, left: Tally, keys: seq<string>, size: nat, t: string)
    requires Tallies(tally, s) && Summed(tally, s, left, keys, size) && t in left
    ensures Summed(tally, s, left - {t}, keys + [t], size + left[t])
  {
    assert (keys + [t])[..|keys|] == keys;
  }

  lemma SumDone(tally: Tally, s: seq<string>, keys: seq<string>, size: nat)
    requires Tallies(tally, s) && Summed(tally, s, map[], keys, size)
    ensures size == |s|
  {
    CountsPartition(s, keys);
  }

  lemma SumStart(tally: Tally, s: seq<string>)
    ensures Summed(tally, s, tally, [], 0)
  {}

  /** The sum of a tally, over its keys in whatever order they come. */
  method SumTally(tally: Tally, ghost s: seq<string>) returns (size: nat)
    requires Tallies(tally, s)
    ensures size == |s|
  {
    hide Summed, Tallies;
    var left := tally;
    size := 0;
    ghost var keys: seq<string> := [];
    SumStart(tally, s);
    while left.Keys != {}
      invariant Summed(tally, s, left, keys, size)
      decreases |left.Keys|
    {
      var t :| t in left.Keys;
      SumGrows(tally, s, left, keys, size, t);
      keys, size := keys + [t], size + left[t];
      left := left - {t};
    }
    assert left == map[];
    SumDone(tally, s, keys, size);
  }

  /** One component per root, in whatever order the roots come. */
  ghost predicate Listed(all: seq<Component>, roots: seq<nat>, nodes: seq<Node>, mark: seq<nat>)
    requires |nodes| == |mark|
  {
    && |all| == |roots|
    && Distinct(roots)
    && (forall root :: root in mark <==> root in roots)
    && (forall k :: 0 <= k < |all| ==>
          && all[k].size == multiset(mark)[roots[k]]
          && Tallies(all[k].types, TypesIn(nodes, mark, |nodes|, roots[k])))
  }

  /** The groups taken so far are listed, those in `left` are not. */
  ghost predicate Taken(groups: Groups, left: Groups, all: seq<Component>, roots: seq<nat>, nodes: seq<Node>, mark: seq<nat>)
    requires |nodes| == |mark|
  {
    && |all| == |roots| && Distinct(roots)
    && (forall root :: root in groups <==> root in roots || root in left)
    && (forall root :: root in left ==> root !in roots && root in groups && left[root] == groups[root])
    && (forall k :: 0 <= k < |all| ==>
          && all[k].size == multiset(mark)[roots[k]]
          && Tallies(all[k].types, TypesIn(nodes, mark, |nodes|, roots[k])))
  }

  lemma OneTaken(groups: Groups, left: Groups, all: seq<Component>, roots: seq<nat>, nodes: seq<Node>, mark: seq<nat>,
                 root: nat, c: Component)
    requires |nodes| == |mark| && Taken(groups, left, all, roots, nodes, mark) && root in left
    requires c.size == multiset(mark)[root] && Tallies(c.types, TypesIn(nodes, mark, |nodes|, root))
    ensures Taken(groups, left - {root}, all + [c], roots + [root], nodes, mark)
  {
    hide Tallies, TypesIn;
  }

  lemma AllTaken(groups: Groups, all: seq<Component>, roots: seq<nat>, nodes: seq<Node>, mark: seq<nat>)
    requires |nodes| == |mark| && Grouped(groups, nodes, mark, |nodes|) && Taken(groups, map[], all, roots, nodes, mark)
    ensures Listed(all, roots, nodes, mark) && |all| == |roots|
  {
    hide Tallies, TypesIn;
    assert mark[..|nodes|] == mark;
  }

  method ListComponents(groups: Groups, ghost nodes: seq<Node>, ghost mark: seq<nat>)
    returns (all: seq<Component>, ghost roots: seq<nat>)
    requires |nodes| == |mark| && Grouped(groups, nodes, mark, |nodes|)
    ensures Listed(all, roots, nodes, mark) && |all| == |roots|
  {
    hide Tallies, TypesIn, Taken, Grouped, Listed;
    var left := groups;
    all, roots := [], [];
    NoneTaken(groups, nodes, mark);
    while left.Keys != {}
      invariant Taken(groups, left, all, roots, nodes, mark)
      decreases |left.Keys|
    {
      var root :| root in left.Keys;
      LeftTallied(groups, left, all, roots, nodes, mark, root);
      var size := SumTally(left[root], TypesIn(nodes, mark, |nodes|, root));
      OneTaken(groups, left, all, roots, nodes, mark, root, Component(size, left[root]));
      all, roots := all + [Component(size, left[root])], roots + [root];
      left := left - {root};
    }
    assert left == map[];
    AllTaken(groups, all, roots, nodes, mark);
  }

  lemma NoneTaken(groups: Groups, nodes: seq<Node>, mark: seq<nat>)
    requires |nodes| == |mark|
    ensures Taken(groups, groups, [], [], nodes, mark)
  {}

  lemma LeftTallied(groups: Groups, left: Groups, all: seq<Component>, roots: seq<nat>, nodes: seq<Node>, mark: seq<nat>,
                    root: nat)
    requires |nodes| == |mark| && Grouped(groups, nodes, mark, |nodes|) && Taken(groups, left, all, roots, nodes, mark)
    requires root in left
    ensures Tallies(left[root], TypesIn(nodes, mark, |nodes|, root))
    ensures |TypesIn(nodes, mark, |nodes|, root)| == multiset(mark)[root]
  {
    hide Tallies, TypesIn;
    assert mark[..|nodes|] == mark;
  }

  function SumSizes(all: seq<Component>): nat {
    if all == [] then 0 else SumSizes(all[..|all| - 1]) + all[|all| - 1].size
  }

  /** The components share out the nodes of the bank. */
  lemma SizesSum(all: seq<Component>, roots: seq<nat>, nodes: seq<Node>, mark: seq<nat>)
    requires |nodes| == |mark| && Listed(all, roots, nodes, mark)
    ensures SumSizes(all) == |nodes|
  {
    SizesAreCounts(all, roots, mark);
    CountsPartition(mark, roots);
  }

  lemma {:induction false} SizesAreCounts(all: seq<Component>, roots: seq<nat>, mark: seq<nat>)
    requires |all| == |roots| && forall k :: 0 <= k < |all| ==> all[k].size == multiset(mark)[roots[k]]
    ensures SumSizes(all) == CountsOf(mark, roots)
    decreases |all|
  {
    if all == [] {
    } else {
      SizesAreCounts(all[..|all| - 1], roots[..|roots| - 1], mark);
    }
  }

  // ---------- Degrees ----------

  datatype Degrees = Degrees(min: nat, p50: nat, p90: nat, max: nat, mean: real)

  function Sum(s: seq<nat>): nat {
    if s == [] then 0 else Sum(s[..|s| - 1]) + s[|s| - 1]
  }

  /** The entry at a fraction of the length, the last one at the latest. */
  function At(sorted: seq<nat>, tenths: nat): nat {
    if sorted == [] then 0
    else
      var k := |sorted| * tenths / 10;
      sorted[if k < |sorted| then k else |sorted| - 1]
  }

  function DegreeZero(sorted: seq<nat>): nat {
    if sorted == [] || sorted[0] != 0 then 0 else 1 + DegreeZero(sorted[1..])
  }

  function Itself(d: nat): int { d }

  function SortedDegrees(degree: seq<nat>): seq<nat> { SortBy(degree, Itself) }

  lemma {:induction false} ZerosLead(sorted: seq<nat>)
    requires Ascending(sorted, Itself)
    ensures DegreeZero(sorted) == multiset(sorted)[0]
    decreases |sorted|
  {
    if sorted == [] {
    } else {
      assert sorted == [sorted[0]] + sorted[1..];
      if sorted[0] == 0 {
        AscendingTail(sorted);
        ZerosLead(sorted[1..]);
      } else {
        assert 0 !in sorted;
      }
    }
  }

  lemma AscendingTail(sorted: seq<nat>)
    requires sorted != [] && Ascending(sorted, Itself)
    ensures Ascending(sorted[1..], Itself)
  {}

  /** The leading zeros of the sorted degrees are all its zeros. */
  lemma IsolatedCounted(degree: seq<nat>)
    ensures DegreeZero(SortedDegrees(degree)) == multiset(degree)[0]
  {
    SortSorts(degree, Itself);
    ZerosLead(SortedDegrees(degree));
  }

  /** A node has degree zero exactly when no in-bank link ends at it. */
  lemma {:induction false} ZeroIsUntouched(nodes: seq<Node>, links: seq<Link>, id: int)
    ensures Degree(nodes, links, id) == 0
            <==> forall k :: 0 <= k < |links| && InBank(nodes, links[k]) ==> links[k].source != id && links[k].target != id
    decreases |links|
  {
    hide InBank;
    if links == [] {
    } else {
      ZeroIsUntouched(nodes, links[..|links| - 1], id);
    }
  }

  function DegreesOf(nodes: seq<Node>, links: seq<Link>, n: nat): (r: seq<nat>)
    requires n <= |nodes|
    ensures |r| == n && forall i :: 0 <= i < n ==> r[i] == Degree(nodes, links, nodes[i].id)
  {
    seq(n, (i: int) requires 0 <= i < n => Degree(nodes, links, nodes[i].id))
  }

  /** Every in-bank link has two ends: the degrees add up to twice their number. */
  lemma {:induction false} Handshake(nodes: seq<Node>, links: seq<Link>)
    requires DistinctIds(nodes)
    ensures Sum(DegreesOf(nodes, links, |nodes|)) == 2 * InBankCount(nodes, links)
    decreases |links|
  {
    hide Degree, InBank, Sum, DistinctIds, Holds;
    if links == [] {
      NoEnds(nodes, |nodes|);
    } else {
      var before, link := links[..|links| - 1], links[|links| - 1];
      assert links == before + [link];
      Handshake(nodes, before);
      OneLinkMore(nodes, before, link, |nodes|);
      if InBank(nodes, link) {
        BothHeld(nodes, link);
        EndsOnce(nodes, |nodes|, link.source);
        EndsOnce(nodes, |nodes|, link.target);
      }
    }
  }

  lemma BothHeld(nodes: seq<Node>, link: Link)
    requires InBank(nodes, link)
    ensures Holds(nodes, link.source) && Holds(nodes, link.target)
  {}

  lemma {:induction false} NoEnds(nodes: seq<Node>, n: nat)
    requires n <= |nodes|
    ensures Sum(DegreesOf(nodes, [], n)) == 0
  {
    if n == 0 {
    } else {
      NoEnds(nodes, n - 1);
      assert DegreesOf(nodes, [], n)[..n - 1] == DegreesOf(nodes, [], n - 1);
    }
  }

  /** How many of the first `n` nodes have this id. */
  function Bearers(nodes: seq<Node>, n: nat, id: int): nat
    requires n <= |nodes|
  {
    if n == 0 then 0 else Bearers(nodes, n - 1, id) + if nodes[n - 1].id == id then 1 else 0
  }

  lemma {:induction false} OneLinkMore(nodes: seq<Node>, links: seq<Link>, link: Link, n: nat)
    requires n <= |nodes|
    ensures Sum(DegreesOf(nodes, links + [link], n)) == Sum(DegreesOf(nodes, links, n))
            + if InBank(nodes, link) then Bearers(nodes, n, link.source) + Bearers(nodes, n, link.target) else 0
  {
    hide Degree, InBank;
    if n == 0 {
    } else {
      OneLinkMore(nodes, links, link, n - 1);
      DegreeGrows(nodes, links, link, nodes[n - 1].id);
      assert DegreesOf(nodes, links, n)[..n - 1] == DegreesOf(nodes, links, n - 1);
      assert DegreesOf(nodes, links + [link], n)[..n - 1] == DegreesOf(nodes, links + [link], n - 1);
    }
  }

  lemma {:induction false} EndsOnce(nodes: seq<Node>, n: nat, id: int)
    requires DistinctIds(nodes) && n <= |nodes|
    ensures Bearers(nodes, n, id) <= 1
    ensures Bearers(nodes, n, id) == 1 <==> exists i :: 0 <= i < n && nodes[i].id == id
    ensures n == |nodes| && Holds(nodes, id) ==> Bearers(nodes, n, id) == 1
  {
    if n == 0 {
    } else {
      EndsOnce(nodes, n - 1, id);
    }
  }

  // ---------- The report ----------

  datatype Report = Report(
    nodes: nat,
    links: nat,
    linksByType: Tally,
    crossTypeLinks: nat,
    isolated: nat,
    degree: Degrees,
    componentCount: nat,
    components: seq<Component>)

  function LargerFirst(c: Component): int { -(c.size as int) }

  function BySize(all: seq<Component>): (r: seq<Component>)
    ensures |r| == |all|
  {
    SortSorts(all, LargerFirst);
    SortBy(all, LargerFirst)
  }

  /** The degree figures, for the degrees of all nodes and the number of
      link ends they add up to. */
  ghost predicate ReportsDegrees(figures: Degrees, isolated: nat, degree: seq<nat>, ends: nat) {
    var sorted := SortedDegrees(degree);
    && isolated == multiset(degree)[0]
    && figures.min == (if sorted == [] then 0 else sorted[0])
    && figures.max == (if sorted == [] then 0 else sorted[|sorted| - 1])
    && figures.p50 == At(sorted, 5) && figures.p90 == At(sorted, 9)
    && figures.mean == (if |degree| == 0 then 0.0 else ends as real / |degree| as real)
  }

  /** What the report says, against paths and counts over the tables. */
  ghost predicate Reports(report: Report, nodes: seq<Node>, links: seq<Link>, mark: seq<nat>, roots: seq<nat>,
                          all: seq<Component>)
    requires DistinctIds(nodes)
  {
    && |mark| == |nodes|
    && (forall i, j :: 0 <= i < |nodes| && 0 <= j < |nodes| ==> (mark[i] == mark[j] <==> Reachable(nodes, links, i, j)))
    && Listed(all, roots, nodes, mark)
    && report.componentCount == |roots|
    && report.components == BySize(all)[..if |all| < MAX_COMPONENTS then |all| else MAX_COMPONENTS]
    && report.nodes == |nodes| && report.links == |links|
    && Tallies(report.linksByType, Kinds(links))
    && report.crossTypeLinks == CrossCount(nodes, links)
    && ReportsDegrees(report.degree, report.isolated, DegreesOf(nodes, links, |nodes|), 2 * InBankCount(nodes, links))
  }

  method Summarize(degree: array<nat>) returns (figures: Degrees, isolated: nat)
    ensures ReportsDegrees(figures, isolated, degree[..], Sum(degree[..]))
  {
    hide SortBy, DegreeZero, Ascending, At, Sum;
    var sorted := SortedDegrees(degree[..]);
    SortSorts(degree[..], Itself);
    IsolatedCounted(degree[..]);
    isolated := DegreeZero(sorted);
    figures :=
      if sorted == [] then Degrees(0, At(sorted, 5), At(sorted, 9), 0, 0.0)
      else Degrees(sorted[0], At(sorted, 5), At(sorted, 9), sorted[|sorted| - 1], Sum(degree[..]) as real / |sorted| as real);
  }

  lemma MarksAreComponents(nodes: seq<Node>, links: seq<Link>, p: seq<nat>, measure: seq<nat>)
    requires Joined(nodes, links, p, measure)
    ensures |Labels(p, measure)| == |nodes|
    ensures forall i, j :: 0 <= i < |nodes| && 0 <= j < |nodes| ==>
      (Labels(p, measure)[i] == Labels(p, measure)[j] <==> Reachable(nodes, links, i, j))
  {
    hide Reachable, Adjacent, Root, Forest;
    forall i, j | 0 <= i < |nodes| && 0 <= j < |nodes|
      ensures Labels(p, measure)[i] == Labels(p, measure)[j] <==> Reachable(nodes, links, i, j)
    {
      RootsAreComponents(nodes, links, p, measure, i, j);
    }
  }

  /** A bank's anatomy: the components are exactly those that paths of in-bank
      links make, before all but the largest are cut. */
  method BankAnatomy(nodes: seq<Node>, table: seq<Link>)
    returns (report: Report, ghost mark: seq<nat>, ghost roots: seq<nat>, ghost all: seq<Component>)
    requires DistinctIds(nodes)
    ensures Reports(report, nodes, LinksOf(nodes, table), mark, roots, all)
    ensures SumSizes(all) == |nodes|
  {
    hide DistinctIds, Joined, Listed, Grouped, Tallies, Reachable, SortBy, Degree, DegreesOf, At, Sum, ReportsDegrees, LinksOf, InBankCount,
         CrossCount, Labels;
    var links := LinksOf(nodes, table);
    var parent := new nat[|nodes|](i => i);
    var degree := new nat[|nodes|](_ => 0);
    var kinds, cross, measure := ReadLinks(nodes, links, parent, degree);
    assert degree[..] == DegreesOf(nodes, links, |nodes|);
    MarksAreComponents(nodes, links, parent[..], measure);
    JoinedIsForest(nodes, links, parent[..], measure);
    var groups;
    groups, mark := GroupNodes(nodes, parent, measure);
    var components;
    components, roots := ListComponents(groups, nodes, mark);
    all := components;
    SizesSum(all, roots, nodes, mark);
    Handshake(nodes, links);
    var figures, isolated := Summarize(degree);
    var kept := if |components| < MAX_COMPONENTS then |components| else MAX_COMPONENTS;
    report := Report(|nodes|, |links|, kinds, cross, isolated, figures, |components|, BySize(components)[..kept]);
  }

  /** No component that was cut is larger than one that was kept. */
  lemma LargestKept(all: seq<Component>, kept: nat, i: nat, j: nat)
    requires i < kept <= j < |all|
    ensures |BySize(all)| == |all| && BySize(all)[i].size >= BySize(all)[j].size
  {
    hide SortBy;
    SortSorts(all, LargerFirst);
  }
}
