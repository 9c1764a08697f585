/** The figures of a bank's anatomy, each by counting rows of the tables. */
module CensusLaws {
  import opened Common
  import opened Reach
  import opened Anatomy
  import opened Census

  // ---------- Counting places ----------

  /** Where `x` stands in `s`. */
  function Places<T(==)>(s: seq<T>, x: T): set<nat> {
    set k: nat | k < |s| && s[k] == x
  }

  lemma {:induction false} CountIsPlaces<T>(s: seq<T>, x: T)
    ensures multiset(s)[x] == |Places(s, x)|
    decreases |s|
  {
    if s == [] {
    } else {
      var n := |s| - 1;
      CountIsPlaces(s[..n], x);
      assert s == s[..n] + [s[n]];
      var was := Places(s[..n], x);
      assert Places(s, x) == if s[n] == x then was + {n} else was;
    }
  }

  // ---------- Links ----------

  /** The links that are read: those whose source is in the bank, each as often
      as the table has it. */
  lemma {:induction false} LinksRead(nodes: seq<Node>, table: seq<Link>, link: Link)
    ensures multiset(LinksOf(nodes, table))[link]
            == if exists i :: 0 <= i < |nodes| && nodes[i].id == link.source then multiset(table)[link] else 0
    decreases |table|
  {
    if table == [] {
    } else {
      var n := |table| - 1;
      LinksRead(nodes, table[..n], link);
      assert table == table[..n] + [table[n]];
    }
  }

  /** The link joins nodes `i` and `j` of the bank, of different fact types. */
  predicate Crosses(nodes: seq<Node>, link: Link, i: int, j: int) {
    && 0 <= i < |nodes| && 0 <= j < |nodes|
    && nodes[i].id == link.source && nodes[j].id == link.target && nodes[i].factType != nodes[j].factType
  }

  ghost predicate IsCross(nodes: seq<Node>, link: Link) {
    exists i, j :: Crosses(nodes, link, i, j)
  }

  ghost function CrossLinks(nodes: seq<Node>, links: seq<Link>): set<nat> {
    set k: nat | k < |links| && IsCross(nodes, links[k])
  }

  lemma CrossIsCounted(nodes: seq<Node>, link: Link)
    requires DistinctIds(nodes)
    ensures IsCross(nodes, link) <==> InBank(nodes, link) && !SameType(nodes, link)
  {
    if InBank(nodes, link) {
      var i :| 0 <= i < |nodes| && nodes[i].id == link.source;
      var j :| 0 <= j < |nodes| && nodes[j].id == link.target;
      assert SameType(nodes, link) <==> nodes[i].factType == nodes[j].factType;
      if nodes[i].factType != nodes[j].factType {
        assert Crosses(nodes, link, i, j);
      }
    }
  }

  lemma {:induction false} CrossCounted(nodes: seq<Node>, links: seq<Link>)
    requires DistinctIds(nodes)
    ensures CrossCount(nodes, links) == |CrossLinks(nodes, links)|
    decreases |links|
  {
    hide DistinctIds, IsCross, InBank, SameType;
    if links == [] {
    } else {
      var n := |links| - 1;
      CrossCounted(nodes, links[..n]);
      CrossIsCounted(nodes, links[n]);
      var was := CrossLinks(nodes, links[..n]);
      assert CrossLinks(nodes, links) == if IsCross(nodes, links[n]) then was + {n} else was;
    }
  }

  /** The links from and to node `id`; both ends are in the bank. */
  ghost function Leaving(nodes: seq<Node>, links: seq<Link>, id: int): set<nat> {
    set k: nat | k < |links| && Holds(nodes, links[k].target) && links[k].source == id
  }

  ghost function Arriving(nodes: seq<Node>, links: seq<Link>, id: int): set<nat> {
    set k: nat | k < |links| && Holds(nodes, links[k].source) && links[k].target == id
  }

  /** A node's degree is the links that leave it and those that arrive, a link
      to itself being both. */
  lemma {:induction false} DegreeCounts(nodes: seq<Node>, links: seq<Link>, id: int)
    requires exists i :: 0 <= i < |nodes| && nodes[i].id == id
    ensures Degree(nodes, links, id) == |Leaving(nodes, links, id)| + |Arriving(nodes, links, id)|
    decreases |links|
  {
    if links == [] {
    } else {
      var n := |links| - 1;
      DegreeCounts(nodes, links[..n], id);
      hide Holds, Degree, Leaving, Arriving;
      HeldById(nodes, id);
      OneMoreLeaving(nodes, links, id);
      OneMoreArriving(nodes, links, id);
      OneMoreEnd(nodes, links, id);
    }
  }

  lemma OneMoreEnd(nodes: seq<Node>, links: seq<Link>, id: int)
    requires links != [] && Holds(nodes, id)
    ensures
      var n := |links| - 1;
      Degree(nodes, links, id) == Degree(nodes, links[..n], id)
        + (if Holds(nodes, links[n].target) && links[n].source == id then 1 else 0)
        + (if Holds(nodes, links[n].source) && links[n].target == id then 1 else 0)
  {
    hide Holds;
  }

  lemma OneMoreLeaving(nodes: seq<Node>, links: seq<Link>, id: int)
    requires links != []
    ensures
      var n := |links| - 1;
      |Leaving(nodes, links, id)| == |Leaving(nodes, links[..n], id)| + if Holds(nodes, links[n].target) && links[n].source == id then 1 else 0
  {
    hide Holds;
    var n := |links| - 1;
    var was := Leaving(nodes, links[..n], id);
    assert Leaving(nodes, links, id) == if Holds(nodes, links[n].target) && links[n].source == id then was + {n} else was;
  }

  lemma OneMoreArriving(nodes: seq<Node>, links: seq<Link>, id: int)
    requires links != []
    ensures
      var n := |links| - 1;
      |Arriving(nodes, links, id)| == |Arriving(nodes, links[..n], id)| + if Holds(nodes, links[n].source) && links[n].target == id then 1 else 0
  {
    hide Holds;
    var n := |links| - 1;
    var was := Arriving(nodes, links[..n], id);
    assert Arriving(nodes, links, id) == if Holds(nodes, links[n].source) && links[n].target == id then was + {n} else was;
  }

  lemma HeldById(nodes: seq<Node>, id: int)
    requires exists i :: 0 <= i < |nodes| && nodes[i].id == id
    ensures Holds(nodes, id)
  {}

  // ---------- Components ----------

  /** The nodes of one mark and fact type. */
  function Members(nodes: seq<Node>, mark: seq<nat>, n: nat, root: nat, factType: string): set<nat>
    requires n <= |nodes| == |mark|
  {
    set k: nat | k < n && mark[k] == root && nodes[k].factType == factType
  }

  lemma {:induction false} TypesCounted(nodes: seq<Node>, mark: seq<nat>, n: nat, root: nat, factType: string)
    requires n <= |nodes| == |mark|
    ensures multiset(TypesIn(nodes, mark, n, root))[factType] == |Members(nodes, mark, n, root, factType)|
  {
    hide TypesIn, Members;
    if n == 0 {
      NothingCounted(nodes, mark, root, factType);
    } else {
      TypesCounted(nodes, mark, n - 1, root, factType);
      TypesGrow(nodes, mark, n - 1, root);
      OneMoreMember(nodes, mark, n, root, factType);
      CountOneMore(TypesIn(nodes, mark, n - 1, root), nodes[n - 1].factType, factType);
    }
  }

  lemma NothingCounted(nodes: seq<Node>, mark: seq<nat>, root: nat, factType: string)
    requires |nodes| == |mark|
    ensures TypesIn(nodes, mark, 0, root) == [] && Members(nodes, mark, 0, root, factType) == {}
  {}

  lemma CountOneMore(s: seq<string>, x: string, y: string)
    ensures multiset(s + [x])[y] == multiset(s)[y] + if x == y then 1 else 0
  {}

  lemma OneMoreMember(nodes: seq<Node>, mark: seq<nat>, n: nat, root: nat, factType: string)
    requires 0 < n <= |nodes| == |mark|
    ensures
      |Members(nodes, mark, n, root, factType)| ==
      |Members(nodes, mark, n - 1, root, factType)| + if mark[n - 1] == root && nodes[n - 1].factType == factType then 1 else 0
  {
    var was := Members(nodes, mark, n - 1, root, factType);
    assert Members(nodes, mark, n, root, factType)
        == if mark[n - 1] == root && nodes[n - 1].factType == factType then was + {n - 1} else was;
  }

  // ---------- Percentiles ----------

  function Under(s: seq<nat>, v: nat): set<nat> { set k: nat | k < |s| && s[k] < v }

  function UpTo(s: seq<nat>, v: nat): set<nat> { set k: nat | k < |s| && s[k] <= v }

  function CountUnder(m: multiset<nat>, v: nat): nat
    decreases v
  {
    if v == 0 then 0 else CountUnder(m, v - 1) + m[v - 1]
  }

  lemma {:induction false} UnderCounts(s: seq<nat>, v: nat)
    ensures |Under(s, v)| == CountUnder(multiset(s), v)
    ensures v > 0 ==> UpTo(s, v - 1) == Under(s, v)
  {
    if v == 0 {
      assert Under(s, 0) == {};
    } else {
      UnderCounts(s, v - 1);
      CountIsPlaces(s, v - 1);
      assert Under(s, v) == Under(s, v - 1) + Places(s, v - 1);
      assert Under(s, v - 1) !! Places(s, v - 1);
    }
  }

  /** A sort moves values and keeps how many are under any. */
  lemma SameCounts(s: seq<nat>, t: seq<nat>, v: nat)
    requires multiset(s) == multiset(t)
    ensures |Under(s, v)| == |Under(t, v)| && |UpTo(s, v)| == |UpTo(t, v)|
  {
    UnderCounts(s, v);
    UnderCounts(t, v);
    UnderCounts(s, v + 1);
    UnderCounts(t, v + 1);
  }

  lemma {:induction false} AtMostFirst(a: set<nat>, n: nat)
    requires forall k :: k in a ==> k < n
    ensures |a| <= n
  {
    if n == 0 {
      assert a == {};
    } else {
      AtMostFirst(a - {n - 1}, n - 1);
    }
  }

  lemma {:induction false} AtLeastFirst(a: set<nat>, n: nat)
    requires forall k: nat :: k < n ==> k in a
    ensures n <= |a|
  {
    if n > 0 {
      AtLeastFirst(a - {n - 1}, n - 1);
    }
  }

  /** An entry of an ascending sequence has its place between those under it and
      those up to it. */
  lemma PlaceOf(sorted: seq<nat>, k: nat)
    requires k < |sorted| && Ascending(sorted, Itself)
    ensures |Under(sorted, sorted[k])| <= k < |UpTo(sorted, sorted[k])|
  {
    assert forall i, j :: 0 <= i < j < |sorted| ==> Itself(sorted[i]) <= Itself(sorted[j]);
    AtMostFirst(Under(sorted, sorted[k]), k);
    AtLeastFirst(UpTo(sorted, sorted[k]), k + 1);
  }

  /** `v` is the degree at the given share of the nodes: at most that share
      lies under it, and more lies up to it. */
  predicate AtShare(degree: seq<nat>, v: nat, tenths: nat) {
    10 * |Under(degree, v)| <= tenths * |degree| < 10 * |UpTo(degree, v)|
  }

  lemma PercentileIs(degree: seq<nat>, tenths: nat)
    requires degree != [] && tenths < 10
    ensures AtShare(degree, At(SortedDegrees(degree), tenths), tenths)
  {
    hide Under, UpTo, SortBy;
    var sorted := SortedDegrees(degree);
    SortSorts(degree, Itself);
    var k := |sorted| * tenths / 10;
    PlaceOf(sorted, k);
    SameCounts(sorted, degree, sorted[k]);
  }

  /** No other value is at that share. */
  lemma ShareIsOne(degree: seq<nat>, v: nat, w: nat, tenths: nat)
    requires AtShare(degree, v, tenths) && AtShare(degree, w, tenths)
    ensures v == w
  {
    if v < w {
      SubsetSize(UpTo(degree, v), Under(degree, w));
    }
    if w < v {
      SubsetSize(UpTo(degree, w), Under(degree, v));
    }
  }

  lemma Extremes(degree: seq<nat>)
    requires degree != []
    ensures
      var sorted := SortedDegrees(degree);
      sorted != [] && sorted[0] in degree && sorted[|sorted| - 1] in degree
      && forall d :: d in degree ==> sorted[0] <= d <= sorted[|sorted| - 1]
  {
    hide SortBy;
    SortSorts(degree, Itself);
    var sorted := SortedDegrees(degree);
    forall d | d in degree ensures sorted[0] <= d <= sorted[|sorted| - 1] {
      assert d in multiset(degree);
      var k :| 0 <= k < |sorted| && sorted[k] == d;
      assert k > 0 ==> Itself(sorted[0]) <= Itself(sorted[k]);
      assert k < |sorted| - 1 ==> Itself(sorted[k]) <= Itself(sorted[|sorted| - 1]);
    }
    assert sorted[0] in multiset(sorted) && sorted[|sorted| - 1] in multiset(sorted);
  }

  // ---------- The report ----------

  /** The places in `links` of one kind. */
  function OfKind(links: seq<Link>, kind: string): set<nat> {
    set k: nat | k < |links| && links[k].kind == kind
  }

  lemma KindCounted(links: seq<Link>, kind: string)
    ensures multiset(Kinds(links))[kind] == |OfKind(links, kind)|
  {
    CountIsPlaces(Kinds(links), kind);
    assert OfKind(links, kind) == Places(Kinds(links), kind);
  }

  /** What a report says about the links: how many there are, of each kind, and
      between different fact types. */
  lemma LinksReported(report: Report, nodes: seq<Node>, links: seq<Link>, mark: seq<nat>, roots: seq<nat>, all: seq<Component>,
                      kind: string)
    requires DistinctIds(nodes) && Reports(report, nodes, links, mark, roots, all)
    ensures report.links == |links| && report.crossTypeLinks == |CrossLinks(nodes, links)|
    ensures (if kind in report.linksByType then report.linksByType[kind] else 0) == |OfKind(links, kind)|
  {
    hide CrossLinks, DistinctIds, Listed, ReportsDegrees, Reachable, BySize, OfKind;
    CrossCounted(nodes, links);
    KindCounted(links, kind);
  }

  /** What it says about the degrees. */
  lemma DegreesReported(report: Report, nodes: seq<Node>, links: seq<Link>, mark: seq<nat>, roots: seq<nat>, all: seq<Component>)
    requires DistinctIds(nodes) && Reports(report, nodes, links, mark, roots, all) && nodes != []
    ensures
      var degree := DegreesOf(nodes, links, |nodes|);
      && AtShare(degree, report.degree.p50, 5) && AtShare(degree, report.degree.p90, 9)
      && report.degree.min in degree && report.degree.max in degree
      && (forall d :: d in degree ==> report.degree.min <= d <= report.degree.max)
      && report.degree.mean * |nodes| as real == (2 * InBankCount(nodes, links)) as real
      && report.isolated == |Places(degree, 0)|
  {
    hide DistinctIds, Listed, Reachable, BySize, SortedDegrees, AtShare, ReportsDegrees, Tallies, CrossCount, Places, Degree, InBankCount;
    FiguresReported(report.degree, report.isolated, DegreesOf(nodes, links, |nodes|), 2 * InBankCount(nodes, links));
  }

  lemma FiguresReported(figures: Degrees, isolated: nat, degree: seq<nat>, ends: nat)
    requires ReportsDegrees(figures, isolated, degree, ends) && degree != []
    ensures AtShare(degree, figures.p50, 5) && AtShare(degree, figures.p90, 9)
    ensures figures.min in degree && figures.max in degree && forall d :: d in degree ==> figures.min <= d <= figures.max
    ensures figures.mean * |degree| as real == ends as real
    ensures isolated == |Places(degree, 0)|
  {
    hide SortedDegrees, AtShare, At, Places;
    PercentileIs(degree, 5);
    PercentileIs(degree, 9);
    Extremes(degree);
    CountIsPlaces(degree, 0);
    MeanIs(ends, |degree|);
  }

  lemma MeanIs(ends: nat, n: nat)
    requires n > 0
    ensures ends as real / n as real * n as real == ends as real
  {}

  /** What it says about the components: their number, at most the twelve
      largest, and of each one the fact types of its nodes. */
  lemma ComponentsReported(report: Report, nodes: seq<Node>, links: seq<Link>, mark: seq<nat>, roots: seq<nat>, all: seq<Component>,
                           k: nat, factType: string)
    requires DistinctIds(nodes) && Reports(report, nodes, links, mark, roots, all) && k < |all| == |roots|
    ensures |report.components| == if |all| <= 12 then |all| else 12
    ensures all[k].size == |Places(mark, roots[k])|
    ensures (if factType in all[k].types then all[k].types[factType] else 0) == |Members(nodes, mark, |nodes|, roots[k], factType)|
  {
    hide DistinctIds, ReportsDegrees, Reachable, BySize, Members, Places, TypesIn, CrossCount, Kinds;
    CountIsPlaces(mark, roots[k]);
    TypesCounted(nodes, mark, |nodes|, roots[k], factType);
    assert Tallies(all[k].types, TypesIn(nodes, mark, |nodes|, roots[k]));
  }
}
