/**
 What the matcher promises: the block it finds first is the longest and the
 leftmost when nothing was pruned from the index, its total never exceeds the
 shorter name, and only equal names match in full, pruned or not.
 */
module MatchLaws {
  import opened Matching

  // ---------- The best block over the index ----------

  /** `(i, j)` comes before `(m, n)` in the order of the scan. */
  predicate Earlier(i: nat, j: nat, m: nat, n: nat) { i < m || (i == m && j < n) }

  /** `x` is the longest run of the rows before `end`, and the first one. */
  ghost predicate FirstBest(a: seq<char>, b: seq<char>, b2j: Index, w: Window, end: nat, x: Block)
    requires InBounds(w, a, b) && end <= w.ahi
  {
    && (forall i, j :: w.alo <= i < end && w.blo <= j < w.bhi ==> Run(a, b, b2j, w, i, j) <= x.size)
    && (x.size == 0 ==> x == Block(w.alo, w.blo, 0))
    && (x.size > 0 ==>
          var m, n := x.i + x.size - 1, x.j + x.size - 1;
          && w.alo <= m < end && w.blo <= n < w.bhi && Run(a, b, b2j, w, m, n) == x.size
          && forall i, j :: w.alo <= i < end && w.blo <= j < w.bhi && Earlier(i, j, m, n) ==> Run(a, b, b2j, w, i, j) < x.size)
  }

  /** The same, half way through row `i`. */
  ghost predicate FirstBestInRow(a: seq<char>, b: seq<char>, b2j: Index, w: Window, i: nat, end: nat, prev: Block, x: Block)
    requires InBounds(w, a, b) && w.alo <= i < w.ahi && end <= w.bhi
  {
    && prev.size <= x.size
    && (forall j :: w.blo <= j < end ==> Run(a, b, b2j, w, i, j) <= x.size)
    && (x == prev
        || var n := x.j + x.size - 1;
           && prev.size < x.size && x.i + x.size - 1 == i && w.blo <= n < end && Run(a, b, b2j, w, i, n) == x.size
           && forall j :: w.blo <= j < n ==> Run(a, b, b2j, w, i, j) < x.size)
  }

  lemma {:induction false} RowIsFirst(a: seq<char>, b: seq<char>, b2j: Index, w: Window, i: nat, end: nat, prev: Block)
    requires InBounds(w, a, b) && w.alo <= i < w.ahi && w.blo <= end <= w.bhi
    ensures FirstBestInRow(a, b, b2j, w, i, end, prev, BestInRow(a, b, b2j, w, i, end, prev))
    decreases end
  {
    hide Run;
    if end == w.blo {
    } else {
      RowIsFirst(a, b, b2j, w, i, end - 1, prev);
    }
  }

  lemma {:induction false} RowsAreFirst(a: seq<char>, b: seq<char>, b2j: Index, w: Window, end: nat)
    requires InBounds(w, a, b) && w.alo <= end <= w.ahi
    ensures FirstBest(a, b, b2j, w, end, BestInRows(a, b, b2j, w, end))
    decreases end
  {
    hide Run, BestInRow;
    if end == w.alo {
    } else {
      RowsAreFirst(a, b, b2j, w, end - 1);
      RowIsFirst(a, b, b2j, w, end - 1, w.bhi, BestInRows(a, b, b2j, w, end - 1));
    }
  }

  /** A common block over indexed elements is a run. */
  lemma {:induction false} RunCovers(a: seq<char>, b: seq<char>, b2j: Index, w: Window, x: Block)
    requires InBounds(w, a, b) && Common(a, b, w, x) && x.size > 0
    requires forall p :: x.i <= p < x.i + x.size ==> a[p] in b2j
    ensures Run(a, b, b2j, w, x.i + x.size - 1, x.j + x.size - 1) >= x.size
    decreases x.size
  {
    var m := x.i + x.size - 1;
    assert a[m] == b[m + x.j - x.i];
    if x.size == 1 {
    } else {
      RunCovers(a, b, b2j, w, Block(x.i, x.j, x.size - 1));
    }
  }

  // ---------- Nothing pruned ----------

  lemma ShortIsIndexed(b: seq<char>, c: char)
    requires |b| < 200 && c in b
    ensures c in IndexOf(b)
  {}

  lemma CommonIsIndexed(a: seq<char>, b: seq<char>, w: Window, x: Block)
    requires InBounds(w, a, b) && |b| < 200 && Common(a, b, w, x)
    ensures forall p :: x.i <= p < x.i + x.size ==> a[p] in IndexOf(b)
  {
    forall p | x.i <= p < x.i + x.size ensures a[p] in IndexOf(b) {
      ShortIsIndexed(b, b[p + x.j - x.i]);
    }
  }

  /** Below 200 elements the block is a longest common block of the window,
      with the smallest start in `a` among those and then in `b`; so growing it
      afterwards does nothing. */
  lemma LongestIsFirst(a: seq<char>, b: seq<char>, w: Window, y: Block)
    requires InBounds(w, a, b) && |b| < 200
    ensures Longest(a, b, IndexOf(b), w) == BestInRows(a, b, IndexOf(b), w, w.ahi)
    ensures
      var x := Longest(a, b, IndexOf(b), w);
      Common(a, b, w, y) ==> y.size <= x.size && (0 < y.size == x.size ==> x.i < y.i || (x.i == y.i && x.j <= y.j))
  {
    hide Run, IndexOf, BestInRows;
    var b2j := IndexOf(b);
    var x := BestInRows(a, b, b2j, w, w.ahi);
    RowsAreFirst(a, b, b2j, w, w.ahi);
    RowsAreCommon(a, b, b2j, w, w.ahi);
    NotLonger(a, b, w, x, ExtendBack(a, b, w, x));
    NotLonger(a, b, w, x, ExtendForward(a, b, w, x));
    if Common(a, b, w, y) {
      NotLonger(a, b, w, x, y);
      if 0 < y.size == x.size {
        CommonIsIndexed(a, b, w, y);
        RunCovers(a, b, b2j, w, y);
      }
    }
    ExtendedOrSame(a, b, w, x);
  }

  lemma NotLonger(a: seq<char>, b: seq<char>, w: Window, x: Block, y: Block)
    requires InBounds(w, a, b) && |b| < 200 && FirstBest(a, b, IndexOf(b), w, w.ahi, x) && Common(a, b, w, y)
    ensures y.size <= x.size
  {
    hide Run, IndexOf;
    if y.size > 0 {
      CommonIsIndexed(a, b, w, y);
      RunCovers(a, b, IndexOf(b), w, y);
    }
  }

  lemma ExtendedOrSame(a: seq<char>, b: seq<char>, w: Window, x: Block)
    requires InBounds(w, a, b) && Common(a, b, w, x)
    requires ExtendBack(a, b, w, x).size <= x.size && ExtendForward(a, b, w, x).size <= x.size
    ensures ExtendForward(a, b, w, ExtendBack(a, b, w, x)) == x
  {
    BackGrows(a, b, w, x);
    ForwardGrows(a, b, w, x);
  }

  lemma {:induction false} BackGrows(a: seq<char>, b: seq<char>, w: Window, x: Block)
    requires InBounds(w, a, b) && Common(a, b, w, x)
    ensures ExtendBack(a, b, w, x).size >= x.size
    ensures ExtendBack(a, b, w, x).size == x.size ==> ExtendBack(a, b, w, x) == x
    decreases x.i
  {
    if x.i == w.alo || x.j == w.blo || a[x.i - 1] != b[x.j - 1] {
    } else {
      BackGrows(a, b, w, Block(x.i - 1, x.j - 1, x.size + 1));
    }
  }

  lemma {:induction false} ForwardGrows(a: seq<char>, b: seq<char>, w: Window, x: Block)
    requires InBounds(w, a, b) && Common(a, b, w, x)
    ensures ExtendForward(a, b, w, x).size >= x.size
    ensures ExtendForward(a, b, w, x).size == x.size ==> ExtendForward(a, b, w, x) == x
    decreases w.ahi - x.i - x.size
  {
    if x.i + x.size == w.ahi || x.j + x.size == w.bhi || a[x.i + x.size] != b[x.j + x.size] {
    } else {
      ForwardGrows(a, b, w, Block(x.i, x.j, x.size + 1));
    }
  }

  // ---------- The blocks of the whole match ----------

  /** The blocks that the total adds up, in order. */
  function Blocks(a: seq<char>, b: seq<char>, b2j: Index, w: Window): seq<Block>
    requires InBounds(w, a, b)
    decreases w.ahi - w.alo
  {
    var x := Longest(a, b, b2j, w);
    if x.size == 0 then []
    else
      (if w.alo < x.i && w.blo < x.j then Blocks(a, b, b2j, Before(w, x)) else [])
      + [x]
      + (if x.i + x.size < w.ahi && x.j + x.size < w.bhi then Blocks(a, b, b2j, After(w, x)) else [])
  }

  function Sum(bs: seq<Block>): nat {
    if bs == [] then 0 else bs[0].size + Sum(bs[1..])
  }

  /** Common blocks, each strictly behind the one before in both sequences. */
  predicate Chain(bs: seq<Block>, a: seq<char>, b: seq<char>, w: Window)
    requires InBounds(w, a, b)
  {
    bs != [] ==> Common(a, b, w, bs[0]) && Chain(bs[1..], a, b, After(w, bs[0]))
  }

  lemma {:induction false} SumJoin(l: seq<Block>, r: seq<Block>)
    ensures Sum(l + r) == Sum(l) + Sum(r)
  {
    if l == [] {
      assert l + r == r;
    } else {
      SumJoin(l[1..], r);
      assert (l + r)[1..] == l[1..] + r;
    }
  }

  lemma {:induction false} ChainJoin(l: seq<Block>, x: Block, r: seq<Block>, a: seq<char>, b: seq<char>, w: Window)
    requires InBounds(w, a, b) && Common(a, b, w, x)
    requires Chain(l, a, b, Before(w, x)) && Chain(r, a, b, After(w, x))
    ensures Chain(l + [x] + r, a, b, w)
    decreases |l|
  {
    var all := l + [x] + r;
    if l == [] {
      assert all[1..] == r;
    } else {
      assert all[1..] == l[1..] + [x] + r;
      ChainJoin(l[1..], x, r, a, b, After(w, l[0]));
    }
  }

  lemma {:induction false} BlocksAreAChain(a: seq<char>, b: seq<char>, b2j: Index, w: Window)
    requires InBounds(w, a, b)
    ensures Chain(Blocks(a, b, b2j, w), a, b, w) && Sum(Blocks(a, b, b2j, w)) == Total(a, b, b2j, w)
    decreases w.ahi - w.alo
  {
    hide Longest, Common, Chain, Sum;
    var x := Longest(a, b, b2j, w);
    CommonFits(a, b, w, x);
    var l, r: seq<Block> := [], [];
    EmptyChain(a, b, Before(w, x));
    EmptyChain(a, b, After(w, x));
    if x.size == 0 {
      EmptyChain(a, b, w);
    } else {
      if w.alo < x.i && w.blo < x.j {
        l := Blocks(a, b, b2j, Before(w, x));
        BlocksAreAChain(a, b, b2j, Before(w, x));
      }
      if x.i + x.size < w.ahi && x.j + x.size < w.bhi {
        r := Blocks(a, b, b2j, After(w, x));
        BlocksAreAChain(a, b, b2j, After(w, x));
      }
      ChainJoin(l, x, r, a, b, w);
      SumJoin(l + [x], r);
      SumJoin(l, [x]);
      SumOne(x);
    }
  }

  lemma EmptyChain(a: seq<char>, b: seq<char>, w: Window)
    requires InBounds(w, a, b)
    ensures Chain([], a, b, w) && Sum([]) == 0
  {}

  lemma SumOne(x: Block)
    ensures Sum([x]) == x.size
  {}

  /** A chain fits in the shorter sequence, and fills both only if they agree. */
  lemma {:induction false} ChainFits(bs: seq<Block>, a: seq<char>, b: seq<char>, w: Window)
    requires InBounds(w, a, b) && Chain(bs, a, b, w)
    ensures Sum(bs) <= w.ahi - w.alo && Sum(bs) <= w.bhi - w.blo
    ensures Sum(bs) == w.ahi - w.alo == w.bhi - w.blo ==> a[w.alo..w.ahi] == b[w.blo..w.bhi]
    decreases |bs|
  {
    if bs == [] {
    } else {
      var x := bs[0];
      var rest := After(w, x);
      ChainFits(bs[1..], a, b, rest);
      if Sum(bs) == w.ahi - w.alo == w.bhi - w.blo {
        assert x.i == w.alo && x.j == w.blo;
        forall p | 0 <= p < w.ahi - w.alo ensures a[w.alo..w.ahi][p] == b[w.blo..w.bhi][p] {
          if p < x.size {
            assert a[w.alo + p] == b[w.alo + p + x.j - x.i];
          } else {
            assert a[rest.alo..rest.ahi][p - x.size] == b[rest.blo..rest.bhi][p - x.size];
          }
        }
      }
    }
  }

  // ---------- Equal sequences ----------

  /** The elements of a run are indexed where they stand in `b`, too. */
  lemma CopyIsIndexed(a: seq<char>, b: seq<char>, b2j: Index, w: Window, x: Block)
    requires InBounds(w, a, b) && Common(a, b, w, x) && forall p :: x.i <= p < x.i + x.size ==> a[p] in b2j
    ensures forall p :: x.j <= p < x.j + x.size ==> b[p] in b2j
  {
    forall p | x.j <= p < x.j + x.size ensures b[p] in b2j {
      assert a[p - x.j + x.i] in b2j;
    }
  }

  lemma CommonFits(a: seq<char>, b: seq<char>, w: Window, x: Block)
    requires InBounds(w, a, b) && Common(a, b, w, x)
    ensures InWindow(x, w)
  {}

  /** What the best block says of one pair of positions. */
  lemma BestAgainst(a: seq<char>, b: seq<char>, b2j: Index, w: Window, end: nat, x: Block, i: nat, j: nat)
    requires InBounds(w, a, b) && end <= w.ahi && FirstBest(a, b, b2j, w, end, x) && x.size > 0
    requires w.alo <= i < end && w.blo <= j < w.bhi
    ensures x.i + x.size <= end && x.j + x.size <= w.bhi
    ensures Earlier(i, j, x.i + x.size - 1, x.j + x.size - 1) ==> Run(a, b, b2j, w, i, j) < x.size
    ensures Run(a, b, b2j, w, x.i + x.size - 1, x.j + x.size - 1) == x.size
  {
    hide Run;
  }

  lemma EmptyBest(a: seq<char>, b: seq<char>, b2j: Index, w: Window, end: nat, x: Block)
    requires InBounds(w, a, b) && end <= w.ahi && FirstBest(a, b, b2j, w, end, x) && x.size == 0
    ensures x == Block(w.alo, w.blo, 0)
  {}

  lemma DiagonalIsCommon(a: seq<char>, b: seq<char>, x: Block)
    requires a == b && x.i == x.j && x.i + x.size <= |a|
    ensures Common(a, b, Whole(a, b), x)
  {}

  /** A run of a sequence against itself has a copy on the diagonal, at the
      smaller of its two starts. */
  lemma DiagonalCopy(a: seq<char>, b2j: Index, x: Block)
    requires Common(a, a, Whole(a, a), x) && x.size > 0
    requires Run(a, a, b2j, Whole(a, a), x.i + x.size - 1, x.j + x.size - 1) == x.size
    ensures
      var q := (if x.j < x.i then x.j else x.i) + x.size - 1;
      q < |a| && Run(a, a, b2j, Whole(a, a), q, q) >= x.size
  {
    hide Run, Common;
    var w := Whole(a, a);
    CommonFits(a, a, w, x);
    RunIsCommon(a, a, b2j, w, x.i + x.size - 1, x.j + x.size - 1);
    if x.j < x.i {
      CopyIsIndexed(a, a, b2j, w, x);
      DiagonalIsCommon(a, a, Block(x.j, x.j, x.size));
      RunCovers(a, a, b2j, w, Block(x.j, x.j, x.size));
    } else {
      DiagonalIsCommon(a, a, Block(x.i, x.i, x.size));
      RunCovers(a, a, b2j, w, Block(x.i, x.i, x.size));
    }
  }

  /** On equal sequences the best run lies on the diagonal: a run off it has a
      copy on it that the scan meets first. */
  lemma EqualIsAligned(a: seq<char>, b2j: Index)
    ensures var x := BestInRows(a, a, b2j, Whole(a, a), |a|); x.i == x.j
  {
    hide Run, BestInRows, Common, FirstBest;
    var w := Whole(a, a);
    var x := BestInRows(a, a, b2j, w, |a|);
    RowsAreFirst(a, a, b2j, w, |a|);
    RowsAreCommon(a, a, b2j, w, |a|);
    CommonFits(a, a, w, x);
    if x.size == 0 {
      EmptyBest(a, a, b2j, w, |a|, x);
    } else {
      var q := (if x.j < x.i then x.j else x.i) + x.size - 1;
      BestAgainst(a, a, b2j, w, |a|, x, q, q);
      DiagonalCopy(a, b2j, x);
    }
  }

  lemma {:induction false} DiagonalBack(a: seq<char>, x: Block)
    requires x.i == x.j && x.i + x.size <= |a| && Common(a, a, Whole(a, a), x)
    ensures ExtendBack(a, a, Whole(a, a), x) == Block(0, 0, x.i + x.size)
    decreases x.i
  {
    hide Common;
    if x.i == 0 {
    } else {
      DiagonalIsCommon(a, a, Block(x.i - 1, x.j - 1, x.size + 1));
      DiagonalBack(a, Block(x.i - 1, x.j - 1, x.size + 1));
    }
  }

  lemma {:induction false} DiagonalForward(a: seq<char>, x: Block)
    requires x.i == x.j == 0 && x.size <= |a| && Common(a, a, Whole(a, a), x)
    ensures ExtendForward(a, a, Whole(a, a), x) == Block(0, 0, |a|)
    decreases |a| - x.size
  {
    hide Common;
    if x.size == |a| {
    } else {
      DiagonalIsCommon(a, a, Block(0, 0, x.size + 1));
      DiagonalForward(a, Block(0, 0, x.size + 1));
    }
  }

  lemma EqualMatchesInFull(a: seq<char>, b2j: Index)
    ensures Total(a, a, b2j, Whole(a, a)) == |a|
  {
    hide Run, BestInRows, ExtendBack, ExtendForward, Common;
    var w := Whole(a, a);
    var x := BestInRows(a, a, b2j, w, |a|);
    EqualIsAligned(a, b2j);
    RowsAreCommon(a, a, b2j, w, |a|);
    CommonFits(a, a, w, x);
    DiagonalBack(a, x);
    DiagonalIsCommon(a, a, Block(0, 0, x.i + x.size));
    DiagonalForward(a, Block(0, 0, x.i + x.size));
  }

  /** The total never exceeds either length, and equals both exactly when the
      sequences are equal, whatever the index has dropped. */
  lemma TotalBounds(a: seq<char>, b: seq<char>)
    ensures MatchingTotal(a, b) <= |a| && MatchingTotal(a, b) <= |b|
    ensures MatchingTotal(a, b) == |a| == |b| <==> a == b
  {
    hide Total, IndexOf, Chain, Blocks, Sum;
    var w := Whole(a, b);
    BlocksAreAChain(a, b, IndexOf(b), w);
    ChainFits(Blocks(a, b, IndexOf(b), w), a, b, w);
    assert a[0..|a|] == a && b[0..|b|] == b;
    if a == b {
      EqualMatchesInFull(a, IndexOf(b));
    }
  }
}
