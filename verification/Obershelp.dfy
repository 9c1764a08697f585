/**
 What the matched total is, said without the search: the chain of blocks that
 Ratcliff and Obershelp describe, the longest first and then the same on either
 side of it, until nothing is left to match.
 */
module Obershelp {
  import opened Matching
  import opened MatchLaws

  /** No element of `a[alo..ahi]` occurs in `b[blo..bhi]`. */
  predicate NothingShared(a: seq<char>, b: seq<char>, alo: nat, ahi: nat, blo: nat, bhi: nat)
    requires ahi <= |a| && bhi <= |b|
  {
    forall p, q :: alo <= p < ahi && blo <= q < bhi ==> a[p] != b[q]
  }

  /** A common block that is no shorter than any other, and first among those of
      its length. */
  ghost predicate IsLongest(x: Block, a: seq<char>, b: seq<char>, w: Window)
    requires InBounds(w, a, b)
  {
    && Common(a, b, w, x) && x.size > 0
    && forall y :: Common(a, b, w, y) && y.size > 0 ==>
         y.size < x.size || (y.size == x.size && (x.i < y.i || (x.i == y.i && x.j <= y.j)))
  }

  /** The blocks of a window: none where nothing is shared, and otherwise the
      longest, with the blocks of what lies before it in both sequences and of
      what lies behind it in both. */
  ghost predicate IsMatch(bs: seq<Block>, a: seq<char>, b: seq<char>, alo: nat, ahi: nat, blo: nat, bhi: nat)
    requires alo <= ahi <= |a| && blo <= bhi <= |b|
    decreases |bs|
  {
    if bs == [] then NothingShared(a, b, alo, ahi, blo, bhi)
    else exists k :: 0 <= k < |bs| && Splits(bs, k, a, b, alo, ahi, blo, bhi)
  }

  ghost predicate Splits(bs: seq<Block>, k: nat, a: seq<char>, b: seq<char>, alo: nat, ahi: nat, blo: nat, bhi: nat)
    requires alo <= ahi <= |a| && blo <= bhi <= |b| && k < |bs|
    decreases |bs|, 0
  {
    var x := bs[k];
    && IsLongest(x, a, b, Window(alo, ahi, blo, bhi))
    && alo <= x.i && x.i + x.size <= ahi && blo <= x.j && x.j + x.size <= bhi
    && IsMatch(bs[..k], a, b, alo, x.i, blo, x.j)
    && IsMatch(bs[k + 1..], a, b, x.i + x.size, ahi, x.j + x.size, bhi)
  }

  lemma OneShared(a: seq<char>, b: seq<char>, w: Window, p: nat, q: nat)
    requires InBounds(w, a, b) && w.alo <= p < w.ahi && w.blo <= q < w.bhi && a[p] == b[q]
    ensures Common(a, b, w, Block(p, q, 1))
  {}

  lemma LongestIsLongest(a: seq<char>, b: seq<char>, w: Window)
    requires InBounds(w, a, b) && |b| < 200
    ensures
      var x := Longest(a, b, IndexOf(b), w);
      if x.size == 0 then NothingShared(a, b, w.alo, w.ahi, w.blo, w.bhi) else IsLongest(x, a, b, w)
  {
    hide Longest, IndexOf, Common;
    var x := Longest(a, b, IndexOf(b), w);
    if x.size == 0 {
      forall p, q | w.alo <= p < w.ahi && w.blo <= q < w.bhi ensures a[p] != b[q] {
        if a[p] == b[q] {
          OneShared(a, b, w, p, q);
          LongestIsFirst(a, b, w, Block(p, q, 1));
        }
      }
    } else {
      LongestIsCommon(a, b, w);
      forall y | Common(a, b, w, y) && y.size > 0
        ensures y.size < x.size || (y.size == x.size && (x.i < y.i || (x.i == y.i && x.j <= y.j)))
      {
        LongestIsFirst(a, b, w, y);
      }
    }
  }

  lemma LongestIsCommon(a: seq<char>, b: seq<char>, w: Window)
    requires InBounds(w, a, b) && |b| < 200
    ensures Common(a, b, w, Longest(a, b, IndexOf(b), w))
  {
    hide Common, BestInRows, IndexOf;
    LongestIsFirst(a, b, w, Block(w.alo, w.blo, 0));
    RowsAreCommon(a, b, IndexOf(b), w, w.ahi);
  }

  lemma NarrowShares(a: seq<char>, b: seq<char>, alo: nat, ahi: nat, blo: nat, bhi: nat)
    requires alo <= ahi <= |a| && blo <= bhi <= |b| && (alo == ahi || blo == bhi)
    ensures IsMatch([], a, b, alo, ahi, blo, bhi)
  {}

  /** The blocks that are found are those blocks. */
  lemma {:induction false} BlocksAreMatch(a: seq<char>, b: seq<char>, w: Window)
    requires InBounds(w, a, b) && |b| < 200
    ensures IsMatch(Blocks(a, b, IndexOf(b), w), a, b, w.alo, w.ahi, w.blo, w.bhi)
    decreases w.ahi - w.alo
  {
    hide Longest, Common, IndexOf, IsLongest, NothingShared;
    var b2j := IndexOf(b);
    var x := Longest(a, b, b2j, w);
    LongestIsLongest(a, b, w);
    LongestIsCommon(a, b, w);
    CommonFits(a, b, w, x);
    if x.size == 0 {
    } else {
      var l, r: seq<Block> := [], [];
      if w.alo < x.i && w.blo < x.j {
        l := Blocks(a, b, b2j, Before(w, x));
        BlocksAreMatch(a, b, Before(w, x));
      } else {
        NarrowShares(a, b, w.alo, x.i, w.blo, x.j);
      }
      if x.i + x.size < w.ahi && x.j + x.size < w.bhi {
        r := Blocks(a, b, b2j, After(w, x));
        BlocksAreMatch(a, b, After(w, x));
      } else {
        NarrowShares(a, b, x.i + x.size, w.ahi, x.j + x.size, w.bhi);
      }
      JoinSplits(l, x, r, a, b, w);
    }
  }

  lemma JoinSplits(l: seq<Block>, x: Block, r: seq<Block>, a: seq<char>, b: seq<char>, w: Window)
    requires InBounds(w, a, b) && IsLongest(x, a, b, w)
    requires w.alo <= x.i && x.i + x.size <= w.ahi && w.blo <= x.j && x.j + x.size <= w.bhi
    requires IsMatch(l, a, b, w.alo, x.i, w.blo, x.j)
    requires IsMatch(r, a, b, x.i + x.size, w.ahi, x.j + x.size, w.bhi)
    ensures IsMatch(l + [x] + r, a, b, w.alo, w.ahi, w.blo, w.bhi)
  {
    hide IsLongest, NothingShared;
    var bs := l + [x] + r;
    assert bs[|l|] == x && bs[..|l|] == l && bs[|l| + 1..] == r;
    assert Splits(bs, |l|, a, b, w.alo, w.ahi, w.blo, w.bhi);
  }

  /** There is only one such chain. */
  lemma {:induction false} MatchIsUnique(bs: seq<Block>, cs: seq<Block>, a: seq<char>, b: seq<char>, alo: nat, ahi: nat, blo: nat, bhi: nat)
    requires alo <= ahi <= |a| && blo <= bhi <= |b|
    requires IsMatch(bs, a, b, alo, ahi, blo, bhi) && IsMatch(cs, a, b, alo, ahi, blo, bhi)
    ensures bs == cs
    decreases |bs|
  {
    hide IsLongest, NothingShared;
    var w := Window(alo, ahi, blo, bhi);
    if bs == [] || cs == [] {
      if bs != [] {
        var k :| 0 <= k < |bs| && Splits(bs, k, a, b, alo, ahi, blo, bhi);
        LongestShares(bs[k], a, b, w);
      }
      if cs != [] {
        var k :| 0 <= k < |cs| && Splits(cs, k, a, b, alo, ahi, blo, bhi);
        LongestShares(cs[k], a, b, w);
      }
    } else {
      var k :| 0 <= k < |bs| && Splits(bs, k, a, b, alo, ahi, blo, bhi);
      var m :| 0 <= m < |cs| && Splits(cs, m, a, b, alo, ahi, blo, bhi);
      OneLongest(bs[k], cs[m], a, b, w);
      var x := bs[k];
      MatchIsUnique(bs[..k], cs[..m], a, b, alo, x.i, blo, x.j);
      MatchIsUnique(bs[k + 1..], cs[m + 1..], a, b, x.i + x.size, ahi, x.j + x.size, bhi);
      assert bs == bs[..k] + [x] + bs[k + 1..];
      assert cs == cs[..m] + [x] + cs[m + 1..];
    }
  }

  lemma LongestShares(x: Block, a: seq<char>, b: seq<char>, w: Window)
    requires InBounds(w, a, b) && IsLongest(x, a, b, w)
    ensures !NothingShared(a, b, w.alo, w.ahi, w.blo, w.bhi)
  {
    assert a[x.i] == b[x.i + x.j - x.i];
  }

  lemma OneLongest(x: Block, y: Block, a: seq<char>, b: seq<char>, w: Window)
    requires InBounds(w, a, b) && IsLongest(x, a, b, w) && IsLongest(y, a, b, w)
    ensures x == y
  {
    hide Common;
  }

  /** Below 200 elements the matched total is the sum of that chain. */
  lemma TotalIsObershelp(a: seq<char>, b: seq<char>, bs: seq<Block>)
    requires |b| < 200 && IsMatch(bs, a, b, 0, |a|, 0, |b|)
    ensures MatchingTotal(a, b) == Sum(bs) && Chain(bs, a, b, Whole(a, b))
  {
    hide IsMatch, Blocks, Total, IndexOf, Sum, Chain;
    BlocksAreMatch(a, b, Whole(a, b));
    BlocksAreAChain(a, b, IndexOf(b), Whole(a, b));
    MatchIsUnique(bs, Blocks(a, b, IndexOf(b), Whole(a, b)), a, b, 0, |a|, 0, |b|);
  }

  // ---------- The gaps ----------

  /** No element that the index keeps is in both parts. */
  predicate NoneKept(a: seq<char>, b: seq<char>, alo: nat, ahi: nat, blo: nat, bhi: nat)
    requires ahi <= |a| && bhi <= |b|
  {
    forall p, q :: alo <= p < ahi && blo <= q < bhi && a[p] == b[q] ==> !Kept(b, b[q])
  }

  /** In the gap before the first block, in every gap between neighbours and in
      the one after the last, no kept element of `a` occurs in `b`. */
  predicate GapsBare(bs: seq<Block>, a: seq<char>, b: seq<char>, alo: nat, ahi: nat, blo: nat, bhi: nat)
    requires ahi <= |a| && bhi <= |b|
    decreases |bs|
  {
    if bs == [] then NoneKept(a, b, alo, ahi, blo, bhi)
    else
      var x := bs[0];
      && alo <= x.i <= x.i + x.size <= ahi && blo <= x.j <= x.j + x.size <= bhi
      && NoneKept(a, b, alo, x.i, blo, x.j)
      && GapsBare(bs[1..], a, b, x.i + x.size, ahi, x.j + x.size, bhi)
  }

  lemma {:induction false} GapsJoin(l: seq<Block>, x: Block, r: seq<Block>, a: seq<char>, b: seq<char>, alo: nat, ahi: nat, blo: nat, bhi: nat)
    requires alo <= x.i <= x.i + x.size <= ahi <= |a| && blo <= x.j <= x.j + x.size <= bhi <= |b|
    requires GapsBare(l, a, b, alo, x.i, blo, x.j) && GapsBare(r, a, b, x.i + x.size, ahi, x.j + x.size, bhi)
    ensures GapsBare(l + [x] + r, a, b, alo, ahi, blo, bhi)
    decreases |l|
  {
    hide NoneKept;
    var all := l + [x] + r;
    if l == [] {
      assert all[1..] == r;
    } else {
      assert all[1..] == l[1..] + [x] + r;
      GapsJoin(l[1..], x, r, a, b, l[0].i + l[0].size, ahi, l[0].j + l[0].size, bhi);
    }
  }

  /** A window without a block has no kept element in both its parts. */
  lemma NoBlockNoneKept(a: seq<char>, b: seq<char>, w: Window)
    requires InBounds(w, a, b) && Longest(a, b, IndexOf(b), w).size == 0
    ensures NoneKept(a, b, w.alo, w.ahi, w.blo, w.bhi)
  {
    hide BestInRows, Kept;
    var b2j := IndexOf(b);
    var x := BestInRows(a, b, b2j, w, w.ahi);
    RowsAreFirst(a, b, b2j, w, w.ahi);
    RowsAreCommon(a, b, b2j, w, w.ahi);
    BackGrows(a, b, w, x);
    ForwardGrows(a, b, w, ExtendBack(a, b, w, x));
    forall p, q | w.alo <= p < w.ahi && w.blo <= q < w.bhi && a[p] == b[q] ensures !Kept(b, b[q]) {
      assert Run(a, b, b2j, w, p, q) == 0;
    }
  }

  lemma NarrowGap(a: seq<char>, b: seq<char>, alo: nat, ahi: nat, blo: nat, bhi: nat)
    requires ahi <= |a| && bhi <= |b| && (alo >= ahi || blo >= bhi)
    ensures GapsBare([], a, b, alo, ahi, blo, bhi)
  {}

  lemma {:induction false} BlocksLeaveNothing(a: seq<char>, b: seq<char>, w: Window)
    requires InBounds(w, a, b)
    ensures GapsBare(Blocks(a, b, IndexOf(b), w), a, b, w.alo, w.ahi, w.blo, w.bhi)
    decreases w.ahi - w.alo
  {
    hide Longest, Common, IndexOf, NoneKept, GapsBare;
    var b2j := IndexOf(b);
    var x := Longest(a, b, b2j, w);
    LongestFits(a, b, w);
    if x.size == 0 {
      NoBlockNoneKept(a, b, w);
      NoGap(a, b, w);
    } else {
      var l, r: seq<Block> := [], [];
      if w.alo < x.i && w.blo < x.j {
        l := Blocks(a, b, b2j, Before(w, x));
        BlocksLeaveNothing(a, b, Before(w, x));
      } else {
        NarrowGap(a, b, w.alo, x.i, w.blo, x.j);
      }
      if x.i + x.size < w.ahi && x.j + x.size < w.bhi {
        r := Blocks(a, b, b2j, After(w, x));
        BlocksLeaveNothing(a, b, After(w, x));
      } else {
        NarrowGap(a, b, x.i + x.size, w.ahi, x.j + x.size, w.bhi);
      }
      GapsJoin(l, x, r, a, b, w.alo, w.ahi, w.blo, w.bhi);
    }
  }

  lemma NoGap(a: seq<char>, b: seq<char>, w: Window)
    requires InBounds(w, a, b) && NoneKept(a, b, w.alo, w.ahi, w.blo, w.bhi)
    ensures GapsBare([], a, b, w.alo, w.ahi, w.blo, w.bhi)
  {}

  lemma LongestFits(a: seq<char>, b: seq<char>, w: Window)
    requires InBounds(w, a, b)
    ensures InWindow(Longest(a, b, IndexOf(b), w), w)
  {
    hide IndexOf, Longest;
    TotalUnfolds(a, b, IndexOf(b), w);
  }

  /** However long the sequences: the total is the sum of a chain of common
      blocks in whose gaps nothing that the index keeps is left to match; below
      200 elements, nothing at all, and the longest block is in the chain. */
  lemma TotalIsExhaustive(a: seq<char>, b: seq<char>) returns (bs: seq<Block>)
    ensures Chain(bs, a, b, Whole(a, b)) && Sum(bs) == MatchingTotal(a, b)
    ensures GapsBare(bs, a, b, 0, |a|, 0, |b|)
    ensures |b| < 200 ==> forall c: char :: Kept(b, c)
    ensures |b| < 200 && bs != [] ==> exists k :: 0 <= k < |bs| && IsLongest(bs[k], a, b, Window(0, |a|, 0, |b|))
    ensures |b| < 200 && bs == [] ==> NothingShared(a, b, 0, |a|, 0, |b|)
  {
    hide Blocks, Total, IndexOf, Sum, Chain, GapsBare, IsLongest, NothingShared;
    bs := Blocks(a, b, IndexOf(b), Whole(a, b));
    BlocksAreAChain(a, b, IndexOf(b), Whole(a, b));
    BlocksLeaveNothing(a, b, Whole(a, b));
    if |b| < 200 {
      BlocksAreMatch(a, b, Whole(a, b));
    }
  }

  // ---------- Popular elements ----------

  /** Where `c` stands among the first `n` elements. */
  function Places(b: seq<char>, n: nat, c: char): set<nat>
    requires n <= |b|
  {
    set k: nat | k < n && b[k] == c
  }

  lemma {:induction false} OccurrencesArePlaces(b: seq<char>, n: nat, c: char)
    requires n <= |b|
    ensures |Occurrences(b, n, c)| == |Places(b, n, c)|
  {
    hide Places;
    if n == 0 {
      NoPlace(b, c);
    } else {
      hide Occurrences;
      OccurrencesArePlaces(b, n - 1, c);
      OneMoreOccurrence(b, n, c);
      OneMorePlace(b, n, c);
    }
  }

  lemma NoPlace(b: seq<char>, c: char)
    ensures Places(b, 0, c) == {}
  {}

  lemma OneMoreOccurrence(b: seq<char>, n: nat, c: char)
    requires 0 < n <= |b|
    ensures |Occurrences(b, n, c)| == |Occurrences(b, n - 1, c)| + if b[n - 1] == c then 1 else 0
  {}

  lemma OneMorePlace(b: seq<char>, n: nat, c: char)
    requires 0 < n <= |b|
    ensures |Places(b, n, c)| == |Places(b, n - 1, c)| + if b[n - 1] == c then 1 else 0
  {
    var before := Places(b, n - 1, c);
    assert Places(b, n, c) == if b[n - 1] == c then before + {n - 1} else before;
  }

  /** An element is matched on unless the sequence has 200 or more and the
      element, once left out, still fills more than one in a hundred places. */
  lemma KeptExactly(b: seq<char>, c: char)
    ensures Kept(b, c) <==> |b| < 200 || 100 * (|Places(b, |b|, c)| - 1) <= |b|
  {
    OccurrencesArePlaces(b, |b|, c);
  }
}
