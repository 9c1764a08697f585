/**
 Ratcliff/Obershelp matching of entity names: the element index with its
 pruning of popular elements, the longest common block in a window, and the
 total of the blocks found by divide and conquer.
 */
module Matching {
  /** `a[i..i+size]` equals `b[j..j+size]`. */
  datatype Block = Block(i: nat, j: nat, size: nat)

  /** `a[alo..ahi]` against `b[blo..bhi]`. */
  datatype Window = Window(alo: nat, ahi: nat, blo: nat, bhi: nat)

  type Index = map<char, seq<nat>>

  predicate InBounds(w: Window, a: seq<char>, b: seq<char>) {
    w.alo <= w.ahi <= |a| && w.blo <= w.bhi <= |b|
  }

  // ---------- The index ----------

  /** The positions of `c` in the first `n` elements, ascending. */
  function Occurrences(b: seq<char>, n: nat, c: char): (s: seq<nat>)
    requires n <= |b|
    ensures forall t :: 0 <= t < |s| ==> s[t] < n && b[s[t]] == c
    ensures forall t, u :: 0 <= t < u < |s| ==> s[t] < s[u]
    ensures forall j :: 0 <= j < n && b[j] == c ==> j in s
  {
    if n == 0 then []
    else if b[n - 1] == c then Occurrences(b, n - 1, c) + [n - 1]
    else Occurrences(b, n - 1, c)
  }

  /** An element of a long sequence is popular when it fills more than one
      per cent of it and one more. */
  predicate Kept(b: seq<char>, c: char) {
    |b| >= 200 ==> |Occurrences(b, |b|, c)| <= |b| / 100 + 1
  }

  /** What the index must hold: every kept element with all its positions. */
  function IndexOf(b: seq<char>): Index {
    map c | c in b && Kept(b, c) :: Occurrences(b, |b|, c)
  }

  method BuildIndex(b: seq<char>) returns (b2j: Index)
    ensures b2j == IndexOf(b)
  {
    hide IndexOf;
    b2j := map[];
    for j := 0 to |b|
      invariant forall c :: c in b2j <==> c in b[..j]
      invariant forall c :: c in b2j ==> b2j[c] == Occurrences(b, j, c)
    {
      var ch := b[j];
      assert b[..j + 1] == b[..j] + [ch];
      if ch !in b2j {
        NoOccurrence(b, j, ch);
      }
      b2j := b2j[ch := (if ch in b2j then b2j[ch] else []) + [j]];
    }
    assert b[..|b|] == b;
    hide Occurrences;
    if |b| >= 200 {
      var ntest := |b| / 100 + 1;
      b2j := map c | c in b2j && |b2j[c]| <= ntest :: b2j[c];
    }
    IndexIs(b2j, b);
  }

  lemma IndexIs(b2j: Index, b: seq<char>)
    requires forall c :: c in b2j <==> c in b && Kept(b, c)
    requires forall c :: c in b2j ==> b2j[c] == Occurrences(b, |b|, c)
    ensures b2j == IndexOf(b)
  {
    hide Kept, Occurrences;
  }

  lemma NoOccurrence(b: seq<char>, n: nat, c: char)
    requires n <= |b| && c !in b[..n]
    ensures Occurrences(b, n, c) == []
  {
    if n == 0 {
    } else {
      assert b[..n][n - 1] == b[n - 1];
      assert b[..n - 1] == b[..n][..n - 1];
      NoOccurrence(b, n - 1, c);
    }
  }

  // ---------- The longest block ----------

  /** The length of the common run that ends at `a[i]`, `b[j]`, inside the
      window and over indexed elements only. */
  function Run(a: seq<char>, b: seq<char>, b2j: Index, w: Window, i: nat, j: nat): (r: nat)
    requires InBounds(w, a, b) && i < w.ahi && j < w.bhi
    ensures r > 0 ==> w.alo <= i && w.blo <= j && r <= i + 1 - w.alo && r <= j + 1 - w.blo
  {
    if w.alo <= i && w.blo <= j && a[i] == b[j] && a[i] in b2j then
      1 + (if i > 0 && j > 0 then Run(a, b, b2j, w, i - 1, j - 1) else 0)
    else 0
  }

  /** The block that ends at `i`, `j`, if it is longer than `best`. */
  function Better(best: Block, i: nat, j: nat, k: nat): Block
    requires k <= i + 1 && k <= j + 1
  {
    if k > best.size then Block(i + 1 - k, j + 1 - k, k) else best
  }

  /** The best block after row `i` up to column `to`. */
  function BestInRow(a: seq<char>, b: seq<char>, b2j: Index, w: Window, i: nat, end: nat, best: Block): Block
    requires InBounds(w, a, b) && w.alo <= i < w.ahi && w.blo <= end <= w.bhi
    decreases end
  {
    if end == w.blo then best
    else
      var before := BestInRow(a, b, b2j, w, i, end - 1, best);
      Better(before, i, end - 1, Run(a, b, b2j, w, i, end - 1))
  }

  /** The best block after all rows before `to`. */
  function BestInRows(a: seq<char>, b: seq<char>, b2j: Index, w: Window, end: nat): Block
    requires InBounds(w, a, b) && w.alo <= end <= w.ahi
    decreases end
  {
    if end == w.alo then Block(w.alo, w.blo, 0)
    else BestInRow(a, b, b2j, w, end - 1, w.bhi, BestInRows(a, b, b2j, w, end - 1))
  }

  predicate InWindow(x: Block, w: Window) {
    w.alo <= x.i && x.i + x.size <= w.ahi && w.blo <= x.j && x.j + x.size <= w.bhi
  }

  /** A block inside the window whose elements agree. */
  predicate Common(a: seq<char>, b: seq<char>, w: Window, x: Block)
    requires InBounds(w, a, b)
  {
    InWindow(x, w) && forall p :: x.i <= p < x.i + x.size ==> a[p] == b[p + x.j - x.i]
  }

  function ExtendBack(a: seq<char>, b: seq<char>, w: Window, x: Block): (r: Block)
    requires InBounds(w, a, b) && Common(a, b, w, x)
    ensures Common(a, b, w, r)
    decreases x.i
  {
    if x.i > w.alo && x.j > w.blo && a[x.i - 1] == b[x.j - 1] then
      ExtendBack(a, b, w, Block(x.i - 1, x.j - 1, x.size + 1))
    else x
  }

  function ExtendForward(a: seq<char>, b: seq<char>, w: Window, x: Block): (r: Block)
    requires InBounds(w, a, b) && Common(a, b, w, x)
    ensures Common(a, b, w, r)
    decreases w.ahi - x.i - x.size
  {
    if x.i + x.size < w.ahi && x.j + x.size < w.bhi && a[x.i + x.size] == b[x.j + x.size] then
      ExtendForward(a, b, w, Block(x.i, x.j, x.size + 1))
    else x
  }

  lemma {:induction false} RunIsCommon(a: seq<char>, b: seq<char>, b2j: Index, w: Window, i: nat, j: nat)
    requires InBounds(w, a, b) && w.alo <= i < w.ahi && w.blo <= j < w.bhi
    ensures
      var k := Run(a, b, b2j, w, i, j);
      Common(a, b, w, Block(i + 1 - k, j + 1 - k, k)) && forall p :: i - k < p <= i ==> a[p] in b2j
    decreases i
  {
    if Run(a, b, b2j, w, i, j) <= 1 {
    } else {
      RunIsCommon(a, b, b2j, w, i - 1, j - 1);
    }
  }

  lemma {:induction false} RowIsCommon(a: seq<char>, b: seq<char>, b2j: Index, w: Window, i: nat, end: nat, best: Block)
    requires InBounds(w, a, b) && w.alo <= i < w.ahi && w.blo <= end <= w.bhi && Common(a, b, w, best)
    ensures Common(a, b, w, BestInRow(a, b, b2j, w, i, end, best))
    decreases end
  {
    if end == w.blo {
    } else {
      RowIsCommon(a, b, b2j, w, i, end - 1, best);
      RunIsCommon(a, b, b2j, w, i, end - 1);
    }
  }

  lemma {:induction false} RowsAreCommon(a: seq<char>, b: seq<char>, b2j: Index, w: Window, end: nat)
    requires InBounds(w, a, b) && w.alo <= end <= w.ahi
    ensures Common(a, b, w, BestInRows(a, b, b2j, w, end))
    decreases end
  {
    if end == w.alo {
    } else {
      RowsAreCommon(a, b, b2j, w, end - 1);
      RowIsCommon(a, b, b2j, w, end - 1, w.bhi, BestInRows(a, b, b2j, w, end - 1));
    }
  }

  /** The block found over the index, grown over elements that are not in it. */
  function Longest(a: seq<char>, b: seq<char>, b2j: Index, w: Window): (x: Block)
    requires InBounds(w, a, b)
    ensures Common(a, b, w, x)
  {
    RowsAreCommon(a, b, b2j, w, w.ahi);
    ExtendForward(a, b, w, ExtendBack(a, b, w, BestInRows(a, b, b2j, w, w.ahi)))
  }

  /** Columns without the row's element leave the best block alone. */
  lemma {:induction false} SkipColumns(a: seq<char>, b: seq<char>, b2j: Index, w: Window, i: nat, from: nat, end: nat, best: Block)
    requires InBounds(w, a, b) && w.alo <= i < w.ahi && w.blo <= from <= end <= w.bhi
    requires forall j :: from <= j < end ==> b[j] != a[i] || a[i] !in b2j
    ensures BestInRow(a, b, b2j, w, i, end, best) == BestInRow(a, b, b2j, w, i, from, best)
    decreases end
  {
    if from == end {
    } else {
      SkipColumns(a, b, b2j, w, i, from, end - 1, best);
    }
  }

  /** `lens` holds the run lengths that end in row `i`. */
  ghost predicate IsRow(lens: map<nat, nat>, a: seq<char>, b: seq<char>, b2j: Index, w: Window, i: nat, end: nat)
    requires InBounds(w, a, b) && w.alo <= i < w.ahi && end <= w.bhi
  {
    && (forall j :: j in lens ==> w.blo <= j < end)
    && forall j :: w.blo <= j < end ==> Run(a, b, b2j, w, i, j) == if j in lens then lens[j] else 0
  }

  /** One row of the table: the row's run lengths and the best block so far. */
  method ScanRow(a: seq<char>, b: seq<char>, b2j: Index, w: Window, i: nat, j2len: map<nat, nat>, best0: Block)
    returns (newj2len: map<nat, nat>, best: Block)
    requires InBounds(w, a, b) && b2j == IndexOf(b) && w.alo <= i < w.ahi
    requires i == w.alo ==> j2len == map[]
    requires i > w.alo ==> IsRow(j2len, a, b, b2j, w, i - 1, w.bhi)
    ensures best == BestInRow(a, b, b2j, w, i, w.bhi, best0)
    ensures IsRow(newj2len, a, b, b2j, w, i, w.bhi)
  {
    hide Run, Occurrences, Kept, IsRow, BestInRow, ColumnsDone;
    newj2len, best := map[], best0;
    ghost var done := w.blo;
    RowStarts(a, b, b2j, w, i, best0);
    if a[i] in b2j {
      var indices := b2j[a[i]];
      var t := 0;
      ColumnsStart(indices, w.blo);
      while t < |indices| && indices[t] < w.bhi
        invariant 0 <= t <= |indices|
        invariant w.blo <= done == ColumnsDone(indices, t, w.blo) <= w.bhi
        invariant best == BestInRow(a, b, b2j, w, i, done, best0)
        invariant IsRow(newj2len, a, b, b2j, w, i, done)
      {
        var j := indices[t];
        ColumnsNext(b, indices, t, w.blo, a[i]);
        if j >= w.blo {
          ColumnStep(a, b, b2j, w, i, indices, t, done, j2len, newj2len, best0);
          var k := (if j > 0 && j - 1 in j2len then j2len[j - 1] else 0) + 1;
          newj2len := newj2len[j := k];
          if k > best.size {
            best := Block(i + 1 - k, j + 1 - k, k);
          }
          done := j + 1;
        }
        t := t + 1;
      }
      Gap(b, indices, t, done, w.bhi, w.blo, a[i]);
    }
    SkipColumns(a, b, b2j, w, i, done, w.bhi, best0);
    RowEnds(newj2len, a, b, b2j, w, i, done);
  }

  lemma ColumnsStart(indices: seq<nat>, blo: nat)
    ensures ColumnsDone(indices, 0, blo) == blo
  {}

  lemma ColumnsNext(b: seq<char>, indices: seq<nat>, t: nat, blo: nat, c: char)
    requires indices == Occurrences(b, |b|, c) && t < |indices|
    ensures indices[t] >= blo ==> ColumnsDone(indices, t + 1, blo) == indices[t] + 1
    ensures indices[t] < blo ==> ColumnsDone(indices, t + 1, blo) == ColumnsDone(indices, t, blo)
  {}

  /** What one indexed position adds to the row. */
  lemma ColumnStep(a: seq<char>, b: seq<char>, b2j: Index, w: Window, i: nat, indices: seq<nat>, t: nat, done: nat,
                   j2len: map<nat, nat>, lens: map<nat, nat>, best0: Block)
    requires InBounds(w, a, b) && w.alo <= i < w.ahi && a[i] in b2j
    requires i == w.alo ==> j2len == map[]
    requires i > w.alo ==> IsRow(j2len, a, b, b2j, w, i - 1, w.bhi)
    requires indices == Occurrences(b, |b|, a[i]) && t < |indices| && w.blo <= indices[t] < w.bhi
    requires done == ColumnsDone(indices, t, w.blo) && done <= w.bhi && IsRow(lens, a, b, b2j, w, i, done)
    ensures
      var j := indices[t];
      var k := (if j > 0 && j - 1 in j2len then j2len[j - 1] else 0) + 1;
      && k <= i + 1 && k <= j + 1
      && IsRow(lens[j := k], a, b, b2j, w, i, j + 1)
      && BestInRow(a, b, b2j, w, i, j + 1, best0) == Better(BestInRow(a, b, b2j, w, i, done, best0), i, j, k)
  {
    hide Run, Kept, IsRow, BestInRow, Occurrences;
    var j := indices[t];
    var k := (if j > 0 && j - 1 in j2len then j2len[j - 1] else 0) + 1;
    Gap(b, indices, t, done, j, w.blo, a[i]);
    SkipColumns(a, b, b2j, w, i, done, j, best0);
    RunFromRow(a, b, b2j, w, i, j, j2len);
    RowGrows(lens, a, b, b2j, w, i, done, j, k);
    RowStep(a, b, b2j, w, i, j, best0);
  }

  lemma RowStarts(a: seq<char>, b: seq<char>, b2j: Index, w: Window, i: nat, best: Block)
    requires InBounds(w, a, b) && w.alo <= i < w.ahi
    ensures BestInRow(a, b, b2j, w, i, w.blo, best) == best
    ensures IsRow(map[], a, b, b2j, w, i, w.blo)
  {}

  lemma RowStep(a: seq<char>, b: seq<char>, b2j: Index, w: Window, i: nat, j: nat, best: Block)
    requires InBounds(w, a, b) && w.alo <= i < w.ahi && w.blo <= j < w.bhi
    ensures
      BestInRow(a, b, b2j, w, i, j + 1, best) ==
      Better(BestInRow(a, b, b2j, w, i, j, best), i, j, Run(a, b, b2j, w, i, j))
  {}

  /** The first column not yet looked at, after `t` positions. */
  function ColumnsDone(indices: seq<nat>, t: nat, blo: nat): nat
    requires t <= |indices|
  {
    if t == 0 || indices[t - 1] < blo then blo else indices[t - 1] + 1
  }

  /** Between two positions of the index the element does not occur. */
  lemma Gap(b: seq<char>, indices: seq<nat>, t: nat, done: nat, end: nat, blo: nat, c: char)
    requires indices == Occurrences(b, |b|, c) && t <= |indices| && done == ColumnsDone(indices, t, blo)
    requires end <= |b| && (t < |indices| ==> end <= indices[t])
    ensures forall m :: done <= m < end ==> b[m] != c
  {
    hide Occurrences;
    forall m | done <= m < end ensures b[m] != c {
      if b[m] == c {
        var u :| 0 <= u < |indices| && indices[u] == m;
      }
    }
  }

  method LongestMatch(a: seq<char>, b: seq<char>, b2j: Index, w: Window) returns (x: Block)
    requires InBounds(w, a, b) && b2j == IndexOf(b)
    ensures x == Longest(a, b, b2j, w)
  {
    hide Run, BestInRow, IsRow, Common;
    x := Block(w.alo, w.blo, 0);
    var j2len: map<nat, nat> := map[];
    for i := w.alo to w.ahi
      invariant x == BestInRows(a, b, b2j, w, i)
      invariant i == w.alo ==> j2len == map[]
      invariant i > w.alo ==> IsRow(j2len, a, b, b2j, w, i - 1, w.bhi)
    {
      j2len, x := ScanRow(a, b, b2j, w, i, j2len, x);
    }
    RowsAreCommon(a, b, b2j, w, w.ahi);
    x := Extend(a, b, w, x);
  }

  /** The loops that grow a block over elements the index cannot anchor. */
  method Extend(a: seq<char>, b: seq<char>, w: Window, x0: Block) returns (x: Block)
    requires InBounds(w, a, b) && Common(a, b, w, x0)
    ensures x == ExtendForward(a, b, w, ExtendBack(a, b, w, x0))
  {
    x := x0;
    while x.i > w.alo && x.j > w.blo && a[x.i - 1] == b[x.j - 1]
      invariant Common(a, b, w, x) && ExtendBack(a, b, w, x0) == ExtendBack(a, b, w, x)
      decreases x.i
    {
      x := Block(x.i - 1, x.j - 1, x.size + 1);
    }
    x := ExtendTail(a, b, w, x);
  }

  method ExtendTail(a: seq<char>, b: seq<char>, w: Window, x0: Block) returns (x: Block)
    requires InBounds(w, a, b) && Common(a, b, w, x0)
    ensures x == ExtendForward(a, b, w, x0)
  {
    x := x0;
    while x.i + x.size < w.ahi && x.j + x.size < w.bhi && a[x.i + x.size] == b[x.j + x.size]
      invariant Common(a, b, w, x) && ExtendForward(a, b, w, x0) == ExtendForward(a, b, w, x)
      decreases w.ahi - x.i - x.size
    {
      x := Block(x.i, x.j, x.size + 1);
    }
  }

  lemma RunFromRow(a: seq<char>, b: seq<char>, b2j: Index, w: Window, i: nat, j: nat, j2len: map<nat, nat>)
    requires InBounds(w, a, b) && w.alo <= i < w.ahi && w.blo <= j < w.bhi && a[i] == b[j] && a[i] in b2j
    requires i == w.alo ==> j2len == map[]
    requires i > w.alo ==> IsRow(j2len, a, b, b2j, w, i - 1, w.bhi)
    ensures Run(a, b, b2j, w, i, j) <= i + 1 && Run(a, b, b2j, w, i, j) <= j + 1
    ensures Run(a, b, b2j, w, i, j) == (if j > 0 && j - 1 in j2len then j2len[j - 1] else 0) + 1
  {}

  lemma RowGrows(lens: map<nat, nat>, a: seq<char>, b: seq<char>, b2j: Index, w: Window, i: nat, done: nat, j: nat, k: nat)
    requires InBounds(w, a, b) && w.alo <= i < w.ahi && done <= j < w.bhi && w.blo <= j && k == Run(a, b, b2j, w, i, j)
    requires IsRow(lens, a, b, b2j, w, i, done)
    requires forall m :: done <= m < j ==> b[m] != a[i]
    ensures IsRow(lens[j := k], a, b, b2j, w, i, j + 1)
  {}

  lemma RowEnds(lens: map<nat, nat>, a: seq<char>, b: seq<char>, b2j: Index, w: Window, i: nat, done: nat)
    requires InBounds(w, a, b) && w.alo <= i < w.ahi && done <= w.bhi
    requires IsRow(lens, a, b, b2j, w, i, done)
    requires forall m :: done <= m < w.bhi ==> b[m] != a[i] || a[i] !in b2j
    ensures IsRow(lens, a, b, b2j, w, i, w.bhi)
  {}

  // ---------- The total ----------

  /** The size of the best block, and of what is found on either side of it. */
  function Total(a: seq<char>, b: seq<char>, b2j: Index, w: Window): nat
    requires InBounds(w, a, b)
    decreases w.ahi - w.alo
  {
    var x := Longest(a, b, b2j, w);
    if x.size == 0 then 0
    else
      x.size
      + (if w.alo < x.i && w.blo < x.j then Total(a, b, b2j, Before(w, x)) else 0)
      + (if x.i + x.size < w.ahi && x.j + x.size < w.bhi then Total(a, b, b2j, After(w, x)) else 0)
  }

  function Before(w: Window, x: Block): Window { Window(w.alo, x.i, w.blo, x.j) }

  function After(w: Window, x: Block): Window { Window(x.i + x.size, w.ahi, x.j + x.size, w.bhi) }

  function Whole(a: seq<char>, b: seq<char>): Window { Window(0, |a|, 0, |b|) }

  function MatchingTotal(a: seq<char>, b: seq<char>): nat {
    Total(a, b, IndexOf(b), Whole(a, b))
  }

  predicate AllInBounds(queue: seq<Window>, a: seq<char>, b: seq<char>) {
    forall q :: 0 <= q < |queue| ==> InBounds(queue[q], a, b)
  }

  /** What the windows still on the stack will add. */
  function Owed(a: seq<char>, b: seq<char>, b2j: Index, queue: seq<Window>): nat
    requires AllInBounds(queue, a, b)
  {
    if queue == [] then 0
    else Owed(a, b, b2j, queue[..|queue| - 1]) + Total(a, b, b2j, queue[|queue| - 1])
  }

  /** The width of the windows on the stack: every block found shrinks it. */
  function Width(queue: seq<Window>): nat {
    if queue == [] then 0
    else
      var w := queue[|queue| - 1];
      Width(queue[..|queue| - 1]) + if w.alo <= w.ahi then w.ahi - w.alo else 0
  }

  lemma Push(a: seq<char>, b: seq<char>, b2j: Index, queue: seq<Window>, w: Window)
    requires AllInBounds(queue, a, b) && InBounds(w, a, b)
    ensures AllInBounds(queue + [w], a, b)
    ensures Owed(a, b, b2j, queue + [w]) == Owed(a, b, b2j, queue) + Total(a, b, b2j, w)
    ensures Width(queue + [w]) == Width(queue) + w.ahi - w.alo
  {
    assert (queue + [w])[..|queue|] == queue;
  }

  method MatchingSize(a: seq<char>, b: seq<char>) returns (total: nat)
    ensures total == MatchingTotal(a, b)
  {
    hide Longest, IndexOf, Owed, Width, Total;
    var b2j := BuildIndex(b);
    var queue := [Whole(a, b)];
    Push(a, b, b2j, [], Whole(a, b));
    NothingOwed(a, b, b2j);
    assert [] + [Whole(a, b)] == [Whole(a, b)];
    total := 0;
    while queue != []
      invariant AllInBounds(queue, a, b)
      invariant total + Owed(a, b, b2j, queue) == Total(a, b, b2j, Whole(a, b))
      decreases Width(queue), |queue|
    {
      var w := queue[|queue| - 1];
      ghost var rest := queue[..|queue| - 1];
      assert queue == rest + [w];
      Push(a, b, b2j, rest, w);
      queue := queue[..|queue| - 1];
      var x := LongestMatch(a, b, b2j, w);
      TotalUnfolds(a, b, b2j, w);
      if x.size != 0 {
        total := total + x.size;
        if w.alo < x.i && w.blo < x.j {
          Push(a, b, b2j, queue, Before(w, x));
          queue := queue + [Before(w, x)];
        }
        if x.i + x.size < w.ahi && x.j + x.size < w.bhi {
          Push(a, b, b2j, queue, After(w, x));
          queue := queue + [After(w, x)];
        }
      }
    }
  }

  lemma NothingOwed(a: seq<char>, b: seq<char>, b2j: Index)
    ensures Owed(a, b, b2j, []) == 0 && Width([]) == 0
  {}

  lemma TotalUnfolds(a: seq<char>, b: seq<char>, b2j: Index, w: Window)
    requires InBounds(w, a, b)
    ensures
      var x := Longest(a, b, b2j, w);
      && InWindow(x, w)
      && Total(a, b, b2j, w) ==
         if x.size == 0 then 0
         else
           x.size
           + (if w.alo < x.i && w.blo < x.j then Total(a, b, b2j, Before(w, x)) else 0)
           + (if x.i + x.size < w.ahi && x.j + x.size < w.bhi then Total(a, b, b2j, After(w, x)) else 0)
  {
    hide Longest;
  }
}
