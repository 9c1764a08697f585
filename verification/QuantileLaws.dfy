/** What the figures of a latency snapshot mean, by counting samples. */
module QuantileLaws {
  import opened Metrics

  /** The samples up to `x`, by position. */
  function UpTo(samples: seq<Micros>, x: nat): set<nat> {
    set k: nat | k < |samples| && samples[k] <= x
  }

  lemma {:induction false} AtMostCounts(samples: seq<Micros>, x: nat)
    ensures AtMost(samples, x) == |UpTo(samples, x)|
    decreases |samples|
  {
    if samples == [] {
    } else {
      var n := |samples| - 1;
      AtMostCounts(samples[..n], x);
      var was := UpTo(samples[..n], x);
      assert UpTo(samples, x) == if samples[n] <= x then was + {n} else was;
    }
  }

  /** The edges: 0.1, 0.5, 1 and 2 ms, every 5 ms from 5 to 60, 100, 250 and
      500 ms, and then no more. */
  lemma Edges(k: nat)
    requires 1 <= k <= 12
    ensures BUCKETS == 20 && Lower(0) == 0 && Upper(0) == 100 && Upper(1) == 500 && Upper(2) == 1000 && Upper(3) == 2000
    ensures Upper(3 + k) == 5000 * k
    ensures Upper(16) == 100_000 && Upper(17) == 250_000 && Upper(18) == 500_000 && Upper(19) == 0xFFFF_FFFF_FFFF_FFFF
  {}

  /** The rank of a quantile is the first one of the samples that reaches the
      fraction, the last one at the latest. */
  lemma NearestRank(q: real, n: nat, r: nat)
    requires 1 <= r <= n
    ensures 1 <= Target(q, n) <= n
    ensures q * n as real <= r as real ==> Target(q, n) <= r
    ensures r < Target(q, n) ==> (r as real) < q * n as real
    ensures q <= 1.0 ==> q * n as real <= Target(q, n) as real
  {
    if q <= 1.0 {
      ScalesWeakly(q, 1.0, n as real);
    }
  }

  /** How many samples lie below bucket `i`. */
  function Below(samples: seq<Micros>, i: nat): nat
    requires i < BUCKETS
  {
    if i == 0 then 0 else |UpTo(samples, Upper(i - 1))|
  }

  lemma BelowIsBefore(samples: seq<Micros>, i: nat)
    requires i < BUCKETS
    ensures Below(samples, i) == Before(samples, i)
  {
    hide Upper, UpTo, AtMost;
    if i > 0 {
      AtMostCounts(samples, Upper(i - 1));
    }
  }

  lemma Placed(samples: seq<Micros>, i: nat, rank: nat)
    requires i < BUCKETS && Before(samples, i) < rank <= AtMost(samples, Upper(i))
    ensures rank <= |samples| && Slot(samples, rank) == i
  {
    hide Upper, AtMost, Slot;
    SlotIs(samples, rank, i);
  }

  /** Linear interpolation: in a bucket that holds `c` samples, the `j`-th of
      them stands `j` of `c` equal steps above the lower edge, and the last one
      at the upper edge; no figure exceeds the largest sample. */
  lemma QuantileIsLinear(samples: seq<Micros>, i: nat, j: nat, c: int) returns (x: real)
    requires i < BUCKETS && c == |UpTo(samples, Upper(i))| - Below(samples, i) && 1 <= j <= c
    ensures Below(samples, i) + j <= |samples|
    ensures (x - Lower(i) as real) * c as real == j as real * (Upper(i) as real - Lower(i) as real)
    ensures j == c ==> x == Upper(i) as real
    ensures Quantile(samples, MaxOf(samples), Below(samples, i) + j) == if x < MaxOf(samples) as real then x else MaxOf(samples) as real
  {
    hide Upper, Lower, MaxOf, UpTo, AtMost, Slot, Interpolate, Below, Before;
    AtMostCounts(samples, Upper(i));
    BelowIsBefore(samples, i);
    var before, upTo := Before(samples, i), AtMost(samples, Upper(i));
    Placed(samples, i, before + j);
    x := Interpolate(Lower(i), Upper(i), before, upTo, before + j);
    Steps(Lower(i), Upper(i), before, upTo, before + j);
  }

  lemma Steps(lower: nat, upper: nat, before: nat, upTo: nat, target: nat)
    requires before < target <= upTo
    ensures
      var x := Interpolate(lower, upper, before, upTo, target);
      && (x - lower as real) * (upTo - before) as real == (target - before) as real * (upper as real - lower as real)
      && (target == upTo ==> x == upper as real)
  {
    var c, j, width := (upTo - before) as real, (target - before) as real, upper as real - lower as real;
    Share(j, c, width);
  }

  lemma Share(j: real, c: real, width: real)
    requires c > 0.0
    ensures j / c * width * c == j * width
    ensures j == c ==> j / c == 1.0
  {
    assert j / c * c == j;
    assert j / c * width * c == j / c * c * width;
  }

  /** The sum that the mean divides. */
  lemma {:induction false} SumAdds(a: seq<Micros>, b: seq<Micros>, us: Micros)
    ensures Sum(a + b) == Sum(a) + Sum(b) && Sum([us]) == us
    decreases |b|
  {
    assert [us][..0] == [];
    if b == [] {
      assert a + b == a;
    } else {
      assert (a + b)[..|a + b| - 1] == a + b[..|b| - 1];
      SumAdds(a, b[..|b| - 1], us);
    }
  }

  /** The mean is the plain one while the sum is below 2^64. */
  lemma NoWrap(sum: nat)
    ensures Wrap(sum) == sum <==> sum < 0x1_0000_0000_0000_0000
    ensures exists k: nat :: sum == k * 0x1_0000_0000_0000_0000 + Wrap(sum)
  {
    var k := sum / 0x1_0000_0000_0000_0000;
    assert sum == k * 0x1_0000_0000_0000_0000 + Wrap(sum);
  }
}
