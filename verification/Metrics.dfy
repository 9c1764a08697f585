/**
 Latency histograms: fixed buckets, recorded in place, with quantiles read off
 the cumulative counts. Reals stand for the floats; one thread records.
 */
module Metrics {
  import opened Wrappers

  const U64_MAX: nat := 0xFFFF_FFFF_FFFF_FFFF

  const BUCKETS: nat := 20

  const BOUNDS_US: seq<nat> := [
    100, 500, 1000, 2000, 5000, 10000, 15000, 20000, 25000, 30000,
    35000, 40000, 45000, 50000, 55000, 60000, 100000, 250000, 500000, U64_MAX]

  type Micros = us: nat | us <= U64_MAX

  /** The upper edge of bucket `i`, and the edge below it. */
  function Upper(i: nat): (bound: nat)
    requires i < BUCKETS
    ensures i == BUCKETS - 1 ==> bound == U64_MAX
  {
    BOUNDS_US[i]
  }

  function Lower(i: nat): nat
    requires i < BUCKETS
  {
    if i == 0 then 0 else Upper(i - 1)
  }

  lemma EdgesRise(i: nat, j: nat)
    requires i < j < BUCKETS
    ensures Upper(i) < Upper(j) && Upper(i) <= Lower(j)
    decreases j - i
  {
    if i == j - 1 {
    } else {
      EdgesRise(i, j - 1);
    }
    Adjacent(j);
  }

  lemma Adjacent(j: nat)
    requires 0 < j < BUCKETS
    ensures Upper(j - 1) < Upper(j) && Lower(j) == Upper(j - 1)
  {}

  // ---------- Samples ----------

  function AtMost(samples: seq<Micros>, x: nat): (n: nat)
    ensures n <= |samples|
  {
    if samples == [] then 0
    else AtMost(samples[..|samples| - 1], x) + if samples[|samples| - 1] <= x then 1 else 0
  }

  /** How many samples lie in bucket `i`. */
  function InBucket(samples: seq<Micros>, i: nat): nat
    requires i < BUCKETS
  {
    if samples == [] then 0
    else InBucket(samples[..|samples| - 1], i) + if BucketOf(samples[|samples| - 1]) == i then 1 else 0
  }

  /** The first bucket whose bound is not exceeded. */
  function BucketOf(us: Micros): (i: nat)
    ensures i < BUCKETS && us <= Upper(i) && (i > 0 ==> Lower(i) < us)
  {
    BucketFrom(us, 0)
  }

  function BucketFrom(us: Micros, i: nat): (j: nat)
    requires i < BUCKETS && (i > 0 ==> Lower(i) < us)
    ensures i <= j < BUCKETS && us <= Upper(j) && (j > 0 ==> Lower(j) < us)
    decreases BUCKETS - i
  {
    if us <= Upper(i) || i == BUCKETS - 1 then i else BucketFrom(us, i + 1)
  }

  lemma BucketUnique(us: Micros, i: nat)
    requires i < BUCKETS && us <= Upper(i) && (i > 0 ==> Lower(i) < us)
    ensures BucketOf(us) == i
  {
    var j := BucketOf(us);
    if i < j { EdgesRise(i, j); }
    if j < i { EdgesRise(j, i); }
  }

  /** The counts up to a bucket are the samples up to its bound. */
  lemma {:induction false} Cumulate(samples: seq<Micros>, i: nat)
    requires i < BUCKETS
    ensures AtMost(samples, Upper(i)) == InBucket(samples, i) + if i == 0 then 0 else AtMost(samples, Upper(i - 1))
    decreases |samples|
  {
    hide Upper, BucketOf;
    if samples == [] {
    } else {
      var us := samples[|samples| - 1];
      Cumulate(samples[..|samples| - 1], i);
      InOne(us, i);
    }
  }

  lemma InOne(us: Micros, i: nat)
    requires i < BUCKETS
    ensures BucketOf(us) == i <==> us <= Upper(i) && (i > 0 ==> Upper(i - 1) < us)
    ensures i > 0 && us <= Upper(i - 1) ==> us <= Upper(i)
  {
    if us <= Upper(i) && (i > 0 ==> Upper(i - 1) < us) {
      BucketUnique(us, i);
    }
    if i > 0 {
      Adjacent(i);
    }
  }

  lemma {:induction false} AtMostMonotone(samples: seq<Micros>, x: nat, y: nat)
    requires x <= y
    ensures AtMost(samples, x) <= AtMost(samples, y)
    decreases |samples|
  {
    if samples == [] {
    } else {
      AtMostMonotone(samples[..|samples| - 1], x, y);
    }
  }

  lemma {:induction false} AllAtMost(samples: seq<Micros>)
    ensures AtMost(samples, U64_MAX) == |samples|
    decreases |samples|
  {
    if samples == [] {
    } else {
      AllAtMost(samples[..|samples| - 1]);
    }
  }

  /** `v` is the `k`-th smallest sample. */
  predicate Ranked(samples: seq<Micros>, k: nat, v: nat) {
    v in samples && AtMost(samples, v) >= k && (v > 0 ==> AtMost(samples, v - 1) < k)
  }

  // ---------- Quantiles ----------

  function Ceil(x: real): int { -((-x).Floor) }

  /** The rank a quantile asks for. */
  function Target(q: real, count: nat): nat
    requires count > 0
  {
    var rank := Ceil(q * count as real);
    if rank < 1 then 1 else if rank > count then count else rank
  }

  /** The bucket that rank falls into. */
  function Slot(samples: seq<Micros>, target: nat): (i: nat)
    requires 1 <= target <= |samples|
    ensures i < BUCKETS && AtMost(samples, Upper(i)) >= target
    ensures i > 0 ==> AtMost(samples, Upper(i - 1)) < target
  {
    SlotFrom(samples, target, 0)
  }

  function SlotFrom(samples: seq<Micros>, target: nat, i: nat): (j: nat)
    requires 1 <= target <= |samples| && i < BUCKETS
    requires i > 0 ==> AtMost(samples, Upper(i - 1)) < target
    ensures i <= j < BUCKETS && AtMost(samples, Upper(j)) >= target
    ensures j > 0 ==> AtMost(samples, Upper(j - 1)) < target
    decreases BUCKETS - i
  {
    if AtMost(samples, Upper(i)) >= target || i == BUCKETS - 1 then
      AllAtMost(samples);
      i
    else SlotFrom(samples, target, i + 1)
  }

  function Before(samples: seq<Micros>, i: nat): nat
    requires i < BUCKETS
  {
    if i == 0 then 0 else AtMost(samples, Upper(i - 1))
  }

  function Interpolate(lower: nat, upper: nat, before: nat, upTo: nat, target: nat): real
    requires before < target <= upTo
  {
    lower as real + (target - before) as real / (upTo - before) as real * (upper as real - lower as real)
  }

  function MinReal(x: real, y: real): real { if x < y then x else y }

  function Quantile(samples: seq<Micros>, max: nat, target: nat): real
    requires 1 <= target <= |samples|
  {
    var i := Slot(samples, target);
    MinReal(Interpolate(Lower(i), Upper(i), Before(samples, i), AtMost(samples, Upper(i)), target), max as real)
  }

  function MaxOf(samples: seq<Micros>): (m: nat)
    ensures forall k :: 0 <= k < |samples| ==> samples[k] <= m
    ensures samples != [] ==> m in samples
    ensures m <= U64_MAX
  {
    if samples == [] then 0
    else
      var m, us := MaxOf(samples[..|samples| - 1]), samples[|samples| - 1];
      if m < us then us else m
  }

  lemma FractionInUnit(part: nat, whole: nat)
    requires 0 < part <= whole
    ensures 0.0 < part as real / whole as real <= 1.0
  {
    var f := part as real / whole as real;
    assert f * whole as real == part as real;
    if f > 1.0 {
      Scales(1.0, f, whole as real);
    }
    if f <= 0.0 {
      NotPositive(f, whole as real);
    }
  }

  lemma Scales(p: real, q: real, t: real)
    requires p < q && t > 0.0
    ensures p * t < q * t
  {}

  lemma NotPositive(f: real, t: real)
    requires f <= 0.0 && t > 0.0
    ensures f * t <= 0.0
  {}

  lemma FractionRises(part: nat, more: nat, whole: nat)
    requires part <= more && 0 < whole
    ensures part as real / whole as real <= more as real / whole as real
  {
    var f, g := part as real / whole as real, more as real / whole as real;
    assert f * whole as real == part as real && g * whole as real == more as real;
    if f > g {
      Scales(g, f, whole as real);
    }
  }

  lemma Stretch(f: real, g: real, width: real)
    requires 0.0 < f <= g <= 1.0 && width > 0.0
    ensures 0.0 < f * width <= g * width <= width
  {}

  /** Interpolation stays within the bucket and rises with the rank. */
  lemma Interpolated(lower: nat, upper: nat, before: nat, upTo: nat, target: nat, later: nat)
    requires lower < upper && before < target <= later <= upTo
    ensures lower as real
            < Interpolate(lower, upper, before, upTo, target)
            <= Interpolate(lower, upper, before, upTo, later)
            <= upper as real
  {
    FractionInUnit(target - before, upTo - before);
    FractionInUnit(later - before, upTo - before);
    FractionRises(target - before, later - before, upTo - before);
    Stretch((target - before) as real / (upTo - before) as real, (later - before) as real / (upTo - before) as real,
            upper as real - lower as real);
  }

  lemma SlotEdges(samples: seq<Micros>, target: nat)
    requires 1 <= target <= |samples|
    ensures var i := Slot(samples, target);
            Lower(i) < Upper(i) && Before(samples, i) < target <= AtMost(samples, Upper(i))
  {
    var i := Slot(samples, target);
    if i > 0 {
      Adjacent(i);
    }
  }

  /** The quantile lies in the bucket of the sample it stands for, and never
      above the largest sample. */
  lemma QuantileIsNear(samples: seq<Micros>, target: nat, v: nat)
    requires 1 <= target <= |samples| && Ranked(samples, target, v)
    ensures
      var i := BucketOf(v);
      var value := Quantile(samples, MaxOf(samples), target);
      && (if i == 0 then 0.0 <= value else Lower(i) as real < value) && value <= Upper(i) as real
      && value <= MaxOf(samples) as real
  {
    var i := Slot(samples, target);
    SlotEdges(samples, target);
    Interpolated(Lower(i), Upper(i), Before(samples, i), AtMost(samples, Upper(i)), target, target);
    RankedInSlot(samples, target, v);
  }

  lemma RankedInSlot(samples: seq<Micros>, target: nat, v: nat)
    requires 1 <= target <= |samples| && Ranked(samples, target, v)
    ensures BucketOf(v) == Slot(samples, target) && v <= MaxOf(samples)
  {
    hide Upper, AtMost;
    var i := Slot(samples, target);
    if v > Upper(i) {
      AtMostMonotone(samples, Upper(i), v - 1);
      assert false;
    }
    if i > 0 && v <= Upper(i - 1) {
      AtMostMonotone(samples, v, Upper(i - 1));
      assert false;
    }
    InOne(v, i);
  }

  /** There is a sample of every rank, so the bucket is always some sample's. */
  lemma {:induction false} RankExists(samples: seq<Micros>, target: nat, x: nat) returns (v: nat)
    requires 1 <= target <= AtMost(samples, x)
    ensures v <= x && AtMost(samples, v) >= target && (v > 0 ==> AtMost(samples, v - 1) < target)
    ensures v in samples
    decreases x
  {
    if x > 0 && AtMost(samples, x - 1) >= target {
      v := RankExists(samples, target, x - 1);
    } else {
      v := x;
      if x !in samples {
        NoneAt(samples, x);
        assert false;
      }
    }
  }

  lemma {:induction false} NoneAt(samples: seq<Micros>, x: nat)
    requires x !in samples
    ensures AtMost(samples, x) == if x == 0 then 0 else AtMost(samples, x - 1)
    decreases |samples|
  {
    if samples == [] {
    } else {
      NoneAt(samples[..|samples| - 1], x);
      assert samples[|samples| - 1] in samples;
    }
  }

  lemma SlotRises(samples: seq<Micros>, target: nat, later: nat)
    requires 1 <= target <= later <= |samples|
    ensures Slot(samples, target) <= Slot(samples, later)
  {
    hide Upper, AtMost;
    var i, j := Slot(samples, target), Slot(samples, later);
    if j < i {
      if j < i - 1 {
        EdgesRise(j, i - 1);
      }
      AtMostMonotone(samples, Upper(j), Upper(i - 1));
    }
  }

  /** A higher rank has a quantile at least as high. */
  lemma QuantileRises(samples: seq<Micros>, target: nat, later: nat)
    requires 1 <= target <= later <= |samples|
    ensures Quantile(samples, MaxOf(samples), target) <= Quantile(samples, MaxOf(samples), later)
  {
    hide Upper, AtMost, Slot, Interpolate, Before;
    var i, j := Slot(samples, target), Slot(samples, later);
    SlotEdges(samples, target);
    SlotEdges(samples, later);
    if i == j {
      Interpolated(Lower(i), Upper(i), Before(samples, i), AtMost(samples, Upper(i)), target, later);
    } else {
      SlotRises(samples, target, later);
      EdgesRise(i, j);
      Interpolated(Lower(i), Upper(i), Before(samples, i), AtMost(samples, Upper(i)), target, target);
      Interpolated(Lower(j), Upper(j), Before(samples, j), AtMost(samples, Upper(j)), later, later);
    }
  }

  lemma TargetRises(p: real, q: real, count: nat)
    requires p <= q && count > 0
    ensures 1 <= Target(p, count) <= Target(q, count) <= count
  {
    ScalesWeakly(p, q, count as real);
    CeilRises(p * count as real, q * count as real);
  }

  lemma ScalesWeakly(p: real, q: real, t: real)
    requires p <= q && t > 0.0
    ensures p * t <= q * t
  {
    if p < q {
      Scales(p, q, t);
    }
  }

  lemma CeilRises(x: real, y: real)
    requires x <= y
    ensures Ceil(x) <= Ceil(y)
  {}

  /** p50, p90, p95 and p99 are in order, as any two quantiles are. */
  lemma QuantilesInOrder(samples: seq<Micros>, p: real, q: real)
    requires samples != [] && p <= q
    ensures Target(q, |samples|) <= |samples| && 1 <= Target(p, |samples|) <= |samples| && 1 <= Target(q, |samples|)
    ensures Quantile(samples, MaxOf(samples), Target(p, |samples|)) <= Quantile(samples, MaxOf(samples), Target(q, |samples|))
  {
    TargetRises(p, q, |samples|);
    QuantileRises(samples, Target(p, |samples|), Target(q, |samples|));
  }

  // ---------- The histogram ----------

  datatype Snapshot = Snapshot(count: nat, meanUs: real, maxUs: nat, p50Us: real, p90Us: real, p95Us: real, p99Us: real,
                               under35ms: nat, under60ms: nat)

  function Sum(samples: seq<Micros>): nat {
    if samples == [] then 0 else Sum(samples[..|samples| - 1]) + samples[|samples| - 1]
  }

  /** An atomic add wraps. */
  function Wrap(sum: nat): nat { sum % (U64_MAX + 1) }

  lemma OneMore(samples: seq<Micros>, us: Micros)
    ensures Sum(samples + [us]) == Sum(samples) + us
    ensures MaxOf(samples + [us]) == if MaxOf(samples) < us then us else MaxOf(samples)
    ensures forall i :: 0 <= i < BUCKETS ==>
      InBucket(samples + [us], i) == InBucket(samples, i) + if BucketOf(us) == i then 1 else 0
  {
    hide BucketOf;
    assert (samples + [us])[..|samples|] == samples;
  }

  class Histogram {
    const buckets: array<nat>
    var count: nat
    var sumUs: nat
    var maxUs: nat
    ghost var samples: seq<Micros>

    ghost predicate Valid()
      reads this, buckets
    {
      && buckets.Length == BUCKETS
      && (forall i :: 0 <= i < BUCKETS ==> buckets[i] == InBucket(samples, i))
      && count == |samples| && maxUs == MaxOf(samples)
      && sumUs == Wrap(Sum(samples))
    }

    constructor ()
      ensures Valid() && samples == [] && fresh(buckets)
    {
      buckets := new nat[BUCKETS](_ => 0);
      count, sumUs, maxUs := 0, 0, 0;
      samples := [];
    }

    method RecordUs(us: Micros)
      requires Valid()
      modifies this, buckets
      ensures Valid() && samples == old(samples) + [us]
    {
      hide BucketOf, Upper, InBucket, MaxOf, Sum, Wrap;
      var idx := FindBucket(us);
      OneMore(samples, us);
      SumWraps(Sum(samples), us);
      samples := samples + [us];
      buckets[idx] := buckets[idx] + 1;
      count := count + 1;
      sumUs := Wrap(sumUs + us);
      maxUs := if maxUs < us then us else maxUs;
    }

    method FindBucket(us: Micros) returns (idx: nat)
      ensures idx == BucketOf(us)
    {
      hide Upper;
      idx := 0;
      while idx < BUCKETS - 1 && us > Upper(idx)
        invariant idx < BUCKETS && (idx > 0 ==> Lower(idx) < us)
        decreases BUCKETS - idx
      {
        idx := idx + 1;
      }
      BucketUnique(us, idx);
    }

    method Cumulative() returns (cumulative: array<nat>)
      requires Valid()
      ensures fresh(cumulative) && cumulative.Length == BUCKETS
      ensures forall i :: 0 <= i < BUCKETS ==> cumulative[i] == AtMost(samples, Upper(i))
    {
      hide Upper, InBucket, AtMost;
      cumulative := new nat[BUCKETS](_ => 0);
      var running := 0;
      for i := 0 to BUCKETS
        invariant running == if i == 0 then 0 else AtMost(samples, Upper(i - 1))
        invariant forall k :: 0 <= k < i ==> cumulative[k] == AtMost(samples, Upper(k))
      {
        Cumulate(samples, i);
        running := running + buckets[i];
        cumulative[i] := running;
      }
    }

    method QuantileUs(q: real, cumulative: array<nat>) returns (value: real)
      requires Valid() && count > 0 && cumulative.Length == BUCKETS
      requires forall i :: 0 <= i < BUCKETS ==> cumulative[i] == AtMost(samples, Upper(i))
      ensures value == Quantile(samples, MaxOf(samples), Target(q, count))
    {
      hide Upper, AtMost, Interpolate;
      var target := Target(q, count);
      var prevBound, prevCum := 0, 0;
      var i := 0;
      while i < BUCKETS
        invariant 0 <= i <= BUCKETS
        invariant i < BUCKETS ==> prevBound == Lower(i) && prevCum == Before(samples, i)
        invariant i > 0 ==> AtMost(samples, Upper(i - 1)) < target
      {
        var cum := cumulative[i];
        if cum >= target {
          SlotIs(samples, target, i);
          var bucketCount := cum - prevCum;
          value := MinReal(Interpolate(prevBound, Upper(i), prevCum, cum, target), maxUs as real);
          return;
        }
        prevBound := Upper(i);
        prevCum := cum;
        i := i + 1;
      }
      LastIsAll(samples);
      assert false;
      value := 0.0;
    }

    /** Nothing for an untouched histogram. */
    method TakeSnapshot() returns (snapshot: Option<Snapshot>)
      requires Valid()
      ensures snapshot.None? <==> samples == []
      ensures snapshot.Some? ==>
        var s := snapshot.value;
        && s.count == |samples| && s.maxUs == MaxOf(samples)
        && s.meanUs == Wrap(Sum(samples)) as real / |samples| as real
        && s.p50Us == Quantile(samples, MaxOf(samples), Target(0.50, |samples|))
        && s.p90Us == Quantile(samples, MaxOf(samples), Target(0.90, |samples|))
        && s.p95Us == Quantile(samples, MaxOf(samples), Target(0.95, |samples|))
        && s.p99Us == Quantile(samples, MaxOf(samples), Target(0.99, |samples|))
        && s.under35ms == AtMost(samples, 35000) && s.under60ms == AtMost(samples, 60000)
    {
      hide AtMost, Quantile, Target, Sum, MaxOf, Wrap, InBucket;
      if count == 0 {
        return None;
      }
      var cumulative := Cumulative();
      var p50 := QuantileUs(0.50, cumulative);
      var p90 := QuantileUs(0.90, cumulative);
      var p95 := QuantileUs(0.95, cumulative);
      var p99 := QuantileUs(0.99, cumulative);
      assert Upper(10) == 35000 && Upper(15) == 60000;
      snapshot := Some(Snapshot(count, sumUs as real / count as real, maxUs, p50, p90, p95, p99, cumulative[10], cumulative[15]));
    }
  }

  lemma SumWraps(sum: nat, us: nat)
    ensures Wrap(Wrap(sum) + us) == Wrap(sum + us)
  {}

  lemma SlotIs(samples: seq<Micros>, target: nat, i: nat)
    requires 1 <= target <= |samples| && i < BUCKETS
    requires AtMost(samples, Upper(i)) >= target && (i > 0 ==> AtMost(samples, Upper(i - 1)) < target)
    ensures Slot(samples, target) == i
  {
    hide Upper, AtMost;
    var j := Slot(samples, target);
    if i < j {
      if i < j - 1 { EdgesRise(i, j - 1); }
      AtMostMonotone(samples, Upper(i), Upper(j - 1));
    }
    if j < i {
      if j < i - 1 { EdgesRise(j, i - 1); }
      AtMostMonotone(samples, Upper(j), Upper(i - 1));
    }
  }

  lemma LastIsAll(samples: seq<Micros>)
    ensures AtMost(samples, Upper(BUCKETS - 1)) == |samples|
  {
    AllAtMost(samples);
  }
}
