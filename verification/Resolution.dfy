/**
 Entity resolution: which known entity a mention of a fact adopts. Scores are
 reals. Case folding with trimming (`normalize`) and the numeric class of a
 character (`numeric`) are parameters.
 */
module Resolution {
  import opened Common
  import opened Wrappers
  import Matching
  import MatchLaws

  const RESOLUTION_THRESHOLD := 0.6
  const TEMPORAL_WINDOW_DAYS := 7.0
  const MS_PER_DAY := 86400000.0
  const NAME_FLOOR := 0.5

  datatype Candidate = Candidate(id: int, canonicalName: string, lastSeen: Option<int>)

  datatype Context = Context(candidates: seq<Candidate>, cooccurring: map<int, set<string>>)

  // ---------- Similarity ----------

  function Ratio(a: string, b: string): real {
    if |a| + |b| == 0 then 1.0
    else 2.0 * Matching.MatchingTotal(a, b) as real / (|a| + |b|) as real
  }

  /** The ratio two names of these lengths cannot exceed. */
  function Ceiling(m: nat, n: nat): real
    requires m + n > 0
  {
    2.0 * Min(m, n) as real / (m + n) as real
  }

  lemma TimesMonotone(p: real, q: real, t: real)
    requires p <= q && t > 0.0
    ensures p * t <= q * t
  {}

  /** Comparing a fraction with `q` is comparing its parts. */
  lemma Fraction(x: real, t: real, q: real)
    requires t > 0.0
    ensures x / t <= q <==> x <= q * t
    ensures x / t >= q <==> x >= q * t
  {
    var p := x / t;
    assert p * t == x;
    if p <= q { TimesMonotone(p, q, t); }
    if q <= p { TimesMonotone(q, p, t); }
    if p < q { assert (q - p) * t > 0.0; }
    if q < p { assert (p - q) * t > 0.0; }
  }

  lemma FractionGrows(x: real, y: real, t: real)
    requires t > 0.0 && x <= y
    ensures x / t <= y / t
  {
    Fraction(x, t, y / t);
    assert y / t * t == y;
  }

  /** Twice a matched total over both lengths, against the ceiling and one. */
  lemma MatchedFraction(m: nat, least: nat, total: nat)
    requires total > 0 && m <= least && 2 * least <= total
    ensures 0.0 <= 2.0 * m as real / total as real <= 2.0 * least as real / total as real <= 1.0
    ensures 2.0 * m as real / total as real == 1.0 <==> 2 * m == total
  {
    var t := total as real;
    FractionGrows(2.0 * m as real, 2.0 * least as real, t);
    Fraction(2.0 * m as real, t, 0.0);
    Fraction(2.0 * least as real, t, 1.0);
    Fraction(2.0 * m as real, t, 1.0);
  }

  /** The ratio lies between zero and the length ceiling, which is at most
      one, and it is one exactly for equal names, however long. */
  lemma RatioBounds(a: string, b: string)
    ensures 0.0 <= Ratio(a, b) <= 1.0
    ensures Ratio(a, b) == 1.0 <==> a == b
    ensures |a| + |b| > 0 ==> Ratio(a, b) <= Ceiling(|a|, |b|) <= 1.0
  {
    hide Matching.MatchingTotal;
    MatchLaws.TotalBounds(a, b);
    var m := Matching.MatchingTotal(a, b);
    if |a| + |b| > 0 {
      MatchedFraction(m, Min(|a|, |b|), |a| + |b|);
    }
  }

  // ---------- Digits ----------

  const FULLWIDTH_ZERO := 0xFF10

  /** Fullwidth digits read as ASCII ones; everything else is left alone. */
  function Fold(c: char): char {
    var v := c as int;
    if FULLWIDTH_ZERO <= v <= FULLWIDTH_ZERO + 9 then ('0' as int + (v - FULLWIDTH_ZERO)) as char else c
  }

  /** The numeric run that `s` starts with. */
  function Lead(s: string, numeric: char -> bool): (n: nat)
    ensures n <= |s|
    ensures forall k :: 0 <= k < n ==> numeric(s[k])
    ensures n < |s| ==> !numeric(s[n])
  {
    if s == [] || !numeric(s[0]) then 0 else 1 + Lead(s[1..], numeric)
  }

  function FoldAll(s: string): (r: string)
    ensures |r| == |s| && forall k :: 0 <= k < |s| ==> r[k] == Fold(s[k])
  {
    if s == [] then [] else [Fold(s[0])] + FoldAll(s[1..])
  }

  /** The maximal numeric runs of `s`, left to right, each folded. */
  function Runs(s: string, numeric: char -> bool): seq<string>
    decreases |s|
  {
    if s == [] then []
    else if !numeric(s[0]) then Runs(s[1..], numeric)
    else
      var n := Lead(s, numeric);
      [FoldAll(s[..n])] + Runs(s[n..], numeric)
  }

  function Flush(open: string): seq<string> {
    if open == [] then [] else [open]
  }

  /** What the scan will still put out, with `open` the run under way. */
  function ScanFrom(open: string, s: string, numeric: char -> bool): seq<string>
    decreases |s|
  {
    if s == [] then Flush(open)
    else if numeric(s[0]) then ScanFrom(open + [Fold(s[0])], s[1..], numeric)
    else Flush(open) + ScanFrom([], s[1..], numeric)
  }

  lemma {:induction false} ScanTakesLead(open: string, s: string, numeric: char -> bool)
    ensures
      var n := Lead(s, numeric);
      ScanFrom(open, s, numeric) == Flush(open + FoldAll(s[..n])) + ScanFrom([], s[n..], numeric)
    decreases |s|
  {
    var n := Lead(s, numeric);
    if n == 0 {
      assert s[..n] == [] && s[n..] == s && open + [] == open;
    } else {
      ScanTakesLead(open + [Fold(s[0])], s[1..], numeric);
      assert s[..n][1..] == s[1..][..n - 1] && s[1..][n - 1..] == s[n..];
      assert open + [Fold(s[0])] + FoldAll(s[1..][..n - 1]) == open + FoldAll(s[..n]);
    }
  }

  lemma {:induction false} ScanFindsRuns(s: string, numeric: char -> bool)
    ensures ScanFrom([], s, numeric) == Runs(s, numeric)
    decreases |s|
  {
    if s == [] {
    } else {
      var n := Lead(s, numeric);
      if n == 0 {
        ScanFindsRuns(s[1..], numeric);
      } else {
        ScanTakesLead([], s, numeric);
        ScanFindsRuns(s[n..], numeric);
        assert [] + FoldAll(s[..n]) == FoldAll(s[..n]);
      }
    }
  }

  method RunsOf(s: string, numeric: char -> bool) returns (out: seq<string>)
    ensures out == Runs(s, numeric)
  {
    out := [];
    var cur := [];
    for i := 0 to |s|
      invariant out + ScanFrom(cur, s[i..], numeric) == ScanFrom([], s, numeric)
    {
      assert s[i..][1..] == s[i + 1..];
      var c := s[i];
      if numeric(c) {
        cur := cur + [Fold(c)];
      } else if cur != [] {
        out := out + [cur];
        cur := [];
      }
    }
    if cur != [] {
      out := out + [cur];
    }
    ScanFindsRuns(s, numeric);
  }

  /** A number written in fullwidth digits is the same number: folding the
      whole name first finds the same runs. */
  lemma {:induction false} RunsIgnoreWidth(s: string, numeric: char -> bool)
    requires forall c :: numeric(Fold(c)) == numeric(c)
    ensures Lead(FoldAll(s), numeric) == Lead(s, numeric)
    ensures Runs(FoldAll(s), numeric) == Runs(s, numeric)
    decreases |s|
  {
    if s == [] {
    } else {
      var n := Lead(s, numeric);
      RunsIgnoreWidth(s[1..], numeric);
      assert FoldAll(s)[1..] == FoldAll(s[1..]);
      if n > 0 {
        RunsIgnoreWidth(s[n..], numeric);
        assert FoldAll(s)[n..] == FoldAll(s[n..]);
        assert FoldAll(FoldAll(s)[..n]) == FoldAll(s[..n]);
      }
    }
  }

  // ---------- The score ----------

  function MaxReal(x: real, y: real): real { if x < y then y else x }

  function ResolutionScore(nameRatio: real, overlap: nat, nearbyTotal: nat, daysDiff: Option<real>): real {
    nameRatio * 0.5
    + (if nearbyTotal > 0 then overlap as real / nearbyTotal as real * 0.3 else 0.0)
    + match daysDiff
      case Some(days) =>
        if days < TEMPORAL_WINDOW_DAYS then MaxReal(1.0 - days / TEMPORAL_WINDOW_DAYS, 0.0) * 0.2 else 0.0
      case None => 0.0
  }

  /** Circumstance adds at most one half, whatever it is. */
  lemma ScoreBound(nameRatio: real, overlap: nat, nearbyTotal: nat, daysDiff: Option<real>)
    requires overlap <= nearbyTotal
    requires daysDiff.Some? ==> daysDiff.value >= 0.0
    ensures 0.5 * nameRatio <= ResolutionScore(nameRatio, overlap, nearbyTotal, daysDiff) <= 0.5 * nameRatio + 0.5
  {
    if nearbyTotal > 0 {
      Fraction(overlap as real, nearbyTotal as real, 1.0);
      Fraction(overlap as real, nearbyTotal as real, 0.0);
    }
  }

  /** The length prefilter. */
  predicate CanClearThreshold(m: nat, n: nat) {
    m + n == 0
    || (Ceiling(m, n) >= NAME_FLOOR && ResolutionScore(Ceiling(m, n), 1, 1, Some(0.0)) > RESOLUTION_THRESHOLD)
  }

  /** The prefilter turns away only names whose ratio is below the floor. */
  lemma PrefilterIsSafe(a: string, b: string)
    requires !CanClearThreshold(|a|, |b|)
    ensures Ratio(a, b) < NAME_FLOOR
  {
    hide Ratio;
    RatioBounds(a, b);
  }

  /** It lets through exactly the pairs of which neither name is more than
      three times as long as the other: the floor binds, never the threshold. */
  lemma PrefilterIsTheFloor(m: nat, n: nat)
    ensures CanClearThreshold(m, n) <==> m <= 3 * n && n <= 3 * m
  {
    if m + n > 0 {
      Fraction(2.0 * Min(m, n) as real, (m + n) as real, NAME_FLOOR);
      FullCircumstance(Ceiling(m, n));
    }
  }

  lemma FullCircumstance(q: real)
    ensures ResolutionScore(q, 1, 1, Some(0.0)) == 0.5 * q + 0.5
  {
    assert 1.0 / 1.0 == 1.0 && 0.0 / TEMPORAL_WINDOW_DAYS == 0.0;
  }

  // ---------- One mention ----------

  function Overlap(ctx: Context, c: Candidate, nearby: set<string>): nat {
    if c.id in ctx.cooccurring then |nearby * ctx.cooccurring[c.id]| else 0
  }

  function Abs(x: int): nat { if x < 0 then -x else x }

  function DaysDiff(c: Candidate, eventDate: Option<int>): Option<real> {
    if c.lastSeen.Some? && eventDate.Some? then
      Some(Abs(eventDate.value - c.lastSeen.value) as real / MS_PER_DAY)
    else None
  }

  /** What a mention is judged by: its name, the names beside it, its date
      and the bank. */
  datatype Query = Query(mention: string, nearby: set<string>, eventDate: Option<int>, ctx: Context, numeric: char -> bool)
  {
    function Score(c: Candidate): real {
      ResolutionScore(Ratio(mention, c.canonicalName), Overlap(ctx, c, nearby), |nearby|, DaysDiff(c, eventDate))
    }

    /** The two gates no circumstance can talk its way past. */
    predicate Eligible(c: Candidate) {
      && Runs(mention, numeric) == Runs(c.canonicalName, numeric)
      && Ratio(mention, c.canonicalName) >= NAME_FLOOR
    }

    predicate Wins(c: Candidate) { Eligible(c) && Score(c) > RESOLUTION_THRESHOLD }

    predicate Exact(n: nat)
      requires n <= |ctx.candidates|
    {
      exists k :: 0 <= k < n && ctx.candidates[k].canonicalName == mention
    }

    /** Candidate `k` is the first of the highest score among the eligible. */
    predicate Best(n: nat, k: nat)
      requires k < n <= |ctx.candidates|
    {
      && Eligible(ctx.candidates[k])
      && (forall m :: 0 <= m < n && Eligible(ctx.candidates[m]) ==> Score(ctx.candidates[m]) <= Score(ctx.candidates[k]))
      && (forall m :: 0 <= m < k && Eligible(ctx.candidates[m]) ==> Score(ctx.candidates[m]) < Score(ctx.candidates[k]))
    }

    /** The answer, said without a scan order, an early exit or a prefilter:
        an exact name is the entity; else the first best eligible candidate
        above the threshold; else the mention names a new entity. */
    predicate Answer(name: string) {
      if Exact(|ctx.candidates|) then name == mention
      else if exists k :: 0 <= k < |ctx.candidates| && Wins(ctx.candidates[k]) then
        exists k :: 0 <= k < |ctx.candidates| && Best(|ctx.candidates|, k) && Wins(ctx.candidates[k])
                    && name == ctx.candidates[k].canonicalName
      else name == mention
    }
  }

  lemma OverlapBounded(ctx: Context, c: Candidate, nearby: set<string>)
    ensures Overlap(ctx, c, nearby) <= |nearby|
  {
    if c.id in ctx.cooccurring {
      SubsetSize(nearby * ctx.cooccurring[c.id], nearby);
    }
  }

  /** An eligible candidate always scores above zero. */
  lemma EligibleScoresPositive(q: Query, c: Candidate)
    requires q.Eligible(c)
    ensures q.Score(c) > 0.0
  {
    hide Ratio, Runs, ResolutionScore;
    OverlapBounded(q.ctx, c, q.nearby);
    ScoreBound(Ratio(q.mention, c.canonicalName), Overlap(q.ctx, c, q.nearby), |q.nearby|, DaysDiff(c, q.eventDate));
  }

  /** There is exactly one answer. */
  lemma AnswerIsUnique(q: Query, x: string, y: string)
    requires q.Answer(x) && q.Answer(y)
    ensures x == y
  {
    hide Ratio, Runs, ResolutionScore;
  }

  /** Whatever the bank holds, an adopted name is the mention itself or has
      the mention's digit runs, at least half its characters and a score
      above the threshold; and a known name is never given away. */
  lemma AdoptedIsEarned(q: Query, name: string)
    requires q.Answer(name)
    ensures name == q.mention
            || exists k :: 0 <= k < |q.ctx.candidates| && q.ctx.candidates[k].canonicalName == name && q.Wins(q.ctx.candidates[k])
    ensures q.Exact(|q.ctx.candidates|) ==> name == q.mention
    ensures Runs(name, q.numeric) == Runs(q.mention, q.numeric)
    ensures Ratio(q.mention, name) >= NAME_FLOOR
  {
    hide Ratio, Runs, ResolutionScore;
    RatioBounds(q.mention, q.mention);
  }

  /** The scan over the candidates, with the prefilter and the early exit. */
  method ResolveMention(q: Query) returns (name: string)
    ensures q.Answer(name)
  {
    hide Ratio, Runs, ResolutionScore, CanClearThreshold, Overlap, DaysDiff, Ceiling;
    var candidates := q.ctx.candidates;
    var bestScore, best := 0.0, None;
    ghost var at: nat := 0;
    for i := 0 to |candidates|
      invariant !q.Exact(i)
      invariant best.None? ==> bestScore == 0.0 && forall m :: 0 <= m < i ==> !q.Eligible(candidates[m])
      invariant best.Some? ==>
        at < i && q.Best(i, at) && best.value == candidates[at].canonicalName && bestScore == q.Score(candidates[at])
    {
      var c := candidates[i];
      if c.canonicalName == q.mention {
        return c.canonicalName;
      }
      if !CanClearThreshold(|q.mention|, |c.canonicalName|) {
        PrefilterIsSafe(q.mention, c.canonicalName);
        continue;
      }
      var mine := RunsOf(q.mention, q.numeric);
      var theirs := RunsOf(c.canonicalName, q.numeric);
      if mine != theirs {
        continue;
      }
      var nameRatio := RatioOf(q.mention, c.canonicalName);
      if nameRatio < NAME_FLOOR {
        continue;
      }
      EligibleScoresPositive(q, c);
      var score := ResolutionScore(nameRatio, Overlap(q.ctx, c, q.nearby), |q.nearby|, DaysDiff(c, q.eventDate));
      if score > bestScore {
        bestScore, best, at := score, Some(c.canonicalName), i;
      }
    }
    name := if best.Some? && bestScore > RESOLUTION_THRESHOLD then best.value else q.mention;
  }

  method RatioOf(a: string, b: string) returns (r: real)
    ensures r == Ratio(a, b)
  {
    if |a| + |b| == 0 {
      return 1.0;
    }
    var m := Matching.MatchingSize(a, b);
    r := 2.0 * m as real / (|a| + |b|) as real;
  }

  // ---------- One fact ----------

  /** The mentions of a fact, canonical, each once and none empty, in the
      order of first appearance. */
  function NormalizedMentions(mentions: seq<string>, normalize: string -> string): (r: seq<string>)
    ensures forall i, j :: 0 <= i < j < |r| ==> r[i] != r[j]
    ensures forall x :: x in r <==> x != [] && exists i :: 0 <= i < |mentions| && normalize(mentions[i]) == x
  {
    if mentions == [] then []
    else
      var before := NormalizedMentions(mentions[..|mentions| - 1], normalize);
      var m := normalize(mentions[|mentions| - 1]);
      if m == [] || m in before then before else before + [m]
  }

  method NormalizeAll(mentions: seq<string>, normalize: string -> string) returns (out: seq<string>)
    ensures out == NormalizedMentions(mentions, normalize)
  {
    var seen := {};
    out := [];
    for i := 0 to |mentions|
      invariant out == NormalizedMentions(mentions[..i], normalize)
      invariant seen == set x | x in out
    {
      assert mentions[..i + 1][..i] == mentions[..i];
      var m := normalize(mentions[i]);
      if m != [] && m !in seen {
        seen := seen + {m};
        out := out + [m];
      }
    }
    assert mentions[..|mentions|] == mentions;
  }

  /** One name per distinct mention, in order, each the answer for it. */
  method ResolveFact(mentions: seq<string>, eventDate: Option<int>, ctx: Context,
                     normalize: string -> string, numeric: char -> bool)
    returns (names: seq<string>)
    ensures var normalized := NormalizedMentions(mentions, normalize);
            && |names| == |normalized|
            && forall k :: 0 <= k < |names| ==>
                 Query(normalized[k], (set n | n in normalized && n != normalized[k]), eventDate, ctx, numeric).Answer(names[k])
  {
    hide *;
    var normalized := NormalizeAll(mentions, normalize);
    names := [];
    for i := 0 to |normalized|
      invariant |names| == i
      invariant forall k :: 0 <= k < i ==>
        Query(normalized[k], (set n | n in normalized && n != normalized[k]), eventDate, ctx, numeric).Answer(names[k])
    {
      var name := ResolveMention(Query(normalized[i], (set n | n in normalized && n != normalized[i]), eventDate, ctx, numeric));
      names := names + [name];
    }
  }
}
