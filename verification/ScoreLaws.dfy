/**
 What a score rewards: the name, the company a candidate keeps, and how lately
 it was seen; and what that means for the answer to a mention.
 */
module ScoreLaws {
  import opened Common
  import opened Wrappers
  import opened Resolution
  import Matching

  const WEEK_MS := 604800000

  /** The candidate has shared a fact with the name before. */
  predicate HasMet(ctx: Context, c: Candidate, name: string) {
    c.id in ctx.cooccurring && name in ctx.cooccurring[c.id]
  }

  function Shared(q: Query, c: Candidate): set<string> {
    set n | n in q.nearby && HasMet(q.ctx, c, n)
  }

  /** How far apart the fact and the candidate's last one are, in milliseconds. */
  function Distance(q: Query, c: Candidate): Option<nat> {
    if c.lastSeen.None? || q.eventDate.None? then None
    else if c.lastSeen.value <= q.eventDate.value then Some(q.eventDate.value - c.lastSeen.value)
    else Some(c.lastSeen.value - q.eventDate.value)
  }

  function Company(q: Query, c: Candidate): real {
    if q.nearby == {} then 0.0 else 0.3 * (|Shared(q, c)| as real / |q.nearby| as real)
  }

  function Recency(q: Query, c: Candidate): real {
    match Distance(q, c)
    case None => 0.0
    case Some(ms) => if ms < WEEK_MS then 0.2 * ((WEEK_MS - ms) as real / WEEK_MS as real) else 0.0
  }

  lemma OverlapIsShared(q: Query, c: Candidate)
    ensures Overlap(q.ctx, c, q.nearby) == |Shared(q, c)| <= |q.nearby|
  {
    SubsetSize(Shared(q, c), q.nearby);
    if c.id in q.ctx.cooccurring {
      assert Shared(q, c) == q.nearby * q.ctx.cooccurring[c.id];
    } else {
      assert Shared(q, c) == {};
    }
  }

  lemma DaysOf(ms: nat)
    ensures ms as real / MS_PER_DAY < TEMPORAL_WINDOW_DAYS <==> ms < WEEK_MS
    ensures ms < WEEK_MS ==>
      1.0 - ms as real / MS_PER_DAY / TEMPORAL_WINDOW_DAYS == (WEEK_MS - ms) as real / WEEK_MS as real > 0.0
  {
    var days := ms as real / MS_PER_DAY;
    assert days * MS_PER_DAY == ms as real;
    assert days / TEMPORAL_WINDOW_DAYS * 604800000.0 == ms as real;
  }

  /** The score is half the ratio of the names, three tenths of the share of the
      names beside the mention that the candidate has met, and two tenths of the
      week that is left since it was seen. */
  lemma ScoreIs(q: Query, c: Candidate)
    ensures q.Score(c) == 0.5 * Ratio(q.mention, c.canonicalName) + Company(q, c) + Recency(q, c)
  {
    hide Ratio, Overlap;
    OverlapIsShared(q, c);
    if q.nearby == {} {
      assert |q.nearby| == 0;
    } else {
      NotEmpty(q.nearby);
    }
    if Distance(q, c).Some? {
      DaysOf(Distance(q, c).value);
    }
  }

  lemma NotEmpty<T>(s: set<T>)
    requires s != {}
    ensures |s| > 0
  {}

  lemma PartsBounded(q: Query, c: Candidate)
    ensures 0.0 <= Company(q, c) <= 0.3 && 0.0 <= Recency(q, c) <= 0.2
    ensures Company(q, c) > 0.0 <==> Shared(q, c) != {}
    ensures q.nearby != {} && q.nearby <= Shared(q, c) ==> Company(q, c) == 0.3
    ensures Recency(q, c) > 0.0 <==> Distance(q, c).Some? && Distance(q, c).value < WEEK_MS
  {
    OverlapIsShared(q, c);
    if q.nearby != {} {
      NotEmpty(q.nearby);
      Unit(|Shared(q, c)|, |q.nearby|);
      if Shared(q, c) != {} {
        NotEmpty(Shared(q, c));
      }
      if q.nearby <= Shared(q, c) {
        assert q.nearby == Shared(q, c);
      }
    } else {
      assert Shared(q, c) == {};
    }
    if Distance(q, c).Some? && Distance(q, c).value < WEEK_MS {
      Unit(WEEK_MS - Distance(q, c).value, WEEK_MS);
    }
  }

  lemma Unit(part: nat, whole: nat)
    requires part <= whole && whole > 0
    ensures 0.0 <= part as real / whole as real <= 1.0
    ensures part as real / whole as real > 0.0 <==> part > 0
    ensures part == whole ==> part as real / whole as real == 1.0
  {
    var f := part as real / whole as real;
    assert f * whole as real == part as real;
    Fraction(part as real, whole as real, 1.0);
    Fraction(part as real, whole as real, 0.0);
  }

  // ---------- What raises a score ----------

  lemma PartGrows(part: nat, more: nat, whole: nat)
    requires part < more && whole > 0
    ensures part as real / whole as real < more as real / whole as real
  {
    var f, g := part as real / whole as real, more as real / whole as real;
    assert f * whole as real == part as real && g * whole as real == more as real;
    if f >= g {
      TimesMonotone(g, f, whole as real);
    }
  }

  /** All else equal, having met more of the names beside the mention scores
      strictly higher, and so does a better name. */
  lemma MoreIsHigher(q: Query, c: Candidate, d: Candidate)
    requires Distance(q, c) == Distance(q, d)
    ensures
      var r, s := Ratio(q.mention, c.canonicalName), Ratio(q.mention, d.canonicalName);
      && (r == s && |Shared(q, c)| < |Shared(q, d)| ==> q.Score(c) < q.Score(d))
      && (r < s && |Shared(q, c)| == |Shared(q, d)| ==> q.Score(c) < q.Score(d))
      && (r == s && |Shared(q, c)| == |Shared(q, d)| ==> q.Score(c) == q.Score(d))
  {
    hide Ratio, ResolutionScore, Overlap, DaysDiff;
    ScoreIs(q, c);
    ScoreIs(q, d);
    OverlapIsShared(q, c);
    OverlapIsShared(q, d);
    if |Shared(q, c)| < |Shared(q, d)| {
      PartGrows(|Shared(q, c)|, |Shared(q, d)|, |q.nearby|);
    }
  }

  /** Within a week a nearer date scores strictly higher; beyond it, or without
      one of the dates, it counts nothing. */
  lemma NearerIsHigher(q: Query, c: Candidate, d: Candidate)
    requires c.canonicalName == d.canonicalName && |Shared(q, c)| == |Shared(q, d)|
    ensures
      var x, y := Distance(q, c), Distance(q, d);
      && (y.Some? && y.value < WEEK_MS && (x.None? || x.value > y.value) ==> q.Score(c) < q.Score(d))
      && ((x.None? || x.value >= WEEK_MS) && (y.None? || y.value >= WEEK_MS) ==> q.Score(c) == q.Score(d))
  {
    hide Ratio, ResolutionScore, Overlap, DaysDiff;
    ScoreIs(q, c);
    ScoreIs(q, d);
    PartsBounded(q, c);
    PartsBounded(q, d);
    var x, y := Distance(q, c), Distance(q, d);
    if x.Some? && y.Some? && y.value < x.value < WEEK_MS {
      PartGrows(WEEK_MS - x.value, WEEK_MS - y.value, WEEK_MS);
    }
  }

  // ---------- What that means for the answer ----------

  /** A name other than the mention's own is adopted only for a candidate that has
      met a name beside the mention, or was seen within a week of the fact. */
  lemma AdoptedNeedsCircumstance(q: Query, name: string)
    requires q.Answer(name) && name != q.mention
    ensures exists k :: 0 <= k < |q.ctx.candidates| && q.ctx.candidates[k].canonicalName == name
              && var c := q.ctx.candidates[k];
                 || (exists n :: n in q.nearby && HasMet(q.ctx, c, n))
                 || (Distance(q, c).Some? && Distance(q, c).value < WEEK_MS)
  {
    hide Ratio, Runs, ResolutionScore, Overlap, DaysDiff;
    var k :| 0 <= k < |q.ctx.candidates| && q.Best(|q.ctx.candidates|, k) && q.Wins(q.ctx.candidates[k])
             && name == q.ctx.candidates[k].canonicalName;
    var c := q.ctx.candidates[k];
    RatioBounds(q.mention, name);
    ScoreIs(q, c);
    PartsBounded(q, c);
    if Shared(q, c) != {} {
      var n :| n in Shared(q, c);
      assert n in q.nearby && HasMet(q.ctx, c, n);
    }
  }

  /** An eligible candidate that has met all the names beside the mention wins
      with a ratio above six tenths, whatever the dates, so the mention does not
      become a new entity beside it. */
  lemma CompanyAdopts(q: Query, name: string, k: nat)
    requires q.Answer(name) && k < |q.ctx.candidates| && q.Eligible(q.ctx.candidates[k])
    requires q.nearby != {} && forall n :: n in q.nearby ==> HasMet(q.ctx, q.ctx.candidates[k], n)
    requires Ratio(q.mention, q.ctx.candidates[k].canonicalName) > 0.6
    ensures q.Wins(q.ctx.candidates[k])
    ensures exists m :: 0 <= m < |q.ctx.candidates| && q.ctx.candidates[m].canonicalName == name
  {
    hide Ratio, Runs, ResolutionScore, Overlap, DaysDiff;
    var c := q.ctx.candidates[k];
    ScoreIs(q, c);
    PartsBounded(q, c);
  }

  /** Of two eligible candidates with names as like the mention and dates as near,
      the one that has met fewer of the names is not the one adopted. */
  lemma CompanyDecides(q: Query, name: string, k: nat, m: nat)
    requires q.Answer(name) && k < |q.ctx.candidates| && m < |q.ctx.candidates| && name != q.mention
    requires q.Eligible(q.ctx.candidates[k]) && q.Eligible(q.ctx.candidates[m])
    requires
      var c, d := q.ctx.candidates[k], q.ctx.candidates[m];
      && Ratio(q.mention, c.canonicalName) == Ratio(q.mention, d.canonicalName) && Distance(q, c) == Distance(q, d)
      && |Shared(q, c)| < |Shared(q, d)|
    ensures !q.Best(|q.ctx.candidates|, k)
  {
    hide Ratio, Runs, ResolutionScore, Overlap, DaysDiff;
    MoreIsHigher(q, q.ctx.candidates[k], q.ctx.candidates[m]);
  }

  /** Twice the matched total is the ratio's share of both lengths. */
  lemma RatioIs(a: string, b: string)
    ensures Ratio("", "") == 1.0
    ensures |a| + |b| > 0 ==> Ratio(a, b) * (|a| + |b|) as real == 2.0 * Matching.MatchingTotal(a, b) as real
  {
    hide Matching.MatchingTotal;
    if |a| + |b| > 0 {
      var t := (|a| + |b|) as real;
      assert 2.0 * Matching.MatchingTotal(a, b) as real / t * t == 2.0 * Matching.MatchingTotal(a, b) as real;
    }
  }

  // ---------- Numeric runs ----------

  /** A numeric run starts at `k`. */
  predicate StartsAt(s: string, numeric: char -> bool, k: nat)
    requires k < |s|
  {
    numeric(s[k]) && (k == 0 || !numeric(s[k - 1]))
  }

  /** How many start before `k`. */
  function StartsBefore(s: string, numeric: char -> bool, k: nat): nat
    requires k <= |s|
  {
    if k == 0 then 0 else StartsBefore(s, numeric, k - 1) + if StartsAt(s, numeric, k - 1) then 1 else 0
  }

  /** `s[i..j]` is numeric, and neither neighbour is. */
  predicate MaximalRun(s: string, numeric: char -> bool, i: nat, j: nat) {
    && i < j <= |s| && (forall k :: i <= k < j ==> numeric(s[k]))
    && (i > 0 ==> !numeric(s[i - 1])) && (j < |s| ==> !numeric(s[j]))
  }

  lemma {:induction false} StartsShift(s: string, numeric: char -> bool, n: nat, k: nat)
    requires n <= |s| && k <= |s| - n && (n < |s| ==> StartsAt(s, numeric, n) == numeric(s[n]))
    ensures StartsBefore(s, numeric, n + k) == StartsBefore(s, numeric, n) + StartsBefore(s[n..], numeric, k)
    decreases k
  {
    if k == 0 {
    } else {
      StartsShift(s, numeric, n, k - 1);
      if k > 1 {
        assert s[n..][k - 1] == s[n + k - 1] && s[n..][k - 2] == s[n + k - 2];
      }
    }
  }

  lemma {:induction false} StartsInLead(s: string, numeric: char -> bool, k: nat)
    requires k <= |s| && forall m :: 0 <= m < k ==> numeric(s[m])
    ensures StartsBefore(s, numeric, k) == if k == 0 then 0 else 1
    decreases k
  {
    if k == 0 {
    } else {
      StartsInLead(s, numeric, k - 1);
    }
  }

  /** A maximal run seen from the rest of the text. */
  lemma RunInTail(s: string, numeric: char -> bool, n: nat, i: nat, j: nat)
    requires n <= i && n < |s| && StartsAt(s, numeric, n) == numeric(s[n]) && MaximalRun(s, numeric, i, j)
    ensures MaximalRun(s[n..], numeric, i - n, j - n) && s[n..][i - n..j - n] == s[i..j]
    ensures StartsBefore(s, numeric, i) == StartsBefore(s, numeric, n) + StartsBefore(s[n..], numeric, i - n)
  {
    StartsShift(s, numeric, n, i - n);
  }

  lemma AllStarts(s: string, numeric: char -> bool, n: nat)
    requires n <= |s| && (n < |s| ==> StartsAt(s, numeric, n) == numeric(s[n]))
    ensures StartsBefore(s, numeric, |s|) == StartsBefore(s, numeric, n) + StartsBefore(s[n..], numeric, |s[n..]|)
  {
    hide StartsBefore, StartsAt;
    assert |s[n..]| == |s| - n;
    StartsShift(s, numeric, n, |s| - n);
  }

  /** The runs are exactly the maximal numeric stretches, in order: the one that
      starts after `n` others is the `n`th, with its digits folded. */
  lemma {:induction false} RunsAreMaximal(s: string, numeric: char -> bool, i: nat, j: nat)
    ensures |Runs(s, numeric)| == StartsBefore(s, numeric, |s|)
    ensures MaximalRun(s, numeric, i, j) ==>
      StartsBefore(s, numeric, i) < |Runs(s, numeric)| && Runs(s, numeric)[StartsBefore(s, numeric, i)] == FoldAll(s[i..j])
    decreases |s|
  {
    hide StartsBefore, FoldAll;
    if s == [] {
      StartsInLead(s, numeric, 0);
    } else {
      var n := if numeric(s[0]) then Lead(s, numeric) else 1;
      var t := s[n..];
      HeadStarts(s, numeric, n);
      AllStarts(s, numeric, n);
      RunsAreMaximal(t, numeric, if i >= n then i - n else 0, if j >= n then j - n else 0);
      if MaximalRun(s, numeric, i, j) {
        if i < n {
          assert numeric(s[0]);
          FirstRun(s, numeric, i, j);
          StartsInLead(s, numeric, 0);
        } else {
          RunInTail(s, numeric, n, i, j);
        }
      }
    }
  }

  /** The first character, or the run that the text starts with. */
  lemma HeadStarts(s: string, numeric: char -> bool, n: nat)
    requires s != [] && n == if numeric(s[0]) then Lead(s, numeric) else 1
    ensures 1 <= n <= |s| && (n < |s| ==> StartsAt(s, numeric, n) == numeric(s[n]))
    ensures StartsBefore(s, numeric, n) == if numeric(s[0]) then 1 else 0
  {
    if numeric(s[0]) {
      StartsInLead(s, numeric, n);
    } else {
      assert StartsBefore(s, numeric, 0) == 0;
    }
  }

  lemma FirstRun(s: string, numeric: char -> bool, i: nat, j: nat)
    requires s != [] && numeric(s[0]) && MaximalRun(s, numeric, i, j) && i < Lead(s, numeric)
    ensures i == 0 && j == Lead(s, numeric)
  {}

  /** The digit `d` as written in either width. */
  predicate IsDigit(c: char, d: nat) {
    c as int == 0x30 + d || c as int == 0xFF10 + d
  }

  /** The same character, or the same digit in another width. */
  predicate SameCharacter(x: char, y: char) {
    x == y || exists d: nat :: d < 10 && IsDigit(x, d) && IsDigit(y, d)
  }

  lemma FoldDecides(x: char, y: char)
    ensures Fold(x) == Fold(y) <==> SameCharacter(x, y)
  {
    if Fold(x) == Fold(y) && x != y {
      var d := Fold(x) as int - 0x30;
      assert 0 <= d < 10 && IsDigit(x, d) && IsDigit(y, d);
    }
  }

  /** Names that differ only in the width of their digits have the same runs. */
  lemma WidthIsIgnored(s: string, t: string, numeric: char -> bool)
    requires forall c :: numeric(Fold(c)) == numeric(c)
    requires |s| == |t| && forall k :: 0 <= k < |s| ==> SameCharacter(s[k], t[k])
    ensures Runs(s, numeric) == Runs(t, numeric)
  {
    hide SameCharacter, Runs, Fold;
    forall k | 0 <= k < |s| ensures Fold(s[k]) == Fold(t[k]) {
      FoldDecides(s[k], t[k]);
    }
    assert FoldAll(s) == FoldAll(t);
    RunsIgnoreWidth(s, numeric);
    RunsIgnoreWidth(t, numeric);
  }

  // ---------- The mentions of a fact ----------

  /** The canonical mentions stand in the order in which each first appears. */
  lemma {:induction false} FirstAppearance(mentions: seq<string>, normalize: string -> string, i: nat, j: nat, n: nat)
    requires i < j < |NormalizedMentions(mentions, normalize)|
    requires n < |mentions| && normalize(mentions[n]) == NormalizedMentions(mentions, normalize)[j]
    ensures exists m :: 0 <= m < n && normalize(mentions[m]) == NormalizedMentions(mentions, normalize)[i]
    decreases |mentions|
  {
    var last := |mentions| - 1;
    var before := NormalizedMentions(mentions[..last], normalize);
    if j < |before| {
      if n < last {
        FirstAppearance(mentions[..last], normalize, i, j, n);
      } else {
        assert before[j] in before;
        var p :| 0 <= p < |mentions[..last]| && normalize(mentions[..last][p]) == before[j];
        FirstAppearance(mentions[..last], normalize, i, j, p);
        var m :| 0 <= m < p && normalize(mentions[..last][m]) == before[i];
        assert normalize(mentions[m]) == before[i];
      }
    } else {
      assert forall p :: 0 <= p < last ==> mentions[..last][p] == mentions[p];
      assert n == last;
      assert before[i] in before;
      var m :| 0 <= m < |mentions[..last]| && normalize(mentions[..last][m]) == before[i];
      assert normalize(mentions[m]) == before[i];
    }
  }
}
