/**
 Schema migrations raced by several processes on one file. Each migration is a
 transaction that reads the version again under the write lock.
 */
module Migrate {
  import opened Wrappers

  /** The migrations of this build, ascending. */
  const MIGRATIONS: seq<int> := [1, 2, 3, 4, 5, 6, 7, 8, 9, 10, 11, 12, 13, 14, 15]

  const LATEST_VERSION: int := 15

  function Version(k: nat): int
    requires k < LATEST_VERSION
  {
    MIGRATIONS[k]
  }

  /** Numbered without gaps, from one. */
  lemma VersionsAscend(k: nat)
    requires k < LATEST_VERSION
    ensures Version(k) == k + 1 && |MIGRATIONS| == LATEST_VERSION
  {}

  datatype Error = NewerFile | Failed

  /** The file: its version, and the scripts run on it in order. */
  datatype Database = Database(version: int, applied: seq<int>)

  /** A process is before its first look at the version, before the
      transaction of migration `next`, or through. */
  datatype Process = Starting | Running(next: nat) | Done | Refused | Crashed

  datatype World = World(db: Database, processes: seq<Process>)

  /** The latest version that each process knows: it runs the migrations up to
      that one, numbered as in every build. */
  type Builds = seq<nat>

  /** The transaction of migration `version`. */
  function Transaction(db: Database, version: int): Database {
    if version <= db.version then db else Database(version, db.applied + [version])
  }

  predicate Fits(w: World, builds: Builds) { |w.processes| == |builds| }

  /** One step of one process, up to its next transaction boundary. The look
      that may refuse the file is not part of any transaction. */
  function Stepped(w: World, builds: Builds, p: nat): (after: World)
    requires Fits(w, builds) && p < |builds|
    ensures Fits(after, builds)
  {
    match w.processes[p]
    case Starting =>
      w.(processes := w.processes[p := if w.db.version > builds[p] then Refused else Running(0)])
    case Running(next) =>
      if next >= builds[p] then w.(processes := w.processes[p := Done])
      else World(Transaction(w.db, next + 1), w.processes[p := Running(next + 1)])
    case _ => w
  }

  /** A failed script or a killed process rolls its transaction back. */
  function Killed(w: World, p: nat): World
    requires p < |w.processes|
  {
    w.(processes := w.processes[p := Crashed])
  }

  datatype Event = Step(p: nat) | Kill(p: nat)

  function Initial(version: int, builds: Builds): World {
    World(Database(version, []), seq(|builds|, _ => Starting))
  }

  function Next(w: World, builds: Builds, e: Event): (after: World)
    requires Fits(w, builds)
    ensures Fits(after, builds)
  {
    if e.p >= |builds| then w else if e.Step? then Stepped(w, builds, e.p) else Killed(w, e.p)
  }

  function After(version: int, builds: Builds, run: seq<Event>): (w: World)
    ensures Fits(w, builds)
  {
    if run == [] then Initial(version, builds)
    else Next(After(version, builds, run[..|run| - 1]), builds, run[|run| - 1])
  }

  /** The migrations later than `from` and no later than `upTo`, ascending. */
  function Between(from: int, upTo: int): seq<int> {
    if upTo <= from || upTo <= 0 then [] else Between(from, upTo - 1) + [upTo]
  }

  /** They are a stretch of the list. */
  lemma BetweenIsSlice(from: nat, upTo: nat)
    requires from <= upTo <= LATEST_VERSION
    ensures Between(from, upTo) == MIGRATIONS[from..upTo]
  {
    BetweenIsStretch(MIGRATIONS, from, upTo);
  }

  lemma {:induction false} BetweenIsStretch(list: seq<int>, from: nat, upTo: nat)
    requires |list| == LATEST_VERSION && forall k :: 0 <= k < |list| ==> list[k] == k + 1
    requires from <= upTo <= LATEST_VERSION
    ensures Between(from, upTo) == list[from..upTo]
    decreases upTo
  {
    if from == upTo {
    } else {
      BetweenIsStretch(list, from, upTo - 1);
      assert list[from..upTo] == list[from..upTo - 1] + [list[upTo - 1]];
    }
  }

  lemma BetweenGrows(from: int, upTo: int)
    requires from < upTo && 0 < upTo
    ensures Between(from, upTo) == Between(from, upTo - 1) + [upTo]
  {}

  lemma NothingBetween(from: int)
    ensures Between(from, from) == []
  {}

  // ---------- Any race ----------

  /** What every interleaving keeps: exactly the migrations between the first
      version and the current one have run, each once and in order; a process
      has seen the version at least as far as it has come, and found the file
      no newer than its build when it looked. */
  predicate Consistent(w: World, first: int, builds: Builds) {
    && Fits(w, builds) && first <= w.db.version
    && w.db.applied == Between(first, w.db.version)
    && (w.db.version == first || exists p :: 0 <= p < |builds| && w.db.version <= builds[p])
    && forall p :: 0 <= p < |builds| ==> Reached(w.processes[p], w.db.version, first, builds[p])
  }

  predicate Reached(process: Process, version: int, first: int, latest: nat) {
    match process
    case Running(next) => first <= latest && next <= latest && next <= version
    case Done => first <= latest <= version
    case _ => true
  }

  lemma StepKeeps(w: World, first: int, builds: Builds, p: nat)
    requires Consistent(w, first, builds) && p < |builds| && 0 <= first
    ensures Consistent(Stepped(w, builds, p), first, builds)
  {
    hide Between;
    var after := Stepped(w, builds, p);
    match w.processes[p] {
      case Running(next) =>
        assert Reached(w.processes[p], w.db.version, first, builds[p]);
        if next < builds[p] && w.db.version < next + 1 {
          BetweenGrows(first, next + 1);
        }
      case _ =>
    }
    forall q | 0 <= q < |builds|
      ensures Reached(after.processes[q], after.db.version, first, builds[q])
    {
      assert Reached(w.processes[q], w.db.version, first, builds[q]);
    }
  }

  /** For any number of processes of any builds, however their transactions
      interleave and whichever of them are killed. */
  lemma {:induction false} EveryRaceIsConsistent(first: int, builds: Builds, run: seq<Event>)
    requires 0 <= first
    ensures Consistent(After(first, builds, run), first, builds)
    decreases |run|
  {
    hide Stepped, Reached, Between;
    if run == [] {
      StartIsConsistent(first, builds);
    } else {
      var w, e := After(first, builds, run[..|run| - 1]), run[|run| - 1];
      EveryRaceIsConsistent(first, builds, run[..|run| - 1]);
      if e.p < |builds| {
        if e.Step? {
          StepKeeps(w, first, builds, e.p);
        } else {
          KillKeeps(w, first, builds, e.p);
        }
      }
    }
  }

  lemma StartIsConsistent(first: int, builds: Builds)
    requires 0 <= first
    ensures Consistent(Initial(first, builds), first, builds)
  {}

  lemma KillKeeps(w: World, first: int, builds: Builds, p: nat)
    requires Consistent(w, first, builds) && p < |builds|
    ensures Consistent(Killed(w, p), first, builds)
  {
    var after := Killed(w, p);
    forall q | 0 <= q < |builds|
      ensures Reached(after.processes[q], after.db.version, first, builds[q])
    {
      assert Reached(w.processes[q], w.db.version, first, builds[q]);
    }
  }

  // ---------- A newer build beside an older one ----------

  /** Event `k` of the run is the transaction of migration `latest + 1`, by a
      process whose build has it. */
  predicate RaisesAt(first: int, builds: Builds, run: seq<Event>, latest: nat, k: nat)
    requires k < |run|
  {
    && run[k].Step? && run[k].p < |builds| && latest < builds[run[k].p]
    && After(first, builds, run[..k]).processes[run[k].p] == Running(latest)
  }

  ghost predicate Raised(first: int, builds: Builds, run: seq<Event>, latest: nat) {
    exists k :: 0 <= k < |run| && RaisesAt(first, builds, run, latest, k)
  }

  /** A file goes past a version exactly by the transaction of the next one. */
  lemma {:induction false} PassedExactly(first: int, builds: Builds, run: seq<Event>, latest: nat)
    requires 0 <= first <= latest
    ensures After(first, builds, run).db.version > latest <==> Raised(first, builds, run, latest)
    decreases |run|
  {
    if run == [] {
    } else {
      var n := |run| - 1;
      var w, e := After(first, builds, run[..n]), run[n];
      PassedExactly(first, builds, run[..n], latest);
      EveryRaceIsConsistent(first, builds, run[..n]);
      RaisedEarlier(first, builds, run, latest);
      LastStep(w, first, builds, e, latest);
      hide After, Consistent, Stepped, Killed;
      assert RaisesAt(first, builds, run, latest, n)
        <==> e.Step? && e.p < |builds| && latest < builds[e.p] && w.processes[e.p] == Running(latest);
      assert After(first, builds, run) == Next(w, builds, e) by {
        AfterLast(first, builds, run);
      }
    }
  }

  lemma AfterLast(first: int, builds: Builds, run: seq<Event>)
    requires run != []
    ensures After(first, builds, run) == Next(After(first, builds, run[..|run| - 1]), builds, run[|run| - 1])
  {}

  lemma RaisedEarlier(first: int, builds: Builds, run: seq<Event>, latest: nat)
    requires run != []
    ensures
      var n := |run| - 1;
      Raised(first, builds, run, latest) <==> Raised(first, builds, run[..n], latest) || RaisesAt(first, builds, run, latest, n)
  {
    hide After;
    var n := |run| - 1;
    forall k | 0 <= k < n
      ensures RaisesAt(first, builds, run[..n], latest, k) <==> RaisesAt(first, builds, run, latest, k)
    {
      assert run[..n][..k] == run[..k];
    }
    if Raised(first, builds, run[..n], latest) {
      var k :| 0 <= k < n && RaisesAt(first, builds, run[..n], latest, k);
      assert RaisesAt(first, builds, run, latest, k);
    }
    if Raised(first, builds, run, latest) {
      var k :| 0 <= k < |run| && RaisesAt(first, builds, run, latest, k);
      assert k < n ==> RaisesAt(first, builds, run[..n], latest, k);
    }
  }

  lemma LastStep(w: World, first: int, builds: Builds, e: Event, latest: nat)
    requires Consistent(w, first, builds) && 0 <= first <= latest
    ensures
      Next(w, builds, e).db.version > latest <==>
      || w.db.version > latest
      || (e.Step? && e.p < |builds| && latest < builds[e.p] && w.processes[e.p] == Running(latest))
  {
    if e.p < |builds| {
      assert Reached(w.processes[e.p], w.db.version, first, builds[e.p]);
    }
  }

  /** A process that finishes leaves the file at its own latest version or a
      later one, with every migration up to there run exactly once, in order. It
      is its own exactly when no newer build has got past it, which is not kept
      out by the look at the start: that one only says that the file was not
      newer then. */
  lemma FinishedIsLatest(first: int, builds: Builds, run: seq<Event>, p: nat)
    requires 0 <= first && p < |builds| && After(first, builds, run).processes[p].Done?
    ensures
      var db := After(first, builds, run).db;
      && first <= builds[p] <= db.version && db.applied == Between(first, db.version)
      && (db.version == builds[p] <==> !Raised(first, builds, run, builds[p]))
  {
    EveryRaceIsConsistent(first, builds, run);
    var w := After(first, builds, run);
    assert Reached(w.processes[p], w.db.version, first, builds[p]);
    PassedExactly(first, builds, run, builds[p]);
  }

  /** Where all processes are of one build, a finished one leaves its latest. */
  lemma OneBuildFinishes(first: int, builds: Builds, run: seq<Event>, p: nat, latest: nat)
    requires 0 <= first && p < |builds| && (forall q :: 0 <= q < |builds| ==> builds[q] == latest)
    requires After(first, builds, run).processes[p].Done?
    ensures After(first, builds, run).db == Database(latest, Between(first, latest))
  {
    FinishedIsLatest(first, builds, run, p);
    assert !Raised(first, builds, run, latest);
  }

  /** On a file newer than every build nothing runs and nobody finishes. */
  lemma NewerIsRefused(first: int, builds: Builds, run: seq<Event>)
    requires 0 <= first && forall q :: 0 <= q < |builds| ==> builds[q] < first
    ensures
      var w := After(first, builds, run);
      w.db == Database(first, []) && forall p :: 0 <= p < |builds| ==> !w.processes[p].Running? && !w.processes[p].Done?
  {
    EveryRaceIsConsistent(first, builds, run);
    var w := After(first, builds, run);
    NothingBetween(first);
    forall p | 0 <= p < |builds| ensures !w.processes[p].Running? && !w.processes[p].Done? {
      assert Reached(w.processes[p], w.db.version, first, builds[p]);
    }
  }

  /** The older of two builds looks, the newer one migrates, and the older one
      still finishes, on a file it does not know. */
  lemma OlderFinishesLate(first: int, older: nat)
    requires 0 <= first <= older
    ensures
      var builds := [older, older + 1];
      exists run ::
        && After(first, builds, run).processes[0].Done? && After(first, builds, run).db.version == older + 1
        && Raised(first, builds, run, older)
  {
    var builds := [older, older + 1];
    var looked := [Step(0)];
    assert looked[..0] == [];
    assert After(first, builds, looked) == World(Database(first, []), [Running(0), Starting]);
    assert (looked + [Step(1)])[..1] == looked;
    assert After(first, builds, looked + [Step(1)]).processes[1] == Running(0);
    var raised := AllSteps(first, builds, looked + [Step(1)], 1, 0);
    EveryRaceIsConsistent(first, builds, raised);
    assert After(first, builds, raised).processes[0] == Running(0);
    var run := AllSteps(first, builds, raised, 0, 0);
    EveryRaceIsConsistent(first, builds, run);
    PassedExactly(first, builds, run, older);
    assert Reached(After(first, builds, raised).processes[1], After(first, builds, raised).db.version, first, builds[1]);
  }

  /** One process runs on to its end; versions do not fall, and the others stay
      where they are. */
  lemma {:induction false} AllSteps(first: int, builds: Builds, run: seq<Event>, p: nat, next: nat) returns (longer: seq<Event>)
    requires 0 <= first && p < |builds| && next <= builds[p] && After(first, builds, run).processes[p] == Running(next)
    ensures After(first, builds, longer).processes[p].Done?
    ensures After(first, builds, longer).db.version >= After(first, builds, run).db.version
    ensures forall q :: 0 <= q < |builds| && q != p ==>
              After(first, builds, longer).processes[q] == After(first, builds, run).processes[q]
    decreases builds[p] - next
  {
    longer := run + [Step(p)];
    assert longer[..|run|] == run;
    if next == builds[p] {
    } else {
      longer := AllSteps(first, builds, longer, p, next + 1);
    }
  }

  // ---------- One process ----------

  class File {
    var db: Database

    constructor (version: int)
      ensures db == Database(version, [])
    {
      db := Database(version, []);
    }

    /** One process that nobody disturbs. Running it again changes nothing. */
    method Migrate() returns (r: Result<(), Error>)
      requires 0 <= db.version
      modifies this
      ensures r.Err? <==> old(db.version) > LATEST_VERSION
      ensures r.Err? ==> r == Err(NewerFile) && db == old(db)
      ensures r.Ok? ==> db == Database(LATEST_VERSION, old(db.applied) + Between(old(db.version), LATEST_VERSION))
    {
      hide Version, Between;
      if db.version > LATEST_VERSION {
        return Err(NewerFile);
      }
      ghost var first, before := db.version, db.applied;
      NothingBetween(first);
      assert before + [] == before;
      for next := 0 to LATEST_VERSION
        invariant first <= db.version <= LATEST_VERSION
        invariant next > 0 ==> Version(next - 1) <= db.version
        invariant db.applied == before + Between(first, db.version)
      {
        var version := Version(next);
        VersionsAscend(next);
        if next > 0 {
          VersionsAscend(next - 1);
        }
        if version <= db.version {
          continue;
        }
        BetweenGrows(first, version);
        assert before + (Between(first, db.version) + [version]) == before + Between(first, db.version) + [version];
        db := Database(version, db.applied + [version]);
      }
      VersionsAscend(LATEST_VERSION - 1);
      r := Ok(());
    }
  }
}
