/**
 The `sessions` table: one row per bank and session, two cursors into the
 session's transcript. `byteOffset` is what the hook has posted,
 `confirmedOffset` is what is known to be ingested, and two guarded channels
 move the latter. The clock is a parameter; integers are unbounded.
 */
module Sessions {
  import opened Common
  import opened Wrappers

  const MAX_SESSION_ID_BYTES := 200

  datatype Key = Key(bankId: string, sessionId: string)

  datatype Session = Session(
    cwd: Option<string>,
    transcriptPath: Option<string>,
    source: Option<string>,
    endReason: Option<string>,
    turns: int,
    retains: int,
    chunkIndex: int,
    byteOffset: int,
    confirmedOffset: int,
    messagesSent: int,
    compactions: int,
    startedAt: int,
    lastSeenAt: int,
    endedAt: Option<int>)
  {
    /** Bytes handed over that are not known to be ingested. */
    function InflightBytes(): int { Max(byteOffset - confirmedOffset, 0) }
  }

  datatype SessionUpdate = SessionUpdate(
    cwd: Option<string>,
    transcriptPath: Option<string>,
    source: Option<string>,
    endReason: Option<string>,
    endedAt: Option<int>,
    turns: Option<int>,
    chunkIndex: Option<int>,
    byteOffset: Option<int>,
    confirmRange: Option<(int, int)>,
    confirmIfSettled: Option<int>,
    compactions: Option<int>,
    retainsDelta: int,
    messagesSentDelta: int)

  datatype Error = Invalid | NotFound

  type Rows = map<Key, Session>

  function Clamp(v: Option<int>): int {
    match v
    case Some(x) => Max(x, 0)
    case None => 0
  }

  function Coalesce<T>(first: Option<T>, second: Option<T>): Option<T> {
    if first.Some? then first else second
  }

  function ConfirmFrom(u: SessionUpdate): int {
    if u.confirmRange.Some? then Max(u.confirmRange.value.0, 0) else 0
  }

  function ConfirmTo(u: SessionUpdate): int {
    if u.confirmRange.Some? then Max(u.confirmRange.value.1, 0) else 0
  }

  /** The row a first write inserts. */
  function Inserted(u: SessionUpdate, now: int): Session {
    Session(
      u.cwd, u.transcriptPath, u.source, u.endReason,
      Clamp(u.turns), Max(u.retainsDelta, 0), Clamp(u.chunkIndex), Clamp(u.byteOffset),
      Max(Clamp(u.confirmIfSettled), if ConfirmFrom(u) == 0 then ConfirmTo(u) else 0),
      Max(u.messagesSentDelta, 0), Clamp(u.compactions), now, now, u.endedAt)
  }

  /** The row after a write on `row`. Both guards read the row as it was. */
  function Merged(row: Session, u: SessionUpdate, now: int): Session {
    Session(
      Coalesce(u.cwd, row.cwd),
      Coalesce(u.transcriptPath, row.transcriptPath),
      Coalesce(row.source, u.source),
      Coalesce(u.endReason, row.endReason),
      Max(row.turns, Clamp(u.turns)),
      row.retains + Max(u.retainsDelta, 0),
      Max(row.chunkIndex, Clamp(u.chunkIndex)),
      Max(row.byteOffset, Clamp(u.byteOffset)),
      Max(row.confirmedOffset,
          Max(if row.confirmedOffset >= ConfirmFrom(u) then ConfirmTo(u) else 0,
              if row.confirmedOffset >= row.byteOffset then Clamp(u.confirmIfSettled) else 0)),
      row.messagesSent + Max(u.messagesSentDelta, 0),
      Max(row.compactions, Clamp(u.compactions)),
      row.startedAt,
      now,
      Coalesce(u.endedAt, row.endedAt))
  }

  function Upserted(rows: Rows, key: Key, u: SessionUpdate, now: int): Rows {
    rows[key := if key in rows then Merged(rows[key], u, now) else Inserted(u, now)]
  }

  function Collected(rows: Rows, cutoff: int): Rows {
    map key | key in rows && rows[key].lastSeenAt >= cutoff :: rows[key]
  }

  class Store {
    var banks: set<string>
    var rows: Rows

    constructor (banks: set<string>)
      ensures this.banks == banks && rows == map[]
    {
      this.banks, rows := banks, map[];
    }

    /** Insert or merge, in one transaction; an error changes nothing. */
    method Upsert(key: Key, u: SessionUpdate, now: int) returns (r: Result<Session, Error>)
      modifies this`rows
      ensures r.Err? <==> |key.sessionId| == 0 || |key.sessionId| > MAX_SESSION_ID_BYTES || key.bankId !in banks
      ensures r == Err(NotFound) ==> 0 < |key.sessionId| <= MAX_SESSION_ID_BYTES
      ensures r.Err? ==> rows == old(rows)
      ensures r.Ok? ==> rows == Upserted(old(rows), key, u, now) && r.value == rows[key]
    {
      if |key.sessionId| == 0 || |key.sessionId| > MAX_SESSION_ID_BYTES {
        return Err(Invalid);
      }
      if key.bankId !in banks {
        return Err(NotFound);
      }
      if key !in rows {
        rows := rows[key := Inserted(u, now)];
      } else {
        rows := rows[key := Merged(rows[key], u, now)];
      }
      r := Ok(rows[key]);
    }

    /** Drops the rows last seen before `cutoff`. */
    method Gc(cutoff: int) returns (dropped: nat)
      modifies this`rows
      ensures rows == Collected(old(rows), cutoff)
      ensures forall key :: key in rows <==> key in old(rows) && old(rows)[key].lastSeenAt >= cutoff
      ensures forall key :: key in rows ==> rows[key] == old(rows)[key]
      ensures dropped == |old(rows)| - |rows|
    {
      var kept := map key | key in rows && rows[key].lastSeenAt >= cutoff :: rows[key];
      SubsetSize(kept.Keys, rows.Keys);
      dropped := |rows| - |kept|;
      rows := kept;
    }
  }

  // ---------- One write ----------

  /** No write moves a cursor or a count back, and the origin of a session is
      decided once. */
  lemma MergeIsMonotone(row: Session, u: SessionUpdate, now: int)
    ensures var after := Merged(row, u, now);
            && row.turns <= after.turns && row.retains <= after.retains && row.chunkIndex <= after.chunkIndex
            && row.byteOffset <= after.byteOffset && row.confirmedOffset <= after.confirmedOffset
            && row.messagesSent <= after.messagesSent && row.compactions <= after.compactions
            && (row.source.Some? ==> after.source == row.source)
            && after.startedAt == row.startedAt
  {}

  /** The row's cursors and the clamped confirms are such that the first of two
      equal writes opens a guard for the second: either the range settles the
      row and lets the other channel through, or the other channel lifts the
      cursor to where the range starts. */
  predicate OpensGuard(row: Session, u: SessionUpdate) {
    var start, end, settled := ConfirmFrom(u), ConfirmTo(u), Clamp(u.confirmIfSettled);
    || (start <= row.confirmedOffset < row.byteOffset && Max(row.byteOffset, Clamp(u.byteOffset)) <= end < settled)
    || (row.byteOffset <= row.confirmedOffset < start <= settled < end)
  }

  /** Repeating any write that adds nothing changes only `lastSeenAt`, unless
      its first application opens a guard; then the durable cursor moves. */
  lemma RepeatExactly(row: Session, u: SessionUpdate, now: int, later: int)
    requires u.retainsDelta <= 0 && u.messagesSentDelta <= 0
    requires 0 <= row.byteOffset && 0 <= row.confirmedOffset
    ensures Merged(Merged(row, u, now), u, later) == Merged(row, u, now).(lastSeenAt := later) <==> !OpensGuard(row, u)
    ensures OpensGuard(row, u) ==> u.confirmRange.Some? && u.confirmIfSettled.Some?
  {}

  /** So a write that uses at most one confirm channel may always be repeated. */
  lemma RepeatChangesNothing(row: Session, u: SessionUpdate, now: int, later: int)
    requires u.confirmRange.None? || u.confirmIfSettled.None?
    requires u.retainsDelta <= 0 && u.messagesSentDelta <= 0
    requires 0 <= row.byteOffset && 0 <= row.confirmedOffset
    ensures Merged(Merged(row, u, now), u, later) == Merged(row, u, now).(lastSeenAt := later)
  {
    hide Merged, OpensGuard;
    RepeatExactly(row, u, now, later);
  }

  /** A row and a write of the first kind. */
  lemma RepeatWithBothChannels(row: Session, u: SessionUpdate, now: int)
    requires row.byteOffset == 5 && row.confirmedOffset == 0 && u.byteOffset.None?
    requires u.confirmRange == Some((0, 5)) && u.confirmIfSettled == Some(9)
    ensures OpensGuard(row, u)
    ensures Merged(row, u, now).confirmedOffset == 5
    ensures Merged(Merged(row, u, now), u, now).confirmedOffset == 9
  {
    var once := Merged(row, u, now);
    assert once.confirmedOffset == 5 && once.byteOffset == 5;
  }

  function NoUpdate(): SessionUpdate {
    SessionUpdate(None, None, None, None, None, None, None, None, None, None, None, 0, 0)
  }

  // ---------- Whole runs ----------

  /** What happens to a session. */
  datatype Event =
    /** `POST …/sessions`: the hook reports where it is. */
    | Report(key: Key, at: nat)
    /** A retain request for the bytes `[start, end)`: queued, or settled on
        the spot because it was skipped or a duplicate. */
    | Accept(key: Key, start: nat, end: nat, onTheSpot: bool)
    /** A clean worker run over the bytes it was queued with. */
    | Clean(key: Key, start: nat, end: nat)

  function UpdateOf(e: Event): SessionUpdate {
    match e
    case Report(_, at) => NoUpdate().(byteOffset := Some(at))
    case Accept(_, _, end, onTheSpot) =>
      NoUpdate().(byteOffset := Some(end),
                  confirmIfSettled := if onTheSpot then Some(end) else None,
                  retainsDelta := 1)
    case Clean(_, start, end) => NoUpdate().(confirmRange := Some((start, end)))
  }

  function ByteOffset(rows: Rows, key: Key): int { if key in rows then rows[key].byteOffset else 0 }

  function ConfirmedOffset(rows: Rows, key: Key): int { if key in rows then rows[key].confirmedOffset else 0 }

  /** A retain starts at or before what the mirror has seen, and only what was
      queued is run. */
  predicate Enabled(rows: Rows, past: seq<Event>, e: Event) {
    match e
    case Report(_, _) => true
    case Accept(key, start, end, _) => start <= end && start <= ByteOffset(rows, key)
    case Clean(key, start, end) => Accept(key, start, end, false) in past
  }

  /** The table after a run from an empty one. The clock reads anything. */
  function After(run: seq<Event>, clock: nat -> int): Rows {
    if run == [] then map[]
    else Upserted(After(run[..|run| - 1], clock), run[|run| - 1].key, UpdateOf(run[|run| - 1]), clock(|run| - 1))
  }

  predicate IsRun(run: seq<Event>, clock: nat -> int) {
    run == []
    || (IsRun(run[..|run| - 1], clock) && Enabled(After(run[..|run| - 1], clock), run[..|run| - 1], run[|run| - 1]))
  }

  /** The byte at `b` lies in a range whose outcome is known: skipped, a
      duplicate, or cleanly ingested. */
  ghost predicate Settled(run: seq<Event>, key: Key, b: int) {
    exists k :: 0 <= k < |run| && Settles(run[k], key, b)
  }

  predicate Settles(e: Event, key: Key, b: int) {
    !e.Report? && e.key == key && e.start <= b < e.end && (e.Accept? ==> e.onTheSpot)
  }

  ghost predicate Posted(run: seq<Event>, key: Key, b: int) {
    exists k :: 0 <= k < |run| && run[k].Accept? && run[k].key == key && run[k].start <= b < run[k].end
  }

  /** What every run keeps, for one session. */
  ghost predicate Safe(rows: Rows, run: seq<Event>, key: Key) {
    && 0 <= ConfirmedOffset(rows, key) <= ByteOffset(rows, key)
    && (forall k :: 0 <= k < |run| && run[k].Accept? && run[k].key == key ==> run[k].end <= ByteOffset(rows, key))
    && (forall b :: 0 <= b < ConfirmedOffset(rows, key) ==> Settled(run, key, b))
  }

  lemma StepIsSafe(rows: Rows, run: seq<Event>, e: Event, now: int, key: Key)
    requires Safe(rows, run, key) && Enabled(rows, run, e)
    ensures Safe(Upserted(rows, e.key, UpdateOf(e), now), run + [e], key)
  {
    var after := Upserted(rows, e.key, UpdateOf(e), now);
    hide Settles;
    forall b | 0 <= b < ConfirmedOffset(after, key)
      ensures Settled(run + [e], key, b)
    {
      if b < ConfirmedOffset(rows, key) {
        assert Settled(run, key, b);
        var k :| 0 <= k < |run| && Settles(run[k], key, b);
        assert Settles((run + [e])[k], key, b);
      } else {
        NewlyConfirmed(rows, e, now, key, b);
        assert Settles((run + [e])[|run|], key, b);
      }
    }
  }

  /** A confirm covers every byte it moves the durable cursor over. */
  lemma NewlyConfirmed(rows: Rows, e: Event, now: int, key: Key, b: int)
    requires 0 <= ConfirmedOffset(rows, key) <= ByteOffset(rows, key)
    requires e.Accept? ==> e.start <= ByteOffset(rows, e.key)
    requires ConfirmedOffset(rows, key) <= b < ConfirmedOffset(Upserted(rows, e.key, UpdateOf(e), now), key)
    ensures Settles(e, key, b)
  {}

  /** Over every run of accepts, clean runs, repeats and reorderings, each byte
      below the durable cursor is settled, and that cursor never passes the
      optimistic one. */
  lemma {:induction false} EveryRunIsSafe(run: seq<Event>, clock: nat -> int, key: Key)
    requires IsRun(run, clock)
    ensures Safe(After(run, clock), run, key)
    decreases |run|
  {
    hide Safe, Enabled, Upserted;
    if run == [] {
      EmptyIsSafe(clock, key);
    } else {
      var before, e := run[..|run| - 1], run[|run| - 1];
      EveryRunIsSafe(before, clock, key);
      StepIsSafe(After(before, clock), before, e, clock(|run| - 1), key);
      assert run == before + [e];
    }
  }

  lemma EmptyIsSafe(clock: nat -> int, key: Key)
    ensures Safe(After([], clock), [], key)
  {}

  /** The number an operator watches never reads zero over lost bytes: while a
      posted byte is unsettled, it lies in the in-flight window. */
  lemma InflightShowsLoss(run: seq<Event>, clock: nat -> int, key: Key, b: int)
    requires IsRun(run, clock) && Posted(run, key, b) && !Settled(run, key, b)
    ensures key in After(run, clock)
    ensures var row := After(run, clock)[key];
            row.confirmedOffset <= b < row.byteOffset && row.InflightBytes() == row.byteOffset - row.confirmedOffset > 0
  {
    hide After, IsRun, Settled;
    EveryRunIsSafe(run, clock, key);
    var k :| 0 <= k < |run| && run[k].Accept? && run[k].key == key && run[k].start <= b < run[k].end;
    PostedHasRow(run, clock, key, k);
  }

  /** A session that has posted has a row. */
  lemma {:induction false} PostedHasRow(run: seq<Event>, clock: nat -> int, key: Key, k: nat)
    requires k < |run| && run[k].key == key
    ensures key in After(run, clock)
    decreases |run|
  {
    hide Inserted, Merged;
    if k == |run| - 1 {
    } else {
      PostedHasRow(run[..|run| - 1], clock, key, k);
    }
  }

  // ---------- Recovery ----------

  /** The local state rebuilt from the mirror after its file was lost. */
  datatype SessionState = SessionState(offset: nat, chunk: nat)

  function Recovered(confirmedOffset: nat, chunk: nat): SessionState {
    SessionState(confirmedOffset, chunk)
  }

  /** A rebuilt hook reads on from its offset: no unsettled byte is skipped. */
  lemma RecoverySkipsNothing(run: seq<Event>, clock: nat -> int, key: Key, chunk: nat)
    requires IsRun(run, clock) && key in After(run, clock)
    ensures var row := After(run, clock)[key];
            && 0 <= row.confirmedOffset
            && forall b :: 0 <= b && !Settled(run, key, b) ==> Recovered(row.confirmedOffset, chunk).offset <= b
  {
    hide After, IsRun, Settled;
    EveryRunIsSafe(run, clock, key);
  }

  /** Seeded from the optimistic cursor instead, it reads past every posted
      byte, settled or not. */
  lemma OptimisticSeedPassesPosted(run: seq<Event>, clock: nat -> int, key: Key, chunk: nat, b: int)
    requires IsRun(run, clock) && Posted(run, key, b)
    ensures key in After(run, clock) && 0 <= After(run, clock)[key].byteOffset
    ensures b < Recovered(After(run, clock)[key].byteOffset, chunk).offset
  {
    hide After, IsRun, Settled;
    EveryRunIsSafe(run, clock, key);
    var k :| 0 <= k < |run| && run[k].Accept? && run[k].key == key && run[k].start <= b < run[k].end;
    PostedHasRow(run, clock, key, k);
  }

  /** So one queued range is skipped whole, whatever its length. */
  lemma OptimisticSeedSkips(key: Key, clock: nat -> int, end: nat, chunk: nat)
    ensures var run := [Accept(key, 0, end, false)];
            && IsRun(run, clock)
            && key in After(run, clock) && After(run, clock)[key].byteOffset == end
            && Recovered(After(run, clock)[key].byteOffset, chunk).offset == end
            && forall b :: 0 <= b < end ==> Posted(run, key, b) && !Settled(run, key, b)
  {
    var e := Accept(key, 0, end, false);
    var run := [e];
    assert run[..|run| - 1] == [] && run[|run| - 1] == e;
    assert After(run[..|run| - 1], clock) == map[];
    assert IsRun(run[..|run| - 1], clock) && Enabled(After(run[..|run| - 1], clock), run[..|run| - 1], run[|run| - 1]);
    forall b | 0 <= b < end
      ensures Posted(run, key, b)
    {
      assert run[0].Accept?;
    }
  }

  // ---------- Outside the assumptions ----------

  /** When a clean run keeps the cursors in order: on a row exactly when its
      range was mirrored or is held back by the guard, and without a row only
      when the range starts past zero or is empty. */
  lemma CleanKeepsOrder(rows: Rows, key: Key, start: nat, end: nat, now: int)
    requires 0 <= ConfirmedOffset(rows, key) <= ByteOffset(rows, key)
    ensures var after := Upserted(rows, key, UpdateOf(Clean(key, start, end)), now);
            ConfirmedOffset(after, key) <= ByteOffset(after, key)
            <==> end <= ByteOffset(rows, key) || ConfirmedOffset(rows, key) < start
  {}

  /** Collecting keeps what every run keeps exactly when the session has been
      seen since the cutoff, has no row, or has posted nothing. */
  lemma GcKeepsSafety(rows: Rows, run: seq<Event>, key: Key, cutoff: int)
    requires Safe(rows, run, key)
    ensures Safe(Collected(rows, cutoff), run, key)
            <==> key !in rows || rows[key].lastSeenAt >= cutoff
                 || forall k :: 0 <= k < |run| && run[k].Accept? && run[k].key == key ==> run[k].end == 0
  {}

  /** A session queued, collected and then cleanly run: whatever the table held,
      the in-flight number reads zero and nothing is mirrored, and the cursors
      are inverted exactly when the range starts at zero and is not empty. */
  lemma GcInvertsCursors(rows: Rows, key: Key, start: nat, end: nat, queuedAt: int, cutoff: int, cleanAt: int)
    requires queuedAt < cutoff
    ensures
      var queued := Upserted(rows, key, UpdateOf(Accept(key, start, end, false)), queuedAt);
      var collected := Collected(queued, cutoff);
      var after := Upserted(collected, key, UpdateOf(Clean(key, start, end)), cleanAt);
      && key !in collected && after[key].byteOffset == 0 && after[key].InflightBytes() == 0
      && (after[key].confirmedOffset > after[key].byteOffset <==> start == 0 && end > 0)
      && (start == 0 ==> after[key].confirmedOffset == end)
  {}

  // ---------- The range guard on its own ----------

  datatype Range = Range(start: nat, end: nat)

  /** The durable cursor after one clean range. */
  function Advance(cursor: nat, r: Range): nat {
    if cursor >= r.start && r.end > cursor then r.end else cursor
  }

  /** It is what the table does with a clean run. */
  lemma AdvanceIsUpsert(rows: Rows, key: Key, r: Range, now: int)
    requires key in rows && rows[key].confirmedOffset >= 0
    ensures Upserted(rows, key, UpdateOf(Clean(key, r.start, r.end)), now)[key].confirmedOffset
            == Advance(rows[key].confirmedOffset, r)
  {}

  predicate Covers(ranges: seq<Range>, b: nat) {
    exists k :: 0 <= k < |ranges| && ranges[k].start <= b < ranges[k].end
  }

  /** Which range is applied when, with repeats. */
  function Applied(ranges: seq<Range>, order: seq<nat>, cursor: nat): nat
    requires forall k :: 0 <= k < |order| ==> order[k] < |ranges|
  {
    if order == [] then cursor
    else Advance(Applied(ranges, order[..|order| - 1], cursor), ranges[order[|order| - 1]])
  }

  predicate Stable(ranges: seq<Range>, cursor: nat) {
    forall k :: 0 <= k < |ranges| ==> Advance(cursor, ranges[k]) == cursor
  }

  /** Nothing below `at` is uncovered, from `cursor` on. */
  ghost predicate AllCovered(ranges: seq<Range>, cursor: nat, at: nat) {
    cursor <= at && forall b :: cursor <= b < at ==> Covers(ranges, b)
  }

  /** No order of application moves the cursor past an uncovered byte, or over
      one. */
  lemma {:induction false} NeverPastAGap(ranges: seq<Range>, order: seq<nat>, cursor: nat)
    requires forall k :: 0 <= k < |order| ==> order[k] < |ranges|
    ensures AllCovered(ranges, cursor, Applied(ranges, order, cursor))
    decreases |order|
  {
    if order == [] {
    } else {
      NeverPastAGap(ranges, order[..|order| - 1], cursor);
      var mid := Applied(ranges, order[..|order| - 1], cursor);
      var r := ranges[order[|order| - 1]];
      forall b | cursor <= b < Advance(mid, r)
        ensures Covers(ranges, b)
      {
        assert b >= mid ==> r.start <= b < r.end;
      }
    }
  }

  /** The cursor rests exactly on an uncovered byte. */
  lemma StableIsUncovered(ranges: seq<Range>, cursor: nat)
    ensures Stable(ranges, cursor) <==> !Covers(ranges, cursor)
  {
    if !Stable(ranges, cursor) {
      var k :| 0 <= k < |ranges| && Advance(cursor, ranges[k]) != cursor;
      assert ranges[k].start <= cursor < ranges[k].end;
    }
  }

  /** Whatever the order and the repeats, the cursor ends at the least byte
      that no range covers, so the order did not matter. */
  lemma OrderIsIrrelevant(ranges: seq<Range>, order: seq<nat>, cursor: nat, gap: nat)
    requires forall k :: 0 <= k < |order| ==> order[k] < |ranges|
    requires AllCovered(ranges, cursor, gap) && !Covers(ranges, gap)
    ensures Applied(ranges, order, cursor) <= gap
    ensures Applied(ranges, order, cursor) == gap <==> Stable(ranges, Applied(ranges, order, cursor))
  {
    hide Applied, Stable, Covers;
    NeverPastAGap(ranges, order, cursor);
    StableIsUncovered(ranges, Applied(ranges, order, cursor));
  }

  /** How many ranges still end beyond the cursor. */
  function Beyond(ranges: seq<Range>, cursor: nat): nat {
    if ranges == [] then 0
    else Beyond(ranges[..|ranges| - 1], cursor) + if ranges[|ranges| - 1].end > cursor then 1 else 0
  }

  lemma {:induction false} BeyondFalls(ranges: seq<Range>, cursor: nat, later: nat)
    requires cursor <= later
    ensures Beyond(ranges, later) <= Beyond(ranges, cursor)
    ensures (exists k :: 0 <= k < |ranges| && cursor < ranges[k].end <= later) ==>
      Beyond(ranges, later) < Beyond(ranges, cursor)
    decreases |ranges|
  {
    if ranges == [] {
    } else {
      BeyondFalls(ranges[..|ranges| - 1], cursor, later);
      if exists k :: 0 <= k < |ranges| && cursor < ranges[k].end <= later {
        var k :| 0 <= k < |ranges| && cursor < ranges[k].end <= later;
        assert k < |ranges| - 1 ==> ranges[..|ranges| - 1][k].end == ranges[k].end;
      }
    }
  }

  /** Applying until nothing changes ends: each change uses up a range. */
  lemma {:induction false} Settle(ranges: seq<Range>, cursor: nat) returns (order: seq<nat>)
    ensures forall k :: 0 <= k < |order| ==> order[k] < |ranges|
    ensures |order| <= Beyond(ranges, cursor)
    ensures Stable(ranges, Applied(ranges, order, cursor))
    decreases Beyond(ranges, cursor)
  {
    order := [];
    if Stable(ranges, cursor) {
    } else {
      var k :| 0 <= k < |ranges| && Advance(cursor, ranges[k]) != cursor;
      var next := Advance(cursor, ranges[k]);
      BeyondFalls(ranges, cursor, next);
      var rest := Settle(ranges, next);
      order := [k] + rest;
      AppliedFirst(ranges, k, rest, cursor);
    }
  }

  lemma {:induction false} AppliedFirst(ranges: seq<Range>, first: nat, rest: seq<nat>, cursor: nat)
    requires first < |ranges| && forall k :: 0 <= k < |rest| ==> rest[k] < |ranges|
    ensures Applied(ranges, [first] + rest, cursor) == Applied(ranges, rest, Advance(cursor, ranges[first]))
    decreases |rest|
  {
    var order := [first] + rest;
    if rest == [] {
      assert order == [first] && order[..0] == [];
    } else {
      AppliedFirst(ranges, first, rest[..|rest| - 1], cursor);
      assert order[..|order| - 1] == [first] + rest[..|rest| - 1];
    }
  }
}
