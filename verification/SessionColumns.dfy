/**
 What one write does to each column of a session, an absent row counting as one
 of zeros; and the sessions whose bytes are all settled on the spot.
 */
module SessionColumns {
  import opened Common
  import opened Wrappers
  import opened Sessions

  /** A session that nothing is known of yet, first seen now. */
  function Unseen(now: int): Session {
    Session(None, None, None, None, 0, 0, 0, 0, 0, 0, 0, now, now, None)
  }

  function RowOf(rows: Rows, key: Key, now: int): Session { if key in rows then rows[key] else Unseen(now) }

  predicate NonNegative(row: Session) {
    && 0 <= row.turns && 0 <= row.retains && 0 <= row.chunkIndex && 0 <= row.byteOffset && 0 <= row.confirmedOffset
    && 0 <= row.messagesSent && 0 <= row.compactions
  }

  /** The least value that is no less than what was there and what is given. */
  predicate RaisedTo(was: int, given: Option<int>, after: int) {
    && was <= after && (given.Some? ==> given.value <= after)
    && (after == was || (given.Some? && after == given.value))
  }

  /** A delta is added, unless it is negative. */
  predicate IncreasedBy(was: int, delta: int, after: int) {
    if delta > 0 then after - was == delta else after == was
  }

  predicate LastWins<T(==)>(was: Option<T>, given: Option<T>, after: Option<T>) {
    if given.Some? then after == given else after == was
  }

  /** Each column after a write, against what was there and what is given. */
  lemma EachColumn(rows: Rows, key: Key, u: SessionUpdate, now: int)
    requires key in rows ==> NonNegative(rows[key])
    ensures
      var was, after := RowOf(rows, key, now), Upserted(rows, key, u, now)[key];
      && LastWins(was.cwd, u.cwd, after.cwd) && LastWins(was.transcriptPath, u.transcriptPath, after.transcriptPath)
      && LastWins(was.endReason, u.endReason, after.endReason) && LastWins(was.endedAt, u.endedAt, after.endedAt)
      && LastWins(u.source, was.source, after.source)
      && RaisedTo(was.turns, u.turns, after.turns) && RaisedTo(was.chunkIndex, u.chunkIndex, after.chunkIndex)
      && RaisedTo(was.byteOffset, u.byteOffset, after.byteOffset) && RaisedTo(was.compactions, u.compactions, after.compactions)
      && IncreasedBy(was.retains, u.retainsDelta, after.retains)
      && IncreasedBy(was.messagesSent, u.messagesSentDelta, after.messagesSent)
      && after.startedAt == was.startedAt && after.lastSeenAt == now
      && NonNegative(after)
    ensures forall other :: other != key ==>
      (other in Upserted(rows, key, u, now) <==> other in rows)
      && (other in rows ==> Upserted(rows, key, u, now)[other] == rows[other])
  {}

  /** A value for the durable cursor is admitted by a range whose start the cursor
      has reached, or, on the spot, by a row without an open gap. */
  predicate Admitted(was: Session, u: SessionUpdate, v: int) {
    || (u.confirmRange.Some? && v == u.confirmRange.value.1 && u.confirmRange.value.0 <= was.confirmedOffset)
    || (u.confirmIfSettled == Some(v) && was.byteOffset <= was.confirmedOffset)
  }

  /** The durable cursor moves to the highest value that is admitted, if that is
      ahead of it, and stays otherwise. */
  lemma ConfirmedExactly(rows: Rows, key: Key, u: SessionUpdate, now: int, v: int)
    requires key in rows ==> NonNegative(rows[key])
    ensures
      var was, after := RowOf(rows, key, now), Upserted(rows, key, u, now)[key];
      && was.confirmedOffset <= after.confirmedOffset
      && (Admitted(was, u, v) ==> v <= after.confirmedOffset)
      && (after.confirmedOffset == was.confirmedOffset || Admitted(was, u, after.confirmedOffset))
  {}

  // ---------- The events of a session ----------

  /** Settled on the spot: the cursor goes to the end of the range, unless it is
      there or a gap is open. */
  lemma AcceptOnTheSpot(rows: Rows, key: Key, start: nat, end: nat, now: int)
    requires 0 <= ConfirmedOffset(rows, key)
    ensures
      var after := Upserted(rows, key, UpdateOf(Accept(key, start, end, true)), now);
      && ConfirmedOffset(after, key) ==
         (if ConfirmedOffset(rows, key) >= ByteOffset(rows, key) then Max(ConfirmedOffset(rows, key), end) else ConfirmedOffset(rows, key))
      && (0 <= ByteOffset(rows, key) ==> ByteOffset(after, key) == Max(ByteOffset(rows, key), end))
  {}

  /** Queued: only the optimistic cursor moves. */
  lemma AcceptQueued(rows: Rows, key: Key, start: nat, end: nat, now: int)
    requires 0 <= ConfirmedOffset(rows, key) && 0 <= ByteOffset(rows, key)
    ensures
      var after := Upserted(rows, key, UpdateOf(Accept(key, start, end, false)), now);
      ConfirmedOffset(after, key) == ConfirmedOffset(rows, key) && ByteOffset(after, key) == Max(ByteOffset(rows, key), end)
  {}

  /** A clean run: the range guard, also where there is no row. */
  lemma CleanAdvances(rows: Rows, key: Key, start: nat, end: nat, now: int)
    requires 0 <= ConfirmedOffset(rows, key) && 0 <= ByteOffset(rows, key)
    ensures
      var after := Upserted(rows, key, UpdateOf(Clean(key, start, end)), now);
      && ConfirmedOffset(after, key) == Advance(ConfirmedOffset(rows, key), Range(start, end))
      && ByteOffset(after, key) == ByteOffset(rows, key)
  {}

  lemma ReportRaises(rows: Rows, key: Key, at: nat, now: int)
    requires 0 <= ConfirmedOffset(rows, key) && 0 <= ByteOffset(rows, key)
    ensures
      var after := Upserted(rows, key, UpdateOf(Report(key, at)), now);
      ConfirmedOffset(after, key) == ConfirmedOffset(rows, key) && ByteOffset(after, key) == Max(ByteOffset(rows, key), at)
  {}

  lemma OtherKey(rows: Rows, e: Event, key: Key, now: int)
    requires e.key != key
    ensures
      var after := Upserted(rows, e.key, UpdateOf(e), now);
      ConfirmedOffset(after, key) == ConfirmedOffset(rows, key) && ByteOffset(after, key) == ByteOffset(rows, key)
  {}

  // ---------- Sessions settled on the spot ----------

  /** Every range of the session is settled on the spot, and no report passes the
      ranges before it. */
  ghost predicate NothingQueued(run: seq<Event>, key: Key) {
    && (forall k :: 0 <= k < |run| && run[k].Accept? && run[k].key == key ==> run[k].onTheSpot)
    && (forall k :: 0 <= k < |run| && run[k].Report? && run[k].key == key ==> ReportedBefore(run, key, k))
  }

  ghost predicate ReportedBefore(run: seq<Event>, key: Key, k: nat)
    requires k < |run| && run[k].Report?
  {
    run[k].at == 0 || exists m :: 0 <= m < k && run[m].Accept? && run[m].key == key && run[k].at <= run[m].end
  }

  lemma NothingQueuedBefore(run: seq<Event>, key: Key)
    requires run != [] && NothingQueued(run, key)
    ensures NothingQueued(run[..|run| - 1], key)
  {
    var before := run[..|run| - 1];
    forall k | 0 <= k < |before| && before[k].Report? && before[k].key == key ensures ReportedBefore(before, key, k) {
      assert ReportedBefore(run, key, k);
      if run[k].at != 0 {
        var m :| 0 <= m < k && run[m].Accept? && run[m].key == key && run[k].at <= run[m].end;
        assert before[m] == run[m];
      }
    }
  }

  /** Such a session never has a byte in flight. */
  lemma {:induction false} NothingInFlight(run: seq<Event>, clock: nat -> int, key: Key)
    requires IsRun(run, clock) && NothingQueued(run, key)
    ensures ConfirmedOffset(After(run, clock), key) == ByteOffset(After(run, clock), key)
    ensures key in After(run, clock) ==> After(run, clock)[key].InflightBytes() == 0
    decreases |run|
  {
    hide Upserted, Safe, Enabled;
    if run == [] {
    } else {
      var n := |run| - 1;
      var e := run[n];
      var rows := After(run[..n], clock);
      NothingQueuedBefore(run, key);
      NothingInFlight(run[..n], clock, key);
      EveryRunIsSafe(run[..n], clock, key);
      SafeCursors(rows, run[..n], key);
      if e.key != key {
        OtherKey(rows, e, key, clock(n));
      } else {
        match e
        case Report(_, at) =>
          ReportRaises(rows, key, at, clock(n));
          ReportIsBehind(rows, run, key);
        case Accept(_, start, end, _) => AcceptOnTheSpot(rows, key, start, end, clock(n));
        case Clean(_, start, end) => CleanWasQueued(rows, run, key, start, end);
      }
    }
  }

  lemma SafeCursors(rows: Rows, run: seq<Event>, key: Key)
    requires Safe(rows, run, key)
    ensures 0 <= ConfirmedOffset(rows, key) <= ByteOffset(rows, key)
  {}

  lemma ReportIsBehind(rows: Rows, run: seq<Event>, key: Key)
    requires run != [] && run[|run| - 1].Report? && run[|run| - 1].key == key && NothingQueued(run, key)
    requires Safe(rows, run[..|run| - 1], key)
    ensures run[|run| - 1].at <= ByteOffset(rows, key)
  {
    var n := |run| - 1;
    assert ReportedBefore(run, key, n);
    if run[n].at != 0 {
      var m :| 0 <= m < n && run[m].Accept? && run[m].key == key && run[n].at <= run[m].end;
      assert run[..n][m] == run[m];
    }
  }

  /** A clean run needs a queued range. */
  lemma CleanWasQueued(rows: Rows, run: seq<Event>, key: Key, start: nat, end: nat)
    requires run != [] && run[|run| - 1] == Clean(key, start, end)
    requires Enabled(rows, run[..|run| - 1], run[|run| - 1])
    ensures !NothingQueued(run, key)
  {
    var n := |run| - 1;
    var m :| 0 <= m < n && run[..n][m] == Accept(key, start, end, false);
    assert run[m] == Accept(key, start, end, false);
  }

  // ---------- Queued and cleanly run ----------

  /** A session whose ranges are queued one behind the other. */
  function Queue(key: Key, ends: seq<nat>): seq<Event> {
    if ends == [] then []
    else Queue(key, ends[..|ends| - 1]) + [Accept(key, LastOf(ends[..|ends| - 1]), ends[|ends| - 1], false)]
  }

  function LastOf(ends: seq<nat>): nat { if ends == [] then 0 else ends[|ends| - 1] }

  /** Each of them run cleanly, in the order of the queue. */
  function Drain(key: Key, ends: seq<nat>): seq<Event> {
    if ends == [] then []
    else Drain(key, ends[..|ends| - 1]) + [Clean(key, LastOf(ends[..|ends| - 1]), ends[|ends| - 1])]
  }

  predicate Rises(ends: seq<nat>) { forall i, j :: 0 <= i <= j < |ends| ==> ends[i] <= ends[j] }

  lemma {:induction false} Queued(key: Key, ends: seq<nat>, clock: nat -> int)
    requires Rises(ends)
    ensures
      var run := Queue(key, ends);
      && IsRun(run, clock) && ByteOffset(After(run, clock), key) == LastOf(ends) && ConfirmedOffset(After(run, clock), key) == 0
      && (forall k :: 0 <= k < |ends| ==> Accept(key, LastOf(ends[..k]), ends[k], false) in run)
    decreases |ends|
  {
    hide Upserted;
    if ends == [] {
    } else {
      var n := |ends| - 1;
      Queued(key, ends[..n], clock);
      var before, run := Queue(key, ends[..n]), Queue(key, ends);
      assert run[..|run| - 1] == before;
      AcceptQueued(After(before, clock), key, LastOf(ends[..n]), ends[n], clock(|before|));
      forall k | 0 <= k < |ends| ensures Accept(key, LastOf(ends[..k]), ends[k], false) in run {
        if k < n {
          assert ends[..n][..k] == ends[..k];
        }
      }
    }
  }

  /** Each clean run in the order of the queue moves the durable cursor to its
      end. */
  lemma {:induction false} DrainedSoFar(key: Key, ends: seq<nat>, m: nat, clock: nat -> int)
    requires Rises(ends) && m <= |ends|
    ensures
      var run := Queue(key, ends) + Drain(key, ends[..m]);
      && IsRun(run, clock) && ByteOffset(After(run, clock), key) == LastOf(ends)
      && ConfirmedOffset(After(run, clock), key) == LastOf(ends[..m])
    decreases m
  {
    hide Upserted, Queue, Rises;
    Queued(key, ends, clock);
    if m == 0 {
      assert Queue(key, ends) + [] == Queue(key, ends);
    } else {
      DrainedSoFar(key, ends, m - 1, clock);
      var before := Queue(key, ends) + Drain(key, ends[..m - 1]);
      var e := Clean(key, LastOf(ends[..m - 1]), ends[m - 1]);
      DrainsOne(key, ends, m);
      AfterOne(before, e, clock);
      InRises(ends, m);
      assert Accept(key, LastOf(ends[..m - 1]), ends[m - 1], false) in before;
      CleanAdvances(After(before, clock), key, LastOf(ends[..m - 1]), ends[m - 1], clock(|before|));
    }
  }

  lemma DrainsOne(key: Key, ends: seq<nat>, m: nat)
    requires 0 < m <= |ends|
    ensures Queue(key, ends) + Drain(key, ends[..m]) ==
            (Queue(key, ends) + Drain(key, ends[..m - 1])) + [Clean(key, LastOf(ends[..m - 1]), ends[m - 1])]
  {
    hide Queue;
    assert ends[..m][..m - 1] == ends[..m - 1];
  }

  lemma AfterOne(before: seq<Event>, e: Event, clock: nat -> int)
    ensures After(before + [e], clock) == Upserted(After(before, clock), e.key, UpdateOf(e), clock(|before|))
    ensures IsRun(before + [e], clock) <==> IsRun(before, clock) && Enabled(After(before, clock), before, e)
  {
    hide Upserted, Enabled;
    assert (before + [e])[..|before|] == before;
  }

  lemma InRises(ends: seq<nat>, m: nat)
    requires Rises(ends) && 0 < m <= |ends|
    ensures LastOf(ends[..m - 1]) <= ends[m - 1] && LastOf(ends[..m]) == ends[m - 1]
  {}

  /** When every queued range has been run in order, nothing is in flight. */
  lemma DrainedInOrder(key: Key, ends: seq<nat>, clock: nat -> int)
    requires Rises(ends) && ends != []
    ensures
      var run := Queue(key, ends) + Drain(key, ends);
      IsRun(run, clock) && key in After(run, clock) && After(run, clock)[key].InflightBytes() == 0
  {
    hide After, IsRun, Queue, Rises;
    DrainedSoFar(key, ends, |ends|, clock);
    assert ends[..|ends|] == ends;
    var run := Queue(key, ends) + Drain(key, ends);
    var last := Clean(key, LastOf(ends[..|ends| - 1]), ends[|ends| - 1]);
    assert Drain(key, ends)[|Drain(key, ends)| - 1] == last;
    assert run[|run| - 1] == last;
    PostedHasRow(run, clock, key, |run| - 1);
  }
}
