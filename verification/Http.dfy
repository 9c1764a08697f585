/**
 The client's response reader: head to the first blank line, then exactly the
 declared length, whatever pieces the socket delivers. One character per byte;
 no read times out.
 */
module Http {
  import opened Wrappers

  const MAX_HEAD_BYTES: nat := 16 * 1024
  const CHUNK: nat := 2048

  datatype Error = HeadTooLong | HeadClosed | BadHead | BodyClosed(got: nat, want: nat)

  datatype Response = Response(status: nat, body: string)

  // ---------- The head ----------

  predicate BlankAt(s: string, i: nat) {
    i + 4 <= |s| && s[i] == '\r' && s[i + 1] == '\n' && s[i + 2] == '\r' && s[i + 3] == '\n'
  }

  function BlankFrom(s: string, i: nat): (r: Option<nat>)
    ensures r.Some? ==> i <= r.value && BlankAt(s, r.value) && forall k :: i <= k < r.value ==> !BlankAt(s, k)
    ensures r.None? ==> forall k :: i <= k ==> !BlankAt(s, k)
    decreases if i <= |s| then |s| - i else 0
  {
    if i + 4 > |s| then None else if BlankAt(s, i) then Some(i) else BlankFrom(s, i + 1)
  }

  /** Where the head ends: at the first CR LF CR LF. */
  function FindHeadEnd(s: string): (r: Option<nat>)
    ensures r.Some? ==> BlankAt(s, r.value) && forall k :: 0 <= k < r.value ==> !BlankAt(s, k)
    ensures r.None? ==> forall k :: 0 <= k ==> !BlankAt(s, k)
  {
    BlankFrom(s, 0)
  }

  /** A prefix shows the end of the head once it holds the blank line. */
  lemma HeadEndInPrefix(s: string, n: nat)
    requires n <= |s|
    ensures FindHeadEnd(s[..n])
            == if FindHeadEnd(s).Some? && FindHeadEnd(s).value + 4 <= n then FindHeadEnd(s) else None
  {
    var whole, part := FindHeadEnd(s), FindHeadEnd(s[..n]);
    if part.Some? {
      assert BlankAt(s, part.value);
      forall k | 0 <= k < part.value
        ensures !BlankAt(s, k)
      {
        assert !BlankAt(s[..n], k);
      }
    } else if whole.Some? && whole.value + 4 <= n {
      assert BlankAt(s[..n], whole.value);
    }
  }

  // ---------- Reading in pieces ----------

  /** How the socket cuts: the `k`-th read delivers `cut(k)` bytes, at least
      one, at most what is asked for and what is there. */
  type Cuts = nat -> nat

  function Delivered(wanted: nat, limit: nat, left: nat): (n: nat)
    requires limit > 0 && left > 0
    ensures 1 <= n <= limit && n <= left
  {
    var n := if wanted < 1 then 1 else wanted;
    if n <= limit && n <= left then n else if limit < left then limit else left
  }

  /** How far the stream has been read when the head is complete, and with
      how many turn. */
  function HeadLoop(s: string, cut: Cuts, k: nat, read: nat): (r: Result<(nat, nat), Error>)
    requires read <= |s|
    ensures r.Ok? ==> read <= r.value.0 <= |s| && FindHeadEnd(s[..r.value.0]).Some?
    decreases |s| - read
  {
    if FindHeadEnd(s[..read]).Some? then Ok((read, k))
    else if read > MAX_HEAD_BYTES then Err(HeadTooLong)
    else if read == |s| then Err(HeadClosed)
    else HeadLoop(s, cut, k + 1, read + Delivered(cut(k), CHUNK, |s| - read))
  }

  /** How far it has been read when the body ends at `end`, or was cut off. */
  function BodyLoop(s: string, cut: Cuts, k: nat, read: nat, end: nat): (r: nat)
    requires read <= |s|
    ensures read <= r <= |s|
    decreases |s| - read
  {
    if read >= end || read == |s| then read
    else BodyLoop(s, cut, k + 1, read + Delivered(cut(k), if end - read < CHUNK then end - read else CHUNK, |s| - read), end)
  }

  /** The answer of one way of cutting. */
  function Respond(s: string, cut: Cuts, parse: string -> Option<(nat, nat)>): Result<Response, Error> {
    match HeadLoop(s, cut, 0, 0)
    case Err(e) => Err(e)
    case Ok((read, k)) =>
      var i := FindHeadEnd(s[..read]).value;
      match parse(s[..i])
      case None => Err(BadHead)
      case Some((status, length)) =>
        var end := i + 4 + length;
        var got := BodyLoop(s, cut, k, read, end);
        if got < end then Err(BodyClosed(got - i - 4, length)) else Ok(Response(status, s[i + 4..end]))
  }

  /** What the bytes say once the head has been found at `i`. */
  function AnswerAt(s: string, i: nat, parse: string -> Option<(nat, nat)>): Result<Response, Error>
    requires i + 4 <= |s|
  {
    match parse(s[..i])
    case None => Err(BadHead)
    case Some((status, length)) =>
      if |s| < i + 4 + length then Err(BodyClosed(|s| - i - 4, length)) else Ok(Response(status, s[i + 4..i + 4 + length]))
  }

  /** What the bytes say, without any cutting. */
  function Answer(s: string, parse: string -> Option<(nat, nat)>): Result<Response, Error> {
    match FindHeadEnd(s)
    case Some(i) => if i + 4 <= MAX_HEAD_BYTES + 1 then AnswerAt(s, i, parse) else Err(HeadTooLong)
    case None => if |s| <= MAX_HEAD_BYTES then Err(HeadClosed) else Err(HeadTooLong)
  }

  /** The head loop stops as soon as the head is there, gives up once too much
      has come without it, and knows when the stream ends. */
  lemma {:induction false} HeadLoopOutcome(s: string, cut: Cuts, k: nat, read: nat)
    requires read <= |s| && read <= MAX_HEAD_BYTES + CHUNK
    ensures
      var r, found := HeadLoop(s, cut, k, read), FindHeadEnd(s);
      match r
      case Ok((at, _)) => read <= at <= |s| && found.Some? && found.value + 4 <= at <= MAX_HEAD_BYTES + CHUNK
      case Err(HeadTooLong) => |s| > MAX_HEAD_BYTES && (found.Some? ==> found.value + 4 > MAX_HEAD_BYTES + 1)
      case Err(HeadClosed) => found.None? && |s| <= MAX_HEAD_BYTES
      case _ => false
    decreases |s| - read
  {
    hide FindHeadEnd;
    HeadEndInPrefix(s, read);
    assert s[..|s|] == s;
    if FindHeadEnd(s[..read]).Some? || read > MAX_HEAD_BYTES || read == |s| {
    } else {
      HeadLoopOutcome(s, cut, k + 1, read + Delivered(cut(k), CHUNK, |s| - read));
    }
  }

  /** The body loop gets to its end exactly when the bytes are there. */
  lemma {:induction false} BodyLoopOutcome(s: string, cut: Cuts, k: nat, read: nat, end: nat)
    requires read <= |s|
    ensures var got := BodyLoop(s, cut, k, read, end);
            (got < end <==> |s| < end) && (|s| < end ==> got == |s|)
    decreases |s| - read
  {
    if read < end && read < |s| {
      BodyLoopOutcome(s, cut, k + 1, read + Delivered(cut(k), if end - read < CHUNK then end - read else CHUNK, |s| - read), end);
    }
  }

  /** Whatever the cuts: a head that was found is answered by the bytes. */
  lemma FoundIsAnswered(s: string, cut: Cuts, parse: string -> Option<(nat, nat)>)
    requires HeadLoop(s, cut, 0, 0).Ok?
    ensures FindHeadEnd(s).Some? && Respond(s, cut, parse) == AnswerAt(s, FindHeadEnd(s).value, parse)
  {
    hide FindHeadEnd, HeadLoop, BodyLoop;
    HeadLoopOutcome(s, cut, 0, 0);
    var (read, k) := HeadLoop(s, cut, 0, 0).value;
    HeadEndInPrefix(s, read);
    var i := FindHeadEnd(s).value;
    assert s[..read][..i] == s[..i];
    var parsed := parse(s[..i]);
    if parsed.Some? {
      BodyLoopOutcome(s, cut, k, read, i + 4 + parsed.value.1);
    }
  }

  /** The blank line ends where a long read may show it before the limit is
      checked, and a short one may not. */
  predicate InTheGap(s: string) {
    FindHeadEnd(s).Some? && MAX_HEAD_BYTES + 1 < FindHeadEnd(s).value + 4 <= MAX_HEAD_BYTES + CHUNK
  }

  /** Outside the gap every way of cutting gives the same answer: the parsed
      status and exactly the declared bytes after the first blank line, or the
      same error. */
  lemma CutsDoNotMatter(s: string, cut: Cuts, parse: string -> Option<(nat, nat)>)
    requires !InTheGap(s)
    ensures Respond(s, cut, parse) == Answer(s, parse)
  {
    hide FindHeadEnd, HeadLoop, AnswerAt;
    HeadLoopOutcome(s, cut, 0, 0);
    if HeadLoop(s, cut, 0, 0).Ok? {
      FoundIsAnswered(s, cut, parse);
    }
  }

  /** In the gap they do matter: single bytes run into the limit, full turn
      may find the head. */
  lemma {:induction false} SingleBytesGiveUp(s: string, k: nat, read: nat)
    requires FindHeadEnd(s).Some? && FindHeadEnd(s).value + 4 > MAX_HEAD_BYTES + 1 && read <= MAX_HEAD_BYTES + 1
    ensures HeadLoop(s, _ => 1, k, read) == Err(HeadTooLong)
    decreases MAX_HEAD_BYTES + 1 - read
  {
    hide FindHeadEnd;
    HeadEndInPrefix(s, read);
    if read > MAX_HEAD_BYTES {
    } else {
      SingleBytesGiveUp(s, k + 1, read + 1);
    }
  }

  lemma {:induction false} FullReadsFind(s: string, k: nat, read: nat)
    requires InTheGap(s) && read % CHUNK == 0 && read <= MAX_HEAD_BYTES
    ensures HeadLoop(s, _ => CHUNK, k, read).Ok?
    decreases MAX_HEAD_BYTES - read
  {
    hide FindHeadEnd;
    HeadEndInPrefix(s, read);
    var next := read + Delivered(CHUNK, CHUNK, |s| - read);
    if next <= MAX_HEAD_BYTES {
      assert next == read + CHUNK;
      FullReadsFind(s, k + 1, next);
    } else {
      assert read == MAX_HEAD_BYTES;
      HeadEndInPrefix(s, next);
    }
  }

  /** So the answer is the same for all cuts exactly outside the gap. */
  lemma CutsMatterExactlyInTheGap(s: string, parse: string -> Option<(nat, nat)>)
    ensures InTheGap(s) <==> exists a: Cuts, b: Cuts :: Respond(s, a, parse) != Respond(s, b, parse)
  {
    hide Respond, FindHeadEnd, HeadLoop;
    if InTheGap(s) {
      GapSplits(s, parse);
    } else {
      forall a: Cuts, b: Cuts
        ensures Respond(s, a, parse) == Respond(s, b, parse)
      {
        CutsDoNotMatter(s, a, parse);
        CutsDoNotMatter(s, b, parse);
      }
    }
  }

  lemma GapSplits(s: string, parse: string -> Option<(nat, nat)>)
    requires InTheGap(s)
    ensures Respond(s, _ => 1, parse) != Respond(s, _ => CHUNK, parse)
  {
    hide FindHeadEnd, HeadLoop;
    SingleBytesGiveUp(s, 0, 0);
    FullReadsFind(s, 0, 0);
    FoundIsAnswered(s, _ => CHUNK, parse);
  }

  // ---------- The reader ----------

  class Stream {
    var rest: string
    var turn: nat
    const cut: Cuts

    constructor (bytes: string, cut: Cuts)
      ensures rest == bytes && turn == 0 && this.cut == cut
    {
      rest, turn, this.cut := bytes, 0, cut;
    }

    /** Some bytes, or none at the end. */
    method Read(limit: nat) returns (chunk: string)
      requires limit > 0
      modifies this
      ensures old(rest) == chunk + rest
      ensures if old(rest) == [] then chunk == [] && turn == old(turn)
              else |chunk| == Delivered(cut(old(turn)), limit, |old(rest)|) && turn == old(turn) + 1
    {
      if rest == [] {
        return [];
      }
      var n := Delivered(cut(turn), limit, |rest|);
      chunk := rest[..n];
      rest := rest[n..];
      turn := turn + 1;
    }
  }

  /** A piece read is the next piece of the whole. */
  lemma Pieces(s: string, start: nat, at: nat, chunk: string, rest: string)
    requires start <= at <= |s| && s[at..] == chunk + rest
    ensures at + |chunk| <= |s| && rest == s[at + |chunk|..]
    ensures s[start..at] + chunk == s[start..at + |chunk|]
  {
    assert |s[at..]| == |chunk| + |rest|;
    assert chunk == s[at..][..|chunk|] && rest == s[at..][|chunk|..];
  }

  method ReadResponse(stream: Stream, parse: string -> Option<(nat, nat)>) returns (r: Result<Response, Error>)
    requires stream.turn == 0
    modifies stream
    ensures r == Respond(old(stream.rest), stream.cut, parse)
  {
    hide FindHeadEnd, HeadLoop, BodyLoop;
    ghost var s := stream.rest;
    var headEnd, buf := ReadHead(stream);
    if headEnd.Err? {
      return Err(headEnd.error);
    }
    var i := headEnd.value;
    var parsed := parse(buf[..i]);
    assert s[..i] == buf[..i];
    if parsed.None? {
      return Err(BadHead);
    }
    var (status, length) := parsed.value;
    r := ReadBody(stream, s, buf, i, status, length);
  }

  /** The head's end, and all that was read to see it. */
  method ReadHead(stream: Stream) returns (r: Result<nat, Error>, buf: string)
    requires stream.turn == 0
    modifies stream
    ensures match HeadLoop(old(stream.rest), stream.cut, 0, 0)
            case Err(e) => r == Err(e)
            case Ok((read, k)) =>
              && r.Ok? && |buf| == read && buf == old(stream.rest)[..read] && stream.rest == old(stream.rest)[read..]
              && stream.turn == k && FindHeadEnd(buf) == Some(r.value)
  {
    hide FindHeadEnd, HeadLoop, Delivered;
    ghost var s := stream.rest;
    buf := "";
    assert s[..0] == buf;
    assert s[0..] == s;
    while FindHeadEnd(buf).None?
      invariant |buf| <= |s| && buf == s[..|buf|] && stream.rest == s[|buf|..]
      invariant HeadLoop(s, stream.cut, stream.turn, |buf|) == HeadLoop(s, stream.cut, 0, 0)
      decreases |stream.rest|
    {
      HeadLoopUnfolds(s, stream.cut, stream.turn, |buf|);
      if |buf| > MAX_HEAD_BYTES {
        r := Err(HeadTooLong);
        return;
      }
      var chunk := stream.Read(CHUNK);
      if chunk == [] {
        r := Err(HeadClosed);
        return;
      }
      Pieces(s, 0, |buf|, chunk, stream.rest);
      buf := buf + chunk;
    }
    HeadLoopUnfolds(s, stream.cut, stream.turn, |buf|);
    r := Ok(FindHeadEnd(buf).value);
  }

  lemma HeadLoopUnfolds(s: string, cut: Cuts, k: nat, read: nat)
    requires read <= |s|
    ensures
      HeadLoop(s, cut, k, read)
      == if FindHeadEnd(s[..read]).Some? then Ok((read, k))
         else if read > MAX_HEAD_BYTES then Err(HeadTooLong)
         else if read == |s| then Err(HeadClosed)
         else HeadLoop(s, cut, k + 1, read + Delivered(cut(k), CHUNK, |s| - read))
  {}

  lemma BodyLoopUnfolds(s: string, cut: Cuts, k: nat, read: nat, end: nat)
    requires read <= |s|
    ensures
      BodyLoop(s, cut, k, read, end)
      == if read >= end || read == |s| then read
         else BodyLoop(s, cut, k + 1, read + Delivered(cut(k), if end - read < CHUNK then end - read else CHUNK, |s| - read), end)
  {}

  method ReadBody(stream: Stream, ghost s: string, head: string, headEnd: nat, status: nat, length: nat)
    returns (r: Result<Response, Error>)
    requires |head| <= |s| && head == s[..|head|] && stream.rest == s[|head|..] && headEnd + 4 <= |head|
    modifies stream
    ensures
      var end := headEnd + 4 + length;
      var got := BodyLoop(s, stream.cut, old(stream.turn), |head|, end);
      r == if got < end then Err(BodyClosed(got - headEnd - 4, length)) else Ok(Response(status, s[headEnd + 4..end]))
  {
    hide Delivered, BodyLoop;
    ghost var start := headEnd + 4;
    ghost var end := start + length;
    ghost var k := stream.turn;
    ghost var at := |head|;
    var body := head[headEnd + 4..];
    assert body == s[start..at];
    while |body| < length
      invariant start <= at <= |s| && body == s[start..at] && stream.rest == s[at..]
      invariant BodyLoop(s, stream.cut, stream.turn, at, end) == BodyLoop(s, stream.cut, k, |head|, end)
      decreases |stream.rest|
    {
      BodyLoopUnfolds(s, stream.cut, stream.turn, at, end);
      var want := if length - |body| < CHUNK then length - |body| else CHUNK;
      var chunk := stream.Read(want);
      if chunk == [] {
        return Err(BodyClosed(|body|, length));
      }
      Pieces(s, start, at, chunk, stream.rest);
      body := body + chunk;
      at := at + |chunk|;
    }
    BodyLoopUnfolds(s, stream.cut, stream.turn, at, end);
    assert s[start..end] == s[start..at][..length];
    r := Ok(Response(status, body[..length]));
  }
}
