/**
 Reading a transcript by byte offset: whole lines only, and of the messages
 they carry the longest suffix that fits one post. Text is one character per
 byte; JSON parsing and rendering are parameters.
 */
module Transcript {
  import opened Wrappers

  const MAX_LINE_BYTES := 32 * 1024 * 1024

  datatype Json =
    | Scalar(text: string)
    | Str(value: string)
    | Arr(elements: seq<Json>)
    | Obj(members: map<string, Json>)
  {
    function Get(key: string): Option<Json> {
      if Obj? && key in members then Some(members[key]) else None
    }

    function GetStr(key: string): Option<string> {
      var v := Get(key);
      if v.Some? && v.value.Str? then Some(v.value.value) else None
    }
  }

  /** How a line is read and a message is written. */
  datatype Codec = Codec(parse: string -> Option<Json>, render: Json -> string)

  datatype Delta = Delta(messages: seq<Json>, consumedTo: nat, compactions: nat, truncated: bool)

  function EmptyAt(offset: nat): Delta { Delta([], offset, 0, false) }

  // ---------- One line ----------

  /** The message a line carries, if any, and what it adds to the counter of
      compactions. */
  function Classify(codec: Codec, line: string): (Option<Json>, nat) {
    match codec.parse(line)
    case None => (None, 0)
    case Some(entry) =>
      if !entry.Obj? then (None, 0)
      else
        match entry.GetStr("type")
        case Some(kind) =>
          if kind == "user" || kind == "assistant" then
            var message := entry.Get("message");
            if message.Some? && message.value.GetStr("role").Some? && message.value.GetStr("role").value != "" then (message, 0)
            else (None, 0)
          else if kind == "system" && entry.GetStr("subtype") == Some("compact_boundary") then (None, 1)
          else (None, 0)
        case None =>
          if "role" in entry.members && "content" in entry.members then (Some(entry), 0) else (None, 0)
  }

  /** Where a bounded read that starts at `pos` stops: after the first newline,
      at the limit, or at the end. */
  function ReadEnd(file: string, pos: nat, limit: nat): (end: nat)
    ensures pos <= |file| ==> pos <= end <= |file|
    ensures pos > |file| ==> end == pos
    ensures end - pos <= limit
    ensures forall k :: pos <= k < end - 1 ==> file[k] != '\n'
    ensures pos < end && file[end - 1] != '\n' ==> end == |file| || end - pos == limit
    decreases limit
  {
    if pos >= |file| || limit == 0 then pos
    else if file[pos] == '\n' then pos + 1
    else ReadEnd(file, pos + 1, limit - 1)
  }

  /** A whole line starts at `pos`: newline-terminated within the limit. */
  predicate WholeLine(file: string, pos: nat) {
    var end := ReadEnd(file, pos, MAX_LINE_BYTES);
    pos < end && file[end - 1] == '\n'
  }

  /** The whole lines from `pos`, up to the first that is not one. */
  function Lines(file: string, pos: nat): seq<string>
    decreases if pos <= |file| then |file| - pos else 0
  {
    if !WholeLine(file, pos) then []
    else
      var end := ReadEnd(file, pos, MAX_LINE_BYTES);
      [file[pos..end]] + Lines(file, end)
  }

  /** Where those lines end. */
  function Consumed(file: string, pos: nat): (end: nat)
    ensures pos <= end && (pos <= |file| ==> end <= |file|)
    decreases if pos <= |file| then |file| - pos else 0
  {
    if !WholeLine(file, pos) then pos else Consumed(file, ReadEnd(file, pos, MAX_LINE_BYTES))
  }

  function Messages(codec: Codec, lines: seq<string>): seq<Json> {
    if lines == [] then []
    else
      var m := Classify(codec, lines[|lines| - 1]).0;
      Messages(codec, lines[..|lines| - 1]) + if m.Some? then [m.value] else []
  }

  function Compactions(codec: Codec, lines: seq<string>): nat {
    if lines == [] then 0
    else Compactions(codec, lines[..|lines| - 1]) + Classify(codec, lines[|lines| - 1]).1
  }

  // ---------- The bounded suffix ----------

  function Joined(codec: Codec, messages: seq<Json>): string {
    if messages == [] then ""
    else if |messages| == 1 then codec.render(messages[0])
    else codec.render(messages[0]) + "," + Joined(codec, messages[1..])
  }

  /** The body that is posted. */
  function Body(codec: Codec, messages: seq<Json>): string { "[" + Joined(codec, messages) + "]" }

  /** The running total kept beside the window. */
  function Weight(codec: Codec, messages: seq<Json>): nat {
    if messages == [] then 0 else |codec.render(messages[0])| + 1 + Weight(codec, messages[1..])
  }

  /** One more than the total is the exact length of the posted array. */
  lemma {:induction false} WeightIsBody(codec: Codec, messages: seq<Json>)
    requires messages != []
    ensures Weight(codec, messages) + 1 == |Body(codec, messages)|
    decreases |messages|
  {
    if |messages| > 1 {
      WeightIsBody(codec, messages[1..]);
    } else {
      assert messages[1..] == [];
    }
  }

  predicate Fits(codec: Codec, messages: seq<Json>, cap: nat) {
    messages == [] || |Body(codec, messages)| <= cap
  }

  /** Leading messages dropped until the rest fits. */
  function LongestFit(codec: Codec, messages: seq<Json>, cap: nat): seq<Json> {
    if Fits(codec, messages, cap) then messages else LongestFit(codec, messages[1..], cap)
  }

  /** What is kept is a suffix, and it fits. */
  lemma {:induction false} LongestFitIsSuffix(codec: Codec, messages: seq<Json>, cap: nat)
    ensures
      var r := LongestFit(codec, messages, cap);
      |r| <= |messages| && r == messages[|messages| - |r|..] && Fits(codec, r, cap)
    decreases |messages|
  {
    hide Fits;
    if Fits(codec, messages, cap) {
    } else {
      Nonempty(codec, messages, cap);
      LongestFitIsSuffix(codec, messages[1..], cap);
    }
  }

  lemma Nonempty(codec: Codec, messages: seq<Json>, cap: nat)
    requires !Fits(codec, messages, cap)
    ensures messages != []
  {}

  /** No longer suffix fits. */
  lemma {:induction false} LongestFitIsLongest(codec: Codec, messages: seq<Json>, cap: nat, k: nat)
    requires k <= |messages| && Fits(codec, messages[k..], cap)
    ensures |messages| - k <= |LongestFit(codec, messages, cap)|
    decreases |messages|
  {
    hide Fits;
    if Fits(codec, messages, cap) {
    } else {
      assert messages[0..] == messages;
      assert messages[1..][k - 1..] == messages[k..];
      LongestFitIsLongest(codec, messages[1..], cap, k - 1);
    }
  }

  lemma {:induction false} WeightOfSum(codec: Codec, a: seq<Json>, b: seq<Json>)
    ensures Weight(codec, a + b) == Weight(codec, a) + Weight(codec, b)
    decreases |a|
  {
    if a == [] {
      assert a + b == b;
    } else {
      WeightOfSum(codec, a[1..], b);
      assert (a + b)[1..] == a[1..] + b;
    }
  }

  lemma FitsByWeight(codec: Codec, messages: seq<Json>, cap: nat)
    ensures Fits(codec, messages, cap) <==> messages == [] || Weight(codec, messages) + 1 <= cap
  {
    hide Weight, Body;
    if messages != [] {
      WeightIsBody(codec, messages);
    }
  }

  /** What was dropped before need not be looked at again: the window alone
      decides. */
  lemma {:induction false} WindowSuffices(codec: Codec, messages: seq<Json>, m: Json, cap: nat)
    ensures LongestFit(codec, LongestFit(codec, messages, cap) + [m], cap) == LongestFit(codec, messages + [m], cap)
    decreases |messages|
  {
    hide Fits, Weight;
    if Fits(codec, messages, cap) {
    } else {
      FitsByWeight(codec, messages, cap);
      FitsByWeight(codec, messages + [m], cap);
      WeightOfSum(codec, messages, [m]);
      assert (messages + [m])[1..] == messages[1..] + [m];
      WindowSuffices(codec, messages[1..], m, cap);
    }
  }

  // ---------- The read ----------

  /** What one read of a file from an offset finds. */
  function DeltaOf(codec: Codec, file: string, offset: nat, cap: nat): Delta {
    var lines := Lines(file, offset);
    var all := Messages(codec, lines);
    var kept := LongestFit(codec, all, cap);
    Delta(kept, Consumed(file, offset), Compactions(codec, lines), |kept| < |all|)
  }

  /** The lines `seen` have been read, up to `at`, and nothing after. */
  ghost predicate ReadSoFar(text: string, offset: nat, seen: seq<string>, at: nat) {
    && offset <= at && (at <= |text| || at == offset)
    && Lines(text, offset) == seen + Lines(text, at)
    && Consumed(text, offset) == Consumed(text, at)
  }

  lemma ReadStart(text: string, offset: nat)
    ensures ReadSoFar(text, offset, [], offset)
  {
    assert [] + Lines(text, offset) == Lines(text, offset);
  }

  lemma ReadOn(text: string, offset: nat, seen: seq<string>, at: nat)
    requires ReadSoFar(text, offset, seen, at)
    ensures
      var end := ReadEnd(text, at, MAX_LINE_BYTES);
      if end == at || text[end - 1] != '\n' then seen == Lines(text, offset) && at == Consumed(text, offset)
      else at < end <= |text| && ReadSoFar(text, offset, seen + [text[at..end]], end)
  {
    hide Lines, Consumed, ReadEnd;
    LinesUnfold(text, at);
    var end := ReadEnd(text, at, MAX_LINE_BYTES);
    if end == at || text[end - 1] != '\n' {
      assert seen + [] == seen;
    } else {
      assert seen + ([text[at..end]] + Lines(text, end)) == seen + [text[at..end]] + Lines(text, end);
    }
  }

  /** What is kept of the lines `seen`. */
  ghost predicate Kept(codec: Codec, cap: nat, seen: seq<string>, window: seq<Json>, total: nat, compactions: nat, truncated: bool) {
    && window == LongestFit(codec, Messages(codec, seen), cap)
    && total == Weight(codec, window)
    && compactions == Compactions(codec, seen)
    && (truncated <==> |window| < |Messages(codec, seen)|)
  }

  lemma OneLine(codec: Codec, seen: seq<string>, line: string)
    ensures Messages(codec, seen + [line])
            == if Classify(codec, line).0.Some? then Messages(codec, seen) + [Classify(codec, line).0.value] else Messages(codec, seen)
    ensures Compactions(codec, seen + [line]) == Compactions(codec, seen) + Classify(codec, line).1
  {
    hide Classify;
    assert (seen + [line])[..|seen|] == seen;
    assert Messages(codec, seen) + [] == Messages(codec, seen);
  }

  lemma DropsOrKeeps(codec: Codec, messages: seq<Json>, cap: nat)
    ensures |LongestFit(codec, messages, cap)| < |messages| || LongestFit(codec, messages, cap) == messages
  {
    hide Fits, LongestFit;
    LongestFitIsSuffix(codec, messages, cap);
  }

  lemma KeptNothing(codec: Codec, cap: nat)
    ensures Kept(codec, cap, [], [], 0, 0, false)
  {}

  lemma KeptSkip(codec: Codec, cap: nat, seen: seq<string>, line: string, window: seq<Json>, total: nat, compactions: nat, truncated: bool)
    requires Kept(codec, cap, seen, window, total, compactions, truncated) && Classify(codec, line).0.None?
    ensures Kept(codec, cap, seen + [line], window, total, compactions + Classify(codec, line).1, truncated)
  {
    hide Classify, Fits, Weight, LongestFit, Messages, Compactions;
    OneLine(codec, seen, line);
  }

  lemma KeptWeight(codec: Codec, cap: nat, seen: seq<string>, window: seq<Json>, total: nat, compactions: nat, truncated: bool, m: Json)
    requires Kept(codec, cap, seen, window, total, compactions, truncated)
    ensures total + |codec.render(m)| + 1 == Weight(codec, window + [m])
  {
    hide Weight, LongestFit, Messages, Compactions;
    WeightOfSum(codec, window, [m]);
    WeightOfOne(codec, m);
  }

  lemma KeptMessage(codec: Codec, cap: nat, seen: seq<string>, line: string, window: seq<Json>, total: nat, compactions: nat,
                    truncated: bool, m: Json, after: seq<Json>, weight: nat, dropped: bool)
    requires Kept(codec, cap, seen, window, total, compactions, truncated) && Classify(codec, line).0 == Some(m)
    requires after == LongestFit(codec, window + [m], cap) && weight == Weight(codec, after)
    requires dropped <==> |after| < |window + [m]|
    ensures Kept(codec, cap, seen + [line], after, weight, compactions + Classify(codec, line).1, truncated || dropped)
  {
    hide Classify, Fits, Weight, LongestFit, Messages, Compactions;
    OneLine(codec, seen, line);
    DropsOrKeeps(codec, Messages(codec, seen), cap);
    DropsOrKeeps(codec, window + [m], cap);
    WindowSuffices(codec, Messages(codec, seen), m, cap);
  }

  /** The reader, with its window and running total. A file that cannot be
      opened reads as nothing. */
  method ReadDelta(codec: Codec, file: Option<string>, fromOffset: nat, maxPostBytes: nat) returns (delta: Delta)
    ensures delta == if file.None? then EmptyAt(fromOffset) else DeltaOf(codec, file.value, fromOffset, maxPostBytes)
  {
    hide Classify, Fits, Weight, LongestFit, Lines, Consumed, Messages, Compactions, ReadEnd, ReadSoFar, Kept, DeltaOf;
    if file.None? {
      return EmptyAt(fromOffset);
    }
    var text := file.value;
    delta := EmptyAt(fromOffset);
    var window: seq<Json> := [];
    var total: nat := 0;
    ghost var seen: seq<string> := [];
    ReadStart(text, fromOffset);
    KeptNothing(codec, maxPostBytes);
    while true
      invariant ReadSoFar(text, fromOffset, seen, delta.consumedTo)
      invariant Kept(codec, maxPostBytes, seen, window, total, delta.compactions, delta.truncated)
      decreases if delta.consumedTo <= |text| then |text| - delta.consumedTo else 0
    {
      var end := ReadEnd(text, delta.consumedTo, MAX_LINE_BYTES);
      ReadOn(text, fromOffset, seen, delta.consumedTo);
      if end == delta.consumedTo || text[end - 1] != '\n' {
        break;
      }
      var line := text[delta.consumedTo..end];
      delta := delta.(consumedTo := end);
      var (message, bump) := Classify(codec, line);
      if message.None? {
        KeptSkip(codec, maxPostBytes, seen, line, window, total, delta.compactions, delta.truncated);
        seen := seen + [line];
        delta := delta.(compactions := delta.compactions + bump);
        continue;
      }
      var m := message.value;
      KeptWeight(codec, maxPostBytes, seen, window, total, delta.compactions, delta.truncated, m);
      var after, weight, dropped := DropLeading(codec, window + [m], total + |codec.render(m)| + 1, maxPostBytes);
      KeptMessage(codec, maxPostBytes, seen, line, window, total, delta.compactions, delta.truncated, m, after, weight, dropped);
      seen := seen + [line];
      window, total := after, weight;
      delta := delta.(compactions := delta.compactions + bump, truncated := delta.truncated || dropped);
    }
    KeptIsDelta(codec, text, fromOffset, maxPostBytes, window, total, delta.compactions, delta.truncated);
    delta := delta.(messages := window);
  }

  lemma KeptIsDelta(codec: Codec, text: string, offset: nat, cap: nat, window: seq<Json>, total: nat, compactions: nat, truncated: bool)
    requires Kept(codec, cap, Lines(text, offset), window, total, compactions, truncated)
    ensures DeltaOf(codec, text, offset, cap) == Delta(window, Consumed(text, offset), compactions, truncated)
  {
    hide Messages, Compactions, LongestFit, Lines, Consumed;
  }

  lemma WeightOfOne(codec: Codec, m: Json)
    ensures Weight(codec, [m]) == |codec.render(m)| + 1
  {}

  lemma LinesUnfold(file: string, pos: nat)
    ensures
      var end := ReadEnd(file, pos, MAX_LINE_BYTES);
      if end == pos || file[end - 1] != '\n' then Lines(file, pos) == [] && Consumed(file, pos) == pos
      else Lines(file, pos) == [file[pos..end]] + Lines(file, end) && Consumed(file, pos) == Consumed(file, end)
  {}

  /** The suffix rule on the window. */
  method DropLeading(codec: Codec, messages: seq<Json>, weight: nat, cap: nat)
    returns (window: seq<Json>, total: nat, dropped: bool)
    requires weight == Weight(codec, messages)
    ensures window == LongestFit(codec, messages, cap)
    ensures total == Weight(codec, window)
    ensures dropped <==> |window| < |messages|
  {
    hide Fits;
    window, total, dropped := messages, weight, false;
    while total + 1 > cap && window != []
      invariant total == Weight(codec, window)
      invariant LongestFit(codec, window, cap) == LongestFit(codec, messages, cap)
      invariant |window| <= |messages|
      invariant dropped <==> |window| < |messages|
      decreases |window|
    {
      FitsByWeight(codec, window, cap);
      total := total - (|codec.render(window[0])| + 1);
      window := window[1..];
      dropped := true;
    }
    FitsByWeight(codec, window, cap);
  }

  // ---------- What the cursor promises ----------

  predicate LineBoundary(file: string, p: nat) {
    p == 0 || (p <= |file| && file[p - 1] == '\n')
  }

  /** From a line boundary the cursor moves to a line boundary. */
  lemma {:induction false} CursorIsBoundary(file: string, pos: nat)
    requires LineBoundary(file, pos)
    ensures LineBoundary(file, Consumed(file, pos))
    decreases if pos <= |file| then |file| - pos else 0
  {
    if !WholeLine(file, pos) {
    } else {
      CursorIsBoundary(file, ReadEnd(file, pos, MAX_LINE_BYTES));
    }
  }

  function Flat(lines: seq<string>): string {
    if lines == [] then [] else lines[0] + Flat(lines[1..])
  }

  /** The bytes passed over are the whole lines, none lost and none torn, and
      no whole line starts where the cursor stops. */
  lemma {:induction false} ConsumedIsLines(file: string, pos: nat)
    requires pos <= |file|
    ensures Flat(Lines(file, pos)) == file[pos..Consumed(file, pos)]
    ensures forall line :: line in Lines(file, pos) ==> IsLine(line)
    ensures !WholeLine(file, Consumed(file, pos))
    decreases |file| - pos
  {
    hide ReadEnd, IsLine;
    if WholeLine(file, pos) {
      var end := ReadEnd(file, pos, MAX_LINE_BYTES);
      ConsumedIsLines(file, end);
      WholeLineIsLine(file, pos);
      assert file[pos..end] + file[end..Consumed(file, end)] == file[pos..Consumed(file, end)];
    } else {
      assert file[pos..pos] == [];
    }
  }

  predicate IsLine(line: string) {
    0 < |line| <= MAX_LINE_BYTES && line[|line| - 1] == '\n' && forall k :: 0 <= k < |line| - 1 ==> line[k] != '\n'
  }

  lemma WholeLineIsLine(file: string, pos: nat)
    requires WholeLine(file, pos)
    ensures var end := ReadEnd(file, pos, MAX_LINE_BYTES); pos < end <= |file| && IsLine(file[pos..end])
  {
    hide ReadEnd;
    var end := ReadEnd(file, pos, MAX_LINE_BYTES);
    var line := file[pos..end];
    forall k | 0 <= k < |line| - 1
      ensures line[k] != '\n'
    {
      assert line[k] == file[pos + k];
    }
  }

  // ---------- Appending ----------

  lemma {:induction false} ReadEndGrows(file: string, more: string, pos: nat, limit: nat)
    requires pos < ReadEnd(file, pos, limit) && file[ReadEnd(file, pos, limit) - 1] == '\n'
    ensures ReadEnd(file + more, pos, limit) == ReadEnd(file, pos, limit)
    decreases limit
  {
    if file[pos] == '\n' {
    } else {
      ReadEndGrows(file, more, pos + 1, limit - 1);
    }
  }

  lemma {:induction false} LinesGrow(file: string, more: string, pos: nat)
    ensures Lines(file + more, pos) == Lines(file, pos) + Lines(file + more, Consumed(file, pos))
    ensures Consumed(file + more, pos) == Consumed(file + more, Consumed(file, pos))
    decreases if pos <= |file| then |file| - pos else 0
  {
    hide WholeLine, ReadEnd, Lines, Consumed;
    LinesUnfold(file, pos);
    var end := ReadEnd(file, pos, MAX_LINE_BYTES);
    if end == pos || file[end - 1] != '\n' {
      assert [] + Lines(file + more, pos) == Lines(file + more, pos);
    } else {
      ReadEndGrows(file, more, pos, MAX_LINE_BYTES);
      LinesUnfold(file + more, pos);
      LinesGrow(file, more, end);
      assert (file + more)[pos..end] == file[pos..end];
      Reassociate(file[pos..end], Lines(file, end), Lines(file + more, Consumed(file, end)));
    }
  }

  lemma Reassociate(x: string, a: seq<string>, b: seq<string>)
    ensures [x] + (a + b) == [x] + a + b
  {}

  lemma {:induction false} MessagesOfSum(codec: Codec, a: seq<string>, b: seq<string>)
    ensures Messages(codec, a + b) == Messages(codec, a) + Messages(codec, b)
    ensures Compactions(codec, a + b) == Compactions(codec, a) + Compactions(codec, b)
    decreases |b|
  {
    hide Classify;
    if b == [] {
      assert a + b == a;
    } else {
      MessagesOfSum(codec, a, b[..|b| - 1]);
      assert (a + b)[..|a + b| - 1] == a + b[..|b| - 1];
    }
  }

  /** Reading a file and, when it has grown, reading on from the cursor gives
      the cursor and the count of one read of the whole; and its messages when
      that one read drops none. */
  lemma ReadsCompose(codec: Codec, file: string, more: string, offset: nat, cap: nat)
    ensures
      var first := DeltaOf(codec, file, offset, cap);
      var second := DeltaOf(codec, file + more, first.consumedTo, cap);
      var once := DeltaOf(codec, file + more, offset, cap);
      && second.consumedTo == once.consumedTo
      && first.compactions + second.compactions == once.compactions
      && (!once.truncated ==> !first.truncated && !second.truncated && first.messages + second.messages == once.messages)
  {
    hide Classify, Lines, Consumed, Messages, Compactions, Fits, LongestFit;
    LinesGrow(file, more, offset);
    var a, b := Lines(file, offset), Lines(file + more, Consumed(file, offset));
    MessagesOfSum(codec, a, b);
    var ma, mb := Messages(codec, a), Messages(codec, b);
    DropsOrKeeps(codec, ma + mb, cap);
    if LongestFit(codec, ma + mb, cap) == ma + mb {
      PartsFit(codec, ma, mb, cap);
    }
  }

  lemma PartsFit(codec: Codec, a: seq<Json>, b: seq<Json>, cap: nat)
    requires LongestFit(codec, a + b, cap) == a + b
    ensures LongestFit(codec, a, cap) == a && LongestFit(codec, b, cap) == b
  {
    hide Weight, Body, Fits;
    LongestFitIsSuffix(codec, a + b, cap);
    FitsByWeight(codec, a + b, cap);
    FitsByWeight(codec, a, cap);
    FitsByWeight(codec, b, cap);
    WeightOfSum(codec, a, b);
  }
}
