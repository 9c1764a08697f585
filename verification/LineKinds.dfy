/** What a read returns for a transcript of one line, kind by kind. */
module LineKinds {
  import opened Wrappers
  import opened Transcript

  /** The members of a line that is an object. */
  predicate IsObject(codec: Codec, line: string, entry: map<string, Json>) {
    codec.parse(line) == Some(Obj(entry))
  }

  predicate NamesARole(message: Json) {
    message.Obj? && "role" in message.members && message.members["role"].Str? && message.members["role"].value != ""
  }

  /** A turn of either speaker, wrapped by the agent. */
  predicate Turn(entry: map<string, Json>) {
    && "type" in entry && entry["type"] in {Str("user"), Str("assistant")}
    && "message" in entry && NamesARole(entry["message"])
  }

  /** A bare message, with no kind of its own. */
  predicate Bare(entry: map<string, Json>) {
    ("type" in entry ==> !entry["type"].Str?) && "role" in entry && "content" in entry
  }

  predicate Boundary(entry: map<string, Json>) {
    "type" in entry && entry["type"] == Str("system") && "subtype" in entry && entry["subtype"] == Str("compact_boundary")
  }

  lemma {:induction false} EndOfLine(line: string, pos: nat, limit: nat)
    requires IsLine(line) && pos < |line| <= pos + limit
    ensures ReadEnd(line, pos, limit) == |line|
    decreases limit
  {
    if line[pos] != '\n' {
      EndOfLine(line, pos + 1, limit - 1);
    }
  }

  lemma OneWholeLine(line: string)
    requires IsLine(line)
    ensures Lines(line, 0) == [line] && Consumed(line, 0) == |line|
  {
    hide IsLine;
    LineEnds(line);
    EndOfLine(line, 0, MAX_LINE_BYTES);
    NoMoreLines(line);
    LinesUnfold(line, 0);
    assert line[0..|line|] == line && [line] + [] == [line];
  }

  lemma LineEnds(line: string)
    requires IsLine(line)
    ensures 0 < |line| <= MAX_LINE_BYTES && line[|line| - 1] == '\n'
  {}

  lemma NoMoreLines(line: string)
    ensures Lines(line, |line|) == [] && Consumed(line, |line|) == |line|
  {
  }

  lemma OneMessage(codec: Codec, line: string)
    ensures Messages(codec, [line]) == if Classify(codec, line).0.Some? then [Classify(codec, line).0.value] else []
    ensures Compactions(codec, [line]) == Classify(codec, line).1
  {
    hide Classify;
    assert [line][..0] == [];
  }

  lemma FitOfOne(codec: Codec, m: Json, cap: nat)
    ensures LongestFit(codec, [m], cap) == if |codec.render(m)| + 2 <= cap then [m] else []
  {
    assert [m][1..] == [];
    assert |Body(codec, [m])| == |codec.render(m)| + 2;
  }

  lemma FitOfNone(codec: Codec, cap: nat)
    ensures LongestFit(codec, [], cap) == []
  {}

  lemma OfOneLine(codec: Codec, line: string, cap: nat)
    requires IsLine(line)
    ensures
      var (message, bump) := Classify(codec, line);
      var all := if message.Some? then [message.value] else [];
      var kept := if message.Some? && |codec.render(message.value)| + 2 <= cap then all else [];
      DeltaOf(codec, line, 0, cap) == Delta(kept, |line|, bump, kept != all)
  {
    hide Classify, Lines, Consumed, IsLine, Messages, Compactions, LongestFit;
    OneWholeLine(line);
    OneMessage(codec, line);
    var message := Classify(codec, line).0;
    if message.Some? {
      FitOfOne(codec, message.value, cap);
    } else {
      FitOfNone(codec, cap);
    }
  }

  /** A turn of the user or of the assistant gives its message, as far as one
      post can hold it. */
  lemma TurnLine(codec: Codec, line: string, entry: map<string, Json>, cap: nat)
    requires IsLine(line) && IsObject(codec, line, entry) && Turn(entry)
    ensures
      var fits := |codec.render(entry["message"])| + 2 <= cap;
      DeltaOf(codec, line, 0, cap) == Delta(if fits then [entry["message"]] else [], |line|, 0, !fits)
  {
    hide DeltaOf;
    OfOneLine(codec, line, cap);
  }

  /** A bare message is given as it is. */
  lemma BareLine(codec: Codec, line: string, entry: map<string, Json>, cap: nat)
    requires IsLine(line) && IsObject(codec, line, entry) && Bare(entry)
    ensures
      var fits := |codec.render(Obj(entry))| + 2 <= cap;
      DeltaOf(codec, line, 0, cap) == Delta(if fits then [Obj(entry)] else [], |line|, 0, !fits)
  {
    hide DeltaOf;
    OfOneLine(codec, line, cap);
  }

  /** A compaction is counted and carries nothing. */
  lemma BoundaryLine(codec: Codec, line: string, entry: map<string, Json>, cap: nat)
    requires IsLine(line) && IsObject(codec, line, entry) && Boundary(entry)
    ensures DeltaOf(codec, line, 0, cap) == Delta([], |line|, 1, false)
  {
    hide DeltaOf;
    OfOneLine(codec, line, cap);
  }

  /** Every other line is passed over: what is no object or no JSON, and every
      other kind of entry. */
  lemma OtherLine(codec: Codec, line: string, cap: nat)
    requires IsLine(line)
    requires forall entry :: IsObject(codec, line, entry) ==> !Turn(entry) && !Bare(entry) && !Boundary(entry)
    ensures DeltaOf(codec, line, 0, cap) == EmptyAt(|line|)
  {
    hide DeltaOf;
    OfOneLine(codec, line, cap);
    if codec.parse(line).Some? && codec.parse(line).value.Obj? {
      assert IsObject(codec, line, codec.parse(line).value.members);
    }
  }

  /** No line is read in two ways. */
  lemma KindsApart(entry: map<string, Json>)
    ensures !(Turn(entry) && Bare(entry)) && !(Turn(entry) && Boundary(entry)) && !(Bare(entry) && Boundary(entry))
  {}

  lemma {:induction false} NoEndInSight(file: string, pos: nat, limit: nat)
    requires forall k :: pos <= k < |file| && k < pos + limit ==> file[k] != '\n'
    ensures var end := ReadEnd(file, pos, limit); end == pos || (pos < end <= |file| && file[end - 1] != '\n')
    decreases limit
  {
    if pos < |file| && limit > 0 {
      NoEndInSight(file, pos + 1, limit - 1);
    }
  }

  /** A line that is not finished, or that has no end within 32 MiB, is left
      where it is: nothing is read and the offset stays. */
  lemma UnfinishedLine(codec: Codec, file: string, offset: nat, cap: nat)
    requires forall k :: offset <= k < |file| && k < offset + 33_554_432 ==> file[k] != '\n'
    ensures DeltaOf(codec, file, offset, cap) == EmptyAt(offset)
  {
    hide ReadEnd, LongestFit;
    NoEndInSight(file, offset, MAX_LINE_BYTES);
    LinesUnfold(file, offset);
    FitOfNone(codec, cap);
  }
}
