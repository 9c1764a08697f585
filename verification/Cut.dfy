/**
 One round of uninstall on a text that holds a chunk of ours behind a text
 without markers: exactly what install inserted is cut out.
 */
module Cut {
  import opened Wrappers
  import opened Json
  import opened Scanner
  import opened Markers
  import opened HookEntry
  import opened Settings
  import opened Chunks
  import opened Removal

  ghost predicate NoMarkers(t: string) {
    forall p :: !MarkerAt(t, p)
  }

  predicate IsBoundary(c: char) { c in "{[,]}" }

  /** A text that stops right behind a bracket or a comma. */
  predicate AtBoundary(t: string) {
    t != "" && IsBoundary(t[|t| - 1])
  }

  // ---------- Markers do not cross an insertion point ----------

  lemma {:induction false} SkipWsPrefix(t: string, s: string, i: nat)
    requires t <= s && (SkipWs(t, i) < |t| || SkipWs(s, i) < |t|)
    ensures SkipWs(s, i) == SkipWs(t, i)
    decreases |t| - i
  {
    if |t| <= i || !IsSpace(t[i]) {
    } else {
      SkipWsPrefix(t, s, i + 1);
    }
  }

  lemma HoldsPrefix(t: string, s: string, i: int, x: string)
    requires t <= s && i + |x| <= |t|
    ensures Holds(t, i, x) <==> Holds(s, i, x)
  {
    if 0 <= i {
      assert t[i..i + |x|] == s[i..i + |x|];
    }
  }

  lemma MarkerInPrefix(t: string, s: string, p: int)
    requires t <= s && MarkerAt(t, p)
    ensures MarkerAt(s, p)
  {
    hide Holds, SkipWs, Quoted, VALUE_PREFIX;
    HoldsFits(t, p, Quoted(KEY));
    HoldsPrefix(t, s, p, Quoted(KEY));
    var colon := SkipWs(t, p + |KEY| + 2);
    SkipWsPrefix(t, s, p + |KEY| + 2);
    var value := SkipWs(t, colon + 1);
    HoldsFits(t, value, VALUE_PREFIX);
    PrefixLength();
    SkipWsPrefix(t, s, colon + 1);
    HoldsPrefix(t, s, value, VALUE_PREFIX);
  }

  lemma PrefixLength()
    ensures |VALUE_PREFIX| == 12
  {}

  lemma HoldsFits(s: string, i: int, x: string)
    requires Holds(s, i, x)
    ensures 0 <= i && i + |x| <= |s|
  {}

  predicate NoBoundary(x: string) {
    forall k :: 0 <= k < |x| ==> !IsBoundary(x[k])
  }

  lemma StopsBefore(s: string, i: int, x: string, b: nat)
    requires Holds(s, i, x) && NoBoundary(x) && i <= b < |s| && IsBoundary(s[b])
    ensures i + |x| <= b
  {
    if b < i + |x| {
      HoldsAt(s, i, x, b - i);
    }
  }

  lemma {:induction false} SpaceStopsBefore(s: string, i: nat, b: nat)
    requires i <= b < |s| && IsBoundary(s[b])
    ensures SkipWs(s, i) <= b
  {
    assert !IsSpace(s[b]);
  }

  lemma MarkerBytes()
    ensures NoBoundary(Quoted(KEY)) && NoBoundary(VALUE_PREFIX)
  {}

  /** A marker that starts before a bracket or a comma lies before it whole. */
  lemma MarkerBefore(t: string, s: string, p: int)
    requires AtBoundary(t) && t <= s && p < |t| && MarkerAt(s, p)
    ensures MarkerAt(t, p) && MarkerAt(t[..|t| - 1], p)
  {
    MarkerWithin(t, s, p);
    MarkerInPrefix(t[..|t| - 1], t, p);
  }

  lemma MarkerWithin(t: string, s: string, p: int)
    requires AtBoundary(t) && t <= s && p < |t| && MarkerAt(s, p)
    ensures MarkerAt(t[..|t| - 1], p)
  {
    hide Holds, SkipWs, Quoted, VALUE_PREFIX, NoBoundary;
    var b := |t| - 1;
    var u := t[..b];
    assert s[b] == t[b] && u <= s;
    MarkerBytes();
    StopsBefore(s, p, Quoted(KEY), b);
    HoldsFits(s, p, Quoted(KEY));
    QuotedLength(KEY);
    var colon := SkipWs(s, p + |KEY| + 2);
    SpaceStopsBefore(s, p + |KEY| + 2, b);
    SkipWsPrefix(u, s, p + |KEY| + 2);
    var value := SkipWs(s, colon + 1);
    SpaceStopsBefore(s, colon + 1, b);
    StopsBefore(s, value, VALUE_PREFIX, b);
    PrefixLength();
    SkipWsPrefix(u, s, colon + 1);
    HoldsPrefix(u, s, p, Quoted(KEY));
    HoldsPrefix(u, s, value, VALUE_PREFIX);
  }

  lemma PrefixUnmarked(t: string, s: string)
    requires t <= s && NoMarkers(s)
    ensures NoMarkers(t)
  {
    hide MarkerAt;
    forall p ensures !MarkerAt(t, p) {
      if MarkerAt(t, p) {
        MarkerInPrefix(t, s, p);
      }
    }
  }

  lemma MarkerIsKey(s: string, p: int)
    requires MarkerAt(s, p)
    ensures KeyAt(s, p, KEY)
  {
    hide Holds, SkipWs, Quoted;
  }

  // ---------- What install inserts ----------

  predicate Indentation(w: string) {
    forall k :: 0 <= k < |w| ==> w[k] == ' ' || w[k] == '\t'
  }

  predicate IsLineEnding(nl: string) { nl == "\n" || nl == "\r\n" }

  /** A comma, or none in front of something that is not a comma. */
  predicate CommaFits(comma: string, rest: string) {
    comma == "," || (comma == "" && (rest != "" ==> rest[0] != ','))
  }

  /** The pieces of the text around an inserted chunk. */
  predicate Planted(s: string, before: string, nl: string, indent: string, chunk: string, rest: string) {
    s == before + (nl + (indent + (chunk + rest)))
  }

  lemma PlantedHolds(s: string, before: string, nl: string, indent: string, chunk: string, rest: string)
    requires Planted(s, before, nl, indent, chunk, rest)
    ensures before <= s && |s| == |before| + |nl| + |indent| + |chunk| + |rest|
    ensures Holds(s, |before|, nl) && Holds(s, |before| + |nl|, indent)
    ensures Holds(s, |before| + |nl| + |indent|, chunk)
    ensures Holds(s, |before| + |nl| + |indent| + |chunk|, rest)
  {
    HoldsSlice0(s);
    hide Holds;
    HoldsSplit(s, 0, before, nl + (indent + (chunk + rest)));
    HoldsSplit(s, |before|, nl, indent + (chunk + rest));
    HoldsSplit(s, |before| + |nl|, indent, chunk + rest);
    HoldsSplit(s, |before| + |nl| + |indent|, chunk, rest);
  }

  lemma HoldsSlice0(s: string)
    ensures Holds(s, 0, s)
  {}

  lemma InsertedFlat(nl: string, indent: string)
    requires IsLineEnding(nl) && Indentation(indent)
    ensures Flat(nl) && Flat(indent)
  {}

  /** The first marker of the text is the chunk's own. */
  lemma FirstMarker(s: string, before: string, nl: string, indent: string, shape: Shape, k: nat, bin: string, rest: string)
    returns (m: nat, q: nat)
    requires k < 4 && Planted(s, before, nl, indent, ChunkText(shape, k, bin), rest)
    requires AtBoundary(before) && NoMarkers(before) && IsLineEnding(nl) && Indentation(indent)
    ensures
      var i := |before| + |nl| + |indent|;
      var j := i + |ChunkText(shape, k, bin)|;
      FindMarker(s, 0) == Some(m) && i <= m < j && OneCommand(s, i, q, j)
  {
    hide Holds, KeyAt, MarkerAt, Flat, EntryAt, ChunkText, Planted, IsLineEnding, OneCommand;
    PlantedHolds(s, before, nl, indent, ChunkText(shape, k, bin), rest);
    var i := |before| + |nl| + |indent|;
    m, q := ChunkFacts(s, i, shape, k, bin);
    InsertedFlat(nl, indent);
    NoKeyInFlat(s, |before|, nl, KEY);
    NoKeyInFlat(s, |before| + |nl|, indent, KEY);
    forall p | 0 <= p < m ensures !MarkerAt(s, p) {
      if MarkerAt(s, p) {
        MarkerIsKey(s, p);
        if p < |before| {
          MarkerBefore(before, s, p);
        }
      }
    }
    FindMarkerUnique(s, 0, m);
  }

  lemma ChunkHasNoNewline(s: string, i: nat, shape: Shape, k: nat, bin: string)
    requires k < 4 && Holds(s, i, ChunkText(shape, k, bin))
    ensures forall p :: i <= p < i + |ChunkText(shape, k, bin)| ==> s[p] != '\n'
  {
    hide EntryAt, ChunkText, Holds;
    ChunkOneLine(shape, k, bin);
    forall p | i <= p < i + |ChunkText(shape, k, bin)| ensures p < |s| && s[p] != '\n' {
      HoldsFits(s, i, ChunkText(shape, k, bin));
      HoldsAt(s, i, ChunkText(shape, k, bin), p - i);
    }
  }

  lemma IndentBytes(s: string, i: nat, w: string)
    requires Holds(s, i, w) && Indentation(w)
    ensures forall p :: i <= p < i + |w| ==> s[p] == ' ' || s[p] == '\t'
  {
    forall p | i <= p < i + |w| ensures s[p] == ' ' || s[p] == '\t' {
      HoldsAt(s, i, w, p - i);
    }
  }

  /** A text behind which the line ending `nl` is all of one. */
  predicate EndsLine(before: string, nl: string) {
    before != "" && (nl == "\n" ==> before[|before| - 1] != '\r')
  }

  /** The line ending in front of the chunk, and where the cut starts. */
  lemma LineStart(s: string, before: string, nl: string, indent: string, chunk: string, rest: string, m: nat)
    requires Planted(s, before, nl, indent, chunk, rest)
    requires EndsLine(before, nl) && IsLineEnding(nl) && Indentation(indent) && chunk != ""
    requires var i := |before| + |nl| + |indent|;
             i <= m <= |s| && (forall p :: i <= p < m ==> s[p] != '\n') && s[i] != ' ' && s[i] != '\t'
    ensures
      var newline := |before| + |nl| - 1;
      && LastNewline(s, m) == Some(newline)
      && SkipInline(s, newline + 1) == |before| + |nl| + |indent|
      && (if newline > 0 && s[newline - 1] == '\r' then newline - 1 else newline) == |before|
  {
    hide Holds, Planted, LastNewline, SkipInline;
    PlantedHolds(s, before, nl, indent, chunk, rest);
    IndentBytes(s, |before| + |nl|, indent);
    HoldsAt(s, |before|, nl, |nl| - 1);
    HoldsAt(s, |before|, nl, 0);
    var newline := |before| + |nl| - 1;
    assert s[|before| - 1] == before[|before| - 1];
    LastNewlineIs(s, m, newline);
    SkipInlineIs(s, newline + 1, |before| + |nl| + |indent|);
  }

  lemma PlantedWithComma(s: string, before: string, nl: string, indent: string, core: string, comma: string, rest: string)
    requires Planted(s, before, nl, indent, core + comma, rest)
    ensures Planted(s, before, nl, indent, core, comma + rest)
  {
    assert core + comma + rest == core + (comma + rest);
  }

  lemma NextByte(s: string, j: nat, comma: string, rest: string)
    requires Holds(s, j, comma + rest) && |s| == j + |comma + rest| && CommaFits(comma, rest)
    ensures comma == "," || (comma == "" && (j < |s| ==> s[j] != ','))
    ensures comma == "," ==> j < |s| && s[j] == ','
  {
    if comma + rest != "" {
      HoldsAt(s, j, comma + rest, 0);
    }
  }

  lemma {:induction false} CountWithComma(s: string, from: nat, to: nat)
    requires to < |s| && s[to] == ',' && from <= to
    ensures CountIn(s, from, to + 1, COMMAND_COLON) == CountIn(s, from, to, COMMAND_COLON)
    decreases if from < to then to - from else 0
  {
    hide COMMAND_COLON, Holds;
    if from < to {
      CountWithComma(s, from + 1, to);
      if from + |COMMAND_COLON| == to + 1 && Holds(s, from, COMMAND_COLON) {
        LastOfCommand(s, from);
      }
    } else {
      CommandIsKey(s, from);
    }
  }

  lemma LastOfCommand(s: string, p: nat)
    requires Holds(s, p, COMMAND_COLON)
    ensures s[p + |COMMAND_COLON| - 1] == ':'
  {
    HoldsAt(s, p, COMMAND_COLON, |COMMAND_COLON| - 1);
  }

  lemma CommandsInSpan(s: string, i: nat, q: nat, j: nat, comma: string)
    requires OneCommand(s, i, q, j) && (comma == "" || (comma == "," && j < |s| && s[j] == ','))
    ensures CountIn(s, i, j + |comma|, COMMAND_COLON) == 1
  {
    hide OneCommand, CountIn, COMMAND_COLON;
    CountOnce(s, i, q, j);
    CommandBounds(s, i, q, j);
    if comma == "," {
      CountWithComma(s, i, j);
    }
  }

  lemma CommandBounds(s: string, i: nat, q: nat, j: nat)
    requires OneCommand(s, i, q, j)
    ensures i < j
  {}

  /** The span that is cut is what was inserted, to the byte. */
  lemma SpanIsInsertion(s: string, before: string, nl: string, indent: string, shape: Shape, k: nat, bin: string, comma: string, rest: string)
    returns (m: nat)
    requires k < 4 && Planted(s, before, nl, indent, ChunkText(shape, k, bin) + comma, rest)
    requires AtBoundary(before) && NoMarkers(before) && IsLineEnding(nl) && Indentation(indent) && CommaFits(comma, rest)
    ensures FindMarker(s, 0) == Some(m)
    ensures ChunkSpan(s, m) == Some((|before|, |s| - |rest|))
    ensures |before| < |s| - |rest|
  {
    hide Holds, MarkerAt, EntryAt, ChunkText, Planted, IsLineEnding, OneCommand, NoMarkers, AtBoundary, Indentation, LastNewline,
      SkipInline, ChunkStarts, ChunkEnd, CountIn, CommaFits;
    var core := ChunkText(shape, k, bin);
    PlantedWithComma(s, before, nl, indent, core, comma, rest);
    PlantedHolds(s, before, nl, indent, core, comma + rest);
    PlantedHolds(s, before, nl, indent, core + comma, rest);
    var q;
    m, q := FirstMarker(s, before, nl, indent, shape, k, bin, comma + rest);
    var i := |before| + |nl| + |indent|;
    var j := i + |core|;
    ChunkHasNoNewline(s, i, shape, k, bin);
    ChunkStartsThere(s, i, shape, k, bin);
    BoundaryEndsLine(before, nl);
    LineStart(s, before, nl, indent, core, comma + rest, m);
    NextByte(s, j, comma, rest);
    ChunkEndsThere(s, i, shape, k, bin, comma);
    CommandsInSpan(s, i, q, j, comma);
    LineEndingNonempty(nl);
  }

  lemma BoundaryEndsLine(before: string, nl: string)
    requires AtBoundary(before)
    ensures EndsLine(before, nl)
  {}

  lemma LineEndingNonempty(nl: string)
    requires IsLineEnding(nl)
    ensures |nl| >= 1
  {}

  /** The line that is reported is what was cut without its line ending and its
      indentation. */
  lemma TrimmedLine(nl: string, indent: string, c: string)
    requires IsLineEnding(nl) && Indentation(indent) && c != "" && !IsSpace(c[0])
    ensures TrimStart(nl + (indent + c)) == c
  {
    var w := nl + indent;
    var s := nl + (indent + c);
    assert s == w + c && s[|w|] == c[0];
    assert Spaces(w);
    assert s[0..|w|] == w;
    SkipSpaces(s, 0, w);
  }

  lemma ChunkFirst(shape: Shape, k: nat, bin: string)
    requires k < 4
    ensures ChunkText(shape, k, bin) != "" && !IsSpace(ChunkText(shape, k, bin)[0])
  {
    hide Render, RenderLabel, EntryAt, GroupTree, GroupList, HooksObject, Valid, ValidLabel, IsSpace;
    var t := ChunkText(shape, k, bin);
    HoldsSlice0(t);
    ChunkStartsThere(t, 0, shape, k, bin);
    NoSpaceStarts();
  }

  lemma NoSpaceStarts()
    ensures !IsSpace('{') && !IsSpace('"')
  {}

  lemma CutSlice(s: string, before: string, nl: string, indent: string, chunk: string, rest: string)
    requires Planted(s, before, nl, indent, chunk, rest)
    ensures |rest| <= |s| && |before| <= |s| - |rest| && s[|before|..|s| - |rest|] == nl + (indent + chunk)
  {
    assert s == (before + (nl + (indent + chunk))) + rest;
  }

  /** One round of uninstall takes the insertion out and nothing else. */
  lemma CutInsertion(before: string, nl: string, indent: string, shape: Shape, k: nat, bin: string, comma: string, rest: string, changed: seq<string>)
    returns (line: string)
    requires k < 4 && AtBoundary(before) && NoMarkers(before) && IsLineEnding(nl) && Indentation(indent) && CommaFits(comma, rest)
    ensures line == ChunkText(shape, k, bin) + comma
    ensures
      var s := before + (nl + (indent + ((ChunkText(shape, k, bin) + comma) + rest)));
      UninstallFrom(s, 0, changed) == UninstallFrom(before + rest, 0, changed + [line])
  {
    hide Holds, MarkerAt, EntryAt, ChunkText, IsLineEnding, NoMarkers, AtBoundary, Indentation, ChunkSpan, CommaFits, TrimStart, FindMarker,
      IsSpace;
    var s := before + (nl + (indent + ((ChunkText(shape, k, bin) + comma) + rest)));
    assert Planted(s, before, nl, indent, ChunkText(shape, k, bin) + comma, rest);
    var m := SpanIsInsertion(s, before, nl, indent, shape, k, bin, comma, rest);
    line := TrimStart(s[|before|..|s| - |rest|]);
    CutSlice(s, before, nl, indent, ChunkText(shape, k, bin) + comma, rest);
    ChunkFirst(shape, k, bin);
    TrimmedLine(nl, indent, ChunkText(shape, k, bin) + comma);
    Remainder(s, before, nl, indent, ChunkText(shape, k, bin) + comma, rest);
  }

  lemma Remainder(s: string, before: string, nl: string, indent: string, chunk: string, rest: string)
    requires Planted(s, before, nl, indent, chunk, rest)
    ensures |rest| <= |s| && |before| <= |s| - |rest| && s[..|before|] + s[|s| - |rest|..] == before + rest
  {
    assert s == (before + nl + indent + chunk) + rest;
  }
}
