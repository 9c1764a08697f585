/**
 What uninstall takes for one of its chunks, as a condition on an element of a
 tree, and the bytes it cuts for one wherever it stands on a line of its own.
 */
module Spans {
  import opened Wrappers
  import opened Json
  import opened Scanner
  import opened Members
  import opened Markers
  import opened HookEntry
  import opened Settings
  import opened Chunks
  import opened Removal
  import opened Cut

  function ElementText(l: Label, v: Value): string { RenderLabel(l) + Render(v) }

  /** How often the element's text holds the bytes that the guard counts. */
  function Commands(l: Label, v: Value): nat {
    var t := ElementText(l, v);
    CountIn(t, 0, |t|, COMMAND_COLON)
  }

  /** An item that is an object, or a container under a key install writes. */
  predicate StartsChunk(l: Label, v: Value) {
    v.Node? && (if l.Key? then KnownKey(l.raw) else v.isObject)
  }

  predicate FirstLineHolds(t: string, q: nat) {
    q < |t| && FindMarker(t, 0) == Some(q) && forall p :: 0 <= p < q ==> t[p] != '\n'
  }

  /** Such an element whose first marker stands on its first line. */
  ghost predicate Marked(l: Label, v: Value) {
    && ValidLabel(l, l.Key?) && Valid(v) && StartsChunk(l, v)
    && exists q: nat :: FirstLineHolds(ElementText(l, v), q)
  }

  /** What uninstall cuts: of these, the ones with a single command. */
  ghost predicate Cuttable(l: Label, v: Value) {
    Marked(l, v) && Commands(l, v) == 1
  }

  /** Whitespace in front of an element: any, then one line ending and what is
      left of the line. */
  predicate OwnLine(u: string, nl: string, indent: string) {
    Spaces(u) && IsLineEnding(nl) && Indentation(indent) && (nl == "\n" && u != "" ==> u[|u| - 1] != '\r')
  }

  // ---------- What is asked about a text is the same inside a longer one ----------

  lemma {:induction false} SkipWsBehind(a: string, b: string, q: nat)
    ensures SkipWs(a + b, |a| + q) == |a| + SkipWs(b, q)
    decreases |b| - q
  {
    if |b| <= q || !IsSpace(b[q]) {
    } else {
      SkipWsBehind(a, b, q + 1);
    }
  }

  lemma HoldsBehind(a: string, b: string, q: nat, x: string)
    ensures Holds(a + b, |a| + q, x) <==> Holds(b, q, x)
  {
    if q + |x| <= |b| {
      assert (a + b)[|a| + q..|a| + q + |x|] == b[q..q + |x|];
    }
  }

  /** A marker is a matter of the bytes from its key on. */
  lemma MarkerBehind(a: string, b: string, q: nat)
    ensures MarkerAt(a + b, |a| + q) <==> MarkerAt(b, q)
  {
    hide Holds, SkipWs, Quoted, VALUE_PREFIX;
    HoldsBehind(a, b, q, Quoted(KEY));
    SkipWsBehind(a, b, q + |KEY| + 2);
    var colon := SkipWs(b, q + |KEY| + 2);
    SkipWsBehind(a, b, colon + 1);
    HoldsBehind(a, b, SkipWs(b, colon + 1), VALUE_PREFIX);
  }

  lemma {:induction false} CountInside(a: string, t: string, c: string, from: nat, pat: string)
    requires from <= |t|
    ensures CountIn(a + (t + c), |a| + from, |a| + |t|, pat) == CountIn(t, from, |t|, pat)
    decreases |t| - from
  {
    hide Holds;
    if from == |t| {
    } else {
      CountInside(a, t, c, from + 1, pat);
      if from + |pat| <= |t| {
        HoldsBehind(a, t + c, from, pat);
        HoldsPrefix(t, t + c, from, pat);
      }
    }
  }

  // ---------- The element's text ----------

  lemma ElementTextIs(l: Label, v: Value)
    ensures ElementText(l, v) == RenderLabel(l) + Render(v)
  {}

  lemma ElementEnds(l: Label, v: Value)
    requires v.Node?
    ensures AtBoundary(ElementText(l, v))
  {
    hide RenderLabel;
    NodeText(v);
    hide Render, RenderElems;
    var t := RenderLabel(l);
    var front := t + ([Open(v.isObject)] + (v.pre + RenderElems(v.elems)));
    assert ElementText(l, v) == front + [Close(v.isObject)] by {
      ClosesLast(t, [Open(v.isObject)], v.pre, RenderElems(v.elems), [Close(v.isObject)]);
    }
  }

  lemma ClosesLast(l: string, o: string, p: string, e: string, c: string)
    ensures l + (o + (p + (e + c))) == (l + (o + (p + e))) + c
  {}

  /** The chunks of install are such elements. */
  lemma OursCuttable(shape: Shape, k: nat, bin: string)
    requires k < 4
    ensures ElementText(ChunkName(shape, k), ChunkValue(shape, k, bin)) == ChunkText(shape, k, bin)
    ensures Cuttable(ChunkName(shape, k), ChunkValue(shape, k, bin))
  {
    hide Render, RenderLabel, RenderElems, EntryAt, GroupTree, GroupList, HooksObject, Valid, ValidLabel, MarkerAt, Holds, KeyAt, OneCommand;
    var t := ChunkText(shape, k, bin);
    var l, v := ChunkName(shape, k), ChunkValue(shape, k, bin);
    HoldsSlice0(t);
    ChunkValid(shape, k, bin);
    var m, q := ChunkFacts(t, 0, shape, k, bin);
    CountOnce(t, 0, q, |t|);
    forall p | 0 <= p < m ensures !MarkerAt(t, p) {
      if MarkerAt(t, p) {
        MarkerIsKey(t, p);
      }
    }
    FindMarkerUnique(t, 0, m);
    ChunkHasNoNewline(t, 0, shape, k, bin);
    assert FirstLineHolds(t, m);
    KnownStarts(shape, k, bin);
  }

  lemma KnownStarts(shape: Shape, k: nat, bin: string)
    requires k < 4
    ensures StartsChunk(ChunkName(shape, k), ChunkValue(shape, k, bin))
    ensures ValidLabel(ChunkName(shape, k), ChunkName(shape, k).Key?)
  {
    hide EntryAt, GroupTree, Valid, ValidBody;
    ChunkValid(shape, k, bin);
  }

  // ---------- An element on a line of its own ----------

  /** The text around an element: a bracket or a comma in front of it, the
      whitespace, the element, and what follows. */
  function Around(before: string, u: string, nl: string, indent: string, t: string, rest: string): string {
    before + (u + (nl + (indent + (t + rest))))
  }

  lemma AroundParts(before: string, u: string, nl: string, indent: string, t: string, rest: string)
    ensures
      var s := Around(before, u, nl, indent, t, rest);
      && Planted(s, before + u, nl, indent, t, rest)
      && before <= s && before + u <= s
      && s == (before + u + nl + indent) + (t + rest)
  {
    assert Around(before, u, nl, indent, t, rest) == (before + u) + (nl + (indent + (t + rest)));
  }

  lemma SpaceIsNoMarker(s: string, p: nat)
    requires p < |s| && IsJsonSpace(s[p])
    ensures !MarkerAt(s, p)
  {
    if Holds(s, p, Quoted(KEY)) {
      HoldsAt(s, p, Quoted(KEY), 0);
    }
  }

  /** The first marker of the text is the element's first. */
  lemma FirstIsInside(before: string, u: string, nl: string, indent: string, l: Label, v: Value, rest: string, q: nat)
    requires AtBoundary(before) && NoMarkers(before) && OwnLine(u, nl, indent) && v.Node? && FirstLineHolds(ElementText(l, v), q)
    ensures
      FindMarker(Around(before, u, nl, indent, ElementText(l, v), rest), 0) == Some(|before| + |u| + |nl| + |indent| + q)
  {
    hide MarkerAt, ElementText, Around, FindMarker, AtBoundary;
    var t := ElementText(l, v);
    var s := Around(before, u, nl, indent, t, rest);
    var front := before + u + nl + indent;
    AroundParts(before, u, nl, indent, t, rest);
    ElementEnds(l, v);
    TFirst(t, q);
    MarkerInPrefix(t, t + rest, q);
    MarkerBehind(front, t + rest, q);
    forall p: nat | p < |front| + q ensures !MarkerAt(s, p) {
      if MarkerAt(s, p) {
        if p < |before| {
          MarkerBefore(before, s, p);
        } else if p < |front| {
          WhiteThere(before, u, nl, indent, t + rest, p);
          SpaceIsNoMarker(s, p);
        } else {
          MarkerBehind(front, t + rest, p - |front|);
          MarkerBefore(t, t + rest, p - |front|);
        }
      }
    }
    FindMarkerUnique(s, 0, |front| + q);
  }

  lemma TFirst(t: string, q: nat)
    requires FindMarker(t, 0) == Some(q)
    ensures MarkerAt(t, q) && forall p: nat :: p < q ==> !MarkerAt(t, p)
  {
    hide MarkerAt;
  }

  lemma WhiteThere(before: string, u: string, nl: string, indent: string, tail: string, p: nat)
    requires OwnLine(u, nl, indent) && |before| <= p < |before + u + nl + indent|
    ensures
      var s := (before + u + nl + indent) + tail;
      p < |s| && IsJsonSpace(s[p])
  {
    var w := u + nl + indent;
    assert before + u + nl + indent == before + w;
    assert ((before + w) + tail)[p] == w[p - |before|];
  }

  lemma NoNewlineToMarker(s: string, i: nat, front: string, t: string, rest: string, q: nat)
    requires s == front + (t + rest) && i == |front| && FirstLineHolds(t, q)
    ensures forall p :: i <= p < i + q ==> s[p] != '\n'
  {
    hide FindMarker;
    forall p | i <= p < i + q ensures s[p] != '\n' {
      assert s[p] == t[p - i];
    }
  }

  lemma ElementStarts(s: string, i: nat, l: Label, v: Value)
    requires ValidLabel(l, l.Key?) && Valid(v) && StartsChunk(l, v) && Holds(s, i, ElementText(l, v))
    ensures ChunkStarts(s, i) && s[i] != ' ' && s[i] != '\t'
  {
    hide Holds, Render, RenderElems, Valid, ValidBody, ValidLabel, IsSpace, KnownKey;
    HoldsSplit(s, i, RenderLabel(l), Render(v));
    if l.Key? {
      KeyStarts(s, i, l);
    } else {
      FirstOfValue(s, i, v);
    }
  }

  /** What the scans make of an element that stands in a text. */
  lemma ElementScanned(s: string, front: string, l: Label, v: Value, comma: string, rest: string)
    requires s == front + (ElementText(l, v) + (comma + rest))
    requires ValidLabel(l, l.Key?) && Valid(v) && StartsChunk(l, v) && CommaFits(comma, rest)
    ensures
      var i, end := |front|, |front| + |ElementText(l, v)| + |comma|;
      && ChunkStarts(s, i) && s[i] != ' ' && s[i] != '\t' && ChunkEnd(s, i) == Some(end)
      && CountIn(s, i, end, COMMAND_COLON) == Commands(l, v)
  {
    hide Holds, ElementText, ChunkStarts, ChunkEnd, CountIn, CommaFits, Valid, ValidLabel, KnownKey;
    var t, i := ElementText(l, v), |front|;
    PiecesHeld(s, front, t, comma + rest);
    ElementStarts(s, i, l, v);
    NextByte(s, i + |t|, comma, rest);
    CommaHeld(s, i, t, comma, rest);
    ElementTextIs(l, v);
    ElementEndsThere(s, i, l, v, comma);
    CountInside(front, t, comma + rest, 0, COMMAND_COLON);
    CountUpToComma(s, i, i + |t|, comma);
  }

  lemma PiecesHeld(s: string, front: string, t: string, rest: string)
    requires s == front + (t + rest)
    ensures Holds(s, |front|, t) && Holds(s, |front| + |t|, rest) && |s| == |front| + |t| + |rest|
  {
    HoldsSlice0(s);
    HoldsSplit(s, 0, front, t + rest);
    HoldsSplit(s, |front|, t, rest);
  }

  /** The line in front of the element, seen from its first marker. */
  lemma LineOfElement(before: string, u: string, nl: string, indent: string, t: string, rest: string, q: nat)
    requires AtBoundary(before) && OwnLine(u, nl, indent) && FirstLineHolds(t, q)
    requires t[0] != ' ' && t[0] != '\t'
    ensures
      var s := Around(before, u, nl, indent, t, rest);
      var i := |before| + |u| + |nl| + |indent|;
      var newline := |before + u| + |nl| - 1;
      && |nl| >= 1 && i + q <= |s|
      && LastNewline(s, i + q) == Some(newline) && SkipInline(s, newline + 1) == i
      && (if newline > 0 && s[newline - 1] == '\r' then newline - 1 else newline) == |before + u|
  {
    hide Holds, AtBoundary, Indentation, IsLineEnding, LastNewline, SkipInline, Around, FirstLineHolds, OwnLine, Planted;
    var s := Around(before, u, nl, indent, t, rest);
    var i := |before| + |u| + |nl| + |indent|;
    AroundParts(before, u, nl, indent, t, rest);
    PlantedHolds(s, before + u, nl, indent, t, rest);
    LineParts(before, u, nl, indent);
    NoNewlineToMarker(s, i, before + u + nl + indent, t, rest, q);
    MarkerInside(t, q);
    LineEndingNonempty(nl);
    assert s[i] == t[0];
    LineStart(s, before + u, nl, indent, t, rest, i + q);
  }

  /** The span of an element on a line of its own: the line ending, what is left
      of the line, the element, and a comma right behind it; or none, when its
      text does not hold exactly one command. */
  lemma SpanOfElement(before: string, u: string, nl: string, indent: string, l: Label, v: Value, comma: string, rest: string)
    returns (m: nat)
    requires AtBoundary(before) && NoMarkers(before) && OwnLine(u, nl, indent) && Marked(l, v) && CommaFits(comma, rest)
    ensures
      var s := Around(before, u, nl, indent, ElementText(l, v) + comma, rest);
      && m <= |s| && FindMarker(s, 0) == Some(m)
      && ChunkSpan(s, m) == (if Commands(l, v) == 1 then Some((|before + u|, |s| - |rest|)) else None)
  {
    hide MarkerAt, ElementText, AtBoundary, NoMarkers, Planted, LastNewline, SkipInline, ChunkStarts, ChunkEnd, CountIn, CommaFits, Valid,
      ValidLabel, KnownKey, Around, FirstLineHolds, OwnLine;
    var t := ElementText(l, v);
    var s := Around(before, u, nl, indent, t + comma, rest);
    var front := before + u + nl + indent;
    var q: nat :| FirstLineHolds(t, q);
    AroundComma(before, u, nl, indent, t, comma, rest);
    AroundParts(before, u, nl, indent, t, comma + rest);
    FirstIsInside(before, u, nl, indent, l, v, comma + rest, q);
    m := |front| + q;
    MarkerInside(t, q);
    ElementScanned(s, front, l, v, comma, rest);
    assert s[|front|] == t[0];
    LineOfElement(before, u, nl, indent, t, comma + rest, q);
    SpanIs(s, m, |before + u| + |nl| - 1, |front|, |before + u|, |front| + |t| + |comma|);
  }

  /** `ChunkSpan`, when its parts are known. */
  lemma SpanIs(s: string, m: nat, newline: nat, i: nat, start: nat, end: nat)
    requires m <= |s| && LastNewline(s, m) == Some(newline) && SkipInline(s, newline + 1) == i
    requires start == (if newline > 0 && s[newline - 1] == '\r' then newline - 1 else newline)
    requires ChunkStarts(s, i) && ChunkEnd(s, i) == Some(end) && i <= m < end
    ensures ChunkSpan(s, m) == if CountIn(s, i, end, COMMAND_COLON) == 1 then Some((start, end)) else None
  {
    hide LastNewline, SkipInline, ChunkStarts, ChunkEnd, CountIn;
  }

  lemma AroundComma(before: string, u: string, nl: string, indent: string, t: string, comma: string, rest: string)
    ensures Around(before, u, nl, indent, t + comma, rest) == Around(before, u, nl, indent, t, comma + rest)
  {
    assert (t + comma) + rest == t + (comma + rest);
  }

  lemma LineParts(before: string, u: string, nl: string, indent: string)
    requires AtBoundary(before) && OwnLine(u, nl, indent)
    ensures EndsLine(before + u, nl) && IsLineEnding(nl) && Indentation(indent)
  {
    hide Indentation;
  }

  lemma MarkerInside(t: string, q: nat)
    requires FirstLineHolds(t, q)
    ensures q < |t| && t != ""
  {
    hide FindMarker;
  }

  lemma CommaHeld(s: string, i: nat, t: string, comma: string, rest: string)
    requires Holds(s, i, t) && Holds(s, i + |t|, comma + rest)
    ensures Holds(s, i, t + comma)
  {
    hide Holds;
    HoldsSplit(s, i + |t|, comma, rest);
    HoldsJoin(s, i, t, comma);
  }

  lemma CountUpToComma(s: string, i: nat, j: nat, comma: string)
    requires i <= j && (comma == "" || (comma == "," && j < |s| && s[j] == ','))
    ensures CountIn(s, i, j + |comma|, COMMAND_COLON) == CountIn(s, i, j, COMMAND_COLON)
  {
    hide CountIn, COMMAND_COLON;
    if comma == "," {
      CountWithComma(s, i, j);
    }
  }

  lemma ElementFirst(l: Label, v: Value)
    requires Marked(l, v)
    ensures ElementText(l, v) != "" && !IsSpace(ElementText(l, v)[0])
  {
    hide Valid, ValidLabel, ElementText, IsSpace, KnownKey, FirstLineHolds, Holds;
    var t := ElementText(l, v);
    HoldsSlice0(t);
    ElementEnds(l, v);
    ElementStarts(t, 0, l, v);
    NoSpaceStarts();
  }

  /** One round of uninstall takes the element with its line and its comma, and
      nothing else; the line it reports is the element and that comma. */
  lemma CutElement(before: string, u: string, nl: string, indent: string, l: Label, v: Value, comma: string, rest: string,
                   changed: seq<string>) returns (line: string)
    requires AtBoundary(before) && NoMarkers(before) && OwnLine(u, nl, indent) && Cuttable(l, v) && CommaFits(comma, rest)
    ensures line == ElementText(l, v) + comma
    ensures
      UninstallFrom(Around(before, u, nl, indent, ElementText(l, v) + comma, rest), 0, changed) ==
      UninstallFrom(before + (u + rest), 0, changed + [line])
  {
    hide MarkerAt, ElementText, AtBoundary, NoMarkers, ChunkSpan, CommaFits, TrimStart, FindMarker, Marked, IsSpace, IsLineEnding,
      Indentation;
    var s := Around(before, u, nl, indent, ElementText(l, v) + comma, rest);
    var m := SpanOfElement(before, u, nl, indent, l, v, comma, rest);
    AroundParts(before, u, nl, indent, ElementText(l, v) + comma, rest);
    Remainder(s, before + u, nl, indent, ElementText(l, v) + comma, rest);
    CutSlice(s, before + u, nl, indent, ElementText(l, v) + comma, rest);
    ElementFirst(l, v);
    TrimmedLine(nl, indent, ElementText(l, v) + comma);
    line := TrimStart(s[|before + u|..|s| - |rest|]);
    assert before + u + rest == before + (u + rest);
  }
}
