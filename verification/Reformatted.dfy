/**
 Uninstall on files that are no longer as install left them: what any success
 means, and exactly which chunks can be cut out of a valid file, wherever they
 have come to stand.
 */
module Reformatted {
  import opened Wrappers
  import opened Json
  import opened Scanner
  import opened Parser
  import opened Broken
  import opened Paths
  import opened Commas
  import opened Settings
  import opened Removal
  import opened Cut
  import opened Spans
  import opened InstallLaws

  // ---------- Every file ----------

  /** Every marker of the text stands in something uninstall leaves alone. */
  ghost predicate Settled(text: string) {
    forall p: nat :: p <= |text| && MarkerAt(text, p) ==> ChunkSpan(text, p) == None
  }

  ghost predicate PassedOver(text: string, from: nat) {
    forall p: nat :: p < from && p <= |text| && MarkerAt(text, p) ==> ChunkSpan(text, p) == None
  }

  /** Each cut starts the search again, so nothing that could be cut is left. */
  lemma {:induction false} EndsSettled(text: string, from: nat, changed: seq<string>)
    requires PassedOver(text, from)
    ensures Settled(UninstallFrom(text, from, changed).text)
    decreases |text|, |text| - from
  {
    hide MarkerAt, ChunkSpan, TrimStart;
    var m := FindMarker(text, from);
    if m.None? {
    } else {
      var span := ChunkSpan(text, m.value);
      if span.None? {
        EndsSettled(text, m.value + 1, changed);
      } else {
        var (start, end) := span.value;
        EndsSettled(text[..start] + text[end..], 0, changed + [TrimStart(text[start..end])]);
      }
    }
  }

  lemma {:induction false} SettledStays(text: string, from: nat, changed: seq<string>)
    requires Settled(text)
    ensures UninstallFrom(text, from, changed) == Change(text, changed)
    decreases |text| - from
  {
    hide MarkerAt, ChunkSpan;
    var m := FindMarker(text, from);
    if m.None? {
    } else {
      SettledStays(text, m.value + 1, changed);
    }
  }

  lemma {:induction false} NoLineNoCut(text: string, from: nat, changed: seq<string>)
    ensures
      var c := UninstallFrom(text, from, changed);
      |c.changed| >= |changed| && (|c.changed| == |changed| ==> c.text == text)
    decreases |text|, |text| - from
  {
    hide MarkerAt, ChunkSpan, TrimStart;
    var m := FindMarker(text, from);
    if m.None? {
    } else {
      var span := ChunkSpan(text, m.value);
      if span.None? {
        NoLineNoCut(text, m.value + 1, changed);
      } else {
        var (start, end) := span.value;
        NoLineNoCut(text[..start] + text[end..], 0, changed + [TrimStart(text[start..end])]);
      }
    }
  }

  /** Whatever the file was, a success leaves a file that parses, with no event
      wired and nothing left that could be cut, and uninstalling again changes
      nothing; and one that reports no line has changed nothing. */
  lemma UninstallSettles(src: string)
    requires Uninstall(src).Ok?
    ensures
      var c := Uninstall(src).value;
      && Parse(c.text).Some? && WiredEvents(Parse(c.text).value.root) == {} && Settled(c.text)
      && Uninstall(c.text) == Ok(Change(c.text, []))
      && (c.changed == [] ==> c.text == src)
  {
    hide Parse, UninstallFrom, WiredEvents, Settled;
    EndsSettled(src, 0, []);
    NoLineNoCut(src, 0, []);
    var c := UninstallFrom(src, 0, []);
    SettledStays(c.text, 0, []);
  }

  // ---------- An element on a line of its own ----------

  /** Its place in the container that holds it. */
  function Index(path: seq<nat>): nat
    requires path != []
  {
    path[|path| - 1]
  }

  /** The list from the element on. */
  function Spot(d: Document, path: seq<nat>): (f: Elems)
    requires IsPath(d.root, path)
    ensures f.Cons?
  {
    From(Holder(d.root, path).elems, Index(path))
  }

  /** The file's text up to the bracket or the comma in front of the element. */
  function BeforeSpot(d: Document, path: seq<nat>): string
    requires IsPath(d.root, path)
  {
    d.lead + (Left(d.root, path) + Bound(Holder(d.root, path), Index(path)))
  }

  function SpotLead(d: Document, path: seq<nat>): string
    requires IsPath(d.root, path)
  {
    Lead(Holder(d.root, path), Index(path))
  }

  /** The file's text behind the container's last element. */
  function BehindHolder(d: Document, path: seq<nat>): string
    requires IsPath(d.root, path)
  {
    [Close(Holder(d.root, path).isObject)] + (Right(d.root, path) + d.trail)
  }

  /** A comma stands right behind the element's last byte. */
  predicate CommaTouches(f: Elems)
    requires f.Cons?
  {
    f.after == "" && f.rest.Cons?
  }

  /** The text behind the element and behind a comma that touches it. */
  function BehindSpot(d: Document, path: seq<nat>): string
    requires IsPath(d.root, path)
  {
    var f := Spot(d, path);
    (if CommaTouches(f) then f.sep + RenderElems(f.rest) else f.after + RestText(f)) + BehindHolder(d, path)
  }

  function SpotText(d: Document, path: seq<nat>): string
    requires IsPath(d.root, path)
  {
    ElementText(Spot(d, path).name, Spot(d, path).value)
  }

  function SpotComma(d: Document, path: seq<nat>): string
    requires IsPath(d.root, path)
  {
    if CommaTouches(Spot(d, path)) then "," else ""
  }

  lemma DocumentAround(d: Document, path: seq<nat>, w: string, f: Elems)
    requires IsPath(d.root, path) && (Index(path) == 0 || f.Cons?)
    ensures
      RenderDocument(d.(root := Rehold(d.root, path, Continued(Holder(d.root, path), Index(path), w, f)))) ==
      BeforeSpot(d, path) + (w + (RenderElems(f) + BehindHolder(d, path)))
  {
    hide Render, RenderElems, Bound, Left, Right, Continued;
    var h := Holder(d.root, path);
    ReholdText(d.root, path, Continued(h, Index(path), w, f));
    ContinuedText(h, Index(path), w, f);
    OutsideJoin(d.lead, Left(d.root, path), Bound(h, Index(path)), w, RenderElems(f), [Close(h.isObject)], Right(d.root, path), d.trail);
  }

  lemma OutsideJoin(lead: string, l: string, b: string, w: string, e: string, c: string, r: string, trail: string)
    ensures lead + (l + ((b + (w + (e + c))) + r)) + trail == (lead + (l + b)) + (w + (e + (c + (r + trail))))
  {}

  /** The file's text around the element. */
  lemma SpotInText(d: Document, path: seq<nat>)
    requires IsPath(d.root, path)
    ensures
      RenderDocument(d) == BeforeSpot(d, path) + (SpotLead(d, path) + ((SpotText(d, path) + SpotComma(d, path)) + BehindSpot(d, path)))
  {
    hide Render, RenderElems, RenderLabel, BeforeSpot, BehindHolder, Holder, Rehold, Lead, RenderDocument;
    var h, f := Holder(d.root, path), Spot(d, path);
    DocumentAround(d, path, SpotLead(d, path), f);
    ContinuedItself(h, Index(path));
    ReholdItself(d.root, path);
    ElemsText(f);
    if CommaTouches(f) {
      TouchingJoin(RenderLabel(f.name), Render(f.value), f.sep, RenderElems(f.rest), BehindHolder(d, path));
    } else {
      ApartJoin(RenderLabel(f.name), Render(f.value), f.after, RestText(f), BehindHolder(d, path));
    }
  }

  lemma TouchingJoin(l: string, v: string, s: string, r: string, b: string)
    ensures (l + (v + ("" + ("," + (s + r))))) + b == ((l + v) + ",") + ((s + r) + b)
  {}

  lemma ApartJoin(l: string, v: string, a: string, r: string, b: string)
    ensures (l + (v + (a + r))) + b == ((l + v) + "") + ((a + r) + b)
  {}

  lemma SpotFacts(d: Document, path: seq<nat>)
    requires ValidDocument(d) && IsPath(d.root, path)
    ensures Valid(Holder(d.root, path)) && Spaces(SpotLead(d, path))
    ensures
      var h, f := Holder(d.root, path), Spot(d, path);
      && ValidLabel(f.name, h.isObject) && Valid(f.value) && Spaces(f.after) && Spaces(f.sep)
      && ValidElems(f.rest, h.isObject) && (f.rest.Nil? ==> f.sep == "")
  {
    hide Valid, ValidElems, Spaces, ValidLabel;
    HolderValid(d.root, path);
    ElementValid(Holder(d.root, path), Index(path));
    FirstValid(Spot(d, path), Holder(d.root, path).isObject);
  }

  // ---------- The cut ----------

  /** What uninstall finds to cut at `path`: a cuttable element, on a line of its
      own that starts behind the whitespace `u`. */
  ghost predicate Cuts(d: Document, path: seq<nat>, u: string, nl: string, indent: string) {
    && ValidDocument(d) && IsPath(d.root, path)
    && SpotLead(d, path) == u + (nl + indent) && OwnLine(u, nl, indent)
    && Cuttable(Spot(d, path).name, Spot(d, path).value)
  }

  function CutText(d: Document, path: seq<nat>, u: string): string
    requires IsPath(d.root, path)
  {
    BeforeSpot(d, path) + (u + BehindSpot(d, path))
  }

  lemma {:induction false} HeadsEnd(e: Elems, i: nat)
    requires 0 < i < Len(e)
    ensures Heads(e, i) != "" && Heads(e, i)[|Heads(e, i)| - 1] == ','
    decreases i
  {
    hide RenderLabel, Render;
    if i == 1 {
      var h := RenderLabel(e.name) + (Render(e.value) + (e.after + ","));
      assert h == (RenderLabel(e.name) + (Render(e.value) + e.after)) + ",";
    } else {
      HeadsEnd(e.rest, i - 1);
    }
  }

  lemma BoundEnds(v: Value, i: nat)
    requires HasElem(v, i)
    ensures AtBoundary(Bound(v, i))
  {
    if i > 0 {
      HeadsEnd(v.elems, i);
      hide Heads;
      var h := Heads(v.elems, i);
      assert Bound(v, i) == ([Open(v.isObject)] + v.pre) + h;
    }
  }

  lemma BeforeEnds(d: Document, path: seq<nat>)
    requires IsPath(d.root, path)
    ensures AtBoundary(BeforeSpot(d, path))
  {
    hide Bound, Left;
    BoundEnds(Holder(d.root, path), Index(path));
    var b := Bound(Holder(d.root, path), Index(path));
    assert BeforeSpot(d, path) == (d.lead + Left(d.root, path)) + b;
  }

  lemma BehindFits(d: Document, path: seq<nat>)
    requires ValidDocument(d) && IsPath(d.root, path)
    ensures CommaFits(SpotComma(d, path), BehindSpot(d, path))
  {
    hide Valid, ValidElems, Holder, Right, RenderElems;
    SpotFacts(d, path);
    var f := Spot(d, path);
    if f.rest.Nil? {
      assert RestText(f) == "";
      if f.after == "" {
        assert BehindSpot(d, path)[0] == Close(Holder(d.root, path).isObject);
      } else {
        assert BehindSpot(d, path)[0] == f.after[0];
      }
    } else if f.after != "" {
      assert BehindSpot(d, path)[0] == f.after[0];
    }
  }

  /** One round takes the element out, when no marker stands in front of it. */
  lemma CutSpot(d: Document, path: seq<nat>, u: string, nl: string, indent: string, changed: seq<string>) returns (line: string)
    requires Cuts(d, path, u, nl, indent) && NoMarkers(BeforeSpot(d, path))
    ensures line == SpotText(d, path) + SpotComma(d, path)
    ensures UninstallFrom(RenderDocument(d), 0, changed) == UninstallFrom(CutText(d, path, u), 0, changed + [line])
  {
    hide UninstallFrom, RenderDocument, BeforeSpot, BehindSpot, SpotText, SpotComma, NoMarkers, OwnLine, Cuttable, CommaFits, AtBoundary,
      ValidDocument, ElementText, SpotLead, Spot;
    SpotInText(d, path);
    BeforeEnds(d, path);
    BehindFits(d, path);
    SpotTextIs(d, path);
    SpotJoin(BeforeSpot(d, path), u, nl, indent, SpotText(d, path) + SpotComma(d, path), BehindSpot(d, path));
    line := CutElement(BeforeSpot(d, path), u, nl, indent, Spot(d, path).name, Spot(d, path).value, SpotComma(d, path),
                       BehindSpot(d, path), changed);
  }

  lemma SpotTextIs(d: Document, path: seq<nat>)
    requires IsPath(d.root, path)
    ensures SpotText(d, path) == ElementText(Spot(d, path).name, Spot(d, path).value)
  {}

  lemma SpotJoin(b: string, u: string, nl: string, indent: string, t: string, r: string)
    ensures b + ((u + (nl + indent)) + (t + r)) == Around(b, u, nl, indent, t, r)
  {
    assert (u + (nl + indent)) + (t + r) == u + (nl + (indent + (t + r)));
  }

  // ---------- When what is left can be read ----------

  /** No comma stands in front of the element, or one follows it; and the one
      that follows, if there is one, is the very next byte. */
  predicate LeavesAList(i: nat, f: Elems)
    requires f.Cons?
  {
    (i == 0 || f.rest.Cons?) && (f.after == "" || f.rest.Nil?)
  }

  /** The document without the element: the elements around it meet, and the
      whitespace that is left is `u` and what followed the comma or the element. */
  function Taken(d: Document, path: seq<nat>, u: string): Document
    requires IsPath(d.root, path)
  {
    var f := Spot(d, path);
    d.(root := Rehold(d.root, path,
         Continued(Holder(d.root, path), Index(path), u + (if f.rest.Nil? then f.after else f.sep), f.rest)))
  }

  lemma TakenText(d: Document, path: seq<nat>, u: string)
    requires IsPath(d.root, path) && LeavesAList(Index(path), Spot(d, path))
    ensures RenderDocument(Taken(d, path, u)) == CutText(d, path, u)
  {
    hide RenderElems, BeforeSpot, BehindHolder, Holder, Rehold, Continued, RenderDocument;
    var f := Spot(d, path);
    if f.rest.Nil? {
      DocumentAround(d, path, u + f.after, f.rest);
      EmptyText();
      LastJoin(u, f.after, BehindHolder(d, path));
    } else {
      DocumentAround(d, path, u + f.sep, f.rest);
      MeetJoin(u, f.sep, RenderElems(f.rest), BehindHolder(d, path));
    }
  }

  lemma LastJoin(u: string, a: string, b: string)
    ensures (u + a) + ("" + b) == u + ((a + "") + b)
  {}

  lemma MeetJoin(u: string, s: string, e: string, b: string)
    ensures (u + s) + (e + b) == u + ((s + e) + b)
  {}

  lemma TakenValid(d: Document, path: seq<nat>, u: string)
    requires ValidDocument(d) && IsPath(d.root, path) && Spaces(u) && LeavesAList(Index(path), Spot(d, path))
    ensures ValidDocument(Taken(d, path, u))
  {
    hide Valid, ValidElems, ValidLabel, Rehold, Continued, Holder;
    SpotFacts(d, path);
    var f := Spot(d, path);
    var w := u + (if f.rest.Nil? then f.after else f.sep);
    hide Spot;
    SpacesJoin(u, if f.rest.Nil? then f.after else f.sep);
    ContinuedValid(Holder(d.root, path), Index(path), w, f.rest);
    ReholdValid(d.root, path, Continued(Holder(d.root, path), Index(path), w, f.rest));
  }

  lemma SpacesJoin(a: string, b: string)
    requires Spaces(a) && Spaces(b)
    ensures Spaces(a + b)
  {}

  /** What the cut leaves in place of the element is a comma that nothing stands
      in front of, or a bracket behind a comma. */
  lemma NextIsWrong(d: Document, path: seq<nat>, u: string)
    requires ValidDocument(d) && IsPath(d.root, path) && Spaces(u) && !LeavesAList(Index(path), Spot(d, path))
    ensures
      var t := CutText(d, path, u);
      var q := SkipWs(t, |BeforeSpot(d, path)|);
      q < |t| && (t[q] == ',' || (Index(path) > 0 && (t[q] == '}' || t[q] == ']')))
  {
    hide Valid, ValidElems, Holder, Right, RenderElems, BeforeSpot, SkipWs, IsSpace, Spaces;
    SpotFacts(d, path);
    var f, b := Spot(d, path), BeforeSpot(d, path);
    var t, w := CutText(d, path, u), u + f.after;
    var n := |b| + |w|;
    SpacesJoin(u, f.after);
    if f.rest.Nil? {
      assert RestText(f) == "";
      var c := [Close(Holder(d.root, path).isObject)];
      GapPieces(t, b, u, f.after, "", c, Right(d.root, path) + d.trail);
    } else {
      assert RestText(f) == "," + (f.sep + RenderElems(f.rest));
      GapPieces(t, b, u, f.after, ",", f.sep + RenderElems(f.rest), BehindHolder(d, path));
    }
    NoSpaceHere();
    SkipSpaces(t, |b|, w);
  }

  lemma NoSpaceHere()
    ensures !IsSpace(',') && !IsSpace('}') && !IsSpace(']')
  {}

  lemma GapPieces(t: string, b: string, u: string, a: string, c: string, d: string, e: string)
    requires t == b + (u + ((a + (c + d)) + e)) || t == b + (u + ((a + c) + (d + e)))
    requires |c + d| > 0
    ensures Holds(t, |b|, u + a) && |b| + |u + a| < |t| && t[|b| + |u + a|] == (c + d)[0]
  {
    assert t == b + ((u + a) + ((c + d) + e));
    assert t[|b|..|b| + |u + a|] == u + a;
  }

  lemma NotTakenBreaks(d: Document, path: seq<nat>, u: string)
    requires ValidDocument(d) && IsPath(d.root, path) && Spaces(u) && !LeavesAList(Index(path), Spot(d, path))
    ensures Parse(CutText(d, path, u)) == None
  {
    hide Valid, Holder, RenderElems, Render, Spot, Parse, ParseValue, SkipWs, Bound, Left, Holds, BehindSpot, Spaces, SameUpTo, RenderDocument;
    var s, t := RenderDocument(d), CutText(d, path, u);
    var b := BeforeSpot(d, path);
    DocumentRead(d);
    DocumentText(d);
    SpotFacts(d, path);
    SpotInText(d, path);
    FrontIsSame(b, SpotLead(d, path) + ((SpotText(d, path) + SpotComma(d, path)) + BehindSpot(d, path)), u + BehindSpot(d, path));
    NextIsWrong(d, path, u);
    var j := |d.lead| + |Left(d.root, path)|;
    HolderStands(s, |d.lead|, d.root, path);
    BoundNonempty(Holder(d.root, path), Index(path));
    GapBreaks(s, t, j, Holder(d.root, path), Index(path));
    TreeBreaks(s, t, |b|, |d.lead|, d.root, path);
    RootFails(s, t, |b|, d);
  }

  lemma FrontIsSame(b: string, x: string, y: string)
    ensures SameUpTo(b + x, b + y, |b|)
  {}

  lemma BoundNonempty(v: Value, i: nat)
    requires HasElem(v, i)
    ensures |Bound(v, i)| > 0
  {}

  // ---------- A file with one chunk ----------

  /** Every marker of the file stands in the element. */
  ghost predicate OnlyMarkers(d: Document, path: seq<nat>)
    requires IsPath(d.root, path)
  {
    var at := |BeforeSpot(d, path)| + |SpotLead(d, path)|;
    forall p: nat :: MarkerAt(RenderDocument(d), p) ==> at <= p < at + |SpotText(d, path)|
  }

  lemma BeforeUnmarked(d: Document, path: seq<nat>)
    requires IsPath(d.root, path) && OnlyMarkers(d, path)
    ensures NoMarkers(BeforeSpot(d, path))
  {
    hide MarkerAt, BeforeSpot, BehindSpot, SpotText, RenderDocument, SpotLead;
    SpotInText(d, path);
    var b := BeforeSpot(d, path);
    forall p ensures !MarkerAt(b, p) {
      if MarkerAt(b, p) {
        MarkerInText(b, p);
        MarkerInPrefix(b, RenderDocument(d), p);
      }
    }
  }

  lemma CutUnmarked(d: Document, path: seq<nat>, u: string)
    requires IsPath(d.root, path) && OnlyMarkers(d, path) && Spaces(u)
    ensures NoMarkers(CutText(d, path, u))
  {
    hide MarkerAt, BeforeSpot, BehindSpot, SpotText, SpotComma, RenderDocument, SpotLead, NoMarkers, AtBoundary;
    SpotInText(d, path);
    BeforeEnds(d, path);
    BeforeUnmarked(d, path);
    var b, r, t := BeforeSpot(d, path), BehindSpot(d, path), CutText(d, path, u);
    var front := b + (SpotLead(d, path) + (SpotText(d, path) + SpotComma(d, path)));
    BehindJoin(b, SpotLead(d, path), SpotText(d, path) + SpotComma(d, path), r);
    assert t == (b + u) + r;
    forall p ensures !MarkerAt(t, p) {
      if MarkerAt(t, p) {
        MarkerInText(t, p);
        if p < |b| {
          MarkerBefore(b, t, p);
          UnmarkedAt(b, p);
        } else if p < |b + u| {
          assert t[p] == u[p - |b|];
          SpaceIsNoMarker(t, p);
        } else {
          MarkerBehind(b + u, r, p - |b + u|);
          MarkerBehind(front, r, p - |b + u|);
        }
      }
    }
    UnmarkedText(t);
  }

  lemma BehindJoin(b: string, w: string, x: string, r: string)
    ensures b + (w + (x + r)) == (b + (w + x)) + r
  {}

  lemma UnmarkedAt(t: string, p: int)
    requires NoMarkers(t)
    ensures !MarkerAt(t, p)
  {
    hide MarkerAt;
  }

  lemma UnmarkedText(t: string)
    requires forall p :: !MarkerAt(t, p)
    ensures NoMarkers(t)
  {
    hide MarkerAt;
  }

  lemma UnmarkedSettled(t: string)
    requires NoMarkers(t)
    ensures Settled(t)
  {
    hide MarkerAt, ChunkSpan;
  }

  /** A chunk on a line of its own, as any element of any container of a valid
      file, with all the markers of the file in it. Uninstall cuts it out and
      leaves every other element as it is, if and only if no comma stands in
      front of it or one follows, and a comma that follows touches it. It then
      succeeds unless an entry is wired that has no marker. Otherwise it refuses
      the file. */
  lemma CutExactly(d: Document, path: seq<nat>, u: string, nl: string, indent: string) returns (line: string)
    requires Cuts(d, path, u, nl, indent) && OnlyMarkers(d, path)
    ensures line == SpotText(d, path) + SpotComma(d, path)
    ensures
      var r := Uninstall(RenderDocument(d));
      if LeavesAList(Index(path), Spot(d, path)) then
        var after := Taken(d, path, u);
        && ValidDocument(after) && Parse(RenderDocument(after)) == Some(after)
        && r == (if WiredEvents(after.root) == {} then Ok(Change(RenderDocument(after), [line])) else Err(Residual(|WiredEvents(after.root)|)))
      else
        r == Err(WouldCorrupt)
  {
    hide Parse, RenderDocument, NoMarkers, UninstallFrom, WiredEvents, Settled, Cuttable, Spot, Taken, CutText, LeavesAList, Valid,
      BeforeSpot, SpotLead, OnlyMarkers;
    CutsFacts(d, path, u, nl, indent);
    BeforeUnmarked(d, path);
    line := CutSpot(d, path, u, nl, indent, []);
    CutUnmarked(d, path, u);
    UnmarkedSettled(CutText(d, path, u));
    assert [] + [line] == [line];
    SettledStays(CutText(d, path, u), 0, [line]);
    DocumentRead(d);
    if LeavesAList(Index(path), Spot(d, path)) {
      TakenText(d, path, u);
      TakenValid(d, path, u);
      DocumentRead(Taken(d, path, u));
    } else {
      NotTakenBreaks(d, path, u);
    }
  }

  lemma CutsFacts(d: Document, path: seq<nat>, u: string, nl: string, indent: string)
    requires Cuts(d, path, u, nl, indent)
    ensures ValidDocument(d) && IsPath(d.root, path) && Spaces(u)
  {
    hide ValidDocument, Cuttable, IsPath;
  }

  // ---------- Entries of install ----------

  predicate IsEntry(f: Elems, shape: Shape, k: nat, bin: string)
    requires k < 4 && f.Cons?
  {
    f.name == ChunkName(shape, k) && f.value == ChunkValue(shape, k, bin)
  }

  /** An entry that has become the last element behind a comma is not taken out,
      since the comma would stay. */
  lemma LastBehindComma(d: Document, path: seq<nat>, u: string, nl: string, indent: string, shape: Shape, k: nat, bin: string)
    requires k < 4 && ValidDocument(d) && IsPath(d.root, path) && IsEntry(Spot(d, path), shape, k, bin)
    requires SpotLead(d, path) == u + (nl + indent) && OwnLine(u, nl, indent) && OnlyMarkers(d, path)
    requires Index(path) > 0 && Spot(d, path).rest.Nil?
    ensures Uninstall(RenderDocument(d)) == Err(WouldCorrupt)
  {
    hide ValidDocument, IsPath, OwnLine, OnlyMarkers, Uninstall, RenderDocument, Cuttable, SpotLead, Spot, Taken, ChunkName, ChunkValue, Parse;
    OursCuttable(shape, k, bin);
    var line := CutExactly(d, path, u, nl, indent);
  }

  /** Nor is an entry whose comma stands apart from it. */
  lemma CommaApart(d: Document, path: seq<nat>, u: string, nl: string, indent: string, shape: Shape, k: nat, bin: string)
    requires k < 4 && ValidDocument(d) && IsPath(d.root, path) && IsEntry(Spot(d, path), shape, k, bin)
    requires SpotLead(d, path) == u + (nl + indent) && OwnLine(u, nl, indent) && OnlyMarkers(d, path)
    requires Spot(d, path).after != "" && Spot(d, path).rest.Cons?
    ensures Uninstall(RenderDocument(d)) == Err(WouldCorrupt)
  {
    hide ValidDocument, IsPath, OwnLine, OnlyMarkers, Uninstall, RenderDocument, Cuttable, SpotLead, Spot, Taken, ChunkName, ChunkValue, Parse;
    OursCuttable(shape, k, bin);
    var line := CutExactly(d, path, u, nl, indent);
  }

  // ---------- Any number of chunks ----------

  datatype Peel = Peel(path: seq<nat>, u: string, nl: string, indent: string)

  /** One chunk after the other, from the front of the file, each where it can be
      taken out of what the ones before it have left. */
  ghost predicate PeelsOff(d: Document, peels: seq<Peel>)
    decreases |peels|
  {
    peels == []
    || (var p := peels[0];
        && Cuts(d, p.path, p.u, p.nl, p.indent) && NoMarkers(BeforeSpot(d, p.path))
        && LeavesAList(Index(p.path), Spot(d, p.path))
        && PeelsOff(Taken(d, p.path, p.u), peels[1..]))
  }

  ghost function Peeled(d: Document, peels: seq<Peel>): Document
    requires PeelsOff(d, peels)
    decreases |peels|
  {
    if peels == [] then d else Peeled(Taken(d, peels[0].path, peels[0].u), peels[1..])
  }

  /** The lines that are reported: each chunk with the comma that touches it. */
  ghost function PeelLines(d: Document, peels: seq<Peel>): (lines: seq<string>)
    requires PeelsOff(d, peels)
    ensures |lines| == |peels|
    decreases |peels|
  {
    if peels == [] then []
    else [SpotText(d, peels[0].path) + SpotComma(d, peels[0].path)] + PeelLines(Taken(d, peels[0].path, peels[0].u), peels[1..])
  }

  lemma {:induction false} PeelRun(d: Document, peels: seq<Peel>, changed: seq<string>)
    requires ValidDocument(d) && PeelsOff(d, peels)
    ensures ValidDocument(Peeled(d, peels))
    ensures UninstallFrom(RenderDocument(d), 0, changed) ==
            UninstallFrom(RenderDocument(Peeled(d, peels)), 0, changed + PeelLines(d, peels))
    decreases |peels|
  {
    hide ValidDocument, UninstallFrom, RenderDocument, NoMarkers, BeforeSpot, Spot, Taken, LeavesAList, Cuttable, SpotLead, OwnLine, CutText;
    if peels == [] {
      assert changed + [] == changed;
    } else {
      var p := peels[0];
      CutsFacts(d, p.path, p.u, p.nl, p.indent);
      var line := CutSpot(d, p.path, p.u, p.nl, p.indent, changed);
      TakenText(d, p.path, p.u);
      TakenValid(d, p.path, p.u);
      PeelRun(Taken(d, p.path, p.u), peels[1..], changed + [line]);
      var rest := PeelLines(Taken(d, p.path, p.u), peels[1..]);
      assert (changed + [line]) + rest == changed + ([line] + rest);
    }
  }

  /** Any number of chunks that can be taken out one after the other: uninstall
      takes out exactly those, when they are all that has a marker. */
  lemma PeelAll(d: Document, peels: seq<Peel>)
    requires ValidDocument(d) && PeelsOff(d, peels) && NoMarkers(RenderDocument(Peeled(d, peels)))
    ensures
      var after, lines := Peeled(d, peels), PeelLines(d, peels);
      Uninstall(RenderDocument(d)) ==
      if WiredEvents(after.root) == {} then Ok(Change(RenderDocument(after), lines)) else Err(Residual(|WiredEvents(after.root)|))
  {
    hide Parse, ValidDocument, UninstallFrom, RenderDocument, NoMarkers, Settled, WiredEvents, PeelsOff;
    PeelRun(d, peels, []);
    var after, lines := Peeled(d, peels), PeelLines(d, peels);
    assert [] + lines == lines;
    UnmarkedSettled(RenderDocument(after));
    SettledStays(RenderDocument(after), 0, lines);
    DocumentRead(d);
    DocumentRead(after);
    NothingPeeled(d, peels);
  }

  lemma NothingPeeled(d: Document, peels: seq<Peel>)
    requires PeelsOff(d, peels)
    ensures peels == [] ==> Peeled(d, peels) == d
  {}
}
