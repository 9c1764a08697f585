/**
 The promise of the editor: uninstall gives back the bytes that install was
 given, whatever the shapes, the indentation and the line endings.
 */
module RoundTrip {
  import opened Wrappers
  import opened Json
  import opened Scanner
  import opened Members
  import opened Markers
  import opened Parser
  import opened Doc
  import opened HookEntry
  import opened Edits
  import opened Settings
  import opened Chunks
  import opened Removal
  import opened Cut
  import opened InstallLaws
  import opened Wiring
  import opened PlantedTree

  // ---------- Text around a member ----------

  function Front(e: Elems, key: string): string
    requires Count(e, key) == 1
  {
    if Named(e, key) then RenderLabel(e.name) else HeadText(e) + Front(e.rest, key)
  }

  function Behind(e: Elems, key: string): string
    requires Count(e, key) == 1
  {
    if Named(e, key) then e.after + RestText(e) else Behind(e.rest, key)
  }

  lemma {:induction false} SplitAtMember(e: Elems, key: string, v: Value)
    requires Count(e, key) == 1
    ensures RenderElems(SetMember(e, key, v)) == Front(e, key) + (Render(v) + Behind(e, key))
    decreases e
  {
    hide RenderLabel, Render, RenderElems, HeadText, RestText;
    if Named(e, key) {
      SetAbsent(e.rest, key, v);
      ElemsText(SetMember(e, key, v));
      SameRest(e, SetMember(e, key, v));
    } else {
      SplitAtMember(e.rest, key, v);
      SetKeepsShape(e.rest, key, v);
      TailText(SetMember(e, key, v));
      SameHead(e, SetMember(e, key, v));
      Assoc(HeadText(e), Front(e.rest, key), Render(v) + Behind(e.rest, key));
    }
  }

  lemma SameRest(e: Elems, f: Elems)
    requires e.Cons? && f.Cons? && e.rest == f.rest && e.sep == f.sep
    ensures RestText(e) == RestText(f)
  {}

  lemma SameHead(e: Elems, f: Elems)
    requires e.Cons? && f.Cons? && e.name == f.name && e.value == f.value && e.after == f.after && e.sep == f.sep
    ensures HeadText(e) == HeadText(f)
  {}

  lemma Assoc(a: string, b: string, c: string)
    ensures a + (b + c) == a + b + c
  {}

  /** The document's text before and after its hooks member's value. */
  function DocFront(d: Document): string
    requires HasHooks(d.root)
  {
    d.lead + ("{" + (d.root.pre + Front(d.root.elems, "hooks")))
  }

  function DocBehind(d: Document): string
    requires HasHooks(d.root)
  {
    Behind(d.root.elems, "hooks") + "}" + d.trail
  }

  lemma DocumentWithHooks(d: Document, v: Value)
    requires HasHooks(d.root)
    ensures RenderDocument(d.(root := SetIn(d.root, "hooks", v))) == DocFront(d) + (Render(v) + DocBehind(d))
  {
    hide RenderElems, Front, Behind, SetMember;
    SplitAtMember(d.root.elems, "hooks", v);
    NodeText(SetIn(d.root, "hooks", v));
    hide Render;
    Surround(d.lead, d.root.pre, Front(d.root.elems, "hooks"), Render(v), Behind(d.root.elems, "hooks"), d.trail);
  }

  lemma Surround(lead: string, pre: string, f: string, v: string, b: string, trail: string)
    ensures lead + ("{" + (pre + (f + (v + b) + "}"))) + trail == lead + ("{" + (pre + f)) + (v + (b + "}" + trail))
  {}

  lemma DocumentAsIs(d: Document)
    requires HasHooks(d.root)
    ensures RenderDocument(d) == DocFront(d) + (Render(HooksOf(d.root)) + DocBehind(d))
  {
    hide RenderElems, Render, Front, Behind, DocFront, DocBehind, RenderDocument;
    SetSame(d.root.elems, "hooks");
    DocumentWithHooks(d, HooksOf(d.root));
  }

  // ---------- Taking a graft out ----------

  /** A line as uninstall reports it: an entry in one of its shapes, with the
      comma behind it if there was one. */
  predicate EntryLine(line: string, bin: string) {
    exists shape: Shape, k: nat ::
      k < 4 && (line == ChunkText(shape, k, bin) || line == ChunkText(shape, k, bin) + ",")
  }

  predicate MoreLines(changed: seq<string>, more: seq<string>, bin: string) {
    changed <= more && forall i :: |changed| <= i < |more| ==> EntryLine(more[i], bin)
  }

  lemma GraftSplit(v: Value, g: Gap, l: Label, x: Value)
    requires v.Node?
    ensures |Render(v)| >= 1
    ensures Render(v) == [Open(v.isObject)] + Render(v)[1..]
    ensures Render(Graft(v, GapText(g), l, x)) ==
            [Open(v.isObject)] + (g.nl + (g.indent + ((RenderLabel(l) + Render(x) + Comma(v)) + Render(v)[1..])))
  {
    GraftText(v, GapText(g), l, x);
    NodeText(v);
    hide Render, RenderElems, RenderLabel, Comma, Graft;
    assert Render(v)[..1] == [Open(v.isObject)];
    GapAssoc([Open(v.isObject)], g.nl, g.indent, RenderLabel(l) + Render(x), Comma(v), Render(v)[1..]);
  }

  lemma GapAssoc(o: string, nl: string, indent: string, core: string, comma: string, rest: string)
    ensures o + ((nl + indent) + core + comma) + rest == o + (nl + (indent + ((core + comma) + rest)))
  {}

  lemma GraftCommaFits(v: Value, rest: string)
    requires v.Node? && Spaces(v.pre)
    ensures |Render(v)| >= 1 && CommaFits(Comma(v), Render(v)[1..] + rest)
  {
    NodeText(v);
    if v.elems.Nil? {
      assert Render(v)[1..] == v.pre + ("" + [Close(v.isObject)]);
      hide Render;
      assert (Render(v)[1..])[0] == if v.pre == "" then Close(v.isObject) else v.pre[0];
    }
  }

  /** Uninstall takes the first graft of a text out again. */
  lemma CutGraft(before: string, v: Value, g: Gap, shape: Shape, k: nat, bin: string, rest: string, changed: seq<string>)
    returns (line: string)
    requires k < 4 && v.Node? && Spaces(v.pre) && GoodGap(g) && NoMarkers(before + [Open(v.isObject)])
    ensures EntryLine(line, bin)
    ensures
      UninstallFrom(before + (Render(Graft(v, GapText(g), ChunkName(shape, k), ChunkValue(shape, k, bin))) + rest), 0, changed) ==
      UninstallFrom(before + (Render(v) + rest), 0, changed + [line])
  {
    hide Render, RenderLabel, Graft, NoMarkers, CommaFits, GapText, ChunkName, ChunkValue, UninstallFrom, IsLineEnding, Indentation;
    GraftSplit(v, g, ChunkName(shape, k), ChunkValue(shape, k, bin));
    GraftCommaFits(v, rest);
    var o, tail := [Open(v.isObject)], Render(v)[1..];
    OpensAtBoundary(before, v.isObject);
    line := CutInsertion(before + o, g.nl, g.indent, shape, k, bin, Comma(v), tail + rest, changed);
    AroundCut(before, o, g.nl, g.indent, ChunkText(shape, k, bin) + Comma(v), tail, rest);
    assert before + (o + tail + rest) == before + o + (tail + rest);
  }

  lemma OpensAtBoundary(before: string, isObject: bool)
    ensures AtBoundary(before + [Open(isObject)])
  {}

  lemma AroundCut(before: string, o: string, nl: string, indent: string, chunk: string, tail: string, rest: string)
    ensures before + (o + (nl + (indent + (chunk + tail))) + rest) == (before + o) + (nl + (indent + (chunk + (tail + rest))))
  {}

  // ---------- Taking out the event members at the front ----------

  predicate GoodFronts(q: Fronts) {
    forall i :: 0 <= i < |q| ==> GoodGap(q[i].1)
  }

  lemma {:induction false} WrapSpaces(h: Value, q: Fronts, bin: string)
    requires h.Node? && Spaces(h.pre) && GoodFronts(q)
    ensures Spaces(Wrap(h, q, bin).pre)
  {
    hide GroupList, EventKey;
    if q != [] {
      EndingAndIndent(q[0].1.nl, q[0].1.indent);
    }
  }

  lemma {:induction false} CutFronts(before: string, h: Value, q: Fronts, bin: string, rest: string, changed: seq<string>)
    returns (changed': seq<string>)
    requires h.Node? && Spaces(h.pre) && GoodFronts(q) && NoMarkers(before + [Open(h.isObject)])
    ensures |changed'| == |changed| + |q| && MoreLines(changed, changed', bin)
    ensures UninstallFrom(before + (Render(Wrap(h, q, bin)) + rest), 0, changed) ==
            UninstallFrom(before + (Render(h) + rest), 0, changed')
    decreases |q|
  {
    hide Render, NoMarkers, GroupList, EventKey, UninstallFrom, Graft, GapText, GoodGap, Spaces;
    if q == [] {
      changed' := changed;
    } else {
      WrapSpaces(h, q[1..], bin);
      var line := CutGraft(before, Wrap(h, q[1..], bin), q[0].1, InHooks, q[0].0, bin, rest, changed);
      changed' := CutFronts(before, h, q[1..], bin, rest, changed + [line]);
    }
  }

  // ---------- Taking out the groups in the event arrays ----------

  predicate GoodArrays(m: Arrays) {
    forall k :: k in m ==> GoodGap(m[k])
  }

  lemma PlantKeepsShape(e: Elems, m: Arrays, bin: string)
    ensures PlantIn(e, m, bin).Nil? <==> e.Nil?
  {}

  /** The text up to an element's value, and the text behind it. */
  lemma ElemAround(before: string, e: Elems, rest: string)
    requires e.Cons?
    ensures before + (RenderElems(e) + rest) == (before + RenderLabel(e.name)) + (Render(e.value) + (e.after + RestText(e) + rest))
  {
    hide RenderLabel, Render, RenderElems, RestText;
    ElemsText(e);
    Around(before, RenderLabel(e.name), Render(e.value), e.after, RestText(e), rest);
  }

  lemma Around(before: string, l: string, v: string, a: string, r: string, rest: string)
    ensures before + (l + (v + (a + r)) + rest) == (before + l) + (v + (a + r + rest))
  {}

  /** An element whose value was planted: the plant is taken out. */
  lemma CutOne(before: string, e: Elems, m: Arrays, bin: string, rest: string, changed: seq<string>)
    returns (changed': seq<string>)
    requires e.Cons? && ValidElems(e, true) && GoodArrays(m) && NoMarkers(before + RenderElems(e))
    ensures |changed'| == |changed| + (if IsPlanted(e.name, e.value, m) then 1 else 0) && MoreLines(changed, changed', bin)
    ensures
      var tail := e.after + RestText(PlantIn(e, m, bin)) + rest;
      UninstallFrom(before + (RenderElems(PlantIn(e, m, bin)) + rest), 0, changed) ==
      UninstallFrom((before + RenderLabel(e.name)) + (Render(e.value) + tail), 0, changed')
  {
    hide RenderLabel, Render, RenderElems, RestText, NoMarkers, GroupTree, EntryAt, EntryOf, UninstallFrom, Graft, GapText, GoodGap,
      Spaces, ValidElems, ValidLabel;
    var p := PlantIn(e, m, bin);
    ElemAround(before, p, rest);
    changed' := changed;
    if IsPlanted(e.name, e.value, m) {
      var k := EntryOf(e.name.raw);
      FrontUnmarked(before, e);
      FirstSpaces(e);
      var line := CutGraft(before + RenderLabel(e.name), e.value, m[k], InArray, k, bin, e.after + RestText(p) + rest, changed);
      changed' := changed + [line];
    }
  }

  lemma FirstSpaces(e: Elems)
    requires e.Cons? && ValidElems(e, true) && e.value.Node?
    ensures Spaces(e.value.pre)
  {}

  /** The text up to and with the value's bracket is a prefix of the list's. */
  lemma FrontUnmarked(before: string, e: Elems)
    requires e.Cons? && e.value.Node? && NoMarkers(before + RenderElems(e))
    ensures NoMarkers((before + RenderLabel(e.name)) + [Open(e.value.isObject)])
  {
    hide NoMarkers, RenderLabel;
    ElemsText(e);
    NodeText(e.value);
    hide Render, RenderElems, RestText;
    var l, o := RenderLabel(e.name), [Open(e.value.isObject)];
    var vt := e.value.pre + (RenderElems(e.value.elems) + [Close(e.value.isObject)]);
    PrefixOf(before, l, o, vt, e.after + RestText(e));
    PrefixUnmarked(before + l + o, before + RenderElems(e));
  }

  lemma PrefixOf(before: string, l: string, o: string, vt: string, r: string)
    ensures before + l + o <= before + (l + ((o + vt) + r))
  {
    assert before + (l + ((o + vt) + r)) == (before + l + o) + (vt + r);
  }

  lemma {:induction false} CutArrays(before: string, e: Elems, m: Arrays, bin: string, rest: string, changed: seq<string>)
    returns (changed': seq<string>)
    requires ValidElems(e, true) && GoodArrays(m) && NoMarkers(before + RenderElems(e))
    ensures |changed'| == |changed| + PlantCount(e, m) && MoreLines(changed, changed', bin)
    ensures UninstallFrom(before + (RenderElems(PlantIn(e, m, bin)) + rest), 0, changed) ==
            UninstallFrom(before + (RenderElems(e) + rest), 0, changed')
    decreases e
  {
    hide RenderLabel, Render, RenderElems, HeadText, RestText, NoMarkers, UninstallFrom, IsPlanted, PlantedValue, Valid, ValidLabel;
    if e.Nil? {
      changed' := changed;
    } else {
      var p := PlantIn(e, m, bin);
      changed' := CutOne(before, e, m, bin, rest, changed);
      ElemAround(before, e, rest);
      if e.rest.Nil? {
        SameRest(e, p);
      } else {
        PlantKeepsShape(e.rest, m, bin);
        TailText(e);
        BeforeRest(before, e, p, rest);
        BeforeRest(before, e, e, rest);
        Assoc(before, HeadText(e), RenderElems(e.rest));
        changed' := CutArrays(before + HeadText(e), e.rest, m, bin, rest, changed');
      }
    }
  }

  /** The text after the first element's value, seen from the next element. */
  lemma BeforeRest(before: string, e: Elems, p: Elems, rest: string)
    requires e.Cons? && p.Cons? && p.rest.Cons? && e.name == p.name && e.after == p.after && e.sep == p.sep
    ensures (before + RenderLabel(e.name)) + (Render(e.value) + (e.after + RestText(p) + rest)) ==
            (before + HeadText(e)) + (RenderElems(p.rest) + rest)
  {
    hide RenderLabel, Render;
    assert RestText(p) == "," + (e.sep + RenderElems(p.rest));
    hide RenderElems;
    Shift(before, RenderLabel(e.name), Render(e.value), e.after, ",", e.sep, RenderElems(p.rest), rest);
  }

  lemma Shift(before: string, l: string, v: string, a: string, c: string, s: string, r: string, rest: string)
    ensures (before + l) + (v + (a + (c + (s + r)) + rest)) == (before + (l + (v + (a + (c + s))))) + (r + rest)
  {}

  // ---------- A planted file ----------

  lemma HooksSplit(front: string, h: Value, behind: string)
    requires h.Node?
    ensures front + (Render(h) + behind) ==
            (front + ([Open(h.isObject)] + h.pre)) + (RenderElems(h.elems) + ([Close(h.isObject)] + behind))
  {
    NodeText(h);
    hide Render, RenderElems;
    Unfold(front, [Open(h.isObject)], h.pre, RenderElems(h.elems), [Close(h.isObject)], behind);
  }

  lemma Unfold(front: string, o: string, pre: string, e: string, c: string, behind: string)
    ensures front + (o + (pre + (e + c)) + behind) == (front + (o + pre)) + (e + (c + behind))
    ensures front + o <= front + (o + (pre + (e + c)) + behind)
    ensures (front + (o + pre)) + e <= front + (o + (pre + (e + c)) + behind)
  {
    var s := front + (o + (pre + (e + c)) + behind);
    assert s == (front + o) + (pre + (e + c) + behind);
    assert s == ((front + (o + pre)) + e) + (c + behind);
  }

  lemma HooksPrefixes(front: string, h: Value, behind: string)
    requires h.Node?
    ensures front + [Open(h.isObject)] <= front + (Render(h) + behind)
    ensures (front + ([Open(h.isObject)] + h.pre)) + RenderElems(h.elems) <= front + (Render(h) + behind)
  {
    NodeText(h);
    hide Render, RenderElems;
    Unfold(front, [Open(h.isObject)], h.pre, RenderElems(h.elems), [Close(h.isObject)], behind);
  }

  lemma HooksValid(root: Value)
    requires HasHooks(root) && Valid(root)
    ensures Valid(HooksOf(root)) && Spaces(HooksOf(root).pre) && ValidElems(HooksOf(root).elems, true)
  {
    hide ValidElems, Count, Member;
    NodeElemsValid(root);
    MemberValid(root.elems, true, "hooks");
    NodeElemsValid(HooksOf(root));
  }

  /** Event members at the front of the hooks object go first. */
  lemma CutDocumentFronts(d: Document, m: Arrays, q: Fronts, bin: string, changed: seq<string>) returns (changed': seq<string>)
    requires HasHooks(d.root) && Valid(d.root) && GoodFronts(q)
    requires NoMarkers(DocFront(d) + "{")
    ensures |changed'| == |changed| + |q| && MoreLines(changed, changed', bin)
    ensures UninstallFrom(RenderDocument(d.(root := PlantedRoot(d.root, m, q, bin))), 0, changed) ==
            UninstallFrom(RenderDocument(d.(root := PlantedRoot(d.root, m, [], bin))), 0, changed')
  {
    hide Render, RenderDocument, DocFront, DocBehind, NoMarkers, UninstallFrom, GoodFronts, Wrap, PlantIn, Valid, Spaces, ValidElems, SetIn;
    HooksValid(d.root);
    var h := Node(true, HooksOf(d.root).pre, PlantIn(HooksOf(d.root).elems, m, bin));
    DocumentWithHooks(d, Wrap(h, q, bin));
    DocumentWithHooks(d, h);
    WrapNothing(h, bin);
    changed' := CutFronts(DocFront(d), h, q, bin, DocBehind(d), changed);
  }

  lemma WrapNothing(h: Value, bin: string)
    requires h.Node?
    ensures Wrap(h, [], bin) == h
  {}

  /** Then the groups in the event arrays, in the order of the file. */
  lemma CutDocumentArrays(d: Document, m: Arrays, bin: string, changed: seq<string>) returns (changed': seq<string>)
    requires HasHooks(d.root) && Valid(d.root) && GoodArrays(m)
    requires NoMarkers(RenderDocument(d))
    ensures |changed'| == |changed| + PlantCount(HooksOf(d.root).elems, m) && MoreLines(changed, changed', bin)
    ensures UninstallFrom(RenderDocument(d.(root := PlantedRoot(d.root, m, [], bin))), 0, changed) ==
            UninstallFrom(RenderDocument(d), 0, changed')
  {
    hide Render, RenderElems, RenderDocument, DocFront, DocBehind, NoMarkers, UninstallFrom, GoodArrays, Wrap, PlantIn, Valid, ValidElems,
      Spaces, SetIn, PlantCount;
    HooksValid(d.root);
    var hooks := HooksOf(d.root);
    var h := Node(true, hooks.pre, PlantIn(hooks.elems, m, bin));
    WrapNothing(h, bin);
    DocumentWithHooks(d, h);
    DocumentAsIs(d);
    HooksSplit(DocFront(d), h, DocBehind(d));
    HooksSplit(DocFront(d), hooks, DocBehind(d));
    HooksPrefixes(DocFront(d), hooks, DocBehind(d));
    var before := DocFront(d) + (['{'] + hooks.pre);
    PrefixUnmarked(before + RenderElems(hooks.elems), RenderDocument(d));
    changed' := CutArrays(before, hooks.elems, m, bin, ['}'] + DocBehind(d), changed);
  }

  // ---------- Every run plants ----------

  /** The planted file, and that its pieces are well formed. */
  ghost predicate IsRun(base: Document, m: Arrays, q: Fronts, bin: string, text: string) {
    && HasHooks(base.root) && GoodArrays(m) && GoodFronts(q)
    && Parse(text) == Some(base.(root := PlantedRoot(base.root, m, q, bin)))
  }

  predicate Before(k: nat, m: Arrays, q: Fronts) {
    (forall j :: j in m ==> j < k) && forall i :: 0 <= i < |q| ==> q[i].0 < k
  }

  /** Groups are only planted in arrays that the base file has. */
  predicate OnlyPresent(root: Value, k: nat, m: Arrays, m': Arrays)
    requires HasHooks(root)
  {
    forall j :: j in m' ==> j in m || (k <= j && Count(HooksOf(root).elems, EntryAt(j).event) == 1)
  }

  /** What writing one entry into a planted file does, unless it breaks it. */
  lemma RunEntry(text: string, base: Document, k: nat, bin: string, m: Arrays, q: Fronts)
    returns (g: Gap, shape: Shape)
    requires k < 4 && IsRun(base, m, q, bin, text)
    requires InstallEntry(text, k, bin).Ok? && Parse(InstallEntry(text, k, bin).value.0).Some?
    ensures GoodGap(g) && shape != InRoot
    ensures
      var root := PlantedRoot(base.root, m, q, bin);
      && Fits(root, shape, EntryAt(k).event)
      && Parse(InstallEntry(text, k, bin).value.0) == Some(base.(root := Put(root, shape, k, GapText(g), bin)))
  {
    hide EntryAt, Parse, RenderDocument, Put, PlantedRoot, Count, Member, IsLineEnding, Indentation, GoodArrays,
      GoodFronts, PlaceInHooks, PlantedHooks, Fits, InstallEntry;
    var root := PlantedRoot(base.root, m, q, bin);
    HooksOfPlanted(base.root, m, q, bin);
    var nl, indent := InstallEntryAgrees(text, base.(root := root), k, bin);
    g := Gap(nl, indent);
    GetHooks(root);
    shape := Place(root, EntryAt(k).event).value;
  }

  lemma GetHooks(root: Value)
    requires HasHooks(root)
    ensures forall event :: Place(root, event) != Ok(InRoot)
  {
    HooksPlain();
    RawSpells(root.elems, "hooks");
  }

  /** One entry written into a planted file leaves a planted file. */
  lemma RunStep(text: string, base: Document, k: nat, bin: string, m: Arrays, q: Fronts)
    returns (m': Arrays, q': Fronts)
    requires k < 4 && IsRun(base, m, q, bin, text) && Before(k, m, q)
    requires InstallEntry(text, k, bin).Ok? && Parse(InstallEntry(text, k, bin).value.0).Some?
    ensures IsRun(base, m', q', bin, InstallEntry(text, k, bin).value.0) && Before(k + 1, m', q')
    ensures Size(base.root, m', q') == Size(base.root, m, q) + 1
    ensures OnlyPresent(base.root, k, m, m')
  {
    hide EntryAt, Parse, RenderDocument, Put, PlantedRoot, Size, Count, Member, GapText, GoodGap, InstallEntry, Fits, HasHooks;
    var g, shape := RunEntry(text, base, k, bin, m, q);
    if shape == InHooks {
      PutInFront(base.root, m, q, k, g, bin);
      m', q' := m, [(k, g)] + q;
    } else {
      PutInArray(base.root, m, q, k, g, bin);
      ArrayPresent(base.root, m, q, bin, k);
      m', q' := m[k := g], q;
    }
  }

  lemma ArrayPresent(root: Value, m: Arrays, q: Fronts, bin: string, k: nat)
    requires k < 4 && HasHooks(root) && Unused(k, m, q) && Fits(PlantedRoot(root, m, q, bin), InArray, EntryAt(k).event)
    ensures Count(HooksOf(root).elems, EntryAt(k).event) == 1
  {
    hide EntryAt, Count, Member, Place, PlantedRoot;
    PlantedCount(root, m, q, bin, k);
    HooksOfPlanted(root, m, q, bin);
    FitsFacts(PlantedRoot(root, m, q, bin), InArray, EntryAt(k).event);
  }

  lemma PlantedCount(root: Value, m: Arrays, q: Fronts, bin: string, k: nat)
    requires k < 4 && HasHooks(root) && Unused(k, m, q)
    ensures Count(PlantedHooks(root, m, q, bin).elems, EntryAt(k).event) == Count(HooksOf(root).elems, EntryAt(k).event)
  {
    hide EntryAt, GroupTree, Graft, PlantIn, GapText, SetMember, Wrap, Member, Count;
    var h := Node(true, HooksOf(root).pre, PlantIn(HooksOf(root).elems, m, bin));
    PlantKeeps(HooksOf(root).elems, m, bin, k);
    WrapKeeps(h, q, bin, k, h);
  }

  lemma {:induction false} RunPlants(text: string, base: Document, k: nat, already: set<nat>, bin: string, changed: seq<string>, m: Arrays, q: Fronts)
    returns (m': Arrays, q': Fronts)
    requires k <= 4 && IsRun(base, m, q, bin, text) && Before(k, m, q)
    requires InstallFrom(text, k, already, bin, changed).Ok? && Parse(InstallFrom(text, k, already, bin, changed).value.text).Some?
    ensures
      var c := InstallFrom(text, k, already, bin, changed).value;
      && IsRun(base, m', q', bin, c.text)
      && |c.changed| + Size(base.root, m, q) == |changed| + Size(base.root, m', q')
      && OnlyPresent(base.root, k, m, m')
    decreases 4 - k
  {
    hide EntryAt, Parse, InstallEntry, PlantedRoot, Size, GoodGap, Count, Member;
    if k == 4 {
      m', q' := m, q;
    } else if k in already {
      m', q' := RunPlants(text, base, k + 1, already, bin, changed, m, q);
    } else {
      var next := InstallEntry(text, k, bin).value;
      if Parse(next.0) == None {
        BrokenRun(next.0, k + 1, already, bin, changed + [next.1]);
      }
      var m1, q1 := RunStep(text, base, k, bin, m, q);
      m', q' := RunPlants(next.0, base, k + 1, already, bin, changed + [next.1], m1, q1);
    }
  }

  // ---------- The round trip ----------

  lemma {:induction false} NoMarkerNoCut(src: string, changed: seq<string>)
    requires NoMarkers(src)
    ensures UninstallFrom(src, 0, changed) == Change(src, changed)
  {
    hide MarkerAt;
    assert FindMarker(src, 0) == None;
  }

  /** A file that had a hooks object. */
  lemma RestoreHooks(src: string, d: Document, already: set<nat>, bin: string) returns (removed: seq<string>)
    requires Parse(src) == Some(d) && NoMarkers(src) && HasHooks(d.root)
    requires InstallFrom(src, 0, already, bin, []).Ok? && Parse(InstallFrom(src, 0, already, bin, []).value.text).Some?
    ensures
      var c := InstallFrom(src, 0, already, bin, []).value;
      UninstallFrom(c.text, 0, []) == Change(src, removed) && |removed| == |c.changed| && MoreLines([], removed, bin)
  {
    hide EntryAt, Parse, InstallFrom, PlantedRoot, NoMarkers, UninstallFrom, GoodGap, Count, Member, RenderDocument, Valid, Render,
      DocFront, DocBehind, PlantCount, Spaces;
    NothingPlanted(d.root, bin);
    var m, q := RunPlants(src, d, 0, already, bin, [], map[], []);
    var c := InstallFrom(src, 0, already, bin, []).value;
    DocumentSound(src);
    DocumentSound(c.text);
    DocumentAsIs(d);
    HooksPrefixes(DocFront(d), HooksOf(d.root), DocBehind(d));
    PrefixUnmarked(DocFront(d) + "{", src);
    removed := CutDocumentFronts(d, m, q, bin, []);
    removed := CutDocumentArrays(d, m, bin, removed);
    NoMarkerNoCut(src, removed);
  }

  /** The text in front of a hooks object that install wrote itself. */
  lemma FreshFrontUnmarked(before: string, w: string)
    requires AtBoundary(before) && NoMarkers(before) && Spaces(w)
    ensures NoMarkers(before + (w + RenderLabel(Key("hooks", "", " "))) + "{")
  {
    hide MarkerAt, KeyAt, RenderLabel, Spaces, Holds, AtBoundary;
    var l := Key("hooks", "", " ");
    var s := before + (w + RenderLabel(l)) + "{";
    var j := |before| + |w|;
    FreshPieces(before, w, RenderLabel(l));
    HooksLabelValid();
    KeysDiffer();
    NamesPlain();
    SpacesAreFlat(w);
    NoKeyInFlat(s, |before|, w, KEY);
    NoKeyInKey(s, j, l, KEY);
    NoKeyInBracket(s, j + |RenderLabel(l)|, KEY);
    forall p ensures !MarkerAt(s, p) {
      if MarkerAt(s, p) {
        MarkerInText(s, p);
        MarkerIsKey(s, p);
        if p < |before| {
          MarkerBefore(before, s, p);
        }
      }
    }
  }

  lemma HooksLabelValid()
    ensures ValidLabel(Key("hooks", "", " "), true)
  {
    hide ValidBody;
    KeysValid();
  }

  lemma FreshPieces(before: string, w: string, l: string)
    ensures
      var s := before + (w + l) + "{";
      && before <= s && Holds(s, |before|, w) && Holds(s, |before| + |w|, l)
      && |s| == |before| + |w| + |l| + 1 && s[|s| - 1] == '{'
  {
    var s := before + (w + l) + "{";
    assert s[|before|..|before| + |w|] == w;
    assert s[|before| + |w|..|before| + |w| + |l|] == l;
  }

  lemma NoHooksPlace(root: Value, event: string)
    requires IsObject(root) && Get(root, "hooks") == None
    ensures Fits(root, InRoot, event) && Count(root.elems, "hooks") == 0
    ensures WiredEvents(root) == {}
  {
    hide EntryAt, GetIn;
    assert Placed(root, InRoot, event);
    PlacedFacts(root, InRoot, event);
    assert forall k: nat :: k < 4 ==> !EntryWired(root, k);
  }

  /** The tree after the first entry of a file without hooks. */
  lemma FreshRoot(d: Document, w: string, bin: string)
    requires Fits(d.root, InRoot, EntryAt(0).event) && Count(d.root.elems, "hooks") == 0
    ensures
      var root := Put(d.root, InRoot, 0, w, bin);
      && root == Graft(d.root, w, ChunkName(InRoot, 0), ChunkValue(InRoot, 0, bin))
      && HasHooks(root) && HooksOf(root) == HooksObject(0, bin)
      && Front(root.elems, "hooks") == RenderLabel(ChunkName(InRoot, 0))
  {
    hide GroupList, Place, EntryAt, RenderLabel;
    var root := Put(d.root, InRoot, 0, w, bin);
    assert Named(root.elems, "hooks");
    assert Count(Nil, "hooks") == 0;
  }

  lemma NoArraysInFresh(root: Value, m: Arrays, bin: string)
    requires HasHooks(root) && HooksOf(root) == HooksObject(0, bin) && OnlyPresent(root, 1, map[], m)
    ensures m == map[]
  {
    hide GroupList, EntryAt;
    forall j | j in m ensures false {
      if EntryAt(j).event == EntryAt(0).event {
        EventsDistinct(j, 0);
      }
      assert Count(Nil, EntryAt(j).event) == 0;
    }
  }

  lemma RootPrefix(d: Document)
    requires IsObject(d.root)
    ensures d.lead + "{" <= RenderDocument(d)
    ensures RenderDocument(d) == d.lead + (Render(d.root) + d.trail)
  {
    NodeText(d.root);
    hide Render, RenderElems;
    var tail := d.root.pre + (RenderElems(d.root.elems) + ['}']);
    assert RenderDocument(d) == (d.lead + "{") + (tail + d.trail);
  }

  lemma SpacesOfRoot(v: Value)
    requires v.Node? && Valid(v)
    ensures Spaces(v.pre)
  {
    hide ValidElems;
  }

  /** A file that had none: everything sits in the member install wrote. */
  lemma RestoreFresh(src: string, d: Document, bin: string) returns (removed: seq<string>)
    requires Parse(src) == Some(d) && NoMarkers(src) && IsObject(d.root) && Get(d.root, "hooks") == None
    requires InstallFrom(src, 0, {}, bin, []).Ok? && Parse(InstallFrom(src, 0, {}, bin, []).value.text).Some?
    ensures
      var c := InstallFrom(src, 0, {}, bin, []).value;
      UninstallFrom(c.text, 0, []) == Change(src, removed) && |removed| == |c.changed| && MoreLines([], removed, bin)
  {
    hide EntryAt, Parse, PlantedRoot, NoMarkers, UninstallFrom, RenderDocument, Valid, Render, InstallEntry, Front, Behind,
      DocFront, DocBehind, Spaces, Put, GoodGap, Count, Member, IsLineEnding, Indentation, ChunkName, ChunkValue, Graft;
    NoHooksPlace(d.root, EntryAt(0).event);
    var nl, indent := InstallEntryAgrees(src, d, 0, bin);
    var d1 := After(d, InRoot, 0, nl + indent, bin);
    var first := InstallEntry(src, 0, bin).value;
    var c := InstallFrom(src, 0, {}, bin, []).value;
    OneStep(src, bin);
    FreshRoot(d, nl + indent, bin);
    NothingPlanted(d1.root, bin);
    var m, q := RunPlants(first.0, d1, 1, {}, bin, [first.1], map[], []);
    NoArraysInFresh(d1.root, m, bin);
    PlantNothing(HooksOf(d1.root).elems, bin);
    DocumentSound(src);
    DocumentSound(first.0);
    DocumentSound(c.text);
    removed := CutFresh(d, d1, q, nl, indent, bin);
    NoMarkerNoCut(src, removed);
  }

  lemma OneStep(src: string, bin: string)
    requires InstallFrom(src, 0, {}, bin, []).Ok?
    ensures InstallEntry(src, 0, bin).Ok?
    ensures
      var first := InstallEntry(src, 0, bin).value;
      InstallFrom(src, 0, {}, bin, []) == InstallFrom(first.0, 1, {}, bin, [first.1])
  {
    hide InstallEntry;
    assert [] + [InstallEntry(src, 0, bin).value.1] == [InstallEntry(src, 0, bin).value.1];
  }

  lemma CutFresh(d: Document, d1: Document, q: Fronts, nl: string, indent: string, bin: string) returns (removed: seq<string>)
    requires IsObject(d.root) && Valid(d.root) && Valid(d1.root) && NoMarkers(RenderDocument(d))
    requires IsLineEnding(nl) && Indentation(indent) && GoodFronts(q)
    requires d1 == d.(root := Graft(d.root, nl + indent, ChunkName(InRoot, 0), ChunkValue(InRoot, 0, bin)))
    requires HasHooks(d1.root) && Front(d1.root.elems, "hooks") == RenderLabel(ChunkName(InRoot, 0))
    ensures |removed| == |q| + 1 && MoreLines([], removed, bin)
    ensures UninstallFrom(RenderDocument(d1.(root := PlantedRoot(d1.root, map[], q, bin))), 0, []) ==
            UninstallFrom(RenderDocument(d), 0, removed)
  {
    hide EntryAt, PlantedRoot, NoMarkers, UninstallFrom, RenderDocument, Valid, Render, RenderLabel, Front, Behind,
      DocFront, DocBehind, Spaces, Count, Member, GoodFronts, IsLineEnding, Indentation, HooksObject, AtBoundary;
    RootPrefix(d);
    RootPrefix(d1);
    PrefixUnmarked(d.lead + "{", RenderDocument(d));
    EndingAndIndent(nl, indent);
    OpensAtBoundary(d.lead, true);
    FreshFrontUnmarked(d.lead + "{", nl + indent);
    FreshFront(d1, nl + indent);
    NothingPlanted(d1.root, bin);
    removed := CutDocumentFronts(d1, map[], q, bin, []);
    SpacesOfRoot(d.root);
    var line := CutGraft(d.lead, d.root, Gap(nl, indent), InRoot, 0, bin, d.trail, removed);
    removed := removed + [line];
  }

  lemma FreshFront(d: Document, w: string)
    requires HasHooks(d.root) && d.root.pre == w
    requires Front(d.root.elems, "hooks") == RenderLabel(Key("hooks", "", " "))
    ensures DocFront(d) == (d.lead + "{") + (w + RenderLabel(Key("hooks", "", " ")))
  {
    hide RenderLabel, Front;
    var l := RenderLabel(Key("hooks", "", " "));
    assert d.lead + ("{" + (w + l)) == (d.lead + "{") + (w + l);
  }

  /** The text that install leaves goes back to the text it was given. */
  lemma RestoreText(src: string, d: Document, bin: string) returns (removed: seq<string>)
    requires Parse(src) == Some(d) && NoMarkers(src) && Install(src, bin).Ok?
    ensures
      var c := Install(src, bin).value;
      UninstallFrom(c.text, 0, []) == Change(src, removed) && |removed| == |c.changed| && MoreLines([], removed, bin)
  {
    hide EntryAt, Parse, InstallFrom, NoMarkers, UninstallFrom, Place, Count, Get, WiredEvents;
    var already := WiredEvents(d.root);
    var c := InstallFrom(src, 0, already, bin, []).value;
    if c.changed == [] {
      removed := [];
      NoMarkerNoCut(src, []);
    } else if Get(d.root, "hooks") == None {
      NoHooksPlace(d.root, EntryAt(0).event);
      removed := RestoreFresh(src, d, bin);
    } else {
      InstalledHasHooks(src, d, bin);
      removed := RestoreHooks(src, d, already, bin);
    }
  }

  /** Where there is a `hooks` to read, entries are only written into the one
      raw `hooks` object. */
  lemma InstalledHasHooks(src: string, d: Document, bin: string)
    requires Parse(src) == Some(d) && IsObject(d.root) && Get(d.root, "hooks").Some?
    requires InstallFrom(src, 0, WiredEvents(d.root), bin, []).Ok?
    requires
      var c := InstallFrom(src, 0, WiredEvents(d.root), bin, []).value;
      c.changed != [] && Parse(c.text).Some?
    ensures HasHooks(d.root)
  {
    hide EntryAt, Parse, InstallFrom, StandingOf, Count, Get;
    var already := WiredEvents(d.root);
    InstallFromLaw(src, d, 0, already, bin, []);
    NoFailure(d.root, 0, already);
    var j := OnePending(already);
    ReadyHasHooks(d.root, j);
  }

  lemma OnePending(already: set<nat>) returns (j: nat)
    requires Pending(0, already) > 0
    ensures j < 4 && j !in already
  {
    j := if 0 !in already then 0 else if 1 !in already then 1 else if 2 !in already then 2 else 3;
    assert Pending(1, already) == Pending(0, already) - (if 0 in already then 0 else 1);
    assert Pending(2, already) == Pending(1, already) - (if 1 in already then 0 else 1);
    assert Pending(3, already) == Pending(2, already) - (if 2 in already then 0 else 1);
    assert Pending(4, already) == 0;
  }

  lemma ReadyHasHooks(root: Value, j: nat)
    requires j < 4 && IsObject(root) && Get(root, "hooks").Some? && StandingOf(root, j) == Ready
    ensures HasHooks(root)
  {
    hide EntryAt, Get;
    var shape := Place(root, EntryAt(j).event).value;
    FitsFacts(root, shape, EntryAt(j).event);
  }

  /** Uninstall after a successful install, for every file without a marker.
      The bytes come back exactly, one line removed for each line added, and
      the call succeeds if and only if no event was wired before: an entry the
      file already carried in a spelling without a marker is reported as left
      over. */
  lemma UninstallRestores(src: string, d: Document, bin: string)
    requires Parse(src) == Some(d) && NoMarkers(src) && Install(src, bin).Ok?
    ensures
      var c := Install(src, bin).value;
      var before := WiredEvents(d.root);
      if before == {} then
        && Uninstall(c.text).Ok? && Uninstall(c.text).value.text == src && |Uninstall(c.text).value.changed| == 4
        && forall i :: 0 <= i < 4 ==> EntryLine(Uninstall(c.text).value.changed[i], bin)
      else
        Uninstall(c.text) == Err(Residual(|before|))
  {
    hide EntryAt, Parse, InstallFrom, NoMarkers, UninstallFrom, Failure, WiredEvents, EntryWired, Reached;
    var removed := RestoreText(src, d, bin);
    InstallWires(src, d, bin);
  }
}
