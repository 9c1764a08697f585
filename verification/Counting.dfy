/**
 The guard that counts `"command":` in a chunk's bytes, as a count of keys in
 the chunk's tree; and the hooks that it does not see.
 */
module Counting {
  import opened Json
  import opened Scanner
  import opened Members
  import opened Markers
  import opened Doc
  import opened Settings
  import opened Chunks
  import opened Removal
  import opened Cut
  import opened Spans

  // ---------- Keys that are counted ----------

  /** The colon follows right behind the closing quote, and the key is `command`
      or ends in an escaped quote and `command`. */
  predicate Tight(l: Label) {
    l.Key? && l.beforeColon == "" && (l.raw == COMMAND || EndsWith(l.raw, "\"" + COMMAND))
  }

  function Ones(b: bool): nat { if b then 1 else 0 }

  function TightKeys(v: Value): nat {
    if v.Node? then TightIn(v.elems) else 0
  }

  function TightIn(e: Elems): nat {
    if e.Nil? then 0 else Ones(Tight(e.name)) + TightKeys(e.value) + TightIn(e.rest)
  }

  // ---------- Occurrences ----------

  /** How many occurrences of `"command":` start in `s[from..to]`. */
  function Occ(s: string, from: nat, to: nat): nat
    decreases if from < to then to - from else 0
  {
    if from >= to then 0 else Ones(Holds(s, from, COMMAND_COLON)) + Occ(s, from + 1, to)
  }

  lemma {:induction false} OccJoin(s: string, a: nat, b: nat, c: nat)
    requires a <= b <= c
    ensures Occ(s, a, c) == Occ(s, a, b) + Occ(s, b, c)
    decreases b - a
  {
    hide Holds, COMMAND_COLON;
    if a == b {
    } else {
      OccJoin(s, a + 1, b, c);
    }
  }

  lemma {:induction false} OccNone(s: string, from: nat, to: nat)
    requires forall p :: from <= p < to ==> !Holds(s, p, COMMAND_COLON)
    ensures Occ(s, from, to) == 0
    decreases if from < to then to - from else 0
  {
    hide Holds, COMMAND_COLON;
    if to <= from {
    } else {
      OccNone(s, from + 1, to);
    }
  }

  lemma NoKeyNoOcc(s: string, from: nat, to: nat)
    requires NoKeyIn(s, from, to, COMMAND)
    ensures Occ(s, from, to) == 0
  {
    hide KeyAt, Holds, COMMAND, COMMAND_COLON;
    forall p | from <= p < to ensures !Holds(s, p, COMMAND_COLON) {
      CommandIsKey(s, p);
    }
    OccNone(s, from, to);
  }

  lemma OccOnce(s: string, from: nat, p: nat, to: nat)
    requires from <= p < to && Holds(s, p, COMMAND_COLON)
    requires forall q :: from <= q < to && q != p ==> !Holds(s, q, COMMAND_COLON)
    ensures Occ(s, from, to) == 1
  {
    hide Holds, COMMAND_COLON;
    OccJoin(s, from, p, to);
    OccNone(s, from, p);
    OccNone(s, p + 1, to);
  }

  /** In a range whose last byte is no part of the pattern, none is cut off. */
  lemma {:induction false} CountIsOcc(s: string, from: nat, end: nat)
    requires from < end <= |s| && (s[end - 1] == '}' || s[end - 1] == ']')
    ensures CountIn(s, from, end, COMMAND_COLON) == Occ(s, from, end)
    decreases end - from
  {
    NotBeyond(s, from, end);
    hide Holds, COMMAND_COLON;
    if from == end - 1 {
    } else {
      CountIsOcc(s, from + 1, end);
    }
  }

  lemma NotBeyond(s: string, p: nat, end: nat)
    requires p < end <= |s| && (s[end - 1] == '}' || s[end - 1] == ']')
    ensures Holds(s, p, COMMAND_COLON) ==> p + |COMMAND_COLON| <= end
  {
    if Holds(s, p, COMMAND_COLON) && p + |COMMAND_COLON| > end {
      HoldsAt(s, p, COMMAND_COLON, end - 1 - p);
    }
  }

  // ---------- A key ----------

  /** Where a key that ends in the name has the name's opening quote. */
  function NameAt(i: nat, raw: string): int { i + |raw| - |COMMAND| }

  lemma CommandShape()
    ensures |COMMAND| == 7 && |COMMAND_COLON| == 10 && COMMAND_COLON == "\"" + COMMAND + "\"" + ":"
  {}

  lemma TightIsThere(s: string, i: nat, l: Label)
    requires l.Key? && Holds(s, i, RenderLabel(l)) && Tight(l)
    ensures i <= NameAt(i, l.raw) && Holds(s, NameAt(i, l.raw), COMMAND_COLON)
  {
    hide COMMAND, COMMAND_COLON;
    CommandShape();
    KeyText(l);
    var raw := l.raw;
    if raw == COMMAND {
      assert RenderLabel(l) == COMMAND_COLON + l.afterColon;
      HoldsSplit(s, i, COMMAND_COLON, l.afterColon);
    } else {
      var k := |raw| - 8;
      assert raw[k..] == "\"" + COMMAND;
      assert raw == raw[..k] + raw[k..];
      assert RenderLabel(l) == ("\"" + raw[..k]) + (COMMAND_COLON + l.afterColon);
      HoldsSplit(s, i, "\"" + raw[..k], COMMAND_COLON + l.afterColon);
      HoldsSplit(s, i + k + 1, COMMAND_COLON, l.afterColon);
    }
  }

  lemma ThereIsTight(s: string, i: nat, l: Label, p: nat)
    requires l.Key? && ValidLabel(l, true) && Holds(s, i, RenderLabel(l))
    requires i <= p < i + |l.raw| + 2 && Holds(s, p, COMMAND_COLON)
    ensures Tight(l) && p == NameAt(i, l.raw)
  {
    hide COMMAND, COMMAND_COLON, ValidBody, RenderLabel, KeyAt, Quoted, FollowsString, EndsWith;
    CommandShape();
    KeyParts(s, i, l);
    var j := i + |Quoted(l.raw)|;
    QuotedLength(l.raw);
    ColonFollows(s, j, l.beforeColon);
    NamesPlain();
    CommandIsKey(s, p);
    KeyIsQuoted(s, p);
    if p == i + |l.raw| + 1 {
      NoKeyAtClose(s, p, COMMAND);
    } else {
      NameInQuoted(s, i, l.raw, p, COMMAND);
      ColonIsNext(s, j, l.beforeColon, p);
      EndIsQuoted(s, i, l.raw, p);
    }
  }

  lemma KeyIsQuoted(s: string, p: nat)
    requires KeyAt(s, p, COMMAND)
    ensures Holds(s, p, Quoted(COMMAND))
  {}

  /** Only an empty whitespace lets the colon follow the quote. */
  lemma ColonIsNext(s: string, j: nat, w: string, p: nat)
    requires Holds(s, p, COMMAND_COLON) && p + 9 == j && Holds(s, j, w) && Spaces(w)
    ensures w == ""
  {
    hide COMMAND;
    CommandShape();
    HoldsAt(s, p, COMMAND_COLON, 9);
    if w != "" {
      HoldsAt(s, j, w, 0);
    }
  }

  lemma EndIsQuoted(s: string, i: nat, raw: string, p: nat)
    requires Holds(s, i, Quoted(raw)) && Holds(s, p, Quoted(COMMAND)) && i <= p && p + 9 == i + |raw| + 2
    ensures raw == COMMAND || EndsWith(raw, "\"" + COMMAND)
  {
    hide COMMAND, Holds;
    CommandShape();
    QuotedBytes(s, i, raw);
    QuotedBytes(s, p, COMMAND);
    var k := |raw| - 7;
    assert raw[k..] == COMMAND by {
      assert forall m :: 0 <= m < 7 ==> raw[k + m] == s[i + 1 + k + m] && COMMAND[m] == s[p + 1 + m];
    }
    if p > i {
      assert raw[k - 1] == s[p] == '"';
      assert raw[k - 1..] == "\"" + COMMAND;
    }
  }

  lemma LabelOcc(s: string, i: nat, l: Label, isObject: bool)
    requires ValidLabel(l, isObject) && Holds(s, i, RenderLabel(l))
    ensures Occ(s, i, i + |RenderLabel(l)|) == Ones(Tight(l))
  {
    if l.Key? {
      KeyOcc(s, i, l);
    }
  }

  lemma KeyOcc(s: string, i: nat, l: Label)
    requires l.Key? && ValidLabel(l, true) && Holds(s, i, RenderLabel(l))
    ensures Occ(s, i, i + |RenderLabel(l)|) == Ones(Tight(l))
  {
    hide Holds, RenderLabel, ValidBody, Tight, Quoted, COMMAND, COMMAND_COLON, Flat, Spaces, NameAt, PlainName;
    KeyParts(s, i, l);
    QuotedLength(l.raw);
    var j := i + |Quoted(l.raw)|;
    SpacesAreFlat(l.beforeColon);
    SpacesAreFlat(l.afterColon);
    PunctuationIsFlat();
    NoKeyInFlat(s, j, l.beforeColon, COMMAND);
    NoKeyInFlat(s, j + |l.beforeColon|, ":", COMMAND);
    NoKeyInFlat(s, j + |l.beforeColon| + 1, l.afterColon, COMMAND);
    NoKeyNoOcc(s, j, i + |RenderLabel(l)|);
    OccJoin(s, i, j, i + |RenderLabel(l)|);
    QuotedOcc(s, i, l);
  }

  lemma QuotedOcc(s: string, i: nat, l: Label)
    requires l.Key? && ValidLabel(l, true) && Holds(s, i, RenderLabel(l))
    ensures Occ(s, i, i + |l.raw| + 2) == Ones(Tight(l))
  {
    hide Holds, RenderLabel, ValidBody, Tight, COMMAND, COMMAND_COLON, ValidLabel, Occ;
    CommandShape();
    forall p | i <= p < i + |l.raw| + 2 && Holds(s, p, COMMAND_COLON) ensures Tight(l) && p == NameAt(i, l.raw) {
      ThereIsTight(s, i, l, p);
    }
    if Tight(l) {
      TightIsThere(s, i, l);
      OccOnce(s, i, NameAt(i, l.raw), i + |l.raw| + 2);
    } else {
      OccNone(s, i, i + |l.raw| + 2);
    }
  }

  // ---------- A tree ----------

  /** What is counted in a value's text is the tree's tight keys, whatever its
      string values hold. */
  lemma {:induction false} ValueOcc(s: string, i: nat, v: Value)
    requires Valid(v) && Holds(s, i, Render(v)) && ValueEnds(s, i + |Render(v)|)
    ensures Occ(s, i, i + |Render(v)|) == TightKeys(v)
    decreases v
  {
    hide Holds, ValidBody, ValidAtom, PlainName, RenderElems, ValidElems, SkipWs, FollowsString, NoKeyIn, TightIn, Stands, Occ;
    match v
    case Str(body) =>
      NamesPlain();
      NoKeyInString(s, i, body, COMMAND);
      NoKeyNoOcc(s, i, i + |Render(v)|);
    case Atom(text) =>
      NoKeyInAtom(s, i, text, COMMAND);
      NoKeyNoOcc(s, i, i + |Render(v)|);
    case Node(isObject, pre, elems) =>
      StandsInNode(s, i, v);
      NoKeyInBrackets(s, i, v, COMMAND);
      NoKeyNoOcc(s, i, i + 1 + |pre|);
      NoKeyNoOcc(s, i + |Render(v)| - 1, i + |Render(v)|);
      ElemsOcc(s, i + 1 + |pre|, elems, isObject);
      OccJoin(s, i, i + 1 + |pre|, i + |Render(v)| - 1);
      OccJoin(s, i, i + |Render(v)| - 1, i + |Render(v)|);
  }

  lemma {:induction false} ElemsOcc(s: string, i: nat, e: Elems, isObject: bool)
    requires Stands(s, i, e, isObject)
    ensures Occ(s, i, i + |RenderElems(e)|) == TightIn(e)
    decreases e
  {
    hide Stands, RenderElems, TightKeys, RestAt, Occ, Holds, COMMAND_COLON, Tight;
    if e.Nil? {
      EmptyText();
      OccNone(s, i, i);
    } else {
      HeadOcc(s, i, e, isObject);
      if e.rest.Cons? {
        StandsRest(s, i, e, isObject);
        ElemsOcc(s, RestAt(i, e), e.rest, isObject);
        MemberStandsBound(s, i, e, isObject);
        OccJoin(s, i, RestAt(i, e), i + |RenderElems(e)|);
      } else {
        assert TightIn(e.rest) == 0;
      }
    }
  }

  lemma {:induction false} HeadOcc(s: string, i: nat, e: Elems, isObject: bool)
    requires e.Cons? && Stands(s, i, e, isObject)
    ensures i <= HeadEnd(i, e) && Occ(s, i, HeadEnd(i, e)) == Ones(Tight(e.name)) + TightKeys(e.value)
    decreases e, 0
  {
    hide Holds, Render, RenderLabel, RenderElems, ValidBody, ValidAtom, PlainName, RestText, KeyAt, SkipWs, Spaces, ValueEnds, Stands,
      Occ, Tight, TightKeys;
    StandsOpen(s, i, e, isObject);
    ElemParts(s, i, e);
    ValueEndsThere(s, i, e, isObject);
    LabelOcc(s, i, e.name, isObject);
    ValueOcc(s, ValueAt(i, e), e.value);
    NoKeyInGap(s, i, e, isObject, COMMAND);
    GapForward(s, i, e, isObject);
    NoKeyNoOcc(s, AfterAt(i, e), HeadEnd(i, e));
    OccJoin(s, i, ValueAt(i, e), AfterAt(i, e));
    OccJoin(s, i, AfterAt(i, e), HeadEnd(i, e));
  }

  lemma GapForward(s: string, i: nat, e: Elems, isObject: bool)
    requires e.Cons? && Stands(s, i, e, isObject)
    ensures i <= ValueAt(i, e) <= AfterAt(i, e) <= HeadEnd(i, e)
  {
    hide Holds, Render, RenderLabel, RenderElems, ValidElems, RestText;
    ElemParts(s, i, e);
  }

  /** The guard's number for an element is the number of tight keys in it. */
  lemma CommandsAreKeys(l: Label, v: Value)
    requires ValidLabel(l, l.Key?) && Valid(v) && v.Node?
    ensures Commands(l, v) == Ones(Tight(l)) + TightKeys(v)
  {
    hide Holds, Render, RenderLabel, Valid, ValidLabel, Occ, CountIn, COMMAND_COLON, Tight, TightKeys, ValueEnds, ElementText;
    var t := ElementText(l, v);
    ElementTextIs(l, v);
    HoldsSlice0(t);
    HoldsSplit(t, 0, RenderLabel(l), Render(v));
    EndOfText(t);
    LabelOcc(t, 0, l, l.Key?);
    ValueOcc(t, |RenderLabel(l)|, v);
    OccJoin(t, 0, |RenderLabel(l)|, |t|);
    LastIsClose(l, v);
    CountIsOcc(t, 0, |t|);
  }

  lemma EndOfText(t: string)
    ensures ValueEnds(t, |t|)
  {}

  lemma LastIsClose(l: Label, v: Value)
    requires v.Node?
    ensures var t := ElementText(l, v); t != "" && (t[|t| - 1] == '}' || t[|t| - 1] == ']')
  {
    hide RenderLabel;
    NodeText(v);
    hide Render, RenderElems;
    ClosesLast(RenderLabel(l), [Open(v.isObject)], v.pre, RenderElems(v.elems), [Close(v.isObject)]);
  }

  // ---------- Hooks ----------

  /** A hook object in which no key is counted: one without a command, or with
      one spelled with an escape or with whitespace in front of its colon. */
  predicate Bare(hook: Value) {
    hook.Node? && OwnTight(hook.elems) == 0
  }

  function OwnTight(e: Elems): nat {
    if e.Nil? then 0 else Ones(Tight(e.name)) + OwnTight(e.rest)
  }

  /** The tight keys deeper down. */
  function DeepTight(e: Elems): nat {
    if e.Nil? then 0 else TightKeys(e.value) + DeepTight(e.rest)
  }

  lemma {:induction false} TightSplits(e: Elems)
    ensures TightIn(e) == OwnTight(e) + DeepTight(e)
  {
    hide Tight;
    if e.Nil? {
    } else {
      TightSplits(e.rest);
    }
  }

  /** The hooks under an element: the objects that stand in an array whose key
      spells `hooks`, at any depth; all of them, or the bare ones. */
  function HooksOfElement(l: Label, v: Value, bareOnly: bool): nat
    decreases v
  {
    if v.Node? then HooksIn(v.elems, !v.isObject && Spells(l, "hooks"), bareOnly) else 0
  }

  function HooksIn(e: Elems, here: bool, bareOnly: bool): nat
    decreases e
  {
    if e.Nil? then 0
    else
      Ones(here && IsObject(e.value) && (bareOnly ==> Bare(e.value)))
      + HooksOfElement(e.name, e.value, bareOnly)
      + HooksIn(e.rest, here, bareOnly)
  }

  lemma {:induction false} HooksAreSeen(e: Elems, here: bool)
    ensures HooksIn(e, here, true) <= HooksIn(e, here, false) <= HooksIn(e, here, true) + DeepTight(e)
    decreases e
  {
    hide Tight, Spells;
    if e.Nil? {
    } else {
      HooksAreSeen(e.rest, here);
      if e.value.Node? {
        HooksAreSeen(e.value.elems, !e.value.isObject && Spells(e.name, "hooks"));
        TightSplits(e.value.elems);
      }
    }
  }

  /** What a cut chunk takes with it: beside at most one hook, exactly the bare
      ones. So a chunk that holds a hook which is not bare, as one of ours, holds
      no other exactly when it holds no bare one. */
  lemma CutHolds(l: Label, v: Value)
    requires Cuttable(l, v)
    ensures
      var all, bare := HooksOfElement(l, v, false), HooksOfElement(l, v, true);
      && bare <= all <= bare + 1
      && (bare < all ==> (all == 1 <==> bare == 0))
  {
    hide Tight, Spells, Marked, Commands, Valid, ValidLabel;
    CuttableIsValid(l, v);
    CommandsAreKeys(l, v);
    HooksAreSeen(v.elems, !v.isObject && Spells(l, "hooks"));
    TightSplits(v.elems);
  }

  lemma CuttableIsValid(l: Label, v: Value)
    requires Cuttable(l, v)
    ensures ValidLabel(l, l.Key?) && Valid(v) && v.Node? && Commands(l, v) == 1
  {
    hide Valid, ValidLabel, Commands;
  }
}
