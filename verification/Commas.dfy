/**
 A list with a comma too many, at any depth of a file: no reader takes the text.
 */
module Commas {
  import opened Json
  import opened Scanner
  import opened Members
  import opened Parser
  import opened Broken
  import opened Paths

  // ---------- Where an element stands ----------

  function ElemAt(j: nat, e: Elems, i: nat): (p: nat)
    requires i < Len(e)
    ensures j <= p
    decreases i
  {
    if i == 0 then j else ElemAt(RestAt(j, e), e.rest, i - 1)
  }

  lemma {:induction false} ElemAtIs(j: nat, e: Elems, i: nat)
    requires 0 < i < Len(e)
    ensures ElemAt(j, e, i) == j + |Heads(e, i)| + |SepBefore(e, i)|
    decreases i
  {
    hide RenderLabel, Render;
    if i == 1 {
    } else {
      ElemAtIs(RestAt(j, e), e.rest, i - 1);
    }
  }

  lemma {:induction false} StandsAt(s: string, j: nat, e: Elems, isObject: bool, i: nat)
    requires i < Len(e) && Stands(s, j, e, isObject)
    ensures Stands(s, ElemAt(j, e, i), From(e, i), isObject)
    decreases i
  {
    hide Stands, RestAt;
    if i == 0 {
    } else {
      StandsRest(s, j, e, isObject);
      StandsAt(s, RestAt(j, e), e.rest, isObject, i - 1);
    }
  }

  /** In a container that stands at `j`. */
  function InsideAt(j: nat, v: Value, i: nat): nat
    requires HasElem(v, i)
  {
    ElemAt(j + 1 + |v.pre|, v.elems, i)
  }

  lemma InsideIs(j: nat, v: Value, i: nat)
    requires HasElem(v, i)
    ensures InsideAt(j, v, i) == j + |Bound(v, i)| + |Lead(v, i)|
  {
    hide Heads;
    if i > 0 {
      ElemAtIs(j + 1 + |v.pre|, v.elems, i);
    }
  }

  // ---------- Failure spreads outwards ----------

  lemma {:induction false} ListBreaks(s: string, t: string, n: nat, j: nat, e: Elems, isObject: bool, i: nat)
    requires SameUpTo(s, t, n) && Stands(s, j, e, isObject) && i < Len(e) && ElemAt(j, e, i) < n
    requires ElemAt(j, e, i) <= |t| && BadList(t, ParseElems(t, ElemAt(j, e, i), isObject))
    ensures j <= |t| && BadList(t, ParseElems(t, j, isObject))
    decreases i
  {
    hide Stands, SameUpTo, BadList, RestAt, ParseElems;
    if i == 0 {
    } else {
      StandsRest(s, j, e, isObject);
      ListBreaks(s, t, n, RestAt(j, e), e.rest, isObject, i - 1);
      ElementKept(s, t, n, j, e, isObject);
    }
  }

  lemma ContainerBreaks(s: string, t: string, n: nat, j: nat, v: Value)
    requires v.Node? && v.elems.Cons? && Valid(v) && Holds(s, j, Render(v)) && SameUpTo(s, t, n)
    requires
      var first := j + 1 + |v.pre|;
      first < n && first <= |t| && BadList(t, ParseElems(t, first, v.isObject))
    ensures j <= |t| && ParseValue(t, j) == Fail
  {
    hide Holds, Render, RenderElems, Valid, ValidElems, SameUpTo, SkipWs, IsSpace, ParseElems, Spaces;
    StandsInNode(s, j, v);
    FirstNotClose(s, j + 1 + |v.pre|, v.elems, v.isObject);
    PreKept(s, t, n, j, v);
  }

  lemma FirstNotClose(s: string, i: nat, e: Elems, isObject: bool)
    requires e.Cons? && Stands(s, i, e, isObject)
    ensures i < |s| && !IsSpace(s[i]) && s[i] != '}' && s[i] != ']'
  {
    hide Holds, RenderElems, ValidElems;
    FirstOfElems(s, i, e, isObject);
  }

  lemma LenCons(e: Elems, i: nat)
    requires i < Len(e)
    ensures e.Cons?
  {}

  /** Where the value of element `i` is stuck, the container is not read. */
  lemma ElementBreaks(s: string, t: string, n: nat, j: nat, v: Value, i: nat)
    requires HasElem(v, i) && Valid(v) && Holds(s, j, Render(v)) && SameUpTo(s, t, n)
    requires
      var at := j + |FrontOf(v, i)|;
      at < n && at <= |t| && Stuck(t, at)
    ensures j <= |t| && ParseValue(t, j) == Fail
  {
    hide Holds, Render, RenderLabel, RenderElems, Valid, SameUpTo, Stuck, BadList, Bound, Lead, Stands, ParseElems, ParseValue, ElemAt;
    var first := j + 1 + |v.pre|;
    var p := InsideAt(j, v, i);
    InsideIs(j, v, i);
    StandsInNode(s, j, v);
    StandsAt(s, first, v.elems, v.isObject, i);
    FirstBreaks(s, t, n, p, From(v.elems, i), v.isObject);
    ListBreaks(s, t, n, first, v.elems, v.isObject, i);
    LenCons(v.elems, i);
    ContainerBreaks(s, t, n, j, v);
  }

  lemma InnerStands(s: string, j: nat, v: Value, path: seq<nat>)
    requires IsPath(v, path) && Valid(v) && Holds(s, j, Render(v))
    ensures Holds(s, j + |FrontOf(v, path[0])|, Render(Inner(v, path)))
  {
    hide Holds, Render, RenderLabel, RenderElems, Valid, Bound, Lead, Stands, ElemAt;
    InsideIs(j, v, path[0]);
    StandsInNode(s, j, v);
    StandsAt(s, j + 1 + |v.pre|, v.elems, v.isObject, path[0]);
    MemberStandsFirst(s, InsideAt(j, v, path[0]), From(v.elems, path[0]), v.isObject);
  }

  lemma {:induction false} HolderStands(s: string, j: nat, v: Value, path: seq<nat>)
    requires IsPath(v, path) && Valid(v) && Holds(s, j, Render(v))
    ensures Holds(s, j + |Left(v, path)|, Render(Holder(v, path)))
    decreases |path|
  {
    hide Holds, Render, Valid, FrontOf;
    if |path| == 1 {
    } else {
      InnerStands(s, j, v, path);
      InnerValid(v, path);
      HolderStands(s, j + |FrontOf(v, path[0])|, Inner(v, path), path[1..]);
    }
  }

  /** Where a container at some depth is not read, the whole tree is not. */
  lemma {:induction false} TreeBreaks(s: string, t: string, n: nat, j: nat, v: Value, path: seq<nat>)
    requires IsPath(v, path) && Valid(v) && Holds(s, j, Render(v)) && SameUpTo(s, t, n)
    requires
      var at := j + |Left(v, path)|;
      at < n && at <= |t| && ParseValue(t, at) == Fail
    ensures j <= |t| && ParseValue(t, j) == Fail
    decreases |path|
  {
    hide Holds, Render, Valid, FrontOf, ParseValue, SameUpTo, Stuck;
    if |path| == 1 {
    } else {
      var at := j + |FrontOf(v, path[0])|;
      InnerStands(s, j, v, path);
      InnerValid(v, path);
      TreeBreaks(s, t, n, at, Inner(v, path), path[1..]);
      NotReadIsStuck(t, at);
      ElementBreaks(s, t, n, j, v, path[0]);
    }
  }

  lemma NotReadIsStuck(t: string, i: nat)
    requires i <= |t| && ParseValue(t, i) == Fail
    ensures Stuck(t, i)
  {}

  // ---------- The comma ----------

  lemma NothingAt(t: string, i: nat, isObject: bool)
    requires i < |t| && (t[i] == ',' || t[i] == '}' || t[i] == ']')
    ensures ParseElems(t, i, isObject) == Fail
  {
    assert !isObject ==> AtomEnd(t, i) == i;
    assert !isObject ==> ParseScalar(t, i) == Fail;
  }

  /** An element that is read as before, and nothing readable behind its comma. */
  lemma NothingBehind(s: string, t: string, p: nat, f: Elems, isObject: bool)
    requires f.Cons? && f.rest.Cons? && Stands(s, p, f, isObject)
    requires
      var n := AfterAt(p, f) + |f.after| + 1;
      && SameUpTo(s, t, n)
      && SkipWs(t, n) <= |t| && ParseElems(t, SkipWs(t, n), isObject) == Fail
    ensures p <= |t| && ParseElems(t, p, isObject) == Fail
  {
    hide Holds, RenderLabel, Render, RenderElems, Valid, ValidLabel, ValidElems, RestText, SameUpTo, SkipWs, IsSpace, ParseElems, Spaces,
      ParseLabel, ParseValue;
    var comma := AfterAt(p, f) + |f.after|;
    var n := comma + 1;
    ElemParts(s, p, f);
    RestParts(s, p, f);
    FieldsValid(f, isObject);
    LabelKept(s, t, n, p, f, isObject);
    ValueKept(s, t, n, p, f, isObject);
    HoldsKept(s, t, n, AfterAt(p, f), f.after);
    CharKept(s, t, n, comma);
    InRange(s, t, n, comma);
    CommaIsNoSpace();
    SkipSpaces(t, AfterAt(p, f), f.after);
    CommaThenNothing(t, p, f, isObject);
  }

  lemma CommaThenNothing(t: string, p: nat, f: Elems, isObject: bool)
    requires f.Cons? && p <= ValueAt(p, f) < AfterAt(p, f) <= |t|
    requires ParseLabel(t, p, isObject) == Done(f.name, ValueAt(p, f))
    requires ParseValue(t, ValueAt(p, f)) == Done(f.value, AfterAt(p, f))
    requires
      var comma := AfterAt(p, f) + |f.after|;
      && comma < |t| && SkipWs(t, AfterAt(p, f)) == comma && t[comma] == ','
      && ParseElems(t, SkipWs(t, comma + 1), isObject) == Fail
    ensures ParseElems(t, p, isObject) == Fail
  {
    hide ParseLabel, ParseValue, Spaces, SkipWs, RenderLabel, Render;
    assert ParseElems(t, p, isObject) == ParseRest(t, p, isObject, f.name, f.value, AfterAt(p, f));
  }

  lemma {:induction false} FromPrevious(e: Elems, i: nat)
    requires 0 < i < Len(e)
    ensures From(e, i - 1).rest.Cons? && From(e, i - 1).rest == From(e, i) && From(e, i - 1).sep == SepBefore(e, i)
    decreases i
  {
    if i == 1 {
    } else {
      FromPrevious(e.rest, i - 1);
    }
  }

  lemma {:induction false} ElemAtNext(j: nat, e: Elems, i: nat)
    requires 0 < i < Len(e)
    ensures ElemAt(j, e, i) == RestAt(ElemAt(j, e, i - 1), From(e, i - 1))
    decreases i
  {
    hide RenderLabel, Render;
    if i == 1 {
    } else {
      ElemAtNext(RestAt(j, e), e.rest, i - 1);
    }
  }

  /** A container whose text goes on, where its element `i` should start, with a
      comma, or with a closing bracket although a comma stands before it. */
  lemma GapBreaks(s: string, t: string, j: nat, v: Value, i: nat)
    requires HasElem(v, i) && Valid(v) && Holds(s, j, Render(v))
    requires
      var n := j + |Bound(v, i)|;
      && SameUpTo(s, t, n) && SkipWs(t, n) < |t|
      && var c := t[SkipWs(t, n)];
         c == ',' || (i > 0 && (c == '}' || c == ']'))
    ensures j <= |t| && ParseValue(t, j) == Fail
  {
    hide Holds, Render, RenderElems, Valid, SameUpTo, SkipWs, Stands, ParseElems, Spaces, ElemAt, RenderLabel;
    var n := j + |Bound(v, i)|;
    NothingAt(t, SkipWs(t, n), v.isObject);
    StandsInNode(s, j, v);
    if i == 0 {
      CharKept(s, t, n, j);
      InRange(s, t, n, j);
    } else {
      PreviousBreaks(s, t, j, v, i);
      LenCons(v.elems, i);
      hide Bound;
      ContainerBreaks(s, t, n, j, v);
    }
  }

  lemma PreviousBreaks(s: string, t: string, j: nat, v: Value, i: nat)
    requires HasElem(v, i) && 0 < i && Valid(v) && Holds(s, j, Render(v))
    requires
      var n := j + |Bound(v, i)|;
      SameUpTo(s, t, n) && SkipWs(t, n) < |t| && ParseElems(t, SkipWs(t, n), v.isObject) == Fail
    ensures
      var first := j + 1 + |v.pre|;
      first < j + |Bound(v, i)| && first <= |t| && BadList(t, ParseElems(t, first, v.isObject))
  {
    hide Holds, Render, RenderElems, Valid, SameUpTo, SkipWs, Stands, ParseElems, Spaces, ElemAt, RenderLabel, Heads, BadList;
    var n := j + |Bound(v, i)|;
    var first := j + 1 + |v.pre|;
    var p := ElemAt(first, v.elems, i - 1);
    var f := From(v.elems, i - 1);
    StandsInNode(s, j, v);
    StandsAt(s, first, v.elems, v.isObject, i - 1);
    FromPrevious(v.elems, i);
    ElemAtNext(first, v.elems, i);
    ElemAtIs(first, v.elems, i);
    NothingBehind(s, t, p, f, v.isObject);
    FailIsBad(t, ParseElems(t, p, v.isObject));
    ListBreaks(s, t, n, first, v.elems, v.isObject, i - 1);
  }

  lemma FailIsBad(t: string, p: Parsed<Elems>)
    requires p == Fail
    ensures BadList(t, p)
  {}
}
