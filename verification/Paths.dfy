/**
 Elements at any depth of a tree: the text in front of one and behind it, and
 the tree in which the list continues in another way from there on.
 */
module Paths {
  import opened Json
  import opened Scanner
  import opened Edits

  // ---------- An element of a list ----------

  function Len(e: Elems): nat { if e.Nil? then 0 else 1 + Len(e.rest) }

  /** The list from its `i`th element on. */
  function From(e: Elems, i: nat): (f: Elems)
    requires i < Len(e)
    ensures f.Cons?
  {
    if i == 0 then e else From(e.rest, i - 1)
  }

  /** The text of the first `i` elements up to the comma behind the last of
      them. */
  function Heads(e: Elems, i: nat): string
    requires 0 < i < Len(e)
  {
    if i == 1 then RenderLabel(e.name) + (Render(e.value) + (e.after + ",")) else HeadText(e) + Heads(e.rest, i - 1)
  }

  function SepBefore(e: Elems, i: nat): string
    requires 0 < i < Len(e)
  {
    if i == 1 then e.sep else SepBefore(e.rest, i - 1)
  }

  /** The first `i` elements, then whitespace `w` and the elements `f`. */
  function Onto(e: Elems, i: nat, w: string, f: Elems): Elems
    requires 0 < i < Len(e)
  {
    if i == 1 then e.(sep := w, rest := f) else e.(rest := Onto(e.rest, i - 1, w, f))
  }

  function SetAt(e: Elems, i: nat, x: Value): Elems
    requires i < Len(e)
  {
    if i == 0 then e.(value := x) else e.(rest := SetAt(e.rest, i - 1, x))
  }

  lemma HeadsJoin(l: string, v: string, a: string, s: string, r: string)
    ensures l + (v + (a + ("," + (s + r)))) == (l + (v + (a + ","))) + (s + r)
  {}

  lemma {:induction false} OntoText(e: Elems, i: nat, w: string, f: Elems)
    requires 0 < i < Len(e) && f.Cons?
    ensures RenderElems(Onto(e, i, w, f)) == Heads(e, i) + (w + RenderElems(f))
    decreases i
  {
    hide RenderLabel, Render, RenderElems, HeadText;
    var g := Onto(e, i, w, f);
    if i == 1 {
      ElemsText(g);
      HeadsJoin(RenderLabel(e.name), Render(e.value), e.after, w, RenderElems(f));
    } else {
      OntoText(e.rest, i - 1, w, f);
      OntoCons(e.rest, i - 1, w, f);
      TailText(g);
      SameHeadText(e, g);
      Regroup3(HeadText(e), Heads(e.rest, i - 1), w + RenderElems(f));
    }
  }

  lemma OntoCons(e: Elems, i: nat, w: string, f: Elems)
    requires 0 < i < Len(e)
    ensures Onto(e, i, w, f).Cons?
  {}

  lemma SameHeadText(e: Elems, g: Elems)
    requires e.Cons? && g.Cons? && e.name == g.name && e.value == g.value && e.after == g.after && e.sep == g.sep
    ensures HeadText(e) == HeadText(g)
  {}

  lemma Regroup3(a: string, b: string, c: string)
    ensures a + (b + c) == (a + b) + c
  {}

  lemma {:induction false} OntoItself(e: Elems, i: nat)
    requires 0 < i < Len(e)
    ensures Onto(e, i, SepBefore(e, i), From(e, i)) == e
    decreases i
  {
    if i == 1 {
    } else {
      OntoItself(e.rest, i - 1);
    }
  }

  lemma {:induction false} OntoValid(e: Elems, isObject: bool, i: nat, w: string, f: Elems)
    requires 0 < i < Len(e) && f.Cons? && ValidElems(e, isObject) && Spaces(w) && ValidElems(f, isObject)
    ensures ValidElems(Onto(e, i, w, f), isObject)
    decreases i
  {
    hide ValidLabel, Valid, Spaces;
    if i == 1 {
    } else {
      OntoCons(e.rest, i - 1, w, f);
      OntoValid(e.rest, isObject, i - 1, w, f);
    }
  }

  lemma {:induction false} FromValid(e: Elems, isObject: bool, i: nat)
    requires i < Len(e) && ValidElems(e, isObject)
    ensures ValidElems(From(e, i), isObject)
    decreases i
  {
    hide ValidLabel, Valid, Spaces;
    if i == 0 {
    } else {
      FromValid(e.rest, isObject, i - 1);
    }
  }

  lemma {:induction false} SepValid(e: Elems, isObject: bool, i: nat)
    requires 0 < i < Len(e) && ValidElems(e, isObject)
    ensures Spaces(SepBefore(e, i))
    decreases i
  {
    hide ValidLabel, Valid, Spaces;
    if i == 1 {
    } else {
      SepValid(e.rest, isObject, i - 1);
    }
  }

  // ---------- An element of a container ----------

  predicate HasElem(v: Value, i: nat) { v.Node? && i < Len(v.elems) }

  /** The container's text up to what must stand in front of element `i`: its
      opening bracket or a comma. */
  function Bound(v: Value, i: nat): string
    requires HasElem(v, i)
  {
    if i == 0 then [Open(v.isObject)] else [Open(v.isObject)] + (v.pre + Heads(v.elems, i))
  }

  /** The whitespace between that and the element. */
  function Lead(v: Value, i: nat): string
    requires HasElem(v, i)
  {
    if i == 0 then v.pre else SepBefore(v.elems, i)
  }

  /** The container with whitespace `w` and the elements `f` in place of what
      followed the first `i` elements. */
  function Continued(v: Value, i: nat, w: string, f: Elems): Value
    requires HasElem(v, i)
  {
    if i == 0 then Node(v.isObject, w, f) else Node(v.isObject, v.pre, Onto(v.elems, i, w, f))
  }

  lemma ContinuedText(v: Value, i: nat, w: string, f: Elems)
    requires HasElem(v, i) && (i == 0 || f.Cons?)
    ensures Render(Continued(v, i, w, f)) == Bound(v, i) + (w + (RenderElems(f) + [Close(v.isObject)]))
  {
    hide RenderElems, Heads, Render;
    NodeText(Continued(v, i, w, f));
    if i > 0 {
      OntoText(v.elems, i, w, f);
      BoundJoin([Open(v.isObject)], v.pre, Heads(v.elems, i), w, RenderElems(f), [Close(v.isObject)]);
    }
  }

  lemma BoundJoin(o: string, pre: string, h: string, w: string, r: string, c: string)
    ensures o + (pre + ((h + (w + r)) + c)) == (o + (pre + h)) + (w + (r + c))
  {}

  lemma ContinuedItself(v: Value, i: nat)
    requires HasElem(v, i)
    ensures Continued(v, i, Lead(v, i), From(v.elems, i)) == v
  {
    if i > 0 {
      OntoItself(v.elems, i);
    }
  }

  lemma ContinuedValid(v: Value, i: nat, w: string, f: Elems)
    requires HasElem(v, i) && Valid(v) && Spaces(w) && ValidElems(f, v.isObject) && (i == 0 || f.Cons?)
    ensures Valid(Continued(v, i, w, f))
  {
    hide ValidElems, Spaces;
    if i > 0 {
      OntoValid(v.elems, v.isObject, i, w, f);
    }
  }

  lemma ElementValid(v: Value, i: nat)
    requires HasElem(v, i) && Valid(v)
    ensures Spaces(Lead(v, i)) && ValidElems(From(v.elems, i), v.isObject)
  {
    hide ValidElems, Spaces;
    FromValid(v.elems, v.isObject, i);
    if i > 0 {
      SepValid(v.elems, v.isObject, i);
    }
  }

  // ---------- An element of a tree ----------

  /** The indices that lead to an element, from the outermost container in. */
  predicate IsPath(v: Value, path: seq<nat>)
    decreases |path|
  {
    && path != [] && HasElem(v, path[0])
    && (|path| == 1 || IsPath(From(v.elems, path[0]).value, path[1..]))
  }

  function Inner(v: Value, path: seq<nat>): Value
    requires IsPath(v, path)
  {
    From(v.elems, path[0]).value
  }

  /** The container the element stands in. */
  function Holder(v: Value, path: seq<nat>): (h: Value)
    requires IsPath(v, path)
    ensures HasElem(h, path[|path| - 1])
    decreases |path|
  {
    if |path| == 1 then v else Holder(Inner(v, path), path[1..])
  }

  /** The tree with another container there. */
  function Rehold(v: Value, path: seq<nat>, h: Value): Value
    requires IsPath(v, path)
    decreases |path|
  {
    if |path| == 1 then h
    else Node(v.isObject, v.pre, SetAt(v.elems, path[0], Rehold(Inner(v, path), path[1..], h)))
  }

  /** The text in front of an element's value, and behind it. */
  function FrontOf(v: Value, i: nat): string
    requires HasElem(v, i)
  {
    Bound(v, i) + (Lead(v, i) + RenderLabel(From(v.elems, i).name))
  }

  function BackOf(v: Value, i: nat): string
    requires HasElem(v, i)
  {
    From(v.elems, i).after + (RestText(From(v.elems, i)) + [Close(v.isObject)])
  }

  /** The text in front of the container, and behind it. */
  function Left(v: Value, path: seq<nat>): string
    requires IsPath(v, path)
    decreases |path|
  {
    if |path| == 1 then "" else FrontOf(v, path[0]) + Left(Inner(v, path), path[1..])
  }

  function Right(v: Value, path: seq<nat>): string
    requires IsPath(v, path)
    decreases |path|
  {
    if |path| == 1 then "" else Right(Inner(v, path), path[1..]) + BackOf(v, path[0])
  }

  function WithValue(f: Elems, x: Value): Elems
    requires f.Cons?
  {
    f.(value := x)
  }

  lemma {:induction false} SetIsOnto(e: Elems, i: nat, x: Value)
    requires i < Len(e)
    ensures i > 0 ==> SetAt(e, i, x) == Onto(e, i, SepBefore(e, i), WithValue(From(e, i), x))
    ensures i == 0 ==> SetAt(e, i, x) == WithValue(From(e, i), x)
    decreases i
  {
    if i <= 1 {
    } else {
      SetIsOnto(e.rest, i - 1, x);
    }
  }

  lemma SetText(v: Value, i: nat, x: Value)
    requires HasElem(v, i)
    ensures Render(Node(v.isObject, v.pre, SetAt(v.elems, i, x))) == FrontOf(v, i) + (Render(x) + BackOf(v, i))
  {
    hide RenderLabel, Render, RenderElems, Bound;
    var f := WithValue(From(v.elems, i), x);
    SetIsOnto(v.elems, i, x);
    ContinuedText(v, i, Lead(v, i), f);
    ElemsText(f);
    assert RestText(f) == RestText(From(v.elems, i));
    FrontJoin(Bound(v, i), Lead(v, i), RenderLabel(f.name), Render(x), f.after, RestText(f), [Close(v.isObject)]);
  }

  lemma FrontJoin(b: string, w: string, l: string, x: string, a: string, r: string, c: string)
    ensures b + (w + ((l + (x + (a + r))) + c)) == (b + (w + l)) + (x + (a + (r + c)))
  {}

  lemma {:induction false} ReholdText(v: Value, path: seq<nat>, h: Value)
    requires IsPath(v, path)
    ensures Render(Rehold(v, path, h)) == Left(v, path) + (Render(h) + Right(v, path))
    decreases |path|
  {
    hide Render, FrontOf, BackOf, SetAt;
    if |path| == 1 {
      EmptyAround(Render(h));
    } else {
      ReholdText(Inner(v, path), path[1..], h);
      SetText(v, path[0], Rehold(Inner(v, path), path[1..], h));
      InsideJoin(FrontOf(v, path[0]), Left(Inner(v, path), path[1..]), Render(h), Right(Inner(v, path), path[1..]), BackOf(v, path[0]));
    }
  }

  lemma EmptyAround(h: string)
    ensures "" + (h + "") == h
  {}

  lemma InsideJoin(f: string, l: string, h: string, r: string, b: string)
    ensures f + ((l + (h + r)) + b) == (f + l) + (h + (r + b))
  {}

  lemma {:induction false} SetItself(e: Elems, i: nat)
    requires i < Len(e)
    ensures SetAt(e, i, From(e, i).value) == e
    decreases i
  {
    if i == 0 {
    } else {
      SetItself(e.rest, i - 1);
    }
  }

  lemma {:induction false} ReholdItself(v: Value, path: seq<nat>)
    requires IsPath(v, path)
    ensures Rehold(v, path, Holder(v, path)) == v
    decreases |path|
  {
    if |path| == 1 {
    } else {
      ReholdItself(Inner(v, path), path[1..]);
      SetItself(v.elems, path[0]);
    }
  }

  lemma {:induction false} SetAtValid(e: Elems, isObject: bool, i: nat, x: Value)
    requires i < Len(e) && ValidElems(e, isObject) && Valid(x)
    ensures ValidElems(SetAt(e, i, x), isObject)
    decreases i
  {
    hide ValidLabel, Valid, Spaces;
    if i == 0 {
    } else {
      SetAtValid(e.rest, isObject, i - 1, x);
    }
  }

  lemma InnerValid(v: Value, path: seq<nat>)
    requires IsPath(v, path) && Valid(v)
    ensures Valid(Inner(v, path))
  {
    hide ValidElems, Spaces;
    FromValid(v.elems, v.isObject, path[0]);
    FirstValid(From(v.elems, path[0]), v.isObject);
  }

  lemma FirstValid(e: Elems, isObject: bool)
    requires e.Cons? && ValidElems(e, isObject)
    ensures ValidLabel(e.name, isObject) && Valid(e.value) && Spaces(e.after) && Spaces(e.sep)
    ensures ValidElems(e.rest, isObject) && (e.rest.Nil? ==> e.sep == "")
  {
    hide ValidLabel, Valid, Spaces;
  }

  lemma {:induction false} HolderValid(v: Value, path: seq<nat>)
    requires IsPath(v, path) && Valid(v)
    ensures Valid(Holder(v, path))
    decreases |path|
  {
    hide Valid;
    if |path| == 1 {
    } else {
      InnerValid(v, path);
      HolderValid(Inner(v, path), path[1..]);
    }
  }

  lemma {:induction false} ReholdValid(v: Value, path: seq<nat>, h: Value)
    requires IsPath(v, path) && Valid(v) && Valid(h)
    ensures Valid(Rehold(v, path, h))
    decreases |path|
  {
    hide ValidElems, Spaces, SetAt;
    if |path| == 1 {
    } else {
      InnerValid(v, path);
      ReholdValid(Inner(v, path), path[1..], h);
      SetAtValid(v.elems, v.isObject, path[0], Rehold(Inner(v, path), path[1..], h));
    }
  }
}
