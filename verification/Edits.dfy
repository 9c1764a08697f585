/**
 Splicing bytes into a text, seen as an edit of its tree: a new first element
 in one container, everything else byte for byte in place.
 */
module Edits {
  import opened Json
  import opened Scanner
  import opened Members

  function Splice(s: string, k: nat, x: string): string
    requires k <= |s|
  {
    s[..k] + x + s[k..]
  }

  /** `x` becomes the first element of the container `v`, with the whitespace
      `w` before it. The old leading whitespace stays in front of the old
      first element, or of the closing bracket. */
  function Graft(v: Value, w: string, l: Label, x: Value): Value
    requires v.Node?
  {
    Node(v.isObject, w,
         if v.elems.Nil? then Cons(l, x, v.pre, "", Nil) else Cons(l, x, "", v.pre, v.elems))
  }

  /** What stands between a new first element and the old ones. */
  function Comma(v: Value): string
    requires v.Node?
  {
    if v.elems.Nil? then "" else ","
  }

  function SetMember(e: Elems, key: string, v: Value): Elems {
    if e.Nil? then Nil
    else Cons(e.name, if Named(e, key) then v else e.value, e.after, e.sep, SetMember(e.rest, key, v))
  }

  function SetIn(node: Value, key: string, v: Value): Value
    requires node.Node?
  {
    Node(node.isObject, node.pre, SetMember(node.elems, key, v))
  }

  // ---------- Texts ----------

  lemma SpliceMid(a: string, b: string, c: string, k: nat, x: string)
    requires k <= |b|
    ensures Splice(a + (b + c), |a| + k, x) == a + (Splice(b, k, x) + c)
  {
    var s := a + (b + c);
    assert s[..|a| + k] == a + b[..k];
    assert s[|a| + k..] == b[k..] + c;
  }

  lemma GraftText(v: Value, w: string, l: Label, x: Value)
    requires v.Node?
    ensures |Render(v)| >= 1
    ensures Splice(Render(v), 1, w + (RenderLabel(l) + Render(x)) + Comma(v)) == Render(Graft(v, w, l, x))
  {
    hide RenderLabel;
    NodeText(v);
    NodeText(Graft(v, w, l, x));
    ElemsText(Graft(v, w, l, x).elems);
    GraftedText(v, w, l, x);
    SpliceFirst([Open(v.isObject)], v.pre + (RenderElems(v.elems) + [Close(v.isObject)]), w + (RenderLabel(l) + Render(x)) + Comma(v));
  }

  lemma SpliceFirst(o: string, tail: string, x: string)
    requires |o| == 1
    ensures Splice(o + tail, 1, x) == o + (x + tail)
  {
    assert (o + tail)[..1] == o;
    assert (o + tail)[1..] == tail;
  }

  lemma GraftedText(v: Value, w: string, l: Label, x: Value)
    requires v.Node?
    ensures
      var g := Graft(v, w, l, x);
      w + (RenderElems(g.elems) + [Close(v.isObject)]) ==
      w + (RenderLabel(l) + Render(x)) + Comma(v) + (v.pre + (RenderElems(v.elems) + [Close(v.isObject)]))
  {
    var g, c := Graft(v, w, l, x), [Close(v.isObject)];
    ElemsText(g.elems);
    hide RenderLabel, Render;
    var n, t := RenderLabel(l), Render(x);
    if v.elems.Nil? {
      assert RestText(g.elems) == "";
      assert RenderElems(v.elems) == "";
      GraftIntoEmpty(w, n, t, v.pre, c);
    } else {
      GraftBefore(w, n, t, v.pre, RenderElems(v.elems), c);
    }
  }

  lemma GraftIntoEmpty(w: string, n: string, t: string, pre: string, c: string)
    ensures w + (n + (t + (pre + "")) + c) == w + (n + t) + "" + (pre + ("" + c))
  {}

  lemma GraftBefore(w: string, n: string, t: string, pre: string, r: string, c: string)
    ensures w + (n + (t + ("" + ("," + (pre + r)))) + c) == w + (n + t) + "," + (pre + (r + c))
  {}

  /** The text of the first element up to the next one. */
  function HeadText(e: Elems): string
    requires e.Cons?
  {
    RenderLabel(e.name) + (Render(e.value) + (e.after + ("," + e.sep)))
  }

  lemma TailText(e: Elems)
    requires e.Cons? && e.rest.Cons?
    ensures RenderElems(e) == HeadText(e) + RenderElems(e.rest)
    ensures |HeadText(e)| == RestAt(0, e)
  {
    hide RenderLabel, Render;
    ElemsText(e);
    Assoc5(RenderLabel(e.name), Render(e.value), e.after, "," + e.sep, RenderElems(e.rest));
    assert RestText(e) == ("," + e.sep) + RenderElems(e.rest);
  }

  lemma Assoc5(a: string, b: string, c: string, d: string, r: string)
    ensures a + (b + (c + (d + r))) == a + (b + (c + d)) + r
  {}

  lemma {:induction false} SetAbsent(e: Elems, key: string, v: Value)
    requires Count(e, key) == 0
    ensures SetMember(e, key, v) == e
  {
    if e.Nil? {
    } else {
      SetAbsent(e.rest, key, v);
    }
  }

  lemma {:induction false} MemberAtShift(i: nat, n: nat, e: Elems, key: string)
    requires Count(e, key) >= 1
    ensures MemberAt(i + n, e, key) == MemberAt(i, e, key) + n
    decreases e
  {
    hide RenderLabel, Render;
    if Named(e, key) {
    } else {
      MemberAtShift(RestAt(i, e), n, e.rest, key);
    }
  }

  lemma {:induction false} SetMemberText(e: Elems, key: string, k: nat, x: string, v: Value)
    requires Count(e, key) == 1
    requires k <= |Render(Member(e, key))| && Render(v) == Splice(Render(Member(e, key)), k, x)
    ensures MemberAt(0, e, key) + k <= |RenderElems(e)|
    ensures RenderElems(SetMember(e, key, v)) == Splice(RenderElems(e), MemberAt(0, e, key) + k, x)
    decreases e
  {
    hide RenderLabel, Render, RenderElems, Splice;
    if Named(e, key) {
      SetAbsent(e.rest, key, v);
      ElemsText(e);
      ElemsText(SetMember(e, key, v));
      assert RestText(SetMember(e, key, v)) == RestText(e);
      SpliceMid(RenderLabel(e.name), Render(e.value), e.after + RestText(e), k, x);
    } else {
      SetMemberText(e.rest, key, k, x, v);
      SetLaterText(e, key, k, x, v);
    }
  }

  lemma SetKeepsShape(e: Elems, key: string, v: Value)
    ensures SetMember(e, key, v).Nil? <==> e.Nil?
  {}

  lemma SetLaterText(e: Elems, key: string, k: nat, x: string, v: Value)
    requires e.Cons? && !Named(e, key) && Count(e.rest, key) == 1
    requires MemberAt(0, e.rest, key) + k <= |RenderElems(e.rest)|
    requires RenderElems(SetMember(e.rest, key, v)) == Splice(RenderElems(e.rest), MemberAt(0, e.rest, key) + k, x)
    ensures MemberAt(0, e, key) + k <= |RenderElems(e)|
    ensures RenderElems(SetMember(e, key, v)) == Splice(RenderElems(e), MemberAt(0, e, key) + k, x)
  {
    hide RenderLabel, Render, RenderElems, Splice;
    var m := MemberAt(0, e.rest, key) + k;
    TailText(e);
    TailText(SetMember(e, key, v));
    assert HeadText(SetMember(e, key, v)) == HeadText(e);
    MemberAtShift(0, RestAt(0, e), e.rest, key);
    SpliceTail(HeadText(e), RenderElems(e.rest), m, x);
  }

  lemma SpliceTail(a: string, b: string, k: nat, x: string)
    requires k <= |b|
    ensures Splice(a + b, |a| + k, x) == a + Splice(b, k, x)
  {
    assert (a + b)[..|a| + k] == a + b[..k];
    assert (a + b)[|a| + k..] == b[k..];
  }

  /** An edit inside one member of a container is the same edit of the
      container's text, shifted to where the member stands. */
  lemma SetInText(node: Value, key: string, k: nat, x: string, v: Value)
    requires node.Node? && Count(node.elems, key) == 1
    requires k <= |Render(Member(node.elems, key))|
    requires Render(v) == Splice(Render(Member(node.elems, key)), k, x)
    ensures
      var at := MemberAt(1 + |node.pre|, node.elems, key) + k;
      at <= |Render(node)| && Render(SetIn(node, key, v)) == Splice(Render(node), at, x)
  {
    hide RenderLabel, Render, RenderElems, Splice, SetMember;
    var o, e, c := [Open(node.isObject)], RenderElems(node.elems), [Close(node.isObject)];
    SetMemberText(node.elems, key, k, x, v);
    MemberAtShift(0, 1 + |node.pre|, node.elems, key);
    NodeText(node);
    NodeText(SetIn(node, key, v));
    var m := MemberAt(0, node.elems, key) + k;
    SpliceMid(o + node.pre, e, c, m, x);
    assert (o + node.pre) + (e + c) == o + (node.pre + (e + c));
    assert (o + node.pre) + (Splice(e, m, x) + c) == o + (node.pre + (Splice(e, m, x) + c));
  }

  /** The same for a whole document. */
  lemma DocumentEditText(d: Document, k: nat, x: string, root: Value)
    requires k <= |Render(d.root)| && Render(root) == Splice(Render(d.root), k, x)
    ensures
      && |d.lead| + k <= |RenderDocument(d)|
      && RenderDocument(d.(root := root)) == Splice(RenderDocument(d), |d.lead| + k, x)
  {
    hide Render, Splice;
    SpliceMid(d.lead, Render(d.root), d.trail, k, x);
    assert d.lead + (Render(d.root) + d.trail) == RenderDocument(d);
    assert d.lead + (Render(root) + d.trail) == RenderDocument(d.(root := root));
  }

  // ---------- Validity ----------

  lemma GraftValid(v: Value, w: string, l: Label, x: Value)
    requires v.Node? && Valid(v) && Spaces(w) && ValidLabel(l, v.isObject) && Valid(x)
    ensures Valid(Graft(v, w, l, x))
  {
    hide ValidBody, ValidAtom;
  }

  lemma {:induction false} SetMemberValid(e: Elems, isObject: bool, key: string, v: Value)
    requires ValidElems(e, isObject) && Valid(v)
    ensures ValidElems(SetMember(e, key, v), isObject)
    decreases e
  {
    hide ValidBody, ValidAtom, Spaces;
    if e.Nil? {
    } else {
      SetMemberValid(e.rest, isObject, key, v);
    }
  }
}
