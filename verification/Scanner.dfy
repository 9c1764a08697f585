/**
 The byte scanners of the settings editor and their agreement with the syntax
 tree: on the text of a valid value they stop exactly at its end, whatever
 quotes, brackets and escapes its strings hold.
 */
module Scanner {
  import opened Wrappers
  import opened Json

  // ---------- Text positions ----------

  /** `x` stands in `s` at offset `i`. */
  predicate Holds(s: string, i: int, x: string) {
    0 <= i && i + |x| <= |s| && s[i..i + |x|] == x
  }

  lemma HoldsSplit(s: string, i: int, a: string, b: string)
    requires Holds(s, i, a + b)
    ensures Holds(s, i, a) && Holds(s, i + |a|, b)
  {
    var whole := s[i..i + |a + b|];
    assert s[i..i + |a|] == whole[..|a|] == a;
    assert s[i + |a|..i + |a| + |b|] == whole[|a|..] == b;
  }

  lemma HoldsJoin(s: string, i: int, a: string, b: string)
    requires Holds(s, i, a) && Holds(s, i + |a|, b)
    ensures Holds(s, i, a + b)
  {
    assert s[i..i + |a + b|] == s[i..i + |a|] + s[i + |a|..i + |a| + |b|];
  }

  lemma HoldsAt(s: string, i: int, x: string, k: int)
    requires Holds(s, i, x) && 0 <= k < |x|
    ensures s[i + k] == x[k]
  {
    assert s[i..i + |x|][k] == s[i + k];
  }

  // ---------- Specification of the scanners ----------

  /** `u8::is_ascii_whitespace`: the four JSON spaces and the form feed. */
  predicate IsSpace(c: char) { IsJsonSpace(c) || c == '\U{000C}' }

  function SkipWs(s: string, i: nat): (j: nat)
    ensures i <= j
    ensures i <= |s| ==> j <= |s|
    ensures |s| < i ==> j == i
    ensures j < |s| ==> !IsSpace(s[j])
    ensures forall k :: i <= k < j ==> k < |s| && IsSpace(s[k])
    decreases |s| - i
  {
    if i < |s| && IsSpace(s[i]) then SkipWs(s, i + 1) else i
  }

  function StringEnd(s: string, i: nat): (r: Option<nat>)
    ensures r.Some? ==> i < r.value <= |s| && s[r.value - 1] == '"'
    decreases |s| - i
  {
    if i >= |s| then None
    else if s[i] == '\\' then StringEnd(s, i + 2)
    else if s[i] == '"' then Some(i + 1)
    else StringEnd(s, i + 1)
  }

  function SkipString(s: string, i: nat): (r: Option<nat>)
    ensures r.Some? ==> i + 2 <= r.value <= |s| && s[i] == '"' == s[r.value - 1]
  {
    if i < |s| && s[i] == '"' then StringEnd(s, i + 1) else None
  }

  function AtomEnd(s: string, i: nat): (j: nat)
    requires i <= |s|
    ensures i <= j <= |s|
    decreases |s| - i
  {
    if i < |s| && s[i] != ',' && s[i] != '}' && s[i] != ']' && !IsSpace(s[i]) then AtomEnd(s, i + 1) else i
  }

  /** The offset past the bracket that brings `depth` to zero, strings skipped
      as units. Kinds of bracket are not matched up. */
  function ContainerEnd(s: string, i: nat, depth: nat): (r: Option<nat>)
    ensures r.Some? ==> i < r.value <= |s|
    decreases |s| - i
  {
    if i >= |s| then None
    else if s[i] == '"' then
      match SkipString(s, i)
      case None => None
      case Some(j) => ContainerEnd(s, j, depth)
    else if s[i] == '{' || s[i] == '[' then ContainerEnd(s, i + 1, depth + 1)
    else if s[i] == '}' || s[i] == ']' then
      if depth <= 1 then Some(i + 1) else ContainerEnd(s, i + 1, depth - 1)
    else ContainerEnd(s, i + 1, depth)
  }

  function SkipValue(s: string, at: nat): (r: Option<nat>)
    ensures r.Some? ==> at < r.value <= |s|
  {
    var i := SkipWs(s, at);
    if i >= |s| then None
    else if s[i] == '"' then SkipString(s, i)
    else if s[i] == '{' || s[i] == '[' then ContainerEnd(s, i, 0)
    else var j := AtomEnd(s, i); if i < j then Some(j) else None
  }

  // ---------- The scanners ----------

  method SkipWsScan(s: string, start: nat) returns (i: nat)
    ensures i == SkipWs(s, start)
  {
    i := start;
    while i < |s| && IsSpace(s[i])
      invariant start <= i
      invariant SkipWs(s, start) == SkipWs(s, i)
      decreases |s| - i
    {
      i := i + 1;
    }
  }

  method SkipStringScan(s: string, start: nat) returns (r: Option<nat>)
    ensures r == SkipString(s, start)
  {
    if start >= |s| || s[start] != '"' {
      return None;
    }
    var i := start + 1;
    while i < |s|
      invariant SkipString(s, start) == StringEnd(s, i)
      decreases |s| - i
    {
      if s[i] == '\\' {
        i := i + 2;
      } else if s[i] == '"' {
        return Some(i + 1);
      } else {
        i := i + 1;
      }
    }
    return None;
  }

  /** `depth` never falls below zero: the caller starts on an opening bracket. */
  method SkipContainerScan(s: string, start: nat) returns (r: Option<nat>)
    requires start < |s| && (s[start] == '{' || s[start] == '[')
    ensures r == ContainerEnd(s, start, 0)
  {
    var i, depth := start, 0;
    while i < |s|
      invariant start <= i
      invariant i == start ==> depth == 0
      invariant i > start ==> depth >= 1
      invariant ContainerEnd(s, start, 0) == ContainerEnd(s, i, depth)
      decreases |s| - i
    {
      if s[i] == '"' {
        var j := SkipStringScan(s, i);
        if j.None? {
          return None;
        }
        i := j.value;
      } else {
        if s[i] == '{' || s[i] == '[' {
          depth := depth + 1;
        } else if s[i] == '}' || s[i] == ']' {
          depth := depth - 1;
          if depth == 0 {
            return Some(i + 1);
          }
        }
        i := i + 1;
      }
    }
    return None;
  }

  method SkipValueScan(s: string, start: nat) returns (r: Option<nat>)
    ensures r == SkipValue(s, start)
  {
    var i := SkipWsScan(s, start);
    if i >= |s| {
      return None;
    }
    if s[i] == '"' {
      r := SkipStringScan(s, i);
    } else if s[i] == '{' || s[i] == '[' {
      r := SkipContainerScan(s, i);
    } else {
      var j := i;
      while j < |s| && s[j] != ',' && s[j] != '}' && s[j] != ']' && !IsSpace(s[j])
        invariant i <= j <= |s|
        invariant AtomEnd(s, i) == AtomEnd(s, j)
      {
        j := j + 1;
      }
      r := if j > i then Some(j) else None;
    }
  }

  // ---------- Agreement with the tree ----------

  /** A byte that may follow an unquoted scalar in valid JSON. */
  predicate Delimited(s: string, j: nat) {
    j >= |s| || s[j] == ',' || s[j] == '}' || s[j] == ']' || IsSpace(s[j])
  }

  /** Whitespace of the tree is skipped whole when something else follows it. */
  lemma {:induction false} SkipSpaces(s: string, i: nat, w: string)
    requires Holds(s, i, w) && Spaces(w)
    requires i + |w| < |s| ==> !IsSpace(s[i + |w|])
    ensures SkipWs(s, i) == i + |w|
    decreases |w|
  {
    if w == "" {
    } else {
      HoldsSplit(s, i, w[..1], w[1..]) by { assert w == w[..1] + w[1..]; }
      HoldsAt(s, i, w, 0);
      SkipSpaces(s, i + 1, w[1..]);
    }
  }

  /** One unit of a string body: a plain character or a whole escape. */
  function UnitLength(body: string): (n: nat)
    requires body != "" && ValidBody(body)
    ensures 1 <= n <= |body| && ValidBody(body[n..])
  {
    if body[0] != '\\' then 1 else if body[1] == 'u' then 6 else 2
  }

  lemma StringEndPastUnit(s: string, i: nat, body: string)
    requires body != "" && ValidBody(body) && Holds(s, i, body)
    ensures StringEnd(s, i) == StringEnd(s, i + UnitLength(body))
  {
    var n := UnitLength(body);
    forall k | 0 <= k < n ensures i + k < |s| && s[i + k] == body[k] {
      HoldsAt(s, i, body, k);
    }
    if n == 6 {
      hide ValidBody, Holds;
      assert StringEnd(s, i) == StringEnd(s, i + 2) == StringEnd(s, i + 3) == StringEnd(s, i + 4);
      assert StringEnd(s, i + 4) == StringEnd(s, i + 5) == StringEnd(s, i + 6);
    }
  }

  lemma {:induction false} StringEndAtQuote(s: string, i: nat, body: string)
    requires Holds(s, i, body) && Holds(s, i + |body|, "\"") && ValidBody(body)
    ensures StringEnd(s, i) == Some(i + |body| + 1)
    decreases |body|
  {
    hide Holds, ValidBody;
    if body == "" {
      HoldsChar(s, i, '"');
    } else {
      var n := UnitLength(body);
      assert body == body[..n] + body[n..];
      HoldsSplit(s, i, body[..n], body[n..]);
      StringEndAtQuote(s, i + n, body[n..]);
      StringEndPastUnit(s, i, body);
    }
  }

  /** A quoted string ends at its own closing quote: no escape inside it ends
      the scan early. */
  lemma SkipStringAgrees(s: string, i: nat, body: string)
    requires Holds(s, i, Quoted(body)) && ValidBody(body)
    ensures SkipString(s, i) == Some(i + |Quoted(body)|)
  {
    hide ValidBody;
    assert Quoted(body) == "\"" + (body + "\"");
    HoldsAt(s, i, Quoted(body), 0);
    HoldsSplit(s, i, "\"", body + "\"");
    HoldsSplit(s, i + 1, body, "\"");
    StringEndAtQuote(s, i + 1, body);
  }

  lemma {:induction false} AtomEndAgrees(s: string, i: nat, t: string)
    requires Holds(s, i, t) && (forall k :: 0 <= k < |t| ==> IsAtomChar(t[k]))
    requires Delimited(s, i + |t|)
    ensures AtomEnd(s, i) == i + |t|
    decreases |t|
  {
    if t == "" {
    } else {
      HoldsAt(s, i, t, 0);
      HoldsSplit(s, i, t[..1], t[1..]) by { assert t == t[..1] + t[1..]; }
      AtomEndAgrees(s, i + 1, t[1..]);
    }
  }

  predicate Flat(w: string) {
    forall k :: 0 <= k < |w| ==> w[k] !in "\"{}[]"
  }

  lemma {:induction false} ContainerSkipsFlat(s: string, i: nat, w: string, depth: nat)
    requires Holds(s, i, w) && Flat(w)
    ensures ContainerEnd(s, i, depth) == ContainerEnd(s, i + |w|, depth)
    decreases |w|
  {
    if w == "" {
    } else {
      HoldsAt(s, i, w, 0);
      HoldsSplit(s, i, w[..1], w[1..]) by { assert w == w[..1] + w[1..]; }
      ContainerSkipsFlat(s, i + 1, w[1..], depth);
    }
  }

  lemma KeyText(l: Label)
    requires l.Key?
    ensures RenderLabel(l) == Quoted(l.raw) + (l.beforeColon + (":" + l.afterColon))
  {
    Assoc4(Quoted(l.raw), l.beforeColon, ":", l.afterColon);
  }

  /** Where the pieces of a key stand. */
  lemma KeyParts(s: string, i: nat, l: Label)
    requires l.Key? && Holds(s, i, RenderLabel(l))
    ensures Holds(s, i, Quoted(l.raw))
    ensures var j := i + |Quoted(l.raw)|;
            && Holds(s, j, l.beforeColon)
            && Holds(s, j + |l.beforeColon|, ":")
            && Holds(s, j + |l.beforeColon| + 1, l.afterColon)
    ensures |RenderLabel(l)| == |Quoted(l.raw)| + |l.beforeColon| + 1 + |l.afterColon|
  {
    hide Holds, RenderLabel, Quoted;
    KeyText(l);
    var j := i + |Quoted(l.raw)|;
    HoldsSplit(s, i, Quoted(l.raw), l.beforeColon + (":" + l.afterColon));
    HoldsSplit(s, j, l.beforeColon, ":" + l.afterColon);
    HoldsSplit(s, j + |l.beforeColon|, ":", l.afterColon);
  }

  lemma ContainerSkipsLabel(s: string, i: nat, l: Label, isObject: bool, depth: nat)
    requires Holds(s, i, RenderLabel(l)) && ValidLabel(l, isObject)
    ensures ContainerEnd(s, i, depth) == ContainerEnd(s, i + |RenderLabel(l)|, depth)
  {
    if l.Key? {
      ContainerSkipsKey(s, i, l, depth);
    }
  }

  lemma ContainerSkipsKey(s: string, i: nat, l: Label, depth: nat)
    requires Holds(s, i, RenderLabel(l)) && ValidLabel(l, true) && l.Key?
    ensures ContainerEnd(s, i, depth) == ContainerEnd(s, i + |RenderLabel(l)|, depth)
  {
    hide Holds, RenderLabel, Quoted, ContainerEnd, ValidBody, Spaces, Flat;
    KeyParts(s, i, l);
    var j := i + |Quoted(l.raw)|;
    ContainerSkipsString(s, i, l.raw, depth);
    SpacesAreFlat(l.beforeColon);
    SpacesAreFlat(l.afterColon);
    PunctuationIsFlat();
    ContainerSkipsFlat(s, j, l.beforeColon, depth);
    ContainerSkipsFlat(s, j + |l.beforeColon|, ":", depth);
    ContainerSkipsFlat(s, j + |l.beforeColon| + 1, l.afterColon, depth);
  }

  lemma ContainerSkipsString(s: string, i: nat, body: string, depth: nat)
    requires Holds(s, i, Quoted(body)) && ValidBody(body)
    ensures ContainerEnd(s, i, depth) == ContainerEnd(s, i + |Quoted(body)|, depth)
  {
    hide ValidBody;
    HoldsAt(s, i, Quoted(body), 0);
    SkipStringAgrees(s, i, body);
  }

  lemma NodeText(v: Value)
    requires v.Node?
    ensures Render(v) == [Open(v.isObject)] + (v.pre + (RenderElems(v.elems) + [Close(v.isObject)]))
  {
    hide RenderElems;
    Assoc4([Open(v.isObject)], v.pre, RenderElems(v.elems), [Close(v.isObject)]);
  }

  lemma HoldsChar(s: string, i: nat, c: char)
    requires Holds(s, i, [c])
    ensures i < |s| && s[i] == c
  {
    HoldsAt(s, i, [c], 0);
  }

  /** Where the pieces of a container stand. */
  lemma NodeParts(s: string, i: nat, v: Value)
    requires Holds(s, i, Render(v)) && v.Node?
    ensures |Render(v)| == |v.pre| + |RenderElems(v.elems)| + 2
    ensures i + |Render(v)| <= |s|
    ensures s[i] == Open(v.isObject) && s[i + |Render(v)| - 1] == Close(v.isObject)
    ensures Holds(s, i + 1, v.pre)
    ensures Holds(s, i + 1 + |v.pre|, RenderElems(v.elems))
  {
    hide Holds, Render, RenderElems, Open, Close;
    NodeText(v);
    var o, e, c := Open(v.isObject), RenderElems(v.elems), Close(v.isObject);
    HoldsSplit(s, i, [o], v.pre + (e + [c]));
    HoldsSplit(s, i + 1, v.pre, e + [c]);
    HoldsSplit(s, i + 1 + |v.pre|, e, [c]);
    HoldsChar(s, i, o);
    HoldsChar(s, i + 1 + |v.pre| + |e|, c);
  }

  lemma SpacesAreFlat(w: string)
    requires Spaces(w)
    ensures Flat(w)
  {}

  lemma ContainerSkipsAtom(s: string, i: nat, t: string, depth: nat)
    requires Holds(s, i, t) && ValidAtom(t)
    ensures ContainerEnd(s, i, depth) == ContainerEnd(s, i + |t|, depth)
  {
    hide ValidAtom;
    AtomChars(t);
    ContainerSkipsFlat(s, i, t, depth);
  }

  /** Inside a container the scan passes a whole value and is at the same
      depth after it. */
  lemma {:induction false} ContainerSkipsValue(s: string, i: nat, v: Value, depth: nat)
    requires Holds(s, i, Render(v)) && Valid(v) && depth >= 1
    ensures ContainerEnd(s, i, depth) == ContainerEnd(s, i + |Render(v)|, depth)
    decreases v
  {
    hide Holds, ContainerEnd, ValidBody, ValidAtom, RenderElems, ValidElems;
    match v
    case Str(body) => ContainerSkipsString(s, i, body, depth);
    case Atom(text) => ContainerSkipsAtom(s, i, text, depth);
    case Node(_, _, _) =>
      ContainerSkipsInside(s, i, v, depth + 1);
      ContainerSkipsBrackets(s, i, v, depth);
  }

  lemma ContainerSkipsBrackets(s: string, i: nat, v: Value, depth: nat)
    requires Holds(s, i, Render(v)) && v.Node? && depth >= 1
    ensures ContainerEnd(s, i, depth) == ContainerEnd(s, i + 1, depth + 1)
    ensures |Render(v)| >= 1
    ensures ContainerEnd(s, i + |Render(v)| - 1, depth + 1) == ContainerEnd(s, i + |Render(v)|, depth)
  {
    hide Holds, Render, RenderElems;
    NodeParts(s, i, v);
  }

  /** From just past a container's bracket to its closing bracket. */
  lemma {:induction false} ContainerSkipsInside(s: string, i: nat, v: Value, depth: nat)
    requires Holds(s, i, Render(v)) && Valid(v) && v.Node? && depth >= 1
    ensures ContainerEnd(s, i + 1, depth) == ContainerEnd(s, i + |Render(v)| - 1, depth)
    decreases v, 0
  {
    hide Holds, Render, RenderElems, ContainerEnd, ValidBody, ValidAtom, Spaces, Flat;
    NodeParts(s, i, v);
    SpacesAreFlat(v.pre);
    ContainerSkipsFlat(s, i + 1, v.pre, depth);
    ContainerSkipsElems(s, i + 1 + |v.pre|, v.elems, v.isObject, depth);
  }

  lemma {:induction false} ContainerSkipsElems(s: string, i: nat, e: Elems, isObject: bool, depth: nat)
    requires Holds(s, i, RenderElems(e)) && ValidElems(e, isObject) && depth >= 1
    ensures ContainerEnd(s, i, depth) == ContainerEnd(s, i + |RenderElems(e)|, depth)
    decreases e
  {
    hide Holds, RenderLabel, Render, RenderElems, ContainerEnd, ValidBody, ValidAtom, Spaces, RestAt;
    if e.Nil? {
      assert RenderElems(e) == "" by { EmptyText(); }
    } else {
      ContainerSkipsHead(s, i, e, isObject, depth);
      if e.rest.Cons? {
        RestParts(s, i, e);
        ContainerSkipsElems(s, RestAt(i, e), e.rest, isObject, depth);
      }
    }
  }

  lemma EmptyText()
    ensures RenderElems(Nil) == ""
  {}

  /** The offset of the elements after the first, in a list that has some. */
  function RestAt(i: nat, e: Elems): nat
    requires e.Cons?
  {
    i + |RenderLabel(e.name)| + |Render(e.value)| + |e.after| + 1 + |e.sep|
  }

  lemma {:induction false} ContainerSkipsHead(s: string, i: nat, e: Elems, isObject: bool, depth: nat)
    requires Holds(s, i, RenderElems(e)) && ValidElems(e, isObject) && depth >= 1 && e.Cons?
    ensures
      var j := if e.rest.Nil? then i + |RenderElems(e)| else RestAt(i, e);
      ContainerEnd(s, i, depth) == ContainerEnd(s, j, depth)
    decreases e, 0
  {
    hide Holds, RenderLabel, Render, RenderElems, RestText, ContainerEnd, ValidBody, ValidAtom, Spaces, Flat;
    ElemParts(s, i, e);
    ContainerSkipsLabel(s, i, e.name, isObject, depth);
    ContainerSkipsValue(s, i + |RenderLabel(e.name)|, e.value, depth);
    SpacesAreFlat(e.after);
    var k := i + |RenderLabel(e.name)| + |Render(e.value)|;
    ContainerSkipsFlat(s, k, e.after, depth);
    if e.rest.Cons? {
      RestParts(s, i, e);
      SpacesAreFlat(e.sep);
      PunctuationIsFlat();
      ContainerSkipsFlat(s, k + |e.after|, ",", depth);
      ContainerSkipsFlat(s, k + |e.after| + 1, e.sep, depth);
    }
  }

  lemma PunctuationIsFlat()
    ensures Flat(",") && Flat(":")
  {}

  /** What follows the first element and the whitespace after it. */
  function RestText(e: Elems): string
    requires e.Cons?
  {
    if e.rest.Nil? then "" else "," + (e.sep + RenderElems(e.rest))
  }

  lemma Assoc4(a: string, b: string, c: string, d: string)
    ensures a + b + c + d == a + (b + (c + d))
  {}

  lemma ElemsText(e: Elems)
    requires e.Cons?
    ensures RenderElems(e) == RenderLabel(e.name) + (Render(e.value) + (e.after + RestText(e)))
  {
    hide RenderLabel, Render;
    var r := if e.rest.Nil? then "" else "," + e.sep + RenderElems(e.rest);
    assert r == RestText(e);
    Assoc4(RenderLabel(e.name), Render(e.value), e.after, r);
  }

  /** Where the pieces of the first element stand. */
  lemma ElemParts(s: string, i: nat, e: Elems)
    requires Holds(s, i, RenderElems(e)) && e.Cons?
    ensures Holds(s, i, RenderLabel(e.name))
    ensures Holds(s, i + |RenderLabel(e.name)|, Render(e.value))
    ensures Holds(s, i + |RenderLabel(e.name)| + |Render(e.value)|, e.after)
    ensures Holds(s, i + |RenderLabel(e.name)| + |Render(e.value)| + |e.after|, RestText(e))
    ensures |RenderElems(e)| == |RenderLabel(e.name)| + |Render(e.value)| + |e.after| + |RestText(e)|
    ensures e.rest.Nil? ==> |RestText(e)| == 0
  {
    hide Holds, RenderLabel, Render, RenderElems;
    ElemsText(e);
    var l, v, w, r := RenderLabel(e.name), Render(e.value), e.after, RestText(e);
    HoldsSplit(s, i, l, v + (w + r));
    HoldsSplit(s, i + |l|, v, w + r);
    HoldsSplit(s, i + |l| + |v|, w, r);
  }

  /** Where the comma and the elements after it stand. */
  lemma RestParts(s: string, i: nat, e: Elems)
    requires Holds(s, i, RenderElems(e)) && e.Cons? && e.rest.Cons?
    ensures var k := i + |RenderLabel(e.name)| + |Render(e.value)| + |e.after|;
            && Holds(s, k, ",") && k < |s| && s[k] == ','
            && Holds(s, k + 1, e.sep)
            && Holds(s, RestAt(i, e), RenderElems(e.rest))
            && i + |RenderElems(e)| == RestAt(i, e) + |RenderElems(e.rest)|
  {
    hide Holds, RenderLabel, Render, RenderElems;
    ElemParts(s, i, e);
    var k := i + |RenderLabel(e.name)| + |Render(e.value)| + |e.after|;
    HoldsSplit(s, k, ",", e.sep + RenderElems(e.rest));
    HoldsChar(s, k, ',');
    HoldsSplit(s, k + 1, e.sep, RenderElems(e.rest));
  }

  lemma SkipAtomAgrees(s: string, i: nat, t: string)
    requires Holds(s, i, t) && ValidAtom(t) && Delimited(s, i + |t|)
    ensures SkipValue(s, i) == Some(i + |t|)
  {
    hide ValidAtom;
    AtomChars(t);
    HoldsAt(s, i, t, 0);
    AtomEndAgrees(s, i, t);
  }

  lemma SkipNodeAgrees(s: string, i: nat, v: Value)
    requires Holds(s, i, Render(v)) && Valid(v) && v.Node?
    ensures SkipValue(s, i) == Some(i + |Render(v)|)
  {
    hide Holds, Render, RenderElems, Valid;
    NodeParts(s, i, v);
    ContainerSkipsInside(s, i, v, 1);
  }

  /** The main agreement: on the text of a valid value, `skip_value` stops
      exactly at the value's end. */
  lemma SkipValueAgrees(s: string, i: nat, v: Value)
    requires Holds(s, i, Render(v)) && Valid(v)
    requires v.Atom? ==> Delimited(s, i + |Render(v)|)
    ensures SkipValue(s, i) == Some(i + |Render(v)|)
  {
    hide ValidBody, ValidAtom;
    match v
    case Str(body) =>
      HoldsAt(s, i, Quoted(body), 0);
      SkipStringAgrees(s, i, body);
    case Atom(text) => SkipAtomAgrees(s, i, text);
    case Node(_, _, _) => SkipNodeAgrees(s, i, v);
  }
}
