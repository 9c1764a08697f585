/**
 A reference reader of JSON texts, standing for `serde_json::from_str`: it
 accepts exactly the texts of valid trees and returns the tree. So a text has
 at most one tree, and "the file parses" means "the file has a tree".
 */
module Parser {
  import opened Wrappers
  import opened Json
  import opened Scanner
  import opened Members

  datatype Parsed<+T> = Fail | Done(value: T, next: nat)

  function ParseKey(s: string, i: nat): (p: Parsed<Label>)
    ensures p.Done? ==> i < p.next <= |s|
  {
    match SkipString(s, i)
    case None => Fail
    case Some(end) =>
      var colon := SkipWs(s, end);
      if colon >= |s| || s[colon] != ':' then Fail else
      var next := SkipWs(s, colon + 1);
      var key := Key(s[i + 1..end - 1], s[end..colon], s[colon + 1..next]);
      if ValidLabel(key, true) then Done(key, next) else Fail
  }

  function ParseLabel(s: string, i: nat, isObject: bool): (p: Parsed<Label>)
    requires i <= |s|
    ensures p.Done? ==> i <= p.next <= |s|
  {
    if isObject then ParseKey(s, i) else Done(NoLabel, i)
  }

  function ParseScalar(s: string, i: nat): (p: Parsed<Value>)
    requires i < |s|
    ensures p.Done? ==> i < p.next <= |s|
  {
    if s[i] == '"' then
      match SkipString(s, i)
      case None => Fail
      case Some(end) =>
        if ValidBody(s[i + 1..end - 1]) then Done(Str(s[i + 1..end - 1]), end) else Fail
    else
      var end := AtomEnd(s, i);
      if i < end && ValidAtom(s[i..end]) then Done(Atom(s[i..end]), end) else Fail
  }

  function ParseValue(s: string, i: nat): (p: Parsed<Value>)
    requires i <= |s|
    ensures p.Done? ==> i < p.next <= |s|
    decreases |s| - i, 0
  {
    if i == |s| then Fail
    else if s[i] != '{' && s[i] != '[' then ParseScalar(s, i)
    else
      var isObject := s[i] == '{';
      var first := SkipWs(s, i + 1);
      var pre := s[i + 1..first];
      if first == |s| || !Spaces(pre) then Fail
      else if s[first] == Close(isObject) then Done(Node(isObject, pre, Nil), first + 1)
      else
        match ParseElems(s, first, isObject)
        case Fail => Fail
        case Done(elems, end) =>
          if end < |s| && s[end] == Close(isObject) then Done(Node(isObject, pre, elems), end + 1) else Fail
  }

  /** One element or more, up to what cannot continue the list. */
  function ParseElems(s: string, i: nat, isObject: bool): (p: Parsed<Elems>)
    requires i <= |s|
    ensures p.Done? ==> i < p.next <= |s| && p.value.Cons?
    decreases |s| - i, 1
  {
    match ParseLabel(s, i, isObject)
    case Fail => Fail
    case Done(name, at) =>
      match ParseValue(s, at)
      case Fail => Fail
      case Done(value, end) => ParseRest(s, i, isObject, name, value, end)
  }

  /** What follows an element's value: the end of the list, or a comma and
      more elements. */
  function ParseRest(s: string, i: nat, isObject: bool, name: Label, value: Value, end: nat): (p: Parsed<Elems>)
    requires i < end <= |s|
    ensures p.Done? ==> i < p.next <= |s| && p.value.Cons?
    decreases |s| - i, 0
  {
    var comma := SkipWs(s, end);
    var after := s[end..comma];
    if !Spaces(after) then Fail
    else if comma < |s| && s[comma] == ',' then
      var next := SkipWs(s, comma + 1);
      var sep := s[comma + 1..next];
      if !Spaces(sep) then Fail else
      match ParseElems(s, next, isObject)
      case Fail => Fail
      case Done(rest, stop) => Done(Cons(name, value, after, sep, rest), stop)
    else Done(Cons(name, value, after, "", Nil), comma)
  }

  function Parse(s: string): Option<Document> {
    var start := SkipWs(s, 0);
    match ParseValue(s, start)
    case Fail => None
    case Done(root, end) =>
      var stop := SkipWs(s, end);
      var d := Document(s[..start], root, s[end..stop]);
      if stop == |s| && Spaces(d.lead) && Spaces(d.trail) then Some(d) else None
  }

  // ---------- Completeness: every valid tree is read back ----------

  lemma ScalarRead(s: string, i: nat, v: Value)
    requires Holds(s, i, Render(v)) && Valid(v) && !v.Node?
    requires v.Atom? ==> Delimited(s, i + |Render(v)|)
    ensures i < |s| && s[i] != '{' && s[i] != '['
    ensures ParseScalar(s, i) == Done(v, i + |Render(v)|)
  {
    hide ValidBody, ValidAtom;
    FirstOfValue(s, i, v);
    match v
    case Str(body) =>
      SkipStringAgrees(s, i, body);
      BodyOfQuoted(s, i, body);
    case Atom(text) =>
      AtomChars(text);
      AtomEndAgrees(s, i, text);
  }

  lemma HeldSlice(s: string, i: nat, x: string, j: int)
    requires Holds(s, i, x) && j == i + |x|
    ensures j <= |s| && s[i..j] == x
  {}

  lemma KeyRead(s: string, i: nat, l: Label)
    requires l.Key? && ValidLabel(l, true) && Holds(s, i, RenderLabel(l))
    requires i + |RenderLabel(l)| < |s| && !IsSpace(s[i + |RenderLabel(l)|])
    ensures ParseKey(s, i) == Done(l, i + |RenderLabel(l)|)
  {
    hide Holds, RenderLabel, ValidBody, SkipWs, SkipString, Quoted, Spaces;
    KeyParts(s, i, l);
    var end := i + |Quoted(l.raw)|;
    var colon := end + |l.beforeColon|;
    SkipStringAgrees(s, i, l.raw);
    BodyOfQuoted(s, i, l.raw);
    HoldsChar(s, colon, ':');
    SkipSpaces(s, end, l.beforeColon);
    SkipSpaces(s, colon + 1, l.afterColon);
    HeldSlice(s, end, l.beforeColon, colon);
    HeldSlice(s, colon + 1, l.afterColon, i + |RenderLabel(l)|);
  }

  lemma LabelRead(s: string, i: nat, l: Label, isObject: bool)
    requires ValidLabel(l, isObject) && Holds(s, i, RenderLabel(l))
    requires i + |RenderLabel(l)| < |s| && !IsSpace(s[i + |RenderLabel(l)|])
    ensures ParseLabel(s, i, isObject) == Done(l, i + |RenderLabel(l)|)
  {
    hide ParseKey;
    if isObject {
      KeyRead(s, i, l);
    }
  }

  lemma {:induction false} ValueRead(s: string, i: nat, v: Value)
    requires Holds(s, i, Render(v)) && Valid(v)
    requires v.Atom? ==> Delimited(s, i + |Render(v)|)
    ensures ParseValue(s, i) == Done(v, i + |Render(v)|)
    decreases v
  {
    hide Holds, Render, RenderElems, ValidBody, ValidAtom, ValidElems, ParseElems, ParseScalar, Stands, SkipWs, Spaces;
    FirstOfValue(s, i, v);
    if !v.Node? {
      ScalarRead(s, i, v);
    } else {
      var first := i + 1 + |v.pre|;
      StandsInNode(s, i, v);
      NodeParts(s, i, v);
      HeldSlice(s, i + 1, v.pre, first);
      if v.elems.Nil? {
        EmptyText();
      } else {
        ElemsRead(s, first, v.elems, v.isObject);
        ElemsStart(s, first, v.elems, v.isObject);
      }
    }
  }

  lemma ElemsStart(s: string, i: nat, e: Elems, isObject: bool)
    requires e.Cons? && Stands(s, i, e, isObject)
    ensures i < |s| && s[i] != '}' && s[i] != ']'
  {
    hide RenderElems, ValidElems, Holds;
    FirstOfElems(s, i, e, isObject);
  }

  lemma {:induction false} ElemsRead(s: string, i: nat, e: Elems, isObject: bool)
    requires e.Cons? && Stands(s, i, e, isObject)
    ensures ParseElems(s, i, isObject) == Done(e, i + |RenderElems(e)|)
    decreases e
  {
    hide Holds, Render, RenderLabel, RenderElems, Valid, ParseValue, ParseLabel, ParseRest, ValidLabel, RestText, IsSpace;
    ElemParts(s, i, e);
    ValueScan(s, i, e, isObject);
    AfterScan(s, i, e, isObject);
    LabelRead(s, i, e.name, isObject);
    ValueRead(s, ValueAt(i, e), e.value);
    ValueEnd(s, i, e, isObject);
    RestRead(s, i, e, isObject);
  }

  lemma ValueEnd(s: string, i: nat, e: Elems, isObject: bool)
    requires e.Cons? && Stands(s, i, e, isObject)
    ensures ValueAt(i, e) < AfterAt(i, e) <= |s|
  {
    hide Holds, Render, RenderLabel, RenderElems, Valid, SkipWs, SkipValue, Delimited, RestAt;
    ValueScan(s, i, e, isObject);
    AfterScan(s, i, e, isObject);
  }

  lemma {:induction false} RestRead(s: string, i: nat, e: Elems, isObject: bool)
    requires e.Cons? && Stands(s, i, e, isObject) && i < AfterAt(i, e) <= |s|
    ensures ParseRest(s, i, isObject, e.name, e.value, AfterAt(i, e)) == Done(e, i + |RenderElems(e)|)
    decreases e, 0
  {
    hide Holds, Render, RenderLabel, RenderElems, Valid, ParseElems, ValidLabel, RestText, SkipWs, Delimited, AfterAt, RestAt;
    AfterScan(s, i, e, isObject);
    AfterHeld(s, i, e, isObject);
    if e.rest.Cons? {
      StandsRest(s, i, e, isObject);
      ElemsRead(s, RestAt(i, e), e.rest, isObject);
      MemberStandsBound(s, i, e, isObject);
    }
  }

  lemma AfterHeld(s: string, i: nat, e: Elems, isObject: bool)
    requires e.Cons? && Stands(s, i, e, isObject)
    ensures
      var comma := AfterAt(i, e) + |e.after|;
      && comma <= |s| && s[AfterAt(i, e)..comma] == e.after
      && (e.rest.Cons? ==> comma + 1 <= RestAt(i, e) <= |s| && s[comma + 1..RestAt(i, e)] == e.sep)
  {
    hide Holds, Render, RenderLabel, RenderElems, Valid, ValidLabel, RestText;
    ElemParts(s, i, e);
    var comma := AfterAt(i, e) + |e.after|;
    HeldSlice(s, AfterAt(i, e), e.after, comma);
    if e.rest.Cons? {
      RestParts(s, i, e);
      HeldSlice(s, comma + 1, e.sep, RestAt(i, e));
    }
  }

  lemma DocumentText(d: Document)
    ensures
      var s := RenderDocument(d);
      && Holds(s, 0, d.lead)
      && Holds(s, |d.lead|, Render(d.root))
      && Holds(s, |d.lead| + |Render(d.root)|, d.trail)
      && |s| == |d.lead| + |Render(d.root)| + |d.trail|
  {
    hide Render;
    var s, r := RenderDocument(d), Render(d.root);
    assert s == d.lead + (r + d.trail);
    HoldsSplit(s, 0, d.lead, r + d.trail);
    HoldsSplit(s, |d.lead|, r, d.trail);
  }

  lemma DocumentRead(d: Document)
    requires ValidDocument(d)
    ensures Parse(RenderDocument(d)) == Some(d)
  {
    hide Holds, Render, RenderDocument, Valid, SkipWs, ParseValue;
    var s, start := RenderDocument(d), |d.lead|;
    var end := start + |Render(d.root)|;
    DocumentText(d);
    FirstOfValue(s, start, d.root);
    SkipSpaces(s, 0, d.lead);
    SkipSpaces(s, end, d.trail);
    DelimitedAfter(s, end, d.trail);
    ValueRead(s, start, d.root);
    HeldSlice(s, 0, d.lead, start);
    HeldSlice(s, end, d.trail, |s|);
  }

  // ---------- Soundness: what is read is a valid tree of that text ----------

  lemma HoldsSlice(s: string, i: nat, j: nat)
    requires i <= j <= |s|
    ensures Holds(s, i, s[i..j]) && |s[i..j]| == j - i
  {}

  lemma QuotedIsThere(s: string, i: nat, end: nat)
    requires SkipString(s, i) == Some(end)
    ensures Holds(s, i, Quoted(s[i + 1..end - 1])) && end == i + |Quoted(s[i + 1..end - 1])|
  {
    assert s[i..end] == Quoted(s[i + 1..end - 1]);
  }

  lemma ScalarSound(s: string, i: nat)
    requires i < |s| && ParseScalar(s, i).Done?
    ensures
      var p := ParseScalar(s, i);
      Valid(p.value) && Holds(s, i, Render(p.value)) && p.next == i + |Render(p.value)|
  {
    hide ValidBody, ValidAtom, Holds;
    if s[i] == '"' {
      QuotedIsThere(s, i, SkipString(s, i).value);
    } else {
      HoldsSlice(s, i, AtomEnd(s, i));
    }
  }

  lemma CharThere(s: string, i: nat)
    requires i < |s|
    ensures Holds(s, i, [s[i]])
  {}

  lemma KeySound(s: string, i: nat)
    requires ParseKey(s, i).Done?
    ensures
      var p := ParseKey(s, i);
      ValidLabel(p.value, true) && Holds(s, i, RenderLabel(p.value)) && p.next == i + |RenderLabel(p.value)|
  {
    hide ParseKey, ValidLabel, Holds, Quoted, RenderLabel;
    KeyShape(s, i);
    var l := ParseKey(s, i).value;
    KeyText(l);
    FourStand(s, i, Quoted(l.raw), l.beforeColon, ":", l.afterColon);
  }

  /** Where the pieces of a key that was read stand. */
  lemma KeyShape(s: string, i: nat)
    requires ParseKey(s, i).Done?
    ensures
      var p := ParseKey(s, i);
      var l := p.value;
      && ValidLabel(l, true) && l.Key?
      && var colon := i + |Quoted(l.raw)| + |l.beforeColon|;
      && Holds(s, i, Quoted(l.raw)) && Holds(s, i + |Quoted(l.raw)|, l.beforeColon)
      && Holds(s, colon, ":") && Holds(s, colon + 1, l.afterColon) && p.next == colon + 1 + |l.afterColon|
  {
    hide ValidBody, Holds, Quoted, SkipString, Spaces;
    var end := SkipString(s, i).value;
    var colon := SkipWs(s, end);
    QuotedIsThere(s, i, end);
    HoldsSlice(s, end, colon);
    HoldsSlice(s, colon + 1, SkipWs(s, colon + 1));
    CharThere(s, colon);
  }

  lemma FourStand(s: string, i: nat, a: string, b: string, c: string, d: string)
    requires Holds(s, i, a) && Holds(s, i + |a|, b) && Holds(s, i + |a| + |b|, c) && Holds(s, i + |a| + |b| + |c|, d)
    ensures Holds(s, i, a + (b + (c + d)))
  {
    hide Holds;
    HoldsJoin(s, i + |a| + |b|, c, d);
    HoldsJoin(s, i + |a|, b, c + d);
    HoldsJoin(s, i, a, b + (c + d));
  }

  lemma LabelSound(s: string, i: nat, isObject: bool)
    requires i <= |s| && ParseLabel(s, i, isObject).Done?
    ensures
      var p := ParseLabel(s, i, isObject);
      ValidLabel(p.value, isObject) && Holds(s, i, RenderLabel(p.value)) && p.next == i + |RenderLabel(p.value)|
  {
    hide ParseKey;
    if isObject {
      KeySound(s, i);
    }
  }

  predicate GoodValue(s: string, i: nat, p: Parsed<Value>) {
    p.Done? ==> Valid(p.value) && Holds(s, i, Render(p.value)) && p.next == i + |Render(p.value)|
  }

  predicate GoodElems(s: string, i: nat, isObject: bool, p: Parsed<Elems>) {
    p.Done? ==>
      && ValidElems(p.value, isObject) && Holds(s, i, RenderElems(p.value)) && p.next == i + |RenderElems(p.value)|
  }

  lemma {:induction false} ValueSound(s: string, i: nat)
    requires i <= |s|
    ensures GoodValue(s, i, ParseValue(s, i))
    decreases |s| - i, 0
  {
    hide Holds, Render, ValidBody, ValidAtom, ValidElems, ParseElems, ParseScalar, SkipWs, Spaces;
    if ParseValue(s, i).Done? {
      if s[i] != '{' && s[i] != '[' {
        ScalarSound(s, i);
      } else {
        var first := SkipWs(s, i + 1);
        var isObject := s[i] == '{';
        EmptyText();
        NoSpaces();
        if s[first] == Close(isObject) {
          NodeSound(s, i, first, Nil, isObject);
          var p := ParseValue(s, i);
          assert p.value == Node(isObject, s[i+1..first], Nil);
          assert Valid(p.value);
          assert p.next == i + |Render(p.value)|;
        } else {
          ElemsSound(s, first, isObject);
          NodeSound(s, i, first, ParseElems(s, first, isObject).value, isObject);
        }
      }
    }
  }

  lemma NodeSound(s: string, i: nat, first: nat, e: Elems, isObject: bool)
    requires i + 1 <= first <= |s| && s[i] == Open(isObject)
    requires e.Cons? ==> Holds(s, first, RenderElems(e))
    requires first + |RenderElems(e)| < |s| && s[first + |RenderElems(e)|] == Close(isObject)
    ensures
      var v := Node(isObject, s[i + 1..first], e);
      Holds(s, i, Render(v)) && i + |Render(v)| == first + |RenderElems(e)| + 1
  {
    hide Holds, Render, RenderElems;
    var v := Node(isObject, s[i + 1..first], e);
    var end := first + |RenderElems(e)|;
    if e.Nil? {
      EmptyText();
      HoldsSlice(s, first, first);
      assert s[first..first] == RenderElems(e);
    }
    CharThere(s, i);
    HoldsSlice(s, i + 1, first);
    CharThere(s, end);
    HoldsJoin(s, first, RenderElems(e), [Close(isObject)]);
    HoldsJoin(s, i + 1, v.pre, RenderElems(e) + [Close(isObject)]);
    HoldsJoin(s, i, [Open(isObject)], v.pre + (RenderElems(e) + [Close(isObject)]));
    NodeText(v);
  }

  lemma {:induction false} ElemsSound(s: string, i: nat, isObject: bool)
    requires i <= |s|
    ensures GoodElems(s, i, isObject, ParseElems(s, i, isObject))
    decreases |s| - i, 2
  {
    hide Holds, Render, RenderLabel, RenderElems, Valid, ValidElems, ParseValue, ParseLabel, ParseRest, ValidLabel;
    if ParseElems(s, i, isObject).Done? {
      var l := ParseLabel(s, i, isObject);
      LabelSound(s, i, isObject);
      ValueSound(s, l.next);
      var v := ParseValue(s, l.next);
      RestSound(s, i, isObject, l.value, v.value, v.next);
    }
  }

  lemma {:induction false} RestSound(s: string, i: nat, isObject: bool, name: Label, value: Value, end: nat)
    requires i < end <= |s|
    requires ValidLabel(name, isObject) && Holds(s, i, RenderLabel(name))
    requires Valid(value) && Holds(s, i + |RenderLabel(name)|, Render(value))
    requires end == i + |RenderLabel(name)| + |Render(value)|
    ensures GoodElems(s, i, isObject, ParseRest(s, i, isObject, name, value, end))
    decreases |s| - i, 1
  {
    hide Holds, Render, RenderLabel, RenderElems, Valid, ParseElems, ValidLabel, SkipWs, Spaces, RestText;
    var comma := SkipWs(s, end);
    if ParseRest(s, i, isObject, name, value, end).Done? {
      var e := ParseRest(s, i, isObject, name, value, end).value;
      HoldsSlice(s, end, comma);
      if comma < |s| && s[comma] == ',' {
        var next := SkipWs(s, comma + 1);
        ElemsSound(s, next, isObject);
        TailIsThere(s, comma, next, e);
      } else {
        NoTailIsThere(s, comma, e, isObject);
      }
      JoinElement(s, i, e);
    }
  }

  lemma NoTailIsThere(s: string, i: nat, e: Elems, isObject: bool)
    requires i <= |s| && e.Cons? && e.rest.Nil? && e.sep == ""
    ensures Holds(s, i, RestText(e)) && |RestText(e)| == 0 && Spaces(e.sep) && ValidElems(e.rest, isObject)
  {}

  lemma JoinElement(s: string, i: nat, e: Elems)
    requires e.Cons? && Holds(s, i, RenderLabel(e.name)) && Holds(s, i + |RenderLabel(e.name)|, Render(e.value))
    requires var j := i + |RenderLabel(e.name)| + |Render(e.value)|;
             Holds(s, j, e.after) && Holds(s, j + |e.after|, RestText(e))
    ensures Holds(s, i, RenderElems(e))
    ensures |RenderElems(e)| == |RenderLabel(e.name)| + |Render(e.value)| + |e.after| + |RestText(e)|
  {
    hide Holds, Render, RenderLabel, RenderElems, RestText;
    var j := i + |RenderLabel(e.name)|;
    HoldsJoin(s, j + |Render(e.value)|, e.after, RestText(e));
    HoldsJoin(s, j, Render(e.value), e.after + RestText(e));
    HoldsJoin(s, i, RenderLabel(e.name), Render(e.value) + (e.after + RestText(e)));
    ElemsText(e);
  }

  lemma NoSpaces()
    ensures Spaces("") && forall isObject :: ValidElems(Nil, isObject)
  {}

  lemma TailIsThere(s: string, comma: nat, next: nat, e: Elems)
    requires e.Cons? && e.rest.Cons?
    requires comma < next <= |s| && s[comma] == ',' && e.sep == s[comma + 1..next]
    requires Holds(s, next, RenderElems(e.rest))
    ensures Holds(s, comma, RestText(e))
    ensures |RestText(e)| == next - comma + |RenderElems(e.rest)|
  {
    hide Holds, RenderElems;
    CharThere(s, comma);
    HoldsSlice(s, comma + 1, next);
    HoldsJoin(s, comma + 1, e.sep, RenderElems(e.rest));
    HoldsJoin(s, comma, ",", e.sep + RenderElems(e.rest));
  }

  lemma DocumentSound(s: string)
    requires Parse(s).Some?
    ensures ValidDocument(Parse(s).value) && RenderDocument(Parse(s).value) == s
  {
    hide Render, Valid, SkipWs, ParseValue, Spaces;
    var start := SkipWs(s, 0);
    ValueSound(s, start);
    var p := ParseValue(s, start);
    assert s == s[..start] + s[start..p.next] + s[p.next..];
  }

  /** A text parses exactly when it is the text of a valid tree, and then to
      that tree: the grammar is unambiguous down to the last space. */
  lemma ParseExactly(s: string, d: Document)
    ensures Parse(s) == Some(d) <==> ValidDocument(d) && RenderDocument(d) == s
  {
    hide Parse, ValidDocument, RenderDocument;
    if Parse(s) == Some(d) {
      DocumentSound(s);
    }
    if ValidDocument(d) && RenderDocument(d) == s {
      DocumentRead(d);
    }
  }
}
