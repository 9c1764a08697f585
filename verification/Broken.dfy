/**
 Splices that break a file: a chunk written behind the first byte of a value
 that is not a container of its kind. The text that comes out does not parse,
 whatever stands in the rest of the file.
 */
module Broken {
  import opened Json
  import opened Scanner
  import opened Members
  import opened Parser
  import opened Edits

  /** Neither a comma nor a closing bracket stands at `c`, so no list of
      elements can go on there or end there. */
  predicate Blocked(s: string, c: nat) {
    c < |s| && s[c] != ',' && s[c] != '}' && s[c] != ']'
  }

  /** No value is read at `i`, or one that nothing may follow. */
  predicate Stuck(s: string, i: nat)
    requires i <= |s|
  {
    match ParseValue(s, i)
    case Fail => true
    case Done(_, end) => Blocked(s, SkipWs(s, end))
  }

  predicate BadList(s: string, p: Parsed<Elems>) {
    p.Done? ==> Blocked(s, p.next)
  }

  // ---------- A text that is the same up to the splice ----------

  predicate SameUpTo(s: string, t: string, n: nat) {
    n <= |s| && n <= |t| && s[..n] == t[..n]
  }

  lemma HoldsKept(s: string, t: string, n: nat, i: nat, x: string)
    requires SameUpTo(s, t, n) && Holds(s, i, x) && i + |x| <= n
    ensures Holds(t, i, x)
  {
    assert s[i..i + |x|] == s[..n][i..i + |x|];
    assert t[i..i + |x|] == t[..n][i..i + |x|];
  }

  lemma CharKept(s: string, t: string, n: nat, i: nat)
    requires SameUpTo(s, t, n) && i < n
    ensures t[i] == s[i]
  {
    assert s[..n][i] == s[i] && t[..n][i] == t[i];
  }

  lemma SpliceShape(s: string, k: nat, w: string, x: string)
    requires k <= |s|
    ensures
      var t := Splice(s, k, w + x);
      SameUpTo(s, t, k) && Holds(t, k, w) && Holds(t, k + |w|, x)
  {
    var t := Splice(s, k, w + x);
    assert t == s[..k] + w + (x + s[k..]);
    assert t == (s[..k] + w) + x + s[k..];
    assert t[..k] == s[..k];
    assert t[k..k + |w|] == w;
    assert t[k + |w|..k + |w| + |x|] == x;
  }

  // ---------- Elements in front of the splice are read as before ----------

  lemma LabelKept(s: string, t: string, n: nat, i: nat, e: Elems, isObject: bool)
    requires SameUpTo(s, t, n) && e.Cons? && Stands(s, i, e, isObject) && ValueAt(i, e) < n
    ensures ParseLabel(t, i, isObject) == Done(e.name, ValueAt(i, e))
  {
    hide Holds, RenderLabel, Render, RenderElems, ParseLabel, Valid, ValidLabel, RestText, SameUpTo;
    ElemParts(s, i, e);
    ValueScan(s, i, e, isObject);
    HoldsKept(s, t, n, i, RenderLabel(e.name));
    CharKept(s, t, n, ValueAt(i, e));
    InRange(s, t, n, ValueAt(i, e));
    FieldsValid(e, isObject);
    LabelRead(t, i, e.name, isObject);
  }

  lemma InRange(s: string, t: string, n: nat, i: nat)
    requires SameUpTo(s, t, n) && i < n
    ensures i < |t| && i < |s|
  {}

  lemma FieldsValid(e: Elems, isObject: bool)
    requires e.Cons? && ValidElems(e, isObject)
    ensures ValidLabel(e.name, isObject) && Valid(e.value) && Spaces(e.after) && Spaces(e.sep)
  {
    hide ValidLabel, Valid, Spaces;
  }

  lemma ValueKept(s: string, t: string, n: nat, i: nat, e: Elems, isObject: bool)
    requires SameUpTo(s, t, n) && e.Cons? && Stands(s, i, e, isObject) && AfterAt(i, e) < n
    ensures ValueAt(i, e) <= |t| && ParseValue(t, ValueAt(i, e)) == Done(e.value, AfterAt(i, e))
  {
    hide Holds, RenderLabel, Render, RenderElems, ParseValue, Valid, ValidLabel, RestText, SameUpTo;
    ElemParts(s, i, e);
    AfterScan(s, i, e, isObject);
    HoldsKept(s, t, n, ValueAt(i, e), Render(e.value));
    CharKept(s, t, n, AfterAt(i, e));
    InRange(s, t, n, AfterAt(i, e));
    FieldsValid(e, isObject);
    ValueRead(t, ValueAt(i, e), e.value);
  }

  lemma AfterKept(s: string, t: string, n: nat, i: nat, e: Elems, isObject: bool)
    requires SameUpTo(s, t, n) && e.Cons? && e.rest.Cons? && Stands(s, i, e, isObject) && RestAt(i, e) < n
    ensures
      var comma := AfterAt(i, e) + |e.after|;
      && comma + 1 <= RestAt(i, e) < |t|
      && SkipWs(t, AfterAt(i, e)) == comma && t[comma] == ',' && SkipWs(t, comma + 1) == RestAt(i, e)
      && t[AfterAt(i, e)..comma] == e.after && t[comma + 1..RestAt(i, e)] == e.sep
  {
    hide Holds, RenderLabel, Render, RenderElems, Valid, ValidLabel, ValidElems, RestText, SameUpTo, SkipWs, IsSpace;
    var comma := AfterAt(i, e) + |e.after|;
    ElemParts(s, i, e);
    RestParts(s, i, e);
    FieldsValid(e, isObject);
    StandsRest(s, i, e, isObject);
    FirstOfElems(s, RestAt(i, e), e.rest, isObject);
    HoldsKept(s, t, n, AfterAt(i, e), e.after);
    HoldsKept(s, t, n, comma + 1, e.sep);
    CharKept(s, t, n, comma);
    CharKept(s, t, n, RestAt(i, e));
    InRange(s, t, n, comma);
    InRange(s, t, n, RestAt(i, e));
    CommaIsNoSpace();
    SkipSpaces(t, AfterAt(i, e), e.after);
    SkipSpaces(t, comma + 1, e.sep);
    HeldSlice(t, AfterAt(i, e), e.after, comma);
    HeldSlice(t, comma + 1, e.sep, RestAt(i, e));
  }

  lemma CommaIsNoSpace()
    ensures !IsSpace(',')
  {}

  /** An element read as before passes on what the rest of the list answers. */
  lemma ElementKept(s: string, t: string, n: nat, i: nat, e: Elems, isObject: bool)
    requires SameUpTo(s, t, n) && e.Cons? && e.rest.Cons? && Stands(s, i, e, isObject) && RestAt(i, e) < n
    ensures i <= |t| && RestAt(i, e) <= |t|
    ensures BadList(t, ParseElems(t, RestAt(i, e), isObject)) ==> BadList(t, ParseElems(t, i, isObject))
    ensures ParseElems(t, RestAt(i, e), isObject) == Fail ==> ParseElems(t, i, isObject) == Fail
  {
    hide RenderLabel, Render, RenderElems, Stands, SameUpTo, SkipWs, ParseLabel, ParseValue;
    AfterKept(s, t, n, i, e, isObject);
    LabelKept(s, t, n, i, e, isObject);
    ValueKept(s, t, n, i, e, isObject);
    assert ParseElems(t, i, isObject) == ParseRest(t, i, isObject, e.name, e.value, AfterAt(i, e));
  }

  lemma FirstBreaks(s: string, t: string, n: nat, i: nat, e: Elems, isObject: bool)
    requires SameUpTo(s, t, n) && e.Cons? && Stands(s, i, e, isObject) && ValueAt(i, e) < n
    requires ValueAt(i, e) <= |t| && Stuck(t, ValueAt(i, e))
    ensures i <= |t| && BadList(t, ParseElems(t, i, isObject))
  {
    hide RenderLabel, Render, RenderElems, Stands, SameUpTo, SkipWs, ParseLabel, ParseValue, Spaces;
    LabelKept(s, t, n, i, e, isObject);
  }

  /** Where a member's value is stuck, the list it stands in is. */
  lemma {:induction false} ElemsBreak(s: string, t: string, n: nat, i: nat, e: Elems, key: string)
    requires SameUpTo(s, t, n) && Stands(s, i, e, true) && Count(e, key) >= 1
    requires MemberAt(i, e, key) < n && MemberAt(i, e, key) <= |t| && Stuck(t, MemberAt(i, e, key))
    ensures i <= |t| && BadList(t, ParseElems(t, i, true))
    decreases e
  {
    hide Stands, SameUpTo, Stuck, BadList, RenderLabel, Render, RenderElems, RestAt;
    if Named(e, key) {
      FirstBreaks(s, t, n, i, e, true);
    } else {
      StandsRest(s, i, e, true);
      MemberStands(s, RestAt(i, e), e.rest, true, key);
      ElemsBreak(s, t, n, RestAt(i, e), e.rest, key);
      ElementKept(s, t, n, i, e, true);
    }
  }

  /** Where a member's value is stuck, the object is not read. */
  lemma ObjectBreaks(s: string, t: string, n: nat, i: nat, v: Value, key: string)
    requires v.Node? && v.isObject && Valid(v) && Holds(s, i, Render(v)) && SameUpTo(s, t, n)
    requires Count(v.elems, key) >= 1
    requires
      var at := MemberAt(i + 1 + |v.pre|, v.elems, key);
      at < n && at <= |t| && Stuck(t, at)
    ensures i <= |t| && ParseValue(t, i) == Fail
  {
    hide Holds, Render, RenderElems, Valid, ValidElems, SameUpTo, Stuck, SkipWs, IsSpace, ParseElems, MemberAt, Count, Spaces;
    var first := i + 1 + |v.pre|;
    StandsInNode(s, i, v);
    SomeMember(v.elems, key);
    MemberStands(s, first, v.elems, true, key);
    FirstInElems(s, first, v.elems);
    PreKept(s, t, n, i, v);
    ElemsBreak(s, t, n, first, v.elems, key);
  }

  lemma SomeMember(e: Elems, key: string)
    requires Count(e, key) >= 1
    ensures e.Cons?
  {}

  lemma FirstInElems(s: string, i: nat, e: Elems)
    requires e.Cons? && Stands(s, i, e, true)
    ensures i < |s| && !IsSpace(s[i]) && s[i] == '"'
  {
    hide Holds, RenderElems, ValidElems;
    FirstOfElems(s, i, e, true);
  }

  lemma PreKept(s: string, t: string, n: nat, i: nat, v: Value)
    requires v.Node? && Valid(v) && Holds(s, i, Render(v)) && SameUpTo(s, t, n)
    requires i + 1 + |v.pre| < n && !IsSpace(s[i + 1 + |v.pre|])
    ensures
      var first := i + 1 + |v.pre|;
      first < |t| && t[i] == Open(v.isObject) && SkipWs(t, i + 1) == first && t[first] == s[first]
  {
    hide Holds, Render, RenderElems, ValidElems, SameUpTo, SkipWs, IsSpace, Spaces;
    var first := i + 1 + |v.pre|;
    NodeParts(s, i, v);
    InRange(s, t, n, first);
    CharKept(s, t, n, i);
    CharKept(s, t, n, first);
    HoldsKept(s, t, n, i + 1, v.pre);
    SkipSpaces(t, i + 1, v.pre);
  }

  // ---------- The splice itself ----------

  /** A line break and what follows it, written behind a value's first byte. */
  predicate Opens(w: string, x: string) {
    w != "" && Spaces(w) && (w[0] == '\n' || w[0] == '\r') && x != "" && !IsSpace(x[0])
  }

  /** A string is cut by the line break. */
  lemma StringBreaks(t: string, i: nat, w: string, x: string)
    requires i < |t| && t[i] == '"' && Opens(w, x) && Holds(t, i + 1, w)
    ensures Stuck(t, i)
  {
    HoldsAt(t, i + 1, w, 0);
    hide ValidBody, Holds, Spaces;
    assert StringEnd(t, i + 1) == StringEnd(t, i + 2);
    if SkipString(t, i).Some? {
      var body := t[i + 1..SkipString(t, i).value - 1];
      assert body[0] == t[i + 1];
      BreakInBody(body);
    }
  }

  lemma BreakInBody(b: string)
    requires b != "" && (b[0] == '\n' || b[0] == '\r')
    ensures !ValidBody(b)
  {}

  /** A number or a word ends at the line break, and the chunk follows it. */
  lemma AtomBreaks(t: string, i: nat, w: string, x: string)
    requires i < |t| && IsAtomChar(t[i]) && Opens(w, x) && Holds(t, i + 1, w) && Holds(t, i + 1 + |w|, x)
    requires x[0] == '"' || x[0] == '{'
    ensures Stuck(t, i)
  {
    HoldsAt(t, i + 1, w, 0);
    HoldsAt(t, i + 1 + |w|, x, 0);
    SkipSpaces(t, i + 1, w);
    hide ValidAtom, Holds, Spaces;
    assert AtomEnd(t, i) == i + 1 by {
      assert AtomEnd(t, i + 1) == i + 1;
    }
  }

  /** A key does not fit into an array. */
  lemma ArrayBreaks(t: string, i: nat, w: string, key: string, x: string)
    requires i < |t| && t[i] == '[' && ValidBody(key)
    requires Opens(w, x) && Holds(t, i + 1, w) && Holds(t, i + 1 + |w|, Quoted(key)) && Holds(t, i + 1 + |w| + |Quoted(key)|, ":")
    ensures Stuck(t, i)
  {
    hide Holds, ValidBody, Spaces, ParseElems, SkipWs, Quoted, IsSpace;
    var first := i + 1 + |w|;
    BodyOfQuoted(t, first, key);
    KeyAsItem(t, first, key);
    QuoteIsNoSpace();
    SkipSpaces(t, i + 1, w);
  }

  lemma QuoteIsNoSpace()
    ensures !IsSpace('"') && !IsSpace(':')
  {}

  /** Read as an item, a key stops the list at its colon. */
  lemma KeyAsItem(t: string, i: nat, key: string)
    requires Holds(t, i, Quoted(key)) && ValidBody(key) && Holds(t, i + |Quoted(key)|, ":")
    ensures i < |t| && BadList(t, ParseElems(t, i, false))
  {
    hide Holds, ValidBody, SkipString, Quoted;
    var end := i + |Quoted(key)|;
    HoldsChar(t, end, ':');
    BodyOfQuoted(t, i, key);
    SkipStringAgrees(t, i, key);
    assert ParseValue(t, i) == Done(Str(key), end);
    hide ParseValue;
    assert SkipWs(t, end) == end;
    assert ParseElems(t, i, false) == ParseRest(t, i, false, NoLabel, Str(key), end);
  }

  /** A group has no key, so it does not fit into an object. */
  lemma KeylessBreaks(t: string, i: nat, w: string, x: string)
    requires i < |t| && t[i] == '{'
    requires Opens(w, x) && Holds(t, i + 1, w) && Holds(t, i + 1 + |w|, x) && x[0] == '{'
    ensures Stuck(t, i)
  {
    HoldsAt(t, i + 1 + |w|, x, 0);
    SkipSpaces(t, i + 1, w);
    hide Holds, Spaces;
    assert ParseElems(t, i + 1 + |w|, true) == Fail;
  }

  /** A keyed chunk written into a value that is not an object. */
  lemma KeyedChunkBreaks(s: string, i: nat, v: Value, w: string, key: string, x: string)
    requires Valid(v) && Holds(s, i, Render(v)) && !(v.Node? && v.isObject)
    requires ValidBody(key) && Opens(w, x) && Quoted(key) + ":" <= x
    ensures i < |s| && i < |Splice(s, i + 1, w + x)| && Stuck(Splice(s, i + 1, w + x), i)
  {
    hide Render, Valid, ValidBody, Splice, Stuck, Opens, Holds;
    FirstOfValue(s, i, v);
    var t := Splice(s, i + 1, w + x);
    SpliceShape(s, i + 1, w, x);
    CharKept(s, t, i + 1, i);
    InRange(s, t, i + 1, i);
    KeyedParts(t, i + 1 + |w|, key, x);
    if v.Str? {
      StringBreaks(t, i, w, x);
    } else if v.Atom? {
      FirstOfAtom(s, i, v);
      AtomBreaks(t, i, w, x);
    } else {
      ArrayBreaks(t, i, w, key, x);
    }
  }

  lemma KeyedParts(t: string, i: nat, key: string, x: string)
    requires Holds(t, i, x) && Quoted(key) + ":" <= x
    ensures Holds(t, i, Quoted(key)) && Holds(t, i + |Quoted(key)|, ":") && x[0] == '"'
  {
    var rest := x[|Quoted(key)| + 1..];
    assert x == Quoted(key) + (":" + rest);
    HoldsSplit(t, i, Quoted(key), ":" + rest);
    HoldsSplit(t, i + |Quoted(key)|, ":", rest);
  }

  lemma FirstOfAtom(s: string, i: nat, v: Value)
    requires v.Atom? && Valid(v) && Holds(s, i, Render(v))
    ensures i < |s| && IsAtomChar(s[i])
  {
    hide ValidAtom;
    AtomChars(v.text);
    HoldsAt(s, i, v.text, 0);
  }

  /** A group written into a value that is not an array. */
  lemma GroupBreaks(s: string, i: nat, v: Value, w: string, x: string)
    requires Valid(v) && Holds(s, i, Render(v)) && !(v.Node? && !v.isObject)
    requires Opens(w, x) && x[0] == '{'
    ensures i < |s| && i < |Splice(s, i + 1, w + x)| && Stuck(Splice(s, i + 1, w + x), i)
  {
    hide Render, Valid, ValidBody, Splice, Stuck, Opens, Holds;
    FirstOfValue(s, i, v);
    var t := Splice(s, i + 1, w + x);
    SpliceShape(s, i + 1, w, x);
    CharKept(s, t, i + 1, i);
    InRange(s, t, i + 1, i);
    if v.Str? {
      StringBreaks(t, i, w, x);
    } else if v.Atom? {
      FirstOfAtom(s, i, v);
      AtomBreaks(t, i, w, x);
    } else {
      KeylessBreaks(t, i, w, x);
    }
  }
}
