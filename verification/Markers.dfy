/**
 Where the bytes `"name"` followed by a colon can occur in the text of a tree:
 only where a key ends in that name. This is what lets a raw byte search stand
 in for a search of the parsed document.
 */
module Markers {
  import opened Json
  import opened Scanner
  import opened Members

  /** A name searched for: it holds no quote, backslash, bracket or space, so
      an occurrence cannot run across the tree's punctuation. */
  predicate PlainName(name: string) {
    && name != ""
    && forall k :: 0 <= k < |name| ==> 'A' <= name[k] <= 'Z' || 'a' <= name[k] <= 'z'
  }

  /** `"name"`, whitespace and a colon stand at `p`. */
  predicate KeyAt(s: string, p: int, name: string) {
    && Holds(s, p, Quoted(name))
    && var c := SkipWs(s, p + |name| + 2);
       c < |s| && s[c] == ':'
  }

  predicate NoKeyIn(s: string, from: int, to: int, name: string) {
    forall p :: from <= p < to ==> !KeyAt(s, p, name)
  }

  predicate EndsWith(b: string, name: string) {
    |name| <= |b| && b[|b| - |name|..] == name
  }

  // ---------- Tokens ----------

  /** A byte range without a quote holds no key. */
  lemma NoKeyInFlat(s: string, i: nat, w: string, name: string)
    requires Holds(s, i, w) && Flat(w)
    ensures NoKeyIn(s, i, i + |w|, name)
  {
    forall p | i <= p < i + |w| ensures !KeyAt(s, p, name) {
      HoldsAt(s, i, w, p - i);
      if Holds(s, p, Quoted(name)) {
        HoldsAt(s, p, Quoted(name), 0);
      }
    }
  }

  lemma NoKeyInBracket(s: string, i: nat, name: string)
    requires i < |s| && s[i] != '"'
    ensures NoKeyIn(s, i, i + 1, name)
  {
    if Holds(s, i, Quoted(name)) {
      HoldsAt(s, i, Quoted(name), 0);
    }
  }

  /** A quote inside a string body is an escaped one. */
  lemma {:induction false} QuoteIsEscaped(b: string, k: nat)
    requires ValidBody(b) && k < |b| && b[k] == '"'
    ensures k > 0 && b[k - 1] == '\\'
    decreases |b|
  {
    var n := UnitLength(b);
    if k < n {
    } else {
      QuoteIsEscaped(b[n..], k - n);
    }
  }

  lemma QuotedBytes(s: string, i: nat, body: string)
    requires Holds(s, i, Quoted(body))
    ensures i + |body| + 2 <= |s| && s[i] == '"' && s[i + |body| + 1] == '"'
    ensures forall q :: i < q < i + |body| + 1 ==> s[q] == body[q - i - 1]
  {
    BodyOfQuoted(s, i, body);
    HoldsAt(s, i, Quoted(body), |body| + 1);
    assert forall q :: i < q < i + |body| + 1 ==> s[q] == s[i + 1..i + 1 + |body|][q - i - 1];
  }

  /** An occurrence of `"name"` that starts inside a quoted string ends at the
      string's closing quote, so the body ends in the name; or it starts at
      the closing quote itself. */
  lemma NameInQuoted(s: string, i: nat, body: string, p: int, name: string)
    requires Holds(s, i, Quoted(body)) && ValidBody(body) && PlainName(name)
    requires i <= p < i + |body| + 2 && Holds(s, p, Quoted(name))
    ensures
      || p == i + |body| + 1
      || (p + |name| + 1 == i + |body| + 1 && EndsWith(body, name))
  {
    hide Holds, ValidBody, Quoted;
    QuotedBytes(s, i, body);
    QuotedBytes(s, p, name);
    var close, end := i + |body| + 1, p + |name| + 1;
    if p != close && end < close {
      assert s[end - 1] == name[|name| - 1];
      QuoteIsEscaped(body, end - i - 1);
    } else if p != close && end == close {
      assert body[|body| - |name|..] == s[p + 1..end] == name;
    }
  }

  /** The byte after a string's closing quote. */
  predicate FollowsString(s: string, j: int) {
    0 <= j && (j < |s| ==> IsSpace(s[j]) || s[j] in ",:}]")
  }

  lemma NoKeyAtClose(s: string, p: nat, name: string)
    requires PlainName(name) && FollowsString(s, p + 1)
    ensures !KeyAt(s, p, name)
  {
    if Holds(s, p, Quoted(name)) {
      QuotedBytes(s, p, name);
    }
  }

  /** What stands after a value: never a colon, and not right after it either. */
  predicate ValueEnds(s: string, j: int) {
    && FollowsString(s, j)
    && (SkipWs(s, j) < |s| ==> s[SkipWs(s, j)] != ':')
  }

  lemma NoColonNoKey(s: string, p: int, j: int, name: string)
    requires j == p + |name| + 2 && ValueEnds(s, j)
    ensures !KeyAt(s, p, name)
  {
    hide FollowsString, SkipWs;
  }

  /** A string that is not followed by a colon is no key. */
  lemma NoKeyInString(s: string, i: nat, body: string, name: string)
    requires Holds(s, i, Quoted(body)) && ValidBody(body) && PlainName(name)
    requires ValueEnds(s, i + |body| + 2)
    ensures NoKeyIn(s, i, i + |body| + 2, name)
  {
    hide ValidBody, FollowsString, Quoted, SkipWs, Holds, EndsWith;
    forall p | i <= p < i + |body| + 2 ensures !KeyAt(s, p, name) {
      if p == i + |body| + 1 {
        NoKeyAtClose(s, p, name);
      } else if Holds(s, p, Quoted(name)) {
        NameInQuoted(s, i, body, p, name);
        NoColonNoKey(s, p, i + |body| + 2, name);
      }
    }
  }

  /** A key that does not end in the name is not that key. */
  lemma NoKeyInOther(s: string, i: nat, body: string, name: string)
    requires Holds(s, i, Quoted(body)) && ValidBody(body) && PlainName(name)
    requires FollowsString(s, i + |body| + 2) && !EndsWith(body, name)
    ensures NoKeyIn(s, i, i + |body| + 2, name)
  {
    hide ValidBody, FollowsString, Quoted, SkipWs, IsSpace, EndsWith;
    forall p | i <= p < i + |body| + 2 ensures !KeyAt(s, p, name) {
      if p == i + |body| + 1 {
        NoKeyAtClose(s, p, name);
      } else if Holds(s, p, Quoted(name)) {
        NameInQuoted(s, i, body, p, name);
      }
    }
  }

  // ---------- Trees ----------

  /** No key of the tree ends in `name`. */
  predicate Lacks(v: Value, name: string) {
    v.Node? ==> LacksIn(v.elems, name)
  }

  predicate LacksIn(e: Elems, name: string) {
    e.Cons? ==>
      && (e.name.Key? ==> !EndsWith(e.name.raw, name))
      && Lacks(e.value, name)
      && LacksIn(e.rest, name)
  }

  lemma NoKeyInLabel(s: string, i: nat, l: Label, isObject: bool, name: string)
    requires ValidLabel(l, isObject) && Holds(s, i, RenderLabel(l)) && PlainName(name)
    requires l.Key? ==> !EndsWith(l.raw, name)
    ensures NoKeyIn(s, i, i + |RenderLabel(l)|, name)
  {
    if l.Key? {
      NoKeyInKey(s, i, l, name);
    }
  }

  lemma NoKeyInKey(s: string, i: nat, l: Label, name: string)
    requires l.Key? && ValidLabel(l, true) && Holds(s, i, RenderLabel(l)) && PlainName(name)
    requires !EndsWith(l.raw, name)
    ensures NoKeyIn(s, i, i + |RenderLabel(l)|, name)
  {
    hide Holds, RenderLabel, ValidBody, EndsWith, PlainName, Flat;
    KeyParts(s, i, l);
    var j := i + |Quoted(l.raw)|;
    ColonFollows(s, j, l.beforeColon);
    NoKeyInOther(s, i, l.raw, name);
    SpacesAreFlat(l.beforeColon);
    SpacesAreFlat(l.afterColon);
    PunctuationIsFlat();
    NoKeyInFlat(s, j, l.beforeColon, name);
    NoKeyInFlat(s, j + |l.beforeColon|, ":", name);
    NoKeyInFlat(s, j + |l.beforeColon| + 1, l.afterColon, name);
  }

  lemma ColonFollows(s: string, j: nat, w: string)
    requires Holds(s, j, w) && Spaces(w) && Holds(s, j + |w|, ":")
    ensures FollowsString(s, j)
  {
    HoldsChar(s, j + |w|, ':');
    if w != "" {
      HoldsAt(s, j, w, 0);
    }
  }

  /** No key of the tree ends in `name`, so `"name":` occurs nowhere in its
      text, whatever its string values hold. */
  lemma {:induction false} NoKeyInValue(s: string, i: nat, v: Value, name: string)
    requires Valid(v) && Holds(s, i, Render(v)) && PlainName(name) && Lacks(v, name)
    requires ValueEnds(s, i + |Render(v)|)
    ensures NoKeyIn(s, i, i + |Render(v)|, name)
    decreases v
  {
    hide Holds, ValidBody, ValidAtom, PlainName, RenderElems, ValidElems, SkipWs, FollowsString, NoKeyIn, LacksIn, Stands;
    match v
    case Str(body) => NoKeyInString(s, i, body, name);
    case Atom(text) => NoKeyInAtom(s, i, text, name);
    case Node(isObject, pre, elems) =>
      StandsInNode(s, i, v);
      NoKeyInBrackets(s, i, v, name);
      NoKeyInElems(s, i + 1 + |pre|, elems, isObject, name);
      NoKeyJoin(s, i, i + 1 + |pre|, i + |Render(v)| - 1, name);
      NoKeyJoin(s, i, i + |Render(v)| - 1, i + |Render(v)|, name);
  }

  lemma NoKeyInAtom(s: string, i: nat, t: string, name: string)
    requires Holds(s, i, t) && ValidAtom(t)
    ensures NoKeyIn(s, i, i + |t|, name)
  {
    hide ValidAtom;
    AtomChars(t);
    NoKeyInFlat(s, i, t, name);
  }

  lemma NoKeyJoin(s: string, i: int, j: int, k: int, name: string)
    requires NoKeyIn(s, i, j, name) && NoKeyIn(s, j, k, name)
    ensures NoKeyIn(s, i, k, name)
  {}

  /** The opening bracket with the whitespace behind it, and the closing one. */
  lemma NoKeyInBrackets(s: string, i: nat, v: Value, name: string)
    requires Valid(v) && v.Node? && Holds(s, i, Render(v))
    ensures NoKeyIn(s, i, i + 1 + |v.pre|, name)
    ensures NoKeyIn(s, i + |Render(v)| - 1, i + |Render(v)|, name)
  {
    hide Holds, Render, RenderElems, ValidElems, Flat, KeyAt;
    NodeParts(s, i, v);
    SpacesAreFlat(v.pre);
    NoKeyInFlat(s, i + 1, v.pre, name);
    NoKeyInBracket(s, i, name);
    NoKeyInBracket(s, i + |Render(v)| - 1, name);
  }

  lemma {:induction false} NoKeyInElems(s: string, i: nat, e: Elems, isObject: bool, name: string)
    requires Stands(s, i, e, isObject) && PlainName(name) && LacksIn(e, name)
    ensures NoKeyIn(s, i, i + |RenderElems(e)|, name)
    decreases e
  {
    hide Stands, RenderElems, Lacks, PlainName, EndsWith, RestAt, KeyAt;
    if e.Nil? {
      EmptyText();
    } else {
      NoKeyInHead(s, i, e, isObject, name);
      if e.rest.Cons? {
        StandsRest(s, i, e, isObject);
        NoKeyInElems(s, RestAt(i, e), e.rest, isObject, name);
        MemberStandsBound(s, i, e, isObject);
      }
    }
  }

  /** The end of the first element: where the next starts, or the list ends. */
  function HeadEnd(i: nat, e: Elems): nat
    requires e.Cons?
  {
    if e.rest.Nil? then i + |RenderElems(e)| else RestAt(i, e)
  }

  lemma {:induction false} NoKeyInHead(s: string, i: nat, e: Elems, isObject: bool, name: string)
    requires e.Cons? && Stands(s, i, e, isObject) && PlainName(name)
    requires e.name.Key? ==> !EndsWith(e.name.raw, name)
    requires Lacks(e.value, name)
    ensures NoKeyIn(s, i, HeadEnd(i, e), name)
    decreases e, 0
  {
    hide Holds, Render, RenderLabel, RenderElems, ValidBody, ValidAtom, Lacks, PlainName, EndsWith, RestText, KeyAt, SkipWs, Spaces,
      ValueEnds, Stands;
    StandsOpen(s, i, e, isObject);
    ElemParts(s, i, e);
    ValueEndsThere(s, i, e, isObject);
    NoKeyInLabel(s, i, e.name, isObject, name);
    NoKeyInValue(s, ValueAt(i, e), e.value, name);
    NoKeyInGap(s, i, e, isObject, name);
  }

  lemma StandsOpen(s: string, i: nat, e: Elems, isObject: bool)
    requires Stands(s, i, e, isObject)
    ensures ValidElems(e, isObject) && Holds(s, i, RenderElems(e))
  {}

  lemma ValueEndsThere(s: string, i: nat, e: Elems, isObject: bool)
    requires e.Cons? && Stands(s, i, e, isObject)
    ensures ValueEnds(s, AfterAt(i, e))
  {
    hide Stands, SkipWs, RenderElems, AfterAt, RestAt;
    AfterScan(s, i, e, isObject);
  }

  /** The whitespace after a value, the comma and the whitespace after that. */
  lemma NoKeyInGap(s: string, i: nat, e: Elems, isObject: bool, name: string)
    requires e.Cons? && Stands(s, i, e, isObject)
    ensures NoKeyIn(s, AfterAt(i, e), HeadEnd(i, e), name)
  {
    hide Holds, Render, RenderLabel, RenderElems, Valid, RestText, KeyAt, Spaces, Flat;
    ElemParts(s, i, e);
    SpacesAreFlat(e.after);
    NoKeyInFlat(s, AfterAt(i, e), e.after, name);
    if e.rest.Cons? {
      RestParts(s, i, e);
      SpacesAreFlat(e.sep);
      NoKeyInBracket(s, AfterAt(i, e) + |e.after|, name);
      NoKeyInFlat(s, AfterAt(i, e) + |e.after| + 1, e.sep, name);
    }
  }
}
