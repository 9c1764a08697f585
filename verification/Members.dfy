/**
 Member lookup by scanning: walks one object at one level of nesting, keeps
 going after a match to catch a duplicate, and agrees with the syntax tree.
 */
module Members {
  import opened Wrappers
  import opened Json
  import opened Scanner

  datatype Lookup = NotFound | Duplicate | Found(at: nat)

  function Outcome(found: Option<nat>): Lookup {
    match found
    case None => NotFound
    case Some(at) => Found(at)
  }

  // ---------- The scan ----------

  /** What one turn of the walk does: answer, or go on from a later member. */
  datatype Turn = Stop(answer: Lookup) | Next(i: nat, found: Option<nat>)

  datatype KeySpan = KeySpan(end: nat, value: nat)

  /** A key, its colon and the whitespace around it: where the key's closing
      quote ends and where the value starts. */
  function ScanKey(s: string, i: nat): (r: Option<KeySpan>)
    ensures r.Some? ==> i + 2 <= r.value.end <= |s| && i < r.value.value
  {
    match SkipString(s, i)
    case None => None
    case Some(end) =>
      var colon := SkipWs(s, end);
      if colon < |s| && s[colon] == ':' then Some(KeySpan(end, SkipWs(s, colon + 1))) else None
  }

  /** Past the value at `value` and the comma behind it, if there is one. */
  function ScanComma(s: string, value: nat): (r: Option<nat>)
    ensures r.Some? ==> value < r.value
  {
    match SkipValue(s, value)
    case None => None
    case Some(after) =>
      var comma := SkipWs(s, after);
      if comma < |s| && s[comma] == ',' then Some(SkipWs(s, comma + 1)) else None
  }

  /** One turn at the member starting at `i`, with `found` seen so far. */
  function MemberTurn(s: string, i: nat, key: string, found: Option<nat>): (t: Turn)
    ensures t.Next? ==> i < t.i && i < |s|
  {
    match ScanKey(s, i)
    case None => Stop(Outcome(found))
    case Some(k) =>
      var matches := s[i + 1..k.end - 1] == key;
      var now := if matches then Some(k.value) else found;
      if matches && found.Some? then Stop(Duplicate) else
      match ScanComma(s, k.value)
      case None => Stop(Outcome(now))
      case Some(n) => Next(n, now)
  }

  function MemberLoop(s: string, i: nat, key: string, found: Option<nat>): Lookup
    decreases |s| - i
  {
    match MemberTurn(s, i, key, found)
    case Stop(answer) => answer
    case Next(j, now) => MemberLoop(s, j, key, now)
  }

  function FindMember(s: string, objStart: nat, key: string): Lookup {
    if objStart >= |s| || s[objStart] != '{' then NotFound
    else MemberLoop(s, SkipWs(s, objStart + 1), key, None)
  }

  method KeyScanner(s: string, i: nat) returns (r: Option<KeySpan>)
    ensures r == ScanKey(s, i)
  {
    var end := SkipStringScan(s, i);
    if end.None? {
      return None;
    }
    var colon := SkipWsScan(s, end.value);
    if colon >= |s| || s[colon] != ':' {
      return None;
    }
    var value := SkipWsScan(s, colon + 1);
    r := Some(KeySpan(end.value, value));
  }

  method CommaScanner(s: string, value: nat) returns (r: Option<nat>)
    ensures r == ScanComma(s, value)
  {
    var after := SkipValueScan(s, value);
    if after.None? {
      return None;
    }
    var comma := SkipWsScan(s, after.value);
    if comma >= |s| || s[comma] != ',' {
      return None;
    }
    var next := SkipWsScan(s, comma + 1);
    r := Some(next);
  }

  method FindMemberScan(s: string, objStart: nat, key: string) returns (r: Lookup)
    ensures r == FindMember(s, objStart, key)
  {
    if objStart >= |s| || s[objStart] != '{' {
      return NotFound;
    }
    var found: Option<nat> := None;
    var i := SkipWsScan(s, objStart + 1);
    while i < |s| && s[i] == '"'
      invariant FindMember(s, objStart, key) == MemberLoop(s, i, key, found)
      decreases |s| - i
    {
      var k := KeyScanner(s, i);
      if k.None? {
        break;
      }
      if s[i + 1..k.value.end - 1] == key {
        if found.Some? {
          return Duplicate;
        }
        found := Some(k.value.value);
      }
      var next := CommaScanner(s, k.value.value);
      if next.None? {
        break;
      }
      i := next.value;
    }
    r := Outcome(found);
  }

  // ---------- The tree's answer ----------

  predicate Named(e: Elems, key: string)
    requires e.Cons?
  {
    e.name.Key? && e.name.raw == key
  }

  /** How many members of this level have the raw key `key`. */
  function Count(e: Elems, key: string): nat {
    if e.Nil? then 0 else (if Named(e, key) then 1 else 0) + Count(e.rest, key)
  }

  /** The value of the first member with the raw key `key`. */
  function Member(e: Elems, key: string): Value
    requires Count(e, key) >= 1
  {
    if Named(e, key) then e.value else Member(e.rest, key)
  }

  /** Where that value starts when the elements start at `i`. */
  function MemberAt(i: nat, e: Elems, key: string): nat
    requires Count(e, key) >= 1
    decreases e
  {
    if Named(e, key) then i + |RenderLabel(e.name)| else MemberAt(RestAt(i, e), e.rest, key)
  }

  // ---------- Scanning one element of the tree's text ----------

  lemma FirstOfValue(s: string, i: nat, v: Value)
    requires Holds(s, i, Render(v)) && Valid(v)
    ensures i < |s| && !IsSpace(s[i]) && s[i] !in ",:}]"
    ensures s[i] == '"' <==> v.Str?
    ensures (s[i] == '{' || s[i] == '[') <==> v.Node?
    ensures v.Node? ==> s[i] == Open(v.isObject)
  {
    hide ValidBody, ValidAtom, RenderElems, ValidElems;
    RenderNonempty(v);
    HoldsAt(s, i, Render(v), 0);
    if v.Atom? {
      AtomChars(v.text);
    }
  }

  lemma FirstOfElems(s: string, i: nat, e: Elems, isObject: bool)
    requires e.Cons? && Holds(s, i, RenderElems(e)) && ValidElems(e, isObject)
    ensures i < |s| && !IsSpace(s[i]) && s[i] !in ",:}]"
    ensures isObject ==> s[i] == '"'
  {
    hide Holds, Render, RenderElems, Valid, ValidBody;
    ElemParts(s, i, e);
    if isObject {
      KeyParts(s, i, e.name);
      BodyOfQuoted(s, i, e.name.raw);
    } else {
      FirstOfValue(s, i, e.value);
    }
  }

  /** The scan of a key, its colon and the whitespace up to the value. */
  lemma ScanKeyAgrees(s: string, i: nat, l: Label)
    requires l.Key? && ValidLabel(l, true) && Holds(s, i, RenderLabel(l))
    requires i + |RenderLabel(l)| < |s| && !IsSpace(s[i + |RenderLabel(l)|])
    ensures ScanKey(s, i) == Some(KeySpan(i + |Quoted(l.raw)|, i + |RenderLabel(l)|))
    ensures s[i + 1..i + |Quoted(l.raw)| - 1] == l.raw
  {
    hide Holds, RenderLabel, ValidBody, SkipWs, SkipString, Quoted;
    KeyParts(s, i, l);
    var end := i + |Quoted(l.raw)|;
    var colon := end + |l.beforeColon|;
    SkipStringAgrees(s, i, l.raw);
    BodyOfQuoted(s, i, l.raw);
    HoldsChar(s, colon, ':');
    SkipSpaces(s, end, l.beforeColon);
    SkipSpaces(s, colon + 1, l.afterColon);
  }

  lemma BodyOfQuoted(s: string, i: nat, body: string)
    requires Holds(s, i, Quoted(body))
    ensures s[i + 1..i + |Quoted(body)| - 1] == body
    ensures i < |s| && s[i] == '"'
  {
    assert Quoted(body) == "\"" + (body + "\"");
    HoldsSplit(s, i, "\"", body + "\"");
    HoldsSplit(s, i + 1, body, "\"");
    HoldsAt(s, i, "\"", 0);
  }

  /** A list of elements stands at `i` with its container's closing bracket
      behind it. */
  predicate Stands(s: string, i: nat, e: Elems, isObject: bool) {
    && ValidElems(e, isObject)
    && Holds(s, i, RenderElems(e))
    && i + |RenderElems(e)| < |s| && s[i + |RenderElems(e)|] == Close(isObject)
  }

  lemma StandsInNode(s: string, i: nat, v: Value)
    requires v.Node? && Valid(v) && Holds(s, i, Render(v))
    ensures i < |s| && s[i] == Open(v.isObject)
    ensures SkipWs(s, i + 1) == i + 1 + |v.pre|
    ensures Stands(s, i + 1 + |v.pre|, v.elems, v.isObject)
    ensures i + |Render(v)| == i + 1 + |v.pre| + |RenderElems(v.elems)| + 1
  {
    hide Holds, Render, RenderElems, ValidElems, SkipWs, Spaces;
    NodeParts(s, i, v);
    if v.elems.Cons? {
      FirstOfElems(s, i + 1 + |v.pre|, v.elems, v.isObject);
    } else {
      EmptyText();
    }
    SkipSpaces(s, i + 1, v.pre);
  }

  /** Where the first element's value starts, and where the text after it does. */
  function ValueAt(i: nat, e: Elems): nat
    requires e.Cons?
  {
    i + |RenderLabel(e.name)|
  }

  function AfterAt(i: nat, e: Elems): nat
    requires e.Cons?
  {
    i + |RenderLabel(e.name)| + |Render(e.value)|
  }

  lemma StandsRest(s: string, i: nat, e: Elems, isObject: bool)
    requires e.Cons? && e.rest.Cons? && Stands(s, i, e, isObject)
    ensures Stands(s, RestAt(i, e), e.rest, isObject)
  {
    hide Holds, RenderElems, RestAt, ValidBody, ValidAtom;
    RestParts(s, i, e);
  }

  /** The scan past the whitespace that follows an element's value. */
  lemma AfterScan(s: string, i: nat, e: Elems, isObject: bool)
    requires e.Cons? && Stands(s, i, e, isObject)
    ensures
      var comma := AfterAt(i, e) + |e.after|;
      && SkipWs(s, AfterAt(i, e)) == comma && comma < |s|
      && Delimited(s, AfterAt(i, e))
      && (e.rest.Nil? ==> comma == i + |RenderElems(e)| && s[comma] == Close(isObject))
      && (e.rest.Cons? ==> s[comma] == ',' && SkipWs(s, comma + 1) == RestAt(i, e))
  {
    hide Holds, Render, RenderLabel, RenderElems, SkipWs, Valid, RestText;
    ElemParts(s, i, e);
    var comma := AfterAt(i, e) + |e.after|;
    if e.rest.Cons? {
      RestParts(s, i, e);
      FirstOfElems(s, RestAt(i, e), e.rest, isObject);
      SkipSpaces(s, comma + 1, e.sep);
    }
    SkipSpaces(s, AfterAt(i, e), e.after);
    DelimitedAfter(s, AfterAt(i, e), e.after);
  }

  lemma DelimitedAfter(s: string, j: nat, w: string)
    requires Holds(s, j, w) && Spaces(w)
    requires Delimited(s, j + |w|)
    ensures Delimited(s, j)
  {
    if w != "" {
      HoldsAt(s, j, w, 0);
    }
  }

  /** The scan of the first element's value. */
  lemma ValueScan(s: string, i: nat, e: Elems, isObject: bool)
    requires e.Cons? && Stands(s, i, e, isObject)
    ensures Holds(s, ValueAt(i, e), Render(e.value))
    ensures ValueAt(i, e) < |s| && !IsSpace(s[ValueAt(i, e)])
    ensures SkipValue(s, ValueAt(i, e)) == Some(AfterAt(i, e))
  {
    hide Holds, Render, RenderLabel, RenderElems, SkipWs, Valid, RestText, SkipValue;
    ElemParts(s, i, e);
    AfterScan(s, i, e, isObject);
    FirstOfValue(s, ValueAt(i, e), e.value);
    SkipValueAgrees(s, ValueAt(i, e), e.value);
  }

  // ---------- Agreement ----------

  /** What the walk must answer from the tree. */
  function Expected(i: nat, e: Elems, key: string, found: Option<nat>): Lookup {
    if Count(e, key) == 0 then Outcome(found)
    else if Count(e, key) == 1 && found.None? then Found(MemberAt(i, e, key))
    else Duplicate
  }

  /** One turn of the walk over the tree's text. */
  lemma MemberTurnAgrees(s: string, i: nat, e: Elems, key: string, found: Option<nat>)
    requires e.Cons? && Stands(s, i, e, true)
    ensures
      var now := if Named(e, key) then Some(ValueAt(i, e)) else found;
      MemberTurn(s, i, key, found) ==
      if Named(e, key) && found.Some? then Stop(Duplicate)
      else if e.rest.Nil? then Stop(Outcome(now))
      else Next(RestAt(i, e), now)
  {
    hide Holds, Render, RenderLabel, RenderElems, Valid, ValidBody, ScanKey, ScanComma, RestText, RestAt;
    ElemParts(s, i, e);
    ValueScan(s, i, e, true);
    ScanKeyAgrees(s, i, e.name);
    ScanCommaAgrees(s, i, e, true);
  }

  lemma ScanCommaAgrees(s: string, i: nat, e: Elems, isObject: bool)
    requires e.Cons? && Stands(s, i, e, isObject)
    ensures ScanComma(s, ValueAt(i, e)) == if e.rest.Nil? then None else Some(RestAt(i, e))
  {
    hide Stands, SkipWs, SkipValue, ValueAt, AfterAt, RestAt, RenderElems;
    ValueScan(s, i, e, isObject);
    AfterScan(s, i, e, isObject);
  }

  lemma {:induction false} MemberLoopAgrees(s: string, i: nat, e: Elems, key: string, found: Option<nat>)
    requires Stands(s, i, e, true)
    ensures MemberLoop(s, i, key, found) == Expected(i, e, key, found)
    decreases e
  {
    hide Holds, Stands, RenderElems, RestAt, MemberTurn;
    if e.Nil? {
      MemberLoopEnds(s, i, key, found);
    } else {
      MemberTurnAgrees(s, i, e, key, found);
      if e.rest.Nil? {
        assert Count(e.rest, key) == 0;
      } else {
        StandsRest(s, i, e, true);
        MemberLoopAgrees(s, RestAt(i, e), e.rest, key, if Named(e, key) then Some(ValueAt(i, e)) else found);
      }
    }
  }

  lemma MemberLoopEnds(s: string, i: nat, key: string, found: Option<nat>)
    requires Stands(s, i, Nil, true)
    ensures MemberLoop(s, i, key, found) == Outcome(found)
  {}

  /** On the text of a valid object `find_member` answers from the members of
      that level and from nothing else: the value's offset when one raw key
      matches, `Duplicate` when several do, `NotFound` when none does. */
  lemma FindMemberAgrees(s: string, i: nat, v: Value, key: string)
    requires Valid(v) && Holds(s, i, Render(v))
    ensures
      FindMember(s, i, key) ==
      if !v.Node? || !v.isObject || Count(v.elems, key) == 0 then NotFound
      else if Count(v.elems, key) == 1 then Found(MemberAt(i + 1 + |v.pre|, v.elems, key))
      else Duplicate
  {
    hide Holds, Render, RenderElems, Valid, MemberLoop, MemberAt, Count, SkipWs;
    FirstOfValue(s, i, v);
    if v.Node? && v.isObject {
      StandsInNode(s, i, v);
      MemberLoopAgrees(s, i + 1 + |v.pre|, v.elems, key, None);
    }
  }

  /** The value found is the member's own: its text stands at that offset. */
  lemma {:induction false} MemberStands(s: string, i: nat, e: Elems, isObject: bool, key: string)
    requires Stands(s, i, e, isObject) && Count(e, key) >= 1
    ensures Holds(s, MemberAt(i, e, key), Render(Member(e, key)))
    ensures Valid(Member(e, key))
    ensures i <= MemberAt(i, e, key)
    ensures MemberAt(i, e, key) + |Render(Member(e, key))| <= i + |RenderElems(e)|
    decreases e
  {
    hide Holds, Stands, RenderElems, Render, RenderLabel, ValidBody;
    if Named(e, key) {
      MemberStandsFirst(s, i, e, isObject);
    } else {
      StandsRest(s, i, e, isObject);
      MemberStands(s, RestAt(i, e), e.rest, isObject, key);
      MemberStandsBound(s, i, e, isObject);
    }
  }

  lemma MemberStandsFirst(s: string, i: nat, e: Elems, isObject: bool)
    requires Stands(s, i, e, isObject) && e.Cons?
    ensures Holds(s, ValueAt(i, e), Render(e.value)) && Valid(e.value)
    ensures ValueAt(i, e) + |Render(e.value)| <= i + |RenderElems(e)|
  {
    hide Holds, RenderElems, Render, RenderLabel, ValidBody, RestText;
    ElemParts(s, i, e);
  }

  lemma MemberStandsBound(s: string, i: nat, e: Elems, isObject: bool)
    requires Stands(s, i, e, isObject) && e.Cons? && e.rest.Cons?
    ensures i <= RestAt(i, e) && RestAt(i, e) + |RenderElems(e.rest)| == i + |RenderElems(e)|
  {
    hide Holds, RenderElems, Render, RenderLabel, ValidBody;
    RestParts(s, i, e);
  }
}
