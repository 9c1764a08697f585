/**
 One round of uninstall: when the first marker of a text belongs to a chunk
 that install wrote, exactly the chunk, its comma, its indentation and its
 line ending are cut out.
 */
module Removal {
  import opened Wrappers
  import opened Json
  import opened Scanner
  import opened Members
  import opened Markers
  import opened Doc
  import opened HookEntry
  import opened Settings
  import opened Chunks

  /** The three places an entry can be written into. */
  datatype Shape = InArray | InHooks | InRoot

  function GroupList(k: nat, bin: string): Value
    requires k < 4
  {
    List(Item(GroupTree(EntryAt(k), bin), Nil))
  }

  function EventKey(k: nat): Label
    requires k < 4
  {
    Key(EntryAt(k).event, "", " ")
  }

  function HooksObject(k: nat, bin: string): Value
    requires k < 4
  {
    Object(Cons(EventKey(k), GroupList(k, bin), "", "", Nil))
  }

  function ChunkName(shape: Shape, k: nat): Label
    requires k < 4
  {
    match shape
    case InArray => NoLabel
    case InHooks => EventKey(k)
    case InRoot => Key("hooks", "", " ")
  }

  function ChunkValue(shape: Shape, k: nat, bin: string): Value
    requires k < 4
  {
    match shape
    case InArray => GroupTree(EntryAt(k), bin)
    case InHooks => GroupList(k, bin)
    case InRoot => HooksObject(k, bin)
  }

  function ChunkText(shape: Shape, k: nat, bin: string): string
    requires k < 4
  {
    RenderLabel(ChunkName(shape, k)) + Render(ChunkValue(shape, k, bin))
  }

  // ---------- The chunk is what the format strings write ----------

  lemma GroupListText(k: nat, bin: string)
    requires k < 4
    ensures Render(GroupList(k, bin)) == "[" + GroupLine(EntryAt(k), bin) + "]"
  {
    hide RenderElems, GroupTree, GroupLine, EntryAt;
    GroupText(EntryAt(k), bin);
    ItemText(GroupTree(EntryAt(k), bin), Nil);
    var g := GroupLine(EntryAt(k), bin);
    assert g + "" == g;
    assert "[" + "" + g + "]" == "[" + g + "]";
  }

  lemma EventChunkText(k: nat, bin: string)
    requires k < 4
    ensures RenderLabel(EventKey(k)) + Render(GroupList(k, bin)) == EventChunk(EntryAt(k).event, GroupLine(EntryAt(k), bin))
  {
    hide RenderElems, GroupLine, EntryAt, Render, GroupList;
    GroupListText(k, bin);
    var e, g := EntryAt(k).event, GroupLine(EntryAt(k), bin);
    assert "\"" + e + "\"" + "" + ":" + " " + ("[" + g + "]") == "\"" + e + "\": [" + g + "]";
  }

  lemma HooksChunkText(k: nat, bin: string)
    requires k < 4
    ensures ChunkText(InRoot, k, bin) == HooksChunk(EntryAt(k).event, GroupLine(EntryAt(k), bin))
  {
    hide GroupLine, EntryAt, Render, RenderLabel, RenderElems, GroupList, EventKey, EventChunk;
    EventChunkText(k, bin);
    var chunk := EventChunk(EntryAt(k).event, GroupLine(EntryAt(k), bin));
    HooksObjectText(k, bin);
    HooksLabelText();
    assert "\"hooks\": " + ("{" + chunk + "}") == "\"hooks\": {" + chunk + "}";
  }

  lemma HooksLabelText()
    ensures RenderLabel(Key("hooks", "", " ")) == "\"hooks\": "
  {}

  lemma HooksObjectText(k: nat, bin: string)
    requires k < 4
    ensures Render(HooksObject(k, bin)) == "{" + (RenderLabel(EventKey(k)) + Render(GroupList(k, bin))) + "}"
  {
    hide RenderLabel, GroupList, EventKey;
    var e := Cons(EventKey(k), GroupList(k, bin), "", "", Nil);
    ElemsText(e);
    NodeText(HooksObject(k, bin));
    hide Render, RenderElems;
    var t := RenderLabel(EventKey(k)) + Render(GroupList(k, bin));
    assert RestText(e) == "";
    assert RenderLabel(EventKey(k)) + (Render(GroupList(k, bin)) + ("" + "")) == t;
    assert "{" + ("" + (t + "}")) == "{" + t + "}";
  }

  // ---------- The chunk is one line ----------

  predicate OneLine(t: string) {
    forall k :: 0 <= k < |t| ==> t[k] >= ' '
  }

  predicate Blank(w: string) {
    forall k :: 0 <= k < |w| ==> w[k] == ' '
  }

  predicate Compact(v: Value) {
    v.Node? ==> Blank(v.pre) && CompactIn(v.elems)
  }

  predicate CompactIn(e: Elems) {
    e.Cons? ==>
      && (e.name.Key? ==> Blank(e.name.beforeColon) && Blank(e.name.afterColon))
      && Compact(e.value) && Blank(e.after) && Blank(e.sep) && CompactIn(e.rest)
  }

  lemma {:induction false} BodyOneLine(b: string)
    requires ValidBody(b)
    ensures OneLine(b)
    decreases |b|
  {
    if b == "" {
    } else {
      var n := UnitLength(b);
      BodyOneLine(b[n..]);
      assert OneLine(b[..n]) by { UnitOneLine(b); }
      assert b == b[..n] + b[n..];
    }
  }

  lemma UnitOneLine(b: string)
    requires b != "" && ValidBody(b)
    ensures OneLine(b[..UnitLength(b)])
  {}

  lemma JoinOneLine(a: string, b: string)
    requires OneLine(a) && OneLine(b)
    ensures OneLine(a + b)
  {}

  lemma QuotedOneLine(b: string)
    requires ValidBody(b)
    ensures OneLine(Quoted(b))
  {
    BodyOneLine(b);
    hide ValidBody;
  }

  lemma PiecesOneLine(a: string, b: string, c: string, d: string)
    requires OneLine(a) && OneLine(b) && OneLine(c) && OneLine(d)
    ensures OneLine(a + (b + (c + d)))
  {
    JoinOneLine(c, d);
    JoinOneLine(b, c + d);
    JoinOneLine(a, b + (c + d));
  }

  lemma BlankOneLine(w: string)
    requires Blank(w)
    ensures OneLine(w)
  {}

  lemma PunctuationOneLine()
    ensures OneLine(":") && OneLine(",") && OneLine("") && OneLine("{") && OneLine("}") && OneLine("[") && OneLine("]")
  {}

  lemma LabelOneLine(l: Label, isObject: bool)
    requires ValidLabel(l, isObject) && (l.Key? ==> Blank(l.beforeColon) && Blank(l.afterColon))
    ensures OneLine(RenderLabel(l))
  {
    if l.Key? {
      KeyText(l);
      hide RenderLabel, Quoted, OneLine, ValidBody, Blank;
      QuotedOneLine(l.raw);
      BlankOneLine(l.beforeColon);
      BlankOneLine(l.afterColon);
      PunctuationOneLine();
      PiecesOneLine(Quoted(l.raw), l.beforeColon, ":", l.afterColon);
    }
  }

  lemma {:induction false} ValueOneLine(v: Value)
    requires Valid(v) && Compact(v)
    ensures OneLine(Render(v))
    decreases v
  {
    hide OneLine, ValidBody, ValidAtom, Blank, RenderElems, Quoted;
    match v
    case Str(body) => QuotedOneLine(body);
    case Atom(text) => AtomOneLine(text);
    case Node(isObject, pre, elems) =>
      ElemsOneLine(elems, isObject);
      BlankOneLine(pre);
      PunctuationOneLine();
      NodeText(v);
      PiecesOneLine([Open(isObject)], pre, RenderElems(elems), [Close(isObject)]);
  }

  lemma AtomOneLine(t: string)
    requires ValidAtom(t)
    ensures OneLine(t)
  {
    hide ValidAtom;
    AtomChars(t);
  }

  lemma {:induction false} ElemsOneLine(e: Elems, isObject: bool)
    requires ValidElems(e, isObject) && CompactIn(e)
    ensures OneLine(RenderElems(e))
    decreases e
  {
    hide OneLine, ValidBody, ValidAtom, Blank, Render, RenderElems, RenderLabel, Valid, Compact;
    PunctuationOneLine();
    if e.Nil? {
      EmptyText();
    } else {
      ElemsText(e);
      LabelOneLine(e.name, isObject);
      ValueOneLine(e.value);
      BlankOneLine(e.after);
      if e.rest.Cons? {
        ElemsOneLine(e.rest, isObject);
        BlankOneLine(e.sep);
        JoinOneLine(e.sep, RenderElems(e.rest));
        JoinOneLine(",", e.sep + RenderElems(e.rest));
      }
      PiecesOneLine(RenderLabel(e.name), Render(e.value), e.after, RestText(e));
    }
  }

  lemma FieldCompact(key: string, v: Value, rest: Elems)
    requires Compact(v) && CompactIn(rest)
    ensures CompactIn(Field(key, v, rest))
  {
    hide Compact;
  }

  lemma ItemCompact(v: Value, rest: Elems)
    requires Compact(v) && CompactIn(rest)
    ensures CompactIn(Item(v, rest)) && Compact(List(Item(v, rest))) && CompactIn(Nil)
  {
    assert CompactIn(Item(v, rest)) by {
      hide Compact;
    }
  }

  lemma ScalarsCompact(body: string, text: string)
    ensures Compact(Str(body)) && Compact(Atom(text)) && CompactIn(Nil)
  {}

  lemma LateCompact(entry: Entry)
    ensures CompactIn(LateFields(entry))
  {
    hide Compact, CompactIn, Field;
    ScalarsCompact(entry.status, entry.timeout);
    ScalarsCompact(entry.status, "true");
    FieldCompact("statusMessage", Str(entry.status), Nil);
    if entry.isAsync {
      FieldCompact("async", Atom("true"), StatusField(entry));
      FieldCompact("timeout", Atom(entry.timeout), Field("async", Atom("true"), StatusField(entry)));
    } else {
      FieldCompact("timeout", Atom(entry.timeout), StatusField(entry));
    }
  }

  lemma ObjectCompact(e: Elems)
    requires CompactIn(e)
    ensures Compact(Object(e))
  {
    hide CompactIn;
  }

  lemma GroupCompact(entry: Entry, bin: string)
    ensures Compact(GroupTree(entry, bin))
  {
    hide Compact, CompactIn, Field, Item, LateFields, ArgsOf, Escape;
    LateCompact(entry);
    ArgsCompact(entry);
    ScalarsCompact("command", "");
    ScalarsCompact(Escape(bin), "");
    var args := Field("args", ArgsOf(entry), LateFields(entry));
    FieldCompact("args", ArgsOf(entry), LateFields(entry));
    var command := Field("command", Str(Escape(bin)), args);
    FieldCompact("command", Str(Escape(bin)), args);
    FieldCompact("type", Str("command"), command);
    ObjectCompact(Field("type", Str("command"), command));
    var hook := HookTree(entry, bin);
    ItemCompact(hook, Nil);
    FieldCompact("hooks", List(Item(hook, Nil)), Nil);
    ObjectCompact(Field("hooks", List(Item(hook, Nil)), Nil));
  }

  lemma ArgsCompact(entry: Entry)
    ensures Compact(ArgsOf(entry))
  {
    hide Compact, CompactIn, Item;
    ScalarsCompact("hook", "");
    ScalarsCompact(entry.sub, "");
    ItemCompact(Str(entry.sub), Nil);
    ItemCompact(Str("hook"), Item(Str(entry.sub), Nil));
  }

  // ---------- The chunk's tree ----------

  lemma ChunkValid(shape: Shape, k: nat, bin: string)
    requires k < 4
    ensures Valid(ChunkValue(shape, k, bin)) && ChunkValue(shape, k, bin).Node?
    ensures ValidLabel(ChunkName(shape, k), shape != InArray)
    ensures Valid(GroupTree(EntryAt(k), bin)) && Valid(GroupList(k, bin)) && ValidLabel(EventKey(k), true)
    ensures IsGroup(GroupTree(EntryAt(k), bin))
  {
    hide ValidBody, ValidAtom, ValidElems, GroupTree, EntryAt;
    GroupValid(k, bin);
    EntryBodies(k);
    PlainBodyValid(EntryAt(k).event);
    KeysValid();
    NilValid(false);
    NilValid(true);
    ItemValid(GroupTree(EntryAt(k), bin), Nil);
    EventValid(EventKey(k), GroupList(k, bin));
  }

  lemma EventValid(l: Label, v: Value)
    requires ValidLabel(l, true) && Valid(v)
    ensures ValidElems(Cons(l, v, "", "", Nil), true)
  {
    hide ValidLabel, Valid;
  }

  lemma ChunkOneLine(shape: Shape, k: nat, bin: string)
    requires k < 4
    ensures OneLine(ChunkText(shape, k, bin))
  {
    hide ValidBody, ValidElems, Valid, ValidLabel, OneLine, RenderLabel, Render, GroupTree, EntryAt;
    ChunkValid(shape, k, bin);
    GroupCompact(EntryAt(k), bin);
    ListCompact(GroupTree(EntryAt(k), bin), EventKey(k));
    LabelOneLine(ChunkName(shape, k), shape != InArray);
    ValueOneLine(ChunkValue(shape, k, bin));
    JoinOneLine(RenderLabel(ChunkName(shape, k)), Render(ChunkValue(shape, k, bin)));
  }

  lemma ListCompact(v: Value, l: Label)
    requires Compact(v) && l.Key? && Blank(l.beforeColon) && Blank(l.afterColon)
    ensures Compact(List(Item(v, Nil))) && Compact(Object(Cons(l, List(Item(v, Nil)), "", "", Nil)))
  {
    hide Compact;
    ScalarsCompact("", "");
    ItemCompact(v, Nil);
    ObjectCompact(Cons(l, List(Item(v, Nil)), "", "", Nil));
  }

  // ---------- The chunk in a text ----------

  lemma GroupFacts(s: string, i: nat, k: nat, bin: string) returns (m: nat, q: nat)
    requires k < 4 && Holds(s, i, Render(GroupTree(EntryAt(k), bin)))
    ensures Leads(s, i, m) && m < i + |Render(GroupTree(EntryAt(k), bin))|
    ensures OneCommand(s, i, q, i + |Render(GroupTree(EntryAt(k), bin))|)
  {
    hide Holds, Render, RenderLabel, RenderElems, EntryAt, HookTree, Leads, OneCommand, EndsWith, Valid, Stands;
    KeysDiffer();
    GroupValid(k, bin);
    ListInto(s, i, GroupTree(EntryAt(k), bin));
    var at := ValueAt(i + 1, GroupTree(EntryAt(k), bin).elems);
    var list := List(Item(HookTree(EntryAt(k), bin), Nil));
    ListInto(s, at, list);
    m := NodeLeads(s, ValueAt(at + 1, list.elems), k, bin);
    q := NodeCommand(s, ValueAt(at + 1, list.elems), k, bin);
    LeadsInto(s, at, list, m);
    LeadsInto(s, i, GroupTree(EntryAt(k), bin), m);
    CommandInto(s, at, list, q);
    CommandInto(s, i, GroupTree(EntryAt(k), bin), q);
  }

  /** A container with one element: where that element's value stands. */
  lemma ListInto(s: string, i: nat, v: Value)
    requires v.Node? && v.pre == "" && Valid(v) && Holds(s, i, Render(v)) && v.elems.Cons?
    ensures Valid(v.elems.value)
    ensures var at := ValueAt(i + 1, v.elems); at >= i && Holds(s, at, Render(v.elems.value)) && at + |Render(v.elems.value)| <= i + |Render(v)|
  {
    hide Holds, Render, RenderLabel, RenderElems, Valid, Stands;
    FirstValueAt(s, i, v);
    MemberStandsFirst(s, i + 1, v.elems, v.isObject);
  }

  lemma ListFacts(s: string, i: nat, k: nat, bin: string) returns (m: nat, q: nat)
    requires k < 4 && Holds(s, i, Render(GroupList(k, bin)))
    ensures Leads(s, i, m) && m < i + |Render(GroupList(k, bin))|
    ensures OneCommand(s, i, q, i + |Render(GroupList(k, bin))|)
  {
    hide Holds, Render, RenderLabel, RenderElems, EntryAt, GroupTree, Leads, OneCommand, EndsWith, Valid, Stands;
    ChunkValid(InArray, k, bin);
    var list := GroupList(k, bin);
    ListInto(s, i, list);
    m, q := GroupFacts(s, ValueAt(i + 1, list.elems), k, bin);
    LeadsInto(s, i, list, m);
    CommandInto(s, i, list, q);
  }

  lemma ObjectFacts(s: string, i: nat, k: nat, bin: string) returns (m: nat, q: nat)
    requires k < 4 && Holds(s, i, Render(HooksObject(k, bin)))
    ensures Leads(s, i, m) && m < i + |Render(HooksObject(k, bin))|
    ensures OneCommand(s, i, q, i + |Render(HooksObject(k, bin))|)
  {
    hide Holds, Render, RenderLabel, RenderElems, EntryAt, GroupList, Leads, OneCommand, EndsWith, Valid, Stands;
    ChunkValid(InRoot, k, bin);
    EventsDiffer(k);
    var v := HooksObject(k, bin);
    ListInto(s, i, v);
    m, q := ListFacts(s, ValueAt(i + 1, v.elems), k, bin);
    LeadsInto(s, i, v, m);
    CommandInto(s, i, v, q);
  }

  lemma ValueFacts(s: string, i: nat, shape: Shape, k: nat, bin: string) returns (m: nat, q: nat)
    requires k < 4 && Holds(s, i, Render(ChunkValue(shape, k, bin)))
    ensures Leads(s, i, m) && m < i + |Render(ChunkValue(shape, k, bin))|
    ensures OneCommand(s, i, q, i + |Render(ChunkValue(shape, k, bin))|)
  {
    hide Holds, Render, EntryAt, GroupTree, GroupList, HooksObject, Leads, OneCommand;
    match shape
    case InArray => m, q := GroupFacts(s, i, k, bin);
    case InHooks => m, q := ListFacts(s, i, k, bin);
    case InRoot => m, q := ObjectFacts(s, i, k, bin);
  }

  lemma NameDiffers(shape: Shape, k: nat)
    requires k < 4
    ensures var l := ChunkName(shape, k); l.Key? ==> !EndsWith(l.raw, KEY) && !EndsWith(l.raw, COMMAND)
  {
    hide EndsWith;
    KeysDiffer();
    EventsDiffer(k);
  }

  /** Wherever a chunk stands, the first marker from its start on lies inside
      it, and it holds one command. */
  lemma ChunkFacts(s: string, i: nat, shape: Shape, k: nat, bin: string) returns (m: nat, q: nat)
    requires k < 4 && Holds(s, i, ChunkText(shape, k, bin))
    ensures Leads(s, i, m) && m < i + |ChunkText(shape, k, bin)|
    ensures OneCommand(s, i, q, i + |ChunkText(shape, k, bin)|)
  {
    hide Holds, Render, RenderLabel, EntryAt, ChunkValue, ChunkName, EndsWith, Valid, KeyAt, MarkerAt, ValidLabel;
    var l, v := ChunkName(shape, k), ChunkValue(shape, k, bin);
    ChunkValid(shape, k, bin);
    HoldsSplit(s, i, RenderLabel(l), Render(v));
    m, q := ValueFacts(s, i + |RenderLabel(l)|, shape, k, bin);
    NamesPlain();
    NameDiffers(shape, k);
    NoKeyInLabel(s, i, l, shape != InArray, KEY);
    NoKeyInLabel(s, i, l, shape != InArray, COMMAND);
  }

  /** The chunk scan accepts the chunk's first byte. */
  lemma ChunkStartsThere(s: string, i: nat, shape: Shape, k: nat, bin: string)
    requires k < 4 && Holds(s, i, ChunkText(shape, k, bin))
    ensures ChunkStarts(s, i) && s[i] != ' ' && s[i] != '\t'
  {
    hide Holds, Render, RenderElems, EntryAt, GroupTree, GroupList, HooksObject, Valid, ValidBody, ValidLabel, IsSpace;
    var l, v := ChunkName(shape, k), ChunkValue(shape, k, bin);
    ChunkValid(shape, k, bin);
    HoldsSplit(s, i, RenderLabel(l), Render(v));
    if shape == InArray {
      FirstOfValue(s, i, v);
      BracketsAreNoSpace();
    } else {
      KeyStarts(s, i, l);
    }
  }

  lemma BracketsAreNoSpace()
    ensures IsSpace(' ') && IsSpace('\t')
  {}

  lemma KeyStarts(s: string, i: nat, l: Label)
    requires l.Key? && ValidLabel(l, true) && Holds(s, i, RenderLabel(l))
    ensures i < |s| && s[i] == '"'
    ensures SkipString(s, i).Some? && s[i + 1..SkipString(s, i).value - 1] == l.raw
  {
    hide Holds, RenderLabel, ValidBody, SkipString;
    KeyParts(s, i, l);
    SkipStringAgrees(s, i, l.raw);
    BodyOfQuoted(s, i, l.raw);
  }

  /** The chunk scan ends behind any keyed container or item, and its comma. */
  lemma ElementEndsThere(s: string, i: nat, l: Label, v: Value, comma: string)
    requires ValidLabel(l, l.Key?) && Valid(v) && v.Node? && Holds(s, i, RenderLabel(l) + Render(v) + comma)
    requires comma == "," || (comma == "" && var j := i + |RenderLabel(l) + Render(v)|; j < |s| ==> s[j] != ',')
    ensures ChunkEnd(s, i) == Some(i + |RenderLabel(l) + Render(v)| + |comma|)
  {
    hide Holds, Render, RenderLabel, RenderElems, Valid, ValidBody, ValidLabel, SkipValue, ScanKey;
    HoldsSplit(s, i, RenderLabel(l) + Render(v), comma);
    HoldsSplit(s, i, RenderLabel(l), Render(v));
    var j := i + |RenderLabel(l)|;
    SkipValueAgrees(s, j, v);
    FirstOfValue(s, j, v);
    if comma == "," {
      HoldsChar(s, i + |RenderLabel(l) + Render(v)|, ',');
    }
    if l.Key? {
      ScanKeyAgrees(s, i, l);
      KeyStarts(s, i, l);
    } else {
      EmptyLabelText();
    }
  }

  /** The chunk scan ends behind the chunk and its comma. */
  lemma ChunkEndsThere(s: string, i: nat, shape: Shape, k: nat, bin: string, comma: string)
    requires k < 4 && Holds(s, i, ChunkText(shape, k, bin) + comma)
    requires comma == "," || (comma == "" && var j := i + |ChunkText(shape, k, bin)|; j < |s| ==> s[j] != ',')
    ensures ChunkEnd(s, i) == Some(i + |ChunkText(shape, k, bin)| + |comma|)
  {
    hide Holds, Render, RenderLabel, EntryAt, GroupTree, GroupList, HooksObject, Valid, ValidLabel, ChunkEnd;
    ChunkValid(shape, k, bin);
    ElementEndsThere(s, i, ChunkName(shape, k), ChunkValue(shape, k, bin), comma);
  }

  lemma EmptyLabelText()
    ensures RenderLabel(NoLabel) == ""
  {}

  // ---------- Counting commands ----------

  const COMMAND_COLON := "\"command\":"

  lemma CommandIsKey(s: string, p: nat)
    ensures COMMAND_COLON == Quoted(COMMAND) + ":" && |COMMAND_COLON| == |COMMAND| + 3
    ensures Holds(s, p, COMMAND_COLON) ==> KeyAt(s, p, COMMAND)
  {
    assert COMMAND_COLON == Quoted(COMMAND) + ":";
    if Holds(s, p, COMMAND_COLON) {
      HoldsSplit(s, p, Quoted(COMMAND), ":");
      HoldsChar(s, p + |Quoted(COMMAND)|, ':');
    }
  }

  lemma {:induction false} CountNone(s: string, from: nat, to: nat)
    requires NoKeyIn(s, from, to, COMMAND)
    ensures CountIn(s, from, to, COMMAND_COLON) == 0
    decreases if from < to then to - from else 0
  {
    hide KeyAt, Holds, COMMAND, COMMAND_COLON;
    if to <= from {
    } else {
      CommandIsKey(s, from);
      CountNone(s, from + 1, to);
    }
  }

  lemma {:induction false} CountOnce(s: string, i: nat, q: nat, j: nat)
    requires OneCommand(s, i, q, j)
    ensures CountIn(s, i, j, COMMAND_COLON) == 1
    decreases if i < q then q - i else 0
  {
    hide KeyAt, Holds, COMMAND, COMMAND_COLON;
    CommandIsKey(s, i);
    if i == q {
      CountNone(s, i + 1, j);
    } else {
      CountOnce(s, i + 1, q, j);
    }
  }

  // ---------- One round ----------

  lemma {:induction false} LastNewlineIs(s: string, end: nat, p: nat)
    requires p < end <= |s| && s[p] == '\n' && forall k :: p < k < end ==> s[k] != '\n'
    ensures LastNewline(s, end) == Some(p)
  {
    if end == p + 1 {
    } else {
      LastNewlineIs(s, end - 1, p);
    }
  }

  lemma {:induction false} SkipInlineIs(s: string, i: nat, j: nat)
    requires i <= j < |s| && s[j] != ' ' && s[j] != '\t'
    requires forall k :: i <= k < j ==> s[k] == ' ' || s[k] == '\t'
    ensures SkipInline(s, i) == j
    decreases if i < j then j - i else 0
  {
    if i == j {
    } else {
      SkipInlineIs(s, i + 1, j);
    }
  }
}
