/**
 The chunks that install writes, read back from raw bytes: wherever one
 stands, the first marker from its start is its own, it holds one command, it
 is one line, and the chunk scan ends at its end.
 */
module Chunks {
  import opened Json
  import opened Scanner
  import opened Members
  import opened Markers
  import opened HookEntry
  import opened Settings
  import opened Doc

  const COMMAND := "command"

  /** From `i` on, the first marker is at `m`. */
  predicate Leads(s: string, i: int, m: int) {
    i <= m && NoKeyIn(s, i, m, KEY) && MarkerAt(s, m)
  }

  /** Between `i` and `j`, `"command":` is written at `q` and nowhere else. */
  predicate OneCommand(s: string, i: int, q: int, j: int) {
    && i <= q && q + |COMMAND| + 3 <= j
    && Holds(s, q, Quoted(COMMAND) + ":")
    && NoKeyIn(s, i, q, COMMAND) && NoKeyIn(s, q + 1, j, COMMAND)
  }

  lemma NamesPlain()
    ensures PlainName(KEY) && PlainName(COMMAND)
  {}

  lemma KeysDiffer()
    ensures !EndsWith("hooks", KEY) && !EndsWith("type", KEY) && !EndsWith("command", KEY) && !EndsWith("args", KEY)
    ensures !EndsWith("timeout", KEY) && !EndsWith("async", KEY)
    ensures !EndsWith("hooks", COMMAND) && !EndsWith("type", COMMAND) && !EndsWith("args", COMMAND)
    ensures !EndsWith("timeout", COMMAND) && !EndsWith("async", COMMAND) && !EndsWith("statusMessage", COMMAND)
  {
    assert "timeout"[0] == 't' && "command"[0] == 'c';
    assert "statusMessage"[12] == 'e' && "command"[6] == 'd';
  }

  lemma EventsDiffer(k: nat)
    requires k < 4
    ensures !EndsWith(EntryAt(k).event, KEY) && !EndsWith(EntryAt(k).event, COMMAND)
  {
    var e := EntryAt(k).event;
    assert e[|e| - 1] in "tp" || (e == "SessionEnd" && e[|e| - 2] == 'n' && e[|e| - 3] == 'E');
    assert "command"[6] == 'd' && "command"[5] == 'n' && "command"[4] == 'a';
    assert "statusMessage"[12] == 'e';
  }

  // ---------- Passing what comes before ----------

  lemma LeadsPast(s: string, i: int, j: int, m: int)
    requires i <= j && NoKeyIn(s, i, j, KEY) && Leads(s, j, m)
    ensures Leads(s, i, m)
  {
    hide KeyAt, MarkerAt;
  }

  /** Into a container: its bracket and its first key hold no marker. */
  lemma LeadsInto(s: string, i: nat, v: Value, m: int)
    requires v.Node? && Valid(v) && Holds(s, i, Render(v)) && v.elems.Cons?
    requires v.elems.name.Key? ==> !EndsWith(v.elems.name.raw, KEY)
    requires Leads(s, ValueAt(i + 1 + |v.pre|, v.elems), m)
    ensures Leads(s, i, m)
  {
    hide Holds, Render, RenderLabel, RenderElems, Leads, EndsWith, NoKeyIn, Stands, ValidElems;
    FirstValueAt(s, i, v);
    NamesPlain();
    NoKeyInBrackets(s, i, v, KEY);
    NoKeyInLabel(s, i + 1 + |v.pre|, v.elems.name, v.isObject, KEY);
    LeadsPast(s, i + 1 + |v.pre|, ValueAt(i + 1 + |v.pre|, v.elems), m);
    LeadsPast(s, i, i + 1 + |v.pre|, m);
  }

  /** Where a container's first value stands. */
  lemma FirstValueAt(s: string, i: nat, v: Value)
    requires v.Node? && Valid(v) && Holds(s, i, Render(v)) && v.elems.Cons?
    ensures Stands(s, i + 1 + |v.pre|, v.elems, v.isObject)
    ensures ValidLabel(v.elems.name, v.isObject) && Valid(v.elems.value)
    ensures Holds(s, i + 1 + |v.pre|, RenderLabel(v.elems.name))
    ensures Holds(s, ValueAt(i + 1 + |v.pre|, v.elems), Render(v.elems.value))
    ensures i + |Render(v)| == i + 1 + |v.pre| + |RenderElems(v.elems)| + 1
  {
    hide Holds, Render, RenderLabel, RenderElems, ValidBody, RestText;
    StandsInNode(s, i, v);
    ElemParts(s, i + 1 + |v.pre|, v.elems);
  }

  /** Past a first element that has no marker, to the elements after it. */
  lemma LeadsAfter(s: string, i: nat, e: Elems, m: int)
    requires e.Cons? && e.rest.Cons? && Stands(s, i, e, true)
    requires e.name.Key? ==> !EndsWith(e.name.raw, KEY)
    requires Lacks(e.value, KEY)
    requires Leads(s, RestAt(i, e), m)
    ensures Leads(s, i, m)
  {
    hide Holds, Render, RenderLabel, RenderElems, EndsWith, KeyAt, MarkerAt, Stands, Lacks;
    NamesPlain();
    NoKeyInHead(s, i, e, true, KEY);
    MemberStandsBound(s, i, e, true);
  }

  // ---------- The marker ----------

  lemma StatusPrefix(k: nat)
    requires k < 4
    ensures |VALUE_PREFIX| <= |Quoted(EntryAt(k).status)|
    ensures Quoted(EntryAt(k).status)[..|VALUE_PREFIX|] == VALUE_PREFIX
  {
    var st := EntryAt(k).status;
    assert st[..11] == "memgarden: ";
    assert Quoted(st)[..12] == "\"" + st[..11];
  }

  lemma PrefixHeld(s: string, i: nat, x: string, y: string)
    requires Holds(s, i, x) && |y| <= |x| && x[..|y|] == y
    ensures Holds(s, i, y)
  {
    assert s[i..i + |x|][..|y|] == s[i..i + |y|];
  }

  /** The status field is where the marker is. */
  lemma StatusLeads(s: string, i: nat, k: nat)
    requires k < 4 && Stands(s, i, StatusField(EntryAt(k)), true)
    ensures Leads(s, i, i)
  {
    hide Holds, Render, RenderLabel, RenderElems, EntryAt, ValidElems, Quoted, SkipWs, RestText, VALUE_PREFIX;
    var e := StatusField(EntryAt(k));
    StandsOpen(s, i, e, true);
    ElemParts(s, i, e);
    StatusScan(s, i, e);
    StatusPrefix(k);
    RenderString(EntryAt(k).status);
    PrefixHeld(s, ValueAt(i, e), Quoted(EntryAt(k).status), VALUE_PREFIX);
  }

  lemma RenderString(body: string)
    ensures Render(Str(body)) == Quoted(body)
  {}

  lemma StatusScan(s: string, i: nat, e: Elems)
    requires e.Cons? && Stands(s, i, e, true) && e.name == Key(KEY, "", "")
    ensures Holds(s, i, Quoted(KEY))
    ensures
      var colon := SkipWs(s, i + |KEY| + 2);
      colon < |s| && s[colon] == ':' && SkipWs(s, colon + 1) == ValueAt(i, e)
  {
    hide Holds, Render, RenderElems, Valid, SkipWs, RestText, IsSpace, KEY;
    ElemParts(s, i, e);
    ValueScan(s, i, e, true);
    KeyParts(s, i, e.name);
    var colon := i + |Quoted(KEY)|;
    HoldsChar(s, colon, ':');
    ColonIsNoSpace();
    SkipSpaces(s, colon, "");
    SkipSpaces(s, colon + 1, "");
  }

  lemma ColonIsNoSpace()
    ensures !IsSpace(':')
  {}

  /** Through the fields after the arguments. */
  lemma LateLeads(s: string, i: nat, k: nat) returns (m: nat)
    requires k < 4 && Stands(s, i, LateFields(EntryAt(k)), true)
    ensures Leads(s, i, m) && m < i + |RenderElems(LateFields(EntryAt(k)))|
  {
    hide Holds, Render, RenderLabel, RenderElems, EntryAt, Leads, EndsWith, Stands;
    var e := LateFields(EntryAt(k));
    KeysDiffer();
    StandsRest(s, i, e, true);
    MemberStandsBound(s, i, e, true);
    if EntryAt(k).isAsync {
      StandsRest(s, RestAt(i, e), e.rest, true);
      MemberStandsBound(s, RestAt(i, e), e.rest, true);
      m := RestAt(RestAt(i, e), e.rest);
      StatusLeads(s, m, k);
      LeadsAfter(s, RestAt(i, e), e.rest, m);
    } else {
      m := RestAt(i, e);
      StatusLeads(s, m, k);
    }
    ElemsNonempty(s, m, StatusField(EntryAt(k)));
    LeadsAfter(s, i, e, m);
  }

  lemma ElemsNonempty(s: string, i: nat, e: Elems)
    requires e.Cons? && Stands(s, i, e, true)
    ensures |RenderElems(e)| > 0
  {
    hide Render, ValidBody, ValidAtom;
    FirstOfElems(s, i, e, true);
    StandsOpen(s, i, e, true);
    ElemsText(e);
  }

  function HookFields(k: nat, bin: string): Elems
    requires k < 4
  {
    HookTree(EntryAt(k), bin).elems
  }

  /** The first marker in a hook object is its own status message. */
  lemma HookLeads(s: string, i: nat, k: nat, bin: string) returns (m: nat)
    requires k < 4 && Stands(s, i, HookFields(k, bin), true)
    ensures Leads(s, i, m) && m < i + |RenderElems(HookFields(k, bin))|
  {
    hide Holds, Render, RenderLabel, RenderElems, EntryAt, Leads, EndsWith, Stands, LateFields, Escape;
    var e := HookFields(k, bin);
    var a := RestAt(i, e);
    var b := RestAt(a, e.rest);
    LateIsCons(k);
    StandsRest(s, i, e, true);
    MemberStandsBound(s, i, e, true);
    StandsRest(s, a, e.rest, true);
    MemberStandsBound(s, a, e.rest, true);
    StandsRest(s, b, e.rest.rest, true);
    MemberStandsBound(s, b, e.rest.rest, true);
    m := LateLeads(s, RestAt(b, e.rest.rest), k);
    KeysDiffer();
    ArgsLack(EntryAt(k));
    LeadsAfter(s, b, e.rest.rest, m);
    LeadsAfter(s, a, e.rest, m);
    LeadsAfter(s, i, e, m);
  }

  lemma LateIsCons(k: nat)
    requires k < 4
    ensures LateFields(EntryAt(k)).Cons?
  {}

  lemma ArgsLack(entry: Entry)
    ensures Lacks(ArgsOf(entry), KEY) && Lacks(ArgsOf(entry), COMMAND)
  {
    var args := ArgsOf(entry).elems;
    assert LacksIn(args.rest.rest, KEY) && LacksIn(args.rest.rest, COMMAND);
    assert LacksIn(args.rest, KEY) && LacksIn(args.rest, COMMAND);
    assert LacksIn(args, KEY) && LacksIn(args, COMMAND);
  }

  lemma NodeLeads(s: string, i: nat, k: nat, bin: string) returns (m: nat)
    requires k < 4 && Holds(s, i, Render(HookTree(EntryAt(k), bin)))
    ensures Leads(s, i, m) && m < i + |Render(HookTree(EntryAt(k), bin))|
  {
    hide Holds, Render, RenderElems, EntryAt, Leads, Stands, Field, Escape, NoKeyIn, Valid;
    var hook := HookTree(EntryAt(k), bin);
    GroupValid(k, bin);
    StandsInNode(s, i, hook);
    m := HookLeads(s, i + 1, k, bin);
    NoKeyInBrackets(s, i, hook, KEY);
    LeadsPast(s, i, i + 1, m);
  }

  // ---------- The command ----------

  lemma CommandKeyAt(s: string, i: nat, e: Elems)
    requires e.Cons? && Stands(s, i, e, true) && e.name == Key(COMMAND, "", "")
    ensures Holds(s, i, Quoted(COMMAND) + ":")
    ensures NoKeyIn(s, i + 1, ValueAt(i, e), COMMAND)
  {
    hide Holds, Render, RenderElems, Valid, RestText, KeyAt, COMMAND, PlainName, Flat;
    StandsOpen(s, i, e, true);
    ElemParts(s, i, e);
    KeyParts(s, i, e.name);
    var colon := i + |Quoted(COMMAND)|;
    HoldsJoin(s, i, Quoted(COMMAND), ":");
    PunctuationIsFlat();
    NoKeyInFlat(s, colon, ":", COMMAND);
    ColonFollows(s, colon, "") by { NoSpacesHere(); }
    NamesPlain();
    NameOnlyAtStart(s, i);
  }

  lemma NoSpacesHere()
    ensures Spaces("")
  {}

  lemma NameOnlyAtStart(s: string, i: nat)
    requires Holds(s, i, Quoted(COMMAND)) && FollowsString(s, i + |Quoted(COMMAND)|)
    ensures NoKeyIn(s, i + 1, i + |Quoted(COMMAND)|, COMMAND)
  {
    hide Holds, ValidBody, FollowsString, Quoted, SkipWs;
    KeysValid();
    NamesPlain();
    QuotedLength(COMMAND);
    forall p | i + 1 <= p < i + |Quoted(COMMAND)| ensures !KeyAt(s, p, COMMAND) {
      if p == i + |COMMAND| + 1 {
        NoKeyAtClose(s, p, COMMAND);
      } else if Holds(s, p, Quoted(COMMAND)) {
        NameInQuoted(s, i, COMMAND, p, COMMAND);
      }
    }
  }

  lemma QuotedLength(b: string)
    ensures |Quoted(b)| == |b| + 2
  {}

  /** After the command's key, no second one up to the end of the fields. */
  lemma CommandField(s: string, i: nat, e: Elems)
    requires e.Cons? && Stands(s, i, e, true) && e.name == Key(COMMAND, "", "") && e.value.Str?
    requires e.rest.Cons? && LacksIn(e.rest, COMMAND)
    ensures OneCommand(s, i, i, i + |RenderElems(e)|)
  {
    hide Holds, Render, RenderElems, Valid, RestText, KeyAt, PlainName, Stands, COMMAND, RestAt, LacksIn, ValueEnds, ValidElems;
    NamesPlain();
    CommandKeyAt(s, i, e);
    CommandLength(e);
    StandsOpen(s, i, e, true);
    ValidOpen(e, true);
    ElemParts(s, i, e);
    ValueEndsThere(s, i, e, true);
    NoKeyInValue(s, ValueAt(i, e), e.value, COMMAND);
    NoKeyInGap(s, i, e, true, COMMAND);
    StandsRest(s, i, e, true);
    NoKeyInElems(s, RestAt(i, e), e.rest, true, COMMAND);
    MemberStandsBound(s, i, e, true);
    MemberStandsFirst(s, i, e, true);
  }

  lemma CommandLength(e: Elems)
    requires e.Cons? && e.name == Key(COMMAND, "", "")
    ensures |RenderLabel(e.name)| == |COMMAND| + 3
  {}

  lemma ValidOpen(e: Elems, isObject: bool)
    requires e.Cons? && ValidElems(e, isObject)
    ensures Valid(e.value)
  {}

  lemma LateLacks(k: nat)
    requires k < 4
    ensures LacksIn(LateFields(EntryAt(k)), COMMAND)
  {
    hide EndsWith, COMMAND, KEY;
    KeysDiffer();
    var e := LateFields(EntryAt(k));
    assert LacksIn(Nil, COMMAND);
    assert LacksIn(StatusField(EntryAt(k)), COMMAND);
    assert LacksIn(e.rest, COMMAND);
  }

  /** A hook object writes `"command":` once. */
  lemma HookCommand(s: string, i: nat, k: nat, bin: string) returns (q: nat)
    requires k < 4 && Stands(s, i, HookFields(k, bin), true)
    ensures OneCommand(s, i, q, i + |RenderElems(HookFields(k, bin))|)
  {
    hide Holds, Render, RenderLabel, RenderElems, EntryAt, EndsWith, Stands, LateFields, Escape, KeyAt;
    var e := HookFields(k, bin);
    q := RestAt(i, e);
    LateIsCons(k);
    LateLacks(k);
    ArgsLack(EntryAt(k));
    KeysDiffer();
    NamesPlain();
    StandsRest(s, i, e, true);
    MemberStandsBound(s, i, e, true);
    CommandField(s, q, e.rest);
    NoKeyInHead(s, i, e, true, COMMAND);
  }

  lemma NodeCommand(s: string, i: nat, k: nat, bin: string) returns (q: nat)
    requires k < 4 && Holds(s, i, Render(HookTree(EntryAt(k), bin)))
    ensures OneCommand(s, i, q, i + |Render(HookTree(EntryAt(k), bin))|)
  {
    hide Holds, Render, RenderElems, EntryAt, Stands, Field, Escape, KeyAt, Valid;
    var hook := HookTree(EntryAt(k), bin);
    GroupValid(k, bin);
    StandsInNode(s, i, hook);
    q := HookCommand(s, i + 1, k, bin);
    NoKeyInBrackets(s, i, hook, COMMAND);
  }

  /** Out of a container whose only element holds the command. */
  lemma CommandInto(s: string, i: nat, v: Value, q: int)
    requires v.Node? && Valid(v) && Holds(s, i, Render(v)) && v.elems.Cons? && v.elems.rest.Nil?
    requires v.elems.name.Key? ==> !EndsWith(v.elems.name.raw, COMMAND)
    requires var at := ValueAt(i + 1 + |v.pre|, v.elems); OneCommand(s, at, q, at + |Render(v.elems.value)|)
    ensures OneCommand(s, i, q, i + |Render(v)|)
  {
    hide Holds, Render, RenderLabel, RenderElems, EndsWith, KeyAt, Stands, ValidElems, PlainName;
    FirstValueAt(s, i, v);
    NamesPlain();
    NoKeyInBrackets(s, i, v, COMMAND);
    NoKeyInLabel(s, i + 1 + |v.pre|, v.elems.name, v.isObject, COMMAND);
    NoKeyInGap(s, i + 1 + |v.pre|, v.elems, v.isObject, COMMAND);
    MemberStandsFirst(s, i + 1 + |v.pre|, v.elems, v.isObject);
  }
}
