/**
 Where uninstall takes another tool's hook with it: the guard counts a key that
 the hook spells in another way, or not at all.
 */
module LostHooks {
  import opened Wrappers
  import opened Json
  import opened Scanner
  import opened Members
  import opened Markers
  import opened Parser
  import opened Doc
  import opened HookEntry
  import opened Settings
  import opened Chunks
  import opened Removal
  import opened Cut
  import opened Paths
  import opened Spans
  import opened Counting
  import opened Wiring
  import opened Reformatted

  /** A group on one line, with no key that the guard counts or that could be
      taken for a marker. */
  predicate Unseen(group: Value) {
    && Valid(group) && IsObject(group) && OneLine(Render(group)) && TightKeys(group) == 0 && Lacks(group, KEY)
  }

  function BothGroups(group: Value, k: nat, bin: string): Elems
    requires k < 4
  {
    Item(group, Item(GroupTree(EntryAt(k), bin), Nil))
  }

  function EventMember(group: Value, k: nat, bin: string): Elems
    requires k < 4
  {
    Cons(EventKey(k), List(BothGroups(group, k, bin)), "", "", Nil)
  }

  /** A file whose one event holds the group and, behind it, our entry:
      `{"hooks":{`, a line break, the event's member on one line, `}}`. */
  function SharedFile(group: Value, k: nat, bin: string): Document
    requires k < 4
  {
    Document("", Object(Field("hooks", Node(true, "\n", EventMember(group, k, bin)), Nil)), "")
  }

  // ---------- The guard passes ----------

  lemma OurKeys(k: nat, bin: string)
    requires k < 4
    ensures TightKeys(GroupTree(EntryAt(k), bin)) == 1
  {
    hide Tight, EntryAt, LateFields, ArgsOf, Escape;
    NamesTight();
    var late := LateFields(EntryAt(k));
    LateTight(k);
    var args := Field("args", ArgsOf(EntryAt(k)), late);
    var command := Field("command", Str(Escape(bin)), args);
    assert TightIn(Nil) == 0;
    assert TightIn(args) == 0;
    assert TightIn(command) == 1;
    assert TightIn(Field("type", Str("command"), command)) == 1;
    var hook := HookTree(EntryAt(k), bin);
    assert TightKeys(hook) == 1;
    assert !Tight(NoLabel) by { ItemsAreNot(); }
    assert TightIn(Item(hook, Nil)) == 1;
    assert TightKeys(List(Item(hook, Nil))) == 1;
    assert TightIn(Field("hooks", List(Item(hook, Nil)), Nil)) == 1;
  }

  lemma ItemsAreNot()
    ensures !Tight(NoLabel)
  {}

  lemma NamesTight()
    ensures Tight(Key("command", "", ""))
    ensures !Tight(Key("hooks", "", "")) && !Tight(Key("type", "", "")) && !Tight(Key("args", "", ""))
    ensures !Tight(Key("timeout", "", "")) && !Tight(Key("async", "", "")) && !Tight(Key("statusMessage", "", ""))
  {
    KeysDiffer();
    EndsWithLess("hooks");
    EndsWithLess("type");
    EndsWithLess("args");
    EndsWithLess("timeout");
    EndsWithLess("async");
    EndsWithLess("statusMessage");
  }

  lemma EndsWithLess(b: string)
    ensures EndsWith(b, "\"" + COMMAND) ==> EndsWith(b, COMMAND)
    ensures b == COMMAND ==> EndsWith(b, COMMAND)
  {
    if EndsWith(b, "\"" + COMMAND) {
      var tail := b[|b| - 8..];
      assert tail == "\"" + COMMAND;
      assert b[|b| - 7..] == tail[1..];
    }
  }

  lemma EventNotTight(k: nat)
    requires k < 4
    ensures !Tight(EventKey(k))
  {
    hide EntryAt;
    EventsDiffer(k);
    EndsWithLess(EntryAt(k).event);
  }

  lemma LateTight(k: nat)
    requires k < 4
    ensures TightIn(LateFields(EntryAt(k))) == 0 && TightKeys(ArgsOf(EntryAt(k))) == 0
  {
    hide Tight, EntryAt;
    NamesTight();
    ItemsAreNot();
    var entry := EntryAt(k);
    assert TightIn(Nil) == 0;
    assert TightIn(StatusField(entry)) == 0;
    assert TightIn(Field("async", Atom("true"), StatusField(entry))) == 0;
    assert TightIn(Item(Str(entry.sub), Nil)) == 0;
    assert TightIn(Item(Str("hook"), Item(Str(entry.sub), Nil))) == 0;
  }

  lemma OneIsCounted(group: Value, k: nat, bin: string)
    requires k < 4 && Unseen(group)
    ensures TightKeys(List(BothGroups(group, k, bin))) == 1
  {
    hide Tight, GroupTree, EntryAt, Valid, OneLine, Lacks;
    OurKeys(k, bin);
    ItemsAreNot();
    var ours := GroupTree(EntryAt(k), bin);
    assert TightIn(Nil) == 0;
    assert TightIn(Item(ours, Nil)) == 1;
    assert TightIn(BothGroups(group, k, bin)) == TightKeys(group) + 1;
  }

  // ---------- The marker ----------

  lemma BothValid(group: Value, k: nat, bin: string)
    requires k < 4 && Unseen(group)
    ensures Valid(List(BothGroups(group, k, bin))) && ValidLabel(EventKey(k), true)
    ensures ValidElems(EventMember(group, k, bin), true)
  {
    hide Valid, ValidElems, ValidLabel, GroupTree, EntryAt, OneLine, Lacks, TightKeys, EventKey, Item;
    ChunkValid(InArray, k, bin);
    NilValid(false);
    ItemValid(GroupTree(EntryAt(k), bin), Nil);
    ItemValid(group, Item(GroupTree(EntryAt(k), bin), Nil));
    NodeValid(false, BothGroups(group, k, bin));
    EventValid(EventKey(k), List(BothGroups(group, k, bin)));
  }

  lemma BothOneLine(group: Value, k: nat, bin: string)
    requires k < 4 && Unseen(group)
    ensures OneLine(ElementText(EventKey(k), List(BothGroups(group, k, bin))))
  {
    hide OneLine, Render, RenderElems, RenderLabel, GroupTree, EntryAt, Valid, Lacks, TightKeys, EventKey;
    ChunkValid(InArray, k, bin);
    EventLine(k);
    GroupCompact(EntryAt(k), bin);
    var ours := GroupTree(EntryAt(k), bin);
    ValueOneLine(ours);
    ItemText(ours, Nil);
    ItemText(group, Item(ours, Nil));
    var list := List(BothGroups(group, k, bin));
    NodeText(list);
    PunctuationOneLine();
    NothingFollowed();
    PiecesOneLine(Render(group), ",", Render(ours), "");
    ListPieces(Render(group), Render(ours));
    JoinOneLine(Render(group) + ("," + (Render(ours) + "")), "]");
    JoinOneLine("", (Render(group) + ("," + (Render(ours) + ""))) + "]");
    JoinOneLine("[", "" + ((Render(group) + ("," + (Render(ours) + ""))) + "]"));
    JoinOneLine(RenderLabel(EventKey(k)), Render(list));
  }

  lemma NothingFollowed()
    ensures Followed(Nil) == ""
  {}

  lemma ListPieces(a: string, b: string)
    ensures a + ("," + (b + "")) == a + ("," + (b + ""))
  {}

  lemma EventLine(k: nat)
    requires k < 4
    ensures OneLine(RenderLabel(EventKey(k)))
  {
    hide OneLine, EntryAt, ValidBody;
    ChunkValid(InHooks, k, "");
    LabelOneLine(EventKey(k), true);
  }

  /** The first marker of the member is our entry's. */
  lemma BothMarked(group: Value, k: nat, bin: string)
    requires k < 4 && Unseen(group)
    ensures Cuttable(EventKey(k), List(BothGroups(group, k, bin)))
  {
    hide Render, RenderLabel, RenderElems, EntryAt, GroupTree, Valid, ValidLabel, MarkerAt, Holds, OneLine, Lacks, TightKeys,
      Tight, Commands, Stands, ElementText, Leads, KeyAt, NoKeyIn, FirstLineHolds, OneCommand, EndsWith;
    var l, v := EventKey(k), List(BothGroups(group, k, bin));
    var t := ElementText(l, v);
    BothValid(group, k, bin);
    ElementTextIs(l, v);
    HoldsSlice0(t);
    HoldsSplit(t, 0, RenderLabel(l), Render(v));
    var m := MarkerOfOurs(t, |RenderLabel(l)|, group, k, bin);
    NamesPlain();
    EventsDiffer(k);
    NoKeyInLabel(t, 0, l, true, KEY);
    LeadsPast(t, 0, |RenderLabel(l)|, m);
    BothOneLine(group, k, bin);
    LeadsIsFirst(t, m);
    EventStarts(k, v);
    CommandsAreKeys(l, v);
    OneIsCounted(group, k, bin);
    EventNotTight(k);
    assert FirstLineHolds(t, m);
  }

  lemma EventStarts(k: nat, v: Value)
    requires k < 4 && v.Node?
    ensures StartsChunk(EventKey(k), v)
  {
    hide EntryAt;
  }

  lemma LeadsIsFirst(t: string, m: nat)
    requires Leads(t, 0, m) && OneLine(t)
    ensures FirstLineHolds(t, m)
  {
    hide MarkerAt, KeyAt, FindMarker;
    MarkerInText(t, m);
    forall p | 0 <= p < m ensures !MarkerAt(t, p) {
      if MarkerAt(t, p) {
        MarkerIsKey(t, p);
      }
    }
    FindMarkerUnique(t, 0, m);
  }

  lemma MarkerOfOurs(s: string, i: nat, group: Value, k: nat, bin: string) returns (m: nat)
    requires k < 4 && Unseen(group) && Holds(s, i, Render(List(BothGroups(group, k, bin))))
    ensures Leads(s, i, m)
  {
    hide Render, RenderLabel, RenderElems, EntryAt, GroupTree, Valid, Holds, OneLine, Lacks, TightKeys, Stands, Leads, OneCommand,
      ValidElems, RestAt, NoKeyIn, EndsWith;
    var e := BothGroups(group, k, bin);
    var v := List(e);
    BothValid(group, k, bin);
    StandsInNode(s, i, v);
    StandsRest(s, i + 1, e, false);
    var at := RestAt(i + 1, e);
    FirstItem(s, at, GroupTree(EntryAt(k), bin));
    var q;
    m, q := GroupFacts(s, at, k, bin);
    NamesPlain();
    NoKeyInHead(s, i + 1, e, false, KEY);
    GapForward(s, i + 1, e, false);
    LeadsPast(s, i + 1, at, m);
    NoKeyInBrackets(s, i, v, KEY);
    LeadsPast(s, i, i + 1, m);
  }

  lemma FirstItem(s: string, i: nat, v: Value)
    requires Stands(s, i, Item(v, Nil), false)
    ensures Holds(s, i, Render(v))
  {
    hide Render, RenderElems, Holds, ValidElems;
    StandsOpen(s, i, Item(v, Nil), false);
    ElemParts(s, i, Item(v, Nil));
    EmptyLabelText();
  }

  // ---------- The file ----------

  lemma SharedPath(group: Value, k: nat, bin: string)
    requires k < 4
    ensures
      var d := SharedFile(group, k, bin);
      && IsPath(d.root, [0, 0]) && Index([0, 0]) == 0 && Spot(d, [0, 0]) == EventMember(group, k, bin)
      && SpotLead(d, [0, 0]) == "\n"
      && Taken(d, [0, 0], "") == Document("", Object(Field("hooks", Object(Nil), Nil)), "")
  {
    hide EventMember;
    var d, path := SharedFile(group, k, bin), [0, 0];
    var e := d.root.elems;
    var hooks := Node(true, "\n", EventMember(group, k, bin));
    MemberCons(group, k, bin);
    assert Len(e) == 1 && From(e, 0) == e && Inner(d.root, path) == hooks;
    assert path[1..] == [0] && IsPath(hooks, [0]) && Holder(hooks, [0]) == hooks;
    assert Holder(d.root, path) == hooks;
    assert Rehold(hooks, [0], Object(Nil)) == Object(Nil);
    assert SetAt(e, 0, Object(Nil)) == Field("hooks", Object(Nil), Nil);
    assert "" + "" == "";
  }

  lemma MemberCons(group: Value, k: nat, bin: string)
    requires k < 4
    ensures
      var e := EventMember(group, k, bin);
      e.Cons? && Len(e) == 1 && From(e, 0) == e && e.rest == Nil && e.after == "" && e.sep == ""
  {}

  lemma SharedValid(group: Value, k: nat, bin: string)
    requires k < 4 && Unseen(group)
    ensures ValidDocument(SharedFile(group, k, bin))
  {
    hide Valid, ValidElems, ValidBody, EventMember, Unseen;
    BothValid(group, k, bin);
    KeysValid();
    NilValid(true);
    var hooks := Node(true, "\n", EventMember(group, k, bin));
    HooksNodeValid(EventMember(group, k, bin));
    FieldValid("hooks", hooks, Nil);
    NodeValid(true, Field("hooks", hooks, Nil));
  }

  lemma HooksNodeValid(e: Elems)
    requires ValidElems(e, true)
    ensures Valid(Node(true, "\n", e))
  {
    hide ValidElems;
  }

  lemma SharedText(group: Value, k: nat, bin: string)
    requires k < 4
    ensures RenderDocument(SharedFile(group, k, bin)) ==
            "{\"hooks\":{\n" + (ElementText(EventKey(k), List(BothGroups(group, k, bin))) + "}}")
  {
    hide RenderLabel, EventKey, BothGroups;
    var l, v := EventKey(k), List(BothGroups(group, k, bin));
    var e := EventMember(group, k, bin);
    var hooks := Node(true, "\n", e);
    ElemsText(e);
    assert RestText(e) == "";
    NodeText(hooks);
    FieldText("hooks", hooks, Nil);
    NodeText(SharedFile(group, k, bin).root);
    hide Render, RenderElems;
    SharedPieces(RenderLabel(l), Render(v));
  }

  lemma SharedPieces(l: string, v: string)
    ensures
      "" + ("{" + ("" + ((JsonKey("hooks") + (("{" + ("\n" + ((l + (v + ("" + ""))) + "}"))) + "")) + "}"))) + "" ==
      "{\"hooks\":{\n" + ((l + v) + "}}")
  {
    hide JsonKey;
    HooksKeyText();
    assert "" + ("{" + ("" + ((JsonKey("hooks") + (("{" + ("\n" + ((l + (v + ("" + ""))) + "}"))) + "")) + "}"))) + "" ==
           ("{" + JsonKey("hooks") + "{\n") + ((l + v) + "}}");
  }

  lemma HooksKeyText()
    ensures "{" + JsonKey("hooks") + "{\n" == "{\"hooks\":{\n"
  {}

  lemma SharedMarkers(group: Value, k: nat, bin: string)
    requires k < 4
    ensures IsPath(SharedFile(group, k, bin).root, [0, 0]) && OnlyMarkers(SharedFile(group, k, bin), [0, 0])
  {
    hide MarkerAt, ElementText, SpotLead, RenderDocument, SharedFile, EventMember, BeforeSpot, BehindSpot, SpotComma, Spot;
    var d := SharedFile(group, k, bin);
    SharedPath(group, k, bin);
    SharedText(group, k, bin);
    SpotInText(d, [0, 0]);
    SharedSpot(group, k, bin);
    var t := SpotText(d, [0, 0]);
    forall p: nat | MarkerAt(RenderDocument(d), p) ensures 11 <= p < 11 + |t| {
      MarkerBetween(t, p);
    }
  }

  lemma SharedSpot(group: Value, k: nat, bin: string)
    requires k < 4
    ensures
      var d := SharedFile(group, k, bin);
      && IsPath(d.root, [0, 0]) && |BeforeSpot(d, [0, 0])| == 10
      && SpotText(d, [0, 0]) == ElementText(EventKey(k), List(BothGroups(group, k, bin)))
  {
    hide EventMember;
    SharedPath(group, k, bin);
    var d := SharedFile(group, k, bin);
    var hooks := Node(true, "\n", EventMember(group, k, bin));
    MemberCons(group, k, bin);
    MemberHead(group, k, bin);
    assert Inner(d.root, [0, 0]) == hooks && [0, 0][1..] == [0];
    assert Left(hooks, [0]) == "";
    assert Bound(hooks, 0) == "{";
    KeyLabelText("hooks");
    assert FrontOf(d.root, 0) == "{" + ("" + JsonKey("hooks"));
    assert Left(d.root, [0, 0]) == FrontOf(d.root, 0) + "";
  }

  lemma MemberHead(group: Value, k: nat, bin: string)
    requires k < 4
    ensures
      var e := EventMember(group, k, bin);
      e.name == EventKey(k) && e.value == List(BothGroups(group, k, bin))
  {}

  /** No marker stands in the punctuation around the member. */
  lemma MarkerBetween(t: string, p: nat)
    requires MarkerAt("{\"hooks\":{\n" + (t + "}}"), p)
    ensures 11 <= p < 11 + |t|
  {
    var s := "{\"hooks\":{\n" + (t + "}}");
    hide SkipWs;
    HoldsAt(s, p, Quoted(KEY), 0);
    HoldsAt(s, p, Quoted(KEY), 1);
  }

  /** Uninstall succeeds and the group is gone, its hooks with it. */
  lemma GroupIsLost(group: Value, k: nat, bin: string) returns (line: string)
    requires k < 4 && Unseen(group)
    ensures Uninstall(RenderDocument(SharedFile(group, k, bin))) == Ok(Change("{\"hooks\":{}}", [line]))
  {
    hide RenderDocument, SharedFile, Unseen, Uninstall, Parse, WiredEvents, Cuttable, OnlyMarkers, BothGroups, Taken, Spot, SpotLead,
      IsPath, ValidDocument, EventKey, OwnLine;
    var d := SharedFile(group, k, bin);
    SharedPath(group, k, bin);
    SharedValid(group, k, bin);
    SharedMarkers(group, k, bin);
    BothMarked(group, k, bin);
    MemberHead(group, k, bin);
    NewlineLine();
    line := CutExactly(d, [0, 0], "", "\n", "");
    MemberCons(group, k, bin);
    EmptyHooks();
  }

  lemma NewlineLine()
    ensures OwnLine("", "\n", "") && "\n" == "" + ("\n" + "")
  {}

  lemma EmptyHooks()
    ensures
      var d := Document("", Object(Field("hooks", Object(Nil), Nil)), "");
      RenderDocument(d) == "{\"hooks\":{}}" && WiredEvents(d.root) == {}
  {
    var root := Object(Field("hooks", Object(Nil), Nil));
    FieldText("hooks", Object(Nil), Nil);
    NodeText(root);
    EmptyObject();
    EmptyPieces();
    KeysPlain();
    NothingUnderHooks(root);
  }

  lemma EmptyObject()
    ensures Render(Object(Nil)) == "{}" && Followed(Nil) == ""
  {}

  lemma EmptyPieces()
    ensures "" + ("{" + ("" + ((JsonKey("hooks") + ("{}" + "")) + "}"))) + "" == "{\"hooks\":{}}"
  {}

  lemma NothingUnderHooks(root: Value)
    requires root == Object(Field("hooks", Object(Nil), Nil))
    ensures WiredEvents(root) == {}
  {
    hide EntryAt, Decode;
    DecodePlain("hooks") by { KeysPlain(); }
    NilReads();
    assert Get(root, "hooks") == Some(Object(Nil));
    assert forall k: nat :: k < 4 ==> !EntryWired(root, k);
  }

  // ---------- Two such groups ----------

  function GroupOf(hook: Elems): Value {
    Object(Field("hooks", List(Item(Object(hook), Nil)), Nil))
  }

  /** A command with a space in front of its colon. */
  function SpacedHook(): Elems {
    Field("type", Str("command"), Cons(Key("command", " ", " "), Str("other"), "", "", Nil))
  }

  /** A hook without a command. */
  function PromptHook(): Elems {
    Field("type", Str("prompt"), Field("prompt", Str("other"), Nil))
  }

  predicate UnseenHook(hook: Elems) {
    ValidElems(hook, true) && CompactIn(hook) && TightIn(hook) == 0 && LacksIn(hook, KEY)
  }

  lemma GroupUnseen(hook: Elems)
    requires UnseenHook(hook)
    ensures Unseen(GroupOf(hook))
  {
    hide Valid, ValidElems, CompactIn, Compact, TightIn, LacksIn, Tight, EndsWith, Render, OneLine, ValidBody;
    var list := List(Item(Object(hook), Nil));
    NilValid(true);
    NilValid(false);
    NodeValid(true, hook);
    ItemValid(Object(hook), Nil);
    NodeValid(false, Item(Object(hook), Nil));
    KeysValid();
    FieldValid("hooks", list, Nil);
    NodeValid(true, Field("hooks", list, Nil));
    ScalarsCompact("", "");
    ObjectCompact(hook);
    ItemCompact(Object(hook), Nil);
    FieldCompact("hooks", list, Nil);
    ObjectCompact(Field("hooks", list, Nil));
    ValueOneLine(GroupOf(hook));
    GroupCounts(hook);
  }

  lemma GroupCounts(hook: Elems)
    requires TightIn(hook) == 0 && LacksIn(hook, KEY)
    ensures TightKeys(GroupOf(hook)) == 0 && Lacks(GroupOf(hook), KEY)
  {
    hide Tight, EndsWith;
    NamesTight();
    ItemsAreNot();
    KeysDiffer();
    var item := Item(Object(hook), Nil);
    assert TightIn(Nil) == 0 && LacksIn(Nil, KEY);
    assert TightKeys(Object(hook)) == 0 && Lacks(Object(hook), KEY);
    assert TightIn(item) == 0 && LacksIn(item, KEY);
    assert TightKeys(List(item)) == 0 && Lacks(List(item), KEY);
    assert TightIn(Field("hooks", List(item), Nil)) == 0 && LacksIn(Field("hooks", List(item), Nil), KEY);
  }

  lemma SpacedUnseen()
    ensures UnseenHook(SpacedHook())
  {
    hide ValidBody, EndsWith;
    KeysValid();
    OtherBodies();
    KeysDiffer();
    NamesTight();
    var last := Cons(Key("command", " ", " "), Str("other"), "", "", Nil);
    assert !Tight(last.name);
    hide Tight;
    assert ValidElems(last, true) && CompactIn(last) && TightIn(last) == 0 && LacksIn(last, KEY);
  }

  lemma PromptUnseen()
    ensures UnseenHook(PromptHook())
  {
    hide ValidBody, EndsWith;
    KeysValid();
    OtherBodies();
    KeysDiffer();
    NamesTight();
    PromptIsOther();
    hide Tight;
    var last := Field("prompt", Str("other"), Nil);
    assert ValidElems(last, true) && CompactIn(last) && TightIn(last) == 0 && LacksIn(last, KEY);
  }

  lemma OtherBodies()
    ensures ValidBody("other") && ValidBody("prompt")
  {
    hide ValidBody;
    PlainBodyValid("other");
    PlainBodyValid("prompt");
  }

  lemma PromptIsOther()
    ensures !EndsWith("prompt", KEY) && !Tight(Key("prompt", "", ""))
  {}

  lemma SharedHooks(hook: Elems, k: nat, bin: string)
    requires k < 4 && UnseenHook(hook) && OwnTight(hook) == 0 && HooksIn(hook, false, false) == 0
    ensures HooksOfElement(EventKey(k), List(BothGroups(GroupOf(hook), k, bin)), false) == 2
    ensures HooksOfElement(EventKey(k), List(BothGroups(GroupOf(hook), k, bin)), true) == 1
  {
    hide Tight, Decode, EntryAt, GroupTree, GroupOf, EventKey, TightKeys, TightIn, ValidElems, CompactIn, LacksIn, HooksIn, OwnTight;
    HookInGroup(hook);
    OursInGroup(k, bin);
    EventSpells(k);
    HooksAreSeen(hook, false);
    NoHooksInNil();
    var ours := GroupTree(EntryAt(k), bin);
    forall bareOnly: bool
      ensures HooksOfElement(EventKey(k), List(BothGroups(GroupOf(hook), k, bin)), bareOnly)
              == HooksOfElement(NoLabel, GroupOf(hook), bareOnly) + HooksOfElement(NoLabel, ours, bareOnly)
    {
      OneItem(ours, Nil, bareOnly);
      OneItem(GroupOf(hook), Item(ours, Nil), bareOnly);
    }
  }

  lemma OneItem(v: Value, rest: Elems, bareOnly: bool)
    ensures HooksIn(Item(v, rest), false, bareOnly) == HooksOfElement(NoLabel, v, bareOnly) + HooksIn(rest, false, bareOnly)
  {
    hide HooksOfElement;
  }

  lemma OneHook(hook: Elems, bareOnly: bool)
    ensures HooksIn(Item(Object(hook), Nil), true, bareOnly)
            == Ones(bareOnly ==> OwnTight(hook) == 0) + HooksIn(hook, false, bareOnly)
  {
    NoHooksInNil();
    assert HooksOfElement(NoLabel, Object(hook), bareOnly) == HooksIn(hook, false, bareOnly);
    hide HooksOfElement, OwnTight;
  }

  lemma OneField(key: string, v: Value, bareOnly: bool)
    ensures HooksIn(Field(key, v, Nil), false, bareOnly) == HooksOfElement(Key(key, "", ""), v, bareOnly)
  {
    NoHooksInNil();
    hide HooksOfElement;
  }

  lemma NoHooksInNil()
    ensures forall here, bareOnly :: HooksIn(Nil, here, bareOnly) == 0
  {}

  lemma EventSpells(k: nat)
    requires k < 4
    ensures !Spells(EventKey(k), "hooks")
  {
    hide Decode, Plain;
    EntryPlain(k);
    DecodePlain(EntryAt(k).event);
  }

  /** In a group the objects of its `hooks` array are the hooks. */
  lemma HookInGroup(hook: Elems)
    ensures HooksOfElement(NoLabel, GroupOf(hook), false) == 1 + HooksIn(hook, false, false)
    ensures HooksOfElement(NoLabel, GroupOf(hook), true) == Ones(OwnTight(hook) == 0) + HooksIn(hook, false, true)
  {
    hide Tight, Decode, HooksIn, OwnTight;
    KeysPlain();
    DecodePlain("hooks");
    var list := List(Item(Object(hook), Nil));
    assert Spells(Key("hooks", "", ""), "hooks");
    forall bareOnly: bool
      ensures HooksOfElement(NoLabel, GroupOf(hook), bareOnly) == Ones(bareOnly ==> OwnTight(hook) == 0) + HooksIn(hook, false, bareOnly)
    {
      OneHook(hook, bareOnly);
      OneField("hooks", list, bareOnly);
    }
  }

  lemma OursInGroup(k: nat, bin: string)
    requires k < 4
    ensures HooksOfElement(NoLabel, GroupTree(EntryAt(k), bin), false) == 1
    ensures HooksOfElement(NoLabel, GroupTree(EntryAt(k), bin), true) == 0
  {
    hide Tight, Decode, EntryAt, LateFields, ArgsOf, Escape;
    var entry := EntryAt(k);
    var hook := HookTree(entry, bin).elems;
    HookInGroup(hook);
    NamesTight();
    NoHooksInNil();
    KeysPlain();
    NothingLate(entry);
    DecodePlain("args");
    assert OwnTight(hook.rest) >= 1;
    var args := Field("args", ArgsOf(entry), LateFields(entry));
    assert HooksIn(args, false, false) == 0 && HooksIn(args, false, true) == 0;
    assert HooksIn(hook.rest, false, false) == 0 && HooksIn(hook.rest, false, true) == 0;
  }

  lemma ScalarField(key: string, v: Value, rest: Elems, bareOnly: bool)
    requires !v.Node?
    ensures HooksIn(Field(key, v, rest), false, bareOnly) == HooksIn(rest, false, bareOnly)
  {}

  lemma NothingLate(entry: Entry)
    ensures HooksIn(LateFields(entry), false, false) == 0 && HooksIn(LateFields(entry), false, true) == 0
    ensures HooksIn(ArgsOf(entry).elems, false, false) == 0 && HooksIn(ArgsOf(entry).elems, false, true) == 0
  {
    hide Tight, Decode;
    NoHooksInNil();
    forall bareOnly: bool ensures HooksIn(LateFields(entry), false, bareOnly) == 0 {
      ScalarField("statusMessage", Str(entry.status), Nil, bareOnly);
      ScalarField("async", Atom("true"), StatusField(entry), bareOnly);
      ScalarField("timeout", Atom(entry.timeout), LateFields(entry).rest, bareOnly);
    }
    var i := Item(Str(entry.sub), Nil);
    assert HooksIn(i, false, false) == 0 && HooksIn(i, false, true) == 0;
  }

  lemma ScalarHooks()
    ensures OwnTight(SpacedHook()) == 0 && HooksIn(SpacedHook(), false, false) == 0
    ensures OwnTight(PromptHook()) == 0 && HooksIn(PromptHook(), false, false) == 0
  {
    hide Decode;
    NamesTight();
    PromptIsOther();
    NoHooksInNil();
    var c := Cons(Key("command", " ", " "), Str("other"), "", "", Nil);
    assert !Tight(c.name);
    hide Tight;
    assert OwnTight(Nil) == 0;
    assert OwnTight(c) == 0 && HooksIn(c, false, false) == 0;
    var q := Field("prompt", Str("other"), Nil);
    assert OwnTight(q) == 0 && HooksIn(q, false, false) == 0;
  }

  /** Two files, each with another tool's hook and ours: the chunk that is cut
      holds two hooks, one of them bare, and uninstall leaves neither. */
  lemma OthersAreLost(k: nat, bin: string, spaced: bool) returns (line: string)
    requires k < 4
    ensures
      var group := GroupOf(if spaced then SpacedHook() else PromptHook());
      && Cuttable(EventKey(k), List(BothGroups(group, k, bin)))
      && HooksOfElement(EventKey(k), List(BothGroups(group, k, bin)), false) == 2
      && HooksOfElement(EventKey(k), List(BothGroups(group, k, bin)), true) == 1
      && Uninstall(RenderDocument(SharedFile(group, k, bin))) == Ok(Change("{\"hooks\":{}}", [line]))
  {
    hide UnseenHook, Unseen, Uninstall, RenderDocument, Cuttable, HooksOfElement, HooksIn, OwnTight, BothGroups, SpacedHook, PromptHook;
    var hook := if spaced then SpacedHook() else PromptHook();
    SpacedUnseen();
    PromptUnseen();
    ScalarHooks();
    GroupUnseen(hook);
    BothMarked(GroupOf(hook), k, bin);
    SharedHooks(hook, k, bin);
    line := GroupIsLost(GroupOf(hook), k, bin);
  }

  /** The first of the two files, for the event `Stop`. */
  lemma SpacedFileText(bin: string)
    ensures RenderDocument(SharedFile(GroupOf(SpacedHook()), 2, bin)) ==
            "{\"hooks\":{\n" + "\"Stop\": " + "["
            + ("{\"hooks\":[{" + ("\"type\":\"command\"," + "\"command\" : \"other\"") + "}]}") + ","
            + GroupLine(EntryAt(2), bin) + "]}}"
  {
    hide GroupTree, GroupLine, SpacedHook, RenderDocument, SharedFile;
    var group, line := GroupOf(SpacedHook()), GroupLine(EntryAt(2), bin);
    SharedText(group, 2, bin);
    BothText(group, 2, bin);
    SpacedGroupText();
    StopLabel();
    ElementTextIs(EventKey(2), List(BothGroups(group, 2, bin)));
    hide Render, GroupOf, EventKey, BothGroups;
    SharedJoin("{\"hooks\":{\n", "\"Stop\": ", Render(group), line);
  }

  lemma SharedJoin(a: string, b: string, g: string, l: string)
    ensures a + ((b + ("[" + (g + ("," + l)) + "]")) + "}}") == a + b + "[" + g + "," + l + "]}}"
  {}

  lemma StopLabel()
    ensures RenderLabel(EventKey(2)) == "\"Stop\": "
  {}

  lemma BothText(group: Value, k: nat, bin: string)
    requires k < 4
    ensures Render(List(BothGroups(group, k, bin))) == "[" + (Render(group) + ("," + GroupLine(EntryAt(k), bin))) + "]"
  {
    hide Render, RenderElems, GroupTree, GroupLine, EntryAt;
    var ours := GroupTree(EntryAt(k), bin);
    GroupText(EntryAt(k), bin);
    ItemText(ours, Nil);
    ItemText(group, Item(ours, Nil));
    NodeText(List(BothGroups(group, k, bin)));
    NothingFollowed();
    ListJoin(Render(group), GroupLine(EntryAt(k), bin));
  }

  lemma ListJoin(g: string, l: string)
    ensures "[" + ("" + ((g + ("," + (l + ""))) + "]")) == "[" + (g + ("," + l)) + "]"
  {}

  lemma SpacedGroupText()
    ensures Render(GroupOf(SpacedHook())) == "{\"hooks\":[{" + ("\"type\":\"command\"," + "\"command\" : \"other\"") + "}]}"
  {
    var last := Cons(Key("command", " ", " "), Str("other"), "", "", Nil);
    var item := Item(Object(SpacedHook()), Nil);
    LastElemText(last.name, last.value);
    FieldText("type", Str("command"), last);
    NodeText(Object(SpacedHook()));
    ItemText(Object(SpacedHook()), Nil);
    NodeText(List(item));
    FieldText("hooks", List(item), Nil);
    NodeText(GroupOf(SpacedHook()));
    NothingFollowed();
    SpacedKey();
    hide Render, RenderElems, RenderLabel;
    HooksOpen();
    FieldsText();
    hide JsonKey;
    GroupJoin(JsonKey("hooks"), JsonKey("type") + ("\"command\"" + ("," + ("\"command\" : " + "\"other\""))));
  }

  lemma SpacedKey()
    ensures RenderLabel(Key("command", " ", " ")) == "\"command\" : "
    ensures Render(Str("other")) == "\"other\"" && Render(Str("command")) == "\"command\""
  {}

  lemma LastElemText(l: Label, x: Value)
    ensures RenderElems(Cons(l, x, "", "", Nil)) == RenderLabel(l) + Render(x)
  {
    hide RenderLabel, Render;
    var a, b := RenderLabel(l), Render(x);
    assert a + b + "" + "" == a + b;
  }

  lemma GroupJoin(k: string, f: string)
    ensures "{" + ("" + ((k + (("[" + ("" + ((("{" + ("" + (f + "}"))) + "") + "]"))) + "")) + "}")) == ("{" + k + "[{") + f + "}]}"
  {}

  lemma HooksOpen()
    ensures "{" + JsonKey("hooks") + "[{" == "{\"hooks\":[{"
  {}

  lemma FieldsText()
    ensures JsonKey("type") + ("\"command\"" + ("," + ("\"command\" : " + "\"other\""))) ==
            "\"type\":\"command\"," + "\"command\" : \"other\""
  {
    TypeText();
    SpacedText();
    hide JsonKey;
    FieldsJoin(JsonKey("type"), "\"command\"", ",", "\"command\" : " + "\"other\"");
  }

  lemma FieldsJoin(a: string, b: string, c: string, d: string)
    ensures a + (b + (c + d)) == ((a + b) + c) + d
  {}

  lemma TypeText()
    ensures (JsonKey("type") + "\"command\"") + "," == "\"type\":\"command\","
  {}

  lemma SpacedText()
    ensures "\"command\" : " + "\"other\"" == "\"command\" : \"other\""
  {}
}
