/**
 What install leaves for those who read the file: the hook of every event it
 wires, field by field, the groups that were there behind it, and everything
 else as it was; and how the lines it adds look.
 */
module Written {
  import opened Wrappers
  import opened Json
  import opened Scanner
  import opened Members
  import opened Parser
  import opened Doc
  import opened HookEntry
  import opened Edits
  import opened Settings
  import opened Removal
  import opened InstallLaws
  import opened Wiring
  import opened PlantedTree

  // ---------- One hook, as a reader finds it ----------

  /** A string that stands for `text`. */
  predicate Says(v: Option<Value>, text: string) {
    v.Some? && v.value.Str? && Decode(v.value.body) == text
  }

  /** An array of exactly two strings. */
  predicate SaysTwo(v: Option<Value>, first: string, second: string) {
    && v.Some? && IsArray(v.value)
    && var e := v.value.elems;
       && e.Cons? && e.rest.Cons? && e.rest.rest.Nil?
       && Says(Some(e.value), first) && Says(Some(e.rest.value), second)
  }

  /** A command hook that runs `bin hook <sub>`. */
  predicate Runs(hook: Value, bin: string, sub: string, timeout: string, isAsync: bool, status: string) {
    && Says(Get(hook, "type"), "command") && Says(Get(hook, "command"), bin) && SaysTwo(Get(hook, "args"), "hook", sub)
    && Get(hook, "timeout") == Some(Atom(timeout))
    && Get(hook, "async") == (if isAsync then Some(Atom("true")) else None)
    && Says(Get(hook, "statusMessage"), status)
  }

  /** A group of that one hook. */
  predicate Holds1(group: Value, bin: string, sub: string, timeout: string, isAsync: bool, status: string) {
    match Get(group, "hooks")
    case Some(Node(false, _, hooks)) => hooks.Cons? && hooks.rest.Nil? && Runs(hooks.value, bin, sub, timeout, isAsync, status)
    case _ => false
  }

  /** What readers find under an event. */
  function GroupsOf(root: Value, event: string): Option<Value> {
    match Get(root, "hooks")
    case None => None
    case Some(hooks) => Get(hooks, event)
  }

  /** The groups afterwards are the new one and the old ones behind it. */
  predicate Led(before: Option<Value>, after: Option<Value>, group: Value) {
    match after
    case Some(Node(false, _, groups)) =>
      && groups.Cons? && groups.value == group
      && (match before
          case None => groups.rest == Nil
          case Some(was) => IsArray(was) && groups.rest == was.elems)
    case _ => false
  }

  // ---------- One entry ----------

  lemma EventReplaced(root: Value, raw: Value, event: string)
    requires IsObject(root) && Count(root.elems, "hooks") == 1 && IsObject(HooksOf(root)) && IsObject(raw)
    ensures
      GroupsOf(SetIn(root, "hooks", raw), event) ==
      if LastRaw(root.elems, "hooks") then GetIn(raw.elems, event) else GroupsOf(root, event)
    ensures LastRaw(root.elems, "hooks") ==> GroupsOf(root, event) == GetIn(HooksOf(root).elems, event)
  {
    hide LastRaw, SetIn, Count, Member, GetIn;
    HooksReplaced(root, raw);
  }

  lemma InRootGroups(root: Value, k: nat, w: string, bin: string, event: string)
    requires k < 4 && Fits(root, InRoot, EntryAt(k).event)
    ensures
      var after := GroupsOf(Put(root, InRoot, k, w, bin), event);
      && GroupsOf(root, event) == None
      && after == if event == EntryAt(k).event then Some(GroupList(k, bin)) else None
  {
    hide EntryAt, LastRaw, GroupList, Put, Decode, Plain;
    FitsFacts(root, InRoot, EntryAt(k).event);
    FreshHooks(root, k, w, bin);
    EntryPlain(k);
    DecodePlain(EntryAt(k).event);
    NilReads();
    OneMember(EventKey(k), GroupList(k, bin), event);
  }

  lemma OneMember(l: Label, x: Value, name: string)
    ensures GetIn(Cons(l, x, "", "", Nil), name) == if Spells(l, name) then Some(x) else None
  {}

  lemma InHooksGroups(root: Value, k: nat, w: string, bin: string, event: string)
    requires k < 4 && Fits(root, InHooks, EntryAt(k).event)
    ensures
      var after := GroupsOf(Put(root, InHooks, k, w, bin), event);
      if event == EntryAt(k).event && LastRaw(root.elems, "hooks") then
        GroupsOf(root, event) == None && after == Some(GroupList(k, bin))
      else after == GroupsOf(root, event)
  {
    hide Plain, EntryAt, LastRaw, GroupList, Graft, GetIn, SetIn, Count, Member;
    FitsFacts(root, InHooks, EntryAt(k).event);
    EntryPlain(k);
    var hooks := HooksOf(root);
    GraftIsObject(hooks, w, EventKey(k), GroupList(k, bin));
    GraftReads(hooks, w, EventKey(k), GroupList(k, bin), event);
    EventReplaced(root, Graft(hooks, w, EventKey(k), GroupList(k, bin)), event);
    HooksReplaced(root, hooks);
    if LastRaw(root.elems, "hooks") {
      NoneInHooks(root, EntryAt(k).event);
    }
  }

  lemma InArrayGroups(root: Value, k: nat, w: string, bin: string, event: string)
    requires k < 4 && Fits(root, InArray, EntryAt(k).event)
    ensures
      var after := GroupsOf(Put(root, InArray, k, w, bin), event);
      if event == EntryAt(k).event && Reached(root, k) then Led(GroupsOf(root, event), after, GroupTree(EntryAt(k), bin))
      else after == GroupsOf(root, event)
  {
    hide Plain, EntryAt, LastRaw, GroupTree, GetIn, SetMember, Count, Member;
    var mine := EntryAt(k).event;
    FitsFacts(root, InArray, mine);
    EntryPlain(k);
    var hooks := HooksOf(root);
    var was := Member(hooks.elems, mine);
    var groups := Graft(was, w, NoLabel, GroupTree(EntryAt(k), bin));
    EventReplaced(root, SetIn(hooks, mine, groups), event);
    SetReads(hooks.elems, mine, groups);
    if event != mine {
      SetOther(hooks.elems, mine, groups, event);
    }
  }

  lemma GroupListLeads(k: nat, bin: string)
    requires k < 4
    ensures Led(None, Some(GroupList(k, bin)), GroupTree(EntryAt(k), bin))
  {
    hide EntryAt, GroupTree;
  }

  /** Writing one entry: the event's groups get it in front where readers look
      there, and nothing else that they find under `hooks` changes. */
  lemma PutGroups(root: Value, shape: Shape, k: nat, w: string, bin: string, event: string)
    requires k < 4 && Fits(root, shape, EntryAt(k).event)
    ensures IsObject(root)
    ensures
      var after := GroupsOf(Put(root, shape, k, w, bin), event);
      if event == EntryAt(k).event && Reached(root, k) then Led(GroupsOf(root, event), after, GroupTree(EntryAt(k), bin))
      else after == GroupsOf(root, event)
  {
    hide EntryAt, Put, GroupsOf, Led, LastRaw, Place, GroupList, GroupTree;
    FitsObject(root, shape, EntryAt(k).event);
    GroupListLeads(k, bin);
    match shape
    case InRoot =>
      InRootGroups(root, k, w, bin, event);
      InRootWires(root, k, w, bin, k);
    case InHooks =>
      InHooksGroups(root, k, w, bin, event);
      InHooksReached(root, k);
    case InArray => InArrayGroups(root, k, w, bin, event);
  }

  lemma InHooksReached(root: Value, k: nat)
    requires k < 4 && Fits(root, InHooks, EntryAt(k).event)
    ensures IsObject(root) && (Reached(root, k) <==> LastRaw(root.elems, "hooks"))
  {
    hide EntryAt, LastRaw, Count, Member, GetIn;
    FitsFacts(root, InHooks, EntryAt(k).event);
    HooksReplaced(root, HooksOf(root));
    if LastRaw(root.elems, "hooks") {
      NoneInHooks(root, EntryAt(k).event);
      UnspelledRaw(HooksOf(root).elems, EntryAt(k).event);
    }
  }

  /** Nor does any other member of the document. */
  lemma PutOthers(root: Value, shape: Shape, k: nat, w: string, bin: string, name: string)
    requires k < 4 && Fits(root, shape, EntryAt(k).event) && name != "hooks"
    ensures Get(Put(root, shape, k, w, bin), name) == Get(root, name)
  {
    hide EntryAt, Graft, GetIn, Count, Member, Plain, Place, SetMember, GroupTree, GroupList, HooksObject, EventKey;
    FitsFacts(root, shape, EntryAt(k).event);
    KeysPlain();
    match shape
    case InRoot =>
      GraftIsObject(root, w, ChunkName(InRoot, k), ChunkValue(InRoot, k, bin));
      GraftReads(root, w, ChunkName(InRoot, k), ChunkValue(InRoot, k, bin), name);
    case InHooks =>
      SetOther(root.elems, "hooks", Graft(HooksOf(root), w, EventKey(k), GroupList(k, bin)), name);
    case InArray =>
      var groups := Graft(Member(HooksOf(root).elems, EntryAt(k).event), w, NoLabel, GroupTree(EntryAt(k), bin));
      SetOther(root.elems, "hooks", SetIn(HooksOf(root), EntryAt(k).event, groups), name);
  }

  // ---------- The whole run ----------

  /** The groups of an event after the entries from `k` on. */
  predicate GroupsFrom(root: Value, root': Value, k: nat, already: set<nat>, bin: string, event: string)
    requires IsObject(root)
  {
    var j := EntryOf(event);
    if k <= j < 4 && j !in already && Reached(root, j) then
      Led(GroupsOf(root, event), GroupsOf(root', event), GroupTree(EntryAt(j), bin))
    else
      GroupsOf(root', event) == GroupsOf(root, event)
  }

  lemma {:induction false} RunGroups(text: string, d: Document, k: nat, already: set<nat>, bin: string, changed: seq<string>,
                                     event: string, name: string)
    requires k <= 4 && Parse(text) == Some(d) && IsObject(d.root) && name != "hooks"
    requires
      var r := InstallFrom(text, k, already, bin, changed);
      r.Ok? && Parse(r.value.text).Some?
    ensures
      var root' := Parse(InstallFrom(text, k, already, bin, changed).value.text).value.root;
      GroupsFrom(d.root, root', k, already, bin, event) && Get(root', name) == Get(d.root, name)
    decreases 4 - k
  {
    hide Put, Place, EntryAt, Parse, InstallEntry, RenderDocument, Fits, GroupsOf, Led, GroupTree, EntryOf, StandingOf, EntryWired, Get,
      Reached;
    if k == 4 {
    } else if k in already {
      RunGroups(text, d, k + 1, already, bin, changed, event, name);
      EntryOfEvent(k, event);
    } else {
      var nl, indent := InstallEntryAgrees(text, d, k, bin);
      var next := InstallEntry(text, k, bin).value;
      var shape := Place(d.root, EntryAt(k).event).value;
      if !Fits(d.root, shape, EntryAt(k).event) {
        BrokenRun(next.0, k + 1, already, bin, changed + [next.1]);
        return;
      }
      var after := After(d, shape, k, nl + indent, bin);
      PutWiresAll(d.root, shape, k, nl + indent, bin);
      PutGroups(d.root, shape, k, nl + indent, bin, event);
      PutOthers(d.root, shape, k, nl + indent, bin, name);
      RunGroups(next.0, after, k + 1, already, bin, changed + [next.1], event, name);
      EntryOfEvent(k, event);
      var j := EntryOf(event);
      if j < 4 && j != k {
        assert SameEntry(d.root, after.root, j);
      }
    }
  }

  // ---------- The hook that is written ----------

  lemma StatusRead(entry: Entry, name: string)
    ensures GetIn(StatusField(entry), name) == if name == "statusMessage" then Some(Str(entry.status)) else None
  {
    hide GetIn, Decode, Plain, Field;
    KeysPlain();
    NilReads();
    GetField("statusMessage", Str(entry.status), Nil, name);
  }

  lemma LateRead(entry: Entry, name: string)
    ensures GetIn(LateFields(entry), name) ==
            if name == "statusMessage" then Some(Str(entry.status))
            else if name == "async" && entry.isAsync then Some(Atom("true"))
            else if name == "timeout" then Some(Atom(entry.timeout))
            else None
  {
    hide GetIn, Decode, Plain, Field;
    KeysPlain();
    StatusRead(entry, name);
    if entry.isAsync {
      GetField("async", Atom("true"), StatusField(entry), name);
    }
    GetField("timeout", Atom(entry.timeout), LateRest(entry), name);
  }

  function LateRest(entry: Entry): Elems {
    if entry.isAsync then Field("async", Atom("true"), StatusField(entry)) else StatusField(entry)
  }

  lemma HookRead(entry: Entry, bin: string, name: string)
    ensures Get(HookTree(entry, bin), name) ==
            if name == "type" then Some(Str("command"))
            else if name == "command" then Some(Str(Escape(bin)))
            else if name == "args" then Some(ArgsOf(entry))
            else GetIn(LateFields(entry), name)
  {
    hide GetIn, Decode, Plain, Field, LateFields, ArgsOf, Escape;
    KeysPlain();
    LateRead(entry, name);
    var args := Field("args", ArgsOf(entry), LateFields(entry));
    var command := Field("command", Str(Escape(bin)), args);
    GetField("args", ArgsOf(entry), LateFields(entry), name);
    GetField("command", Str(Escape(bin)), args, name);
    GetField("type", Str("command"), command, name);
  }

  lemma GroupRuns(k: nat, bin: string)
    requires k < 4
    ensures
      var entry := EntryAt(k);
      Holds1(GroupTree(entry, bin), bin, entry.sub, entry.timeout, entry.isAsync, entry.status)
  {
    hide GetIn, Decode, Plain, Field, EntryAt, HookTree, LateFields, Escape, ArgsOf;
    var entry := EntryAt(k);
    KeysPlain();
    NilReads();
    GetField("hooks", List(Item(HookTree(entry, bin), Nil)), Nil, "hooks");
    HookRuns(k, bin);
  }

  lemma HookRuns(k: nat, bin: string)
    requires k < 4
    ensures
      var entry := EntryAt(k);
      Runs(HookTree(entry, bin), bin, entry.sub, entry.timeout, entry.isAsync, entry.status)
  {
    hide Get, GetIn, Decode, Plain, EntryAt, HookTree, LateFields, Escape;
    var entry := EntryAt(k);
    KeysPlain();
    EntryPlain(k);
    EscapeRoundTrip(bin);
    DecodePlain("command");
    DecodePlain("hook");
    DecodePlain(entry.sub);
    DecodePlain(entry.status);
    HookRead(entry, bin, "type");
    HookRead(entry, bin, "command");
    HookRead(entry, bin, "args");
    HookRead(entry, bin, "timeout");
    HookRead(entry, bin, "async");
    HookRead(entry, bin, "statusMessage");
    LateRead(entry, "timeout");
    LateRead(entry, "async");
    LateRead(entry, "statusMessage");
  }

  // ---------- What install promises its readers ----------

  /** Before the call no hook of ours was found under the event, after it one is:
      then the groups are a new one in front, with one hook that runs the given
      binary for this event, and behind it those that were there. */
  ghost predicate WiredAnew(root: Value, root': Value, event: string, sub: string, timeout: string, isAsync: bool, status: string,
                            bin: string)
  {
    !Wired(root, event, sub) && Wired(root', event, sub) ==>
      exists group ::
        && Led(GroupsOf(root, event), GroupsOf(root', event), group)
        && Holds1(group, bin, sub, timeout, isAsync, status)
  }

  predicate OurEvent(event: string) {
    event == "SessionStart" || event == "UserPromptSubmit" || event == "Stop" || event == "SessionEnd"
  }

  lemma EventIsOurs(event: string)
    ensures EntryOf(event) < 4 <==> OurEvent(event)
  {}

  lemma AnewByEntry(root: Value, root': Value, k: nat, bin: string)
    requires k < 4 && IsObject(root) && GroupsFrom(root, root', 0, WiredEvents(root), bin, EntryAt(k).event)
    ensures
      var e := EntryAt(k);
      WiredAnew(root, root', e.event, e.sub, e.timeout, e.isAsync, e.status, bin)
  {
    hide EntryAt, GroupTree, Led, Holds1, Reached, AnyGroup, EntryOf;
    EntryOfEvent(k, EntryAt(k).event);
    GroupRuns(k, bin);
  }

  /** For every file on which install succeeds: each event that it newly wires
      has the hook of that event, with the binary it was given as the command;
      no other event and no other member of the document reads differently. */
  lemma InstallWrites(src: string, d: Document, bin: string, event: string, name: string)
    requires Parse(src) == Some(d) && Install(src, bin).Ok? && name != "hooks"
    ensures Parse(Install(src, bin).value.text).Some?
    ensures
      var root' := Parse(Install(src, bin).value.text).value.root;
      && WiredAnew(d.root, root', "SessionStart", "session-start", "5", false, "memgarden: session start", bin)
      && WiredAnew(d.root, root', "UserPromptSubmit", "recall", "10", false, "memgarden: recalling", bin)
      && WiredAnew(d.root, root', "Stop", "retain", "30", true, "memgarden: retaining", bin)
      && WiredAnew(d.root, root', "SessionEnd", "session-end", "5", false, "memgarden: session end", bin)
      && (!OurEvent(event) ==> GroupsOf(root', event) == GroupsOf(d.root, event))
      && Get(root', name) == Get(d.root, name)
  {
    hide Parse, InstallFrom, WiredEvents, GroupsFrom, Get, GroupsOf, WiredAnew;
    var already := WiredEvents(d.root);
    var c := InstallFrom(src, 0, already, bin, []).value;
    InstallText(src, d, bin);
    var root' := Parse(c.text).value.root;
    forall k: nat | k < 4
      ensures var e := EntryAt(k); WiredAnew(d.root, root', e.event, e.sub, e.timeout, e.isAsync, e.status, bin)
    {
      RunGroups(src, d, 0, already, bin, [], EntryAt(k).event, name);
      AnewByEntry(d.root, root', k, bin);
    }
    TableIs();
    hide EntryAt;
    assert WiredAnew(d.root, root', EntryAt(0).event, EntryAt(0).sub, EntryAt(0).timeout, EntryAt(0).isAsync, EntryAt(0).status, bin);
    assert WiredAnew(d.root, root', EntryAt(1).event, EntryAt(1).sub, EntryAt(1).timeout, EntryAt(1).isAsync, EntryAt(1).status, bin);
    assert WiredAnew(d.root, root', EntryAt(2).event, EntryAt(2).sub, EntryAt(2).timeout, EntryAt(2).isAsync, EntryAt(2).status, bin);
    assert WiredAnew(d.root, root', EntryAt(3).event, EntryAt(3).sub, EntryAt(3).timeout, EntryAt(3).isAsync, EntryAt(3).status, bin);
    RunGroups(src, d, 0, already, bin, [], event, name);
    EventIsOurs(event);
    if !OurEvent(event) {
      OtherGroups(d.root, root', already, bin, event);
    }
  }

  /** A successful install gives the text its rounds end with. */
  lemma InstallText(src: string, d: Document, bin: string)
    requires Parse(src) == Some(d) && Install(src, bin).Ok?
    ensures IsObject(d.root)
    ensures
      var r := InstallFrom(src, 0, WiredEvents(d.root), bin, []);
      r.Ok? && Parse(r.value.text).Some? && Install(src, bin).value == r.value
  {
    hide Parse, InstallFrom, Failure, Installed, EntryWired;
    var already := WiredEvents(d.root);
    InstallFromLaw(src, d, 0, already, bin, []);
    var c := InstallFrom(src, 0, already, bin, []).value;
    if c.changed == [] {
      NoneAdded(d, already, c);
      NothingPending(src, 0, already, bin);
    }
  }

  lemma NoneAdded(d: Document, already: set<nat>, c: Change)
    requires IsObject(d.root) && already == WiredEvents(d.root) && c.changed == []
    requires Failure(d.root, 0, already) == None ==> Installed(d, 0, already, [], c)
    requires Failure(d.root, 0, already) == None
    ensures forall j: nat :: j < 4 ==> j in already
  {
    hide Parse, EntryWired, WiredFrom, Failure;
    PendingCount(already);
    FullSet(already);
  }

  lemma OtherGroups(root: Value, root': Value, already: set<nat>, bin: string, event: string)
    requires IsObject(root) && GroupsFrom(root, root', 0, already, bin, event) && EntryOf(event) >= 4
    ensures GroupsOf(root', event) == GroupsOf(root, event)
  {
    hide GroupsOf, EntryOf, Reached;
  }

  lemma TableIs()
    ensures EntryAt(0) == Entry("SessionStart", "session-start", "5", false, "memgarden: session start")
    ensures EntryAt(1) == Entry("UserPromptSubmit", "recall", "10", false, "memgarden: recalling")
    ensures EntryAt(2) == Entry("Stop", "retain", "30", true, "memgarden: retaining")
    ensures EntryAt(3) == Entry("SessionEnd", "session-end", "5", false, "memgarden: session end")
  {}

  // ---------- The lines that are added ----------

  predicate Blanks(w: string) {
    forall k :: 0 <= k < |w| ==> w[k] == ' ' || w[k] == '\t'
  }

  /** From `i` on stand the blanks `w` and then no blank. */
  predicate BlanksAt(s: string, i: nat, w: string) {
    && i + |w| <= |s| && s[i..i + |w|] == w && Blanks(w)
    && (i + |w| < |s| ==> s[i + |w|] != ' ' && s[i + |w|] != '\t')
  }

  /** Behind `at`, with nothing but blanks in between, a line feed starts a line
      that is indented by `w`. */
  ghost predicate ChildIndent(s: string, at: nat, w: string) {
    exists b: string ::
      && BlanksAt(s, at, b) && at + |b| < |s| && s[at + |b|] == '\n'
      && w != "" && BlanksAt(s, at + |b| + 1, w)
  }

  /** The line that `at` stands on is indented by `w`. */
  ghost predicate LineIndent(s: string, at: nat, w: string) {
    exists start: nat ::
      && start <= at <= |s| && (start > 0 ==> s[start - 1] == '\n') && (forall k :: start <= k < at ==> s[k] != '\n')
      && BlanksAt(s, start, w)
  }

  /** An entry is indented like the first child where a line feed follows the
      bracket and the child is indented at all, and by two more than the line of
      the bracket otherwise. */
  ghost predicate IndentedFor(s: string, at: nat, indent: string) {
    || ChildIndent(s, at, indent)
    || ((forall w :: !ChildIndent(s, at, w)) && exists w :: LineIndent(s, at, w) && indent == w + "  ")
  }

  lemma SkipInlineIsBlanks(s: string, i: nat)
    requires i <= |s|
    ensures BlanksAt(s, i, s[i..SkipInline(s, i)])
  {}

  lemma BlanksDecide(s: string, i: nat, w: string)
    requires i <= |s| && BlanksAt(s, i, w)
    ensures SkipInline(s, i) == i + |w|
  {
    assert forall p :: i <= p < i + |w| ==> s[p] == s[i..i + |w|][p - i];
    var j := SkipInline(s, i);
  }

  lemma LineStartOf(s: string, at: nat) returns (start: nat)
    requires at <= |s|
    ensures start <= at && (start > 0 ==> s[start - 1] == '\n') && (forall k :: start <= k < at ==> s[k] != '\n')
    ensures start == match LastNewline(s, at) case None => 0 case Some(p) => p + 1
  {
    start := match LastNewline(s, at) case None => 0 case Some(p) => p + 1;
  }

  /** Where a child's line starts behind the bracket, and how it is indented. */
  lemma ChildDecides(s: string, at: nat, w: string)
    requires at <= |s| && ChildIndent(s, at, w)
    ensures
      var i := SkipInline(s, at);
      i < |s| && s[i] == '\n' && w != "" && SkipInline(s, i + 1) == i + 1 + |w|
  {
    hide BlanksAt, SkipInline;
    var b :| BlanksAt(s, at, b) && at + |b| < |s| && s[at + |b|] == '\n' && w != "" && BlanksAt(s, at + |b| + 1, w);
    BlanksDecide(s, at, b);
    BlanksDecide(s, at + |b| + 1, w);
  }

  lemma ChildThere(s: string, at: nat)
    requires at <= |s|
    requires
      var i := SkipInline(s, at);
      i < |s| && s[i] == '\n' && SkipInline(s, i + 1) > i + 1
    ensures
      var i := SkipInline(s, at);
      ChildIndent(s, at, s[i + 1..SkipInline(s, i + 1)])
  {
    hide BlanksAt, SkipInline;
    var i := SkipInline(s, at);
    SkipInlineIsBlanks(s, at);
    SkipInlineIsBlanks(s, i + 1);
    var b := s[at..i];
    assert BlanksAt(s, at, b) && at + |b| == i;
  }

  lemma LineThere(s: string, at: nat)
    requires at <= |s|
    ensures
      var start := match LastNewline(s, at) case None => 0 case Some(p) => p + 1;
      start <= |s| && LineIndent(s, at, s[start..SkipInline(s, start)])
  {
    hide BlanksAt, SkipInline, LastNewline;
    var start := LineStartOf(s, at);
    SkipInlineIsBlanks(s, start);
  }

  lemma InnerIndentFor(s: string, at: nat)
    requires at <= |s|
    ensures IndentedFor(s, at, InnerIndent(s, at))
  {
    hide ChildIndent, LineIndent, LastNewline, SkipInline;
    var i := SkipInline(s, at);
    if i < |s| && s[i] == '\n' && SkipInline(s, i + 1) > i + 1 {
      ChildThere(s, at);
    } else {
      forall w ensures !ChildIndent(s, at, w) {
        if ChildIndent(s, at, w) {
          ChildDecides(s, at, w);
        }
      }
      LineThere(s, at);
    }
  }

  /** A carriage return behind the bracket hides the first child's line, so in a
      file with such endings no entry is indented like it. */
  lemma CarriageReturnHides(s: string, at: nat, b: string, w: string)
    requires BlanksAt(s, at, b) && at + |b| < |s| && s[at + |b|] == '\r'
    ensures !ChildIndent(s, at, w)
  {
    hide BlanksAt, SkipInline;
    if ChildIndent(s, at, w) {
      ChildDecides(s, at, w);
      BlanksDecide(s, at, b);
    }
  }

  /** `after` is `before` with one line in it: behind an opening bracket, after
      the line ending of the file. */
  ghost predicate AddsLine(before: string, after: string, line: string) {
    exists at: nat, indent: string, chunk: string ::
      && 0 < at <= |before| && (before[at - 1] == '{' || before[at - 1] == '[')
      && after == before[..at] + ((if HasCrLf(before) then "\r\n" else "\n") + line) + before[at..]
      && line == indent + chunk && IndentedFor(before, at, indent) && Blanks(indent) && OneLine(chunk) && chunk != ""
  }

  lemma IndentIsBlank(s: string, at: nat)
    requires at <= |s|
    ensures Blanks(InnerIndent(s, at))
  {
    hide HasCrLf;
  }

  lemma EntryAdds(text: string, d: Document, k: nat, bin: string)
    requires k < 4 && Parse(text) == Some(d) && IsObject(d.root)
    requires Place(d.root, EntryAt(k).event).Ok? && Fits(d.root, Place(d.root, EntryAt(k).event).value, EntryAt(k).event)
    ensures InstallEntry(text, k, bin).Ok?
    ensures AddsLine(text, InstallEntry(text, k, bin).value.0, InstallEntry(text, k, bin).value.1)
  {
    hide Parse, Place, EntryAt, GroupLine, Insertion, ChunkText, TrailingComma, Render, Valid, Holds, HasCrLf, IndentedFor, InnerIndent,
      Fits, OneLine, Target, TargetAt, Blanks;
    var event := EntryAt(k).event;
    var shape := Place(d.root, event).value;
    FitsFacts(d.root, shape, event);
    InsertionAgrees(text, d, k, bin);
    InsertionInBounds(text, d, event, GroupLine(EntryAt(k), bin));
    TargetStands(text, d, shape, event);
    var i := |d.lead| + TargetAt(d.root, shape, event);
    NodeParts(text, i, Target(d.root, shape, event));
    var chunk := ChunkText(shape, k, bin) + TrailingComma(text, i);
    var indent := InnerIndent(text, i + 1);
    InnerIndentFor(text, i + 1);
    IndentIsBlank(text, i + 1);
    ChunkLine(text, i, shape, k, bin);
    SpliceIs(text, i + 1, LineEnding(text), indent, chunk);
    assert LineEnding(text) == if HasCrLf(text) then "\r\n" else "\n";
  }

  lemma ChunkLine(text: string, i: nat, shape: Shape, k: nat, bin: string)
    requires k < 4
    ensures OneLine(ChunkText(shape, k, bin) + TrailingComma(text, i)) && ChunkText(shape, k, bin) + TrailingComma(text, i) != ""
  {
    hide OneLine, ChunkText, EntryAt;
    ChunkOneLine(shape, k, bin);
    ChunkNotEmpty(shape, k, bin);
    PunctuationOneLine();
    JoinOneLine(ChunkText(shape, k, bin), TrailingComma(text, i));
  }

  lemma ChunkNotEmpty(shape: Shape, k: nat, bin: string)
    requires k < 4
    ensures ChunkText(shape, k, bin) != ""
  {
    hide Render, RenderLabel, EntryAt, Valid;
    ChunkValid(shape, k, bin);
    RenderNonempty(ChunkValue(shape, k, bin));
  }

  lemma SpliceIs(s: string, at: nat, nl: string, indent: string, chunk: string)
    requires at <= |s|
    ensures Splice(s, at, nl + indent + chunk) == s[..at] + (nl + (indent + chunk)) + s[at..]
  {
    assert nl + indent + chunk == nl + (indent + chunk);
  }

  /** The texts of the rounds, each with the next line in it. */
  ghost predicate Added(texts: seq<string>, lines: seq<string>) {
    |texts| == |lines| + 1 && forall i :: 0 <= i < |lines| ==> AddsLine(texts[i], texts[i + 1], lines[i])
  }

  lemma {:induction false} RunAdds(text: string, d: Document, k: nat, already: set<nat>, bin: string, changed: seq<string>)
    returns (texts: seq<string>, lines: seq<string>)
    requires k <= 4 && Parse(text) == Some(d) && IsObject(d.root)
    requires
      var r := InstallFrom(text, k, already, bin, changed);
      r.Ok? && Parse(r.value.text).Some?
    ensures
      var c := InstallFrom(text, k, already, bin, changed).value;
      Added(texts, lines) && texts[0] == text && texts[|texts| - 1] == c.text && c.changed == changed + lines
    decreases 4 - k
  {
    hide Put, Place, EntryAt, Parse, InstallEntry, RenderDocument, Fits, AddsLine;
    if k == 4 {
      texts, lines := [text], [];
      assert changed + [] == changed;
    } else if k in already {
      texts, lines := RunAdds(text, d, k + 1, already, bin, changed);
    } else {
      var nl, indent := InstallEntryAgrees(text, d, k, bin);
      var next := InstallEntry(text, k, bin).value;
      var shape := Place(d.root, EntryAt(k).event).value;
      if !Fits(d.root, shape, EntryAt(k).event) {
        BrokenRun(next.0, k + 1, already, bin, changed + [next.1]);
        return;
      }
      EntryAdds(text, d, k, bin);
      PutIsObject(d.root, shape, k, nl + indent, bin);
      var after := After(d, shape, k, nl + indent, bin);
      texts, lines := RunAdds(next.0, after, k + 1, already, bin, changed + [next.1]);
      AddedMore(text, next.1, texts, lines);
      texts := [text] + texts;
      assert (changed + [next.1]) + lines == changed + ([next.1] + lines);
      lines := [next.1] + lines;
    }
  }

  lemma AddedMore(text: string, line: string, texts: seq<string>, lines: seq<string>)
    requires Added(texts, lines) && AddsLine(text, texts[0], line)
    ensures Added([text] + texts, [line] + lines)
  {
    hide AddsLine;
    forall i | 0 <= i < |[line] + lines|
      ensures AddsLine(([text] + texts)[i], ([text] + texts)[i + 1], ([line] + lines)[i])
    {
      if i > 0 {
        assert AddsLine(texts[i - 1], texts[i], lines[i - 1]);
      }
    }
  }

  /** Every line feed follows a carriage return. */
  predicate NoLoneLf(s: string) {
    forall k :: 0 <= k < |s| && s[k] == '\n' ==> k > 0 && s[k - 1] == '\r'
  }

  lemma AddKeepsEndings(before: string, after: string, line: string)
    requires AddsLine(before, after, line)
    ensures NoLoneLf(before) && '\n' in before ==> NoLoneLf(after) && '\n' in after
    ensures !HasCrLf(before) ==> !HasCrLf(after)
  {
    var at: nat, indent: string, chunk: string :|
      && 0 < at <= |before| && (before[at - 1] == '{' || before[at - 1] == '[')
      && after == before[..at] + ((if HasCrLf(before) then "\r\n" else "\n") + line) + before[at..]
      && line == indent + chunk && IndentedFor(before, at, indent) && Blanks(indent) && OneLine(chunk) && chunk != "";
    var nl := if HasCrLf(before) then "\r\n" else "\n";
    forall p | 0 <= p < |line| ensures line[p] != '\n' && line[p] != '\r' {
      assert line[p] == if p < |indent| then indent[p] else chunk[p - |indent|];
    }
    BytesAfter(before, at, nl, line, after);
    hide HasCrLf;
    if NoLoneLf(before) && '\n' in before {
      var k :| 0 <= k < |before| && before[k] == '\n';
      EndingExists(before, k);
      LfFollows(before, at, line, after);
    }
    if !HasCrLf(before) {
      NoCrLfAdded(before, at, line, after);
    }
  }

  lemma EndingExists(s: string, k: nat)
    requires k < |s| && s[k] == '\n' && NoLoneLf(s)
    ensures HasCrLf(s)
  {
    assert s[k - 1] == '\r' && s[k - 1 + 1] == '\n';
  }

  lemma BytesAfter(before: string, at: nat, nl: string, line: string, after: string)
    requires at <= |before| && after == before[..at] + (nl + line) + before[at..]
    ensures
      var n, m := |nl|, |nl| + |line|;
      && |after| == |before| + m
      && (forall p :: 0 <= p < at ==> after[p] == before[p])
      && (forall p :: at <= p < at + n ==> after[p] == nl[p - at])
      && (forall p :: at + n <= p < at + m ==> after[p] == line[p - at - n])
      && (forall p :: at + m <= p < |after| ==> after[p] == before[p - m])
  {}

  lemma LfFollows(before: string, at: nat, line: string, after: string)
    requires 0 < at <= |before| && before[at - 1] != '\r' && NoLoneLf(before) && line != ""
    requires forall p :: 0 <= p < |line| ==> line[p] != '\n' && line[p] != '\r'
    requires after == before[..at] + ("\r\n" + line) + before[at..]
    ensures NoLoneLf(after) && '\n' in after
  {
    BytesAfter(before, at, "\r\n", line, after);
    var m := 2 + |line|;
    assert after[at + 1] == '\n';
    forall k | 0 <= k < |after| && after[k] == '\n' ensures k > 0 && after[k - 1] == '\r' {
      if k < at {
        assert before[k] == '\n';
      } else if k < at + 2 {
        assert k == at + 1;
      } else if at + m <= k {
        assert before[k - m] == '\n' && before[k - m - 1] == '\r';
        assert k - m > at;
      }
    }
  }

  lemma NoCrLfAdded(before: string, at: nat, line: string, after: string)
    requires 0 < at <= |before| && before[at - 1] != '\r' && !HasCrLf(before) && line != ""
    requires forall p :: 0 <= p < |line| ==> line[p] != '\n' && line[p] != '\r'
    requires after == before[..at] + ("\n" + line) + before[at..]
    ensures !HasCrLf(after)
  {
    BytesAfter(before, at, "\n", line, after);
    var m := 1 + |line|;
    forall k | 0 <= k < |after| - 1 ensures after[k] != '\r' || after[k + 1] != '\n' {
      if k + 1 < at {
        assert before[k] != '\r' || before[k + 1] != '\n';
      } else if k >= at + m {
        assert before[k - m] != '\r' || before[k - m + 1] != '\n';
      }
    }
  }

  lemma {:induction false} AddedKeepEndings(texts: seq<string>, lines: seq<string>)
    requires Added(texts, lines)
    ensures
      var src, text := texts[0], texts[|texts| - 1];
      && (NoLoneLf(src) && '\n' in src ==> NoLoneLf(text) && '\n' in text)
      && (!HasCrLf(src) ==> !HasCrLf(text))
    decreases |lines|
  {
    hide NoLoneLf, HasCrLf, AddsLine;
    if lines == [] {
    } else {
      var n := |lines| - 1;
      assert Added(texts[..n + 1], lines[..n]) by {
        forall i | 0 <= i < n ensures AddsLine(texts[..n + 1][i], texts[..n + 1][i + 1], lines[..n][i]) {
          assert AddsLine(texts[i], texts[i + 1], lines[i]);
        }
      }
      AddedKeepEndings(texts[..n + 1], lines[..n]);
      assert texts[..n + 1][n] == texts[n];
      AddKeepsEndings(texts[n], texts[n + 1], lines[n]);
    }
  }

  /** The lines that install reports are the lines that it adds, one by one, each
      behind an opening bracket with the file's own line ending and indentation.
      So a file whose line feeds all follow a carriage return gets no lone one,
      and a file without such endings gets none. */
  lemma InstallAddsLines(src: string, d: Document, bin: string) returns (texts: seq<string>)
    requires Parse(src) == Some(d) && Install(src, bin).Ok?
    ensures
      var c := Install(src, bin).value;
      && Added(texts, c.changed) && texts[0] == src && texts[|texts| - 1] == c.text
      && (NoLoneLf(src) && '\n' in src ==> NoLoneLf(c.text))
      && (!HasCrLf(src) ==> !HasCrLf(c.text))
  {
    hide Parse, InstallFrom, WiredEvents, Added, NoLoneLf, HasCrLf;
    InstallText(src, d, bin);
    var lines;
    texts, lines := RunAdds(src, d, 0, WiredEvents(d.root), bin, []);
    assert [] + lines == lines;
    AddedKeepEndings(texts, lines);
  }
}
