/**
 What install achieves, for every object document: when it fails and with
 what, which of the entries it writes are wired, that the entries that were
 there stay wired, and when doing it again changes nothing.
 */
module Wiring {
  import opened Wrappers
  import opened Json
  import opened Members
  import opened Parser
  import opened Doc
  import opened HookEntry
  import opened Edits
  import opened Settings
  import opened Removal
  import opened InstallLaws

  // ---------- Reading what was written ----------

  lemma GetField(key: string, v: Value, rest: Elems, name: string)
    requires Plain(key)
    ensures GetIn(Field(key, v, rest), name) ==
            if GetIn(rest, name).Some? then GetIn(rest, name) else if key == name then Some(v) else None
  {
    DecodePlain(key);
  }

  lemma KeysPlain()
    ensures Plain("hooks") && Plain("type") && Plain("command") && Plain("args")
    ensures Plain("timeout") && Plain("async") && Plain("statusMessage") && Plain("hook")
  {}

  lemma EntryPlain(k: nat)
    requires k < 4
    ensures Plain(EntryAt(k).event) && Plain(EntryAt(k).sub) && Plain(EntryAt(k).status)
  {
    hide ValidBody, PlainBody, EntryAt;
    EntryBodies(k);
    PlainBodyValid(EntryAt(k).event);
    PlainBodyValid(EntryAt(k).sub);
    PlainBodyValid(EntryAt(k).status);
  }

  lemma StatusOurs(k: nat)
    requires k < 4
    ensures StartsWith(Decode(EntryAt(k).status), "memgarden: ")
  {
    hide Decode, EntryAt, Plain;
    EntryPlain(k);
    DecodePlain(EntryAt(k).status);
    StatusStarts(k);
  }

  lemma StatusStarts(k: nat)
    requires k < 4
    ensures "memgarden: " <= EntryAt(k).status
  {}

  lemma LateFieldsRead(entry: Entry)
    ensures GetIn(LateFields(entry), "statusMessage") == Some(Str(entry.status))
    ensures GetIn(LateFields(entry), "args") == None
  {
    hide GetIn, Decode, Plain, Field;
    KeysPlain();
    var status := StatusField(entry);
    NilReads();
    GetField("statusMessage", Str(entry.status), Nil, "statusMessage");
    GetField("statusMessage", Str(entry.status), Nil, "args");
    if entry.isAsync {
      GetField("async", Atom("true"), status, "statusMessage");
      GetField("async", Atom("true"), status, "args");
      GetField("timeout", Atom(entry.timeout), Field("async", Atom("true"), status), "statusMessage");
      GetField("timeout", Atom(entry.timeout), Field("async", Atom("true"), status), "args");
    } else {
      GetField("timeout", Atom(entry.timeout), status, "statusMessage");
      GetField("timeout", Atom(entry.timeout), status, "args");
    }
  }

  lemma NilReads()
    ensures forall name :: GetIn(Nil, name) == None
  {}

  lemma HookOurs(k: nat, bin: string)
    requires k < 4
    ensures IsOurs(HookTree(EntryAt(k), bin), EntryAt(k).sub)
  {
    hide GetIn, Decode, Plain, Field, EntryAt, LateFields, StartsWith, Escape;
    var entry := EntryAt(k);
    KeysPlain();
    EntryPlain(k);
    StatusOurs(k);
    DecodePlain(entry.sub);
    LateFieldsRead(entry);
    var args := Field("args", ArgsOf(entry), LateFields(entry));
    var command := Field("command", Str(Escape(bin)), args);
    GetField("args", ArgsOf(entry), LateFields(entry), "statusMessage");
    GetField("command", Str(Escape(bin)), args, "statusMessage");
    GetField("type", Str("command"), command, "statusMessage");
    GetField("args", ArgsOf(entry), LateFields(entry), "args");
    GetField("command", Str(Escape(bin)), args, "args");
    GetField("type", Str("command"), command, "args");
  }

  lemma GroupOurs(k: nat, bin: string)
    requires k < 4
    ensures GroupHasOurs(GroupTree(EntryAt(k), bin), EntryAt(k).sub)
  {
    hide GetIn, Decode, Plain, Field, EntryAt, HookTree, IsOurs;
    var hook := HookTree(EntryAt(k), bin);
    KeysPlain();
    NilReads();
    GetField("hooks", List(Item(hook, Nil)), Nil, "hooks");
    HookOurs(k, bin);
    assert AnyHook(Item(hook, Nil), EntryAt(k).sub);
  }

  lemma EventsDistinct(j: nat, k: nat)
    requires j < 4 && k < 4 && EntryAt(j).event == EntryAt(k).event
    ensures j == k
  {
    var a, b := EntryAt(j).event, EntryAt(k).event;
    assert |a| == |b| && a[1] == b[1] && a[|a| - 1] == b[|b| - 1];
  }

  // ---------- Lookups after an edit ----------

  lemma UnspelledRaw(e: Elems, key: string)
    requires GetIn(e, key) == None
    ensures LastRaw(e, key)
  {}

  /** Replacing the value of the one raw member: a reader of that key sees the
      new value when the member that counts is the raw one, and the old state
      of another member when it is not. */
  lemma {:induction false} SetReads(e: Elems, key: string, v: Value)
    requires Plain(key) && Count(e, key) == 1
    ensures LastRaw(SetMember(e, key, v), key) == LastRaw(e, key)
    ensures GetIn(e, key).Some?
    ensures GetIn(SetMember(e, key, v), key) == if LastRaw(e, key) then Some(v) else GetIn(e, key)
    ensures LastRaw(e, key) ==> GetIn(e, key) == Some(Member(e, key))
  {
    hide Decode, Plain, Spells;
    SetLabels(e, key, v, key);
    RawSpells(e, key);
    if LastRaw(e, key) {
      MemberIsSet(e, key, v);
      GetRaw(SetMember(e, key, v), key);
      GetRaw(e, key);
    } else {
      EscapedStays(e, key, v);
    }
  }

  lemma {:induction false} EscapedStays(e: Elems, key: string, v: Value)
    requires !LastRaw(e, key)
    ensures GetIn(SetMember(e, key, v), key) == GetIn(e, key)
    decreases e
  {
    hide Decode;
    SetLabels(e.rest, key, v, key);
    if GetIn(e.rest, key).None? {
    } else {
      EscapedStays(e.rest, key, v);
    }
  }

  /** Replacing a value moves no key. */
  lemma {:induction false} SetLabels(e: Elems, key: string, v: Value, name: string)
    ensures Count(SetMember(e, key, v), name) == Count(e, name)
    ensures GetIn(SetMember(e, key, v), name).Some? <==> GetIn(e, name).Some?
    ensures LastRaw(SetMember(e, key, v), name) == LastRaw(e, name)
    decreases e
  {
    if e == Nil {
    } else {
      hide Spells;
      SetLabels(e.rest, key, v, name);
    }
  }

  lemma {:induction false} MemberIsSet(e: Elems, key: string, v: Value)
    requires Count(e, key) >= 1
    ensures Count(SetMember(e, key, v), key) == Count(e, key)
    ensures Member(SetMember(e, key, v), key) == v
    decreases e
  {
    SetLabels(e, key, v, key);
    if Named(e, key) {
    } else {
      MemberIsSet(e.rest, key, v);
    }
  }

  /** Two lists that answer every question about a key alike. */
  predicate SameFor(e: Elems, f: Elems, key: string) {
    && Count(f, key) == Count(e, key) && GetIn(f, key) == GetIn(e, key) && LastRaw(f, key) == LastRaw(e, key)
    && (Count(e, key) >= 1 ==> Member(f, key) == Member(e, key))
  }

  lemma {:induction false} SetOther(e: Elems, key: string, v: Value, name: string)
    requires name != key && Plain(key)
    ensures SameFor(e, SetMember(e, key, v), name)
    decreases e
  {
    if e == Nil {
    } else {
      hide Decode, Plain;
      SetOther(e.rest, key, v, name);
      if Named(e, key) {
        DecodePlain(key);
      }
    }
  }

  /** A new first member is read where no later member spells its key. */
  lemma GraftReads(v: Value, w: string, l: Label, x: Value, name: string)
    requires v.Node? && l.Key? && Plain(l.raw)
    ensures
      var e := Graft(v, w, l, x).elems;
      && (name != l.raw ==> SameFor(v.elems, e, name))
      && LastRaw(e, name) == LastRaw(v.elems, name)
      && (name == l.raw ==>
            && Count(e, name) == Count(v.elems, name) + 1
            && GetIn(e, name) == if GetIn(v.elems, name).Some? then GetIn(v.elems, name) else Some(x))
  {
    hide Decode, Plain;
    DecodePlain(l.raw);
    assert GetIn(Nil, name) == None && Count(Nil, name) == 0;
    if GetIn(v.elems, name) == None {
      UnspelledRaw(v.elems, name);
    }
  }

  lemma GraftIsObject(v: Value, w: string, l: Label, x: Value)
    requires v.Node?
    ensures Graft(v, w, l, x).Node? && Graft(v, w, l, x).isObject == v.isObject
    ensures Graft(v, w, l, x).elems.Cons? && Graft(v, w, l, x).elems.value == x
  {}

  // ---------- What stands in the way of an entry ----------

  /** An entry is refused with an error, its chunk breaks the file, or it goes
      into a container of its kind. */
  datatype Standing = Refused(error: SettingsError) | Breaks | Ready

  function StandingOf(root: Value, k: nat): Standing
    requires k < 4 && IsObject(root)
  {
    match Place(root, EntryAt(k).event)
    case Err(e) => Refused(e)
    case Ok(shape) => if Fits(root, shape, EntryAt(k).event) then Ready else Breaks
  }

  /** Readers of the entry's event look where install writes: the member that
      counts is spelled without escapes, `hooks` in the document and the event
      in the one `hooks` object. */
  predicate Reached(root: Value, k: nat)
    requires k < 4 && IsObject(root)
  {
    && LastRaw(root.elems, "hooks")
    && (Count(root.elems, "hooks") == 1 && IsObject(HooksOf(root)) ==> LastRaw(HooksOf(root).elems, EntryAt(k).event))
  }

  /** Everything that is asked about one entry has the same answer. */
  predicate SameEntry(root: Value, root': Value, j: nat)
    requires j < 4 && IsObject(root)
  {
    && IsObject(root') && StandingOf(root', j) == StandingOf(root, j)
    && EntryWired(root', j) == EntryWired(root, j) && Reached(root', j) == Reached(root, j)
  }

  // ---------- One entry's effect ----------

  /** A file without `hooks`. */
  lemma FreshHooks(root: Value, k: nat, w: string, bin: string)
    requires k < 4 && Fits(root, InRoot, EntryAt(k).event)
    ensures
      var root' := Put(root, InRoot, k, w, bin);
      && IsObject(root') && LastRaw(root'.elems, "hooks") && Count(root'.elems, "hooks") == 1
      && HooksOf(root') == HooksObject(k, bin) && Get(root', "hooks") == Some(HooksObject(k, bin))
    ensures LastRaw(root.elems, "hooks")
  {
    hide Plain, EntryAt, GetIn, LastRaw, GroupList, EventKey, HooksObject;
    FitsFacts(root, InRoot, EntryAt(k).event);
    KeysPlain();
    GraftReads(root, w, ChunkName(InRoot, k), ChunkValue(InRoot, k, bin), "hooks");
    GraftIsObject(root, w, ChunkName(InRoot, k), ChunkValue(InRoot, k, bin));
    UnspelledRaw(root.elems, "hooks");
  }

  lemma FreshHooksRead(k: nat, bin: string, j: nat)
    requires k < 4 && j < 4
    ensures
      var e := HooksObject(k, bin).elems;
      var name := EntryAt(j).event;
      && LastRaw(e, name)
      && GetIn(e, name) == if j == k then Some(GroupList(k, bin)) else None
  {
    hide GroupList, EntryAt, Decode, Plain;
    EntryPlain(k);
    DecodePlain(EntryAt(k).event);
    if EntryAt(j).event == EntryAt(k).event {
      EventsDistinct(j, k);
    }
    assert GetIn(Nil, EntryAt(j).event) == None && Count(Nil, EntryAt(j).event) == 0;
  }

  lemma InRootWires(root: Value, k: nat, w: string, bin: string, j: nat)
    requires k < 4 && j < 4 && Fits(root, InRoot, EntryAt(k).event)
    ensures EntryWired(Put(root, InRoot, k, w, bin), k) && Reached(root, k)
    ensures j != k ==> SameEntry(root, Put(root, InRoot, k, w, bin), j)
  {
    hide EntryAt, LastRaw, GroupList, Put, GetIn, EventKey, GroupHasOurs;
    FitsFacts(root, InRoot, EntryAt(k).event);
    FreshHooks(root, k, w, bin);
    FreshHooksRead(k, bin, k);
    FreshHooksRead(k, bin, j);
    GroupListOurs(k, bin);
    if j != k {
      ReadyInRoot(root, j);
      ReadyInHooks(Put(root, InRoot, k, w, bin), HooksObject(k, bin), j);
    }
  }

  lemma GroupListOurs(k: nat, bin: string)
    requires k < 4
    ensures EventHasOurs(Some(GroupList(k, bin)), EntryAt(k).sub)
  {
    hide GroupHasOurs, EntryAt, GroupTree;
    GroupOurs(k, bin);
  }

  lemma ReadyInRoot(root: Value, j: nat)
    requires j < 4 && IsObject(root) && Get(root, "hooks") == None
    ensures StandingOf(root, j) == Ready && !EntryWired(root, j)
  {
    hide EntryAt;
  }

  lemma ReadyInHooks(root: Value, hooks: Value, j: nat)
    requires j < 4 && IsObject(root) && IsObject(hooks) && Get(root, "hooks") == Some(hooks)
    requires Count(root.elems, "hooks") == 1 && HooksOf(root) == hooks && Get(hooks, EntryAt(j).event) == None
    ensures StandingOf(root, j) == Ready && !EntryWired(root, j)
  {
    hide EntryAt, Count, Member;
  }

  /** A document whose one raw `hooks` object is replaced. */
  lemma HooksReplaced(root: Value, raw: Value)
    requires IsObject(root) && Count(root.elems, "hooks") == 1
    ensures
      var root' := SetIn(root, "hooks", raw);
      && IsObject(root') && Count(root'.elems, "hooks") == 1 && HooksOf(root') == raw
      && LastRaw(root'.elems, "hooks") == LastRaw(root.elems, "hooks")
      && Get(root, "hooks").Some?
      && Get(root', "hooks") == (if LastRaw(root.elems, "hooks") then Some(raw) else Get(root, "hooks"))
      && (LastRaw(root.elems, "hooks") ==> Get(root, "hooks") == Some(HooksOf(root)))
  {
    hide Plain, LastRaw, SetMember, GetIn, Count, Member;
    KeysPlain();
    SetReads(root.elems, "hooks", raw);
    MemberIsSet(root.elems, "hooks", raw);
  }

  /** An event that its hooks object answers for as before. */
  lemma OtherEvent(root: Value, raw: Value, j: nat)
    requires j < 4 && IsObject(root) && Count(root.elems, "hooks") == 1 && IsObject(HooksOf(root)) && IsObject(raw)
    requires SameFor(HooksOf(root).elems, raw.elems, EntryAt(j).event)
    ensures SameEntry(root, SetIn(root, "hooks", raw), j)
  {
    hide EntryAt, LastRaw, SetIn, Count, Member, GetIn;
    HooksReplaced(root, raw);
  }

  /** The event that is written: wired where readers look at the raw member. */
  lemma ThisEvent(root: Value, raw: Value, k: nat)
    requires k < 4 && IsObject(root) && Count(root.elems, "hooks") == 1 && IsObject(HooksOf(root)) && IsObject(raw)
    requires
      var event := EntryAt(k).event;
      if LastRaw(root.elems, "hooks") && LastRaw(HooksOf(root).elems, event) then EventHasOurs(GetIn(raw.elems, event), EntryAt(k).sub)
      else LastRaw(root.elems, "hooks") ==> GetIn(raw.elems, event) == GetIn(HooksOf(root).elems, event)
    ensures EntryWired(SetIn(root, "hooks", raw), k) == if Reached(root, k) then true else EntryWired(root, k)
  {
    hide EntryAt, LastRaw, SetIn, Count, Member, GetIn, EventHasOurs;
    HooksReplaced(root, raw);
  }

  lemma InHooksWires(root: Value, k: nat, w: string, bin: string, j: nat)
    requires k < 4 && j < 4 && Fits(root, InHooks, EntryAt(k).event)
    ensures
      var root' := Put(root, InHooks, k, w, bin);
      && EntryWired(root', k) == (if Reached(root, k) then true else EntryWired(root, k))
      && (j != k ==> SameEntry(root, root', j))
  {
    hide Plain, EntryAt, LastRaw, GroupList, Graft, GetIn, SetIn, Count, Member, EventHasOurs, SameFor, SameEntry;
    var event := EntryAt(k).event;
    FitsFacts(root, InHooks, event);
    EntryPlain(k);
    var hooks := HooksOf(root);
    var raw := Graft(hooks, w, EventKey(k), GroupList(k, bin));
    GraftIsObject(hooks, w, EventKey(k), GroupList(k, bin));
    GraftReads(hooks, w, EventKey(k), GroupList(k, bin), event);
    HooksReplaced(root, raw);
    GroupListOurs(k, bin);
    if LastRaw(root.elems, "hooks") {
      NoneInHooks(root, event);
      UnspelledRaw(hooks.elems, event);
    }
    ThisEvent(root, raw, k);
    if j != k {
      GraftReads(hooks, w, EventKey(k), GroupList(k, bin), EntryAt(j).event);
      if EntryAt(j).event == event {
        EventsDistinct(j, k);
      }
      OtherEvent(root, raw, j);
    }
  }

  lemma NoneInHooks(root: Value, event: string)
    requires Fits(root, InHooks, event) && Count(root.elems, "hooks") == 1 && Get(root, "hooks") == Some(HooksOf(root))
    ensures Get(HooksOf(root), event) == None
  {
    hide GetIn, Count, Member;
  }

  lemma InArrayWires(root: Value, k: nat, w: string, bin: string, j: nat)
    requires k < 4 && j < 4 && Fits(root, InArray, EntryAt(k).event)
    ensures
      var root' := Put(root, InArray, k, w, bin);
      && EntryWired(root', k) == (if Reached(root, k) then true else EntryWired(root, k))
      && (j != k ==> SameEntry(root, root', j))
  {
    hide Plain, EntryAt, LastRaw, GroupTree, Graft, GetIn, SetMember, Count, Member, EventHasOurs, SameFor, SameEntry;
    var event := EntryAt(k).event;
    FitsFacts(root, InArray, event);
    EntryPlain(k);
    var hooks := HooksOf(root);
    var groups := Graft(Member(hooks.elems, event), w, NoLabel, GroupTree(EntryAt(k), bin));
    GrownOurs(Member(hooks.elems, event), w, k, bin);
    SetReads(hooks.elems, event, groups);
    ThisEvent(root, SetIn(hooks, event, groups), k);
    if j != k {
      if EntryAt(j).event == event {
        EventsDistinct(j, k);
      }
      SetOther(hooks.elems, event, groups, EntryAt(j).event);
      OtherEvent(root, SetIn(hooks, event, groups), j);
    }
  }

  lemma GrownOurs(groups: Value, w: string, k: nat, bin: string)
    requires k < 4 && IsArray(groups)
    ensures EventHasOurs(Some(Graft(groups, w, NoLabel, GroupTree(EntryAt(k), bin))), EntryAt(k).sub)
  {
    hide GroupHasOurs, EntryAt, GroupTree;
    GroupOurs(k, bin);
    GraftIsObject(groups, w, NoLabel, GroupTree(EntryAt(k), bin));
    hide Graft;
  }

  lemma PutIsObject(root: Value, shape: Shape, k: nat, w: string, bin: string)
    requires k < 4 && Fits(root, shape, EntryAt(k).event)
    ensures IsObject(Put(root, shape, k, w, bin))
  {
    hide EntryAt, Graft, SetMember, Place, Count, Member;
    FitsFacts(root, shape, EntryAt(k).event);
    GraftIsObject(Target(root, shape, EntryAt(k).event), w, ChunkName(shape, k), ChunkValue(shape, k, bin));
  }

  /** The entry just written is wired if it was or if readers look where it
      was written, and nothing that is asked about another entry changes. */
  lemma PutWires(root: Value, shape: Shape, k: nat, w: string, bin: string, j: nat)
    requires k < 4 && j < 4 && Fits(root, shape, EntryAt(k).event)
    ensures
      var root' := Put(root, shape, k, w, bin);
      && IsObject(root')
      && (EntryWired(root', k) <==> EntryWired(root, k) || Reached(root, k))
      && (j != k ==> SameEntry(root, root', j))
  {
    hide Put, Fits, EntryWired, Reached, SameEntry, EntryAt;
    PutIsObject(root, shape, k, w, bin);
    FitsObject(root, shape, EntryAt(k).event);
    match shape
    case InRoot => InRootWires(root, k, w, bin, j);
    case InHooks => InHooksWires(root, k, w, bin, j);
    case InArray => InArrayWires(root, k, w, bin, j);
  }

  lemma FitsObject(root: Value, shape: Shape, event: string)
    requires Fits(root, shape, event)
    ensures IsObject(root)
  {}

  // ---------- The whole table ----------

  /** How many entries are still to be written. */
  function Pending(k: nat, already: set<nat>): nat
    requires k <= 4
    decreases 4 - k
  {
    if k == 4 then 0 else (if k in already then 0 else 1) + Pending(k + 1, already)
  }

  /** Why install fails, if it does: the first pending entry that is refused or
      breaks the file. A broken file is noticed by the parse of the next round,
      or by the last check when there is no next round. */
  function Failure(root: Value, k: nat, already: set<nat>): Option<SettingsError>
    requires k <= 4 && IsObject(root)
    decreases 4 - k
  {
    if k == 4 then None
    else if k in already then Failure(root, k + 1, already)
    else
      match StandingOf(root, k)
      case Refused(e) => Some(e)
      case Breaks => Some(if Pending(k + 1, already) == 0 then WouldCorrupt else ParseError)
      case Ready => Failure(root, k + 1, already)
  }

  lemma {:induction false} FailureKept(root: Value, root': Value, k: nat, already: set<nat>)
    requires k <= 4 && IsObject(root)
    requires IsObject(root') && forall j: nat :: k <= j < 4 ==> SameEntry(root, root', j)
    ensures Failure(root', k, already) == Failure(root, k, already)
    decreases 4 - k
  {
    hide StandingOf, EntryWired, Reached;
    if k == 4 {
    } else {
      assert SameEntry(root, root', k);
      FailureKept(root, root', k + 1, already);
    }
  }

  lemma {:induction false} NoFailure(root: Value, k: nat, already: set<nat>)
    requires k <= 4 && IsObject(root)
    ensures Failure(root, k, already) == None <==> forall j: nat :: k <= j < 4 && j !in already ==> StandingOf(root, j) == Ready
    decreases 4 - k
  {
    hide StandingOf;
    if k == 4 {
    } else {
      NoFailure(root, k + 1, already);
    }
  }

  lemma RefusedIsNotCorrupt(root: Value, k: nat)
    requires k < 4 && IsObject(root)
    ensures StandingOf(root, k) != Refused(WouldCorrupt)
  {
    hide EntryAt;
  }

  /** Which entries are wired in the end. */
  ghost predicate WiredFrom(root: Value, root': Value, k: nat, already: set<nat>)
    requires IsObject(root)
  {
    forall j: nat :: j < 4 ==> (EntryWired(root', j) <==> EntryWired(root, j) || (k <= j && j !in already && Reached(root, j)))
  }

  ghost predicate Installed(d: Document, k: nat, already: set<nat>, changed: seq<string>, c: Change)
    requires k <= 4 && IsObject(d.root)
  {
    && Parse(c.text).Some? && IsObject(Parse(c.text).value.root)
    && WiredFrom(d.root, Parse(c.text).value.root, k, already)
    && |c.changed| == |changed| + Pending(k, already)
  }

  lemma PutWiresAll(root: Value, shape: Shape, k: nat, w: string, bin: string)
    requires k < 4 && Fits(root, shape, EntryAt(k).event)
    ensures
      var root' := Put(root, shape, k, w, bin);
      && IsObject(root') && IsObject(root)
      && (EntryWired(root', k) <==> EntryWired(root, k) || Reached(root, k))
      && (forall j: nat :: j < 4 && j != k ==> SameEntry(root, root', j))
  {
    hide EntryWired, Put, SameEntry, Reached, EntryAt, Fits;
    FitsObject(root, shape, EntryAt(k).event);
    PutWires(root, shape, k, w, bin, k);
    forall j: nat | j < 4 && j != k ensures SameEntry(root, Put(root, shape, k, w, bin), j) {
      PutWires(root, shape, k, w, bin, j);
    }
  }

  /** A broken text ends the run at the next entry to be written. */
  lemma {:induction false} BrokenRun(text: string, k: nat, already: set<nat>, bin: string, changed: seq<string>)
    requires k <= 4 && Parse(text) == None
    ensures InstallFrom(text, k, already, bin, changed) ==
            if Pending(k, already) == 0 then Ok(Change(text, changed)) else Err(ParseError)
    decreases 4 - k
  {
    hide Parse, Insertion;
    if k == 4 {
    } else if k in already {
      BrokenRun(text, k + 1, already, bin, changed);
    }
  }

  /** The run from entry `k` on, for every document whose root is an object. */
  lemma {:induction false} InstallFromLaw(text: string, d: Document, k: nat, already: set<nat>, bin: string, changed: seq<string>)
    requires k <= 4 && Parse(text) == Some(d) && IsObject(d.root)
    ensures
      var r := InstallFrom(text, k, already, bin, changed);
      match Failure(d.root, k, already)
      case None => r.Ok? && Installed(d, k, already, changed, r.value)
      case Some(e) =>
        if e == WouldCorrupt then r.Ok? && Parse(r.value.text) == None && |r.value.changed| > |changed| else r == Err(e)
    decreases 4 - k
  {
    hide EntryWired, Put, Place, EntryAt, Parse, InstallEntry, RenderDocument, SameEntry, Reached, Fits;
    if k == 4 {
    } else if k in already {
      InstallFromLaw(text, d, k + 1, already, bin, changed);
    } else {
      var nl, indent := InstallEntryAgrees(text, d, k, bin);
      RefusedIsNotCorrupt(d.root, k);
      if StandingOf(d.root, k) == Ready {
        var shape := Place(d.root, EntryAt(k).event).value;
        var next := InstallEntry(text, k, bin).value;
        var after := After(d, shape, k, nl + indent, bin);
        PutWiresAll(d.root, shape, k, nl + indent, bin);
        FailureKept(d.root, after.root, k + 1, already);
        InstallFromLaw(next.0, after, k + 1, already, bin, changed + [next.1]);
        WiredStep(d.root, after.root, k, already, InstallFrom(text, k, already, bin, changed));
      } else if StandingOf(d.root, k) == Breaks {
        var next := InstallEntry(text, k, bin).value;
        BrokenRun(next.0, k + 1, already, bin, changed + [next.1]);
      }
    }
  }

  lemma WiredStep(root: Value, root': Value, k: nat, already: set<nat>, r: Result<Change, SettingsError>)
    requires k < 4 && k !in already && IsObject(root) && IsObject(root')
    requires EntryWired(root', k) <==> EntryWired(root, k) || Reached(root, k)
    requires forall j: nat :: j < 4 && j != k ==> SameEntry(root, root', j)
    ensures r.Ok? && Parse(r.value.text).Some? && WiredFrom(root', Parse(r.value.text).value.root, k + 1, already)
            ==> WiredFrom(root, Parse(r.value.text).value.root, k, already)
  {
    hide EntryWired, Reached, Parse, StandingOf;
    if r.Ok? && Parse(r.value.text).Some? && WiredFrom(root', Parse(r.value.text).value.root, k + 1, already) {
      var last := Parse(r.value.text).value.root;
      forall j: nat | j < 4
        ensures EntryWired(last, j) <==> EntryWired(root, j) || (k <= j && j !in already && Reached(root, j))
      {
        if j != k {
          assert SameEntry(root, root', j);
        }
      }
    }
  }

  lemma PendingCount(already: set<nat>)
    requires forall j :: j in already ==> j < 4
    ensures Pending(0, already) == 4 - |already|
  {
    assert already == (set j: nat | j < 4 && j in already);
    var all := {0, 1, 2, 3};
    assert |all| == 4;
    assert already <= all;
    PendingSet(0, already);
    assert (set j: nat | 0 <= j < 4 && j !in already) == all - already;
  }

  lemma {:induction false} PendingSet(k: nat, already: set<nat>)
    requires k <= 4
    ensures Pending(k, already) == |set j: nat | k <= j < 4 && j !in already|
    decreases 4 - k
  {
    var now := set j: nat | k <= j < 4 && j !in already;
    if k < 4 {
      var later := set j: nat | k + 1 <= j < 4 && j !in already;
      PendingSet(k + 1, already);
      assert now == if k in already then later else later + {k};
    } else {
      assert now == {};
    }
  }

  lemma {:induction false} NothingPending(text: string, k: nat, already: set<nat>, bin: string)
    requires k <= 4 && forall j: nat :: k <= j < 4 ==> j in already
    ensures InstallFrom(text, k, already, bin, []) == Ok(Change(text, []))
    decreases 4 - k
  {
    if k == 4 {
    } else {
      NothingPending(text, k + 1, already, bin);
    }
  }

  ghost predicate AllWired(text: string) {
    Parse(text).Some? && forall j: nat :: j < 4 ==> EntryWired(Parse(text).value.root, j)
  }

  /** Installing again changes nothing exactly when all four are wired. */
  lemma InstallAgain(text: string, d: Document, bin: string)
    requires Parse(text) == Some(d) && IsObject(d.root)
    ensures Install(text, bin) == Ok(Change(text, [])) <==> AllWired(text)
  {
    hide EntryWired, Parse, InstallFrom, StandingOf, Reached;
    var already := WiredEvents(d.root);
    if AllWired(text) {
      NothingPending(text, 0, already, bin);
    } else {
      InstallFromLaw(text, d, 0, already, bin, []);
      SomePending(already);
    }
  }

  lemma SomePending(already: set<nat>)
    requires !forall j: nat :: j < 4 ==> j in already
    ensures Pending(0, already) > 0
  {}

  /** Installing fails exactly when a pending entry is refused or breaks the
      file, with that reason. Otherwise one line is added for each entry that
      was not wired; the entries that are wired are those that were and those
      whose readers look where install wrote; so all four are exactly when each
      pending one is reached, and only then does installing again change
      nothing. */
  lemma InstallWires(src: string, d: Document, bin: string)
    requires Parse(src) == Some(d) && IsObject(d.root)
    ensures
      var already := WiredEvents(d.root);
      match Failure(d.root, 0, already)
      case Some(e) => Install(src, bin) == Err(e)
      case None =>
        && Install(src, bin).Ok?
        && var c := Install(src, bin).value;
           && |c.changed| == 4 - |already|
           && Parse(c.text).Some?
           && (forall j: nat :: j < 4 ==> (EntryWired(Parse(c.text).value.root, j) <==> j in already || Reached(d.root, j)))
           && (AllWired(c.text) <==> forall j: nat :: j < 4 && j !in already ==> Reached(d.root, j))
           && (Install(c.text, bin) == Ok(Change(c.text, [])) <==> AllWired(c.text))
  {
    hide EntryWired, Parse, InstallFrom, Failure, Reached;
    var already := WiredEvents(d.root);
    InstallFromLaw(src, d, 0, already, bin, []);
    PendingCount(already);
    if Failure(d.root, 0, already).None? {
      var c := InstallFrom(src, 0, already, bin, []).value;
      WiredInTheEnd(d.root, Parse(c.text).value.root, already);
      if c.changed == [] {
        FullSet(already);
        NothingPending(src, 0, already, bin);
      }
      InstallAgain(c.text, Parse(c.text).value, bin);
    }
  }

  /** An entry that was wired is no exception: it was wired before. */
  lemma WiredInTheEnd(root: Value, root': Value, already: set<nat>)
    requires IsObject(root) && already == WiredEvents(root) && WiredFrom(root, root', 0, already)
    ensures forall j: nat :: j < 4 ==> (EntryWired(root', j) <==> j in already || Reached(root, j))
  {
    hide EntryWired, Reached;
  }

  lemma FullSet(s: set<nat>)
    requires (forall j :: j in s ==> j < 4) && |s| == 4
    ensures forall j: nat :: j < 4 ==> j in s
  {
    var all := {0, 1, 2, 3};
    forall j: nat | j < 4 ensures j in s {
      if j !in s {
        assert s <= all - {j};
        Smaller(s, all - {j});
      }
    }
  }

  lemma Smaller(a: set<nat>, b: set<nat>)
    requires a <= b
    ensures |a| <= |b|
  {
    assert b == a + (b - a);
  }
}
