/**
 The shape of an installed file: the original tree with a group at the front
 of some event arrays and some event members at the front of the hooks object.
 Every run of install ends in such a tree.
 */
module PlantedTree {
  import opened Json
  import opened Members
  import opened HookEntry
  import opened Edits
  import opened Settings
  import opened Removal
  import opened Cut
  import opened InstallLaws
  import opened Wiring

  /** The whitespace in front of an inserted chunk. */
  datatype Gap = Gap(nl: string, indent: string)

  function GapText(g: Gap): string { g.nl + g.indent }

  predicate GoodGap(g: Gap) { IsLineEnding(g.nl) && Indentation(g.indent) }

  /** The place in the table of the event `raw`, or 4. */
  function EntryOf(raw: string): nat {
    if raw == EntryAt(0).event then 0
    else if raw == EntryAt(1).event then 1
    else if raw == EntryAt(2).event then 2
    else if raw == EntryAt(3).event then 3
    else 4
  }

  lemma EntryOfEvent(k: nat, raw: string)
    requires k < 4
    ensures EntryOf(raw) == k <==> raw == EntryAt(k).event
  {
    hide EntryAt;
    if raw == EntryAt(k).event {
      var j := EntryOf(raw);
      if j < 4 && j != k {
        EventsDistinct(j, k);
      }
    }
  }

  /** Groups at the front of event arrays. */
  type Arrays = m: map<nat, Gap> | forall k :: k in m ==> k < 4

  /** Event members at the front of the hooks object, the newest first. */
  type Fronts = q: seq<(nat, Gap)> | forall i :: 0 <= i < |q| ==> q[i].0 < 4

  predicate IsPlanted(name: Label, v: Value, m: Arrays) {
    name.Key? && EntryOf(name.raw) in m && v.Node?
  }

  function PlantedValue(name: Label, v: Value, m: Arrays, bin: string): Value {
    if IsPlanted(name, v, m) then
      var k := EntryOf(name.raw);
      Graft(v, GapText(m[k]), NoLabel, GroupTree(EntryAt(k), bin))
    else v
  }

  function PlantIn(e: Elems, m: Arrays, bin: string): Elems {
    if e.Nil? then Nil
    else Cons(e.name, PlantedValue(e.name, e.value, m, bin), e.after, e.sep, PlantIn(e.rest, m, bin))
  }

  function PlantCount(e: Elems, m: Arrays): nat {
    if e.Nil? then 0 else (if IsPlanted(e.name, e.value, m) then 1 else 0) + PlantCount(e.rest, m)
  }

  function Wrap(h: Value, q: Fronts, bin: string): (r: Value)
    requires h.Node?
    ensures r.Node? && r.isObject == h.isObject
  {
    if q == [] then h
    else Graft(Wrap(h, q[1..], bin), GapText(q[0].1), EventKey(q[0].0), GroupList(q[0].0, bin))
  }

  predicate HasHooks(root: Value) {
    IsObject(root) && Count(root.elems, "hooks") == 1 && IsObject(HooksOf(root))
  }

  function PlantedHooks(root: Value, m: Arrays, q: Fronts, bin: string): Value
    requires HasHooks(root)
  {
    Wrap(Node(true, HooksOf(root).pre, PlantIn(HooksOf(root).elems, m, bin)), q, bin)
  }

  function PlantedRoot(root: Value, m: Arrays, q: Fronts, bin: string): Value
    requires HasHooks(root)
  {
    SetIn(root, "hooks", PlantedHooks(root, m, q, bin))
  }

  /** How many chunks were inserted. */
  function Size(root: Value, m: Arrays, q: Fronts): nat
    requires HasHooks(root)
  {
    |q| + PlantCount(HooksOf(root).elems, m)
  }

  predicate Unused(k: nat, m: Arrays, q: Fronts) {
    k !in m && forall i :: 0 <= i < |q| ==> q[i].0 != k
  }

  // ---------- Nothing planted ----------

  lemma {:induction false} PlantNothing(e: Elems, bin: string)
    ensures PlantIn(e, map[], bin) == e && PlantCount(e, map[]) == 0
  {
    if e.Nil? {
    } else {
      PlantNothing(e.rest, bin);
    }
  }

  lemma {:induction false} SetSame(e: Elems, key: string)
    requires Count(e, key) == 1
    ensures SetMember(e, key, Member(e, key)) == e
  {
    if Named(e, key) {
      SetAbsent(e.rest, key, Member(e, key));
    } else {
      SetSame(e.rest, key);
    }
  }

  lemma NothingPlanted(root: Value, bin: string)
    requires HasHooks(root)
    ensures PlantedRoot(root, map[], [], bin) == root && Size(root, map[], []) == 0
  {
    PlantNothing(HooksOf(root).elems, bin);
    SetSame(root.elems, "hooks");
  }

  // ---------- Edits of a planted tree ----------

  lemma {:induction false} SetTwice(e: Elems, key: string, v: Value, x: Value)
    ensures SetMember(SetMember(e, key, v), key, x) == SetMember(e, key, x)
  {
    if e.Nil? {
    } else {
      SetTwice(e.rest, key, v, x);
    }
  }

  lemma {:induction false} PlantKeeps(e: Elems, m: Arrays, bin: string, k: nat)
    requires k < 4 && k !in m
    ensures
      var event := EntryAt(k).event;
      && Count(PlantIn(e, m, bin), event) == Count(e, event)
      && (Count(e, event) >= 1 ==> Member(PlantIn(e, m, bin), event) == Member(e, event))
  {
    hide EntryOf, EntryAt, GroupTree, Graft;
    if e.Nil? {
    } else {
      PlantKeeps(e.rest, m, bin, k);
      if e.name.Key? {
        EntryOfEvent(k, e.name.raw);
      }
    }
  }

  lemma {:induction false} PlantAbsent(e: Elems, m: Arrays, g: Gap, bin: string, k: nat)
    requires k < 4 && Count(e, EntryAt(k).event) == 0
    ensures PlantIn(e, m[k := g], bin) == PlantIn(e, m, bin)
    ensures PlantCount(e, m[k := g]) == PlantCount(e, m)
  {
    hide EntryOf, EntryAt, GroupTree, Graft;
    if e.Nil? {
    } else {
      PlantAbsent(e.rest, m, g, bin, k);
      if e.name.Key? {
        EntryOfEvent(k, e.name.raw);
      }
    }
  }

  lemma {:induction false} PlantOne(e: Elems, m: Arrays, g: Gap, bin: string, k: nat)
    requires k < 4 && k !in m && Count(e, EntryAt(k).event) == 1 && Member(e, EntryAt(k).event).Node?
    ensures
      var event := EntryAt(k).event;
      SetMember(PlantIn(e, m, bin), event, Graft(Member(e, event), GapText(g), NoLabel, GroupTree(EntryAt(k), bin)))
      == PlantIn(e, m[k := g], bin)
    ensures PlantCount(e, m[k := g]) == PlantCount(e, m) + 1
  {
    hide EntryOf, EntryAt, GroupTree, Graft, GapText;
    var event := EntryAt(k).event;
    if e.name.Key? {
      EntryOfEvent(k, e.name.raw);
    }
    if Named(e, event) {
      PlantAbsent(e.rest, m, g, bin, k);
      PlantKeeps(e.rest, m, bin, k);
      SetAbsent(PlantIn(e.rest, m, bin), event, Graft(Member(e, event), GapText(g), NoLabel, GroupTree(EntryAt(k), bin)));
    } else {
      PlantOne(e.rest, m, g, bin, k);
    }
  }

  lemma GraftKeeps(h: Value, w: string, j: nat, bin: string, k: nat, v: Value)
    requires h.Node? && j < 4 && k < 4 && j != k
    ensures
      var event := EntryAt(k).event;
      var r := Graft(h, w, EventKey(j), GroupList(j, bin));
      && Count(r.elems, event) == Count(h.elems, event)
      && (Count(h.elems, event) >= 1 ==> Member(r.elems, event) == Member(h.elems, event))
      && SetIn(r, event, v) == Graft(SetIn(h, event, v), w, EventKey(j), GroupList(j, bin))
  {
    hide EntryAt, GroupList;
    if EntryAt(j).event == EntryAt(k).event {
      EventsDistinct(j, k);
    }
    SetKeepsShape(h.elems, EntryAt(k).event, v);
    assert Count(Nil, EntryAt(k).event) == 0;
    assert SetMember(Nil, EntryAt(k).event, v) == Nil;
  }

  /** Event members at the front do not disturb the members behind them. */
  lemma {:induction false} WrapKeeps(h: Value, q: Fronts, bin: string, k: nat, v: Value)
    requires h.Node? && k < 4 && forall i :: 0 <= i < |q| ==> q[i].0 != k
    ensures
      var event := EntryAt(k).event;
      && Count(Wrap(h, q, bin).elems, event) == Count(h.elems, event)
      && (Count(h.elems, event) >= 1 ==> Member(Wrap(h, q, bin).elems, event) == Member(h.elems, event))
      && SetIn(Wrap(h, q, bin), event, v) == Wrap(SetIn(h, event, v), q, bin)
    decreases |q|
  {
    hide EntryAt, GroupList, EventKey, Graft, SetIn, Count, Member, GapText;
    if q == [] {
    } else {
      WrapKeeps(h, q[1..], bin, k, v);
      GraftKeeps(Wrap(h, q[1..], bin), GapText(q[0].1), q[0].0, bin, k, v);
    }
  }

  lemma HooksOfPlanted(root: Value, m: Arrays, q: Fronts, bin: string)
    requires HasHooks(root)
    ensures
      var r := PlantedRoot(root, m, q, bin);
      && HasHooks(r) && HooksOf(r) == PlantedHooks(root, m, q, bin)
      && forall x :: SetIn(r, "hooks", x) == SetIn(root, "hooks", x)
  {
    hide PlantedHooks;
    PlantedIsObject(root, m, q, bin);
    MemberIsSet(root.elems, "hooks", PlantedHooks(root, m, q, bin));
    forall x ensures SetIn(PlantedRoot(root, m, q, bin), "hooks", x) == SetIn(root, "hooks", x) {
      SetTwice(root.elems, "hooks", PlantedHooks(root, m, q, bin), x);
    }
  }

  lemma PlantedIsObject(root: Value, m: Arrays, q: Fronts, bin: string)
    requires HasHooks(root)
    ensures IsObject(PlantedHooks(root, m, q, bin))
  {}

  lemma PutInFront(root: Value, m: Arrays, q: Fronts, k: nat, g: Gap, bin: string)
    requires k < 4 && HasHooks(root) && Fits(PlantedRoot(root, m, q, bin), InHooks, EntryAt(k).event)
    ensures Put(PlantedRoot(root, m, q, bin), InHooks, k, GapText(g), bin) == PlantedRoot(root, m, [(k, g)] + q, bin)
    ensures Size(root, m, [(k, g)] + q) == Size(root, m, q) + 1
  {
    hide EntryAt, GroupList, EventKey, Graft, SetIn, Place, PlantIn, PlantedRoot, GapText;
    HooksOfPlanted(root, m, q, bin);
    assert ([(k, g)] + q)[1..] == q;
    PlantedRootIs(root, m, [(k, g)] + q, bin);
  }

  lemma PlantedRootIs(root: Value, m: Arrays, q: Fronts, bin: string)
    requires HasHooks(root)
    ensures PlantedRoot(root, m, q, bin) == SetIn(root, "hooks", PlantedHooks(root, m, q, bin))
  {}

  lemma PutInArray(root: Value, m: Arrays, q: Fronts, k: nat, g: Gap, bin: string)
    requires k < 4 && HasHooks(root) && Unused(k, m, q) && Fits(PlantedRoot(root, m, q, bin), InArray, EntryAt(k).event)
    ensures Put(PlantedRoot(root, m, q, bin), InArray, k, GapText(g), bin) == PlantedRoot(root, m[k := g], q, bin)
    ensures Size(root, m[k := g], q) == Size(root, m, q) + 1
  {
    hide EntryAt, GroupTree, Graft, Place, PlantIn, PlantedRoot, GapText, SetMember, Wrap, Member, Count, PlantCount;
    var event := EntryAt(k).event;
    HooksOfPlanted(root, m, q, bin);
    FitsFacts(PlantedRoot(root, m, q, bin), InArray, event);
    var h := HooksOf(root);
    var base := Node(true, h.pre, PlantIn(h.elems, m, bin));
    PlantKeeps(h.elems, m, bin, k);
    WrapKeeps(base, q, bin, k, base);
    WrapKeeps(base, q, bin, k, Graft(Member(h.elems, event), GapText(g), NoLabel, GroupTree(EntryAt(k), bin)));
    PlantOne(h.elems, m, g, bin, k);
    PlantedRootIs(root, m[k := g], q, bin);
  }
}
