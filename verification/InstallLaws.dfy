/**
 What install does to the tree: which of the three places an entry goes to,
 when it is refused, and that the bytes it writes are that edit and no other.
 The document is read with decoded keys and searched with raw ones, so the
 member that is read and the member that is written can be two.
 */
module InstallLaws {
  import opened Wrappers
  import opened Json
  import opened Scanner
  import opened Members
  import opened Parser
  import opened Doc
  import opened HookEntry
  import opened Edits
  import opened Settings
  import opened Removal
  import opened Cut
  import opened Broken

  // ---------- Keys the raw scan can see ----------

  /** The last member that spells `key` in any way spells it without escapes,
      so the member that counts for a reader is one the raw scan can find. */
  predicate LastRaw(e: Elems, key: string) {
    e.Cons? ==>
      if GetIn(e.rest, key).Some? then LastRaw(e.rest, key)
      else Spells(e.name, key) ==> e.name.raw == key
  }

  lemma HooksPlain()
    ensures Plain("hooks")
  {}

  /** A member that spells the key raw is one that spells it. */
  lemma {:induction false} RawSpells(e: Elems, key: string)
    requires Plain(key) && Count(e, key) >= 1
    ensures GetIn(e, key).Some?
    decreases e
  {
    if Named(e, key) {
      hide Decode;
      DecodePlain(key);
    } else {
      hide Spells;
      RawSpells(e.rest, key);
    }
  }

  /** The decoded lookup and the raw one find the same member. */
  lemma {:induction false} GetRaw(e: Elems, key: string)
    requires LastRaw(e, key) && Plain(key)
    ensures GetIn(e, key).Some? <==> Count(e, key) >= 1
    ensures Count(e, key) == 1 ==> GetIn(e, key) == Some(Member(e, key))
    decreases e
  {
    if e.Nil? {
    } else {
      if GetIn(e.rest, key).Some? {
        hide Spells, Plain;
        GetRaw(e.rest, key);
      } else {
        if Count(e.rest, key) >= 1 {
          RawSpells(e.rest, key);
        }
        DecodePlain(key);
      }
    }
  }

  // ---------- The place an entry goes to ----------

  /** The place, or the refusal, decided on the tree alone. */
  function Place(root: Value, event: string): Result<Shape, SettingsError>
    requires IsObject(root)
  {
    match Get(root, "hooks")
    case None => Ok(InRoot)
    case Some(hooks) =>
      if !IsObject(hooks) then Err(WrongType("hooks"))
      else if Count(root.elems, "hooks") == 0 then Err(Unlocatable("hooks"))
      else if Count(root.elems, "hooks") > 1 then Err(DuplicateKey("hooks"))
      else PlaceInHooks(hooks, HooksOf(root), event)
  }

  /** `hooks` is the member that is read, `raw` the one the scan finds. */
  function PlaceInHooks(hooks: Value, raw: Value, event: string): Result<Shape, SettingsError> {
    match Get(hooks, event)
    case None => Ok(InHooks)
    case Some(groups) =>
      if !IsArray(groups) then Err(WrongType(event))
      else if !IsObject(raw) || Count(raw.elems, event) == 0 then Err(Unlocatable(event))
      else if Count(raw.elems, event) > 1 then Err(DuplicateKey(event))
      else Ok(InArray)
  }

  function HooksOf(root: Value): Value
    requires IsObject(root) && Count(root.elems, "hooks") >= 1
  {
    Member(root.elems, "hooks")
  }

  /** The entry has this place. */
  predicate Placed(root: Value, shape: Shape, event: string) {
    IsObject(root) && Place(root, event) == Ok(shape)
  }

  /** Facts the place gives about the way to it. */
  lemma PlacedFacts(root: Value, shape: Shape, event: string)
    requires Placed(root, shape, event)
    ensures shape == InRoot ==> Count(root.elems, "hooks") == 0
    ensures shape != InRoot ==> Count(root.elems, "hooks") == 1
    ensures shape == InArray ==> IsObject(HooksOf(root)) && Count(HooksOf(root).elems, event) == 1
  {
    hide Plain;
    HooksPlain();
    if shape == InRoot && Count(root.elems, "hooks") >= 1 {
      RawSpells(root.elems, "hooks");
    }
  }

  /** The value the chunk is written into. */
  function Target(root: Value, shape: Shape, event: string): Value
    requires Placed(root, shape, event)
  {
    PlacedFacts(root, shape, event);
    match shape
    case InRoot => root
    case InHooks => HooksOf(root)
    case InArray => Member(HooksOf(root).elems, event)
  }

  /** The place holds a container that the chunk fits into. What is read there
      does; what the scan finds may be another member. */
  predicate Fits(root: Value, shape: Shape, event: string) {
    && Placed(root, shape, event)
    && (if shape == InArray then IsArray(Target(root, shape, event)) else IsObject(Target(root, shape, event)))
  }

  lemma FitsFacts(root: Value, shape: Shape, event: string)
    requires Fits(root, shape, event)
    ensures Placed(root, shape, event) && Target(root, shape, event).Node?
    ensures shape == InRoot ==> Count(root.elems, "hooks") == 0
    ensures shape != InRoot ==> Count(root.elems, "hooks") == 1 && IsObject(HooksOf(root))
    ensures shape == InArray ==>
              && Count(HooksOf(root).elems, event) == 1 && IsArray(Member(HooksOf(root).elems, event))
  {
    hide Place;
    PlacedFacts(root, shape, event);
  }

  /** The edited root. */
  function Put(root: Value, shape: Shape, k: nat, w: string, bin: string): Value
    requires k < 4 && Fits(root, shape, EntryAt(k).event)
  {
    FitsFacts(root, shape, EntryAt(k).event);
    var grown := Graft(Target(root, shape, EntryAt(k).event), w, ChunkName(shape, k), ChunkValue(shape, k, bin));
    match shape
    case InRoot => grown
    case InHooks => SetIn(root, "hooks", grown)
    case InArray => SetIn(root, "hooks", SetIn(HooksOf(root), EntryAt(k).event, grown))
  }

  // ---------- The scan finds the place ----------

  lemma TrailingCommaAgrees(s: string, i: nat, v: Value)
    requires v.Node? && Valid(v) && Holds(s, i, Render(v))
    ensures TrailingComma(s, i) == Comma(v)
  {
    hide Holds, Render, RenderElems, SkipWs, ValidElems;
    StandsInNode(s, i, v);
    if v.elems.Cons? {
      ElemsStart(s, i + 1 + |v.pre|, v.elems, v.isObject);
    } else {
      EmptyStands(s, i + 1 + |v.pre|, v.elems, v.isObject);
    }
  }

  lemma EmptyStands(s: string, i: nat, e: Elems, isObject: bool)
    requires e.Nil? && Stands(s, i, e, isObject)
    ensures i < |s| && (s[i] == '}' || s[i] == ']')
  {}

  /** Where the target's text starts, from the root's. */
  function TargetAt(root: Value, shape: Shape, event: string): nat
    requires Placed(root, shape, event)
  {
    PlacedFacts(root, shape, event);
    match shape
    case InRoot => 0
    case InHooks => MemberAt(1 + |root.pre|, root.elems, "hooks")
    case InArray =>
      MemberAt(MemberAt(1 + |root.pre|, root.elems, "hooks") + 1 + |HooksOf(root).pre|, HooksOf(root).elems, event)
  }

  lemma TargetStands(s: string, d: Document, shape: Shape, event: string)
    requires Parse(s) == Some(d) && Placed(d.root, shape, event)
    ensures Holds(s, |d.lead| + TargetAt(d.root, shape, event), Render(Target(d.root, shape, event)))
    ensures Valid(Target(d.root, shape, event))
  {
    hide Holds, Render, RenderElems, Parse, ValidDocument, RenderDocument, Valid, Count, FindMember, Member, MemberAt, Place;
    PlacedFacts(d.root, shape, event);
    RootStands(s, d);
    if shape != InRoot {
      FindMemberAgrees(s, |d.lead|, d.root, "hooks");
      FindMemberInBounds(s, |d.lead|, d.root, "hooks");
      MemberAtShift(1 + |d.root.pre|, |d.lead|, d.root.elems, "hooks");
      if shape == InArray {
        var at := MemberAt(1 + |d.root.pre|, d.root.elems, "hooks");
        FindMemberAgrees(s, |d.lead| + at, HooksOf(d.root), event);
        FindMemberInBounds(s, |d.lead| + at, HooksOf(d.root), event);
        MemberAtShift(at + 1 + |HooksOf(d.root).pre|, |d.lead|, HooksOf(d.root).elems, event);
      }
    }
  }

  /** The refusal, or the offset and the chunk, are those of the tree. The
      comma is chosen from the byte that follows. */
  lemma InsertionAgrees(s: string, d: Document, k: nat, bin: string)
    requires k < 4 && Parse(s) == Some(d) && IsObject(d.root)
    ensures
      var event := EntryAt(k).event;
      Insertion(s, d.root, event, GroupLine(EntryAt(k), bin)) ==
      match Place(d.root, event)
      case Err(e) => Err(e)
      case Ok(shape) =>
        var at := |d.lead| + TargetAt(d.root, shape, event);
        Ok((at + 1, ChunkText(shape, k, bin) + TrailingComma(s, at)))
  {
    hide Holds, Render, RenderElems, RenderLabel, SkipWs, Parse, ValidDocument, RenderDocument, Valid, EntryAt, GroupLine, ChunkText,
      Count, FindMember, Member, MemberAt, TrailingComma, GetIn, Plain, InsertionInHooks, PlaceInHooks, HooksChunk;
    RootStands(s, d);
    var event := EntryAt(k).event;
    FindMemberAgrees(s, |d.lead|, d.root, "hooks");
    if Get(d.root, "hooks").None? {
      HooksChunkText(k, bin);
    } else if Count(d.root.elems, "hooks") == 1 && IsObject(Get(d.root, "hooks").value) {
      FindMemberInBounds(s, |d.lead|, d.root, "hooks");
      MemberAtShift(1 + |d.root.pre|, |d.lead|, d.root.elems, "hooks");
      HooksInsertionAgrees(s, d, k, bin);
    }
  }

  lemma HooksInsertionAgrees(s: string, d: Document, k: nat, bin: string)
    requires k < 4 && IsObject(d.root) && Count(d.root.elems, "hooks") == 1
    requires Get(d.root, "hooks").Some? && IsObject(Get(d.root, "hooks").value)
    requires
      var hooksAt := |d.lead| + MemberAt(1 + |d.root.pre|, d.root.elems, "hooks");
      Holds(s, hooksAt, Render(HooksOf(d.root))) && Valid(HooksOf(d.root))
    ensures
      var event := EntryAt(k).event;
      var hooksAt := |d.lead| + MemberAt(1 + |d.root.pre|, d.root.elems, "hooks");
      InsertionInHooks(s, Get(d.root, "hooks").value, hooksAt, event, GroupLine(EntryAt(k), bin)) ==
      match Place(d.root, event)
      case Err(e) => Err(e)
      case Ok(shape) =>
        var at := |d.lead| + TargetAt(d.root, shape, event);
        Ok((at + 1, ChunkText(shape, k, bin) + TrailingComma(s, at)))
  {
    hide Holds, Render, RenderElems, SkipWs, Valid, EntryAt, GroupLine, GroupTree,
      Count, FindMember, Member, MemberAt, TrailingComma, GetIn, Plain, EventChunk;
    var event := EntryAt(k).event;
    var hooks, raw := Get(d.root, "hooks").value, HooksOf(d.root);
    var at := MemberAt(1 + |d.root.pre|, d.root.elems, "hooks");
    FindMemberAgrees(s, |d.lead| + at, raw, event);
    if Get(hooks, event).None? {
      EventChunkText(k, bin);
      assert ChunkText(InHooks, k, bin) == EventChunk(event, GroupLine(EntryAt(k), bin));
    } else if IsObject(raw) && Count(raw.elems, event) == 1 && IsArray(Get(hooks, event).value) {
      GroupText(EntryAt(k), bin);
      EmptyLabelText();
      assert ChunkText(InArray, k, bin) == GroupLine(EntryAt(k), bin);
      MemberAtShift(at + 1 + |raw.pre|, |d.lead|, raw.elems, event);
    }
  }

  // ---------- The splice is the edit ----------

  lemma PutText(root: Value, shape: Shape, k: nat, w: string, bin: string)
    requires k < 4 && Fits(root, shape, EntryAt(k).event)
    ensures
      var event := EntryAt(k).event;
      var at := TargetAt(root, shape, event) + 1;
      && at <= |Render(root)|
      && Render(Put(root, shape, k, w, bin)) == Splice(Render(root), at, w + ChunkText(shape, k, bin) + Comma(Target(root, shape, event)))
  {
    hide Render, Count, Member, MemberAt, Comma, Splice, Graft, SetIn, Place, RenderLabel, EntryAt, ChunkName, ChunkValue;
    var event := EntryAt(k).event;
    FitsFacts(root, shape, event);
    var target := Target(root, shape, event);
    var ins := w + ChunkText(shape, k, bin) + Comma(target);
    var grown := Graft(target, w, ChunkName(shape, k), ChunkValue(shape, k, bin));
    GraftText(target, w, ChunkName(shape, k), ChunkValue(shape, k, bin));
    match shape
    case InRoot =>
    case InHooks => SetInText(root, "hooks", 1, ins, grown);
    case InArray =>
      var hooks := HooksOf(root);
      SetInText(hooks, event, 1, ins, grown);
      var at := MemberAt(1 + |hooks.pre|, hooks.elems, event) + 1;
      SetInText(root, "hooks", at, ins, SetIn(hooks, event, grown));
      MemberAtShift(1 + |hooks.pre|, MemberAt(1 + |root.pre|, root.elems, "hooks"), hooks.elems, event);
  }

  lemma {:induction false} MemberValid(e: Elems, isObject: bool, key: string)
    requires ValidElems(e, isObject) && Count(e, key) >= 1
    ensures Valid(Member(e, key))
    decreases e
  {
    hide ValidBody, ValidAtom, Spaces;
    if Named(e, key) {
    } else {
      MemberValid(e.rest, isObject, key);
    }
  }

  lemma SetInValid(v: Value, key: string, x: Value)
    requires v.Node? && Valid(v) && Valid(x)
    ensures Valid(SetIn(v, key, x))
  {
    hide ValidElems, SetMember;
    SetMemberValid(v.elems, v.isObject, key, x);
  }

  lemma NodeElemsValid(v: Value)
    requires v.Node? && Valid(v)
    ensures ValidElems(v.elems, v.isObject)
  {
    hide ValidElems;
  }

  lemma PutValid(root: Value, shape: Shape, k: nat, w: string, bin: string)
    requires k < 4 && Fits(root, shape, EntryAt(k).event) && Valid(root) && Spaces(w)
    ensures Valid(Put(root, shape, k, w, bin))
  {
    hide Valid, ValidElems, Spaces, Count, Member, Graft, SetIn, Place, EntryAt, ChunkName, ChunkValue, ValidLabel;
    var event := EntryAt(k).event;
    FitsFacts(root, shape, event);
    ChunkValid(shape, k, bin);
    NodeElemsValid(root);
    var target := Target(root, shape, event);
    if shape != InRoot {
      MemberValid(root.elems, true, "hooks");
      NodeElemsValid(HooksOf(root));
      if shape == InArray {
        MemberValid(HooksOf(root).elems, true, event);
      }
    }
    GraftValid(target, w, ChunkName(shape, k), ChunkValue(shape, k, bin));
    var grown := Graft(target, w, ChunkName(shape, k), ChunkValue(shape, k, bin));
    match shape
    case InRoot =>
    case InHooks => SetInValid(root, "hooks", grown);
    case InArray =>
      SetInValid(HooksOf(root), event, grown);
      SetInValid(root, "hooks", SetIn(HooksOf(root), event, grown));
  }

  // ---------- One entry ----------

  lemma InnerIndentBlank(s: string, at: nat)
    requires at <= |s|
    ensures Indentation(InnerIndent(s, at))
  {
    hide HasCrLf;
  }

  lemma EndingAndIndent(nl: string, indent: string)
    requires IsLineEnding(nl) && Indentation(indent)
    ensures Spaces(nl + indent)
  {}

  lemma LineEndingOf(s: string)
    ensures IsLineEnding(LineEnding(s))
  {}

  /** The document after one entry, the whitespace install chose being `w`. */
  function After(d: Document, shape: Shape, k: nat, w: string, bin: string): Document
    requires k < 4 && Fits(d.root, shape, EntryAt(k).event)
  {
    d.(root := Put(d.root, shape, k, w, bin))
  }

  /** Installing one entry is refused exactly when the tree has no place for
      it. Otherwise the new text is the text of the edited tree where the place
      holds a container of its kind, and does not parse where it does not. */
  lemma InstallEntryAgrees(text: string, d: Document, k: nat, bin: string) returns (nl: string, indent: string)
    requires k < 4 && Parse(text) == Some(d) && IsObject(d.root)
    ensures IsLineEnding(nl) && Indentation(indent)
    ensures
      match Place(d.root, EntryAt(k).event)
      case Err(e) => InstallEntry(text, k, bin) == Err(e)
      case Ok(shape) =>
        && InstallEntry(text, k, bin).Ok?
        && var next := InstallEntry(text, k, bin).value.0;
           if Fits(d.root, shape, EntryAt(k).event) then
             && next == RenderDocument(After(d, shape, k, nl + indent, bin))
             && Parse(next) == Some(After(d, shape, k, nl + indent, bin))
           else
             Parse(next) == None
  {
    hide Render, RenderDocument, Parse, EntryAt, GroupLine, ChunkText, Insertion, Comma, TrailingComma, Splice, Put, Place, Fits, Placed,
      InnerIndent, Count, Member, LineEnding, Valid, Spaces, TargetAt, Target;
    InsertionAgrees(text, d, k, bin);
    var event := EntryAt(k).event;
    LineEndingOf(text);
    nl, indent := LineEnding(text), "";
    EmptyIndent();
    if Place(d.root, event).Ok? {
      var shape := Place(d.root, event).value;
      PlacedAt(d.root, shape, event);
      InsertionInBounds(text, d, event, GroupLine(EntryAt(k), bin));
      var at := |d.lead| + TargetAt(d.root, shape, event);
      indent := InnerIndent(text, at + 1);
      InnerIndentBlank(text, at + 1);
      if Fits(d.root, shape, event) {
        TargetComma(text, d, shape, event);
        EntryText(text, d, shape, k, nl, indent, bin);
      } else {
        MisfitBreaks(text, d, shape, k, nl, indent, bin, TrailingComma(text, at));
      }
    }
  }

  lemma PlacedAt(root: Value, shape: Shape, event: string)
    requires IsObject(root) && Place(root, event) == Ok(shape)
    ensures Placed(root, shape, event)
  {}

  lemma TargetComma(s: string, d: Document, shape: Shape, event: string)
    requires Parse(s) == Some(d) && Fits(d.root, shape, event)
    ensures Target(d.root, shape, event).Node?
    ensures TrailingComma(s, |d.lead| + TargetAt(d.root, shape, event)) == Comma(Target(d.root, shape, event))
  {
    hide Parse, Place, Placed, Render, Valid, Holds, TrailingComma, Comma;
    TargetStands(s, d, shape, event);
    TrailingCommaAgrees(s, |d.lead| + TargetAt(d.root, shape, event), Target(d.root, shape, event));
  }

  /** A chunk that install writes into a value of another kind breaks the file. */
  lemma MisfitBreaks(text: string, d: Document, shape: Shape, k: nat, nl: string, indent: string, bin: string, comma: string)
    requires k < 4 && Parse(text) == Some(d) && Placed(d.root, shape, EntryAt(k).event) && !Fits(d.root, shape, EntryAt(k).event)
    requires IsLineEnding(nl) && Indentation(indent)
    ensures
      var at := |d.lead| + TargetAt(d.root, shape, EntryAt(k).event) + 1;
      at <= |text| && Parse(Splice(text, at, nl + indent + (ChunkText(shape, k, bin) + comma))) == None
  {
    hide Parse, Place, Render, Valid, Holds, Splice, ChunkText, EntryAt, TargetAt, ParseValue, Stuck, SameUpTo, Fits, Placed;
    var at := |d.lead| + TargetAt(d.root, shape, EntryAt(k).event);
    TargetStuck(text, d, shape, k, nl, indent, bin, comma);
    SpliceShape(text, at + 1, nl + indent, ChunkText(shape, k, bin) + comma);
    StuckSpreads(text, Splice(text, at + 1, nl + indent + (ChunkText(shape, k, bin) + comma)), at + 1, d, shape, EntryAt(k).event);
  }

  /** From the target outwards, no container is read. */
  lemma StuckSpreads(s: string, t: string, n: nat, d: Document, shape: Shape, event: string)
    requires Parse(s) == Some(d) && Placed(d.root, shape, event) && shape != InRoot && SameUpTo(s, t, n)
    requires
      var at := |d.lead| + TargetAt(d.root, shape, event);
      at < n && at <= |t| && Stuck(t, at)
    ensures Parse(t) == None
  {
    hide Parse, Place, Render, Valid, Holds, MemberAt, Count, Member, ParseValue, Stuck, SameUpTo, ValidDocument, RenderDocument;
    PlacedFacts(d.root, shape, event);
    RootStands(s, d);
    var hooksAt := MemberAt(1 + |d.root.pre|, d.root.elems, "hooks");
    MemberAtShift(1 + |d.root.pre|, |d.lead|, d.root.elems, "hooks");
    if shape == InArray {
      HooksFail(s, t, n, d, event);
    }
    MemberIsLater(s, |d.lead|, d.root, "hooks");
    ObjectBreaks(s, t, n, |d.lead|, d.root, "hooks");
    RootFails(s, t, n, d);
  }

  lemma HooksFail(s: string, t: string, n: nat, d: Document, event: string)
    requires Parse(s) == Some(d) && Placed(d.root, InArray, event) && SameUpTo(s, t, n)
    requires
      var at := |d.lead| + TargetAt(d.root, InArray, event);
      at < n && at <= |t| && Stuck(t, at)
    ensures Count(d.root.elems, "hooks") == 1
    ensures
      var at := |d.lead| + MemberAt(1 + |d.root.pre|, d.root.elems, "hooks");
      at < n && at <= |t| && Stuck(t, at)
  {
    hide Parse, Place, Render, Valid, Holds, MemberAt, Count, Member, ParseValue, Stuck, SameUpTo, ValidDocument, RenderDocument;
    PlacedFacts(d.root, InArray, event);
    RootStands(s, d);
    var hooksAt := MemberAt(1 + |d.root.pre|, d.root.elems, "hooks");
    MemberAtShift(1 + |d.root.pre|, |d.lead|, d.root.elems, "hooks");
    var hooks := HooksOf(d.root);
    FindMemberAgrees(s, |d.lead|, d.root, "hooks");
    FindMemberInBounds(s, |d.lead|, d.root, "hooks");
    MemberAtShift(hooksAt + 1 + |hooks.pre|, |d.lead|, hooks.elems, event);
    MemberIsLater(s, |d.lead| + hooksAt, hooks, event);
    ObjectBreaks(s, t, n, |d.lead| + hooksAt, hooks, event);
    FailIsStuck(t, |d.lead| + hooksAt);
  }

  lemma FailIsStuck(t: string, i: nat)
    requires i <= |t| && ParseValue(t, i) == Fail
    ensures Stuck(t, i)
  {}

  lemma MemberIsLater(s: string, i: nat, v: Value, key: string)
    requires v.Node? && Valid(v) && Holds(s, i, Render(v)) && Count(v.elems, key) >= 1
    ensures i < MemberAt(i + 1 + |v.pre|, v.elems, key)
  {
    hide Render, Valid, Holds, MemberAt, Count, Stands;
    StandsInNode(s, i, v);
    MemberStands(s, i + 1 + |v.pre|, v.elems, v.isObject, key);
  }

  lemma RootFails(s: string, t: string, n: nat, d: Document)
    requires Parse(s) == Some(d) && SameUpTo(s, t, n) && |d.lead| < n
    requires |d.lead| <= |t| && ParseValue(t, |d.lead|) == Fail
    ensures Parse(t) == None
  {
    hide Parse, ParseValue, Render, Valid, Holds, SameUpTo, Spaces, SkipWs, IsSpace;
    RootStands(s, d);
    DocumentSound(s);
    FirstOfValue(s, |d.lead|, d.root);
    DocumentText(d);
    HoldsKept(s, t, n, 0, d.lead);
    CharKept(s, t, n, |d.lead|);
    InRange(s, t, n, |d.lead|);
    SkipSpaces(t, 0, d.lead);
    NoRoot(t, |d.lead|);
  }

  lemma NoRoot(t: string, i: nat)
    requires i <= |t| && SkipWs(t, 0) == i && ParseValue(t, i) == Fail
    ensures Parse(t) == None
  {}

  lemma TargetStuck(text: string, d: Document, shape: Shape, k: nat, nl: string, indent: string, bin: string, comma: string)
    requires k < 4 && Parse(text) == Some(d) && Placed(d.root, shape, EntryAt(k).event) && !Fits(d.root, shape, EntryAt(k).event)
    requires IsLineEnding(nl) && Indentation(indent)
    ensures shape != InRoot
    ensures
      var at := |d.lead| + TargetAt(d.root, shape, EntryAt(k).event);
      && at < |text|
      && var t := Splice(text, at + 1, nl + indent + (ChunkText(shape, k, bin) + comma));
         at < |t| && Stuck(t, at)
  {
    hide Parse, Place, Render, Valid, Holds, Splice, ChunkText, EntryAt, Count, Member, ParseValue, Stuck, TargetAt, Opens, ValidBody;
    var event := EntryAt(k).event;
    PlacedFacts(d.root, shape, event);
    TargetStands(text, d, shape, event);
    var at := |d.lead| + TargetAt(d.root, shape, event);
    ChunkOpens(shape, k, nl, indent, bin, comma);
    if shape == InHooks {
      EventBody(k);
      KeyedChunkBreaks(text, at, HooksOf(d.root), nl + indent, event, ChunkText(shape, k, bin) + comma);
    } else {
      GroupBreaks(text, at, Target(d.root, shape, event), nl + indent, ChunkText(shape, k, bin) + comma);
    }
  }

  lemma EventBody(k: nat)
    requires k < 4
    ensures ValidBody(EntryAt(k).event)
  {
    hide ValidBody, PlainBody, EntryAt;
    EntryBodies(k);
    PlainBodyValid(EntryAt(k).event);
  }

  /** How the text written for an entry starts. */
  lemma ChunkOpens(shape: Shape, k: nat, nl: string, indent: string, bin: string, comma: string)
    requires k < 4 && shape != InRoot && IsLineEnding(nl) && Indentation(indent)
    ensures
      var x := ChunkText(shape, k, bin) + comma;
      && Opens(nl + indent, x)
      && (if shape == InHooks then Quoted(EntryAt(k).event) + ":" <= x else x[0] == '{')
  {
    hide EntryAt, GroupLine, Render, Spaces;
    EndingAndIndent(nl, indent);
    var c := ChunkText(shape, k, bin);
    if shape == InHooks {
      EventChunkText(k, bin);
      KeyFirst(EntryAt(k).event, GroupLine(EntryAt(k), bin), comma);
    } else {
      GroupText(EntryAt(k), bin);
      EmptyLabelText();
      GroupFirst(k, bin, comma);
    }
  }

  lemma KeyFirst(event: string, line: string, comma: string)
    ensures Quoted(event) + ":" <= EventChunk(event, line) + comma
  {
    assert EventChunk(event, line) + comma == (Quoted(event) + ":") + (" [" + line + "]" + comma);
  }

  lemma GroupFirst(k: nat, bin: string, comma: string)
    requires k < 4
    ensures GroupLine(EntryAt(k), bin) != "" && (GroupLine(EntryAt(k), bin) + comma)[0] == '{'
  {
    hide EntryAt, HookLine;
  }

  lemma EmptyIndent()
    ensures Indentation("")
  {}

  lemma EntryText(text: string, d: Document, shape: Shape, k: nat, nl: string, indent: string, bin: string)
    requires k < 4 && Parse(text) == Some(d) && Fits(d.root, shape, EntryAt(k).event)
    requires IsLineEnding(nl) && Indentation(indent)
    ensures
      var event := EntryAt(k).event;
      var at := |d.lead| + TargetAt(d.root, shape, event) + 1;
      var after := After(d, shape, k, nl + indent, bin);
      && at <= |text|
      && RenderDocument(after) == Splice(text, at, nl + indent + (ChunkText(shape, k, bin) + Comma(Target(d.root, shape, event))))
      && Parse(RenderDocument(after)) == Some(after)
  {
    hide Render, RenderDocument, Parse, EntryAt, ChunkText, Comma, Splice, Put, Fits, Valid, Spaces, TargetAt, Target;
    var event := EntryAt(k).event;
    FitsFacts(d.root, shape, event);
    DocumentSound(text);
    var chunk := ChunkText(shape, k, bin) + Comma(Target(d.root, shape, event));
    PutText(d.root, shape, k, nl + indent, bin);
    assert nl + indent + ChunkText(shape, k, bin) + Comma(Target(d.root, shape, event)) == nl + indent + chunk;
    DocumentEditText(d, TargetAt(d.root, shape, event) + 1, nl + indent + chunk, Put(d.root, shape, k, nl + indent, bin));
    EndingAndIndent(nl, indent);
    PutValid(d.root, shape, k, nl + indent, bin);
    DocumentRead(After(d, shape, k, nl + indent, bin));
  }
}
