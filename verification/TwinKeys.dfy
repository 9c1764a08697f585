/**
 Where install reports success and wires less than it says. It searches the
 bytes for a key without escapes, and every reader takes the last member that
 spells the key in any way. A second, escaped spelling of `hooks` or of an
 event keeps the duplicate guard quiet and sends the entry to a member that
 nobody reads.
 */
module TwinKeys {
  import opened Wrappers
  import opened Json
  import opened Scanner
  import opened Members
  import opened Parser
  import opened Doc
  import opened HookEntry
  import opened Settings
  import opened InstallLaws
  import opened Wiring

  /** For every file: an install that succeeds leaves all four events wired if
      and only if, for each event that was not, the members that count are
      spelled without escapes. */
  lemma WiresExactlyWhenRaw(src: string, d: Document, bin: string)
    requires Parse(src) == Some(d) && Install(src, bin).Ok?
    ensures IsObject(d.root)
    ensures AllWired(Install(src, bin).value.text) <==>
            forall k: nat :: k < 4 && k !in WiredEvents(d.root) ==> Reached(d.root, k)
  {
    hide Parse, InstallFrom, WiredEvents, Reached, Failure;
    InstallWires(src, d, bin);
  }

  // ---------- Files without escapes in their keys ----------

  predicate PlainKeys(e: Elems) {
    e.Cons? ==> (e.name.Key? ==> Plain(e.name.raw)) && PlainKeys(e.rest)
  }

  lemma {:induction false} PlainIsRaw(e: Elems, key: string)
    requires PlainKeys(e)
    ensures LastRaw(e, key)
  {
    if e == Nil {
    } else {
      hide Decode, Plain;
      PlainIsRaw(e.rest, key);
      if e.name.Key? {
        DecodePlain(e.name.raw);
      }
    }
  }

  /** The readers' `hooks` and everything beside it are spelled plainly. */
  predicate PlainFile(root: Value) {
    && IsObject(root) && PlainKeys(root.elems)
    && (Count(root.elems, "hooks") == 1 && IsObject(HooksOf(root)) ==> PlainKeys(HooksOf(root).elems))
  }

  /** In such a file success means what it says. */
  lemma PlainFileIsWired(src: string, d: Document, bin: string)
    requires Parse(src) == Some(d) && PlainFile(d.root) && Install(src, bin).Ok?
    ensures AllWired(Install(src, bin).value.text)
  {
    hide Parse, Install, WiredEvents, PlainKeys, LastRaw, AllWired, EntryAt;
    WiresExactlyWhenRaw(src, d, bin);
    PlainIsRaw(d.root.elems, "hooks");
    forall k: nat | k < 4 ensures Reached(d.root, k) {
      if Count(d.root.elems, "hooks") == 1 && IsObject(HooksOf(d.root)) {
        PlainIsRaw(HooksOf(d.root).elems, EntryAt(k).event);
      }
    }
  }

  // ---------- A second spelling of `hooks` ----------

  predicate NoEvents(hooks: Value) {
    forall k: nat :: k < 4 ==> Get(hooks, EntryAt(k).event) == None
  }

  /** One raw `hooks` object, and a `hooks` object for readers, perhaps another
      one, with no event of the table in it. */
  predicate FreshFile(root: Value) {
    && IsObject(root) && Count(root.elems, "hooks") == 1 && IsObject(HooksOf(root))
    && Get(root, "hooks").Some? && IsObject(Get(root, "hooks").value) && NoEvents(Get(root, "hooks").value)
  }

  lemma FreshIsReady(root: Value)
    requires FreshFile(root)
    ensures WiredEvents(root) == {} && Failure(root, 0, {}) == None
  {
    hide EntryAt, Count, Member, GetIn;
    forall k: nat | k < 4 ensures StandingOf(root, k) == Ready && !EntryWired(root, k) {
      assert Get(Get(root, "hooks").value, EntryAt(k).event) == None;
    }
    hide StandingOf, EntryWired;
    NoFailure(root, 0, {});
  }

  /** Install always succeeds on such a file with four lines. Where the member
      that counts is raw it wires all four events. Where it is spelled with an
      escape it wires none. */
  lemma TwinDefeatsInstall(src: string, d: Document, bin: string)
    requires Parse(src) == Some(d) && FreshFile(d.root)
    ensures Install(src, bin).Ok?
    ensures
      var c := Install(src, bin).value;
      && |c.changed| == 4 && Parse(c.text).Some?
      && (if LastRaw(d.root.elems, "hooks") then AllWired(c.text) else WiredEvents(Parse(c.text).value.root) == {})
  {
    hide Parse, InstallFrom, WiredEvents, Failure, NoEvents, LastRaw, EntryAt, EntryWired;
    FreshIsReady(d.root);
    InstallWires(src, d, bin);
    if LastRaw(d.root.elems, "hooks") {
      FreshIsReached(d.root);
    } else {
      var root := Parse(Install(src, bin).value.text).value.root;
      assert forall k: nat :: k < 4 ==> !Reached(d.root, k);
      assert forall k: nat :: k < 4 ==> !EntryWired(root, k);
      NothingWired(root);
    }
  }

  /** Where the raw `hooks` is no object, the first entry is spliced into it and
      the next round takes the file for one that never parsed. */
  lemma ScalarTwinIsBlamed(src: string, d: Document, bin: string)
    requires Parse(src) == Some(d) && IsObject(d.root) && Count(d.root.elems, "hooks") == 1 && !IsObject(HooksOf(d.root))
    requires Get(d.root, "hooks").Some? && IsObject(Get(d.root, "hooks").value) && NoEvents(Get(d.root, "hooks").value)
    ensures Install(src, bin) == Err(ParseError)
  {
    hide Parse, Install, Count, Member, GetIn, EntryAt;
    forall k: nat | k < 4 ensures StandingOf(d.root, k) == Breaks && !EntryWired(d.root, k) {
      assert Get(Get(d.root, "hooks").value, EntryAt(k).event) == None;
    }
    hide StandingOf, EntryWired;
    NothingWired(d.root);
    assert Pending(1, {}) == 3;
    InstallWires(src, d, bin);
  }

  lemma NothingWired(root: Value)
    requires forall k: nat :: k < 4 ==> !EntryWired(root, k)
    ensures WiredEvents(root) == {}
  {
    hide EntryWired;
  }

  lemma FreshIsReached(root: Value)
    requires FreshFile(root) && LastRaw(root.elems, "hooks")
    ensures forall k: nat :: k < 4 ==> Reached(root, k)
  {
    hide EntryAt, Count, Member, Decode, Plain, Spells;
    HooksPlain();
    GetRaw(root.elems, "hooks");
    forall k: nat | k < 4 ensures LastRaw(HooksOf(root).elems, EntryAt(k).event) {
      UnspelledRaw(HooksOf(root).elems, EntryAt(k).event);
    }
  }

  /** Such a file: `{"hooks":{},"\u0068ooks":{}}`. */
  function TwinFile(): Document {
    Document("", Object(Field("hooks", Object(Nil), Field("\\u0068ooks", Object(Nil), Nil))), "")
  }

  lemma TwinFileFails(bin: string)
    ensures RenderDocument(TwinFile()) == "{\"hooks\":{},\"\\u0068ooks\":{}}"
    ensures Install(RenderDocument(TwinFile()), bin).Ok?
    ensures !AllWired(Install(RenderDocument(TwinFile()), bin).value.text)
  {
    hide Parse, Install, EntryWired;
    TwinFileText();
    TwinFileValid();
    DocumentRead(TwinFile());
    TwinFileIsTwin();
    TwinDefeatsInstall(RenderDocument(TwinFile()), TwinFile(), bin);
    assert 0 !in WiredEvents(Parse(Install(RenderDocument(TwinFile()), bin).value.text).value.root);
  }

  lemma TwinFileText()
    ensures RenderDocument(TwinFile()) == "{\"hooks\":{},\"\\u0068ooks\":{}}"
  {
    var last := Field("\\u0068ooks", Object(Nil), Nil);
    EmptyObjectText();
    FieldText("\\u0068ooks", Object(Nil), Nil);
    FieldText("hooks", Object(Nil), last);
    assert Followed(last) == "," + RenderElems(last);
    TwinPieces();
    hide RenderElems, Followed;
  }

  lemma EmptyObjectText()
    ensures Render(Object(Nil)) == "{}" && Followed(Nil) == ""
  {}

  lemma TwinPieces()
    ensures "{" + "" + (JsonKey("hooks") + ("{}" + ("," + (JsonKey("\\u0068ooks") + ("{}" + ""))))) + "}" == "{\"hooks\":{},\"\\u0068ooks\":{}}"
  {}

  lemma TwinFileValid()
    ensures ValidDocument(TwinFile())
  {
    hide ValidBody, ValidElems, Valid;
    KeysValid();
    EscapedHooksValid();
    NilValid(true);
    NodeValid(true, Nil);
    FieldValid("\\u0068ooks", Object(Nil), Nil);
    FieldValid("hooks", Object(Nil), Field("\\u0068ooks", Object(Nil), Nil));
    NodeValid(true, Field("hooks", Object(Nil), Field("\\u0068ooks", Object(Nil), Nil)));
  }

  lemma EscapedHooksValid()
    ensures ValidBody("\\u0068ooks")
  {
    PlainBodyValid("ooks");
    assert "\\u0068ooks"[6..] == "ooks";
  }

  lemma EscapedHooksDecodes()
    ensures Decode("\\u0068ooks") == "hooks"
  {
    EscapedFirst("0068", "ooks");
    SmallH();
    assert "\\u" + "0068" + "ooks" == "\\u0068ooks";
    hide Decode, Unit;
    assert ['h'] + "ooks" == "hooks";
  }

  lemma SmallH()
    ensures Unit("0068") == 'h'
  {
    assert CodeUnit("0068") == 0x68;
  }

  lemma TwinFileIsTwin()
    ensures FreshFile(TwinFile().root) && !LastRaw(TwinFile().root.elems, "hooks")
  {
    hide Decode, EntryAt;
    EscapedHooksDecodes();
    var last := Field("\\u0068ooks", Object(Nil), Nil);
    NilReads();
    assert Count(last, "hooks") == 0 && GetIn(last, "hooks") == Some(Object(Nil)) && !LastRaw(last, "hooks");
  }

  // ---------- A second spelling of an event ----------

  function StopTwins(): Elems {
    Field("Stop", List(Nil), Field("\\u0053top", List(Nil), Nil))
  }

  /** `{"hooks":{"Stop":[],"\u0053top":[]}}`. */
  function EventTwinFile(): Document {
    Document("", Object(Field("hooks", Object(StopTwins()), Nil)), "")
  }

  /** Install succeeds with four lines on this file, and afterwards three
      events are wired: the entry of `Stop` went into the first array. */
  lemma EventTwinFileFails(bin: string)
    ensures RenderDocument(EventTwinFile()) == "{\"hooks\":{\"Stop\":[],\"\\u0053top\":[]}}"
    ensures Install(RenderDocument(EventTwinFile()), bin).Ok?
    ensures
      var c := Install(RenderDocument(EventTwinFile()), bin).value;
      |c.changed| == 4 && Parse(c.text).Some? && WiredEvents(Parse(c.text).value.root) == {0, 1, 3}
  {
    hide Parse, InstallFrom, EntryWired, Reached, Failure, RenderDocument, EventTwinFile, ValidDocument, StandingOf;
    EventTwinText();
    EventTwinValid();
    DocumentRead(EventTwinFile());
    EventTwinStands();
    var root := EventTwinFile().root;
    assert WiredEvents(root) == {};
    NoFailure(root, 0, {});
    InstallWires(RenderDocument(EventTwinFile()), EventTwinFile(), bin);
    ThreeWired(Parse(Install(RenderDocument(EventTwinFile()), bin).value.text).value.root);
  }

  lemma ThreeWired(root: Value)
    requires forall k: nat :: k < 4 ==> (EntryWired(root, k) <==> k != 2)
    ensures WiredEvents(root) == {0, 1, 3}
  {
    hide EntryWired;
  }

  lemma EventTwinStands()
    ensures
      var root := EventTwinFile().root;
      IsObject(root) && forall k: nat :: k < 4 ==>
        StandingOf(root, k) == Ready && !EntryWired(root, k) && (Reached(root, k) <==> k != 2)
  {
    hide Decode, StopTwins, EntryAt;
    var root := EventTwinFile().root;
    KeysPlain();
    DecodePlain("hooks");
    NilReads();
    assert LastRaw(root.elems, "hooks") && Count(root.elems, "hooks") == 1 && HooksOf(root) == Object(StopTwins());
    assert Get(root, "hooks") == Some(Object(StopTwins()));
    forall k: nat | k < 4
      ensures StandingOf(root, k) == Ready && !EntryWired(root, k) && (Reached(root, k) <==> k != 2)
    {
      StopTwinsRead(k);
    }
  }

  lemma StopTwinsRead(k: nat)
    requires k < 4
    ensures
      var event := EntryAt(k).event;
      var e := StopTwins();
      && GetIn(e, event) == (if k == 2 then Some(List(Nil)) else None)
      && LastRaw(e, event) == (k != 2)
      && (k == 2 ==> Count(e, event) == 1 && Member(e, event) == List(Nil))
  {
    hide Decode;
    EscapedStopDecodes();
    StopIsPlain();
    DecodePlain("Stop");
    NilReads();
    var event := EntryAt(k).event;
    assert event == "Stop" <==> k == 2;
    var last := Field("\\u0053top", List(Nil), Nil);
    assert Spells(last.name, event) <==> k == 2;
    assert GetIn(last, event) == if k == 2 then Some(List(Nil)) else None;
    assert Count(last, "Stop") == 0;
  }

  lemma StopIsPlain()
    ensures Plain("Stop")
  {}

  lemma EscapedStopDecodes()
    ensures Decode("\\u0053top") == "Stop"
  {
    EscapedFirst("0053", "top");
    CapitalS();
    assert "\\u" + "0053" + "top" == "\\u0053top";
    hide Decode, Unit;
    assert ['S'] + "top" == "Stop";
  }

  lemma CapitalS()
    ensures Unit("0053") == 'S'
  {
    assert CodeUnit("0053") == 0x53;
  }

  /** An escape in front of plain characters. */
  lemma EscapedFirst(hex: string, rest: string)
    requires |hex| == 4 && Plain(rest)
    ensures Decode("\\u" + hex + rest) == [Unit(hex)] + rest
  {
    var b := "\\u" + hex + rest;
    assert b[0] == '\\' && b[1] == 'u' && b[2..6] == hex && b[6..] == rest;
    DecodePlain(rest);
  }

  lemma EventTwinText()
    ensures RenderDocument(EventTwinFile()) == "{\"hooks\":{\"Stop\":[],\"\\u0053top\":[]}}"
  {
    var last := Field("\\u0053top", List(Nil), Nil);
    EmptyListText();
    FieldText("\\u0053top", List(Nil), Nil);
    FieldText("Stop", List(Nil), last);
    FieldText("hooks", Object(StopTwins()), Nil);
    NodeText(Object(StopTwins()));
    NodeText(EventTwinFile().root);
    assert Followed(last) == "," + RenderElems(last);
    EventTwinPieces();
    hide RenderElems, Followed, Render;
    EmptySides(Render(EventTwinFile().root));
  }

  lemma EmptySides(t: string)
    ensures "" + t + "" == t
  {}

  lemma EmptyListText()
    ensures Render(List(Nil)) == "[]" && Followed(Nil) == ""
  {}

  lemma EventTwinPieces()
    ensures
      "{" + ("" + ((JsonKey("hooks") + (("{" + ("" + ((JsonKey("Stop") + ("[]" + ("," + (JsonKey("\\u0053top") + ("[]" + ""))))) + "}"))) + "")) + "}"))
      == "{\"hooks\":{\"Stop\":[],\"\\u0053top\":[]}}"
  {
    hide JsonKey;
    StopTwinsText();
    OneInside("\"Stop\":[],\"\\u0053top\":[]");
  }

  lemma StopTwinsText()
    ensures JsonKey("Stop") + ("[]" + ("," + (JsonKey("\\u0053top") + ("[]" + "")))) == "\"Stop\":[],\"\\u0053top\":[]"
  {}

  lemma OneInside(inner: string)
    ensures "{" + ("" + ((JsonKey("hooks") + (("{" + ("" + (inner + "}"))) + "")) + "}")) == "{\"hooks\":{" + inner + "}}"
  {}

  lemma EventTwinValid()
    ensures ValidDocument(EventTwinFile())
  {
    hide ValidBody, ValidElems, Valid;
    KeysValid();
    EscapedStopValid();
    NilValid(true);
    NilValid(false);
    NodeValid(false, Nil);
    FieldValid("\\u0053top", List(Nil), Nil);
    FieldValid("Stop", List(Nil), Field("\\u0053top", List(Nil), Nil));
    NodeValid(true, StopTwins());
    FieldValid("hooks", Object(StopTwins()), Nil);
    NodeValid(true, Field("hooks", Object(StopTwins()), Nil));
  }

  lemma EscapedStopValid()
    ensures ValidBody("\\u0053top") && ValidBody("Stop")
  {
    PlainBodyValid("Stop");
    PlainBodyValid("top");
    assert "\\u0053top"[6..] == "top";
  }
}
