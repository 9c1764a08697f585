/** The four hook entries and the line each one is written as. */
module HookEntry {
  import opened Json
  import opened Scanner
  import opened Doc

  datatype Entry = Entry(event: string, sub: string, timeout: string, isAsync: bool, status: string)

  /** The table of entries, in the order they are installed. */
  function EntryAt(k: nat): Entry
    requires k < 4
  {
    if k == 0 then Entry("SessionStart", "session-start", "5", false, "memgarden: session start")
    else if k == 1 then Entry("UserPromptSubmit", "recall", "10", false, "memgarden: recalling")
    else if k == 2 then Entry("Stop", "retain", "30", true, "memgarden: retaining")
    else Entry("SessionEnd", "session-end", "5", false, "memgarden: session end")
  }

  // ---------- The line, and its tree ----------

  function JsonKey(key: string): string { "\"" + key + "\":" }

  /** `group_line`; the binary's path is written as a JSON string. */
  function GroupLine(entry: Entry, bin: string): string {
    "{" + JsonKey("hooks") + "[" + HookLine(entry, bin) + "]" + "}"
  }

  function HookLine(entry: Entry, bin: string): string {
    "{" + JsonKey("type") + Quoted("command")
    + "," + JsonKey("command") + Quoted(Escape(bin))
    + "," + JsonKey("args") + "[" + Quoted("hook") + "," + Quoted(entry.sub) + "]"
    + "," + JsonKey("timeout") + entry.timeout
    + (if entry.isAsync then "," + JsonKey("async") + "true" else "")
    + "," + JsonKey("statusMessage") + Quoted(entry.status) + "}"
  }

  /** A member or an item written without whitespace. */
  function Field(key: string, v: Value, rest: Elems): Elems { Cons(Key(key, "", ""), v, "", "", rest) }

  function Item(v: Value, rest: Elems): Elems { Cons(NoLabel, v, "", "", rest) }

  function List(e: Elems): Value { Node(false, "", e) }

  function Object(e: Elems): Value { Node(true, "", e) }

  function StatusField(entry: Entry): Elems {
    Field("statusMessage", Str(entry.status), Nil)
  }

  function LateFields(entry: Entry): Elems {
    Field("timeout", Atom(entry.timeout),
          if entry.isAsync then Field("async", Atom("true"), StatusField(entry)) else StatusField(entry))
  }

  function ArgsOf(entry: Entry): Value { List(Item(Str("hook"), Item(Str(entry.sub), Nil))) }

  function HookTree(entry: Entry, bin: string): Value {
    Object(Field("type", Str("command"), Field("command", Str(Escape(bin)), Field("args", ArgsOf(entry), LateFields(entry)))))
  }

  function GroupTree(entry: Entry, bin: string): Value {
    Object(Field("hooks", List(Item(HookTree(entry, bin), Nil)), Nil))
  }

  // ---------- The line is the tree's text ----------

  function Followed(rest: Elems): string {
    if rest.Nil? then "" else "," + RenderElems(rest)
  }

  lemma FieldText(key: string, v: Value, rest: Elems)
    ensures RenderElems(Field(key, v, rest)) == JsonKey(key) + (Render(v) + Followed(rest))
  {
    hide Render;
    var e := Field(key, v, rest);
    ElemsText(e);
    KeyLabelText(key);
    assert RestText(e) == Followed(rest) by {
      assert "" + RenderElems(rest) == RenderElems(rest);
    }
    assert "" + RestText(e) == RestText(e);
  }

  lemma KeyLabelText(key: string)
    ensures RenderLabel(Key(key, "", "")) == JsonKey(key)
  {
    assert "\"" + key + "\"" + "" + ":" + "" == "\"" + key + "\":";
  }

  lemma ItemText(v: Value, rest: Elems)
    ensures RenderElems(Item(v, rest)) == Render(v) + Followed(rest)
  {
    hide Render;
    var e := Item(v, rest);
    ElemsText(e);
    assert RestText(e) == Followed(rest) by {
      assert "" + RenderElems(rest) == RenderElems(rest);
    }
  }

  lemma ArgsText(entry: Entry)
    ensures Render(ArgsOf(entry)) == "[" + Quoted("hook") + "," + Quoted(entry.sub) + "]"
  {
    hide RenderElems, Quoted;
    var last := Item(Str(entry.sub), Nil);
    ItemText(Str(entry.sub), Nil);
    ItemText(Str("hook"), last);
    Pair(Quoted("hook"), Quoted(entry.sub));
  }

  lemma Pair(a: string, b: string)
    ensures "[" + a + "," + b + "]" == "[" + "" + (a + ("," + (b + ""))) + "]"
  {}

  lemma LateText(entry: Entry)
    ensures RenderElems(LateFields(entry)) ==
            JsonKey("timeout") + entry.timeout + (if entry.isAsync then "," + JsonKey("async") + "true" else "")
            + "," + JsonKey("statusMessage") + Quoted(entry.status)
  {
    hide RenderElems, JsonKey, Quoted;
    var status := StatusField(entry);
    FieldText("statusMessage", Str(entry.status), Nil);
    if entry.isAsync {
      FieldText("async", Atom("true"), status);
      FieldText("timeout", Atom(entry.timeout), Field("async", Atom("true"), status));
      WithAsync(JsonKey("timeout"), entry.timeout, JsonKey("async"), "true", JsonKey("statusMessage"), Quoted(entry.status));
    } else {
      FieldText("timeout", Atom(entry.timeout), status);
      WithoutAsync(JsonKey("timeout"), entry.timeout, JsonKey("statusMessage"), Quoted(entry.status));
    }
  }

  lemma WithAsync(a: string, b: string, c: string, d: string, e: string, f: string)
    ensures a + b + ("," + c + d) + "," + e + f == a + (b + ("," + (c + (d + ("," + (e + (f + "")))))))
  {}

  lemma WithoutAsync(a: string, b: string, e: string, f: string)
    ensures a + b + "" + "," + e + f == a + (b + ("," + (e + (f + ""))))
  {}

  lemma HookText(entry: Entry, bin: string)
    ensures Render(HookTree(entry, bin)) == HookLine(entry, bin)
  {
    hide RenderElems, Escape, LateFields, ArgsOf, Quoted, JsonKey;
    var late := LateFields(entry);
    var args := Field("args", ArgsOf(entry), late);
    var command := Field("command", Str(Escape(bin)), args);
    LateText(entry);
    LateCons(entry);
    ArgsText(entry);
    FieldText("args", ArgsOf(entry), late);
    FieldText("command", Str(Escape(bin)), args);
    FieldText("type", Str("command"), command);
    Four(JsonKey("type"), Quoted("command"), JsonKey("command"), Quoted(Escape(bin)),
         JsonKey("args"), "[", Quoted("hook"), Quoted(entry.sub), RenderElems(late));
    Regroup(HookHead(entry, bin), JsonKey("timeout"), entry.timeout,
            if entry.isAsync then "," + JsonKey("async") + "true" else "",
            JsonKey("statusMessage"), Quoted(entry.status));
  }

  function HookHead(entry: Entry, bin: string): string {
    "{" + JsonKey("type") + Quoted("command")
    + "," + JsonKey("command") + Quoted(Escape(bin))
    + "," + JsonKey("args") + "[" + Quoted("hook") + "," + Quoted(entry.sub) + "]"
  }

  lemma LateCons(entry: Entry)
    ensures LateFields(entry).Cons?
  {}

  lemma Four(a: string, b: string, c: string, d: string, e: string, o: string, f: string, g: string, r: string)
    ensures
      "{" + "" + (a + (b + ("," + (c + (d + ("," + (e + ((o + f + "," + g + "]") + ("," + r))))))))) + "}" ==
      "{" + a + b + "," + c + d + "," + e + o + f + "," + g + "]" + "," + r + "}"
  {}

  lemma Regroup(h: string, a: string, b: string, c: string, d: string, e: string)
    ensures h + "," + a + b + c + "," + d + e + "}" == h + "," + (a + b + c + "," + d + e) + "}"
  {}

  /** The line that is written is the text of the group's tree. */
  lemma GroupText(entry: Entry, bin: string)
    ensures Render(GroupTree(entry, bin)) == GroupLine(entry, bin)
  {
    hide RenderElems, HookTree, HookLine, JsonKey;
    HookText(entry, bin);
    var hook := HookTree(entry, bin);
    var list := List(Item(hook, Nil));
    ItemText(hook, Nil);
    FieldText("hooks", list, Nil);
    Wrapped(JsonKey("hooks"), HookLine(entry, bin));
  }

  lemma Wrapped(k: string, h: string)
    ensures "{" + k + "[" + h + "]" + "}" == "{" + "" + (k + (("[" + "" + (h + "") + "]") + "")) + "}"
  {}

  // ---------- The tree is valid ----------

  predicate PlainBody(b: string) {
    forall k :: 0 <= k < |b| ==> b[k] != '"' && b[k] != '\\' && b[k] >= ' '
  }

  lemma {:induction false} PlainBodyValid(b: string)
    requires PlainBody(b)
    ensures ValidBody(b) && Plain(b)
  {
    if b == "" {
    } else {
      PlainBodyValid(b[1..]);
    }
  }

  lemma EntryBodies(k: nat)
    requires k < 4
    ensures
      var e := EntryAt(k);
      && PlainBody(e.event) && PlainBody(e.sub) && PlainBody(e.status)
      && ValidAtom(e.timeout)
  {
    hide ValidAtom, PlainBody;
    TimeoutsValid();
    EventsPlain();
    SubsPlain();
    StatusesPlain();
  }

  lemma EventsPlain()
    ensures PlainBody("SessionStart") && PlainBody("UserPromptSubmit") && PlainBody("Stop") && PlainBody("SessionEnd")
  {}

  lemma SubsPlain()
    ensures PlainBody("session-start") && PlainBody("recall") && PlainBody("retain") && PlainBody("session-end")
  {}

  lemma StatusesPlain()
    ensures PlainBody("memgarden: session start") && PlainBody("memgarden: recalling")
    ensures PlainBody("memgarden: retaining") && PlainBody("memgarden: session end")
  {}

  lemma TimeoutsValid()
    ensures ValidAtom("5") && ValidAtom("10") && ValidAtom("30")
  {}

  lemma KeysValid()
    ensures ValidBody("hooks") && ValidBody("type") && ValidBody("command") && ValidBody("args")
    ensures ValidBody("hook") && ValidBody("timeout") && ValidBody("async") && ValidBody("statusMessage")
  {
    hide ValidBody;
    PlainBodyValid("hooks");
    PlainBodyValid("type");
    PlainBodyValid("command");
    PlainBodyValid("args");
    PlainBodyValid("hook");
    PlainBodyValid("timeout");
    PlainBodyValid("async");
    PlainBodyValid("statusMessage");
  }

  lemma FieldValid(key: string, v: Value, rest: Elems)
    requires ValidBody(key) && Valid(v) && ValidElems(rest, true)
    ensures ValidElems(Field(key, v, rest), true)
  {
    hide ValidBody, Valid;
  }

  lemma ItemValid(v: Value, rest: Elems)
    requires Valid(v) && ValidElems(rest, false)
    ensures ValidElems(Item(v, rest), false)
  {
    hide ValidBody, Valid;
  }

  lemma NodeValid(isObject: bool, e: Elems)
    requires ValidElems(e, isObject)
    ensures Valid(Node(isObject, "", e))
  {
    hide ValidElems;
  }

  lemma NilValid(isObject: bool)
    ensures ValidElems(Nil, isObject)
  {}

  lemma ScalarsValid(body: string, atom: string)
    requires ValidBody(body) && ValidAtom(atom)
    ensures Valid(Str(body)) && Valid(Atom(atom)) && ValidAtom("true")
  {}

  lemma LateValid(entry: Entry)
    requires ValidBody(entry.status) && ValidAtom(entry.timeout)
    ensures ValidElems(LateFields(entry), true)
  {
    hide ValidBody, ValidAtom, Valid, ValidElems, Field;
    KeysValid();
    NilValid(true);
    ScalarsValid(entry.status, entry.timeout);
    ScalarsValid("hooks", "true");
    FieldValid("statusMessage", Str(entry.status), Nil);
    if entry.isAsync {
      FieldValid("async", Atom("true"), StatusField(entry));
      FieldValid("timeout", Atom(entry.timeout), Field("async", Atom("true"), StatusField(entry)));
    } else {
      FieldValid("timeout", Atom(entry.timeout), StatusField(entry));
    }
  }

  lemma ArgsValid(entry: Entry)
    requires ValidBody(entry.sub)
    ensures Valid(ArgsOf(entry))
  {
    hide ValidBody, ValidAtom, Valid, ValidElems, Item;
    KeysValid();
    NilValid(false);
    TrueValid();
    ScalarsValid("hook", "true");
    ScalarsValid(entry.sub, "true");
    ItemValid(Str(entry.sub), Nil);
    ItemValid(Str("hook"), Item(Str(entry.sub), Nil));
    NodeValid(false, Item(Str("hook"), Item(Str(entry.sub), Nil)));
  }

  lemma TrueValid()
    ensures ValidAtom("true")
  {}

  predicate IsGroup(v: Value) { v.Node? && v.isObject }

  lemma GroupValid(k: nat, bin: string)
    requires k < 4
    ensures Valid(GroupTree(EntryAt(k), bin)) && Valid(HookTree(EntryAt(k), bin))
    ensures IsGroup(GroupTree(EntryAt(k), bin))
  {
    hide ValidBody, ValidAtom, Valid, ValidElems, Field, Item, LateFields, ArgsOf, PlainBody, EntryAt, Escape;
    var entry := EntryAt(k);
    EntryBodies(k);
    PlainBodyValid(entry.sub);
    PlainBodyValid(entry.status);
    KeysValid();
    TrueValid();
    NilValid(true);
    NilValid(false);
    EscapeRoundTrip(bin);
    ScalarsValid("command", "true");
    ScalarsValid(Escape(bin), "true");
    LateValid(entry);
    ArgsValid(entry);
    var args := Field("args", ArgsOf(entry), LateFields(entry));
    FieldValid("args", ArgsOf(entry), LateFields(entry));
    var command := Field("command", Str(Escape(bin)), args);
    FieldValid("command", Str(Escape(bin)), args);
    FieldValid("type", Str("command"), command);
    NodeValid(true, Field("type", Str("command"), command));
    var hook := HookTree(entry, bin);
    ItemValid(hook, Nil);
    NodeValid(false, Item(hook, Nil));
    FieldValid("hooks", List(Item(hook, Nil)), Nil);
    NodeValid(true, Field("hooks", List(Item(hook, Nil)), Nil));
  }
}
