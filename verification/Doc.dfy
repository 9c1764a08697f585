/**
 What the settings editor reads from a parsed file: member lookup on decoded
 keys (the last member wins, as in `serde_json`'s map) and which hook events
 carry one of the editor's own entries.
 */
module Doc {
  import opened Wrappers
  import opened Json

  // ---------- Strings ----------

  function HexValue(c: char): nat {
    if '0' <= c <= '9' then c as int - '0' as int
    else if 'a' <= c <= 'f' then c as int - 'a' as int + 10
    else if 'A' <= c <= 'F' then c as int - 'A' as int + 10
    else 0
  }

  function CodeUnit(h: string): nat
    requires |h| == 4
  {
    ((HexValue(h[0]) * 16 + HexValue(h[1])) * 16 + HexValue(h[2])) * 16 + HexValue(h[3])
  }

  /** The character an escape with four hex digits stands for. Every name the
      editor looks for is ASCII, so one stand-in serves for all the rest. */
  function Unit(h: string): char
    requires |h| == 4
  {
    if CodeUnit(h) < 128 then CodeUnit(h) as char else '\U{FFFD}'
  }

  function Unescaped(c: char): char {
    match c
    case 'b' => '\U{0008}'
    case 'f' => '\U{000C}'
    case 'n' => '\n'
    case 'r' => '\r'
    case 't' => '\t'
    case _ => c
  }

  /** The characters a string's body stands for. */
  function Decode(b: string): string {
    if b == "" then ""
    else if b[0] == '\\' && |b| >= 6 && b[1] == 'u' then [Unit(b[2..6])] + Decode(b[6..])
    else if b[0] == '\\' && |b| >= 2 then [Unescaped(b[1])] + Decode(b[2..])
    else [b[0]] + Decode(b[1..])
  }

  predicate Plain(b: string) { '\\' !in b }

  lemma {:induction false} DecodePlain(b: string)
    requires Plain(b)
    ensures Decode(b) == b
  {
    if b == "" {
    } else {
      assert b[0] in b;
      assert forall c :: c in b[1..] ==> c in b;
      DecodePlain(b[1..]);
      assert b == [b[0]] + b[1..];
    }
  }

  function HexDigit(n: nat): char
    requires n < 16
  {
    if n < 10 then ('0' as int + n) as char else ('a' as int + n - 10) as char
  }

  /** How `serde_json::to_string` writes one character of a string. */
  function EscapeChar(c: char): string {
    if c == '"' then "\\\""
    else if c == '\\' then "\\\\"
    else if c == '\U{0008}' then "\\b"
    else if c == '\t' then "\\t"
    else if c == '\n' then "\\n"
    else if c == '\U{000C}' then "\\f"
    else if c == '\r' then "\\r"
    else if c < ' ' then "\\u00" + [HexDigit(c as int / 16), HexDigit(c as int % 16)]
    else [c]
  }

  function Escape(p: string): string {
    if p == "" then "" else EscapeChar(p[0]) + Escape(p[1..])
  }

  lemma EscapeCharReads(c: char, tail: string)
    requires ValidBody(tail)
    ensures ValidBody(EscapeChar(c) + tail)
    ensures Decode(EscapeChar(c) + tail) == [c] + Decode(tail)
  {
    if |EscapeChar(c)| == 6 {
      LongEscapeReads(c, tail);
    } else if |EscapeChar(c)| == 2 {
      assert (EscapeChar(c) + tail)[2..] == tail;
    } else {
      assert (EscapeChar(c) + tail)[1..] == tail;
    }
  }

  lemma LongEscapeReads(c: char, tail: string)
    requires ValidBody(tail) && |EscapeChar(c)| == 6
    ensures ValidBody(EscapeChar(c) + tail)
    ensures Decode(EscapeChar(c) + tail) == [c] + Decode(tail)
  {
    var b := EscapeChar(c) + tail;
    assert b[6..] == tail;
    assert CodeUnit(b[2..6]) == c as int;
    assert b[0] == '\\' && b[1] == 'u' && IsHex(b[2]) && IsHex(b[3]) && IsHex(b[4]) && IsHex(b[5]);
  }

  /** A path written by `serde_json` is a valid string body and reads back as
      the path, whatever quotes, backslashes and control bytes it holds. */
  lemma {:induction false} EscapeRoundTrip(p: string)
    ensures ValidBody(Escape(p)) && Decode(Escape(p)) == p
  {
    if p == "" {
    } else {
      EscapeRoundTrip(p[1..]);
      EscapeCharReads(p[0], Escape(p[1..]));
      assert p == [p[0]] + p[1..];
    }
  }

  // ---------- Members ----------

  predicate Spells(l: Label, key: string) {
    l.Key? && Decode(l.raw) == key
  }

  /** The last member whose decoded key is `key`. */
  function GetIn(e: Elems, key: string): Option<Value> {
    if e.Nil? then None
    else if GetIn(e.rest, key).Some? then GetIn(e.rest, key)
    else if Spells(e.name, key) then Some(e.value)
    else None
  }

  /** `serde_json::Value::get` with a string index. */
  function Get(v: Value, key: string): Option<Value> {
    if v.Node? && v.isObject then GetIn(v.elems, key) else None
  }

  function Second(e: Elems): Option<Value> {
    if e.Cons? && e.rest.Cons? then Some(e.rest.value) else None
  }

  // ---------- Wired events ----------

  predicate StartsWith(s: string, prefix: string) { prefix <= s }

  /** A hook object of ours: our status message and the event's subcommand. */
  predicate IsOurs(hook: Value, sub: string) {
    && (match Get(hook, "statusMessage")
        case Some(Str(body)) => StartsWith(Decode(body), "memgarden: ")
        case _ => false)
    && (match Get(hook, "args")
        case Some(Node(false, _, args)) =>
          (match Second(args)
           case Some(Str(body)) => Decode(body) == sub
           case _ => false)
        case _ => false)
  }

  predicate AnyHook(hooks: Elems, sub: string) {
    hooks.Cons? && (IsOurs(hooks.value, sub) || AnyHook(hooks.rest, sub))
  }

  predicate GroupHasOurs(group: Value, sub: string) {
    match Get(group, "hooks")
    case Some(Node(false, _, hooks)) => AnyHook(hooks, sub)
    case _ => false
  }

  predicate AnyGroup(groups: Elems, sub: string) {
    groups.Cons? && (GroupHasOurs(groups.value, sub) || AnyGroup(groups.rest, sub))
  }

  predicate EventHasOurs(groups: Option<Value>, sub: string) {
    match groups
    case Some(Node(false, _, gs)) => AnyGroup(gs, sub)
    case _ => false
  }

  /** `hooks.<event>[].hooks[]` of the file holds one of our entries. */
  predicate Wired(root: Value, event: string, sub: string) {
    match Get(root, "hooks")
    case None => false
    case Some(hooks) => EventHasOurs(Get(hooks, event), sub)
  }
}
