/**
 `install` and `uninstall` of the hook entries by splicing bytes into a
 settings file, and the scans that decide where.
 */
module Settings {
  import opened Wrappers
  import opened Json
  import opened Scanner
  import opened Members
  import opened Parser
  import opened Doc
  import opened HookEntry
  import opened Edits

  datatype SettingsError =
    | ParseError
    | NotAnObject
    | Unlocatable(key: string)
    | WrongType(key: string)
    | DuplicateKey(key: string)
    | WouldCorrupt
    | Residual(count: nat)

  /** A finished edit: the file as it would be written, and one line of report
      for each entry that went in or came out. */
  datatype Change = Change(text: string, changed: seq<string>)

  // ---------- Where to insert, and what ----------

  predicate IsObject(v: Value) { v.Node? && v.isObject }

  predicate IsArray(v: Value) { v.Node? && !v.isObject }

  /** What joins a new first element to what stands behind the bracket at
      `open`: nothing in front of a closing bracket or the end of the text. */
  function TrailingComma(s: string, open: nat): string {
    var next := SkipWs(s, open + 1);
    if next < |s| && s[next] != '}' && s[next] != ']' then "," else ""
  }

  function SkipInline(s: string, i: nat): (j: nat)
    requires i <= |s|
    ensures i <= j <= |s|
    ensures forall k :: i <= k < j ==> s[k] == ' ' || s[k] == '\t'
    ensures j < |s| ==> s[j] != ' ' && s[j] != '\t'
    decreases |s| - i
  {
    if i < |s| && (s[i] == ' ' || s[i] == '\t') then SkipInline(s, i + 1) else i
  }

  /** The offset of the last line feed before `end`. */
  function LastNewline(s: string, end: nat): (r: Option<nat>)
    requires end <= |s|
    ensures r.Some? ==> r.value < end && s[r.value] == '\n' && forall k :: r.value < k < end ==> s[k] != '\n'
    ensures r.None? ==> forall k :: 0 <= k < end ==> s[k] != '\n'
  {
    if end == 0 then None else if s[end - 1] == '\n' then Some(end - 1) else LastNewline(s, end - 1)
  }

  /** The indentation of the first line inside the container, else two more
      than the indentation of the line the container opens on. */
  function InnerIndent(s: string, afterOpen: nat): string
    requires afterOpen <= |s|
  {
    var i := SkipInline(s, afterOpen);
    var j := if i < |s| && s[i] == '\n' then SkipInline(s, i + 1) else 0;
    if i < |s| && s[i] == '\n' && j > i + 1 then s[i + 1..j]
    else
      var lineStart := match LastNewline(s, afterOpen) case None => 0 case Some(p) => p + 1;
      s[lineStart..SkipInline(s, lineStart)] + "  "
  }

  predicate HasCrLf(s: string) {
    exists k :: 0 <= k < |s| - 1 && s[k] == '\r' && s[k + 1] == '\n'
  }

  function LineEnding(s: string): string {
    if HasCrLf(s) then "\r\n" else "\n"
  }

  function EventChunk(event: string, line: string): string {
    "\"" + event + "\": [" + line + "]"
  }

  function HooksChunk(event: string, line: string): string {
    "\"hooks\": {" + EventChunk(event, line) + "}"
  }

  /** Where the entry of `event` goes and what is written there: the group
      into the event's array, the event into `hooks`, or `hooks` into the
      document, the first of these that is possible. */
  function Insertion(s: string, root: Value, event: string, line: string): Result<(nat, string), SettingsError> {
    var at := SkipWs(s, 0);
    match Get(root, "hooks")
    case None => Ok((at + 1, HooksChunk(event, line) + TrailingComma(s, at)))
    case Some(hooks) =>
      if !IsObject(hooks) then Err(WrongType("hooks")) else
      match FindMember(s, at, "hooks")
      case NotFound => Err(Unlocatable("hooks"))
      case Duplicate => Err(DuplicateKey("hooks"))
      case Found(hooksAt) => InsertionInHooks(s, hooks, hooksAt, event, line)
  }

  function InsertionInHooks(s: string, hooks: Value, hooksAt: nat, event: string, line: string)
    : Result<(nat, string), SettingsError>
  {
    match Get(hooks, event)
    case None => Ok((hooksAt + 1, EventChunk(event, line) + TrailingComma(s, hooksAt)))
    case Some(groups) =>
      if !IsArray(groups) then Err(WrongType(event)) else
      match FindMember(s, hooksAt, event)
      case NotFound => Err(Unlocatable(event))
      case Duplicate => Err(DuplicateKey(event))
      case Found(eventAt) => Ok((eventAt + 1, line + TrailingComma(s, eventAt)))
  }

  /** On a text that parses, the insertion point lies in the text. */
  lemma FindMemberInBounds(s: string, i: nat, v: Value, key: string)
    requires Valid(v) && Holds(s, i, Render(v)) && FindMember(s, i, key).Found?
    ensures v.Node? && v.isObject && Count(v.elems, key) == 1
    ensures Holds(s, FindMember(s, i, key).at, Render(Member(v.elems, key))) && Valid(Member(v.elems, key))
    ensures FindMember(s, i, key).at < |s|
  {
    hide Holds, Render, RenderElems, Stands, MemberAt, FindMember;
    FindMemberAgrees(s, i, v, key);
    StandsInNode(s, i, v);
    MemberStands(s, i + 1 + |v.pre|, v.elems, v.isObject, key);
    FirstOfValue(s, FindMember(s, i, key).at, Member(v.elems, key));
  }

  lemma RootStands(s: string, d: Document)
    requires Parse(s) == Some(d)
    ensures ValidDocument(d) && RenderDocument(d) == s
    ensures SkipWs(s, 0) == |d.lead| && |d.lead| < |s|
    ensures Holds(s, |d.lead|, Render(d.root)) && Valid(d.root)
  {
    hide Render, RenderDocument, Parse, Holds, SkipWs;
    ParseExactly(s, d);
    DocumentText(d);
    FirstOfValue(s, |d.lead|, d.root);
    SkipSpaces(s, 0, d.lead);
  }

  lemma InsertionInBounds(s: string, d: Document, event: string, line: string)
    requires Parse(s) == Some(d) && Insertion(s, d.root, event, line).Ok?
    ensures Insertion(s, d.root, event, line).value.0 <= |s|
  {
    hide Render, RenderDocument, Parse, Holds, Get, FindMember, SkipWs, Count, Member, TrailingComma, Valid;
    RootStands(s, d);
    var hooks := Get(d.root, "hooks");
    if hooks.Some? {
      FindMemberInBounds(s, |d.lead|, d.root, "hooks");
      var hooksAt := FindMember(s, |d.lead|, "hooks").at;
      if Get(hooks.value, event).Some? {
        FindMemberInBounds(s, hooksAt, Member(d.root.elems, "hooks"), event);
      }
    }
  }

  // ---------- Install ----------

  predicate EntryWired(root: Value, k: nat)
    requires k < 4
  {
    Wired(root, EntryAt(k).event, EntryAt(k).sub)
  }

  /** The events that carry an entry of ours, by their place in the table. */
  function WiredEvents(root: Value): set<nat> {
    set k: nat | k < 4 && EntryWired(root, k)
  }

  /** One entry's splice: the text with the entry in it, and the line added. */
  function InstallEntry(text: string, k: nat, bin: string): Result<(string, string), SettingsError>
    requires k < 4
  {
    match Parse(text)
    case None => Err(ParseError)
    case Some(d) =>
      var entry := EntryAt(k);
      match Insertion(text, d.root, entry.event, GroupLine(entry, bin))
      case Err(e) => Err(e)
      case Ok((at, chunk)) =>
        InsertionInBounds(text, d, entry.event, GroupLine(entry, bin));
        var indent := InnerIndent(text, at);
        Ok((Splice(text, at, LineEnding(text) + indent + chunk), indent + chunk))
  }

  function InstallFrom(text: string, k: nat, already: set<nat>, bin: string, changed: seq<string>)
    : Result<Change, SettingsError>
    requires k <= 4
    decreases 4 - k
  {
    if k == 4 then Ok(Change(text, changed))
    else if k in already then InstallFrom(text, k + 1, already, bin, changed)
    else
      match InstallEntry(text, k, bin)
      case Err(e) => Err(e)
      case Ok((next, line)) => InstallFrom(next, k + 1, already, bin, changed + [line])
  }

  function Install(src: string, bin: string): Result<Change, SettingsError> {
    match Parse(src)
    case None => Err(ParseError)
    case Some(d) =>
      if !IsObject(d.root) then Err(NotAnObject) else
      match InstallFrom(src, 0, WiredEvents(d.root), bin, [])
      case Err(e) => Err(e)
      case Ok(c) =>
        if c.changed == [] then Ok(Change(src, []))
        else if Parse(c.text).None? then Err(WouldCorrupt)
        else Ok(c)
  }

  method InstallHooks(src: string, bin: string) returns (r: Result<Change, SettingsError>)
    ensures r == Install(src, bin)
  {
    hide Parse, Insertion, InnerIndent, LineEnding, GroupLine, EntryAt, WiredEvents, Splice;
    var doc := Parse(src);
    if doc.None? {
      return Err(ParseError);
    }
    if !IsObject(doc.value.root) {
      return Err(NotAnObject);
    }
    var already := WiredEvents(doc.value.root);
    var text := src;
    var changed: seq<string> := [];
    var k := 0;
    while k < 4
      invariant k <= 4
      invariant InstallFrom(src, 0, already, bin, []) == InstallFrom(text, k, already, bin, changed)
    {
      if k !in already {
        ghost var before := text;
        var entry := EntryAt(k);
        var line := GroupLine(entry, bin);
        var current := Parse(text);
        if current.None? {
          return Err(ParseError);
        }
        var place := Insertion(text, current.value.root, entry.event, line);
        if place.Err? {
          return Err(place.error);
        }
        var (at, chunk) := place.value;
        InsertionInBounds(text, current.value, entry.event, line);
        var indent := InnerIndent(text, at);
        var newline := LineEnding(text);
        text := Splice(text, at, newline + indent + chunk);
        changed := changed + [indent + chunk];
        assert InstallEntry(before, k, bin) == Ok((text, indent + chunk));
      }
      k := k + 1;
    }
    if changed == [] {
      return Ok(Change(src, []));
    }
    var valid := Parse(text);
    if valid.None? {
      return Err(WouldCorrupt);
    }
    r := Ok(Change(text, changed));
  }

  // ---------- Finding what to remove ----------

  const KEY := "statusMessage"
  const VALUE_PREFIX := "\"memgarden: "

  /** A `"statusMessage"` key whose value begins with our prefix stands at `p`,
      with any whitespace around the colon. */
  predicate MarkerAt(s: string, p: int) {
    && Holds(s, p, Quoted(KEY))
    && var colon := SkipWs(s, p + |KEY| + 2);
       && colon < |s| && s[colon] == ':'
       && Holds(s, SkipWs(s, colon + 1), VALUE_PREFIX)
  }

  function FindMarker(s: string, start: nat): (r: Option<nat>)
    ensures r.Some? ==> start <= r.value < |s| && MarkerAt(s, r.value)
    ensures r.Some? ==> forall p :: start <= p < r.value ==> !MarkerAt(s, p)
    ensures r.None? ==> forall p :: start <= p ==> !MarkerAt(s, p)
    decreases |s| - start
  {
    if start >= |s| then None
    else if MarkerAt(s, start) then Some(start)
    else FindMarker(s, start + 1)
  }

  /** The next occurrence of the key's bytes at or after `from`. */
  method FindKey(s: string, from: nat) returns (r: Option<nat>)
    requires from <= |s|
    ensures r.Some? ==> from <= r.value && Holds(s, r.value, Quoted(KEY))
    ensures forall p :: from <= p < (if r.Some? then r.value else |s|) ==> !Holds(s, p, Quoted(KEY))
  {
    var i := from;
    while i < |s|
      invariant from <= i <= |s|
      invariant forall p :: from <= p < i ==> !Holds(s, p, Quoted(KEY))
    {
      if Holds(s, i, Quoted(KEY)) {
        return Some(i);
      }
      i := i + 1;
    }
    r := None;
  }

  lemma MarkerInText(s: string, p: int)
    requires MarkerAt(s, p)
    ensures 0 <= p < |s|
  {}

  lemma {:induction false} FindMarkerUnique(s: string, start: nat, p: nat)
    requires start <= p && MarkerAt(s, p) && forall q :: start <= q < p ==> !MarkerAt(s, q)
    ensures FindMarker(s, start) == Some(p)
  {
    hide MarkerAt;
    MarkerInText(s, p);
    var r := FindMarker(s, start);
  }

  method FindMarkerScan(s: string, start: nat) returns (r: Option<nat>)
    ensures r == FindMarker(s, start)
  {
    hide Holds, SkipWs, Quoted;
    var from := if start <= |s| then start else |s|;
    while true
      invariant from <= |s|
      invariant start <= |s| ==> start <= from
      invariant forall p :: start <= p < from ==> !MarkerAt(s, p)
      decreases |s| - from
    {
      var rel := FindKey(s, from);
      if rel.None? {
        NoKeyNoMarker(s, start, from);
        return None;
      }
      var colon := SkipWsScan(s, rel.value + |KEY| + 2);
      if colon < |s| && s[colon] == ':' {
        var value := SkipWsScan(s, colon + 1);
        if Holds(s, value, VALUE_PREFIX) {
          FindMarkerUnique(s, start, rel.value);
          return Some(rel.value);
        }
      }
      KeyInText(s, rel.value);
      from := rel.value + 1;
    }
  }

  lemma KeyInText(s: string, p: nat)
    requires Holds(s, p, Quoted(KEY))
    ensures p < |s|
  {}

  lemma NoKeyNoMarker(s: string, start: nat, from: nat)
    requires forall p :: start <= p < from ==> !MarkerAt(s, p)
    requires forall p :: from <= p < |s| ==> !Holds(s, p, Quoted(KEY))
    ensures FindMarker(s, start) == None
  {
    var r := FindMarker(s, start);
  }

  /** How many times `pat` stands in `s[from..end]`. */
  function CountIn(s: string, from: nat, end: nat, pat: string): nat
    decreases end - from
  {
    if from >= end then 0
    else (if from + |pat| <= end && Holds(s, from, pat) then 1 else 0) + CountIn(s, from + 1, end, pat)
  }

  /** Past an item or a keyed member at `start`, and past a comma if that is
      the very next byte. */
  function ChunkEnd(s: string, start: nat): (r: Option<nat>)
    ensures r.Some? ==> start < r.value <= |s|
  {
    var value :=
      if start < |s| && s[start] == '"' then
        match ScanKey(s, start)
        case None => None
        case Some(k) => Some(k.value)
      else Some(start);
    match value
    case None => None
    case Some(i) =>
      match SkipValue(s, i)
      case None => None
      case Some(end) => if end < |s| && s[end] == ',' then Some(end + 1) else Some(end)
  }

  predicate KnownKey(key: string) {
    key == "hooks" || exists k: nat :: k < 4 && EntryAt(k).event == key
  }

  /** Whether a chunk of ours can start at `lineStart`: a group, or a wrapper
      whose key we could have written. */
  predicate ChunkStarts(s: string, lineStart: nat) {
    lineStart < |s|
    && (s[lineStart] == '{'
        || (s[lineStart] == '"'
            && match SkipString(s, lineStart)
               case None => false
               case Some(end) => KnownKey(s[lineStart + 1..end - 1])))
  }

  /** The span to delete for the marker at `marker`: from the line ending in
      front of the chunk to the comma behind it. */
  function ChunkSpan(s: string, marker: nat): (r: Option<(nat, nat)>)
    requires marker <= |s|
    ensures r.Some? ==> r.value.0 < marker < r.value.1 <= |s|
  {
    match LastNewline(s, marker)
    case None => None
    case Some(newline) =>
      var lineStart := SkipInline(s, newline + 1);
      var start := if newline > 0 && s[newline - 1] == '\r' then newline - 1 else newline;
      if !ChunkStarts(s, lineStart) then None else
      match ChunkEnd(s, lineStart)
      case None => None
      case Some(end) =>
        if !(lineStart <= marker < end) then None
        else if CountIn(s, lineStart, end, "\"command\":") != 1 then None
        else Some((start, end))
  }

  // ---------- Uninstall ----------

  function TrimStart(s: string): string { s[SkipWs(s, 0)..] }

  function UninstallFrom(text: string, from: nat, changed: seq<string>): Change
    decreases |text|, |text| - from
  {
    match FindMarker(text, from)
    case None => Change(text, changed)
    case Some(m) =>
      match ChunkSpan(text, m)
      case None => UninstallFrom(text, m + 1, changed)
      case Some((start, end)) =>
        UninstallFrom(text[..start] + text[end..], 0, changed + [TrimStart(text[start..end])])
  }

  function ResidualCount(text: string): nat {
    match Parse(text)
    case None => 0
    case Some(d) => |WiredEvents(d.root)|
  }

  function Uninstall(src: string): Result<Change, SettingsError> {
    if Parse(src).None? then Err(ParseError) else
    var c := UninstallFrom(src, 0, []);
    if ResidualCount(c.text) > 0 then Err(Residual(ResidualCount(c.text)))
    else if c.changed == [] then Ok(Change(src, []))
    else if Parse(c.text).None? then Err(WouldCorrupt)
    else Ok(c)
  }

  method UninstallHooks(src: string) returns (r: Result<Change, SettingsError>)
    ensures r == Uninstall(src)
  {
    hide Parse, ResidualCount, TrimStart, ChunkSpan, MarkerAt;
    var doc := Parse(src);
    if doc.None? {
      return Err(ParseError);
    }
    var text := src;
    var changed: seq<string> := [];
    var from := 0;
    var m := FindMarkerScan(text, from);
    while m.Some?
      invariant m == FindMarker(text, from)
      invariant UninstallFrom(src, 0, []) == UninstallFrom(text, from, changed)
      decreases |text|, |text| - from
    {
      var span := ChunkSpan(text, m.value);
      if span.None? {
        from := m.value + 1;
      } else {
        var (start, end) := span.value;
        changed := changed + [TrimStart(text[start..end])];
        text := text[..start] + text[end..];
        from := 0;
      }
      m := FindMarkerScan(text, from);
    }
    assert UninstallFrom(text, from, changed) == Change(text, changed);
    var residual := ResidualCount(text);
    if residual > 0 {
      return Err(Residual(residual));
    }
    if changed == [] {
      return Ok(Change(src, []));
    }
    var valid := Parse(text);
    if valid.None? {
      return Err(WouldCorrupt);
    }
    r := Ok(Change(text, changed));
  }
}
