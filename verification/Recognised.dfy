/**
 Which entries count as the editor's own: what makes an event wired, and what a
 line must be for uninstall to take it out.
 */
module Recognised {
  import opened Wrappers
  import opened Json
  import opened Scanner
  import opened Parser
  import opened Doc
  import opened HookEntry
  import opened Settings
  import opened Cut

  // ---------- Wired events ----------

  predicate Among(v: Value, e: Elems) {
    e.Cons? && (e.value == v || Among(v, e.rest))
  }

  /** `v` is an item of the array that `x` is, if it is one. */
  predicate ItemOf(v: Value, x: Option<Value>) {
    x.Some? && IsArray(x.value) && Among(v, x.value.elems)
  }

  /** A hook with our status message that passes the subcommand second. */
  ghost predicate Ours(hook: Value, sub: string) {
    && (exists body: string, rest: string :: Get(hook, "statusMessage") == Some(Str(body)) && Decode(body) == "memgarden: " + rest)
    && (exists args: Elems, body: string ::
          && Get(hook, "args").Some? && IsArray(Get(hook, "args").value) && Get(hook, "args").value.elems == args
          && args.Cons? && args.rest.Cons? && args.rest.value == Str(body) && Decode(body) == sub)
  }

  lemma OursIs(hook: Value, sub: string)
    ensures IsOurs(hook, sub) <==> Ours(hook, sub)
  {
    hide Get, Decode;
    var status, args := Get(hook, "statusMessage"), Get(hook, "args");
    if IsOurs(hook, sub) {
      var text := Decode(status.value.body);
      assert text == "memgarden: " + text[11..];
      assert IsArray(args.value) && args.value.elems.rest.value == Str(args.value.elems.rest.value.body);
    }
    if Ours(hook, sub) {
      var body: string, rest: string :| status == Some(Str(body)) && Decode(body) == "memgarden: " + rest;
    }
  }

  lemma {:induction false} AnyHookIs(hooks: Elems, sub: string)
    ensures AnyHook(hooks, sub) <==> exists hook :: Among(hook, hooks) && Ours(hook, sub)
  {
    hide Ours;
    if hooks.Cons? {
      AnyHookIs(hooks.rest, sub);
      OursIs(hooks.value, sub);
      if AnyHook(hooks.rest, sub) {
        var hook :| Among(hook, hooks.rest) && Ours(hook, sub);
        assert Among(hook, hooks);
      }
    }
  }

  /** The group has a hook of ours. */
  ghost predicate Carries(group: Value, sub: string) {
    exists hook :: ItemOf(hook, Get(group, "hooks")) && Ours(hook, sub)
  }

  lemma CarriesIs(group: Value, sub: string)
    ensures GroupHasOurs(group, sub) <==> Carries(group, sub)
  {
    hide Ours, Get, Among, AnyHook;
    var hooks := Get(group, "hooks");
    if hooks.Some? && IsArray(hooks.value) {
      AnyHookIs(hooks.value.elems, sub);
      if GroupHasOurs(group, sub) {
        var hook :| Among(hook, hooks.value.elems) && Ours(hook, sub);
        assert ItemOf(hook, hooks);
      }
    }
  }

  lemma {:induction false} AnyGroupIs(groups: Elems, sub: string)
    ensures AnyGroup(groups, sub) <==> exists group :: Among(group, groups) && Carries(group, sub)
  {
    hide Carries, GroupHasOurs;
    if groups.Cons? {
      AnyGroupIs(groups.rest, sub);
      CarriesIs(groups.value, sub);
      if AnyGroup(groups.rest, sub) {
        var group :| Among(group, groups.rest) && Carries(group, sub);
        assert Among(group, groups);
      }
    }
  }

  /** An event is wired exactly when one of its groups has a hook of ours. */
  lemma WiredExactly(root: Value, event: string, sub: string)
    ensures Wired(root, event, sub) <==>
            exists group :: Get(root, "hooks").Some? && ItemOf(group, Get(Get(root, "hooks").value, event)) && Carries(group, sub)
  {
    hide Get, Among, AnyGroup, Carries;
    var hooks := Get(root, "hooks");
    if hooks.Some? {
      var groups := Get(hooks.value, event);
      if groups.Some? && IsArray(groups.value) {
        AnyGroupIs(groups.value.elems, sub);
        if Wired(root, event, sub) {
          var group :| Among(group, groups.value.elems) && Carries(group, sub);
          assert ItemOf(group, groups);
        }
      }
    }
  }

  // ---------- What uninstall takes out ----------

  /** Where `pat` stands in `s[from..end]`. */
  function Occurrences(s: string, from: nat, end: nat, pat: string): set<nat> {
    set p: nat | from <= p < end && p + |pat| <= end && Holds(s, p, pat)
  }

  lemma {:induction false} CountsOccurrences(s: string, from: nat, end: nat, pat: string)
    ensures CountIn(s, from, end, pat) == |Occurrences(s, from, end, pat)|
    decreases end - from
  {
    hide Holds;
    if from >= end {
    } else {
      CountsOccurrences(s, from + 1, end, pat);
      var more := Occurrences(s, from + 1, end, pat);
      assert Occurrences(s, from, end, pat) == if from + |pat| <= end && Holds(s, from, pat) then more + {from} else more;
    }
  }

  lemma {:induction false} CountInPart(s: string, from: nat, at: nat, end: nat, pat: string)
    requires at <= from && at <= |s| && end <= |s|
    ensures CountIn(s[at..], from - at, if at <= end then end - at else 0, pat) == CountIn(s, from, end, pat)
    decreases end - from
  {
    hide Holds;
    if from < end {
      CountInPart(s, from + 1, at, end, pat);
      HoldsInPart(s, from, at, pat);
    }
  }

  lemma HoldsInPart(s: string, p: nat, at: nat, pat: string)
    requires at <= p <= |s|
    ensures Holds(s[at..], p - at, pat) <==> Holds(s, p, pat)
  {
    if p + |pat| <= |s| {
      assert s[at..][p - at..p - at + |pat|] == s[p..p + |pat|];
    }
  }

  lemma {:induction false} CountInPrefix(s: string, from: nat, end: nat, pat: string)
    requires end <= |s|
    ensures CountIn(s[..end], from, end, pat) == CountIn(s, from, end, pat)
    decreases end - from
  {
    if from < end {
      CountInPrefix(s, from + 1, end, pat);
      if from + |pat| <= end {
        assert s[..end][from..from + |pat|] == s[from..from + |pat|];
      }
    }
  }

  /** A line that may be one of ours: a group, or one of the five keys that
      install writes, with exactly one command in it. */
  ghost predicate LikeOurs(line: string) {
    && (|| (line != "" && line[0] == '{')
        || exists key :: key in {"hooks", "SessionStart", "UserPromptSubmit", "Stop", "SessionEnd"} && Holds(line, 0, Quoted(key)))
    && |Occurrences(line, 0, |line|, "\"command\":")| == 1
  }

  lemma KnownKeys(key: string)
    ensures KnownKey(key) <==> key in {"hooks", "SessionStart", "UserPromptSubmit", "Stop", "SessionEnd"}
  {
    assert EntryAt(0).event == "SessionStart" && EntryAt(1).event == "UserPromptSubmit" && EntryAt(2).event == "Stop"
        && EntryAt(3).event == "SessionEnd";
  }

  /** What is cut is a line break, blanks, and a line like ours with the marker
      in it. */
  lemma SpanParts(s: string, m: nat) returns (nl: string, indent: string)
    requires m <= |s| && ChunkSpan(s, m).Some?
    ensures
      var (start, end) := ChunkSpan(s, m).value;
      var line := TrimStart(s[start..end]);
      && nl in {"\n", "\r\n"} && (forall k :: 0 <= k < |indent| ==> indent[k] == ' ' || indent[k] == '\t')
      && s[start..end] == nl + (indent + line) && LikeOurs(line)
      && start + |nl| + |indent| <= m < end
  {
    hide SkipInline, LastNewline, ChunkEnd, CountIn, IsSpace, SkipString, KnownKey, LikeOurs, SkipWs;
    var newline := LastNewline(s, m).value;
    var lineStart := SkipInline(s, newline + 1);
    var (start, end) := ChunkSpan(s, m).value;
    nl, indent := s[start..newline + 1], s[newline + 1..lineStart];
    BreakIs(s, start, newline);
    var line := s[lineStart..end];
    ThreeSlices(s, start, newline + 1, lineStart, end);
    LineLikeOurs(s, lineStart, end);
    NoSpaceFirst(line);
    BlankIndent(indent);
    TrimmedLine(nl, indent, line);
  }

  lemma ThreeSlices(s: string, a: nat, b: nat, c: nat, d: nat)
    requires a <= b <= c <= d <= |s|
    ensures s[a..d] == s[a..b] + (s[b..c] + s[c..d])
  {}

  lemma BreakIs(s: string, start: nat, newline: nat)
    requires newline < |s| && s[newline] == '\n'
    requires start == newline || (start + 1 == newline && s[start] == '\r')
    ensures s[start..newline + 1] == "\n" || s[start..newline + 1] == "\r\n"
  {
    if start < newline {
      assert s[start..newline + 1] == [s[start], s[newline]];
    }
  }

  lemma BlankIndent(indent: string)
    requires forall k :: 0 <= k < |indent| ==> indent[k] == ' ' || indent[k] == '\t'
    ensures Indentation(indent)
  {}

  lemma NoSpaceFirst(line: string)
    requires line != "" && (line[0] == '{' || line[0] == '"')
    ensures !IsSpace(line[0])
  {}

  lemma LineLikeOurs(s: string, from: nat, end: nat)
    requires ChunkStarts(s, from) && ChunkEnd(s, from) == Some(end) && CountIn(s, from, end, "\"command\":") == 1 && from < end <= |s|
    ensures LikeOurs(s[from..end])
    ensures s[from] == '{' || s[from] == '"'
  {
    hide Holds, CountIn, SkipString, SkipValue, KnownKey;
    var line := s[from..end];
    assert line == s[..end][from..];
    CountInPrefix(s, from, end, "\"command\":");
    CountInPart(s[..end], from, from, end, "\"command\":");
    CountsOccurrences(line, 0, |line|, "\"command\":");
    if s[from] == '"' {
      var close := SkipString(s, from).value;
      var key := s[from + 1..close - 1];
      KnownKeys(key);
      KeyInLine(s, from, close, end);
      assert Holds(line, 0, Quoted(key));
    }
  }

  lemma KeyInLine(s: string, from: nat, close: nat, end: nat)
    requires SkipString(s, from) == Some(close) && ChunkEnd(s, from) == Some(end) && end <= |s| && from < end
    ensures from + 2 <= close <= end && Holds(s[from..end], 0, Quoted(s[from + 1..close - 1]))
  {
    KeyBeforeEnd(s, from, close, end);
    hide SkipString, ChunkEnd, Quoted;
    QuotedSlice(s, from, close);
    PrefixOfSlice(s, from, close, end);
  }

  lemma QuotedSlice(s: string, from: nat, close: nat)
    requires from + 2 <= close <= |s| && s[from] == '"' == s[close - 1]
    ensures s[from..close] == Quoted(s[from + 1..close - 1])
  {
    assert s[from..close] == [s[from]] + s[from + 1..close - 1] + [s[close - 1]];
  }

  lemma PrefixOfSlice(s: string, from: nat, mid: nat, end: nat)
    requires from <= mid <= end <= |s|
    ensures Holds(s[from..end], 0, s[from..mid])
  {
    assert s[from..end][0..mid - from] == s[from..mid];
  }

  lemma KeyBeforeEnd(s: string, from: nat, close: nat, end: nat)
    requires SkipString(s, from) == Some(close) && ChunkEnd(s, from) == Some(end)
    ensures from + 2 <= close <= end && s[from] == '"' == s[close - 1]
  {
    hide SkipValue, StringEnd;
  }

  /** Every line that uninstall reports is like ours, so a line that starts with
      any other key stays where it is. */
  lemma {:induction false} OnlyOursGo(text: string, from: nat, changed: seq<string>)
    requires forall line :: line in changed ==> LikeOurs(line)
    ensures forall line :: line in UninstallFrom(text, from, changed).changed ==> LikeOurs(line)
    decreases |text|, |text| - from
  {
    hide LikeOurs, MarkerAt, ChunkSpan, TrimStart;
    var found := FindMarker(text, from);
    if found.Some? {
      var span := ChunkSpan(text, found.value);
      if span.None? {
        OnlyOursGo(text, found.value + 1, changed);
      } else {
        var (start, end) := span.value;
        var nl, indent := SpanParts(text, found.value);
        OnlyOursGo(text[..start] + text[end..], 0, changed + [TrimStart(text[start..end])]);
      }
    }
  }

  lemma UninstallTakesOurs(src: string, line: string)
    requires Uninstall(src).Ok? && line in Uninstall(src).value.changed
    ensures LikeOurs(line)
  {
    hide LikeOurs, UninstallFrom, ResidualCount, Parse;
    OnlyOursGo(src, 0, []);
  }
}
