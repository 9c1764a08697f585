/**
 The response head: status line, length, identity token; and the escaping of
 one path segment. One character per byte; whether a head is UTF-8 and which
 characters trimming removes are parameters.
 */
module Head {
  import opened Wrappers

  const MAX_RESPONSE_BYTES: nat := 8 * 1024 * 1024
  const USIZE_MAX: nat := 0xFFFF_FFFF_FFFF_FFFF
  const U16_MAX: nat := 0xFFFF
  const TOKEN_HEADER := "x-memgarden-token"

  datatype Text = Text(utf8: string -> bool, white: char -> bool)

  datatype Field = Field(name: string, value: string)

  // ---------- Pieces of text ----------

  /** The pieces between the CR LFs. */
  function Lines(s: string): (lines: seq<string>)
    ensures lines != []
    decreases |s|
  {
    LinesFrom("", s)
  }

  function LinesFrom(line: string, s: string): (lines: seq<string>)
    ensures lines != []
    decreases |s|
  {
    if s == [] then [line]
    else if |s| >= 2 && s[0] == '\r' && s[1] == '\n' then [line] + LinesFrom("", s[2..])
    else LinesFrom(line + [s[0]], s[1..])
  }

  function Lower(c: char): char { if 'A' <= c <= 'Z' then ((c as int) + 32) as char else c }

  predicate SameName(a: string, b: string) {
    |a| == |b| && forall k :: 0 <= k < |a| ==> Lower(a[k]) == Lower(b[k])
  }

  function TrimStart(s: string, white: char -> bool): string {
    if s != [] && white(s[0]) then TrimStart(s[1..], white) else s
  }

  function TrimEnd(s: string, white: char -> bool): string {
    if s != [] && white(s[|s| - 1]) then TrimEnd(s[..|s| - 1], white) else s
  }

  function Trim(s: string, white: char -> bool): string { TrimEnd(TrimStart(s, white), white) }

  predicate Digits(s: string) { forall k :: 0 <= k < |s| ==> '0' <= s[k] <= '9' }

  function Value(s: string): nat
    requires Digits(s)
  {
    if s == [] then 0 else 10 * Value(s[..|s| - 1]) + (s[|s| - 1] as int - '0' as int)
  }

  /** An unsigned number, as the library reads it: digits after an optional
      plus, within the type. */
  function ParseNat(s: string, max: nat): Option<nat> {
    var digits := if s != [] && s[0] == '+' then s[1..] else s;
    if digits != [] && Digits(digits) && Value(digits) <= max then Some(Value(digits)) else None
  }

  predicate StartsWith(s: string, prefix: string) { |prefix| <= |s| && s[..|prefix|] == prefix }

  function Status(line: string): Option<nat> {
    if !StartsWith(line, "HTTP/1.1 ") && !StartsWith(line, "HTTP/1.0 ") then None
    else if |line| < 12 then None
    else ParseNat(line[9..12], U16_MAX)
  }

  /** Where the first colon is. */
  function Colon(line: string): (i: nat)
    ensures i <= |line| && (i < |line| ==> line[i] == ':') && forall k :: 0 <= k < i ==> line[k] != ':'
  {
    if line == [] || line[0] == ':' then 0 else 1 + Colon(line[1..])
  }

  /** The header fields, in order; a line without a colon is none. */
  function Fields(lines: seq<string>, white: char -> bool): seq<Field> {
    if lines == [] then []
    else
      var line := lines[|lines| - 1];
      Fields(lines[..|lines| - 1], white)
      + if Colon(line) < |line| then [Field(line[..Colon(line)], Trim(line[Colon(line) + 1..], white))] else []
  }

  function Values(fields: seq<Field>, name: string): seq<string> {
    if fields == [] then []
    else
      var field := fields[|fields| - 1];
      Values(fields[..|fields| - 1], name) + if SameName(field.name, name) then [field.value] else []
  }

  // ---------- What a head must say ----------

  /** Every declared length is the same number, in range. */
  predicate Agree(lengths: seq<string>, n: nat) {
    n <= MAX_RESPONSE_BYTES && forall k :: 0 <= k < |lengths| ==> ParseNat(lengths[k], USIZE_MAX) == Some(n)
  }

  /** A head is read exactly when it proves where it came from and leaves no
      doubt about the length: a status, no transfer coding, at least one
      length with all of them equal, and the expected token as the last one. */
  predicate Reads(head: string, token: Option<string>, text: Text, status: nat, length: nat) {
    && text.utf8(head)
    && Status(Lines(head)[0]) == Some(status)
    && var fields := Fields(Lines(head)[1..], text.white);
    && Values(fields, "transfer-encoding") == []
    && Values(fields, "content-length") != [] && Agree(Values(fields, "content-length"), length)
    && (token.Some? ==>
          var presented := Values(fields, TOKEN_HEADER);
          presented != [] && presented[|presented| - 1] == token.value)
  }

  /** What the loop over the lines has found, unless it has given up. */
  predicate Seen(fields: seq<Field>, length: Option<nat>, token: Option<string>) {
    && Values(fields, "transfer-encoding") == []
    && var lengths := Values(fields, "content-length");
    && (length.None? <==> lengths == []) && (length.Some? ==> Agree(lengths, length.value))
    && var presented := Values(fields, TOKEN_HEADER);
    && (token.None? <==> presented == []) && (token.Some? ==> token.value == presented[|presented| - 1])
  }

  lemma SeenNothing()
    ensures Seen([], None, None)
  {}

  lemma NamesDiffer(name: string)
    ensures !(SameName(name, TOKEN_HEADER) && SameName(name, "transfer-encoding"))
    ensures !(SameName(name, TOKEN_HEADER) && SameName(name, "content-length"))
    ensures !(SameName(name, "transfer-encoding") && SameName(name, "content-length"))
  {
    assert |TOKEN_HEADER| == 17 && |"transfer-encoding"| == 17 && |"content-length"| == 14;
    assert Lower(TOKEN_HEADER[0]) == 'x' && Lower("transfer-encoding"[0]) == 't';
  }

  lemma ValuesGrow(fields: seq<Field>, field: Field, name: string)
    ensures Values(fields + [field], name) == Values(fields, name) + if SameName(field.name, name) then [field.value] else []
  {
    hide SameName;
    assert (fields + [field])[..|fields|] == fields;
  }

  /** One more field, and whether it ends the reading. */
  lemma SeenGrows(fields: seq<Field>, field: Field, length: Option<nat>, token: Option<string>)
    requires Seen(fields, length, token)
    ensures
      var n := ParseNat(field.value, USIZE_MAX);
      var more := fields + [field];
      if SameName(field.name, "transfer-encoding") then Values(more, "transfer-encoding") != []
      else if SameName(field.name, "content-length") then
        if n.None? || n.value > MAX_RESPONSE_BYTES || (length.Some? && length != n) then
          forall m :: !Agree(Values(more, "content-length"), m)
        else Seen(more, n, token)
      else Seen(more, length, if SameName(field.name, TOKEN_HEADER) then Some(field.value) else token)
  {
    hide SameName, ParseNat, Values;
    NamesDiffer(field.name);
    ValuesGrow(fields, field, "transfer-encoding");
    ValuesGrow(fields, field, "content-length");
    ValuesGrow(fields, field, TOKEN_HEADER);
    var lengths := Values(fields + [field], "content-length");
    if SameName(field.name, "content-length") {
      assert lengths[|lengths| - 1] == field.value;
      if length.Some? {
        assert lengths[0] == Values(fields, "content-length")[0];
      }
    }
  }

  /** A field that ends the reading ends it whatever follows. */
  lemma {:induction false} PrefixDecides(fields: seq<Field>, n: nat, name: string)
    requires n <= |fields|
    ensures Values(fields[..n], name) <= Values(fields, name)
    decreases |fields|
  {
    hide SameName;
    if n < |fields| {
      assert fields[..|fields| - 1][..n] == fields[..n];
      PrefixDecides(fields[..|fields| - 1], n, name);
    } else {
      assert fields[..n] == fields;
    }
  }

  lemma {:induction false} FieldsPrefix(lines: seq<string>, n: nat, white: char -> bool)
    requires n <= |lines|
    ensures Fields(lines[..n], white) <= Fields(lines, white)
    decreases |lines|
  {
    hide Colon, Trim;
    if n < |lines| {
      assert lines[..|lines| - 1][..n] == lines[..n];
      FieldsPrefix(lines[..|lines| - 1], n, white);
    } else {
      assert lines[..n] == lines;
    }
  }

  lemma AgreeOnPrefix(part: seq<string>, whole: seq<string>, m: nat)
    requires part <= whole && Agree(whole, m)
    ensures Agree(part, m)
  {
    hide ParseNat;
  }

  /** Giving up early is right: no status and length read such a head. */
  lemma GivesUp(head: string, token: Option<string>, text: Text, n: nat)
    requires
      var lines := Lines(head)[1..];
      n <= |lines|
      && var fields := Fields(lines[..n], text.white);
         || Values(fields, "transfer-encoding") != []
         || forall m :: !Agree(Values(fields, "content-length"), m)
    ensures forall status, length :: !Reads(head, token, text, status, length)
  {
    hide Values, Agree, Fields, Status, Lines;
    var lines := Lines(head)[1..];
    FieldsPrefix(lines, n, text.white);
    var part, whole := Fields(lines[..n], text.white), Fields(lines, text.white);
    assert whole[..|part|] == part;
    PrefixDecides(whole, |part|, "transfer-encoding");
    PrefixDecides(whole, |part|, "content-length");
    forall status, length | Reads(head, token, text, status, length)
      ensures false
    {
      AgreeOnPrefix(Values(part, "content-length"), Values(whole, "content-length"), length);
    }
  }

  method ParseHead(head: string, token: Option<string>, text: Text) returns (r: Option<(nat, nat)>)
    ensures r.Some? ==> Reads(head, token, text, r.value.0, r.value.1)
    ensures r.None? ==> forall status, length :: !Reads(head, token, text, status, length)
  {
    hide Lines, Status, Seen, SameName, ParseNat, Fields, Colon, Trim, Agree, Values;
    if !text.utf8(head) {
      return None;
    }
    var all := Lines(head);
    var status := Status(all[0]);
    if status.None? {
      return None;
    }
    var lines := all[1..];
    var contentLength: Option<nat>, presented: Option<string> := None, None;
    SeenNothing();
    NoFields(text.white);
    for i := 0 to |lines|
      invariant Seen(Fields(lines[..i], text.white), contentLength, presented)
    {
      var line := lines[i];
      FieldsGrow(lines, i, text.white);
      var colon := Colon(line);
      if colon == |line| {
        continue;
      }
      var field := SplitField(line, text.white);
      SeenGrows(Fields(lines[..i], text.white), field, contentLength, presented);
      if SameName(field.name, TOKEN_HEADER) {
        presented := Some(field.value);
      }
      NamesDiffer(field.name);
      if SameName(field.name, "transfer-encoding") {
        GivesUp(head, token, text, i + 1);
        return None;
      }
      if SameName(field.name, "content-length") {
        var n := ParseNat(field.value, USIZE_MAX);
        if n.None? || n.value > MAX_RESPONSE_BYTES || (contentLength.Some? && contentLength != n) {
          GivesUp(head, token, text, i + 1);
          return None;
        }
        contentLength := n;
      }
    }
    assert lines[..|lines|] == lines;
    Settles(head, token, text, status.value, contentLength, presented);
    if token.Some? && presented != token {
      return None;
    }
    if contentLength.None? {
      return None;
    }
    r := Some((status.value, contentLength.value));
  }

  /** What the loop found decides. */
  lemma Settles(head: string, token: Option<string>, text: Text, status: nat, length: Option<nat>, presented: Option<string>)
    requires text.utf8(head) && Status(Lines(head)[0]) == Some(status)
    requires Seen(Fields(Lines(head)[1..], text.white), length, presented)
    ensures
      if (token.Some? && presented != token) || length.None? then forall s, l :: !Reads(head, token, text, s, l)
      else Reads(head, token, text, status, length.value)
  {
    hide Values, Agree, Fields, Status, Lines;
  }

  lemma NoFields(white: char -> bool)
    ensures forall lines: seq<string> :: Fields(lines[..0], white) == []
  {}

  function SplitField(line: string, white: char -> bool): Field
    requires Colon(line) < |line|
  {
    Field(line[..Colon(line)], Trim(line[Colon(line) + 1..], white))
  }

  lemma FieldsGrow(lines: seq<string>, i: nat, white: char -> bool)
    requires i < |lines|
    ensures
      Fields(lines[..i + 1], white)
      == if Colon(lines[i]) < |lines[i]| then Fields(lines[..i], white) + [SplitField(lines[i], white)]
         else Fields(lines[..i], white)
  {
    hide Colon, Trim;
    assert lines[..i + 1][..i] == lines[..i];
    assert Fields(lines[..i], white) + [] == Fields(lines[..i], white);
  }

  // ---------- Path segments ----------

  type Byte = c: char | c as int < 256 witness 'a'

  predicate Unreserved(c: char) {
    'A' <= c <= 'Z' || 'a' <= c <= 'z' || '0' <= c <= '9' || c == '-' || c == '.' || c == '_' || c == '~'
  }

  function Hex(d: nat): char
    requires d < 16
  {
    "0123456789ABCDEF"[d]
  }

  function Escaped(c: Byte): (s: string)
    ensures |s| == if Unreserved(c) then 1 else 3
  {
    if Unreserved(c) then [c] else ['%', Hex(c as int / 16), Hex(c as int % 16)]
  }

  function Encoded(raw: seq<Byte>): string {
    if raw == [] then [] else Escaped(raw[0]) + Encoded(raw[1..])
  }

  method EncodePathSegment(raw: seq<Byte>) returns (out: string)
    ensures out == Encoded(raw)
  {
    hide Escaped;
    out := "";
    for i := 0 to |raw|
      invariant out + Encoded(raw[i..]) == Encoded(raw)
    {
      assert raw[i..][1..] == raw[i + 1..];
      assert out + (Escaped(raw[i]) + Encoded(raw[i + 1..])) == out + Escaped(raw[i]) + Encoded(raw[i + 1..]);
      out := out + Escaped(raw[i]);
    }
    assert out + [] == out;
  }

  function HexValue(c: char): Option<nat> {
    if '0' <= c <= '9' then Some(c as int - '0' as int)
    else if 'A' <= c <= 'F' then Some(c as int - 'A' as int + 10)
    else None
  }

  /** Percent-decoding, as the other end does it (section 2.1 of RFC 3986). */
  function Decoded(s: string): Option<seq<Byte>> {
    if s == [] then Some([])
    else if s[0] == '%' then
      if |s| >= 3 && HexValue(s[1]).Some? && HexValue(s[1]).value < 16 && HexValue(s[2]).Some? && HexValue(s[2]).value < 16 then
        var rest := Decoded(s[3..]);
        if rest.Some? then Some([(16 * HexValue(s[1]).value + HexValue(s[2]).value) as char] + rest.value) else None
      else None
    else if Unreserved(s[0]) then
      var rest := Decoded(s[1..]);
      if rest.Some? then Some([s[0]] + rest.value) else None
    else None
  }

  lemma HexRoundTrip(d: nat)
    requires d < 16
    ensures HexValue(Hex(d)) == Some(d) && Unreserved(Hex(d))
  {}

  /** A segment comes back as it was, and nothing in it can end the segment. */
  lemma {:induction false} SegmentRoundTrip(raw: seq<Byte>)
    ensures Decoded(Encoded(raw)) == Some(raw)
    ensures forall k :: 0 <= k < |Encoded(raw)| ==> Encoded(raw)[k] == '%' || Unreserved(Encoded(raw)[k])
    decreases |raw|
  {
    hide Hex, HexValue;
    if raw == [] {
    } else {
      var c := raw[0];
      var rest := Encoded(raw[1..]);
      SegmentRoundTrip(raw[1..]);
      if Unreserved(c) {
        assert Encoded(raw)[1..] == rest;
      } else {
        HexRoundTrip(c as int / 16);
        HexRoundTrip(c as int % 16);
        assert Encoded(raw)[3..] == rest;
      }
      assert raw == [c] + raw[1..];
    }
  }
}
