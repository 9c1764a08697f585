/**
 A daemon's answer as the client reads it: a head composed line by line is read
 as what it was composed of, and the body behind it arrives whole.
 */
module Exchange {
  import opened Wrappers
  import opened Head
  import opened Http

  // ---------- Numbers ----------

  function Digit(d: nat): char
    requires d < 10
  {
    "0123456789"[d]
  }

  /** `n` in decimal, without leading zeros. */
  function Decimal(n: nat): (s: string)
    ensures s != []
  {
    if n < 10 then [Digit(n)] else Decimal(n / 10) + [Digit(n % 10)]
  }

  function Zeros(z: nat): string { if z == 0 then "" else Zeros(z - 1) + "0" }

  lemma OneDigitMore(s: string, c: char)
    requires Digits(s) && '0' <= c <= '9'
    ensures Digits(s + [c]) && Value(s + [c]) == 10 * Value(s) + (c as int - '0' as int)
  {
    assert (s + [c])[..|s|] == s;
  }

  lemma DigitRead(d: nat)
    requires d < 10
    ensures '0' <= Digit(d) <= '9' && Digit(d) as int - '0' as int == d
  {}

  lemma {:induction false} DecimalRead(z: nat, n: nat)
    ensures Digits(Zeros(z) + Decimal(n)) && Value(Zeros(z) + Decimal(n)) == n
    decreases n
  {
    hide Digits, Value, Zeros, Digit;
    DigitRead(n % 10);
    if n < 10 {
      ZerosRead(z);
      OneDigitMore(Zeros(z), Digit(n));
    } else {
      DecimalRead(z, n / 10);
      OneDigitMore(Zeros(z) + Decimal(n / 10), Digit(n % 10));
      assert Zeros(z) + Decimal(n) == Zeros(z) + Decimal(n / 10) + [Digit(n % 10)];
    }
  }

  lemma {:induction false} ZerosRead(z: nat)
    ensures Digits(Zeros(z)) && Value(Zeros(z)) == 0
  {
    if z > 0 {
      ZerosRead(z - 1);
    }
  }

  /** What reads as `n` is its decimal, behind zeros. */
  lemma {:induction false} OnlyDecimalsRead(s: string) returns (z: nat)
    requires Digits(s) && s != []
    ensures s == Zeros(z) + Decimal(Value(s))
  {
    hide Digits, Value, Decimal, Zeros, Digit;
    var front := s[..|s| - 1];
    var d := LastDigit(s);
    if front == [] {
      z := 0;
      SingleDigit(s, d);
    } else {
      z := OnlyDecimalsRead(front);
      DigitsBack(Value(front), d);
      AppendDigit(s, z, Value(front), d);
      if Value(front) == 0 {
        z := z + 1;
      }
    }
  }

  lemma SingleDigit(s: string, d: nat)
    requires d < 10 && |s| > 0 && s == s[..|s| - 1] + [Digit(d)] && s[..|s| - 1] == [] && Digits(s) && Value(s) == d
    ensures s == Zeros(0) + Decimal(Value(s))
  {}

  lemma AppendDigit(s: string, z: nat, front: nat, d: nat)
    requires d < 10 && s != [] && s[..|s| - 1] == Zeros(z) + Decimal(front) && s == s[..|s| - 1] + [Digit(d)]
    ensures front == 0 ==> s == Zeros(z + 1) + [Digit(d)]
    ensures front > 0 ==> s == Zeros(z) + (Decimal(front) + [Digit(d)])
  {}

  lemma LastDigit(s: string) returns (d: nat)
    requires Digits(s) && s != []
    ensures d < 10 && Digits(s[..|s| - 1]) && Value(s) == 10 * Value(s[..|s| - 1]) + d && s == s[..|s| - 1] + [Digit(d)]
    ensures s[..|s| - 1] == [] ==> Value(s) == d
  {
    var last := s[|s| - 1];
    d := last as int - '0' as int;
    assert Digit(d) == last;
  }

  lemma DigitsBack(front: nat, d: nat)
    requires d < 10
    ensures Decimal(d) == [Digit(d)]
    ensures front > 0 ==> Decimal(10 * front + d) == Decimal(front) + [Digit(d)]
    ensures Decimal(0) == "0"
  {
    if front > 0 {
      assert (10 * front + d) / 10 == front && (10 * front + d) % 10 == d;
    }
  }

  /** A number is read exactly when it is decimal digits after an optional plus,
      within the type. */
  lemma NumberRead(s: string, max: nat, n: nat)
    ensures ParseNat(s, max) == Some(n) <==>
            n <= max && exists z: nat :: s == Zeros(z) + Decimal(n) || s == "+" + Zeros(z) + Decimal(n)
  {
    hide Digits, Value, Decimal, Zeros;
    if ParseNat(s, max) == Some(n) {
      var digits := if s[0] == '+' then s[1..] else s;
      var z := OnlyDecimalsRead(digits);
      if s[0] == '+' {
        assert s == "+" + digits;
        assert "+" + (Zeros(z) + Decimal(n)) == "+" + Zeros(z) + Decimal(n);
      }
      assert s == Zeros(z) + Decimal(n) || s == "+" + Zeros(z) + Decimal(n);
    }
    if z: nat :| s == Zeros(z) + Decimal(n) || s == "+" + Zeros(z) + Decimal(n) {
      DecimalRead(z, n);
      NoPlus(Zeros(z) + Decimal(n));
      if s != Zeros(z) + Decimal(n) {
        assert s == "+" + (Zeros(z) + Decimal(n));
        assert s[1..] == Zeros(z) + Decimal(n);
      }
    }
  }

  lemma NoPlus(s: string)
    requires Digits(s) && s != []
    ensures s[0] != '+'
  {}

  // ---------- Lines ----------

  predicate Plain(s: string) { forall k :: 0 <= k < |s| ==> s[k] != '\r' }

  /** A header as it stands in the head, with the blanks around its value. */
  datatype Header = Header(name: string, before: string, value: string, after: string)

  function Text1(h: Header): (s: string)
    ensures s != []
  {
    h.name + ":" + h.before + h.value + h.after
  }

  predicate Blank(s: string, white: char -> bool) { forall k :: 0 <= k < |s| ==> white(s[k]) }

  predicate WellFormed(h: Header, white: char -> bool) {
    && Plain(h.name) && Plain(h.before) && Plain(h.value) && Plain(h.after)
    && (forall k :: 0 <= k < |h.name| ==> h.name[k] != ':')
    && Blank(h.before, white) && Blank(h.after, white)
    && (h.value != [] ==> !white(h.value[0]) && !white(h.value[|h.value| - 1]))
  }

  predicate AllWellFormed(headers: seq<Header>, white: char -> bool) {
    forall k :: 0 <= k < |headers| ==> WellFormed(headers[k], white)
  }

  function Rest(headers: seq<Header>): string {
    if headers == [] then "" else "\r\n" + (Text1(headers[0]) + Rest(headers[1..]))
  }

  function Texts(headers: seq<Header>): (r: seq<string>)
    ensures |r| == |headers| && forall k :: 0 <= k < |r| ==> r[k] == Text1(headers[k])
  {
    seq(|headers|, (k: int) requires 0 <= k < |headers| => Text1(headers[k]))
  }

  lemma PlainText(h: Header, white: char -> bool)
    requires WellFormed(h, white)
    ensures Plain(Text1(h))
  {}

  lemma {:induction false} LinesBreak(line: string, s: string, more: string)
    requires Plain(s)
    ensures LinesFrom(line, s + "\r\n" + more) == [line + s] + LinesFrom("", more)
    ensures LinesFrom(line, s) == [line + s]
    decreases |s|
  {
    var all := s + "\r\n" + more;
    if s == [] {
      assert all[0] == '\r' && all[1] == '\n' && all[2..] == more;
      assert line + s == line;
    } else {
      assert all[0] == s[0] && all[1..] == s[1..] + "\r\n" + more;
      LinesBreak(line + [s[0]], s[1..], more);
      assert line + [s[0]] + s[1..] == line + s;
    }
  }

  /** The head's lines are those it was composed of. */
  lemma {:induction false} LinesOfHead(line: string, headers: seq<Header>, white: char -> bool)
    requires Plain(line) && AllWellFormed(headers, white)
    ensures Lines(line + Rest(headers)) == [line] + Texts(headers)
    decreases |headers|
  {
    hide Plain, WellFormed, LinesFrom, Text1, Lines, Rest, Texts;
    if headers == [] {
      OneLineHead(line);
    } else {
      PlainText(headers[0], white);
      LinesOfHead(Text1(headers[0]), headers[1..], white);
      OneLineMore(line, headers);
    }
  }

  lemma OneLineHead(line: string)
    requires Plain(line)
    ensures Lines(line + Rest([])) == [line] + Texts([])
  {
    hide Plain, LinesFrom;
    LinesBreak("", line, "");
    assert "" + line == line && line + "" == line;
    assert [line] + Texts([]) == [line];
  }

  lemma OneLineMore(line: string, headers: seq<Header>)
    requires Plain(line) && headers != []
    requires Lines(Text1(headers[0]) + Rest(headers[1..])) == [Text1(headers[0])] + Texts(headers[1..])
    ensures Lines(line + Rest(headers)) == [line] + Texts(headers)
  {
    hide Plain, LinesFrom, Text1;
    var more := Text1(headers[0]) + Rest(headers[1..]);
    LinesBreak("", line, more);
    LineJoin(line, more);
    TextsGrow(headers);
    assert [line] + ([Text1(headers[0])] + Texts(headers[1..])) == [line] + Texts(headers);
  }

  lemma LineJoin(line: string, more: string)
    ensures "" + line == line && line + ("\r\n" + more) == line + "\r\n" + more
  {}

  lemma TextsGrow(headers: seq<Header>)
    requires headers != []
    ensures Texts(headers) == [Text1(headers[0])] + Texts(headers[1..])
  {
    hide Text1;
  }

  // ---------- Fields ----------

  lemma {:induction false} TrimsStart(before: string, s: string, white: char -> bool)
    requires Blank(before, white) && (s != [] ==> !white(s[0]))
    ensures TrimStart(before + s, white) == s
    decreases |before|
  {
    if before == [] {
      assert before + s == s;
    } else {
      assert (before + s)[1..] == before[1..] + s;
      TrimsStart(before[1..], s, white);
    }
  }

  lemma {:induction false} TrimsEnd(s: string, after: string, white: char -> bool)
    requires Blank(after, white) && (s != [] ==> !white(s[|s| - 1]))
    ensures TrimEnd(s + after, white) == s
    decreases |after|
  {
    if after == [] {
      assert s + after == s;
    } else {
      var n := |after| - 1;
      assert (s + after)[..|s + after| - 1] == s + after[..n];
      TrimsEnd(s, after[..n], white);
    }
  }

  lemma NothingToTrim(white: char -> bool)
    ensures TrimEnd("", white) == ""
  {}

  lemma Trims(h: Header, white: char -> bool)
    requires WellFormed(h, white)
    ensures Trim(h.before + h.value + h.after, white) == h.value
  {
    hide TrimStart, TrimEnd, Plain;
    if h.value == [] {
      var all := h.before + h.after;
      assert h.before + h.value + h.after == all && all + "" == all;
      TrimsStart(all, "", white);
      NothingToTrim(white);
    } else {
      assert h.before + h.value + h.after == h.before + (h.value + h.after);
      TrimsStart(h.before, h.value + h.after, white);
      TrimsEnd(h.value, h.after, white);
    }
  }

  function FieldOf(h: Header): Field { Field(h.name, h.value) }

  function FieldsOf(headers: seq<Header>): (r: seq<Field>)
    ensures |r| == |headers| && forall k :: 0 <= k < |r| ==> r[k] == FieldOf(headers[k])
  {
    seq(|headers|, (k: int) requires 0 <= k < |headers| => FieldOf(headers[k]))
  }

  lemma ColonOf(h: Header, white: char -> bool)
    requires WellFormed(h, white)
    ensures
      var line := Text1(h);
      && Colon(line) == |h.name| < |line| && line[..|h.name|] == h.name
      && line[|h.name| + 1..] == h.before + h.value + h.after
  {
    hide Colon, Blank, Plain;
    var line := Text1(h);
    assert line[|h.name|] == ':';
    assert forall k :: 0 <= k < |h.name| ==> line[k] == h.name[k];
  }

  /** Every header is read as its name and its value. */
  lemma {:induction false} FieldsOfHead(headers: seq<Header>, white: char -> bool)
    requires AllWellFormed(headers, white)
    ensures Fields(Texts(headers), white) == FieldsOf(headers)
    decreases |headers|
  {
    hide WellFormed, Text1, Trim, Colon;
    if headers == [] {
      assert FieldsOf(headers) == [];
    } else {
      var n := |headers| - 1;
      var h := headers[n];
      FieldsOfHead(headers[..n], white);
      ColonOf(h, white);
      Trims(h, white);
      assert Texts(headers)[..n] == Texts(headers[..n]);
      assert FieldsOf(headers) == FieldsOf(headers[..n]) + [FieldOf(h)];
    }
  }

  // ---------- What a head says ----------

  /** Header `k` carries this name, in whatever case. */
  predicate Named(headers: seq<Header>, k: int, name: string) {
    0 <= k < |headers| && SameName(headers[k].name, name)
  }

  /** The values under a name are those of the headers of that name, in order. */
  lemma {:induction false} ValuesNamed(headers: seq<Header>, name: string)
    ensures Values(FieldsOf(headers), name) == [] <==> forall k :: !Named(headers, k, name)
    ensures forall v :: v in Values(FieldsOf(headers), name) <==> exists k :: Named(headers, k, name) && headers[k].value == v
    ensures forall k :: Named(headers, k, name) && (forall m :: k < m < |headers| ==> !Named(headers, m, name)) ==>
      var values := Values(FieldsOf(headers), name);
      values != [] && values[|values| - 1] == headers[k].value
    decreases |headers|
  {
    hide SameName;
    if headers == [] {
    } else {
      var n := |headers| - 1;
      var part := headers[..n];
      ValuesNamed(part, name);
      assert FieldsOf(headers)[..n] == FieldsOf(part);
      assert forall k :: Named(part, k, name) ==> Named(headers, k, name) && headers[k].value == part[k].value;
      assert forall k :: k < n && Named(headers, k, name) ==> Named(part, k, name) && headers[k].value == part[k].value;
      var before, values := Values(FieldsOf(part), name), Values(FieldsOf(headers), name);
      if Named(headers, n, name) {
        assert values == before + [headers[n].value];
      } else {
        assert values == before + [] == before;
      }
    }
  }

  /** The headers say how long the body is and whose it is: no transfer coding,
      every length the same number and at least one, and the token in the last
      of its headers. */
  ghost predicate Says(headers: seq<Header>, token: Option<string>, length: nat) {
    && (forall k :: !Named(headers, k, "transfer-encoding"))
    && (exists k :: Named(headers, k, "content-length"))
    && (forall k :: Named(headers, k, "content-length") ==> ParseNat(headers[k].value, 0xFFFF_FFFF_FFFF_FFFF) == Some(length))
    && length <= 8_388_608
    && (token.Some? ==>
          exists k :: Named(headers, k, "x-memgarden-token") && headers[k].value == token.value
            && forall m :: k < m < |headers| ==> !Named(headers, m, "x-memgarden-token"))
  }

  /** A status line of either version. */
  function StatusLine(minor: bool, status: nat, reason: string): string {
    (if minor then "HTTP/1.1 " else "HTTP/1.0 ") + Decimal(status) + reason
  }

  lemma ThreeDigits(status: nat)
    requires 100 <= status <= 999
    ensures |Decimal(status)| == 3
  {
    assert 1 <= status / 10 / 10 < 10;
    assert |Decimal(status / 10)| == |Decimal(status / 10 / 10)| + 1;
  }

  lemma StatusRead(minor: bool, status: nat, reason: string)
    requires 100 <= status <= 999
    ensures Status(StatusLine(minor, status, reason)) == Some(status)
  {
    hide Decimal, ParseNat;
    var line := StatusLine(minor, status, reason);
    ThreeDigits(status);
    assert line[9..12] == Decimal(status);
    assert line[..9] == if minor then "HTTP/1.1 " else "HTTP/1.0 ";
    assert Zeros(0) + Decimal(status) == Decimal(status);
    NumberRead(Decimal(status), U16_MAX, status);
  }

  lemma PlainDigits(s: string)
    requires Digits(s)
    ensures Plain(s)
  {}

  lemma PlainStatus(minor: bool, status: nat, reason: string)
    requires Plain(reason)
    ensures Plain(StatusLine(minor, status, reason))
  {
    hide Decimal;
    DecimalRead(0, status);
    assert Zeros(0) + Decimal(status) == Decimal(status);
    PlainDigits(Decimal(status));
  }

  function Composed(minor: bool, status: nat, reason: string, headers: seq<Header>): string {
    StatusLine(minor, status, reason) + Rest(headers)
  }

  /** A composed head is read exactly as its parts say. */
  lemma HeadRead(minor: bool, status: nat, reason: string, headers: seq<Header>, token: Option<string>, text: Text, s: nat, length: nat)
    requires 100 <= status <= 999 && Plain(reason) && AllWellFormed(headers, text.white)
    requires text.utf8(Composed(minor, status, reason, headers))
    ensures Reads(Composed(minor, status, reason, headers), token, text, s, length)
            <==> s == status && Says(headers, token, length)
  {
    hide Plain, AllWellFormed, StatusLine, Rest, Status, Lines, Fields, Values, Named, ParseNat, FieldsOf, Texts;
    var line := StatusLine(minor, status, reason);
    PlainStatus(minor, status, reason);
    LinesOfHead(line, headers, text.white);
    StatusRead(minor, status, reason);
    FieldsOfHead(headers, text.white);
    assert ([line] + Texts(headers))[1..] == Texts(headers);
    ValuesNamed(headers, "transfer-encoding");
    LengthsSay(headers, length);
    TokenSays(headers, token);
  }

  lemma LengthsSay(headers: seq<Header>, length: nat)
    ensures
      var values := Values(FieldsOf(headers), "content-length");
      values != [] && Agree(values, length) <==>
        && (exists k :: Named(headers, k, "content-length"))
        && (forall k :: Named(headers, k, "content-length") ==> ParseNat(headers[k].value, 0xFFFF_FFFF_FFFF_FFFF) == Some(length))
        && length <= 8_388_608
  {
    hide Values, ParseNat, FieldsOf, SameName;
    ValuesNamed(headers, "content-length");
    var values := Values(FieldsOf(headers), "content-length");
    if Agree(values, length) {
      forall k | Named(headers, k, "content-length")
        ensures ParseNat(headers[k].value, USIZE_MAX) == Some(length)
      {
        assert headers[k].value in values;
      }
    } else if forall k :: Named(headers, k, "content-length") ==> ParseNat(headers[k].value, USIZE_MAX) == Some(length) {
      assert forall i :: 0 <= i < |values| ==> values[i] in values;
    }
  }

  lemma TokenSays(headers: seq<Header>, token: Option<string>)
    ensures
      var values := Values(FieldsOf(headers), TOKEN_HEADER);
      (token.Some? ==> values != [] && values[|values| - 1] == token.value) <==>
      (token.Some? ==>
          exists k :: Named(headers, k, "x-memgarden-token") && headers[k].value == token.value
            && forall m :: k < m < |headers| ==> !Named(headers, m, "x-memgarden-token"))
  {
    hide Values, Named, FieldsOf;
    ValuesNamed(headers, TOKEN_HEADER);
    if k :| Named(headers, k, TOKEN_HEADER) {
      var last := LastNamed(headers, TOKEN_HEADER, k);
    }
  }

  lemma {:induction false} LastNamed(headers: seq<Header>, name: string, k: int) returns (last: int)
    requires Named(headers, k, name)
    ensures Named(headers, last, name) && forall m :: last < m < |headers| ==> !Named(headers, m, name)
    decreases |headers| - k
  {
    if m :| k < m < |headers| && Named(headers, m, name) {
      last := LastNamed(headers, name, m);
    } else {
      last := k;
    }
  }

  // ---------- The whole answer ----------

  lemma BlankShifts(a: string, b: string, k: nat)
    ensures BlankAt(a + b, |a| + k) <==> BlankAt(b, k)
  {
    if |a| + k + 4 <= |a + b| {
      assert (a + b)[|a| + k] == b[k] && (a + b)[|a| + k + 1] == b[k + 1];
      assert (a + b)[|a| + k + 2] == b[k + 2] && (a + b)[|a| + k + 3] == b[k + 3];
    }
  }

  /** No blank line starts within the lines of a head. */
  lemma {:induction false} NoBlankLine(line: string, headers: seq<Header>, white: char -> bool, more: string, k: nat)
    requires Plain(line) && line != [] && AllWellFormed(headers, white)
    requires k < |line + Rest(headers)|
    ensures !BlankAt(line + Rest(headers) + more, k)
    decreases |headers|
  {
    hide WellFormed, Text1, BlankAt;
    var all := line + Rest(headers) + more;
    if k < |line| {
      assert all[k] == line[k];
      NotReturn(all, k);
    } else {
      var first := Text1(headers[0]);
      PlainText(headers[0], white);
      var tail := first + Rest(headers[1..]) + more;
      assert all == line + "\r\n" + tail;
      if k == |line| {
        assert all[k + 2] == tail[0] == first[0];
        NotReturn2(all, k);
      } else if k == |line| + 1 {
        assert all[k] == '\n';
        NotReturn(all, k);
      } else {
        NoBlankLine(first, headers[1..], white, more, k - |line| - 2);
        BlankShifts(line + "\r\n", tail, k - |line| - 2);
      }
    }
  }

  lemma NotReturn(s: string, k: nat)
    requires k < |s| && s[k] != '\r'
    ensures !BlankAt(s, k)
  {}

  lemma NotReturn2(s: string, k: nat)
    requires k + 2 < |s| && s[k + 2] != '\r'
    ensures !BlankAt(s, k)
  {}

  lemma HeadEnds(line: string, headers: seq<Header>, white: char -> bool, body: string)
    requires Plain(line) && line != [] && AllWellFormed(headers, white)
    ensures FindHeadEnd(line + Rest(headers) + "\r\n\r\n" + body) == Some(|line + Rest(headers)|)
  {
    hide Plain, AllWellFormed, Rest, FindHeadEnd;
    var head, more := line + Rest(headers), "\r\n\r\n" + body;
    assert head + "\r\n\r\n" + body == head + more;
    assert more[0] == '\r' && more[1] == '\n' && more[2] == '\r' && more[3] == '\n';
    BlankShifts(head, more, 0);
    var found := FindHeadEnd(head + more);
    assert BlankAt(more, 0);
    assert found.Some?;
    if found.value < |head| {
      NoBlankLine(line, headers, white, more, found.value);
    }
  }

  /** The parser handed to the reader reads heads as this client does. */
  ghost predicate IsParser(parse: string -> Option<(nat, nat)>, token: Option<string>, text: Text) {
    forall head, s: nat, n: nat :: parse(head) == Some((s, n)) <==> Reads(head, token, text, s, n)
  }

  /** Whatever pieces it comes in, an answer is its status and its body, without
      what follows; a body that breaks off is reported with how much came. */
  lemma AnswerArrives(minor: bool, status: nat, reason: string, headers: seq<Header>, token: Option<string>, text: Text,
                      parse: string -> Option<(nat, nat)>, rest: string, length: nat, cut: Cuts)
    requires 100 <= status <= 999 && Plain(reason) && AllWellFormed(headers, text.white)
    requires text.utf8(Composed(minor, status, reason, headers)) && IsParser(parse, token, text)
    requires |Composed(minor, status, reason, headers)| + 4 <= 16 * 1024 + 1
    requires Says(headers, token, length)
    ensures Respond(Composed(minor, status, reason, headers) + "\r\n\r\n" + rest, cut, parse)
            == if length <= |rest| then Ok(Response(status, rest[..length])) else Err(BodyClosed(|rest|, length))
  {
    hide Plain, AllWellFormed, Says, Reads, Respond, FindHeadEnd, Rest, StatusLine, Answer;
    var head := Composed(minor, status, reason, headers);
    var s := head + "\r\n\r\n" + rest;
    PlainStatus(minor, status, reason);
    NonemptyStatus(minor, status, reason);
    HeadEnds(StatusLine(minor, status, reason), headers, text.white, rest);
    CutsDoNotMatter(s, cut, parse);
    HeadRead(minor, status, reason, headers, token, text, status, length);
    AnswerOf(head, rest, status, length, parse);
  }

  lemma NonemptyStatus(minor: bool, status: nat, reason: string)
    ensures StatusLine(minor, status, reason) != []
  {}

  lemma AnswerOf(head: string, rest: string, status: nat, length: nat, parse: string -> Option<(nat, nat)>)
    requires FindHeadEnd(head + "\r\n\r\n" + rest) == Some(|head|) && |head| + 4 <= 16 * 1024 + 1
    requires parse(head) == Some((status, length))
    ensures Answer(head + "\r\n\r\n" + rest, parse)
            == if length <= |rest| then Ok(Response(status, rest[..length])) else Err(BodyClosed(|rest|, length))
  {
    hide FindHeadEnd;
    var s := head + "\r\n\r\n" + rest;
    assert s[..|head|] == head;
    assert s[|head| + 4..] == rest;
    if length <= |rest| {
      assert s[|head| + 4..|head| + 4 + length] == rest[..length];
    }
  }

  // ---------- Path segments ----------

  /** An encoded segment has letters, digits, four marks and the escapes, and so
      none of the characters that end a segment, a path or a request line. */
  lemma SegmentIsPlain(raw: seq<Byte>, k: nat)
    requires k < |Encoded(raw)|
    ensures
      var c := Encoded(raw)[k];
      'A' <= c <= 'Z' || 'a' <= c <= 'z' || '0' <= c <= '9' || c in "-._~%"
  {
    SegmentRoundTrip(raw);
  }
}
