/**
 JSON texts as concrete syntax trees that keep every byte of whitespace
 (RFC 8259, sections 2 to 7). `RenderDocument` gives a tree's text; a text is
 valid JSON when some valid tree renders to it. A `string` holds one `char`
 per byte of the file.
 */
module Json {
  /** What stands in front of an element: nothing in an array, a key and the
      whitespace around its colon in an object. `raw` is the spelling between
      the quotes, escapes and all. */
  datatype Label = NoLabel | Key(raw: string, beforeColon: string, afterColon: string)

  datatype Value =
    | Str(body: string)
    | Atom(text: string)
    | Node(isObject: bool, pre: string, elems: Elems)

  /** `after` follows the value; `sep` follows the comma, if there is one. */
  datatype Elems = Nil | Cons(name: Label, value: Value, after: string, sep: string, rest: Elems)

  datatype Document = Document(lead: string, root: Value, trail: string)

  // ---------- Text of a tree ----------

  function Open(isObject: bool): char { if isObject then '{' else '[' }

  function Close(isObject: bool): char { if isObject then '}' else ']' }

  function Quoted(body: string): string { "\"" + body + "\"" }

  function RenderLabel(l: Label): string {
    match l
    case NoLabel => ""
    case Key(raw, w1, w2) => Quoted(raw) + w1 + ":" + w2
  }

  function Render(v: Value): string {
    match v
    case Str(body) => Quoted(body)
    case Atom(text) => text
    case Node(isObject, pre, elems) => [Open(isObject)] + pre + RenderElems(elems) + [Close(isObject)]
  }

  function RenderElems(e: Elems): string {
    match e
    case Nil => ""
    case Cons(l, v, after, sep, rest) =>
      RenderLabel(l) + Render(v) + after + (if rest.Nil? then "" else "," + sep + RenderElems(rest))
  }

  function RenderDocument(d: Document): string {
    d.lead + Render(d.root) + d.trail
  }

  // ---------- Validity ----------

  predicate IsJsonSpace(c: char) { c == ' ' || c == '\t' || c == '\n' || c == '\r' }

  predicate Spaces(w: string) { forall k :: 0 <= k < |w| ==> IsJsonSpace(w[k]) }

  predicate IsHex(c: char) { '0' <= c <= '9' || 'a' <= c <= 'f' || 'A' <= c <= 'F' }

  predicate IsDigit(c: char) { '0' <= c <= '9' }

  /** The characters between the quotes of a string (RFC 8259, section 7). */
  predicate ValidBody(b: string) {
    || b == ""
    || (b[0] == '\\' && |b| >= 2 && b[1] in "\"\\/bfnrt" && ValidBody(b[2..]))
    || (b[0] == '\\' && |b| >= 6 && b[1] == 'u'
        && IsHex(b[2]) && IsHex(b[3]) && IsHex(b[4]) && IsHex(b[5]) && ValidBody(b[6..]))
    || (b[0] != '\\' && b[0] != '"' && b[0] >= ' ' && ValidBody(b[1..]))
  }

  /** The end of the run of digits starting at `i`. */
  function DigitsEnd(t: string, i: nat): (j: nat)
    requires i <= |t|
    ensures i <= j <= |t|
    ensures forall k :: i <= k < j ==> IsDigit(t[k])
    decreases |t| - i
  {
    if i < |t| && IsDigit(t[i]) then DigitsEnd(t, i + 1) else i
  }

  predicate ValidExponent(t: string, i: nat)
    requires i <= |t|
  {
    i == |t|
    || ((t[i] == 'e' || t[i] == 'E')
        && var k := if i + 1 < |t| && (t[i + 1] == '+' || t[i + 1] == '-') then i + 2 else i + 1;
        k < |t| && DigitsEnd(t, k) == |t|)
  }

  predicate ValidFraction(t: string, i: nat)
    requires i <= |t|
  {
    if i < |t| && t[i] == '.' then
      var j := DigitsEnd(t, i + 1);
      i + 1 < j && ValidExponent(t, j)
    else
      ValidExponent(t, i)
  }

  /** RFC 8259, section 6. */
  predicate ValidNumber(t: string) {
    var i := if t != "" && t[0] == '-' then 1 else 0;
    var j := DigitsEnd(t, i);
    i < j && (t[i] == '0' ==> j == i + 1) && ValidFraction(t, j)
  }

  predicate ValidAtom(t: string) {
    t == "true" || t == "false" || t == "null" || ValidNumber(t)
  }

  predicate ValidLabel(l: Label, isObject: bool) {
    match l
    case NoLabel => !isObject
    case Key(raw, w1, w2) => isObject && ValidBody(raw) && Spaces(w1) && Spaces(w2)
  }

  predicate Valid(v: Value) {
    match v
    case Str(body) => ValidBody(body)
    case Atom(text) => ValidAtom(text)
    case Node(isObject, pre, elems) => Spaces(pre) && ValidElems(elems, isObject)
  }

  predicate ValidElems(e: Elems, isObject: bool) {
    match e
    case Nil => true
    case Cons(l, v, after, sep, rest) =>
      && ValidLabel(l, isObject) && Valid(v) && Spaces(after) && Spaces(sep)
      && (rest.Nil? ==> sep == "")
      && ValidElems(rest, isObject)
  }

  predicate ValidDocument(d: Document) {
    Spaces(d.lead) && Valid(d.root) && Spaces(d.trail)
  }

  // ---------- Which bytes can occur where ----------

  predicate IsAtomChar(c: char) {
    IsDigit(c) || c in "+-.eE" || 'a' <= c <= 'z'
  }

  lemma ExponentChars(t: string, i: nat)
    requires i <= |t| && ValidExponent(t, i)
    ensures forall k :: i <= k < |t| ==> IsAtomChar(t[k])
  {
    if i < |t| {
      var k := if i + 1 < |t| && (t[i + 1] == '+' || t[i + 1] == '-') then i + 2 else i + 1;
      assert forall m :: k <= m < |t| ==> IsDigit(t[m]);
    }
  }

  lemma FractionChars(t: string, i: nat)
    requires i <= |t| && ValidFraction(t, i)
    ensures forall k :: i <= k < |t| ==> IsAtomChar(t[k])
  {
    if i < |t| && t[i] == '.' {
      var j := DigitsEnd(t, i + 1);
      ExponentChars(t, j);
    } else {
      ExponentChars(t, i);
    }
  }

  /** An unquoted scalar is not empty and holds no whitespace and no
      structural character, so it ends where the scanner says it ends. */
  lemma AtomChars(t: string)
    requires ValidAtom(t)
    ensures t != ""
    ensures forall k :: 0 <= k < |t| ==> IsAtomChar(t[k])
  {
    if ValidNumber(t) {
      var i := if t != "" && t[0] == '-' then 1 else 0;
      FractionChars(t, DigitsEnd(t, i));
    }
  }

  lemma RenderNonempty(v: Value)
    requires Valid(v)
    ensures Render(v) != ""
  {
    if v.Atom? {
      AtomChars(v.text);
    }
  }
}
