/** What the XML loader makes of a string, when every value is kept as opaque text.

    Strings are sequences of single bytes, written as characters; the input is ASCII. `lookup` gives the
    character of a named or numbered entity, or a negative number.
 */
module MxmlLoad {
  import opened MxmlSave

  type Lookup = string -> int

  const EOF := -1

  /** The next character, or the end of the input, and what follows. */
  datatype Got = Got(ch: int, rest: string)

  predicate Bad(ch: int) {
    ch < 32 && ch != 10 && ch != 13 && ch != 9
  }

  predicate IsSpace(ch: int) {
    ch == 32 || 9 <= ch <= 13
  }

  predicate IsAlnum(ch: int) {
    48 <= ch <= 57 || 65 <= ch <= 90 || 97 <= ch <= 122
  }

  /** `mxml_string_getc`: nothing is read behind a null byte, and a control character is skipped and
      reported like the end of the input.
   */
  function Getc(s: string): (g: Got)
    ensures |g.rest| <= |s| && (g.ch != EOF ==> |g.rest| < |s|)
  {
    if s == "" || s[0] == '\0' then Got(EOF, s)
    else if Bad(s[0] as int) then Got(EOF, s[1..])
    else Got(s[0] as int, s[1..])
  }

  function Byte(i: int): char {
    (i % 256) as char
  }

  /** `mxml_add_char` stores a character as UTF-8. */
  function Utf8(ch: int): string {
    if ch < 0x80 then [Byte(ch)]
    else if ch < 0x800 then [Byte(0xc0 + ch / 64), Byte(0x80 + ch % 64)]
    else if ch < 0x1_0000 then [Byte(0xe0 + ch / 4096), Byte(0x80 + ch / 64 % 64), Byte(0x80 + ch % 64)]
    else [Byte(0xf0 + ch / 262144), Byte(0x80 + ch / 4096 % 64), Byte(0x80 + ch / 64 % 64), Byte(0x80 + ch % 64)]
  }

  // ---- Entities

  datatype Named = Named(name: string, ch: int, rest: string)

  const MAX_ENTITY := 63

  /** The name of an entity, and the character that ends it. */
  function ReadEntity(s: string, name: string): (n: Named)
    ensures |n.rest| <= |s|
    decreases |s|
  {
    var g := Getc(s);
    if g.ch == EOF || g.ch > 126 || (!IsAlnum(g.ch) && g.ch != '#' as int) || |name| >= MAX_ENTITY then
      Named(name, g.ch, g.rest)
    else ReadEntity(g.rest, name + [Byte(g.ch)])
  }

  /** `mxml_get_entity`, behind the ampersand. */
  function GetEntity(s: string, lookup: Lookup): (g: Got)
    ensures |g.rest| <= |s|
  {
    var n := ReadEntity(s, "");
    if n.ch != ';' as int || Bad(lookup(n.name)) then Got(EOF, n.rest) else Got(lookup(n.name), n.rest)
  }

  /** The next character of a name or a value, with an entity replaced. */
  function Decoded(g: Got, lookup: Lookup): (r: Got)
    ensures |r.rest| <= |g.rest|
  {
    if g.ch == '&' as int then GetEntity(g.rest, lookup) else g
  }

  // ---- Attributes

  datatype Piece = Piece(text: string, ch: int, rest: string) | Broken

  /** Characters of a quoted name; the closing quote belongs to the name. */
  function QuotedPart(s: string, buf: string, quote: int, lookup: Lookup): (p: Piece)
    ensures p.Piece? ==> |p.rest| <= |s|
    decreases |s|
  {
    var g := Getc(s);
    if g.ch == EOF then Piece(buf, EOF, g.rest)
    else
      var d := Decoded(g, lookup);
      if d.ch == EOF then Broken
      else if d.ch == quote then Piece(buf + Utf8(d.ch), d.ch, d.rest)
      else QuotedPart(d.rest, buf + Utf8(d.ch), quote, lookup)
  }

  predicate EndsName(ch: int) {
    IsSpace(ch) || ch == '=' as int || ch == '/' as int || ch == '>' as int || ch == '?' as int
  }

  function NamePart(s: string, buf: string, lookup: Lookup): (p: Piece)
    ensures p.Piece? ==> |p.rest| <= |s|
    decreases |s|
  {
    var g := Getc(s);
    if g.ch == EOF || EndsName(g.ch) then Piece(buf, g.ch, g.rest)
    else
      var d := Decoded(g, lookup);
      if d.ch == EOF then Broken else NamePart(d.rest, buf + Utf8(d.ch), lookup)
  }

  function QuotedValue(s: string, buf: string, quote: int, lookup: Lookup): (p: Piece)
    ensures p.Piece? ==> |p.rest| <= |s|
    decreases |s|
  {
    var g := Getc(s);
    if g.ch == EOF || g.ch == quote then Piece(buf, g.ch, g.rest)
    else
      var d := Decoded(g, lookup);
      if d.ch == EOF then Broken else QuotedValue(d.rest, buf + Utf8(d.ch), quote, lookup)
  }

  function PlainValue(s: string, buf: string, lookup: Lookup): (p: Piece)
    ensures p.Piece? ==> |p.rest| <= |s|
    decreases |s|
  {
    var g := Getc(s);
    if g.ch == EOF || (EndsName(g.ch) && g.ch != '?' as int) then Piece(buf, g.ch, g.rest)
    else
      var d := Decoded(g, lookup);
      if d.ch == EOF then Broken else PlainValue(d.rest, buf + Utf8(d.ch), lookup)
  }

  predicate IsQuote(ch: int) {
    ch == '\"' as int || ch == '\'' as int
  }

  function ValuePart(s: string, lookup: Lookup): (p: Piece)
    ensures p.Piece? ==> |p.rest| <= |s|
  {
    var g := Getc(s);
    if g.ch == EOF then Broken
    else if IsQuote(g.ch) then QuotedValue(g.rest, "", g.ch, lookup)
    else PlainValue(g.rest, [Byte(g.ch)], lookup)
  }

  /** `mxmlElementSetAttr`: replaces the value, or adds the attribute behind the others. */
  function SetAttr(attrs: seq<Attr>, a: Attr): seq<Attr> {
    if attrs == [] then [a]
    else if attrs[0].name == a.name then [a] + attrs[1..]
    else [attrs[0]] + SetAttr(attrs[1..], a)
  }

  /** The attributes of a tag; `ch` is the character that ended it. Behind an attribute that cannot be
      read nothing more is read from the input.
   */
  datatype Attrs = Attrs(attrs: seq<Attr>, ch: int, rest: string)

  /** Behind the slash or question mark that ends a tag. */
  function TagEnd(ch: int, s: string): (r: Got)
    ensures |r.rest| <= |s|
  {
    var g := Getc(s);
    Got(if g.ch != '>' as int then EOF else ch, g.rest)
  }

  /** One attribute, whose name starts with `first`, and the character behind it. */
  function ParseAttr(first: int, s: string, attrs: seq<Attr>, lookup: Lookup): (r: Option<Attrs>)
    ensures r.Some? ==> |r.value.rest| <= |s|
  {
    var name := if IsQuote(first) then QuotedPart(s, [Byte(first)], first, lookup)
      else NamePart(s, [Byte(first)], lookup);
    if name.Broken? || FirstAttr(attrs, name.text).Some? then None
    else if name.ch == '=' as int then
      var value := ValuePart(name.rest, lookup);
      if value.Broken? then None
      else Some(Attrs(SetAttr(attrs, Attr(name.text, Some(value.text))), value.ch, value.rest))
    else Some(Attrs(SetAttr(attrs, Attr(name.text, None)), name.ch, name.rest))
  }

  /** `mxml_parse_element`. */
  function ParseAttrs(s: string, attrs: seq<Attr>, lookup: Lookup): (r: Attrs)
    ensures |r.rest| <= |s|
    decreases |s|, 0
  {
    var g := Getc(s);
    if g.ch == EOF then Attrs(attrs, EOF, g.rest)
    else if IsSpace(g.ch) then ParseAttrs(g.rest, attrs, lookup)
    else if g.ch == '/' as int || g.ch == '?' as int then
      var e := TagEnd(g.ch, g.rest);
      Attrs(attrs, e.ch, e.rest)
    else if g.ch == '>' as int then Attrs(attrs, g.ch, g.rest)
    else
      match ParseAttr(g.ch, g.rest, attrs, lookup)
      case None => Attrs(attrs, EOF, "")
      case Some(a) => AfterAttr(a.ch, a.rest, a.attrs, lookup)
  }

  /** The character behind an attribute may end the tag. */
  function AfterAttr(ch: int, s: string, attrs: seq<Attr>, lookup: Lookup): (r: Attrs)
    ensures |r.rest| <= |s|
    decreases |s|, 1
  {
    if ch == '/' as int || ch == '?' as int then
      var e := TagEnd(ch, s);
      Attrs(attrs, e.ch, e.rest)
    else if ch == '>' as int then Attrs(attrs, ch, s)
    else ParseAttrs(s, attrs, lookup)
  }

  // ---- Tags

  /** The name of a tag. It ends early in front of an instruction, a comment or a CDATA section. */
  function ReadTag(s: string, buf: string, lookup: Lookup): (p: Piece)
    ensures p.Piece? ==> |p.rest| <= |s|
    decreases |s|
  {
    var g := Getc(s);
    if g.ch == EOF || IsSpace(g.ch) || g.ch == '>' as int || (g.ch == '/' as int && buf != "") then
      Piece(buf, g.ch, g.rest)
    else if g.ch == '&' as int then
      var d := GetEntity(g.rest, lookup);
      if d.ch == EOF then Broken else ReadTag(d.rest, buf + Utf8(d.ch), lookup)
    else
      var more := buf + Utf8(g.ch);
      if more == "?" || more == "!--" || more == "![CDATA[" then Piece(more, g.ch, g.rest)
      else ReadTag(g.rest, more, lookup)
  }

  /** The rest of a comment: it ends with two hyphens, not three, and `>`. */
  function ReadComment(s: string, buf: string): (p: Piece)
    ensures p.Piece? ==> |p.rest| <= |s|
    decreases |s|
  {
    var g := Getc(s);
    var n := |buf|;
    if g.ch == EOF then Broken
    else if g.ch == '>' as int && n > 4 && buf[n - 3] != '-' && buf[n - 2] == '-' && buf[n - 1] == '-' then
      Piece(buf, g.ch, g.rest)
    else ReadComment(g.rest, buf + Utf8(g.ch))
  }

  function ReadCdata(s: string, buf: string): (p: Piece)
    ensures p.Piece? ==> |p.rest| <= |s|
    decreases |s|
  {
    var g := Getc(s);
    var n := |buf|;
    if g.ch == EOF then Broken
    else if g.ch == '>' as int && n >= 2 && buf[n - 2] == ']' && buf[n - 1] == ']' then Piece(buf, g.ch, g.rest)
    else ReadCdata(g.rest, buf + Utf8(g.ch))
  }

  /** The rest of a processing instruction: it ends with a question mark and `>`. */
  function ReadInstruction(s: string, buf: string): (p: Piece)
    ensures p.Piece? ==> |p.rest| <= |s|
    decreases |s|
  {
    var g := Getc(s);
    if g.ch == EOF then Broken
    else if g.ch == '>' as int && buf != "" && buf[|buf| - 1] == '?' then Piece(buf, g.ch, g.rest)
    else ReadInstruction(g.rest, buf + Utf8(g.ch))
  }

  /** The rest of a declaration, from the character `ch` on. */
  function ReadDeclaration(ch: int, s: string, buf: string, lookup: Lookup): (p: Piece)
    ensures p.Piece? ==> |p.rest| <= |s|
    decreases |s|
  {
    if ch == '>' as int then Piece(buf, ch, s)
    else
      var d := Decoded(Got(ch, s), lookup);
      if ch == '&' as int && d.ch == EOF then Broken
      else
        var g := Getc(d.rest);
        if g.ch == EOF then Broken else ReadDeclaration(g.ch, g.rest, buf + Utf8(d.ch), lookup)
  }

  /** Up to the end of a closing tag. */
  function SkipTag(ch: int, s: string): (r: string)
    ensures |r| <= |s|
    decreases |s|
  {
    if ch == '>' as int || ch == EOF then s
    else
      var g := Getc(s);
      if g.ch == EOF then g.rest else SkipTag(g.ch, g.rest)
  }

  // ---- The tree

  /** An element that is still open, with the children it has so far. */
  datatype Frame = Frame(name: string, attrs: seq<Attr>, children: seq<Node>)

  /** `stack` has the open elements, the innermost one last; its last element is the parent of the next
      node. Values are opaque text once an element has been opened.
   */
  datatype State = State(stack: seq<Frame>, opaque_: bool, buf: string)

  /** A node without an open parent is lost. */
  function Append(stack: seq<Frame>, n: Node): seq<Frame> {
    if stack == [] then []
    else
      var k := |stack| - 1;
      stack[..k] + [stack[k].(children := stack[k].children + [n])]
  }

  /** The text in front of a tag becomes a node. */
  function Flush(st: State): State {
    if st.buf == "" then st else State(Append(st.stack, Opaque(st.buf)), st.opaque_, "")
  }

  function Open(st: State, name: string, attrs: seq<Attr>): State {
    State(st.stack + [Frame(name, attrs, [])], true, "")
  }

  function Close(f: Frame): Node {
    Element(f.name, f.attrs, f.children)
  }

  function Pop(st: State): State
    requires st.stack != []
  {
    var k := |st.stack| - 1;
    State(Append(st.stack[..k], Close(st.stack[k])), st.opaque_, "")
  }

  function Leaf(st: State, name: string, attrs: seq<Attr>): State {
    State(Append(st.stack, Element(name, attrs, [])), st.opaque_, "")
  }

  datatype Step = Next(st: State, rest: string) | Stop(st: State) | Error

  /** The rest of an opening tag, whose name ended at `ch`. */
  function OpenStep(name: string, ch: int, s: string, st: State, lookup: Lookup): (r: Step)
    ensures r.Next? ==> |r.rest| <= |s|
  {
    if IsSpace(ch) then
      var a := ParseAttrs(s, [], lookup);
      if a.ch == EOF then Stop(Leaf(st, name, a.attrs))
      else if a.ch == '/' as int then Next(Leaf(st, name, a.attrs), a.rest)
      else Next(Open(st, name, a.attrs), a.rest)
    else if ch == '/' as int then
      var e := TagEnd(ch, s);
      if e.ch == EOF then Error else Next(Leaf(st, name, []), e.rest)
    else if ch == EOF then Stop(Leaf(st, name, []))
    else Next(Open(st, name, []), s)
  }

  /** What follows behind the name of a tag. */
  function TagStep(text: string, ch: int, s: string, st: State, lookup: Lookup): (r: Step)
    ensures r.Next? ==> |r.rest| <= |s|
  {
    if text == "!--" then
      var p := ReadComment(s, text);
      if p.Broken? then Error else Next(Leaf(st, p.text, []), p.rest)
    else if text == "![CDATA[" then
      var p := ReadCdata(s, text);
      if p.Broken? then Error else Next(Leaf(st, p.text, []), p.rest)
    else if "?" <= text then
      var p := ReadInstruction(s, text);
      if p.Broken? then Error else Next(Open(st, p.text, []), p.rest)
    else if "!" <= text then
      var p := ReadDeclaration(ch, s, text, lookup);
      if p.Broken? then Error else Next(Open(st, p.text, []), p.rest)
    else if "/" <= text then
      if st.stack == [] || text[1..] != st.stack[|st.stack| - 1].name then Error
      else Next(Pop(st), SkipTag(ch, s))
    else OpenStep(text, ch, s, st, lookup)
  }

  /** From behind the `<` of a tag to behind its end. */
  function Tag(s: string, st: State, lookup: Lookup): (r: Step)
    ensures r.Next? ==> |r.rest| <= |s|
  {
    var t := ReadTag(s, "", lookup);
    if t.Broken? then Error else TagStep(t.text, t.ch, t.rest, st, lookup)
  }

  /** The outermost element that is still open, with everything below it. */
  function Finish(stack: seq<Frame>): Option<Node>
    decreases |stack|
  {
    if stack == [] then None
    else if |stack| == 1 then Some(Close(stack[0]))
    else Finish(Append(stack[..|stack| - 1], Close(stack[|stack| - 1])))
  }

  /** `mxml_load_data` from the state `st`. */
  function Load(s: string, st: State, lookup: Lookup): Option<Node>
    decreases |s|
  {
    var g := Getc(s);
    if g.ch == EOF then Finish(st.stack)
    else if g.ch == '<' as int then
      match Tag(g.rest, Flush(st), lookup)
      case Error => None
      case Stop(t) => Finish(t.stack)
      case Next(t, rest) => Load(rest, t, lookup)
    else if IsSpace(g.ch) && !st.opaque_ then Load(g.rest, Flush(st), lookup)
    else
      var d := Decoded(g, lookup);
      if d.ch == EOF then None else Load(d.rest, st.(buf := st.buf + Utf8(d.ch)), lookup)
  }

  function LoadString(s: string, lookup: Lookup): Option<Node> {
    Load(s, State([], false, ""), lookup)
  }
}
