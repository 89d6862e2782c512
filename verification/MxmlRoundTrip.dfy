/** Loading what has been saved gives back the tree. */
module MxmlRoundTrip {
  import opened MxmlSave
  import opened MxmlLoad

  /** The entities that the writer uses. */
  ghost predicate Standard(lookup: Lookup) {
    && lookup("amp") == '&' as int && lookup("lt") == '<' as int
    && lookup("gt") == '>' as int && lookup("quot") == '\"' as int
  }

  /** ASCII without null bytes and control characters. */
  predicate Clean(s: string) {
    forall i :: 0 <= i < |s| ==> Plain(s[i])
  }

  predicate Plain(c: char) {
    c != '\0' && (c as int) < 128 && !Bad(c as int)
  }

  predicate TagName(s: string) {
    && s != "" && Clean(s)
    && s[0] !in "?!\"'"
    && forall i :: 0 <= i < |s| ==> !IsSpace(s[i] as int) && s[i] !in ">/&"
  }

  predicate AttrName(s: string) {
    && s != "" && Clean(s)
    && !IsSpace(s[0] as int) && s[0] !in "/?>\"'"
    && forall i :: 1 <= i < |s| ==> !EndsName(s[i] as int) && s[i] != '&'
  }

  predicate GoodAttrs(attrs: seq<Attr>) {
    && (forall i :: 0 <= i < |attrs| ==>
      AttrName(attrs[i].name) && (attrs[i].value.Some? ==> Clean(attrs[i].value.value)))
    && (forall i, j :: 0 <= i < j < |attrs| ==> attrs[i].name != attrs[j].name)
  }

  predicate GoodNode(n: Node)
    decreases n
  {
    match n
    case Opaque(t) => t != "" && Clean(t)
    case Element(name, attrs, children) => TagName(name) && GoodAttrs(attrs) && GoodNodes(children)
  }

  /** No two texts are neighbours: they would be read as one. */
  predicate GoodNodes(ns: seq<Node>)
    decreases ns
  {
    ns != [] ==> GoodNode(ns[0]) && GoodNodes(ns[1..]) && (|ns| > 1 ==> ns[0].Element? || ns[1].Element?)
  }

  /** An instruction such as `?xml version="1.0"?` with the document below it. */
  predicate Document(n: Node) {
    n.Element? && n.attrs == [] && GoodNodes(n.children) && Instruction(n.name)
  }

  /** There is no text behind the last element. */
  predicate EndsInElement(ns: seq<Node>) {
    ns == [] || ns[|ns| - 1].Element?
  }

  /** A document without the text behind its last element. */
  function WithoutTail(n: Node): Node
    requires n.Element?
  {
    if EndsInElement(n.children) then n else Element(n.name, n.attrs, n.children[..|n.children| - 1])
  }

  predicate Instruction(s: string) {
    && |s| >= 2 && Clean(s) && s[0] == '?' && s[|s| - 1] == '?'
    && forall i :: 0 <= i < |s| - 1 ==> !(s[i] == '?' && s[i + 1] == '>')
  }

  lemma GetcPlain(c: char, rest: string)
    requires Plain(c)
    ensures Getc([c] + rest) == Got(c as int, rest)
  {
    assert ([c] + rest)[1..] == rest;
  }

  lemma Utf8Plain(c: char)
    requires Plain(c)
    ensures Utf8(c as int) == [c]
  {
  }

  /** A named entity, read back. */
  lemma {:induction false} EntityRead(name: string, rest: string, done: string)
    requires |done| + |name| <= MAX_ENTITY && forall i :: 0 <= i < |name| ==> IsAlnum(name[i] as int)
    ensures ReadEntity(name + ";" + rest, done) == Named(done + name, ';' as int, rest)
    decreases |name|
  {
    if name == "" {
      assert name + ";" + rest == [';'] + rest;
      GetcPlain(';', rest);
      assert done + name == done;
    } else {
      assert name + ";" + rest == [name[0]] + (name[1..] + ";" + rest);
      GetcPlain(name[0], name[1..] + ";" + rest);
      EntityRead(name[1..], rest, done + [name[0]]);
      assert done + [name[0]] + name[1..] == done + name;
    }
  }

  /** An escaped character is decoded to itself. */
  lemma EscapeRead(c: char, rest: string, lookup: Lookup)
    requires Plain(c) && Standard(lookup)
    ensures var g := Getc(EscapeChar(c) + rest);
      g.ch == EscapeChar(c)[0] as int && Decoded(g, lookup) == Got(c as int, rest)
  {
    if EntityName(c).Some? {
      var n := EntityName(c).value;
      assert EscapeChar(c) + rest == ['&'] + (n + ";" + rest);
      GetcPlain('&', n + ";" + rest);
      EntityRead(n, rest, "");
      assert "" + n == n;
    } else {
      GetcPlain(c, rest);
    }
  }

  lemma CharRead(c: char, rest: string, st: State, lookup: Lookup)
    requires Plain(c) && st.opaque_ && Standard(lookup)
    ensures Load(EscapeChar(c) + rest, st, lookup) == Load(rest, st.(buf := st.buf + [c]), lookup)
  {
    hide Decoded, Utf8;
    EscapeRead(c, rest, lookup);
    Utf8Plain(c);
  }

  /** Escaped text goes into the buffer. */
  lemma {:induction false} TextRead(t: string, rest: string, st: State, lookup: Lookup)
    requires Clean(t) && st.opaque_ && Standard(lookup)
    ensures Load(Escape(t) + rest, st, lookup) == Load(rest, st.(buf := st.buf + t), lookup)
    decreases |t|
  {
    hide Load, EscapeChar;
    if t == "" {
      assert Escape(t) + rest == rest;
      assert st.(buf := st.buf + t) == st;
    } else {
      var more := Escape(t[1..]) + rest;
      assert Escape(t) + rest == EscapeChar(t[0]) + more;
      CharRead(t[0], more, st, lookup);
      TextRead(t[1..], rest, st.(buf := st.buf + [t[0]]), lookup);
      assert st.buf + [t[0]] + t[1..] == st.buf + t;
    }
  }

  /** The value of an attribute, up to its closing quote. */
  lemma {:induction false} ValueRead(v: string, rest: string, done: string, lookup: Lookup)
    requires Clean(v) && Standard(lookup)
    ensures QuotedValue(Escape(v) + "\"" + rest, done, '\"' as int, lookup) == Piece(done + v, '\"' as int, rest)
    decreases |v|
  {
    hide QuotedValue, EscapeChar, Standard;
    if v == "" {
      assert Escape(v) + "\"" + rest == "\"" + rest;
      ValueEnds(rest, done, lookup);
      assert done + v == done;
    } else {
      var more := Escape(v[1..]) + "\"" + rest;
      assert Escape(v) + "\"" + rest == EscapeChar(v[0]) + more;
      ValueStep(v[0], more, done, lookup);
      ValueRead(v[1..], rest, done + [v[0]], lookup);
      assert done + [v[0]] + v[1..] == done + v;
    }
  }

  lemma ValueEnds(rest: string, done: string, lookup: Lookup)
    ensures QuotedValue("\"" + rest, done, '\"' as int, lookup) == Piece(done, '\"' as int, rest)
  {
    GetcPlain('\"', rest);
  }

  lemma ValueStep(c: char, more: string, done: string, lookup: Lookup)
    requires Plain(c) && Standard(lookup)
    ensures QuotedValue(EscapeChar(c) + more, done, '\"' as int, lookup) ==
      QuotedValue(more, done + [c], '\"' as int, lookup)
  {
    hide Decoded, Utf8;
    EscapeRead(c, more, lookup);
    Utf8Plain(c);
  }

  /** The rest of an attribute name, up to the character behind it. */
  lemma {:induction false} NameRead(s: string, c: char, rest: string, done: string, lookup: Lookup)
    requires Clean(s) && (forall i :: 0 <= i < |s| ==> !EndsName(s[i] as int) && s[i] != '&')
    requires Plain(c) && EndsName(c as int)
    ensures NamePart(s + [c] + rest, done, lookup) == Piece(done + s, c as int, rest)
    decreases |s|
  {
    if s == "" {
      assert s + [c] + rest == [c] + rest;
      GetcPlain(c, rest);
      assert done + s == done;
    } else {
      assert s + [c] + rest == [s[0]] + (s[1..] + [c] + rest);
      GetcPlain(s[0], s[1..] + [c] + rest);
      Utf8Plain(s[0]);
      NameRead(s[1..], c, rest, done + [s[0]], lookup);
      assert done + [s[0]] + s[1..] == done + s;
    }
  }

  lemma {:induction false} NewAttr(attrs: seq<Attr>, a: Attr)
    requires forall i :: 0 <= i < |attrs| ==> attrs[i].name != a.name
    ensures FirstAttr(attrs, a.name) == None && SetAttr(attrs, a) == attrs + [a]
  {
    if attrs != [] {
      NewAttr(attrs[1..], a);
    }
  }

  lemma SkipSpace(c: char, rest: string, done: seq<Attr>, lookup: Lookup)
    requires Plain(c) && IsSpace(c as int)
    ensures ParseAttrs([c] + rest, done, lookup) == ParseAttrs(rest, done, lookup)
  {
    GetcPlain(c, rest);
  }

  lemma TagStops(rest: string, done: seq<Attr>, lookup: Lookup)
    ensures ParseAttrs(">" + rest, done, lookup) == Attrs(done, '>' as int, rest)
  {
    GetcPlain('>', rest);
  }

  /** A name that has been read, with its value. */
  lemma OneAttr(first: char, more: string, done: seq<Attr>, name: Piece, lookup: Lookup)
    requires Plain(first) && !IsSpace(first as int) && first !in "/?>\"'"
    requires name == NamePart(more, [first], lookup) && name.Piece? && FirstAttr(done, name.text) == None
    ensures name.ch != '=' as int ==>
      ParseAttrs([first] + more, done, lookup) ==
        AfterAttr(name.ch, name.rest, SetAttr(done, Attr(name.text, None)), lookup)
    ensures name.ch == '=' as int && ValuePart(name.rest, lookup).Piece? ==>
      var v := ValuePart(name.rest, lookup);
      ParseAttrs([first] + more, done, lookup) ==
        AfterAttr(v.ch, v.rest, SetAttr(done, Attr(name.text, Some(v.text))), lookup)
  {
    hide NamePart, ValuePart, FirstAttr, SetAttr, AfterAttr;
    GetcPlain(first, more);
    assert Byte(first as int) == first;
  }

  lemma AfterIs(c: char, rest: string, done: seq<Attr>, lookup: Lookup)
    requires c == ' ' || c == '\n' || c == '>' || c == '\"'
    ensures c != '\"' ==> AfterAttr(c as int, rest, done, lookup) == ParseAttrs([c] + rest, done, lookup)
    ensures c == '\"' ==> AfterAttr(c as int, rest, done, lookup) == ParseAttrs(rest, done, lookup)
  {
    hide ParseAttrs;
    if c == ' ' || c == '\n' {
      SkipSpace(c, rest, done, lookup);
    } else if c == '>' {
      TagStops(rest, done, lookup);
    }
  }

  lemma QuotedRead(v: string, rest: string, lookup: Lookup)
    requires Clean(v) && Standard(lookup)
    ensures ValuePart("\"" + Escape(v) + "\"" + rest, lookup) == Piece(v, '\"' as int, rest)
  {
    hide QuotedValue, Escape, Clean, Standard;
    assert "\"" + Escape(v) + "\"" + rest == ['\"'] + (Escape(v) + "\"" + rest);
    GetcPlain('\"', Escape(v) + "\"" + rest);
    ValueRead(v, rest, "", lookup);
    assert "" + v == v;
  }

  lemma NameStart(name: string)
    requires AttrName(name)
    ensures name != "" && Plain(name[0]) && !IsSpace(name[0] as int) && name[0] !in "/?>\"'"
    ensures name == [name[0]] + name[1..]
    ensures Clean(name[1..])
    ensures forall i :: 0 <= i < |name[1..]| ==> !EndsName(name[1..][i] as int) && name[1..][i] != '&'
  {
  }

  lemma ValuedText(name: string, v: string, tail: string)
    requires name != ""
    ensures name + ("=\"" + v + "\"") + tail == [name[0]] + (name[1..] + ['='] + ("\"" + v + "\"" + tail))
  {
  }

  lemma BareText(name: string, tail: string)
    requires name != ""
    ensures name + "" + tail == [name[0]] + (name[1..] + tail)
  {
  }

  /** One attribute. `c` is the character behind it. */
  lemma AttrBody(a: Attr, c: char, rest: string, done: seq<Attr>, lookup: Lookup)
    requires AttrName(a.name) && (a.value.Some? ==> Clean(a.value.value)) && Standard(lookup)
    requires forall i :: 0 <= i < |done| ==> done[i].name != a.name
    requires c == ' ' || c == '\n' || c == '>'
    ensures ParseAttrs(a.name + (if a.value.Some? then "=\"" + Escape(a.value.value) + "\"" else "") + ([c] + rest),
      done, lookup)
      == ParseAttrs([c] + rest, done + [a], lookup)
  {
    hide Escape, FirstAttr, SetAttr, NamePart, ValuePart, ParseAttrs, AfterAttr, AttrName, Clean, Standard;
    NameStart(a.name);
    NewAttr(done, a);
    var first, more := a.name[0], a.name[1..];
    if a.value.Some? {
      var v := "\"" + Escape(a.value.value) + "\"" + ([c] + rest);
      NameRead(more, '=', v, [first], lookup);
      QuotedRead(a.value.value, [c] + rest, lookup);
      OneAttr(first, more + ['='] + v, done, Piece(a.name, '=' as int, v), lookup);
      AfterIs('\"', [c] + rest, done + [a], lookup);
      ValuedText(a.name, Escape(a.value.value), [c] + rest);
    } else {
      NameRead(more, c, rest, [first], lookup);
      OneAttr(first, more + [c] + rest, done, Piece(a.name, c as int, rest), lookup);
      AfterIs(c, rest, done + [a], lookup);
      BareText(a.name, [c] + rest);
      assert more + ([c] + rest) == more + [c] + rest;
    }
  }

  lemma NotQuoted(name: string)
    requires AttrName(name) || TagName(name)
    ensures name != "" && NameText(name) == name
  {
  }

  /** One attribute, whatever white space is in front of it. */
  lemma AttrRead(a: Attr, col: nat, c: char, rest: string, done: seq<Attr>, lookup: Lookup)
    requires AttrName(a.name) && (a.value.Some? ==> Clean(a.value.value)) && Standard(lookup)
    requires forall i :: 0 <= i < |done| ==> done[i].name != a.name
    requires c == ' ' || c == '\n' || c == '>'
    ensures ParseAttrs(AttrText(a, col).text + [c] + rest, done, lookup) == ParseAttrs([c] + rest, done + [a], lookup)
  {
    hide AttrName, Clean, ParseAttrs, Escape, NameText, Standard;
    var body := AttrBare(a) + ([c] + rest);
    var sep := Separator(a, col);
    AttrParts(a, col, c, rest);
    SkipSpace(sep, body, done, lookup);
    AttrBody(a, c, rest, done, lookup);
  }

  function AttrBare(a: Attr): string {
    a.name + if a.value.Some? then "=\"" + Escape(a.value.value) + "\"" else ""
  }

  function Separator(a: Attr, col: nat): char {
    if col + Width(a) > WRAP then '\n' else ' '
  }

  lemma AttrParts(a: Attr, col: nat, c: char, rest: string)
    requires AttrName(a.name)
    ensures AttrText(a, col).text + [c] + rest == [Separator(a, col)] + (AttrBare(a) + ([c] + rest))
  {
    hide AttrName, Escape, NameText;
    NotQuoted(a.name);
    assert AttrText(a, col).text == [Separator(a, col)] + AttrBare(a);
  }

  lemma AttrStarts(a: Attr, col: nat)
    ensures AttrText(a, col).text != "" && (AttrText(a, col).text[0] == ' ' || AttrText(a, col).text[0] == '\n')
  {
  }

  /** All attributes of a tag. */
  lemma {:induction false} AttrsRead(attrs: seq<Attr>, col: nat, c: char, rest: string, done: seq<Attr>, lookup: Lookup)
    requires GoodAttrs(done + attrs) && Standard(lookup) && (c == ' ' || c == '>')
    ensures ParseAttrs(AttrsText(attrs, col).text + [c] + rest, done, lookup) ==
      ParseAttrs([c] + rest, done + attrs, lookup)
    decreases |attrs|
  {
    hide ParseAttrs, AttrText, AttrName, Clean, Standard;
    if attrs == [] {
      assert AttrsText(attrs, col).text + [c] + rest == [c] + rest;
      assert done + attrs == done;
    } else {
      var a := attrs[0];
      var t := AttrText(a, col);
      var more := AttrsText(attrs[1..], t.col).text + [c] + rest;
      assert (done + attrs)[|done|] == a;
      forall i | 0 <= i < |done|
        ensures done[i].name != a.name
      {
        assert (done + attrs)[i] == done[i];
      }
      assert more != "" && (more[0] == ' ' || more[0] == '\n' || more[0] == '>') by {
        if attrs[1..] != [] {
          AttrStarts(attrs[1..][0], t.col);
        }
      }
      assert more == [more[0]] + more[1..];
      assert AttrsText(attrs, col).text + [c] + rest == t.text + [more[0]] + more[1..];
      AttrRead(a, col, more[0], more[1..], done, lookup);
      assert done + [a] + attrs[1..] == done + attrs;
      AttrsRead(attrs[1..], t.col, c, rest, done + [a], lookup);
    }
  }

  predicate TagChars(s: string) {
    Clean(s) && forall i :: 0 <= i < |s| ==> !IsSpace(s[i] as int) && s[i] !in ">/&"
  }

  /** The name of an opening tag, up to the white space or bracket behind it. */
  lemma {:induction false} TagRead(s: string, c: char, rest: string, done: string, lookup: Lookup)
    requires TagChars(s) && done + s != "" && (done + s)[0] != '?' && (done + s)[0] != '!'
    requires c == ' ' || c == '\n' || c == '>'
    ensures ReadTag(s + [c] + rest, done, lookup) == Piece(done + s, c as int, rest)
    decreases |s|
  {
    if s == "" {
      assert s + [c] + rest == [c] + rest;
      GetcPlain(c, rest);
      assert done + s == done;
    } else {
      var more := done + [s[0]];
      assert s + [c] + rest == [s[0]] + (s[1..] + [c] + rest);
      GetcPlain(s[0], s[1..] + [c] + rest);
      Utf8Plain(s[0]);
      assert more + s[1..] == done + s;
      assert more[0] == (done + s)[0];
      TagRead(s[1..], c, rest, more, lookup);
    }
  }

  /** The name of a closing tag, which is escaped. */
  lemma {:induction false} CloseRead(s: string, rest: string, done: string, lookup: Lookup)
    requires TagChars(s) && done != "" && done[0] == '/' && Standard(lookup)
    ensures ReadTag(Escape(s) + ">" + rest, done, lookup) == Piece(done + s, '>' as int, rest)
    decreases |s|
  {
    hide ReadTag, EscapeChar, Standard;
    if s == "" {
      assert Escape(s) + ">" + rest == ">" + rest;
      CloseEnds(rest, done, lookup);
      assert done + s == done;
    } else {
      var more := Escape(s[1..]) + ">" + rest;
      assert Escape(s) + ">" + rest == EscapeChar(s[0]) + more;
      CloseStep(s[0], more, done, lookup);
      CloseRead(s[1..], rest, done + [s[0]], lookup);
      assert done + [s[0]] + s[1..] == done + s;
    }
  }

  lemma CloseStep(c: char, more: string, done: string, lookup: Lookup)
    requires Plain(c) && !IsSpace(c as int) && c !in ">/&" && done != "" && done[0] == '/' && Standard(lookup)
    ensures ReadTag(EscapeChar(c) + more, done, lookup) == ReadTag(more, done + [c], lookup)
  {
    hide GetEntity, Utf8;
    EscapeRead(c, more, lookup);
    Utf8Plain(c);
    assert (done + [c])[0] == '/' && "?"[0] == '?' && "!--"[0] == '!' && "![CDATA["[0] == '!';
  }

  lemma CloseEnds(rest: string, done: string, lookup: Lookup)
    ensures ReadTag(">" + rest, done, lookup) == Piece(done, '>' as int, rest)
  {
    GetcPlain('>', rest);
  }

  /** An instruction, up to its end. */
  lemma {:induction false} InstructionRead(s: string, rest: string, k: nat)
    requires Instruction(s) && 1 <= k <= |s|
    ensures ReadInstruction(s[k..] + ">" + rest, s[..k]) == Piece(s, '>' as int, rest)
    decreases |s| - k
  {
    if k == |s| {
      assert s[k..] + ">" + rest == ['>'] + rest;
      GetcPlain('>', rest);
      assert s[..k] == s;
    } else {
      assert s[k..] + ">" + rest == [s[k]] + (s[k + 1..] + ">" + rest);
      GetcPlain(s[k], s[k + 1..] + ">" + rest);
      Utf8Plain(s[k]);
      assert s[..k] + [s[k]] == s[..k + 1];
      assert s[..k][k - 1] == s[k - 1];
      InstructionRead(s, rest, k + 1);
    }
  }

  lemma EmptyEnds(rest: string, done: seq<Attr>, lookup: Lookup)
    ensures ParseAttrs(" />" + rest, done, lookup) == Attrs(done, '/' as int, rest)
  {
    hide ParseAttrs;
    assert " />" + rest == [' '] + ("/>" + rest);
    SkipSpace(' ', "/>" + rest, done, lookup);
    SlashEnds(rest, done, lookup);
  }

  lemma SlashEnds(rest: string, done: seq<Attr>, lookup: Lookup)
    ensures ParseAttrs("/>" + rest, done, lookup) == Attrs(done, '/' as int, rest)
  {
    assert "/>" + rest == ['/'] + (">" + rest);
    GetcPlain('/', ">" + rest);
    GetcPlain('>', rest);
  }

  /** What `Tag` does behind the name of an opening tag. */
  lemma TagOpens(s: string, name: string, c: int, rest: string, st: State, lookup: Lookup)
    requires TagName(name) && ReadTag(s, "", lookup) == Piece(name, c, rest)
    ensures c == '>' as int ==> Tag(s, st, lookup) == Next(Open(st, name, []), rest)
    ensures IsSpace(c) && ParseAttrs(rest, [], lookup).ch == '>' as int ==>
      Tag(s, st, lookup) == Next(Open(st, name, ParseAttrs(rest, [], lookup).attrs), ParseAttrs(rest, [], lookup).rest)
    ensures IsSpace(c) && ParseAttrs(rest, [], lookup).ch == '/' as int ==>
      Tag(s, st, lookup) == Next(Leaf(st, name, ParseAttrs(rest, [], lookup).attrs), ParseAttrs(rest, [], lookup).rest)
  {
    hide ReadTag, ParseAttrs, Open, Leaf;
  }

  lemma TagEnds(empty: bool, rest: string, done: seq<Attr>, lookup: Lookup)
    ensures ParseAttrs((if empty then " />" else ">") + rest, done, lookup) ==
      Attrs(done, (if empty then '/' else '>') as int, rest)
  {
    hide ParseAttrs;
    if empty {
      EmptyEnds(rest, done, lookup);
    } else {
      TagStops(rest, done, lookup);
    }
  }

  /** An opening tag without attributes: `end` is `>` in front of children and ` />` without any. */
  lemma OpenBare(name: string, empty: bool, rest: string, st: State, lookup: Lookup)
    requires TagName(name) && Standard(lookup)
    ensures Tag(name + (if empty then " />" else ">") + rest, st, lookup) ==
      Next(if empty then Leaf(st, name, []) else Open(st, name, []), rest)
  {
    hide ParseAttrs, ReadTag, Tag, Open, Leaf, Standard;
    var end := if empty then " />" else ">";
    var tail := (if empty then "/>" else "") + rest;
    assert name + end + rest == name + [end[0]] + tail;
    NameTag(name);
    assert "" + name == name;
    TagRead(name, end[0], tail, "", lookup);
    TagOpens(name + end + rest, name, end[0] as int, tail, st, lookup);
    if empty {
      SlashEnds(rest, [], lookup);
    }
  }

  /** An opening tag with the attributes that stand in `text`. */
  lemma OpenWith(name: string, text: string, attrs: seq<Attr>, empty: bool, rest: string, st: State, lookup: Lookup)
    requires TagName(name) && text != "" && (text[0] == ' ' || text[0] == '\n')
    requires ParseAttrs(text + ((if empty then " />" else ">") + rest), [], lookup) ==
      ParseAttrs((if empty then " />" else ">") + rest, attrs, lookup)
    ensures Tag(name + (text + ((if empty then " />" else ">") + rest)), st, lookup) ==
      Next(if empty then Leaf(st, name, attrs) else Open(st, name, attrs), rest)
  {
    hide ParseAttrs, ReadTag, Tag, Open, Leaf;
    var tail := (if empty then " />" else ">") + rest;
    var sep, more := text[0], text[1..] + tail;
    assert text + tail == [sep] + more;
    assert name + ([sep] + more) == name + [sep] + more;
    NameTag(name);
    assert "" + name == name;
    TagRead(name, sep, more, "", lookup);
    TagOpens(name + [sep] + more, name, sep as int, more, st, lookup);
    SkipSpace(sep, more, [], lookup);
    TagEnds(empty, rest, attrs, lookup);
  }

  /** A whole opening tag. */
  lemma OpenRead(name: string, attrs: seq<Attr>, col: nat, empty: bool, rest: string, st: State, lookup: Lookup)
    requires TagName(name) && GoodAttrs(attrs) && Standard(lookup)
    ensures Tag(name + (AttrsText(attrs, col).text + ((if empty then " />" else ">") + rest)), st, lookup) ==
      Next(if empty then Leaf(st, name, attrs) else Open(st, name, attrs), rest)
  {
    hide ParseAttrs, ReadTag, Tag, Open, Leaf, Standard, AttrText, GoodAttrs;
    var text, end := AttrsText(attrs, col).text, if empty then " />" else ">";
    if attrs == [] {
      assert name + (text + (end + rest)) == name + end + rest;
      OpenBare(name, empty, rest, st, lookup);
    } else {
      SepFirst(attrs, col);
      assert [] + attrs == attrs;
      AttrsRead(attrs, col, end[0], end[1..] + rest, [], lookup);
      assert text + (end + rest) == text + [end[0]] + (end[1..] + rest);
      assert end + rest == [end[0]] + (end[1..] + rest);
      OpenWith(name, text, attrs, empty, rest, st, lookup);
    }
  }

  lemma NameTag(name: string)
    requires TagName(name)
    ensures name != "" && TagChars(name) && name[0] != '?' && name[0] != '!' && OpenName(name) == name && !Special(name)
    ensures !("?xml" <= name) && TagChars(name)
  {
    NotQuoted(name);
    assert "!--"[0] == '!' && "![CDATA["[0] == '!' && "?xml"[0] == '?';
  }

  lemma SepFirst(attrs: seq<Attr>, col: nat)
    requires attrs != []
    ensures AttrsText(attrs, col).text != ""
    ensures AttrsText(attrs, col).text[0] == ' ' || AttrsText(attrs, col).text[0] == '\n'
  {
    AttrStarts(attrs[0], col);
  }

  // ---- Whole trees

  /** The state after a node has been read. */
  function Add(st: State, n: Node): State {
    if n.Opaque? then st.(buf := st.buf + n.text) else State(Append(Flush(st).stack, n), true, "")
  }

  function AddAll(st: State, ns: seq<Node>): State
    decreases |ns|
  {
    if ns == [] then st else AddAll(Add(st, ns[0]), ns[1..])
  }

  /** Children of the innermost open element. */
  function AppendAll(stack: seq<Frame>, ns: seq<Node>): seq<Frame> {
    if stack == [] then []
    else
      var k := |stack| - 1;
      stack[..k] + [stack[k].(children := stack[k].children + ns)]
  }

  lemma AddedOne(st: State, n: Node)
    requires GoodNode(n) && (n.Opaque? ==> st.buf == "")
    ensures Flush(Add(st, n)).stack == Append(Flush(st).stack, n)
    ensures n.Element? ==> Add(st, n).buf == ""
  {
    if n.Opaque? {
      assert "" + n.text == n.text;
    }
  }

  /** When the pending text is taken into account, all nodes are children of the innermost element. */
  lemma {:induction false} Added(st: State, ns: seq<Node>)
    requires st.opaque_ && GoodNodes(ns) && (ns != [] && ns[0].Opaque? ==> st.buf == "")
    ensures Flush(AddAll(st, ns)).stack == AppendAll(Flush(st).stack, ns)
    ensures AddAll(st, ns).opaque_
    ensures ns != [] && ns[|ns| - 1].Element? ==> AddAll(st, ns).buf == ""
    decreases |ns|
  {
    hide Flush, GoodNode;
    if ns == [] {
      AppendNone(Flush(st).stack);
    } else {
      AddedOne(st, ns[0]);
      Added(Add(st, ns[0]), ns[1..]);
      AppendFirst(Flush(st).stack, ns);
      if |ns| > 1 {
        assert ns[1..][|ns| - 2] == ns[|ns| - 1];
      }
    }
  }

  lemma AppendNone(stack: seq<Frame>)
    ensures AppendAll(stack, []) == stack
  {
    if stack != [] {
      var k := |stack| - 1;
      assert stack[k].children + [] == stack[k].children;
    }
  }

  lemma AppendFirst(stack: seq<Frame>, ns: seq<Node>)
    requires ns != []
    ensures AppendAll(Append(stack, ns[0]), ns[1..]) == AppendAll(stack, ns)
  {
    if stack != [] {
      var k := |stack| - 1;
      assert stack[k].children + [ns[0]] + ns[1..] == stack[k].children + ns;
    }
  }

  /** The start of a tag, read in the middle of text. */
  lemma LessThan(rest: string, st: State, lookup: Lookup)
    ensures Load("<" + rest, st, lookup) ==
      match Tag(rest, Flush(st), lookup)
      case Error => None
      case Stop(t) => Finish(t.stack)
      case Next(t, more) => Load(more, t, lookup)
  {
    hide Tag, Flush, Finish;
    GetcPlain('<', rest);
  }

  /** A closing tag closes the innermost element. */
  lemma CloseTag(name: string, rest: string, st: State, lookup: Lookup)
    requires TagName(name) && Standard(lookup) && st.stack != [] && st.stack[|st.stack| - 1].name == name
    ensures Tag("/" + Escape(name) + ">" + rest, st, lookup) == Next(Pop(st), rest)
  {
    hide ReadTag, Pop, Escape, Standard;
    NameTag(name);
    var s := Escape(name) + ">" + rest;
    assert "/" + Escape(name) + ">" + rest == ['/'] + s;
    SlashFirst(s, lookup);
    CloseRead(name, rest, "/", lookup);
    var t := "/" + name;
    assert t[0] == '/' && t[1..] == name && |t| > 1;
  }

  lemma SlashFirst(s: string, lookup: Lookup)
    ensures ReadTag(['/'] + s, "", lookup) == ReadTag(s, "/", lookup)
  {
    GetcPlain('/', s);
    assert "" + Utf8('/' as int) == "/";
  }

  lemma Regroup(name: string, a: string, c: string, e: string, rest: string)
    ensures "<" + name + a + ">" + c + "</" + e + ">" + rest ==
      "<" + (name + (a + (">" + (c + ("<" + ("/" + e + ">" + rest))))))
  {
  }

  lemma RegroupLeaf(name: string, a: string, rest: string)
    ensures "<" + name + a + " />" + rest == "<" + (name + (a + (" />" + rest)))
  {
  }

  /** The text of an element, from the front. */
  lemma ElementText(name: string, attrs: seq<Attr>, children: seq<Node>, col: nat, rest: string)
    requires TagName(name)
    ensures var a := AttrsText(attrs, OpenCol(name, col));
      var c := NodesText(children, a.col + 1).text;
      NodeText(Element(name, attrs, children), col).text + rest ==
        "<" + (name + (a.text + if children == [] then " />" + rest
          else ">" + (c + ("<" + ("/" + Escape(name) + ">" + rest)))))
  {
    hide OpenTag, AttrsText, NodesText, Escape, Special, TagName;
    OpenTagIs(name, attrs, col);
    var a := AttrsText(attrs, OpenCol(name, col));
    Regroup(name, a.text, NodesText(children, a.col + 1).text, Escape(name), rest);
    RegroupLeaf(name, a.text, rest);
  }

  /** Reading one node adds it. */
  lemma {:induction false} NodeRead(n: Node, col: nat, rest: string, st: State, lookup: Lookup)
    requires GoodNode(n) && Standard(lookup) && st.opaque_ && st.stack != [] && (n.Opaque? ==> st.buf == "")
    ensures Load(NodeText(n, col).text + rest, st, lookup) == Load(rest, Add(st, n), lookup)
    decreases n, 0
  {
    hide Load, Tag, Standard, Flush, OpenTag, AttrsText, NodesText, TagName, GoodAttrs, GoodNodes, Clean;
    match n
    case Opaque(t) =>
      TextRead(t, rest, st, lookup);
    case Element(name, attrs, children) =>
      if children == [] {
        ElementText(name, attrs, children, col, rest);
        var s := name + (AttrsText(attrs, OpenCol(name, col)).text + (" />" + rest));
        LessThan(s, st, lookup);
        OpenRead(name, attrs, OpenCol(name, col), true, rest, Flush(st), lookup);
        Flushed(st);
      } else {
        ElementRead(name, attrs, children, col, rest, st, lookup);
      }
  }

  lemma OpenTagIs(name: string, attrs: seq<Attr>, col: nat)
    requires TagName(name)
    ensures !Special(name)
    ensures var a := AttrsText(attrs, OpenCol(name, col));
      OpenTag(name, attrs, col) == Written("<" + name + a.text, a.col)
  {
    NameTag(name);
  }

  lemma Flushed(st: State)
    ensures Flush(st).buf == "" && Flush(st).opaque_ == st.opaque_ && |Flush(st).stack| == |st.stack|
  {
  }

  /** An element with children: its tags, and what is between them. */
  lemma {:induction false} ElementRead(name: string, attrs: seq<Attr>, children: seq<Node>, col: nat, rest: string,
      st: State, lookup: Lookup)
    requires TagName(name) && GoodAttrs(attrs) && GoodNodes(children) && children != [] && Standard(lookup)
    ensures var n := Element(name, attrs, children);
      Load(NodeText(n, col).text + rest, st, lookup) == Load(rest, Add(st, n), lookup)
    decreases children, 1
  {
    hide Load, Tag, Standard, Flush, OpenTag, Escape, TagName, GoodAttrs, GoodNodes, NodeText, NodesText, AttrsText,
      Open, AddAll,
      Add, AppendAll, Append, Pop;
    var f := Flush(st);
    var a := AttrsText(attrs, OpenCol(name, col));
    var c := NodesText(children, a.col + 1).text;
    var close := "/" + Escape(name) + ">" + rest;
    ElementText(name, attrs, children, col, rest);
    LessThan(name + (a.text + (">" + (c + ("<" + close)))), st, lookup);
    OpenRead(name, attrs, OpenCol(name, col), false, c + ("<" + close), f, lookup);
    Flushed(st);
    OpenFrame(f, name, attrs, children);
    NodesRead(children, a.col + 1, "<" + close, Open(f, name, attrs), lookup);
    CloseRest(name, attrs, children, rest, st, lookup);
  }

  /** Behind the children of an element. */
  lemma CloseRest(name: string, attrs: seq<Attr>, children: seq<Node>, rest: string, st: State, lookup: Lookup)
    requires TagName(name) && GoodNodes(children) && Standard(lookup)
    ensures var p := AddAll(Open(Flush(st), name, attrs), children);
      Load("<" + ("/" + Escape(name) + ">" + rest), p, lookup) ==
        Load(rest, Add(st, Element(name, attrs, children)), lookup)
  {
    hide Load, Tag, Standard, Flush, Escape, TagName, GoodNodes, Append, AppendAll, Pop;
    var f := Flush(st);
    var o := Open(f, name, attrs);
    var p := AddAll(o, children);
    Flushed(st);
    OpenFrame(f, name, attrs, children);
    Added(o, children);
    Flushed(p);
    LessThan("/" + Escape(name) + ">" + rest, p, lookup);
    CloseTag(name, rest, Flush(p), lookup);
  }

  /** Behind the children, closing the element makes it a child of the one around it. */
  lemma OpenFrame(f: State, name: string, attrs: seq<Attr>, children: seq<Node>)
    requires f.buf == ""
    ensures var o := Open(f, name, attrs);
      && Flush(o) == o && o.opaque_ && o.stack != [] && o.buf == ""
      && AppendAll(o.stack, children) == f.stack + [Frame(name, attrs, children)]
    ensures Pop(State(f.stack + [Frame(name, attrs, children)], true, "")) ==
      State(Append(f.stack, Element(name, attrs, children)), true, "")
  {
    assert [] + children == children;
    assert (f.stack + [Frame(name, attrs, children)])[..|f.stack|] == f.stack;
  }

  lemma {:induction false} NodesRead(ns: seq<Node>, col: nat, rest: string, st: State, lookup: Lookup)
    requires GoodNodes(ns) && Standard(lookup) && st.opaque_ && st.stack != []
    requires ns != [] && ns[0].Opaque? ==> st.buf == ""
    ensures Load(NodesText(ns, col).text + rest, st, lookup) == Load(rest, AddAll(st, ns), lookup)
    decreases ns, 0
  {
    hide Load, Standard, NodeText, GoodNode;
    if ns == [] {
      assert NodesText(ns, col).text + rest == rest;
    } else {
      var first := NodeText(ns[0], col);
      var more := NodesText(ns[1..], first.col).text + rest;
      assert NodesText(ns, col).text + rest == first.text + more;
      NodeRead(ns[0], col, more, st, lookup);
      AddKeeps(st, ns[0]);
      NodesRead(ns[1..], first.col, rest, Add(st, ns[0]), lookup);
    }
  }

  lemma AddKeeps(st: State, n: Node)
    requires st.opaque_ && st.stack != []
    ensures Add(st, n).opaque_ && Add(st, n).stack != []
    ensures n.Element? ==> Add(st, n).buf == ""
  {
  }

  /** The instruction at the top and everything below it. */
  /** A text is added to the pending one. */
  lemma {:induction false} AddLast(st: State, ns: seq<Node>)
    requires ns != []
    ensures AddAll(st, ns) == Add(AddAll(st, ns[..|ns| - 1]), ns[|ns| - 1])
    decreases |ns|
  {
    hide Add;
    if |ns| > 1 {
      AddLast(Add(st, ns[0]), ns[1..]);
      assert ns[1..][..|ns| - 2] == ns[..|ns| - 1][1..];
    } else {
      assert ns == [ns[0]] && ns[1..] == [];
    }
  }

  /** In front of a text there is an element, if anything. */
  lemma {:induction false} BeforeTail(ns: seq<Node>)
    requires GoodNodes(ns) && !EndsInElement(ns)
    ensures GoodNodes(ns[..|ns| - 1]) && EndsInElement(ns[..|ns| - 1])
    decreases |ns|
  {
    if |ns| > 1 {
      var front := ns[..|ns| - 1];
      assert ns[1..][|ns| - 2] == ns[|ns| - 1];
      BeforeTail(ns[1..]);
      assert ns[1..][..|ns| - 2] == front[1..];
    }
  }

  /** What the loader has of the children at the end of the input. */
  lemma TopAdded(top: Node)
    requires Document(top)
    ensures var t := AddAll(State([Frame(top.name, [], [])], true, ""), top.children);
      t.stack == [Frame(top.name, [], WithoutTail(top).children)] && t.opaque_
  {
    hide GoodNodes, Instruction, AddAll;
    var o, ns := State([Frame(top.name, [], [])], true, ""), top.children;
    if EndsInElement(ns) {
      OpenAdded(top.name, ns);
    } else {
      BeforeTail(ns);
      OpenAdded(top.name, ns[..|ns| - 1]);
      AddLast(o, ns);
    }
  }

  lemma OpenAdded(name: string, ns: seq<Node>)
    requires GoodNodes(ns) && EndsInElement(ns)
    ensures AddAll(State([Frame(name, [], [])], true, ""), ns) == State([Frame(name, [], ns)], true, "")
  {
    hide GoodNodes;
    var o := State([Frame(name, [], [])], true, "");
    Added(o, ns);
    assert [] + ns == ns;
  }

  lemma TopRead(top: Node, rest: string, lookup: Lookup)
    requires Document(top) && Standard(lookup) && (rest == "" || rest == "\n")
    ensures LoadString(NodeText(top, 0).text + rest, lookup) == Some(WithoutTail(top))
  {
    hide Load, Tag, Standard, Finish, Instruction, GoodNodes, NodeText, NodesText, AddAll, EndsInElement;
    var c := NodesText(top.children, OpenCol(top.name, 0) + 1).text + rest;
    var st := State([], false, "");
    TopText(top, rest);
    LessThan(top.name + (">" + c), st, lookup);
    TopTag(top.name, c, st, lookup);
    var o := State([Frame(top.name, [], [])], true, "");
    assert Open(Flush(st), top.name, []) == o;
    NodesRead(top.children, OpenCol(top.name, 0) + 1, rest, o, lookup);
    TopAdded(top);
    TheEnd(rest, AddAll(o, top.children), lookup);
  }

  lemma TopText(top: Node, rest: string)
    requires Document(top)
    ensures NodeText(top, 0).text + rest ==
      "<" + (top.name + (">" + (NodesText(top.children, OpenCol(top.name, 0) + 1).text + rest)))
  {
    hide NodesText, GoodNodes;
    var col := OpenCol(top.name, 0);
    assert AttrsText([], col) == Written("", col);
    TopOpen(top.name);
    if top.children == [] {
      assert NodesText([], col + 1).text == "" by {
        NodesEnd([], col + 1);
      }
    }
    RegroupTop(top.name, NodesText(top.children, col + 1).text, rest);
  }

  lemma TopOpen(name: string)
    requires Instruction(name)
    ensures Special(name) && OpenName(name) == name
  {
  }

  lemma RegroupTop(name: string, c: string, rest: string)
    ensures "<" + name + "" + ">" + c + rest == "<" + (name + (">" + (c + rest)))
  {
  }

  lemma TopTag(name: string, rest: string, st: State, lookup: Lookup)
    requires Instruction(name)
    ensures Tag(name + (">" + rest), st, lookup) == Next(Open(st, name, []), rest)
  {
    hide ReadTag, ReadInstruction, Open;
    var s := name[1..] + ">" + rest;
    assert name + (">" + rest) == "?" + s;
    QuestionFirst(s, lookup);
    InstructionRead(name, rest, 1);
    assert name[..1] == "?";
    assert "?" != "!--" && "?" != "![CDATA[";
  }

  lemma QuestionFirst(s: string, lookup: Lookup)
    ensures ReadTag("?" + s, "", lookup) == Piece("?", '?' as int, s)
  {
    GetcPlain('?', s);
    assert "" + Utf8('?' as int) == "?";
  }

  /** At the end of the input an unfinished text is dropped. */
  lemma TheEnd(rest: string, st: State, lookup: Lookup)
    requires (rest == "" || rest == "\n") && st.opaque_ && |st.stack| == 1
    ensures Load(rest, st, lookup) == Some(Close(st.stack[0]))
  {
    assert Load("", st, lookup) == Finish(st.stack);
    var t := st.(buf := st.buf + Utf8('\n' as int));
    assert Load("", t, lookup) == Finish(t.stack);
    GetcPlain('\n', "");
    assert "\n" == ['\n'] + "";
  }

  /**
   * Saving a document and loading it gives it back without the text behind its last element: it
   * gives back the same document exactly if there is none.
   */
  lemma SaveThenLoad(top: Node, lookup: Lookup)
    requires Document(top) && Standard(lookup)
    ensures LoadString(SaveText(top), lookup) == Some(WithoutTail(top))
    ensures LoadString(SaveText(top), lookup) == Some(top) <==> EndsInElement(top.children)
  {
    var w := NodeText(top, 0);
    TopRead(top, if w.col > 0 then "\n" else "", lookup);
  }

  /** Without an instruction around it a document is lost: its last closing tag leaves no element open,
      and the loader returns no tree at all.
   */
  lemma NoInstruction(n: Node, lookup: Lookup)
    requires GoodNode(n) && n.Element? && Standard(lookup)
    ensures LoadString(SaveText(n), lookup) == None
  {
    hide Load, Tag, Standard, AttrsText, NodesText, TagName, GoodAttrs, GoodNodes, NodeText;
    var w, st := NodeText(n, 0), State([], false, "");
    var rest := if w.col > 0 then "\n" else "";
    if n.children == [] {
      ElementText(n.name, n.attrs, [], 0, rest);
      LessThan(n.name + (AttrsText(n.attrs, OpenCol(n.name, 0)).text + (" />" + rest)), st, lookup);
      OpenRead(n.name, n.attrs, OpenCol(n.name, 0), true, rest, Flush(st), lookup);
      NothingLeft(rest, false, lookup);
    } else {
      ElementRead(n.name, n.attrs, n.children, 0, rest, st, lookup);
      NothingLeft(rest, true, lookup);
    }
  }

  lemma NothingLeft(rest: string, opaque_: bool, lookup: Lookup)
    requires rest == "" || rest == "\n"
    ensures Load(rest, State([], opaque_, ""), lookup) == None
  {
    assert Load("", State([], opaque_, Utf8('\n' as int)), lookup) == None;
    assert Load("", State([], opaque_, ""), lookup) == None;
    GetcPlain('\n', "");
    assert "\n" == ['\n'] + "";
    assert "" + Utf8('\n' as int) == Utf8('\n' as int);
  }
}
