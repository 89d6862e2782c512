/** What the loader makes of text that need not come from the writer: each way of writing an attribute, an
    entity, a comment, a section, a declaration or a tag, in front of any other text.
 */
module MxmlReading {
  import opened MxmlSave
  import opened MxmlLoad
  import opened MxmlRoundTrip

  // ---- Characters

  /** Tabs, line feeds, carriage returns, and the other ASCII characters from the space on. */
  predicate Readable(c: char) {
    c == '\t' || c == '\n' || c == '\r' || ' ' <= c <= '\U{7F}'
  }

  predicate White(c: char) {
    c == ' ' || c == '\t' || c == '\n' || c == '\r'
  }

  /** Readable characters, but for those in `not`. */
  predicate Only(s: string, not: string) {
    forall i :: 0 <= i < |s| ==> Readable(s[i]) && s[i] !in not
  }

  lemma ReadableIs(c: char)
    ensures Readable(c) <==> Plain(c)
    ensures Readable(c) ==> (White(c) <==> IsSpace(c as int))
  {
  }

  lemma OnlyClean(s: string, not: string)
    requires Only(s, not)
    ensures Clean(s)
  {
    forall i | 0 <= i < |s|
      ensures Plain(s[i])
    {
      ReadableIs(s[i]);
    }
  }

  /** Any other control character ends the input. */
  lemma ControlEnds(c: char, rest: string, st: State, lookup: Lookup)
    requires !Readable(c) && c < ' '
    ensures Load([c] + rest, st, lookup) == Finish(st.stack)
  {
  }

  // ---- Attributes

  /** Text between quotes `q` that is read as it is written. */
  predicate Verbatim(v: string, q: char) {
    Only(v, [q, '&'])
  }

  predicate Name(s: string) {
    s != "" && Only(s[..1], " \t\n\r/?>\"'") && Only(s[1..], " \t\n\r=/?>&")
  }

  lemma NameIs(s: string)
    requires Name(s)
    ensures AttrName(s)
  {
    assert s[..1][0] == s[0];
    forall i | 1 <= i < |s|
      ensures Plain(s[i]) && !EndsName(s[i] as int) && s[i] != '&'
    {
      assert s[1..][i - 1] == s[i];
      ReadableIs(s[i]);
    }
    ReadableIs(s[0]);
  }

  lemma {:induction false} VerbatimRead(v: string, q: char, rest: string, done: string, lookup: Lookup)
    requires Clean(v) && Verbatim(v, q) && (q == '\"' || q == '\'')
    ensures QuotedValue(v + [q] + rest, done, q as int, lookup) == Piece(done + v, q as int, rest)
    decreases |v|
  {
    if v == "" {
      assert v + [q] + rest == [q] + rest;
      GetcPlain(q, rest);
      assert done + v == done;
    } else {
      assert v + [q] + rest == [v[0]] + (v[1..] + [q] + rest);
      GetcPlain(v[0], v[1..] + [q] + rest);
      Utf8Plain(v[0]);
      VerbatimRead(v[1..], q, rest, done + [v[0]], lookup);
      assert done + [v[0]] + v[1..] == done + v;
    }
  }

  /** A value without quotes: it may have question marks and, behind the first character, quotes. The first
      character is taken whatever it is.
   */
  predicate Unquoted(v: string) {
    v != "" && Only(v[..1], "\"'") && Only(v[1..], " \t\n\r=/>&")
  }

  /** The character behind an attribute. */
  predicate Behind(c: char) {
    White(c) || c == '/' || c == '>'
  }

  lemma {:induction false} UnquotedRead(v: string, c: char, rest: string, done: string, lookup: Lookup)
    requires Only(v, " \t\n\r=/>&") && Behind(c)
    ensures PlainValue(v + [c] + rest, done, lookup) == Piece(done + v, c as int, rest)
    decreases |v|
  {
    if v == "" {
      assert v + [c] + rest == [c] + rest;
      GetcPlain(c, rest);
      assert done + v == done;
    } else {
      assert v + [c] + rest == [v[0]] + (v[1..] + [c] + rest);
      ReadableIs(v[0]);
      GetcPlain(v[0], v[1..] + [c] + rest);
      Utf8Plain(v[0]);
      UnquotedRead(v[1..], c, rest, done + [v[0]], lookup);
      assert done + [v[0]] + v[1..] == done + v;
    }
  }

  lemma QuotedForm(v: string, q: char, rest: string, lookup: Lookup)
    requires Verbatim(v, q) && (q == '\"' || q == '\'')
    ensures ValuePart([q] + v + [q] + rest, lookup) == Piece(v, q as int, rest)
  {
    hide QuotedValue, Clean;
    assert [q] + v + [q] + rest == [q] + (v + [q] + rest);
    GetcPlain(q, v + [q] + rest);
    OnlyClean(v, [q, '&']);
    VerbatimRead(v, q, rest, "", lookup);
    assert "" + v == v;
  }

  lemma UnquotedForm(v: string, c: char, rest: string, lookup: Lookup)
    requires Unquoted(v) && Behind(c)
    ensures ValuePart(v + [c] + rest, lookup) == Piece(v, c as int, rest)
  {
    hide PlainValue;
    var w := v[1..];
    assert v[..1][0] == v[0];
    ReadableIs(v[0]);
    assert v + [c] + rest == [v[0]] + (w + [c] + rest);
    GetcPlain(v[0], w + [c] + rest);
    assert Byte(v[0] as int) == v[0];
    UnquotedRead(w, c, rest, [v[0]], lookup);
    assert [v[0]] + w == v;
  }

  /** A name and an equals sign, whatever follows as the value. */
  lemma NamedValue(name: string, value: string, v: Piece, done: seq<Attr>, lookup: Lookup)
    requires Name(name) && (forall i :: 0 <= i < |done| ==> done[i].name != name)
    requires ValuePart(value, lookup) == v && v.Piece?
    ensures ParseAttrs(name + "=" + value, done, lookup) ==
      AfterAttr(v.ch, v.rest, done + [Attr(name, Some(v.text))], lookup)
  {
    hide NamePart, ValuePart, ParseAttrs, AfterAttr, AttrName, Clean, Name, FirstAttr, SetAttr;
    NameIs(name);
    NameStart(name);
    NewAttr(done, Attr(name, Some(v.text)));
    var first, more := name[0], name[1..];
    assert name + "=" + value == [first] + (more + ['='] + value);
    NameRead(more, '=', value, [first], lookup);
    OneAttr(first, more + ['='] + value, done, Piece(name, '=' as int, value), lookup);
  }

  /** A value in quotes, single or double ones, is the text between them. */
  lemma QuotedAttr(name: string, v: string, q: char, rest: string, done: seq<Attr>, lookup: Lookup)
    requires Name(name) && (forall i :: 0 <= i < |done| ==> done[i].name != name)
    requires Verbatim(v, q) && (q == '\"' || q == '\'')
    ensures ParseAttrs(name + "=" + [q] + v + [q] + rest, done, lookup) ==
      ParseAttrs(rest, done + [Attr(name, Some(v))], lookup)
  {
    hide ParseAttrs, ValuePart, Verbatim, Name;
    var value := [q] + v + [q] + rest;
    QuotedForm(v, q, rest, lookup);
    NamedValue(name, value, Piece(v, q as int, rest), done, lookup);
    assert name + "=" + [q] + v + [q] + rest == name + "=" + value;
  }

  /** A value without quotes reaches up to white space, a slash or the end of the tag. */
  lemma UnquotedAttr(name: string, v: string, c: char, rest: string, done: seq<Attr>, lookup: Lookup)
    requires Name(name) && (forall i :: 0 <= i < |done| ==> done[i].name != name)
    requires Unquoted(v) && Behind(c)
    ensures ParseAttrs(name + "=" + v + [c] + rest, done, lookup) ==
      ParseAttrs([c] + rest, done + [Attr(name, Some(v))], lookup)
  {
    hide ParseAttrs, ValuePart, Unquoted, Name;
    UnquotedForm(v, c, rest, lookup);
    NamedValue(name, v + [c] + rest, Piece(v, c as int, rest), done, lookup);
    assert name + "=" + v + [c] + rest == name + "=" + (v + [c] + rest);
    BehindAttr(c, rest, done + [Attr(name, Some(v))], lookup);
  }

  lemma BehindAttr(c: char, rest: string, done: seq<Attr>, lookup: Lookup)
    requires Behind(c) || c == '?'
    ensures AfterAttr(c as int, rest, done, lookup) == ParseAttrs([c] + rest, done, lookup)
  {
    GetcPlain(c, rest);
  }

  /** A name in quotes has its quotes, may have any other character, and has no value. */
  lemma QuotedName(n: string, q: char, rest: string, done: seq<Attr>, lookup: Lookup)
    requires Verbatim(n, q) && (q == '\"' || q == '\'')
    requires forall i :: 0 <= i < |done| ==> done[i].name != [q] + n + [q]
    ensures ParseAttrs([q] + n + [q] + rest, done, lookup) ==
      ParseAttrs(rest, done + [Attr([q] + n + [q], None)], lookup)
  {
    hide ParseAttrs, QuotedPart, FirstAttr, SetAttr, Clean;
    OnlyClean(n, [q, '&']);
    var more := n + [q] + rest;
    assert [q] + n + [q] + rest == [q] + more;
    QuotedNameRead(n, q, rest, [q], lookup);
    NewAttr(done, Attr([q] + n + [q], None));
    QuotedStep(q, more, done, Piece([q] + n + [q], q as int, rest), lookup);
  }

  lemma QuotedStep(q: char, more: string, done: seq<Attr>, name: Piece, lookup: Lookup)
    requires (q == '\"' || q == '\'') && name.Piece? && name.ch == q as int
    requires name == QuotedPart(more, [q], q as int, lookup) && FirstAttr(done, name.text) == None
    ensures ParseAttrs([q] + more, done, lookup) ==
      ParseAttrs(name.rest, SetAttr(done, Attr(name.text, None)), lookup)
  {
    hide QuotedPart, FirstAttr, SetAttr;
    GetcPlain(q, more);
    assert Byte(q as int) == q;
  }

  lemma {:induction false} QuotedNameRead(n: string, q: char, rest: string, done: string, lookup: Lookup)
    requires Clean(n) && Verbatim(n, q) && (q == '\"' || q == '\'')
    ensures QuotedPart(n + [q] + rest, done, q as int, lookup) == Piece(done + n + [q], q as int, rest)
    decreases |n|
  {
    if n == "" {
      assert n + [q] + rest == [q] + rest;
      GetcPlain(q, rest);
      Utf8Plain(q);
      assert done + n == done;
    } else {
      assert n + [q] + rest == [n[0]] + (n[1..] + [q] + rest);
      GetcPlain(n[0], n[1..] + [q] + rest);
      Utf8Plain(n[0]);
      QuotedNameRead(n[1..], q, rest, done + [n[0]], lookup);
      assert done + [n[0]] + n[1..] == done + n;
    }
  }

  /** A name alone reaches up to white space, a slash, a question mark or the end of the tag. */
  lemma BareAttr(name: string, c: char, rest: string, done: seq<Attr>, lookup: Lookup)
    requires Name(name) && (forall i :: 0 <= i < |done| ==> done[i].name != name)
    requires Behind(c) || c == '?'
    ensures ParseAttrs(name + [c] + rest, done, lookup) == ParseAttrs([c] + rest, done + [Attr(name, None)], lookup)
  {
    hide NamePart, ValuePart, ParseAttrs, AfterAttr, AttrName, Clean, Name, FirstAttr, SetAttr;
    NameIs(name);
    NameStart(name);
    NewAttr(done, Attr(name, None));
    var first, more := name[0], name[1..];
    assert name + [c] + rest == [first] + (more + [c] + rest);
    NameRead(more, c, rest, [first], lookup);
    OneAttr(first, more + [c] + rest, done, Piece(name, c as int, rest), lookup);
    BehindAttr(c, rest, done + [Attr(name, None)], lookup);
  }

  /** An attribute that the element has already ends the tag and the whole input. */
  lemma TwiceNamed(name: string, c: char, rest: string, done: seq<Attr>, k: nat, lookup: Lookup)
    requires Name(name) && (Behind(c) || c == '=' || c == '?')
    requires k < |done| && done[k].name == name && done[k].value.Some?
    requires forall i :: 0 <= i < |done| && i != k ==> done[i].name != name
    ensures ParseAttrs(name + [c] + rest, done, lookup) == Attrs(done, EOF, "")
  {
    hide NamePart, AttrName, Name, Clean, FirstAttr, SetAttr, AfterAttr, ValuePart;
    NameIs(name);
    NameStart(name);
    var first, more := name[0], name[1..];
    assert name + [c] + rest == [first] + (more + [c] + rest);
    GetcPlain(first, more + [c] + rest);
    assert Byte(first as int) == first;
    NameRead(more, c, rest, [first], lookup);
    ValueAdded(done, Attr(name, None), k);
  }

  /** An attribute that was there without a value gets the new one in its place. */
  lemma {:induction false} ValueAdded(attrs: seq<Attr>, a: Attr, k: nat)
    requires k < |attrs| && attrs[k].name == a.name && forall i :: 0 <= i < k ==> attrs[i].name != a.name
    ensures FirstAttr(attrs, a.name) == attrs[k].value && SetAttr(attrs, a) == attrs[k := a]
  {
    if k > 0 {
      ValueAdded(attrs[1..], a, k - 1);
      assert attrs[k := a] == [attrs[0]] + attrs[1..][k - 1 := a];
    } else {
      assert attrs[0 := a] == [a] + attrs[1..];
    }
  }

  /** White space in front of an attribute is skipped. */
  lemma WhiteSkipped(c: char, rest: string, done: seq<Attr>, lookup: Lookup)
    requires White(c)
    ensures ParseAttrs([c] + rest, done, lookup) == ParseAttrs(rest, done, lookup)
  {
    SkipSpace(c, rest, done, lookup);
  }

  /** How a tag ends: with a bracket, or with a slash or a question mark in front of one. */
  lemma TagForms(c: char, d: char, rest: string, done: seq<Attr>, lookup: Lookup)
    requires (c == '/' || c == '?') && Readable(d)
    ensures ParseAttrs(">" + rest, done, lookup) == Attrs(done, '>' as int, rest)
    ensures ParseAttrs([c, d] + rest, done, lookup) == Attrs(done, if d == '>' then c as int else EOF, rest)
  {
    GetcPlain('>', rest);
    assert [c, d] + rest == [c] + ([d] + rest);
    GetcPlain(c, [d] + rest);
    GetcPlain(d, rest);
  }

  // ---- Text and entities

  /** Readable text inside an element is kept as it is. */
  lemma {:induction false} TextKept(t: string, rest: string, st: State, lookup: Lookup)
    requires Only(t, "<&") && st.opaque_
    ensures Load(t + rest, st, lookup) == Load(rest, st.(buf := st.buf + t), lookup)
    decreases |t|
  {
    hide Load;
    if t == "" {
      assert t + rest == rest && st.(buf := st.buf + t) == st;
    } else {
      assert t + rest == [t[0]] + (t[1..] + rest);
      CharKept(t[0], t[1..] + rest, st, lookup);
      TextKept(t[1..], rest, st.(buf := st.buf + [t[0]]), lookup);
      assert st.buf + [t[0]] + t[1..] == st.buf + t;
    }
  }

  lemma CharKept(c: char, rest: string, st: State, lookup: Lookup)
    requires Readable(c) && c != '<' && c != '&' && st.opaque_
    ensures Load([c] + rest, st, lookup) == Load(rest, st.(buf := st.buf + [c]), lookup)
  {
    hide Tag;
    ReadableIs(c);
    GetcPlain(c, rest);
    Utf8Plain(c);
  }

  /** In front of the first element white space ends a text and is lost itself. */
  lemma WhiteLost(c: char, rest: string, st: State, lookup: Lookup)
    requires White(c) && !st.opaque_
    ensures Load([c] + rest, st, lookup) == Load(rest, Flush(st), lookup)
  {
    hide Tag;
    GetcPlain(c, rest);
  }

  /** Digits, ASCII letters and the number sign. */
  predicate EntityChar(c: char) {
    '0' <= c <= '9' || 'A' <= c <= 'Z' || 'a' <= c <= 'z' || c == '#'
  }

  predicate EntityChars(s: string) {
    forall i :: 0 <= i < |s| ==> EntityChar(s[i])
  }

  lemma {:induction false} EntityNameRead(name: string, c: char, rest: string, done: string)
    requires EntityChars(name) && Readable(c) && !EntityChar(c) && |done| <= 63
    ensures var n := ReadEntity(name + [c] + rest, done);
      if |done| + |name| <= 63 then n == Named(done + name, c as int, rest)
      else EntityChar(name[63 - |done|]) && n.ch == name[63 - |done|] as int
    decreases |name|
  {
    if name == "" {
      assert name + [c] + rest == [c] + rest;
      ReadableIs(c);
      GetcPlain(c, rest);
      assert done + name == done;
    } else {
      assert name + [c] + rest == [name[0]] + (name[1..] + [c] + rest);
      GetcPlain(name[0], name[1..] + [c] + rest);
      if |done| < 63 {
        EntityNameRead(name[1..], c, rest, done + [name[0]]);
        assert done + [name[0]] + name[1..] == done + name;
      }
    }
  }

  /** No character of a document: a control character other than a tab or an end of line, or a negative number. */
  predicate NoCharacter(v: int) {
    v < 32 && v != 9 && v != 10 && v != 13
  }

  /** An entity of up to 63 characters stands for what is found under its name. If nothing is found there, if the
      name is longer, or if it does not end with a semicolon, nothing is loaded at all.
   */
  lemma EntityRule(name: string, c: char, rest: string, st: State, lookup: Lookup)
    requires EntityChars(name) && Readable(c) && !EntityChar(c)
    ensures Load("&" + name + [c] + rest, st, lookup) ==
      if |name| > 63 || c != ';' || NoCharacter(lookup(name)) then None
      else Load(rest, st.(buf := st.buf + Utf8(lookup(name))), lookup)
  {
    hide Tag, Utf8;
    assert "&" + name + [c] + rest == ['&'] + (name + [c] + rest);
    GetcPlain('&', name + [c] + rest);
    EntityNameRead(name, c, rest, "");
    assert "" + name == name;
  }

  /** Six more bits of a character. */
  predicate More(c: char, bits: int) {
    c as int == 0x80 + bits && 0 <= bits < 0x40
  }

  /** The octets of a character, as section 3 of RFC 3629 reads them: the first one says how many there are. */
  predicate Utf8Form(s: string, ch: int) {
    match |s|
    case 1 => s[0] as int == ch < 0x80
    case 2 => 0xc0 <= s[0] as int < 0xe0 && More(s[1], ch - (s[0] as int - 0xc0) * 0x40)
    case 3 =>
      var top := (s[0] as int - 0xe0) * 0x40 + (s[1] as int - 0x80);
      0xe0 <= s[0] as int < 0xf0 && 0x80 <= s[1] as int < 0xc0 && More(s[2], ch - top * 0x40)
    case 4 =>
      var top := ((s[0] as int - 0xf0) * 0x40 + (s[1] as int - 0x80)) * 0x40 + (s[2] as int - 0x80);
      && 0xf0 <= s[0] as int < 0xf8 && 0x80 <= s[1] as int < 0xc0 && 0x80 <= s[2] as int < 0xc0
      && More(s[3], ch - top * 0x40)
    case _ => false
  }

  /** Every character has its shortest form. */
  lemma Utf8Means(ch: nat)
    requires ch < 0x20_0000
    ensures Utf8Form(Utf8(ch), ch)
    ensures |Utf8(ch)| == if ch < 0x80 then 1 else if ch < 0x800 then 2 else if ch < 0x1_0000 then 3 else 4
  {
    hide Utf8Form;
    if ch < 0x80 {
      Utf8One(ch);
    } else if ch < 0x800 {
      Utf8Two(ch);
    } else if ch < 0x1_0000 {
      Utf8Three(ch);
    } else {
      Utf8Four(ch);
    }
  }

  lemma Utf8One(ch: nat)
    requires ch < 0x80
    ensures Utf8Form(Utf8(ch), ch)
  {
  }

  lemma Utf8Two(ch: nat)
    requires 0x80 <= ch < 0x800
    ensures Utf8Form(Utf8(ch), ch)
  {
  }

  lemma Utf8Three(ch: nat)
    requires 0x800 <= ch < 0x1_0000
    ensures Utf8Form(Utf8(ch), ch)
  {
    var u := ch / 0x40;
    assert ch / 4096 == u / 0x40;
    assert Utf8(ch) == [(0xe0 + u / 0x40) as char, (0x80 + u % 0x40) as char, (0x80 + ch % 0x40) as char];
  }

  lemma Utf8Four(ch: nat)
    requires 0x1_0000 <= ch < 0x20_0000
    ensures Utf8Form(Utf8(ch), ch)
  {
    hide Utf8Form, Byte;
    var u := ch / 0x40;
    var v := u / 0x40;
    Quarters(ch);
    FourOctets(ch, u, v);
    ByteIs(0xf0 + v / 0x40);
    ByteIs(0x80 + v % 0x40);
    ByteIs(0x80 + u % 0x40);
    ByteIs(0x80 + ch % 0x40);
  }

  lemma Quarters(ch: nat)
    ensures ch / 4096 == ch / 0x40 / 0x40 && ch / 262144 == ch / 0x40 / 0x40 / 0x40
  {
  }

  lemma ByteIs(i: nat)
    requires i < 256
    ensures Byte(i) == i as char
  {
  }

  lemma FourOctets(ch: nat, u: nat, v: nat)
    requires 0x1_0000 <= ch < 0x20_0000 && u == ch / 0x40 && v == u / 0x40
    ensures 0 <= v / 0x40 < 8
    ensures Utf8Form([(0xf0 + v / 0x40) as char, (0x80 + v % 0x40) as char, (0x80 + u % 0x40) as char,
      (0x80 + ch % 0x40) as char], ch)
  {
  }

  // ---- Tags

  /** The name of an opening or closing tag. */
  predicate TagLetters(s: string) {
    Only(s, " \t\n\r/>&")
  }

  lemma {:induction false} TagNameRead(s: string, c: char, rest: string, done: string, lookup: Lookup)
    requires TagLetters(s) && done + s != "" && (done + s)[0] != '?' && (done + s)[0] != '!'
    requires White(c) || c == '>' || (c == '/' && done + s != "")
    ensures ReadTag(s + [c] + rest, done, lookup) == Piece(done + s, c as int, rest)
    decreases |s|
  {
    if s == "" {
      assert s + [c] + rest == [c] + rest;
      GetcPlain(c, rest);
      assert done + s == done;
    } else {
      var more := done + [s[0]];
      assert s + [c] + rest == [s[0]] + (s[1..] + [c] + rest);
      ReadableIs(s[0]);
      GetcPlain(s[0], s[1..] + [c] + rest);
      Utf8Plain(s[0]);
      assert more + s[1..] == done + s;
      assert more[0] == (done + s)[0];
      TagNameRead(s[1..], c, rest, more, lookup);
    }
  }

  predicate OpenTag(s: string) {
    s != "" && TagLetters(s) && s[0] != '?' && s[0] != '!'
  }

  /** An opening tag without attributes opens an element; with a slash at its end the element is complete. */
  lemma OpenTags(name: string, rest: string, st: State, lookup: Lookup)
    requires OpenTag(name)
    ensures Load("<" + name + ">" + rest, st, lookup) == Load(rest, Open(Flush(st), name, []), lookup)
    ensures Load("<" + name + "/>" + rest, st, lookup) == Load(rest, Leaf(Flush(st), name, []), lookup)
  {
    hide Load, ReadTag, Open, Leaf, Flush;
    TagNameRead(name, '>', rest, "", lookup);
    TagNameRead(name, '/', ">" + rest, "", lookup);
    assert "" + name == name;
    GetcPlain('>', rest);
    LessThan(name + ">" + rest, st, lookup);
    assert "<" + name + ">" + rest == "<" + (name + ">" + rest);
    var s := name + ['/'] + (">" + rest);
    LessThan(s, st, lookup);
    assert "<" + name + "/>" + rest == "<" + s;
    PlainName(name);
  }

  lemma PlainName(name: string)
    requires OpenTag(name)
    ensures name != "!--" && name != "![CDATA[" && !("?" <= name) && !("!" <= name) && !("/" <= name)
  {
  }

  /** With white space behind the name, the attributes say how it goes on; a tag that ends with a question mark
      opens an element, and after one that does not end nothing more is read.
   */
  lemma AttrTags(name: string, c: char, s: string, st: State, lookup: Lookup)
    requires OpenTag(name) && White(c)
    ensures var a := ParseAttrs(s, [], lookup);
      Load("<" + name + [c] + s, st, lookup) ==
        if a.ch == '/' as int then Load(a.rest, Leaf(Flush(st), name, a.attrs), lookup)
        else if a.ch == EOF then Finish(Leaf(Flush(st), name, a.attrs).stack)
        else Load(a.rest, Open(Flush(st), name, a.attrs), lookup)
  {
    hide Load, ReadTag, Open, Leaf, Flush, Finish, ParseAttrs;
    TagNameRead(name, c, s, "", lookup);
    assert "" + name == name;
    LessThan(name + [c] + s, st, lookup);
    assert "<" + name + [c] + s == "<" + (name + [c] + s);
    PlainName(name);
  }

  /** A closing tag closes the innermost element if it has its name, whatever white space is behind the name; with
      any other name nothing is loaded.
   */
  lemma CloseTags(name: string, skipped: string, rest: string, st: State, lookup: Lookup)
    requires TagLetters(name) && Only(skipped, ">") && (skipped != "" ==> White(skipped[0]))
    ensures var t := Flush(st);
      Load("</" + name + skipped + ">" + rest, st, lookup) ==
        if t.stack == [] || t.stack[|t.stack| - 1].name != name then None else Load(rest, Pop(t), lookup)
  {
    hide Load, ReadTag, Pop, Flush, SkipTag, TagLetters, Only;
    var all := skipped + ['>'] + rest;
    var s := name + [all[0]] + all[1..];
    CloseParts(name, skipped, rest);
    SlashFirst(s, lookup);
    TagNameRead(name, all[0], all[1..], "/", lookup);
    LessThan("/" + s, st, lookup);
    SkipRead(skipped, rest);
    CloseName(name);
  }

  lemma CloseParts(name: string, skipped: string, rest: string)
    ensures var all := skipped + ['>'] + rest;
      && all[0] == (if skipped == "" then '>' else skipped[0])
      && "</" + name + skipped + ">" + rest == "<" + ("/" + (name + [all[0]] + all[1..]))
  {
    var all := skipped + ['>'] + rest;
    assert all == [all[0]] + all[1..];
  }

  lemma CloseName(name: string)
    ensures var t := "/" + name;
      t[1..] == name && "/" <= t && !("?" <= t) && !("!" <= t) && t != "!--" && t != "![CDATA["
  {
    var t := "/" + name;
    assert t[0] == '/';
  }

  lemma SkipRead(skipped: string, rest: string)
    requires Only(skipped, ">")
    ensures var all := skipped + ['>'] + rest; SkipTag(all[0] as int, all[1..]) == rest
    decreases |skipped|
  {
    var all := skipped + ['>'] + rest;
    if skipped != "" {
      var next := skipped[1..] + ['>'] + rest;
      assert all[1..] == next && next == [next[0]] + next[1..];
      ReadableIs(next[0]);
      GetcPlain(next[0], next[1..]);
      ReadableIs(skipped[0]);
      SkipRead(skipped[1..], rest);
    } else {
      assert all[1..] == rest;
    }
  }

  // ---- Comments, sections, declarations

  /** The text of a comment, as section 2.5 of XML 1.0 has it: no two hyphens in a row, and none at the end. */
  predicate CommentText(t: string) {
    Only(t, "") && t != "" && t[|t| - 1] != '-' && forall i :: 0 <= i < |t| - 1 ==> !(t[i] == '-' && t[i + 1] == '-')
  }

  /** The text of a section that does not have its end in it. */
  predicate SectionText(t: string) {
    Only(t, "") && forall i :: 0 <= i < |t| - 2 ==> !(t[i] == ']' && t[i + 1] == ']' && t[i + 2] == '>')
  }

  /** A declaration that is neither a comment nor a section. */
  predicate DeclarationText(t: string) {
    Only(t, ">&") && !("--" <= t) && !("[CDATA[" <= t)
  }

  /** A comment becomes an element without children whose name is the comment. */
  lemma CommentRule(t: string, rest: string, st: State, lookup: Lookup)
    requires CommentText(t)
    ensures Load("<!--" + t + "-->" + rest, st, lookup) == Load(rest, Leaf(Flush(st), "!--" + t + "--", []), lookup)
  {
    hide Load, ReadTag, ReadComment, Leaf, Flush, CommentText;
    var s := t + "-->" + rest;
    MarkRead("!--", s, lookup);
    CommentRead(t, 0, rest);
    assert t[0..] == t && "!--" + t[..0] == "!--";
    LessThan("!--" + s, st, lookup);
    assert "<!--" + t + "-->" + rest == "<" + ("!--" + s);
  }

  /** A section becomes one whose name is the section. */
  lemma SectionRule(t: string, rest: string, st: State, lookup: Lookup)
    requires SectionText(t)
    ensures Load("<![CDATA[" + t + "]]>" + rest, st, lookup) ==
      Load(rest, Leaf(Flush(st), "![CDATA[" + t + "]]", []), lookup)
  {
    hide Load, ReadTag, ReadCdata, Leaf, Flush, SectionText;
    var s := t + "]]>" + rest;
    MarkRead("![CDATA[", s, lookup);
    SectionRead(t, 0, rest);
    assert t[0..] == t && "![CDATA[" + t[..0] == "![CDATA[";
    LessThan("![CDATA[" + s, st, lookup);
    assert "<![CDATA[" + t + "]]>" + rest == "<" + ("![CDATA[" + s);
  }

  lemma MarkRead(mark: string, s: string, lookup: Lookup)
    requires mark == "!--" || mark == "![CDATA["
    ensures ReadTag(mark + s, "", lookup) == Piece(mark, mark[|mark| - 1] as int, s)
  {
    assert mark[..0] == "" && mark[0..] + s == mark + s;
    MarkReadFrom(mark, s, 0, lookup);
  }

  lemma {:induction false} MarkReadFrom(mark: string, s: string, k: nat, lookup: Lookup)
    requires (mark == "!--" || mark == "![CDATA[") && k < |mark|
    ensures ReadTag(mark[k..] + s, mark[..k], lookup) == Piece(mark, mark[|mark| - 1] as int, s)
    decreases |mark| - k
  {
    hide ReadTag, Readable, White;
    assert mark[k..] + s == [mark[k]] + (mark[k + 1..] + s);
    assert mark[..k] + [mark[k]] == mark[..k + 1];
    MarkChars(mark, k);
    TagChar(mark[k], mark[k + 1..] + s, mark[..k], lookup);
    if k + 1 < |mark| {
      MarkReadFrom(mark, s, k + 1, lookup);
      NoMarkYet(mark, k + 1);
    } else {
      assert mark[..k + 1] == mark && mark[k + 1..] + s == s;
    }
  }

  lemma NoMarkYet(mark: string, k: nat)
    requires (mark == "!--" || mark == "![CDATA[") && 0 < k < |mark|
    ensures mark[..k] != "!--" && mark[..k] != "![CDATA[" && mark[..k] != "?"
  {
    var m := mark[..k];
    assert |m| == k && m[0] == '!' && |"![CDATA["| == 8 && |"!--"| == 3;
    if k == 3 {
      assert m[1] == '[';
    }
  }

  lemma MarkChars(mark: string, k: nat)
    requires (mark == "!--" || mark == "![CDATA[") && k < |mark|
    ensures mark[k] in "!-[CDATA" && Readable(mark[k]) && !White(mark[k]) && mark[k] !in ">/&"
  {
  }

  lemma TagChar(c: char, s: string, buf: string, lookup: Lookup)
    requires Readable(c) && !White(c) && c !in ">/&"
    ensures var more := buf + [c];
      ReadTag([c] + s, buf, lookup) ==
        if more == "?" || more == "!--" || more == "![CDATA[" then Piece(more, c as int, s)
        else ReadTag(s, more, lookup)
  {
    ReadableIs(c);
    GetcPlain(c, s);
    Utf8Plain(c);
  }

  lemma CommentStep(c: char, s: string, buf: string)
    requires Readable(c)
    ensures ReadComment([c] + s, buf) ==
      if c == '>' && |buf| > 4 && buf[|buf| - 3] != '-' && buf[|buf| - 2] == '-' && buf[|buf| - 1] == '-'
      then Piece(buf, c as int, s) else ReadComment(s, buf + [c])
  {
    ReadableIs(c);
    GetcPlain(c, s);
    Utf8Plain(c);
  }

  lemma SectionStep(c: char, s: string, buf: string)
    requires Readable(c)
    ensures ReadCdata([c] + s, buf) ==
      if c == '>' && |buf| >= 2 && buf[|buf| - 2] == ']' && buf[|buf| - 1] == ']'
      then Piece(buf, c as int, s) else ReadCdata(s, buf + [c])
  {
    ReadableIs(c);
    GetcPlain(c, s);
    Utf8Plain(c);
  }

  lemma {:induction false} CommentRead(t: string, k: nat, rest: string)
    requires CommentText(t) && k <= |t|
    ensures ReadComment(t[k..] + "-->" + rest, "!--" + t[..k]) == Piece("!--" + t + "--", '>' as int, rest)
    decreases |t| - k
  {
    hide ReadComment;
    var done := "!--" + t[..k];
    if k < |t| {
      assert t[k..] + "-->" + rest == [t[k]] + (t[k + 1..] + "-->" + rest);
      CommentStep(t[k], t[k + 1..] + "-->" + rest, done);
      assert done + [t[k]] == "!--" + t[..k + 1];
      if k >= 2 {
        assert done[|done| - 1] == t[k - 1] && done[|done| - 2] == t[k - 2];
      }
      CommentRead(t, k + 1, rest);
    } else {
      assert t[..k] == t && t[k..] + "-->" + rest == ['-'] + ("->" + rest);
      CommentEnd(t, rest);
    }
  }

  lemma CommentEnd(t: string, rest: string)
    requires t != "" && t[|t| - 1] != '-'
    ensures ReadComment(['-'] + ("->" + rest), "!--" + t) == Piece("!--" + t + "--", '>' as int, rest)
  {
    hide ReadComment;
    var done := "!--" + t;
    CommentStep('-', "->" + rest, done);
    assert "->" + rest == ['-'] + (">" + rest);
    CommentStep('-', ">" + rest, done + ['-']);
    assert ">" + rest == ['>'] + rest;
    CommentStep('>', rest, done + ['-'] + ['-']);
    assert done + ['-'] + ['-'] == "!--" + t + "--";
    assert (done + ['-'] + ['-'])[|done| - 1] == t[|t| - 1];
  }

  lemma {:induction false} SectionRead(t: string, k: nat, rest: string)
    requires SectionText(t) && k <= |t|
    ensures ReadCdata(t[k..] + "]]>" + rest, "![CDATA[" + t[..k]) == Piece("![CDATA[" + t + "]]", '>' as int, rest)
    decreases |t| - k
  {
    hide ReadCdata;
    var done := "![CDATA[" + t[..k];
    if k < |t| {
      assert t[k..] + "]]>" + rest == [t[k]] + (t[k + 1..] + "]]>" + rest);
      SectionStep(t[k], t[k + 1..] + "]]>" + rest, done);
      assert done + [t[k]] == "![CDATA[" + t[..k + 1];
      if k >= 2 {
        assert done[|done| - 1] == t[k - 1] && done[|done| - 2] == t[k - 2];
        assert t[k - 2] == ']' && t[k - 2 + 1] == ']' ==> t[k - 2 + 2] != '>';
      } else {
        assert done[|done| - 2] != ']';
      }
      SectionRead(t, k + 1, rest);
    } else {
      assert t[..k] == t && t[k..] + "]]>" + rest == [']'] + ("]>" + rest);
      SectionEnd(t, rest);
    }
  }

  lemma SectionEnd(t: string, rest: string)
    ensures ReadCdata([']'] + ("]>" + rest), "![CDATA[" + t) == Piece("![CDATA[" + t + "]]", '>' as int, rest)
  {
    hide ReadCdata;
    var done := "![CDATA[" + t;
    SectionStep(']', "]>" + rest, done);
    assert "]>" + rest == [']'] + (">" + rest);
    SectionStep(']', ">" + rest, done + [']']);
    assert ">" + rest == ['>'] + rest;
    SectionStep('>', rest, done + [']'] + [']']);
    assert done + [']'] + [']'] == "![CDATA[" + t + "]]";
  }

  /** An instruction opens an element whose name is the instruction. */
  lemma InstructionRule(name: string, rest: string, st: State, lookup: Lookup)
    requires Only(name, "") && |name| >= 2 && name[0] == '?' && name[|name| - 1] == '?'
    requires forall i :: 0 <= i < |name| - 1 ==> !(name[i] == '?' && name[i + 1] == '>')
    ensures Load("<" + name + ">" + rest, st, lookup) == Load(rest, Open(Flush(st), name, []), lookup)
  {
    hide Load, Tag, Open, Flush;
    OnlyClean(name, "");
    LessThan(name + (">" + rest), st, lookup);
    assert "<" + name + ">" + rest == "<" + (name + (">" + rest));
    TopTag(name, rest, Flush(st), lookup);
  }

  /** A declaration opens an element whose name is the declaration. */
  lemma DeclarationRule(t: string, rest: string, st: State, lookup: Lookup)
    requires DeclarationText(t)
    ensures Load("<!" + t + ">" + rest, st, lookup) == Load(rest, Open(Flush(st), "!" + t, []), lookup)
  {
    hide Load, ReadTag, ReadDeclaration, Open, Flush, DeclarationText;
    var s := t + ">" + rest;
    BangFirst(s, lookup);
    assert t[0..] == t && "!" + t[..0] == "!";
    var p := DeclarationName(t, 0, rest, lookup);
    assert p.text[0] == '!' && "?"[0] == '?';
    LessThan("!" + s, st, lookup);
    assert "<!" + t + ">" + rest == "<" + ("!" + s);
  }

  lemma BangFirst(s: string, lookup: Lookup)
    ensures ReadTag("!" + s, "", lookup) == ReadTag(s, "!", lookup)
  {
    GetcPlain('!', s);
    Utf8Plain('!');
    assert "" + "!" == "!" && "!" != "!--" && "!" != "![CDATA[" && "!" != "?";
  }

  /** The name of a declaration ends somewhere in it, and the rest is read behind it. */
  lemma {:induction false} DeclarationName(t: string, k: nat, rest: string, lookup: Lookup) returns (p: Piece)
    requires DeclarationText(t) && k <= |t|
    ensures p == ReadTag(t[k..] + ">" + rest, "!" + t[..k], lookup) && p.Piece?
    ensures "!" <= p.text && p.text != "!--" && p.text != "![CDATA["
    ensures ReadDeclaration(p.ch, p.rest, p.text, lookup) == Piece("!" + t, '>' as int, rest)
    decreases |t| - k
  {
    var s, done := t[k..] + ">" + rest, "!" + t[..k];
    p := ReadTag(s, done, lookup);
    NotMarked(t, k);
    if k < |t| {
      assert s == [t[k]] + (t[k + 1..] + ">" + rest);
      ReadableIs(t[k]);
      GetcPlain(t[k], t[k + 1..] + ">" + rest);
      if White(t[k]) || t[k] == '/' {
        DeclarationRest(t, k, rest, lookup);
      } else {
        Utf8Plain(t[k]);
        assert done + [t[k]] == "!" + t[..k + 1];
        NotMarked(t, k + 1);
        var _ := DeclarationName(t, k + 1, rest, lookup);
      }
    } else {
      assert t[..k] == t && s == ['>'] + rest;
      GetcPlain('>', rest);
    }
  }

  lemma NotMarked(t: string, k: nat)
    requires DeclarationText(t) && k <= |t|
    ensures "!" + t[..k] != "!--" && "!" + t[..k] != "![CDATA[" && "!" + t[..k] != "?" && "!" <= "!" + t[..k]
  {
    var m := "!" + t[..k];
    assert m[1..] == t[..k];
    assert "!--"[1..] == "--" && "![CDATA["[1..] == "[CDATA[";
    assert m[0] == '!' && "?"[0] == '?';
  }

  lemma {:induction false} DeclarationRest(t: string, k: nat, rest: string, lookup: Lookup)
    requires Only(t, ">&") && k < |t|
    ensures ReadDeclaration(t[k] as int, t[k + 1..] + ">" + rest, "!" + t[..k], lookup) ==
      Piece("!" + t, '>' as int, rest)
    decreases |t| - k
  {
    var s, done := t[k + 1..] + ">" + rest, "!" + t[..k];
    ReadableIs(t[k]);
    Utf8Plain(t[k]);
    assert done + [t[k]] == "!" + t[..k + 1];
    if k + 1 < |t| {
      assert s == [t[k + 1]] + (t[k + 2..] + ">" + rest);
      ReadableIs(t[k + 1]);
      GetcPlain(t[k + 1], t[k + 2..] + ">" + rest);
      DeclarationRest(t, k + 1, rest, lookup);
    } else {
      assert t[..k + 1] == t && s == ['>'] + rest;
      GetcPlain('>', rest);
    }
  }
}
