/** XML trees, and how they are written: element names, attributes wrapped at a column, escaped text. */
module MxmlSave {

  datatype Option<+T> = None | Some(value: T)

  datatype Attr = Attr(name: string, value: Option<string>)

  /** An element with its children, or text kept as it stands. */
  datatype Node = Element(name: string, attrs: seq<Attr>, children: seq<Node>) | Opaque(text: string)

  /** The value of the first attribute with that name. */
  function FirstAttr(attrs: seq<Attr>, key: string): Option<string> {
    if attrs == [] then None
    else if attrs[0].name == key then attrs[0].value
    else FirstAttr(attrs[1..], key)
  }

  const WRAP := 72

  /** `mxmlEntityGetName`. */
  function EntityName(c: char): Option<string> {
    match c
    case '&' => Some("amp")
    case '<' => Some("lt")
    case '>' => Some("gt")
    case '\"' => Some("quot")
    case _ => None
  }

  function EscapeChar(c: char): string {
    match EntityName(c)
    case Some(n) => "&" + n + ";"
    case None => [c]
  }

  /** `mxml_write_string`. */
  function Escape(s: string): string {
    if s == "" then "" else EscapeChar(s[0]) + Escape(s[1..])
  }

  /** The part of a quoted name up to its closing quote. */
  function QuotedName(s: string, quote: char): string {
    if s == "" || s[0] == quote then "" else EscapeChar(s[0]) + QuotedName(s[1..], quote)
  }

  /** `mxml_write_name`. */
  function NameText(s: string): string {
    if s != "" && (s[0] == '\"' || s[0] == '\'') then [s[0]] + QuotedName(s[1..], s[0]) + [s[0]] else s
  }

  function Width(a: Attr): nat {
    |a.name| + if a.value.Some? then |a.value.value| + 3 else 0
  }

  /** What has been written, and the column afterwards. */
  datatype Written = Written(text: string, col: nat)

  /** A line break or a space in front of the attribute. */
  function AttrText(a: Attr, col: nat): Written {
    var wrap := col + Width(a) > WRAP;
    Written(
      [if wrap then '\n' else ' '] + NameText(a.name)
        + if a.value.Some? then "=\"" + Escape(a.value.value) + "\"" else "",
      (if wrap then 0 else col + 1) + Width(a))
  }

  function AttrsText(attrs: seq<Attr>, col: nat): Written {
    if attrs == [] then Written("", col)
    else
      var a := AttrText(attrs[0], col);
      var rest := AttrsText(attrs[1..], a.col);
      Written(a.text + rest.text, rest.col)
  }

  predicate Special(name: string) {
    name != "" && (name[0] == '!' || name[0] == '?')
  }

  /** Names of instructions, comments and CDATA sections are written as they stand. */
  function OpenName(name: string): string {
    if (name != "" && name[0] == '?') || "!--" <= name || "![CDATA[" <= name then name else NameText(name)
  }

  function OpenCol(name: string, col: nat): nat {
    (if "?xml" <= name then WRAP else col) + |name| + 1
  }

  /** The start of a tag, without its end. */
  function OpenTag(name: string, attrs: seq<Attr>, col: nat): Written {
    var a := AttrsText(attrs, OpenCol(name, col));
    Written("<" + OpenName(name) + a.text, a.col)
  }

  /** `mxml_write_node` for one node, without a whitespace callback. */
  function NodeText(n: Node, col: nat): Written
    decreases n
  {
    match n
    case Opaque(t) => Written(Escape(t), col + |t|)
    case Element(name, attrs, children) =>
      var open := OpenTag(name, attrs, col);
      if children != [] then
        var c := NodesText(children, open.col + 1);
        if Special(name) then Written(open.text + ">" + c.text, c.col)
        else Written(open.text + ">" + c.text + "</" + Escape(name) + ">", c.col + |name| + 3)
      else if Special(name) then Written(open.text + ">", open.col + 1)
      else Written(open.text + " />", open.col + 3)
  }

  /** The nodes of a list of siblings. */
  function NodesText(ns: seq<Node>, col: nat): Written
    decreases ns
  {
    if ns == [] then Written("", col)
    else
      var first := NodeText(ns[0], col);
      var rest := NodesText(ns[1..], first.col);
      Written(first.text + rest.text, rest.col)
  }

  /** `mxmlSaveString`: the tree below `n`, and the end of an unfinished line. */
  function SaveText(n: Node): string {
    var w := NodeText(n, 0);
    w.text + if w.col > 0 then "\n" else ""
  }

  lemma EscapeNext(s: string, i: nat)
    requires i < |s|
    ensures Escape(s[i..]) == EscapeChar(s[i]) + Escape(s[i + 1..])
  {
    assert s[i..][1..] == s[i + 1..];
  }

  lemma EscapeEnd(s: string)
    ensures Escape(s[|s|..]) == ""
  {
  }

  lemma QuotedNext(s: string, i: nat, quote: char)
    requires i < |s| && s[i] != quote
    ensures QuotedName(s[i..], quote) == EscapeChar(s[i]) + QuotedName(s[i + 1..], quote)
  {
    assert s[i..][1..] == s[i + 1..];
  }

  lemma QuotedEnd(s: string, i: nat, quote: char)
    requires i <= |s| && (i < |s| ==> s[i] == quote)
    ensures QuotedName(s[i..], quote) == ""
  {
  }

  lemma AttrsNext(attrs: seq<Attr>, i: nat, col: nat)
    requires i < |attrs|
    ensures var a := AttrText(attrs[i], col);
      AttrsText(attrs[i..], col) ==
        Written(a.text + AttrsText(attrs[i + 1..], a.col).text, AttrsText(attrs[i + 1..], a.col).col)
  {
    assert attrs[i..][1..] == attrs[i + 1..];
  }

  lemma AttrsEnd(attrs: seq<Attr>, col: nat)
    ensures AttrsText(attrs[|attrs|..], col) == Written("", col)
  {
  }

  lemma NodesNext(ns: seq<Node>, i: nat, col: nat)
    requires i < |ns|
    ensures var a := NodeText(ns[i], col);
      NodesText(ns[i..], col) == Written(a.text + NodesText(ns[i + 1..], a.col).text, NodesText(ns[i + 1..], a.col).col)
  {
    assert ns[i..][1..] == ns[i + 1..];
  }

  lemma NodesEnd(ns: seq<Node>, col: nat)
    ensures NodesText(ns[|ns|..], col) == Written("", col)
  {
  }

  /** Where the written characters go. */
  class Output {
    var text: string

    constructor ()
      ensures text == ""
    {
      text := "";
    }

    method Putc(c: char)
      modifies this
      ensures text == old(text) + [c]
    {
      text := text + [c];
    }

    method Puts(s: string)
      modifies this
      ensures text == old(text) + s
    {
      text := text + s;
    }

    method PutEscaped(c: char)
      modifies this
      ensures text == old(text) + EscapeChar(c)
    {
      var name := EntityName(c);
      if name.Some? {
        Putc('&');
        Puts(name.value);
        Putc(';');
      } else {
        Putc(c);
      }
    }

    method WriteString(s: string)
      modifies this
      ensures text == old(text) + Escape(s)
    {
      hide Escape, EscapeChar;
      ghost var all := text + Escape(s);
      assert s[0..] == s;
      for i := 0 to |s|
        invariant all == text + Escape(s[i..])
      {
        EscapeNext(s, i);
        PutEscaped(s[i]);
      }
      EscapeEnd(s);
    }

    method WriteName(s: string)
      modifies this
      ensures text == old(text) + NameText(s)
    {
      hide QuotedName, EscapeChar;
      if s != "" && (s[0] == '\"' || s[0] == '\'') {
        var quote := s[0];
        ghost var before := text;
        Putc(quote);
        WriteQuoted(s, quote);
        Putc(quote);
        assert text == before + ([quote] + QuotedName(s[1..], quote) + [quote]);
      } else {
        Puts(s);
      }
    }

    /** The part of a quoted name up to its closing quote. */
    method WriteQuoted(s: string, quote: char)
      requires s != ""
      modifies this
      ensures text == old(text) + QuotedName(s[1..], quote)
    {
      hide QuotedName, EscapeChar;
      ghost var all := text + QuotedName(s[1..], quote);
      var i := 1;
      while i < |s| && s[i] != quote
        invariant 1 <= i <= |s| && all == text + QuotedName(s[i..], quote)
      {
        QuotedNext(s, i, quote);
        PutEscaped(s[i]);
        i := i + 1;
      }
      QuotedEnd(s, i, quote);
    }

    method WriteAttr(attr: Attr, start: nat) returns (col: nat)
      modifies this
      ensures text == old(text) + AttrText(attr, start).text && col == AttrText(attr, start).col
    {
      hide NameText, Escape;
      ghost var before := text;
      col := start;
      var width := |attr.name|;
      if attr.value.Some? {
        width := width + |attr.value.value| + 3;
      }
      if col + width > WRAP {
        Putc('\n');
        col := 0;
      } else {
        Putc(' ');
        col := col + 1;
      }
      WriteName(attr.name);
      if attr.value.Some? {
        Putc('=');
        Putc('\"');
        WriteString(attr.value.value);
        Putc('\"');
      }
      col := col + width;
    }

    method WriteAttrs(attrs: seq<Attr>, start: nat) returns (col: nat)
      modifies this
      ensures text == old(text) + AttrsText(attrs, start).text && col == AttrsText(attrs, start).col
    {
      hide AttrsText, AttrText;
      ghost var all, end := text + AttrsText(attrs, start).text, AttrsText(attrs, start).col;
      col := start;
      assert attrs[0..] == attrs;
      for i := 0 to |attrs|
        invariant all == text + AttrsText(attrs[i..], col).text && end == AttrsText(attrs[i..], col).col
      {
        AttrsNext(attrs, i, col);
        col := WriteAttr(attrs[i], col);
      }
      AttrsEnd(attrs, col);
    }

    method WriteNodes(ns: seq<Node>, start: nat) returns (col: nat)
      modifies this
      ensures text == old(text) + NodesText(ns, start).text && col == NodesText(ns, start).col
      decreases ns
    {
      hide NodesText, NodeText;
      ghost var all, end := text + NodesText(ns, start).text, NodesText(ns, start).col;
      col := start;
      assert ns[0..] == ns;
      for i := 0 to |ns|
        invariant all == text + NodesText(ns[i..], col).text && end == NodesText(ns[i..], col).col
      {
        NodesNext(ns, i, col);
        col := WriteNode(ns[i], col);
      }
      NodesEnd(ns, col);
    }

    method WriteOpen(name: string, attrs: seq<Attr>, start: nat) returns (col: nat)
      modifies this
      ensures text == old(text) + OpenTag(name, attrs, start).text && col == OpenTag(name, attrs, start).col
    {
      hide AttrsText, NameText;
      col := start;
      Putc('<');
      if (name != "" && name[0] == '?') || "!--" <= name || "![CDATA[" <= name {
        Puts(name);
        if "?xml" <= name {
          col := WRAP;
        }
      } else {
        WriteName(name);
      }
      col := col + |name| + 1;
      col := WriteAttrs(attrs, col);
    }

    method WriteNode(n: Node, start: nat) returns (col: nat)
      modifies this
      ensures text == old(text) + NodeText(n, start).text && col == NodeText(n, start).col
      decreases n
    {
      hide OpenTag, NodesText, Escape;
      match n
      case Opaque(t) =>
        WriteString(t);
        col := start + |t|;
      case Element(name, attrs, children) =>
        col := WriteOpen(name, attrs, start);
        if children != [] {
          Putc('>');
          col := WriteNodes(children, col + 1);
          if !Special(name) {
            Puts("</");
            WriteString(name);
            Putc('>');
            col := col + |name| + 3;
          }
        } else if Special(name) {
          Putc('>');
          col := col + 1;
        } else {
          Puts(" />");
          col := col + 3;
        }
    }

    method Save(n: Node)
      requires text == ""
      modifies this
      ensures text == SaveText(n)
    {
      hide NodeText;
      var col := WriteNode(n, 0);
      if col > 0 {
        Putc('\n');
      }
    }
  }
}
