/** The loader itself: loops over an input position, a string buffer and a stack of open elements. */
module MxmlParser {
  import opened MxmlSave
  import opened MxmlLoad

  /** After a tag the loader goes on, stops, or gives up. */
  datatype Outcome = Going | Halted | Failed

  class Parser {
    const src: string
    const lookup: Lookup
    var pos: nat
    var stack: seq<Frame>
    var opaque_: bool
    var buf: string

    ghost predicate Valid()
      reads this`pos
    {
      pos <= |src|
    }

    /** The input that has not been read. */
    ghost function Rest(): string
      reads this`pos
      requires Valid()
    {
      src[pos..]
    }

    constructor (src: string, lookup: Lookup)
      ensures Valid() && this.src == src && this.lookup == lookup && Rest() == src && Now() == State([], false, "")
    {
      this.src, this.lookup, pos := src, lookup, 0;
      stack, opaque_, buf := [], false, "";
    }

    method Read() returns (ch: int)
      requires Valid()
      modifies this`pos
      ensures Valid() && Getc(old(Rest())) == Got(ch, Rest())
    {
      if pos == |src| || src[pos] == '\0' {
        return EOF;
      }
      assert src[pos..][1..] == src[pos + 1..];
      ch := src[pos] as int;
      pos := pos + 1;
      if Bad(ch) {
        ch := EOF;
      }
    }

    method ReadEntityChar() returns (ch: int)
      requires Valid()
      modifies this`pos
      ensures Valid() && GetEntity(old(Rest()), lookup) == Got(ch, Rest())
    {
      hide Getc;
      ghost var s := Rest();
      var name := "";
      ch := Read();
      ghost var g := Getc(s);
      while ch != EOF && !(ch > 126 || (!IsAlnum(ch) && ch != '#' as int)) && |name| < MAX_ENTITY
        invariant Valid() && g.ch == ch && g.rest == Rest() && |g.rest| <= |s|
        invariant ReadEntity(s, "") ==
          if ch == EOF || ch > 126 || (!IsAlnum(ch) && ch != '#' as int) || |name| >= MAX_ENTITY then
            Named(name, ch, Rest())
          else ReadEntity(Rest(), name + [Byte(ch)])
        decreases |Rest()|, if ch == EOF then 0 else 1
      {
        name := name + [Byte(ch)];
        g := Getc(Rest());
        ch := Read();
      }
      if ch != ';' as int {
        return EOF;
      }
      ch := lookup(name);
      if Bad(ch) {
        ch := EOF;
      }
    }

    /** A character of a name or a value. */
    method Decode(c: int) returns (ch: int)
      requires Valid()
      modifies this`pos
      ensures Valid() && Decoded(Got(c, old(Rest())), lookup) == Got(ch, Rest())
    {
      ch := c;
      if c == '&' as int {
        ch := ReadEntityChar();
      }
    }

    method ReadQuotedName(buf: string, quote: int) returns (text: string, ch: int, broken: bool)
      requires Valid()
      modifies this`pos
      ensures Valid()
      ensures QuotedPart(old(Rest()), buf, quote, lookup) == if broken then Broken else Piece(text, ch, Rest())
    {
      hide Getc, Decoded, Utf8;
      text, broken := buf, false;
      while true
        invariant Valid() && QuotedPart(old(Rest()), buf, quote, lookup) == QuotedPart(Rest(), text, quote, lookup)
        decreases |Rest()|
      {
        ch := Read();
        if ch == EOF {
          return;
        }
        ch := Decode(ch);
        if ch == EOF {
          broken := true;
          return;
        }
        text := text + Utf8(ch);
        if ch == quote {
          return;
        }
      }
    }

    method ReadName(buf: string) returns (text: string, ch: int, broken: bool)
      requires Valid()
      modifies this`pos
      ensures Valid() && NamePart(old(Rest()), buf, lookup) == if broken then Broken else Piece(text, ch, Rest())
    {
      hide Getc, Decoded, Utf8;
      text, broken := buf, false;
      while true
        invariant Valid() && NamePart(old(Rest()), buf, lookup) == NamePart(Rest(), text, lookup)
        decreases |Rest()|
      {
        ch := Read();
        if ch == EOF || EndsName(ch) {
          return;
        }
        ch := Decode(ch);
        if ch == EOF {
          broken := true;
          return;
        }
        text := text + Utf8(ch);
      }
    }

    method ReadQuotedValue(quote: int) returns (text: string, ch: int, broken: bool)
      requires Valid()
      modifies this`pos
      ensures Valid()
      ensures QuotedValue(old(Rest()), "", quote, lookup) == if broken then Broken else Piece(text, ch, Rest())
    {
      hide Getc, Decoded, Utf8;
      text, broken := "", false;
      while true
        invariant Valid() && QuotedValue(old(Rest()), "", quote, lookup) == QuotedValue(Rest(), text, quote, lookup)
        decreases |Rest()|
      {
        ch := Read();
        if ch == EOF || ch == quote {
          return;
        }
        ch := Decode(ch);
        if ch == EOF {
          broken := true;
          return;
        }
        text := text + Utf8(ch);
      }
    }

    method ReadPlainValue(buf: string) returns (text: string, ch: int, broken: bool)
      requires Valid()
      modifies this`pos
      ensures Valid() && PlainValue(old(Rest()), buf, lookup) == if broken then Broken else Piece(text, ch, Rest())
    {
      hide Getc, Decoded, Utf8;
      text, broken := buf, false;
      while true
        invariant Valid() && PlainValue(old(Rest()), buf, lookup) == PlainValue(Rest(), text, lookup)
        decreases |Rest()|
      {
        ch := Read();
        if ch == EOF || (EndsName(ch) && ch != '?' as int) {
          return;
        }
        ch := Decode(ch);
        if ch == EOF {
          broken := true;
          return;
        }
        text := text + Utf8(ch);
      }
    }

    method ReadValue() returns (text: string, ch: int, broken: bool)
      requires Valid()
      modifies this`pos
      ensures Valid() && ValuePart(old(Rest()), lookup) == if broken then Broken else Piece(text, ch, Rest())
    {
      hide Getc, QuotedValue, PlainValue;
      text, broken := "", false;
      ch := Read();
      if ch == EOF {
        broken := true;
      } else if IsQuote(ch) {
        text, ch, broken := ReadQuotedValue(ch);
      } else {
        text, ch, broken := ReadPlainValue([Byte(ch)]);
      }
    }

    method ReadTagEnd(ch: int) returns (end: int)
      requires Valid()
      modifies this`pos
      ensures Valid() && TagEnd(ch, old(Rest())) == Got(end, Rest())
    {
      hide Getc;
      var quote := Read();
      end := if quote != '>' as int then EOF else ch;
    }

    /** One attribute, whose name starts with `first`. */
    method ReadAttr(first: int, old_: seq<Attr>) returns (attrs: seq<Attr>, ch: int, broken: bool)
      requires Valid()
      modifies this`pos
      ensures Valid()
      ensures ParseAttr(first, old(Rest()), old_, lookup) == if broken then None else Some(Attrs(attrs, ch, Rest()))
      ensures broken ==> attrs == old_
    {
      hide QuotedPart, NamePart, ValuePart, FirstAttr, SetAttr;
      attrs := old_;
      var name;
      if IsQuote(first) {
        name, ch, broken := ReadQuotedName([Byte(first)], first);
      } else {
        name, ch, broken := ReadName([Byte(first)]);
      }
      if broken || FirstAttr(attrs, name).Some? {
        broken := true;
        return;
      }
      if ch == '=' as int {
        var value;
        value, ch, broken := ReadValue();
        if broken {
          return;
        }
        attrs := SetAttr(attrs, Attr(name, Some(value)));
      } else {
        attrs := SetAttr(attrs, Attr(name, None));
      }
    }

    /** Attributes, up to the end of the tag. */
    method ParseElement() returns (attrs: seq<Attr>, ch: int)
      requires Valid()
      modifies this`pos
      ensures Valid()
      ensures var a := ParseAttrs(old(Rest()), [], lookup);
        a.attrs == attrs && a.ch == ch && (ch != EOF ==> a.rest == Rest())
    {
      hide Getc, ParseAttr, TagEnd;
      attrs := [];
      ghost var all := ParseAttrs(Rest(), [], lookup);
      while true
        invariant Valid() && all == ParseAttrs(Rest(), attrs, lookup)
        decreases |Rest()|
      {
        ch := Read();
        if ch == EOF {
          return;
        }
        if !IsSpace(ch) {
          if ch == '/' as int || ch == '?' as int {
            ch := ReadTagEnd(ch);
            return;
          } else if ch == '>' as int {
            return;
          }
          var broken;
          attrs, ch, broken := ReadAttr(ch, attrs);
          if broken {
            return attrs, EOF;
          }
          if ch == '/' as int || ch == '?' as int {
            ch := ReadTagEnd(ch);
            return;
          } else if ch == '>' as int {
            return;
          }
        }
      }
    }

    method ReadTagName() returns (text: string, ch: int, broken: bool)
      requires Valid()
      modifies this`pos
      ensures Valid() && ReadTag(old(Rest()), "", lookup) == if broken then Broken else Piece(text, ch, Rest())
    {
      hide Getc, GetEntity, Utf8;
      text, broken := "", false;
      while true
        invariant Valid() && ReadTag(old(Rest()), "", lookup) == ReadTag(Rest(), text, lookup)
        decreases |Rest()|
      {
        ch := Read();
        if ch == EOF || IsSpace(ch) || ch == '>' as int || (ch == '/' as int && text != "") {
          return;
        } else if ch == '&' as int {
          ch := ReadEntityChar();
          if ch == EOF {
            broken := true;
            return;
          }
          text := text + Utf8(ch);
        } else {
          text := text + Utf8(ch);
          if text == "?" || text == "!--" || text == "![CDATA[" {
            return;
          }
        }
      }
    }

    /** The rest of a comment. */
    method GatherComment(start: string) returns (text: string, broken: bool)
      requires Valid()
      modifies this`pos
      ensures Valid() && ReadComment(old(Rest()), start) == if broken then Broken else Piece(text, '>' as int, Rest())
    {
      hide Getc, Utf8;
      text, broken := start, false;
      while true
        invariant Valid() && ReadComment(old(Rest()), start) == ReadComment(Rest(), text)
        decreases |Rest()|
      {
        var ch := Read();
        if ch == EOF {
          broken := true;
          return;
        }
        var n := |text|;
        if ch == '>' as int && n > 4 && text[n - 3] != '-' && text[n - 2] == '-' && text[n - 1] == '-' {
          return;
        }
        text := text + Utf8(ch);
      }
    }

    /** The rest of a CDATA section. */
    method GatherCdata(start: string) returns (text: string, broken: bool)
      requires Valid()
      modifies this`pos
      ensures Valid() && ReadCdata(old(Rest()), start) == if broken then Broken else Piece(text, '>' as int, Rest())
    {
      hide Getc, Utf8;
      text, broken := start, false;
      while true
        invariant Valid() && ReadCdata(old(Rest()), start) == ReadCdata(Rest(), text)
        decreases |Rest()|
      {
        var ch := Read();
        if ch == EOF {
          broken := true;
          return;
        }
        var n := |text|;
        if ch == '>' as int && n >= 2 && text[n - 2] == ']' && text[n - 1] == ']' {
          return;
        }
        text := text + Utf8(ch);
      }
    }

    /** The rest of a processing instruction. */
    method GatherInstruction(start: string) returns (text: string, broken: bool)
      requires Valid()
      modifies this`pos
      ensures Valid()
      ensures ReadInstruction(old(Rest()), start) == if broken then Broken else Piece(text, '>' as int, Rest())
    {
      hide Getc, Utf8;
      text, broken := start, false;
      while true
        invariant Valid() && ReadInstruction(old(Rest()), start) == ReadInstruction(Rest(), text)
        decreases |Rest()|
      {
        var ch := Read();
        if ch == EOF {
          broken := true;
          return;
        }
        var n := |text|;
        if ch == '>' as int && text != "" && text[n - 1] == '?' {
          return;
        }
        text := text + Utf8(ch);
      }
    }

    /** The rest of a declaration. */
    method GatherDeclaration(first: int, start: string) returns (text: string, broken: bool)
      requires Valid()
      modifies this`pos
      ensures Valid()
      ensures ReadDeclaration(first, old(Rest()), start, lookup) == if broken then Broken
        else Piece(text, '>' as int, Rest())
    {
      hide Getc, Decoded, Utf8;
      var ch := first;
      text, broken := start, false;
      while ch != '>' as int
        invariant Valid()
        invariant ReadDeclaration(first, old(Rest()), start, lookup) == ReadDeclaration(ch, Rest(), text, lookup)
        decreases |Rest()|, if ch == '>' as int then 0 else 1
      {
        var c := Decode(ch);
        if ch == '&' as int && c == EOF {
          broken := true;
          return;
        }
        text := text + Utf8(c);
        ch := Read();
        if ch == EOF {
          broken := true;
          return;
        }
      }
    }

    method SkipToEnd(first: int)
      requires Valid()
      modifies this`pos
      ensures Valid() && SkipTag(first, old(Rest())) == Rest()
    {
      hide Getc;
      var ch := first;
      while ch != '>' as int && ch != EOF
        invariant Valid() && SkipTag(first, old(Rest())) == SkipTag(ch, Rest())
        decreases |Rest()|, if ch == EOF then 0 else 1
      {
        ch := Read();
      }
    }

    ghost function Now(): State
      reads this
    {
      State(stack, opaque_, buf)
    }

    method AppendNode(n: Node)
      modifies this`stack
      ensures stack == Append(old(stack), n)
    {
      if stack != [] {
        var k := |stack| - 1;
        stack := stack[k := stack[k].(children := stack[k].children + [n])];
      }
    }

    method OpenElement(name: string, attrs: seq<Attr>)
      modifies this`stack, this`opaque_, this`buf
      ensures Now() == Open(old(Now()), name, attrs)
    {
      stack, opaque_, buf := stack + [Frame(name, attrs, [])], true, "";
    }

    method AddLeaf(name: string, attrs: seq<Attr>)
      modifies this`stack, this`buf
      ensures Now() == Leaf(old(Now()), name, attrs)
    {
      AppendNode(Element(name, attrs, []));
      buf := "";
    }

    /** The text in front of a tag. */
    method AddValue()
      modifies this`stack, this`buf
      ensures Now() == Flush(old(Now()))
    {
      if buf != "" {
        AppendNode(Opaque(buf));
        buf := "";
      }
    }

    method CloseElement()
      requires stack != []
      modifies this`stack, this`buf
      ensures Now() == Pop(old(Now()))
    {
      var k := |stack| - 1;
      var f := stack[k];
      stack := stack[..k];
      AppendNode(Element(f.name, f.attrs, f.children));
      buf := "";
    }

    /** What a tag leads to. */
    ghost predicate Led(step: Step, o: Outcome)
      reads this
      requires Valid()
    {
      match o
      case Going => step == Next(Now(), Rest())
      case Halted => step == Stop(Now())
      case Failed => step == Error
    }

    method ReadElement(name: string, ch: int) returns (o: Outcome)
      requires Valid()
      modifies this
      ensures Valid() && Led(OpenStep(name, ch, old(Rest()), old(Now()), lookup), o)
    {
      hide TagEnd, ParseAttrs, Open, Leaf;
      o := Going;
      if IsSpace(ch) {
        var attrs, end := ParseElement();
        if end == '/' as int || end == EOF {
          AddLeaf(name, attrs);
        } else {
          OpenElement(name, attrs);
        }
        if end == EOF {
          o := Halted;
        }
      } else if ch == '/' as int {
        var end := ReadTagEnd(ch);
        if end == EOF {
          o := Failed;
        } else {
          AddLeaf(name, []);
        }
      } else if ch == EOF {
        AddLeaf(name, []);
        o := Halted;
      } else {
        OpenElement(name, []);
      }
    }

    method ReadMarkup(text: string, ch: int) returns (o: Outcome)
      requires Valid()
      modifies this
      ensures Valid() && Led(TagStep(text, ch, old(Rest()), old(Now()), lookup), o)
    {
      hide OpenStep, ReadComment, ReadCdata, ReadInstruction, ReadDeclaration, SkipTag, Open, Leaf, Pop;
      var name, broken;
      if text == "!--" {
        name, broken := GatherComment(text);
        if broken {
          return Failed;
        }
        AddLeaf(name, []);
      } else if text == "![CDATA[" {
        name, broken := GatherCdata(text);
        if broken {
          return Failed;
        }
        AddLeaf(name, []);
      } else if "?" <= text {
        name, broken := GatherInstruction(text);
        if broken {
          return Failed;
        }
        OpenElement(name, []);
      } else if "!" <= text {
        name, broken := GatherDeclaration(ch, text);
        if broken {
          return Failed;
        }
        OpenElement(name, []);
      } else if "/" <= text {
        if stack == [] || text[1..] != stack[|stack| - 1].name {
          return Failed;
        }
        SkipToEnd(ch);
        CloseElement();
      } else {
        o := ReadElement(text, ch);
        return;
      }
      o := Going;
    }

    method ReadMarkupTag() returns (o: Outcome)
      requires Valid()
      modifies this
      ensures Valid() && Led(Tag(old(Rest()), old(Now()), lookup), o)
    {
      hide ReadTag, TagStep;
      var text, ch, broken := ReadTagName();
      if broken {
        return Failed;
      }
      o := ReadMarkup(text, ch);
    }

    /** The outermost open element, with all the others closed into it. */
    method Top() returns (n: Option<Node>)
      modifies this`stack, this`buf
      ensures n == Finish(old(stack))
    {
      if stack == [] {
        return None;
      }
      while |stack| > 1
        invariant stack != [] && Finish(stack) == Finish(old(stack))
        decreases |stack|
      {
        CloseElement();
      }
      n := Some(Element(stack[0].name, stack[0].attrs, stack[0].children));
    }

    method LoadData() returns (n: Option<Node>)
      requires Valid()
      modifies this
      ensures n == Load(old(Rest()), old(Now()), lookup)
    {
      hide Getc, Decoded, Tag, Flush, Finish, Utf8;
      ghost var all := Load(Rest(), Now(), lookup);
      while true
        invariant Valid() && all == Load(Rest(), Now(), lookup)
        decreases |Rest()|
      {
        ghost var st := Now();
        var ch := Read();
        if ch == EOF {
          break;
        }
        if ch == '<' as int {
          AddValue();
          var o := ReadMarkupTag();
          if o == Failed {
            return None;
          }
          if o == Halted {
            break;
          }
        } else if IsSpace(ch) && !opaque_ {
          AddValue();
        } else {
          ch := Decode(ch);
          if ch == EOF {
            return None;
          }
          buf := buf + Utf8(ch);
        }
      }
      n := Top();
    }
  }

  /** `mxmlLoadString` without a top node and with all values opaque. */
  method LoadText(s: string, lookup: Lookup) returns (n: Option<Node>)
    ensures n == LoadString(s, lookup)
  {
    var p := new Parser(s, lookup);
    n := p.LoadData();
  }
}
