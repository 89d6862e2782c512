/** What saved text looks like, apart from what the loader makes of it. */
module MxmlWriting {
  import opened MxmlSave

  /** Four characters are escaped, in names, values and text, and no other ones. */
  lemma EscapeMeans(c: char)
    ensures EscapeChar(c) ==
      if c == '&' then "&amp;" else if c == '<' then "&lt;" else if c == '>' then "&gt;"
      else if c == '\"' then "&quot;" else [c]
  {
  }

  /** An attribute that is written as it is. */
  predicate Unescaped(a: Attr) {
    && a.name != "" && a.name[0] != '\"' && a.name[0] != '\''
    && (a.value.Some? ==> forall i :: 0 <= i < |a.value.value| ==> a.value.value[i] !in "&<>\"")
  }

  lemma {:induction false} EscapeNothing(s: string)
    requires forall i :: 0 <= i < |s| ==> s[i] !in "&<>\""
    ensures Escape(s) == s
  {
    if s != "" {
      EscapeNothing(s[1..]);
    }
  }

  /** A line is broken in front of an attribute exactly if it would otherwise have more than 73 characters, and the
      column is the length of the last line. A line that is not broken has at most 73 characters, one more than the
      limit, because the space in front of the attribute is not counted.
   */
  lemma AttrBreaks(a: Attr, col: nat)
    requires Unescaped(a)
    ensures var body := a.name + if a.value.Some? then "=\"" + a.value.value + "\"" else "";
      AttrText(a, col) ==
        if col + 1 + |body| > 73 then Written("\n" + body, |body|) else Written(" " + body, col + 1 + |body|)
  {
    if a.value.Some? {
      EscapeNothing(a.value.value);
    }
  }

  /** The width of a value is that before it is escaped: an escaped one may go beyond the end of a line. */
  lemma EscapedWider()
    ensures var a := Attr("a", Some("&"));
      AttrText(a, 67) == Written(" a=\"&amp;\"", 73) && 67 + |AttrText(a, 67).text| == 77
  {
    var v := "&";
    assert v[1..] == "" && Escape("") == "";
    assert Escape(v) == EscapeChar('&') + Escape(v[1..]);
    assert EscapeChar('&') == "&amp;";
  }

  /** The tags around the children of an element: none of a comment, a section, an instruction or a declaration at
      its end, and one tag for both if there are no children.
   */
  lemma TagsAround(n: Node, col: nat)
    requires n.Element? && n.name != "" && n.name[0] != '\"' && n.name[0] != '\''
    ensures var a := AttrsText(n.attrs, (if "?xml" <= n.name then 72 else col) + |n.name| + 1);
      var children := NodesText(n.children, a.col + 1).text;
      NodeText(n, col).text == "<" + n.name + a.text +
        if n.name[0] == '!' || n.name[0] == '?' then ">" + children
        else if n.children == [] then " />"
        else ">" + children + "</" + Escape(n.name) + ">"
  {
    hide AttrsText, NodesText, Escape;
    if n.children == [] {
      NodesEnd([], AttrsText(n.attrs, OpenCol(n.name, col)).col + 1);
    }
  }
}
