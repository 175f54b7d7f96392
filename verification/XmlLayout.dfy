/** The layout of pretty output, seen on its lines: how far each one is indented, and where
    the lines end. */
module XmlLayout {
  import opened Common
  import opened DocumentTree
  import opened XmlPrinter
  import opened TextPrinter

  function Pretty(indent: int): XmlOptions {
    XmlOptions(indent, true)
  }

  /** The indentation that is meant at `level`: nothing for an indent below zero. */
  function Width(level: nat, indent: int): nat {
    if level * indent > 0 then level * indent else 0
  }

  predicate EndsWith(s: string, end: string) {
    |end| <= |s| && s[|s| - |end|..] == end
  }

  lemma EndOfConcat(s: string, end: string)
    ensures EndsWith(s + end, end)
  {
  }

  lemma IndentedBy(level: nat, indent: int, text: string)
    requires text != "" && text[0] != ' '
    ensures LeadingSpaces(Spaces(level * indent) + text) == Width(level, indent)
    ensures (Spaces(level * indent) + text)[Width(level, indent)..] == text
  {
    var n := Width(level, indent);
    assert |Spaces(level * indent)| == n && Spaces(level * indent) == Spaces(n);
    LeadingOfIndented(n, text);
  }

  // ----- one element -----

  /** Pretty output of an element starts with its indentation and its start tag, and ends
      with one newline behind the tag that closes it. */
  lemma PrettyFrame(e: Node, level: nat, indent: int)
    requires e.Element?
    ensures var s, w := PrintElement(e, level, Pretty(indent)), Width(level, indent);
            && LeadingSpaces(s) == w && w <= |s| && "<" + e.name.GetOr("") <= s[w..]
            && EndsWith(s, ">\n")
  {
    var o, tag := Pretty(indent), "<" + e.name.GetOr("");
    var tail := PrintBody(e, level, o) + "\n";
    var rest := PrintAttributes(e.attributes) + (PrintNamespace(e) + (PrintDecls(e.nsDecls) + tail));
    FrameGroups(e, level, indent);
    IndentedBy(level, indent, tag + rest);
    assert tag <= tag + rest;
    BodyEnds(e, level, o);
    assert EndsWith(tail, ">\n");
    EndBehind(Spaces(level * indent), tag + rest, ">\n");
    EndBehind(tag, rest, ">\n");
    EndBehind(PrintAttributes(e.attributes), PrintNamespace(e) + (PrintDecls(e.nsDecls) + tail), ">\n");
    EndBehind(PrintNamespace(e), PrintDecls(e.nsDecls) + tail, ">\n");
    EndBehind(PrintDecls(e.nsDecls), tail, ">\n");
  }

  lemma EndBehind(front: string, s: string, end: string)
    ensures EndsWith(s, end) ==> EndsWith(front + s, end)
  {
  }

  lemma BodyEnds(e: Node, level: nat, o: XmlOptions)
    requires e.Element?
    ensures EndsWith(PrintBody(e, level, o), ">")
  {
    if e.children != [] {
      EndOfConcat(Closing(e, level, o) + "</" + e.name.GetOr(""), ">");
      EndBehind(">" + Opening(e, o) + PrintChildren(e.children, level + 1, o), EndTag(e, level, o), ">");
    }
  }

  lemma FrameGroups(e: Node, level: nat, indent: int)
    requires e.Element?
    ensures var o, tag := Pretty(indent), "<" + e.name.GetOr("");
            var tail := PrintBody(e, level, o) + "\n";
            PrintElement(e, level, o)
              == Spaces(level * indent)
                 + (tag + (PrintAttributes(e.attributes) + (PrintNamespace(e) + (PrintDecls(e.nsDecls) + tail))))
  {
    var o, tag := Pretty(indent), "<" + e.name.GetOr("");
    var body := PrintBody(e, level, o);
    var a, n, d := PrintAttributes(e.attributes), PrintNamespace(e), PrintDecls(e.nsDecls);
    var spaces := Spaces(level * indent);
    assert OpenTag(e) == tag + a + n + d;
    Assoc(spaces + (tag + a + n + d), body, "\n");
    Assoc(spaces, tag + a + n + d, body + "\n");
    Assoc(tag + a + n, d, body + "\n");
    Assoc(tag + a, n, d + (body + "\n"));
    Assoc(tag, a, n + (d + (body + "\n")));
  }

  /** The closing tag is indented like the element exactly if the first child is an element,
      and it has a line of its own if the last one is. */
  lemma ClosingTagLine(e: Node, level: nat, indent: int)
    requires e.Element? && e.children != []
    ensures var s, w := PrintElement(e, level, Pretty(indent)), Width(level, indent);
            var tag := "</" + e.name.GetOr("") + ">\n";
            && EndsWith(s, tag)
            && (e.children[0].Element? ==> EndsWith(s, Spaces(w) + tag))
            && (e.children[0].Element? && e.children[|e.children| - 1].Element? ==>
                  EndsWith(s, "\n" + (Spaces(w) + tag)))
  {
    var o, w := Pretty(indent), Width(level, indent);
    var name, children := e.name.GetOr(""), PrintChildren(e.children, level + 1, o);
    var front := Spaces(level * indent) + OpenTag(e);
    var tag := "</" + name + ">\n";
    var before := ">" + Opening(e, o) + children;
    assert Closing(e, level, o) == if e.children[0].Element? then Spaces(w) else "";
    ElementEndsWith(e, level, indent);
    EndBehind(front + before, Closing(e, level, o) + tag, Closing(e, level, o) + tag);
    EndBehind(front + before + Closing(e, level, o), tag, tag);
    Assoc(front + before, Closing(e, level, o), tag);
    if e.children[0].Element? && e.children[|e.children| - 1].Element? {
      ChildrenEnd(e.children, level + 1, indent);
      EndBehind(front + (">" + Opening(e, o)), children, "\n");
      Assoc(front, ">" + Opening(e, o), children);
      EndJoins(front + before, "\n", Spaces(w) + tag);
    }
  }

  lemma EndJoins(s: string, end: string, more: string)
    requires EndsWith(s, end)
    ensures EndsWith(s + more, end + more)
  {
    assert s == s[..|s| - |end|] + end;
    Assoc(s[..|s| - |end|], end, more);
  }

  lemma ElementEndsWith(e: Node, level: nat, indent: int)
    requires e.Element? && e.children != []
    ensures var o := Pretty(indent);
            PrintElement(e, level, o)
              == Spaces(level * indent) + OpenTag(e) + (">" + Opening(e, o) + PrintChildren(e.children, level + 1, o))
                 + (Closing(e, level, o) + ("</" + e.name.GetOr("") + ">\n"))
  {
    var o := Pretty(indent);
    var front := Spaces(level * indent) + OpenTag(e);
    var before := ">" + Opening(e, o) + PrintChildren(e.children, level + 1, o);
    var c, name := Closing(e, level, o), e.name.GetOr("");
    assert ">" + "\n" == ">\n";
    Assoc(front, before, EndTag(e, level, o));
    Assoc(front + before, EndTag(e, level, o), "\n");
    Assoc(c + "</" + name, ">", "\n");
    Assoc(c + "</", name, ">\n");
    Assoc(c, "</", name + ">\n");
    Assoc("</", name, ">\n");
  }

  lemma {:induction false} ChildrenEnd(ns: seq<Node>, level: nat, indent: int)
    requires ns != [] && ns[|ns| - 1].Element?
    ensures EndsWith(PrintChildren(ns, level, Pretty(indent)), "\n")
  {
    var o := Pretty(indent);
    if |ns| == 1 {
      assert PrintChildren(ns, level, o) == PrintNode(ns[0], level, o) + PrintChildren(ns[1..], level, o);
      assert PrintNode(ns[0], level, o) + "" == PrintElement(ns[0], level, o);
      PrettyFrame(ns[0], level, indent);
    } else {
      assert ns[1..][|ns[1..]| - 1] == ns[|ns| - 1];
      ChildrenEnd(ns[1..], level, indent);
      EndBehind(PrintNode(ns[0], level, o), PrintChildren(ns[1..], level, o), "\n");
    }
  }

  function Commented(name: string, comment: string): Node {
    Element(Some(name), [], None, None, [], None, [Comment(Some(comment))])
  }

  /** Content that does not start with an element stays on the line of its tags. */
  lemma InlineContent(name: string, comment: string, level: nat, indent: int)
    ensures PrintElement(Commented(name, comment), level, Pretty(indent))
         == Spaces(level * indent) + ("<" + name) + (">" + ("<!--" + comment + "-->")) + ("</" + name + ">\n")
  {
    var e, o := Commented(name, comment), Pretty(indent);
    var child := "<!--" + comment + "-->";
    ElementEndsWith(e, level, indent);
    assert e.children[1..] == [];
    assert PrintChildren(e.children, level + 1, o) == child + "" == child;
    assert OpenTag(e) == "<" + name + "" + "" + "" == "<" + name;
    assert Opening(e, o) == "" && Closing(e, level, o) == "";
    assert ">" + "" == ">" && "" + ("</" + name + ">\n") == "</" + name + ">\n";
  }

  // ----- all the lines -----

  /** A tag on a line of its own. */
  datatype Tag = Tag(depth: nat, name: string, closing: bool)

  predicate ElementsOnly(n: Node)
    decreases n, 0
  {
    n.Element? && ElementsOnlyAll(n.children)
  }

  predicate ElementsOnlyAll(ns: seq<Node>)
    decreases ns, 1
  {
    ns == [] || (ElementsOnly(ns[0]) && ElementsOnlyAll(ns[1..]))
  }

  /** The start tags in document order, each with its end tag behind its content. */
  function Tags(e: Node, depth: nat): seq<Tag>
    requires e.Element?
    decreases e, 0
  {
    var name := e.name.GetOr("");
    [Tag(depth, name, false)]
    + if e.children == [] then [] else TagsAll(e.children, depth + 1) + [Tag(depth, name, true)]
  }

  function TagsAll(ns: seq<Node>, depth: nat): seq<Tag>
    decreases ns, 1
  {
    if ns == [] then []
    else (if ns[0].Element? then Tags(ns[0], depth) else []) + TagsAll(ns[1..], depth)
  }

  /** The line has the width that belongs to the depth of the tag, and the tag behind it. */
  predicate Shows(line: string, tag: Tag, indent: int) {
    var w := Width(tag.depth, indent);
    && LeadingSpaces(line) == w && w <= |line|
    && (if tag.closing then "</" else "<") + tag.name <= line[w..] && EndsWith(line, ">")
  }

  predicate AllShow(lines: seq<string>, tags: seq<Tag>, indent: int) {
    |lines| == |tags| && forall k | 0 <= k < |lines| :: Shows(lines[k], tags[k], indent)
  }

  predicate NoNewline(s: Option<string>) {
    '\n' !in s.GetOr("")
  }

  /** No string of the tree contains a newline. */
  predicate OneLine(n: Node)
    decreases n, 0
  {
    n.Element? ==>
      && NoNewline(n.name) && NoNewline(n.nsUri) && NoNewline(n.nsPrefix)
      && (forall a | a in n.attributes :: NoNewline(a.name) && NoNewline(a.value))
      && (forall d | d in n.nsDecls :: NoNewline(d.prefix) && NoNewline(d.uri))
      && OneLineAll(n.children)
  }

  predicate OneLineAll(ns: seq<Node>)
    decreases ns, 1
  {
    ns == [] || (OneLine(ns[0]) && OneLineAll(ns[1..]))
  }

  lemma {:induction false} EscapedOneLine(s: string)
    requires '\n' !in s
    ensures '\n' !in Escaped(EscapeAttrChar, s)
  {
    if s != "" {
      assert s[0] in s && forall c | c in s[1..] :: c in s;
      EscapedOneLine(s[1..]);
      assert '\n' !in EscapeAttrChar(s[0]);
    }
  }

  lemma {:induction false} AttributesOneLine(attrs: seq<Attribute>)
    requires forall a | a in attrs :: NoNewline(a.name) && NoNewline(a.value)
    ensures '\n' !in PrintAttributes(attrs)
  {
    if attrs != [] {
      assert attrs[0] in attrs && forall a | a in attrs[1..] :: a in attrs;
      AttributesOneLine(attrs[1..]);
      if HasName(attrs[0]) {
        EscapedOneLine(attrs[0].value.GetOr(""));
        assert '\n' !in PrintAttribute(attrs[0]);
      }
    }
  }

  lemma {:induction false} DeclsOneLine(decls: seq<NamespaceDecl>)
    requires forall d | d in decls :: NoNewline(d.prefix) && NoNewline(d.uri)
    ensures '\n' !in PrintDecls(decls)
  {
    if decls != [] {
      assert decls[0] in decls && forall d | d in decls[1..] :: d in decls;
      DeclsOneLine(decls[1..]);
      assert '\n' !in PrintXmlns(decls[0].prefix, decls[0].uri.GetOr(""));
    }
  }

  lemma StartTagOneLine(e: Node)
    requires e.Element? && OneLine(e)
    ensures '\n' !in OpenTag(e)
  {
    AttributesOneLine(e.attributes);
    DeclsOneLine(e.nsDecls);
    assert '\n' !in PrintNamespace(e);
  }

  /** One more line in front. */
  lemma LineInFront(level: nat, indent: int, text: string, rest: string, tag: Tag, tags: seq<Tag>)
    requires text != "" && '\n' !in text && EndsWith(text, ">") && tag.depth == level
    requires (if tag.closing then "</" else "<") + tag.name <= text
    requires AllShow(Lines(rest), tags, indent)
    ensures AllShow(Lines(Spaces(level * indent) + (text + ("\n" + rest))), [tag] + tags, indent)
  {
    var line := Spaces(level * indent) + text;
    IndentedBy(level, indent, text);
    Assoc(Spaces(level * indent), text, "\n" + rest);
    LineThenRest(line, rest);
    EndBehind(Spaces(level * indent), text, ">");
    var lines := Lines(line + ("\n" + rest));
    assert lines == [line] + Lines(rest);
    forall k | 0 <= k < |lines| ensures Shows(lines[k], ([tag] + tags)[k], indent) {
      assert k > 0 ==> lines[k] == Lines(rest)[k - 1] && ([tag] + tags)[k] == tags[k - 1];
    }
  }

  lemma {:induction false} ElementLines(e: Node, level: nat, indent: int, rest: string, tags: seq<Tag>)
    requires ElementsOnly(e) && OneLine(e) && AllShow(Lines(rest), tags, indent)
    ensures AllShow(Lines(PrintElement(e, level, Pretty(indent)) + rest), Tags(e, level) + tags, indent)
    decreases e, 0
  {
    if e.children == [] {
      EmptyLine(e, level, indent, rest, tags);
    } else {
      var closing, end := "</" + e.name.GetOr("") + ">", Tag(level, e.name.GetOr(""), true);
      var after := Spaces(level * indent) + (closing + ("\n" + rest));
      LineInFront(level, indent, closing, rest, end, tags);
      ChildrenLines(e.children, level + 1, indent, after, [end] + tags);
      NestedLines(e, level, indent, rest, tags);
    }
  }

  lemma EmptyLine(e: Node, level: nat, indent: int, rest: string, tags: seq<Tag>)
    requires e.Element? && e.children == [] && OneLine(e) && AllShow(Lines(rest), tags, indent)
    ensures AllShow(Lines(PrintElement(e, level, Pretty(indent)) + rest), Tags(e, level) + tags, indent)
  {
    StartTagOneLine(e);
    StartsWithName(e);
    LineInFront(level, indent, OpenTag(e) + "/>", rest, Tag(level, e.name.GetOr(""), false), tags);
    EmptyElementLine(e, level, indent, rest);
  }

  lemma NestedTags(e: Node, level: nat, tags: seq<Tag>)
    requires e.Element? && e.children != []
    ensures var start, end := Tag(level, e.name.GetOr(""), false), Tag(level, e.name.GetOr(""), true);
            Tags(e, level) + tags == [start] + (TagsAll(e.children, level + 1) + ([end] + tags))
  {
  }

  lemma NestedLines(e: Node, level: nat, indent: int, rest: string, tags: seq<Tag>)
    requires ElementsOnly(e) && e.children != [] && OneLine(e)
    requires var after := Spaces(level * indent) + ("</" + e.name.GetOr("") + ">" + ("\n" + rest));
             AllShow(Lines(PrintChildren(e.children, level + 1, Pretty(indent)) + after),
                     TagsAll(e.children, level + 1) + ([Tag(level, e.name.GetOr(""), true)] + tags), indent)
    ensures AllShow(Lines(PrintElement(e, level, Pretty(indent)) + rest), Tags(e, level) + tags, indent)
  {
    var start, end := Tag(level, e.name.GetOr(""), false), Tag(level, e.name.GetOr(""), true);
    var after := Spaces(level * indent) + ("</" + e.name.GetOr("") + ">" + ("\n" + rest));
    var inner := PrintChildren(e.children, level + 1, Pretty(indent)) + after;
    StartTagOneLine(e);
    StartsWithName(e);
    LineInFront(level, indent, OpenTag(e) + ">", inner, start, TagsAll(e.children, level + 1) + ([end] + tags));
    assert ElementsOnlyAll(e.children) && ElementsOnly(e.children[0]);
    NestedElementLines(e, level, indent, rest);
    NestedTags(e, level, tags);
  }

  lemma StartsWithName(e: Node)
    requires e.Element?
    ensures forall more: string :: "<" + e.name.GetOr("") <= OpenTag(e) + more
  {
    var tag, a, n, d := "<" + e.name.GetOr(""), PrintAttributes(e.attributes), PrintNamespace(e), PrintDecls(e.nsDecls);
    assert tag <= tag + a <= tag + a + n <= tag + a + n + d;
    forall more: string ensures tag <= OpenTag(e) + more {
      assert OpenTag(e) <= OpenTag(e) + more;
    }
  }

  lemma EmptyElementLine(e: Node, level: nat, indent: int, rest: string)
    requires e.Element? && e.children == []
    ensures PrintElement(e, level, Pretty(indent)) + rest
         == Spaces(level * indent) + (OpenTag(e) + "/>" + ("\n" + rest))
  {
    var spaces := Spaces(level * indent);
    Assoc(spaces, OpenTag(e), "/>");
    Assoc(spaces + (OpenTag(e) + "/>"), "\n", rest);
    Assoc(spaces, OpenTag(e) + "/>", "\n" + rest);
  }

  lemma NestedElementLines(e: Node, level: nat, indent: int, rest: string)
    requires e.Element? && e.children != [] && e.children[0].Element?
    ensures var closing := "</" + e.name.GetOr("") + ">";
            var after := Spaces(level * indent) + (closing + ("\n" + rest));
            PrintElement(e, level, Pretty(indent)) + rest
              == Spaces(level * indent)
                 + (OpenTag(e) + ">" + ("\n" + (PrintChildren(e.children, level + 1, Pretty(indent)) + after)))
  {
    var o, spaces, name := Pretty(indent), Spaces(level * indent), e.name.GetOr("");
    var children, tag := PrintChildren(e.children, level + 1, o), "</" + name + ">\n";
    var after := spaces + ("</" + name + ">" + ("\n" + rest));
    ElementEndsWith(e, level, indent);
    assert tag == "</" + name + ">" + "\n" && ">" + Opening(e, o) == ">" + "\n";
    Assoc("</" + name + ">", "\n", rest);
    Assoc(spaces, tag, rest);
    Assoc(spaces + OpenTag(e) + (">" + "\n" + children), spaces + tag, rest);
    Assoc(">" + "\n", children, after);
    Assoc(spaces + OpenTag(e), ">" + "\n" + children, after);
    Assoc(">", "\n", children + after);
    Assoc(OpenTag(e), ">", "\n" + (children + after));
    Assoc(spaces, OpenTag(e), ">" + ("\n" + (children + after)));
  }

  lemma {:induction false} ChildrenLines(ns: seq<Node>, level: nat, indent: int, rest: string, tags: seq<Tag>)
    requires ElementsOnlyAll(ns) && OneLineAll(ns) && AllShow(Lines(rest), tags, indent)
    ensures AllShow(Lines(PrintChildren(ns, level, Pretty(indent)) + rest), TagsAll(ns, level) + tags, indent)
    decreases ns, 1
  {
    var o := Pretty(indent);
    if ns == [] {
      assert PrintChildren(ns, level, o) + rest == rest && TagsAll(ns, level) + tags == tags;
    } else {
      ChildrenLines(ns[1..], level, indent, rest, tags);
      ElementLines(ns[0], level, indent, PrintChildren(ns[1..], level, o) + rest, TagsAll(ns[1..], level) + tags);
      Assoc(PrintElement(ns[0], level, o), PrintChildren(ns[1..], level, o), rest);
      Assoc(Tags(ns[0], level), TagsAll(ns[1..], level), tags);
    }
  }

  /** Pretty output of a tree of elements has one line for each tag, in document order, each
      indented by the indent times its depth. */
  lemma PrettyLines(e: Node, indent: int)
    requires ElementsOnly(e) && OneLine(e)
    ensures AllShow(Lines(PrintElement(e, 0, Pretty(indent))), Tags(e, 0), indent)
  {
    assert Lines("") == [];
    ElementLines(e, 0, indent, "", []);
    assert PrintElement(e, 0, Pretty(indent)) + "" == PrintElement(e, 0, Pretty(indent));
    assert Tags(e, 0) + [] == Tags(e, 0);
  }
}
