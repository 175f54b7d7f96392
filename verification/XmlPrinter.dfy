/** The XML tree printer: the text it writes, as a function, and the procedure that
    writes it to a stream. */
module XmlPrinter {
  import opened Common
  import opened DocumentTree

  datatype XmlOptions = XmlOptions(indent: int, pretty: bool)

  function EscapeAttrChar(c: char): string {
    match c
    case '<' => "&lt;"
    case '>' => "&gt;"
    case '&' => "&amp;"
    case '"' => "&quot;"
    case '\'' => "&apos;"
    case _ => [c]
  }

  function EscapeTextChar(c: char): string {
    match c
    case '<' => "&lt;"
    case '>' => "&gt;"
    case '&' => "&amp;"
    case _ => [c]
  }

  function Indentation(level: nat, o: XmlOptions): string {
    if o.pretty then Spaces(level * o.indent) else ""
  }

  function Newline(o: XmlOptions): string {
    if o.pretty then "\n" else ""
  }

  function PrintAttributes(attrs: seq<Attribute>): string {
    if attrs == [] then ""
    else (if HasName(attrs[0]) then PrintAttribute(attrs[0]) else "") + PrintAttributes(attrs[1..])
  }

  function PrintAttribute(a: Attribute): string
    requires HasName(a)
  {
    " " + a.name.value + "=\"" + Escaped(EscapeAttrChar, a.value.GetOr("")) + "\""
  }

  function PrintXmlns(prefix: Option<string>, uri: string): string {
    " xmlns" + (if prefix.Some? then ":" + prefix.value else "") + "=\"" + uri + "\""
  }

  function PrintNamespace(e: Node): string
    requires e.Element?
  {
    if e.nsUri.Some? then PrintXmlns(e.nsPrefix, e.nsUri.value) else ""
  }

  function PrintDecls(decls: seq<NamespaceDecl>): string {
    if decls == [] then ""
    else PrintXmlns(decls[0].prefix, decls[0].uri.GetOr("")) + PrintDecls(decls[1..])
  }

  predicate FirstIsElement(e: Node)
    requires e.Element?
  {
    e.children != [] && e.children[0].Element?
  }

  /** The newline after an opening tag, and the indentation before a closing tag. */
  function Opening(e: Node, o: XmlOptions): string
    requires e.Element?
  {
    if FirstIsElement(e) then Newline(o) else ""
  }

  function Closing(e: Node, level: nat, o: XmlOptions): string
    requires e.Element?
  {
    if FirstIsElement(e) then Indentation(level, o) else ""
  }

  function OpenTag(e: Node): string
    requires e.Element?
  {
    "<" + e.name.GetOr("") + PrintAttributes(e.attributes) + PrintNamespace(e) + PrintDecls(e.nsDecls)
  }

  function EndTag(e: Node, level: nat, o: XmlOptions): string
    requires e.Element?
  {
    Closing(e, level, o) + "</" + e.name.GetOr("") + ">"
  }

  /** What follows the attributes, up to the end of the closing tag. */
  function PrintBody(e: Node, level: nat, o: XmlOptions): string
    requires e.Element?
    decreases e, 0
  {
    if e.children == [] then "/>"
    else ">" + Opening(e, o) + PrintChildren(e.children, level + 1, o) + EndTag(e, level, o)
  }

  function PrintElement(e: Node, level: nat, o: XmlOptions): string
    requires e.Element?
    decreases e, 1
  {
    Indentation(level, o) + OpenTag(e) + PrintBody(e, level, o) + Newline(o)
  }

  function PrintNode(n: Node, level: nat, o: XmlOptions): string
    decreases n, 2
  {
    match n
    case Element(_, _, _, _, _, _, _) => PrintElement(n, level, o)
    case Text(Some(t)) => if !o.pretty && IsBlank(t) then "" else Escaped(EscapeTextChar, t)
    case CData(Some(t)) => "<![CDATA[" + t + "]]>"
    case Comment(Some(t)) => "<!--" + t + "-->"
    case ProcessingInstruction(Some(t), d) =>
      "<?" + t + (if d.Some? then " " + d.value else "") + "?>"
    case _ => ""
  }

  function PrintChildren(ns: seq<Node>, level: nat, o: XmlOptions): string
    decreases ns, 3
  {
    if ns == [] then "" else PrintNode(ns[0], level, o) + PrintChildren(ns[1..], level, o)
  }

  // ----- the procedures -----

  method WriteIndent(level: nat, indent: int, out: Stream)
    modifies out
    ensures out.contents == old(out.contents) + Spaces(level * indent)
  {
    var i := 0;
    while i < level * indent
      invariant i == 0 || i <= level * indent
      invariant out.contents + Spaces(level * indent - i) == old(out.contents) + Spaces(level * indent)
    {
      out.Put(' ');
      i := i + 1;
    }
  }

  method WriteEscaped(f: char -> string, s: string, out: Stream)
    modifies out
    ensures out.contents == old(out.contents) + Escaped(f, s)
  {
    var p := 0;
    while p < |s|
      invariant p <= |s|
      invariant out.contents + Escaped(f, s[p..]) == old(out.contents) + Escaped(f, s)
    {
      assert s[p..][0] == s[p] && s[p..][1..] == s[p + 1..];
      out.Write(f(s[p]));
      p := p + 1;
    }
  }

  method WriteAttribute(a: Attribute, out: Stream)
    requires HasName(a)
    modifies out
    ensures out.contents == old(out.contents) + PrintAttribute(a)
  {
    ghost var pre := out.contents;
    out.Write(" ");
    out.Write(a.name.value);
    Assoc(pre, " ", a.name.value);
    out.Write("=\"");
    Assoc(pre, " " + a.name.value, "=\"");
    ghost var value := a.value.GetOr("");
    if a.value.Some? {
      WriteEscaped(EscapeAttrChar, a.value.value, out);
    }
    Assoc(pre, " " + a.name.value + "=\"", Escaped(EscapeAttrChar, value));
    out.Write("\"");
    Assoc(pre, " " + a.name.value + "=\"" + Escaped(EscapeAttrChar, value), "\"");
  }

  method WriteAttributes(attrs: seq<Attribute>, out: Stream)
    modifies out
    ensures out.contents == old(out.contents) + PrintAttributes(attrs)
  {
    ghost var pre := out.contents;
    var i := 0;
    while i < |attrs|
      invariant i <= |attrs|
      invariant out.contents + PrintAttributes(attrs[i..]) == pre + PrintAttributes(attrs)
    {
      ghost var before, rest := out.contents, PrintAttributes(attrs[i + 1..]);
      assert attrs[i..][0] == attrs[i] && attrs[i..][1..] == attrs[i + 1..];
      if HasName(attrs[i]) {
        WriteAttribute(attrs[i], out);
      }
      Assoc(before, if HasName(attrs[i]) then PrintAttribute(attrs[i]) else "", rest);
      i := i + 1;
    }
  }

  method WriteXmlns(prefix: Option<string>, uri: string, out: Stream)
    modifies out
    ensures out.contents == old(out.contents) + PrintXmlns(prefix, uri)
  {
    ghost var pre := out.contents;
    out.Write(" xmlns");
    ghost var colon := if prefix.Some? then ":" + prefix.value else "";
    if prefix.Some? {
      out.Write(":");
      out.Write(prefix.value);
      Assoc(pre + " xmlns", ":", prefix.value);
    }
    Assoc(pre, " xmlns", colon);
    out.Write("=\"");
    Assoc(pre, " xmlns" + colon, "=\"");
    out.Write(uri);
    Assoc(pre, " xmlns" + colon + "=\"", uri);
    out.Write("\"");
    Assoc(pre, " xmlns" + colon + "=\"" + uri, "\"");
  }

  method WriteDecls(decls: seq<NamespaceDecl>, out: Stream)
    modifies out
    ensures out.contents == old(out.contents) + PrintDecls(decls)
  {
    ghost var pre := out.contents;
    var i := 0;
    while i < |decls|
      invariant i <= |decls|
      invariant out.contents + PrintDecls(decls[i..]) == pre + PrintDecls(decls)
    {
      ghost var before, rest := out.contents, PrintDecls(decls[i + 1..]);
      assert decls[i..][0] == decls[i] && decls[i..][1..] == decls[i + 1..];
      WriteXmlns(decls[i].prefix, decls[i].uri.GetOr(""), out);
      Assoc(before, PrintXmlns(decls[i].prefix, decls[i].uri.GetOr("")), rest);
      i := i + 1;
    }
  }

  /** The test a compact text child is put through: a cursor runs over its white space. */
  method IsWhitespaceOnly(content: string) returns (blank: bool)
    ensures blank <==> IsBlank(content)
  {
    var p := 0;
    while p < |content| && IsSpace(content[p])
      invariant p <= |content|
      invariant forall k :: 0 <= k < p ==> IsSpace(content[k])
    {
      p := p + 1;
    }
    blank := p == |content|;
    assert !blank ==> content[p] in content;
  }

  method WriteLeaf(child: Node, level: nat, o: XmlOptions, out: Stream)
    requires !child.Element?
    modifies out
    ensures out.contents == old(out.contents) + PrintNode(child, level, o)
  {
    match child
    case Text(Some(content)) =>
      if !o.pretty {
        var blank := IsWhitespaceOnly(content);
        if blank {
          return;
        }
      }
      WriteEscaped(EscapeTextChar, content, out);
    case CData(Some(content)) =>
      out.Write("<![CDATA[");
      out.Write(content);
      Assoc(old(out.contents), "<![CDATA[", content);
      out.Write("]]>");
    case Comment(Some(content)) =>
      out.Write("<!--");
      out.Write(content);
      Assoc(old(out.contents), "<!--", content);
      out.Write("-->");
    case ProcessingInstruction(Some(target), data) =>
      out.Write("<?");
      out.Write(target);
      Assoc(old(out.contents), "<?", target);
      ghost var tail := if data.Some? then " " + data.value else "";
      if data.Some? {
        out.Write(" ");
        out.Write(data.value);
        Assoc(old(out.contents) + ("<?" + target), " ", data.value);
      }
      Assoc(old(out.contents), "<?" + target, tail);
      out.Write("?>");
    case _ =>
  }

  method WriteOpenTag(e: Node, out: Stream)
    requires e.Element?
    modifies out
    ensures out.contents == old(out.contents) + OpenTag(e)
  {
    out.Write("<");
    out.Write(e.name.GetOr(""));
    assert out.contents == old(out.contents) + ("<" + e.name.GetOr(""));
    WriteAttributes(e.attributes, out);
    assert out.contents == old(out.contents) + ("<" + e.name.GetOr("") + PrintAttributes(e.attributes));
    if e.nsUri.Some? {
      WriteXmlns(e.nsPrefix, e.nsUri.value, out);
    }
    assert out.contents == old(out.contents)
      + ("<" + e.name.GetOr("") + PrintAttributes(e.attributes) + PrintNamespace(e));
    WriteDecls(e.nsDecls, out);
  }

  /** Walks the sibling chain of the first child. */
  method WriteChildren(ns: seq<Node>, level: nat, o: XmlOptions, out: Stream)
    modifies out
    ensures out.contents == old(out.contents) + PrintChildren(ns, level, o)
    decreases ns, 2
  {
    var i := 0;
    while i < |ns|
      invariant i <= |ns|
      invariant out.contents + PrintChildren(ns[i..], level, o)
             == old(out.contents) + PrintChildren(ns, level, o)
    {
      assert ns[i..][0] == ns[i] && ns[i..][1..] == ns[i + 1..];
      if ns[i].Element? {
        WriteElement(ns[i], level, o, out);
      } else {
        WriteLeaf(ns[i], level, o, out);
      }
      i := i + 1;
    }
  }

  method WriteEndTag(e: Node, level: nat, o: XmlOptions, out: Stream)
    requires e.Element?
    modifies out
    ensures out.contents == old(out.contents) + EndTag(e, level, o)
  {
    if o.pretty && FirstIsElement(e) {
      WriteIndent(level, o.indent, out);
    }
    ghost var closed := out.contents;
    out.Write("</");
    out.Write(e.name.GetOr(""));
    out.Write(">");
    assert out.contents == closed + ("</" + e.name.GetOr("") + ">");
  }

  method WriteBody(e: Node, level: nat, o: XmlOptions, out: Stream)
    requires e.Element?
    modifies out
    ensures out.contents == old(out.contents) + PrintBody(e, level, o)
    decreases e, 0
  {
    ghost var pre := out.contents;
    if |e.children| == 0 {
      out.Write("/>");
      return;
    }
    out.Write(">");
    if o.pretty && FirstIsElement(e) {
      out.Write("\n");
    }
    ghost var head := ">" + Opening(e, o);
    assert out.contents == pre + head;
    WriteChildren(e.children, level + 1, o, out);
    ghost var body := PrintChildren(e.children, level + 1, o);
    Assoc(pre, head, body);
    WriteEndTag(e, level, o, out);
    Assoc(pre, head + body, EndTag(e, level, o));
  }

  method WriteElement(e: Node, level: nat, o: XmlOptions, out: Stream)
    requires e.Element?
    modifies out
    ensures out.contents == old(out.contents) + PrintElement(e, level, o)
    decreases e, 1
  {
    ghost var pre := out.contents;
    if o.pretty {
      WriteIndent(level, o.indent, out);
    }
    assert out.contents == pre + Indentation(level, o);
    WriteOpenTag(e, out);
    ghost var head := Indentation(level, o) + OpenTag(e);
    Assoc(pre, Indentation(level, o), OpenTag(e));
    WriteBody(e, level, o, out);
    Assoc(pre, head, PrintBody(e, level, o));
    if o.pretty {
      out.Write("\n");
    }
    Assoc(pre, head + PrintBody(e, level, o), Newline(o));
  }
}
