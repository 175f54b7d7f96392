/** The converse of the round trip: whenever the reader gives back what a printed element
    shows, the element is legal. Reading is followed from the left, so that the first
    illegal construct, at whatever depth, is seen to change or to stop what is read. */
module XmlExact {
  import opened Common
  import opened DocumentTree
  import opened XmlPrinter
  import opened XmlReader
  import opened XmlShown
  import opened XmlStartTag
  import opened XmlRoundTrip

  // ----- attribute values -----

  lemma EntityHasNoQuote(u: string, tail: string)
    requires ReadEntity(u + ("\"" + tail)).Got?
    ensures exists n :: 3 <= n <= |u| && ReadEntity(u + ("\"" + tail)).rest == u[n..] + ("\"" + tail)
  {
    var s := u + ("\"" + tail);
    var n := |s| - |ReadEntity(s).rest|;
    assert 3 <= n <= 5 && forall i | 0 <= i < n :: s[i] != '"';
    assert s[|u|] == '"';
    assert s[n..] == u[n..] + ("\"" + tail);
  }

  /** A value that is printed as it is comes out no longer than it went in, and as long
      only if none of its characters means something to the reader. */
  lemma {:induction false} RawValueShrinks(u: string, tail: string)
    requires ReadValue(u + ("\"" + tail), '"').Got?
    ensures var v := ReadValue(u + ("\"" + tail), '"').value;
            |v| <= |u| && (|v| == |u| ==> CleanUri(u))
    decreases |u|
  {
    var s := u + ("\"" + tail);
    if u != "" && u[0] != '"' {
      assert s[1..] == u[1..] + ("\"" + tail);
      if u[0] == '&' {
        EntityHasNoQuote(u[1..], tail);
        var n :| 3 <= n <= |u[1..]| && ReadEntity(s[1..]).rest == u[1..][n..] + ("\"" + tail);
        RawValueShrinks(u[1..][n..], tail);
      } else {
        RawValueShrinks(u[1..], tail);
      }
    }
  }

  lemma RawValueReadsBack(u: string, tail: string)
    requires ReadValue(u + ("\"" + tail), '"').Got? && ReadValue(u + ("\"" + tail), '"').value == u
    ensures CleanUri(u) && ReadValue(u + ("\"" + tail), '"').rest == tail
  {
    RawValueShrinks(u, tail);
    ReadValueClean(u, tail);
  }

  // ----- attributes -----

  lemma AttributeStepSplits(s: string, name: string, quoted: string)
    requires s == " " + (name + ("=" + ("\"" + quoted))) && IsName(name)
    requires ReadName(name + ("=" + ("\"" + quoted))) == Got(name, "=" + ("\"" + quoted))
    requires ReadAttributes(s).Got?
    ensures var v := ReadValue(quoted, '"');
            && v.Got? && ReadAttributes(v.rest).Got?
            && ReadAttributes(s) == Got([(name, v.value)] + ReadAttributes(v.rest).value, ReadAttributes(v.rest).rest)
  {
    var eq := "=" + ("\"" + quoted);
    var t := name + eq;
    assert s[1..] == t && SkipSpace(s) == t;
    assert eq[1..] == "\"" + quoted;
    assert ("\"" + quoted)[1..] == quoted;
  }

  lemma AttributeSplits(name: string, raw: string, tail: string)
    requires IsName(name) && ReadAttributes(AttributeText(name, raw, tail)).Got?
    ensures var r := ReadAttributes(AttributeText(name, raw, tail));
            var v := ReadValue(raw + ("\"" + tail), '"');
            && v.Got? && ReadAttributes(v.rest).Got?
            && r == Got([(name, v.value)] + ReadAttributes(v.rest).value, ReadAttributes(v.rest).rest)
  {
    var quoted := raw + ("\"" + tail);
    ReadNamePrinted(name, "=" + ("\"" + quoted));
    AttributeStepSplits(AttributeText(name, raw, tail), name, quoted);
  }

  lemma XmlnsReadsBack(prefix: Option<string>, uri: string, tail: string, more: seq<(string, string)>, rest: string)
    requires IsName(XmlnsName(prefix))
    requires ReadAttributes(PrintXmlns(prefix, uri) + tail) == Got([(XmlnsName(prefix), uri)] + more, rest)
    ensures CleanUri(uri) && ReadAttributes(tail) == Got(more, rest)
  {
    AttributeTextGroups(XmlnsName(prefix), uri, tail);
    Assoc(" ", "xmlns", if prefix.Some? then ":" + prefix.value else "");
    assert " xmlns" == " " + "xmlns";
    AttributeSplits(XmlnsName(prefix), uri, tail);
    var v := ReadValue(uri + ("\"" + tail), '"');
    var others := ReadAttributes(v.rest).value;
    assert ([(XmlnsName(prefix), uri)] + more)[0] == ([(XmlnsName(prefix), v.value)] + others)[0];
    assert ([(XmlnsName(prefix), uri)] + more)[1..] == more;
    assert ([(XmlnsName(prefix), v.value)] + others)[1..] == others;
    RawValueReadsBack(uri, tail);
  }

  lemma {:induction false} DeclsReadBack(decls: seq<NamespaceDecl>, tail: string, rest: string)
    requires AllNames(ShownDecls(decls))
    requires ReadAttributes(PrintDecls(decls) + tail) == Got(ShownDecls(decls), rest)
    ensures forall d | d in decls :: CleanUri(d.uri.GetOr(""))
  {
    if decls != [] {
      var d, others := decls[0], ShownDecls(decls[1..]);
      NamesOfParts([(XmlnsName(d.prefix), d.uri.GetOr(""))], others);
      Assoc(PrintXmlns(d.prefix, d.uri.GetOr("")), PrintDecls(decls[1..]), tail);
      XmlnsReadsBack(d.prefix, d.uri.GetOr(""), PrintDecls(decls[1..]) + tail, others, rest);
      DeclsReadBack(decls[1..], tail, rest);
    }
  }

  lemma {:induction false} EscapedAttributesReadBack(attrs: seq<Attribute>, tail: string, more: seq<(string, string)>,
                                                    rest: string)
    requires AllNames(ShownAttributes(attrs))
    requires ReadAttributes(PrintAttributes(attrs) + tail) == Got(ShownAttributes(attrs) + more, rest)
    ensures ReadAttributes(tail) == Got(more, rest)
  {
    if attrs == [] {
      assert PrintAttributes(attrs) + tail == tail && ShownAttributes(attrs) + more == more;
    } else if HasName(attrs[0]) {
      var name, value := attrs[0].name.value, attrs[0].value.GetOr("");
      var later, others := PrintAttributes(attrs[1..]) + tail, ShownAttributes(attrs[1..]);
      NamesOfParts([(name, value)], others);
      Assoc(PrintAttribute(attrs[0]), PrintAttributes(attrs[1..]), tail);
      AttributeTextGroups(name, Escaped(EscapeAttrChar, value), later);
      AttributeSplits(name, Escaped(EscapeAttrChar, value), later);
      ReadValueEscaped(value, later);
      Assoc([(name, value)], others, more);
      assert ([(name, value)] + (others + more))[1..] == others + more;
      assert ([(name, value)] + ReadAttributes(later).value)[1..] == ReadAttributes(later).value;
      EscapedAttributesReadBack(attrs[1..], tail, more, rest);
    } else {
      assert PrintAttributes(attrs) == PrintAttributes(attrs[1..]);
      assert ShownAttributes(attrs) == ShownAttributes(attrs[1..]);
      EscapedAttributesReadBack(attrs[1..], tail, more, rest);
    }
  }

  /** If all the attributes of an element read back, no namespace URI needed escaping. */
  lemma AttributesReadBack(e: Node, tail: string, rest: string)
    requires e.Element? && AllNames(AllAttributes(e))
    requires ReadAttributes(AttributesText(e, tail)) == Got(AllAttributes(e), rest)
    ensures CleanUris(e)
  {
    var own, decls := ShownNamespace(e), ShownDecls(e.nsDecls);
    NamesOfParts(ShownAttributes(e.attributes), own + decls);
    NamesOfParts(own, decls);
    EscapedAttributesReadBack(e.attributes, PrintNamespace(e) + (PrintDecls(e.nsDecls) + tail), own + decls, rest);
    if e.nsUri.Some? {
      XmlnsReadsBack(e.nsPrefix, e.nsUri.value, PrintDecls(e.nsDecls) + tail, decls, rest);
    } else {
      assert "" + (PrintDecls(e.nsDecls) + tail) == PrintDecls(e.nsDecls) + tail && own + decls == decls;
    }
    DeclsReadBack(e.nsDecls, tail, rest);
  }

  // ----- character data -----

  lemma ContentJoined(s: string)
    ensures ReadContent(s).Got? ==> Joined(ReadContent(s).value)
  {
  }

  lemma AttachCancels(t: string, a: seq<Item>, b: seq<Item>)
    requires AttachText(t, a) == AttachText(t, b) && Joined(a) && Joined(b)
    ensures a == b
  {
    if t != "" {
      var x, y := AttachText(t, a), AttachText(t, b);
      assert x[0] == y[0] && x[1..] == y[1..];
      if a != [] && a[0].Chars? {
        assert |x[0].text| > |t|;
        assert x[0].text[|t|..] == a[0].text;
      } else {
        assert x[0].text == t && x[1..] == a;
      }
      if b != [] && b[0].Chars? {
        assert |y[0].text| > |t|;
        assert y[0].text[|t|..] == b[0].text;
      } else {
        assert y[0].text == t && y[1..] == b;
      }
      if a != [] && a[0].Chars? {
        assert a == [a[0]] + a[1..] && b == [b[0]] + b[1..];
      }
    }
  }

  lemma PlainCharReads(c: char, more: string)
    requires c != '<' && c != '&' && ReadContent([c] + more).Got?
    ensures ReadContent(more).Got?
    ensures ReadContent([c] + more) == Got(AttachText([c], ReadContent(more).value), ReadContent(more).rest)
  {
    var s := [c] + more;
    assert s[0] == c && s[1..] == more && !("</" <= s);
  }

  lemma EntityReads(s: string, c: char, more: string)
    requires s != "" && s[0] == '&' && ReadEntity(s[1..]) == Got(c, more) && ReadContent(s).Got?
    ensures ReadContent(more).Got?
    ensures ReadContent(s) == Got(AttachText([c], ReadContent(more).value), ReadContent(more).rest)
  {
  }

  lemma CharReads(c: char, more: string)
    requires ReadContent(EscapeTextChar(c) + more).Got?
    ensures ReadContent(more).Got?
    ensures ReadContent(EscapeTextChar(c) + more)
         == Got(AttachText([c], ReadContent(more).value), ReadContent(more).rest)
  {
    if c == '<' || c == '>' || c == '&' {
      var e := EscapeAttrChar(c);
      assert (e + more)[1..] == e[1..] + more;
      ReadEntityPrinted(c, more);
      EntityReads(e + more, c, more);
    } else {
      PlainCharReads(c, more);
    }
  }

  lemma {:induction false} TextReads(t: string, rest: string)
    requires ReadContent(Escaped(EscapeTextChar, t) + rest).Got?
    ensures ReadContent(rest).Got?
    ensures ReadContent(Escaped(EscapeTextChar, t) + rest)
         == Got(AttachText(t, ReadContent(rest).value), ReadContent(rest).rest)
  {
    if t == "" {
      assert Escaped(EscapeTextChar, t) + rest == rest;
    } else {
      var later := Escaped(EscapeTextChar, t[1..]);
      Assoc(EscapeTextChar(t[0]), later, rest);
      CharReads(t[0], later + rest);
      TextReads(t[1..], rest);
      AttachCompose([t[0]], t[1..], ReadContent(rest).value);
      assert [t[0]] + t[1..] == t;
    }
  }

  /** Printed text in front of some content can be taken off on both sides. */
  lemma TextReadsBack(t: string, rest: string, items: seq<Item>, close: string)
    requires Joined(items)
    requires ReadContent(Escaped(EscapeTextChar, t) + rest) == Got(AttachText(t, items), close)
    ensures ReadContent(rest) == Got(items, close)
  {
    TextReads(t, rest);
    ContentJoined(rest);
    AttachCancels(t, ReadContent(rest).value, items);
  }

  lemma LayoutReadsBack(t: string, rest: string, items: seq<Item>, close: string)
    requires IsBlank(t) && Joined(items)
    requires ReadContent(t + rest) == Got(AttachText(t, items), close)
    ensures ReadContent(rest) == Got(items, close)
  {
    BlankUnescaped(t);
    TextReadsBack(t, rest, items, close);
  }

  // ----- nodes -----

  lemma MarkupReadsBack(s: string, item: Item, items: seq<Item>, close: string)
    requires |s| > 1 && s[0] == '<' && s[1] != '/'
    requires ReadContent(s) == Got([item] + items, close)
    ensures ReadMarkup(s).Got? && ReadMarkup(s).value == item
    ensures ReadContent(ReadMarkup(s).rest) == Got(items, close)
  {
    assert !("]]>" <= s) && !("</" <= s);
    var m := ReadMarkup(s);
    var later := ReadContent(m.rest).value;
    assert ([m.value] + later)[0] == ([item] + items)[0];
    assert ([m.value] + later)[1..] == later && ([item] + items)[1..] == items;
  }

  lemma LeafReadsBack(n: Node, level: nat, o: XmlOptions, rest: string, after: seq<Item>, close: string)
    requires !n.Element? && Joined(after)
    requires ReadContent(PrintNode(n, level, o) + rest) == Got(SeenNode(n, level, o, after), close)
    ensures Legal(n) && ReadContent(rest) == Got(after, close)
  {
    assert "" + rest == rest;
    var s := PrintNode(n, level, o) + rest;
    match n
    case Text(Some(t)) =>
      if o.pretty || !IsBlank(t) {
        TextReadsBack(t, rest, after, close);
      }
    case CData(Some(t)) =>
      assert WellFormed(([CDataSection(t)] + after)[0]);
      PrintedCData(t, rest);
      ReadCDataPrinted(t, rest);
      MarkupReadsBack(s, CDataSection(t), after, close);
    case Comment(Some(t)) =>
      assert WellFormed(([CommentItem(t)] + after)[0]);
      PrintedComment(t, rest);
      ReadCommentPrinted(t, rest);
      MarkupReadsBack(s, CommentItem(t), after, close);
    case ProcessingInstruction(Some(t), d) =>
      assert WellFormed(([Instruction(t, d)] + after)[0]);
      PrintedInstruction(t, d, rest);
      ReadInstructionPrinted(t, d, rest);
      MarkupReadsBack(s, Instruction(t, d), after, close);
    case _ =>
  }

  lemma ElementParts(s: string, name: string, text: string)
    requires ReadName(s) == Got(name, text) && ReadElement(s).Got?
    ensures var r := ReadElement(s).value;
            && r.name == name && ReadAttributes(text).Got? && r.attributes == ReadAttributes(text).value
            && var tail := ReadAttributes(text).rest;
               !("/>" <= tail) ==>
                 tail != "" && ReadContent(tail[1..]).Got? && ReadContent(tail[1..]).value == r.content
  {
  }

  lemma SeenNodeJoined(n: Node, level: nat, o: XmlOptions, after: seq<Item>)
    requires Joined(after)
    ensures Joined(SeenNode(n, level, o, after))
  {
    if n.Element? {
      var item, later := SeenElement(n, level, o), AttachText(Newline(o), after);
      assert ([item] + later)[0] == item;
    }
  }

  lemma {:induction false} SeenJoined(ns: seq<Node>, level: nat, o: XmlOptions, after: seq<Item>)
    requires Joined(after)
    ensures Joined(SeenChildren(ns, level, o, after))
    decreases ns
  {
    if ns != [] {
      SeenJoined(ns[1..], level, o, after);
      SeenNodeJoined(ns[0], level, o, SeenChildren(ns[1..], level, o, after));
    }
  }

  lemma {:induction false} ElementReadsBack(e: Node, level: nat, o: XmlOptions, rest: string)
    requires e.Element?
    requires var s := OpenTag(e) + (PrintBody(e, level, o) + rest);
             ReadElement(s[1..]).Got? && ReadElement(s[1..]).value == SeenElement(e, level, o)
    ensures Legal(e)
    decreases e, 1
  {
    var name, tail := e.name.GetOr(""), PrintBody(e, level, o) + rest;
    assert tail[0] == if e.children == [] then '/' else '>';
    assert SeenElement(e, level, o) == Elem(name, AllAttributes(e), SeenElement(e, level, o).content);
    assert WellFormed(SeenElement(e, level, o));
    TagText(e, tail);
    TagReadsBack(e, tail, SeenElement(e, level, o).content);
    if e.children != [] {
      BodyGroups(e, level, o, rest);
      var close := "</" + (name + (">" + rest));
      ContentReadsBack(e, level, o, close, ReadContent(tail[1..]).rest);
    }
  }

  lemma TagText(e: Node, tail: string)
    requires e.Element? && tail != "" && (tail[0] == '/' || tail[0] == '>') && IsName(e.name.GetOr(""))
    ensures var name, text := e.name.GetOr(""), AttributesText(e, tail);
            (OpenTag(e) + tail)[1..] == name + text && ReadName(name + text) == Got(name, text)
  {
    var name, text := e.name.GetOr(""), AttributesText(e, tail);
    OpenTagGroups(e, tail);
    assert ("<" + (name + text))[1..] == name + text;
    AttributesStartWithSpace(e, tail);
    ReadNamePrinted(name, text);
  }

  lemma TagReadsBack(e: Node, tail: string, content: seq<Item>)
    requires e.Element? && tail != "" && (tail[0] == '/' || tail[0] == '>')
    requires var name, text := e.name.GetOr(""), AttributesText(e, tail);
             && ReadName(name + text) == Got(name, text) && ReadElement(name + text).Got?
             && ReadElement(name + text).value == Elem(name, AllAttributes(e), content)
    ensures LegalAttributes(AllAttributes(e)) && CleanUris(e)
    ensures tail[0] == '>' ==> ReadContent(tail[1..]).Got? && ReadContent(tail[1..]).value == content
  {
    var name, text := e.name.GetOr(""), AttributesText(e, tail);
    ElementParts(name + text, name, text);
    AttributesReadBack(e, tail, ReadAttributes(text).rest);
    ReadOpenTag(e, tail);
  }

  lemma {:induction false} ContentReadsBack(e: Node, level: nat, o: XmlOptions, close: string, end: string)
    requires e.Element? && e.children != []
    requires ReadContent(Opening(e, o) + (PrintChildren(e.children, level + 1, o) + (Closing(e, level, o) + close)))
          == Got(SeenElement(e, level, o).content, end)
    ensures LegalAll(e.children)
    decreases e, 0
  {
    var last := AttachText(Closing(e, level, o), []);
    LayoutIsBlank(e, level, o);
    SeenJoined(e.children, level + 1, o, last);
    LayoutReadsBack(Opening(e, o), PrintChildren(e.children, level + 1, o) + (Closing(e, level, o) + close),
                    SeenChildren(e.children, level + 1, o, last), end);
    ChildrenReadBack(e.children, level + 1, o, Closing(e, level, o) + close, last, end);
  }

  lemma {:induction false} NodeReadsBack(n: Node, level: nat, o: XmlOptions, rest: string, after: seq<Item>,
                                         close: string)
    requires Joined(after)
    requires ReadContent(PrintNode(n, level, o) + rest) == Got(SeenNode(n, level, o, after), close)
    ensures Legal(n) && ReadContent(rest) == Got(after, close)
    decreases n, 2
  {
    if n.Element? {
      var seen, later := SeenElement(n, level, o), AttachText(Newline(o), after);
      var s := OpenTag(n) + (PrintBody(n, level, o) + (Newline(o) + rest));
      LayoutIsBlank(n, level, o);
      ElementGroups(n, level, o, rest);
      LayoutReadsBack(Indentation(level, o), s, [seen] + later, close);
      assert WellFormed(([seen] + later)[0]);
      assert s[0] == '<' && s[1] == n.name.GetOr("")[0];
      ElementIsMarkup(s);
      MarkupReadsBack(s, seen, later, close);
      ElementReadsBack(n, level, o, Newline(o) + rest);
      ReadElementPrinted(n, level, o, Newline(o) + rest);
      LayoutReadsBack(Newline(o), rest, after, close);
    } else {
      LeafReadsBack(n, level, o, rest, after, close);
    }
  }

  lemma {:induction false} ChildrenReadBack(ns: seq<Node>, level: nat, o: XmlOptions, rest: string, after: seq<Item>,
                                            close: string)
    requires Joined(after)
    requires ReadContent(PrintChildren(ns, level, o) + rest) == Got(SeenChildren(ns, level, o, after), close)
    ensures LegalAll(ns)
    decreases ns, 3
  {
    if ns != [] {
      var later := PrintChildren(ns[1..], level, o) + rest;
      Assoc(PrintNode(ns[0], level, o), PrintChildren(ns[1..], level, o), rest);
      SeenJoined(ns[1..], level, o, after);
      NodeReadsBack(ns[0], level, o, later, SeenChildren(ns[1..], level, o, after), close);
      ChildrenReadBack(ns[1..], level, o, rest, after, close);
    }
  }

  // ----- the theorems -----

  /** Legality is exactly what reading back needs, for every element, with namespaces or
      without, compact or pretty. */
  lemma PrintedElementReadsExactly(e: Node, o: XmlOptions)
    requires e.Element?
    ensures ReadDocument(PrintElement(e, 0, o)) == Some(SeenElement(e, 0, o)) <==> Legal(e)
  {
    if Legal(e) {
      PrintedElementReads(e, o);
    } else if ReadDocument(PrintElement(e, 0, o)) == Some(SeenElement(e, 0, o)) {
      TopElementGroups(e, o);
      ElementReadsBack(e, 0, o, Newline(o) + "");
    }
  }

  /** The element declares its own namespace. */
  predicate DeclaredInPlace(e: Node)
    requires e.Element?
  {
    e.nsUri.Some? && exists i :: 0 <= i < |e.nsDecls| && e.nsDecls[i].prefix == e.nsPrefix
  }

  /** Somewhere in the tree an element does. */
  predicate DeclaresItsOwn(n: Node)
    decreases n, 0
  {
    n.Element? && (DeclaredInPlace(n) || AnyDeclaresItsOwn(n.children))
  }

  predicate AnyDeclaresItsOwn(ns: seq<Node>)
    decreases ns, 1
  {
    ns != [] && (DeclaresItsOwn(ns[0]) || AnyDeclaresItsOwn(ns[1..]))
  }

  lemma {:induction false} DeclaresItsOwnIllegal(n: Node)
    requires DeclaresItsOwn(n)
    ensures !Legal(n)
    decreases n, 0
  {
    if DeclaredInPlace(n) {
      var i :| 0 <= i < |n.nsDecls| && n.nsDecls[i].prefix == n.nsPrefix;
      OwnNamespaceTwice(n, i);
    } else {
      AnyDeclaresItsOwnIllegal(n.children);
    }
  }

  lemma {:induction false} AnyDeclaresItsOwnIllegal(ns: seq<Node>)
    requires AnyDeclaresItsOwn(ns)
    ensures !LegalAll(ns)
    decreases ns, 1
  {
    if DeclaresItsOwn(ns[0]) {
      DeclaresItsOwnIllegal(ns[0]);
    } else {
      AnyDeclaresItsOwnIllegal(ns[1..]);
    }
  }

  /** A namespace declared where it is used, at any depth, keeps the whole document from
      being read as what it shows, whatever the names, the URIs and the indentation. */
  lemma NamespaceNeverReadsBack(e: Node, o: XmlOptions)
    requires e.Element? && DeclaresItsOwn(e)
    ensures ReadDocument(PrintElement(e, 0, o)) != Some(SeenElement(e, 0, o))
  {
    DeclaresItsOwnIllegal(e);
    PrintedElementReadsExactly(e, o);
  }

  const OWN_NAMESPACE := Element(Some("a"), [], Some("u"), None, [NamespaceDecl(None, Some("u"))], None, [])

  lemma OwnNamespaceAttributes()
    ensures AllAttributes(OWN_NAMESPACE) == [("xmlns", "u"), ("xmlns", "u")]
    ensures PrintDecls(OWN_NAMESPACE.nsDecls) == PrintXmlns(None, "u")
  {
    var decls := OWN_NAMESPACE.nsDecls;
    assert XmlnsName(None) == "xmlns" && decls[1..] == [];
    assert ShownDecls(decls[1..]) == [] && PrintDecls(decls[1..]) == "";
  }

  lemma OwnNamespacePrinted()
    ensures PrintElement(OWN_NAMESPACE, 0, XmlOptions(0, false)) == "<a xmlns=\"u\" xmlns=\"u\"/>"
  {
    var a, o := OWN_NAMESPACE, XmlOptions(0, false);
    var xmlns := " xmlns=\"u\"";
    OwnNamespaceAttributes();
    assert PrintXmlns(None, "u") == xmlns;
    assert OpenTag(a) == "<a" + xmlns + xmlns;
    assert Indentation(0, o) == "" && Newline(o) == "" && PrintBody(a, 0, o) == "/>";
  }

  /** The smallest case: what the element `<a xmlns="u"/>` becomes, and how it is received. */
  lemma NamespaceExample()
    ensures PrintElement(OWN_NAMESPACE, 0, XmlOptions(0, false)) == "<a xmlns=\"u\" xmlns=\"u\"/>"
    ensures ReadDocument("<a xmlns=\"u\" xmlns=\"u\"/>") == None
  {
    OwnNamespacePrinted();
    OwnNamespaceAttributes();
    OwnNamespaceNamed();
    NamespaceDeclaredInPlace(OWN_NAMESPACE, 0, XmlOptions(0, false));
  }

  lemma OwnNamespaceNamed()
    requires AllAttributes(OWN_NAMESPACE) == [("xmlns", "u"), ("xmlns", "u")]
    ensures IsName("a") && AllNames(AllAttributes(OWN_NAMESPACE)) && CleanUris(OWN_NAMESPACE)
  {
    assert IsName("a") && IsName("xmlns");
    assert IsUriChar('u');
  }
}
