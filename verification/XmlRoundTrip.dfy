/** Reading back what the XML printer prints: the reference reader recovers exactly the tree
    that a printed legal element shows. */
module XmlRoundTrip {
  import opened Common
  import opened DocumentTree
  import opened XmlPrinter
  import opened XmlReader
  import opened XmlShown
  import opened XmlStartTag

  // ----- delimited constructs -----

  /** `stop` does not occur in `t + stop` before its end. */
  predicate Clear(t: string, stop: string) {
    t == "" || (!(stop <= t + stop) && Clear(t[1..], stop))
  }

  lemma PrefixOfPrefix(p: string, s: string, more: string)
    requires |p| <= |s|
    ensures p <= s + more <==> p <= s
  {
  }

  lemma ReadUntilStep(s: string, stop: string, v: string, rest: string)
    requires stop != "" && s != "" && !(stop <= s)
    requires ReadUntil(s[1..], stop) == Got(v, rest)
    ensures ReadUntil(s, stop) == Got([s[0]] + v, rest)
  {
  }

  lemma {:induction false} ReadUntilPrinted(t: string, stop: string, rest: string)
    requires stop != "" && Clear(t, stop)
    ensures ReadUntil(t + (stop + rest), stop) == Got(t, rest)
  {
    var tail := stop + rest;
    if t == "" {
      assert t + tail == tail && tail[|stop|..] == rest && stop <= tail;
    } else {
      ReadUntilPrinted(t[1..], stop, rest);
      assert (t + tail)[1..] == t[1..] + tail;
      Assoc(t, stop, rest);
      PrefixOfPrefix(stop, t + stop, rest);
      ReadUntilStep(t + tail, stop, t[1..], rest);
      assert [t[0]] + t[1..] == t;
    }
  }

  lemma {:induction false} ClearCData(t: string)
    requires !Contains(t, "]]>")
    ensures Clear(t, "]]>")
  {
    if t != "" {
      ClearCData(t[1..]);
      var s := t + "]]>";
      assert |t| >= 3 ==> s[..3] == t[..3];
      assert |t| < 3 ==> s[2] != '>';
    }
  }

  lemma {:induction false} ClearData(t: string)
    requires !Contains(t, "?>")
    ensures Clear(t, "?>")
  {
    if t != "" {
      ClearData(t[1..]);
      var s := t + "?>";
      assert |t| >= 2 ==> s[..2] == t[..2];
      assert |t| < 2 ==> s[1] != '>';
    }
  }

  lemma {:induction false} ClearComment(t: string)
    requires LegalComment(t)
    ensures Clear(t, "--")
  {
    if t != "" {
      ClearComment(t[1..]);
      var s := t + "--";
      assert |t| >= 2 ==> s[..2] == t[..2];
      assert |t| < 2 ==> s[0] != '-';
    }
  }

  lemma ReadCommentPrinted(t: string, rest: string)
    requires LegalComment(t)
    ensures ReadMarkup("<!--" + (t + ("-->" + rest))) == Got(CommentItem(t), rest)
  {
    var s := t + ("-->" + rest);
    ClearComment(t);
    assert "-->" + rest == "--" + (">" + rest);
    ReadUntilPrinted(t, "--", ">" + rest);
    assert "<!--" <= "<!--" + s && ("<!--" + s)[4..] == s;
    assert (">" + rest)[1..] == rest;
  }

  lemma ReadCDataPrinted(t: string, rest: string)
    requires !Contains(t, "]]>")
    ensures ReadMarkup("<![CDATA[" + (t + ("]]>" + rest))) == Got(CDataSection(t), rest)
  {
    var s := "<![CDATA[" + (t + ("]]>" + rest));
    ClearCData(t);
    ReadUntilPrinted(t, "]]>", rest);
    assert "<![CDATA[" <= s && s[9..] == t + ("]]>" + rest) && s[2] == '[';
    assert !("<!--" <= s);
  }

  function DataText(d: Option<string>): string {
    if d.Some? then " " + d.value else ""
  }

  lemma SkipOneSpace(text: string)
    requires text != "" && !IsSpace(text[0])
    ensures SkipSpace(" " + text) == text
  {
  }

  lemma ReadDataPrinted(t: string, v: string, rest: string)
    requires IsName(t) && !IsReserved(t) && LegalData(Some(v))
    ensures ReadInstruction(t + (" " + (v + ("?>" + rest)))) == Got(Instruction(t, Some(v)), rest)
  {
    var text := v + ("?>" + rest);
    var tail := " " + text;
    ReadNamePrinted(t, tail);
    assert tail[1..] == text && text[0] == v[0] && tail[0] == ' ';
    SkipOneSpace(text);
    StartsOtherwise("?>", tail, 0);
    ClearData(v);
    ReadUntilPrinted(v, "?>", rest);
  }

  lemma ReadTargetPrinted(t: string, rest: string)
    requires IsName(t) && !IsReserved(t)
    ensures ReadInstruction(t + ("?>" + rest)) == Got(Instruction(t, None), rest)
  {
    var tail := "?>" + rest;
    ReadNamePrinted(t, tail);
    assert "?>" <= tail && tail[2..] == rest;
  }

  lemma ReadInstructionPrinted(t: string, d: Option<string>, rest: string)
    requires IsName(t) && !IsReserved(t) && LegalData(d)
    ensures ReadMarkup("<?" + (t + (DataText(d) + ("?>" + rest)))) == Got(Instruction(t, d), rest)
  {
    var tail := DataText(d) + ("?>" + rest);
    var s := "<?" + (t + tail);
    assert "<?" <= s && s[2..] == t + tail && s[1] == '?';
    assert !("<!--" <= s) && !("<![CDATA[" <= s);
    if d.Some? {
      Assoc(" ", d.value, "?>" + rest);
      ReadDataPrinted(t, d.value, rest);
    } else {
      assert tail == "?>" + rest;
      ReadTargetPrinted(t, rest);
    }
  }

  // ----- character data -----

  lemma AttachCompose(a: string, b: string, items: seq<Item>)
    ensures AttachText(a + b, items) == AttachText(a, AttachText(b, items))
  {
    if a == "" {
      assert a + b == b;
    } else if b == "" {
      assert a + b == a;
    } else if items != [] && items[0].Chars? {
      Assoc(a, b, items[0].text);
    } else {
      assert ([Chars(b)] + items)[1..] == items;
    }
  }

  /** No `>` before the next `<`: character data that cannot complete a `]]>`. */
  predicate NoBareGt(s: string) {
    s == "" || s[0] == '<' || (s[0] != '>' && NoBareGt(s[1..]))
  }

  lemma NoBareCDataEnd(s: string)
    requires NoBareGt(s)
    ensures !("]]>" <= s)
  {
    if |s| >= 3 && s[0] == ']' && s[1] == ']' {
      assert NoBareGt(s[1..]) && s[1..][0] == ']';
      assert NoBareGt(s[1..][1..]) && s[1..][1..][0] == s[2];
    }
  }

  lemma ReadPlainChar(c: char, more: string)
    requires ReadContent(more).Got? && NoBareGt(more)
    requires c != '<' && c != '>' && c != '&'
    ensures NoBareGt([c] + more)
    ensures ReadContent([c] + more)
         == Got(AttachText([c], ReadContent(more).value), ReadContent(more).rest)
  {
    var s := [c] + more;
    assert s[1..] == more;
    NoBareCDataEnd(s);
  }

  lemma ReadContentEntity(s: string, c: char, more: string)
    requires s != "" && s[0] == '&' && ReadEntity(s[1..]) == Got(c, more)
    requires ReadContent(more).Got?
    ensures ReadContent(s) == Got(AttachText([c], ReadContent(more).value), ReadContent(more).rest)
  {
  }

  lemma ReadEscapedChar(c: char, more: string)
    requires ReadContent(more).Got? && NoBareGt(more)
    requires c == '<' || c == '>' || c == '&'
    ensures NoBareGt(EscapeTextChar(c) + more)
    ensures ReadContent(EscapeTextChar(c) + more)
         == Got(AttachText([c], ReadContent(more).value), ReadContent(more).rest)
  {
    var e := EscapeAttrChar(c);
    assert e == EscapeTextChar(c) && e[0] == '&' && '<' !in e && '>' !in e;
    EntityHasNoGt(e, more);
    assert (e + more)[1..] == e[1..] + more;
    ReadEntityPrinted(c, more);
    ReadContentEntity(e + more, c, more);
  }

  lemma ReadCharPrinted(c: char, more: string)
    requires ReadContent(more).Got? && NoBareGt(more)
    ensures NoBareGt(EscapeTextChar(c) + more)
    ensures ReadContent(EscapeTextChar(c) + more)
         == Got(AttachText([c], ReadContent(more).value), ReadContent(more).rest)
  {
    if c == '<' || c == '>' || c == '&' {
      ReadEscapedChar(c, more);
    } else {
      ReadPlainChar(c, more);
    }
  }

  lemma {:induction false} EntityHasNoGt(e: string, more: string)
    requires NoBareGt(more) && '<' !in e && '>' !in e
    ensures NoBareGt(e + more)
  {
    if e == "" {
      assert e + more == more;
    } else {
      assert (e + more)[0] in e && (e + more)[1..] == e[1..] + more;
      EntityHasNoGt(e[1..], more);
    }
  }

  lemma {:induction false} ReadTextPrinted(t: string, rest: string)
    requires ReadContent(rest).Got? && NoBareGt(rest)
    ensures NoBareGt(Escaped(EscapeTextChar, t) + rest)
    ensures ReadContent(Escaped(EscapeTextChar, t) + rest)
         == Got(AttachText(t, ReadContent(rest).value), ReadContent(rest).rest)
  {
    if t == "" {
      assert Escaped(EscapeTextChar, t) + rest == rest;
    } else {
      ReadTextPrinted(t[1..], rest);
      Assoc(EscapeTextChar(t[0]), Escaped(EscapeTextChar, t[1..]), rest);
      ReadCharPrinted(t[0], Escaped(EscapeTextChar, t[1..]) + rest);
      AttachCompose([t[0]], t[1..], ReadContent(rest).value);
      assert [t[0]] + t[1..] == t;
    }
  }

  lemma {:induction false} BlankUnescaped(t: string)
    requires IsBlank(t)
    ensures Escaped(EscapeTextChar, t) == t
  {
    if t != "" {
      assert IsSpace(t[0]) by {
        assert t[0] in t;
      }
      assert IsBlank(t[1..]) by {
        assert forall c | c in t[1..] :: c in t;
      }
      BlankUnescaped(t[1..]);
      assert [t[0]] + t[1..] == t;
    }
  }

  lemma ReadBlankPrinted(t: string, rest: string)
    requires IsBlank(t) && ReadContent(rest).Got? && NoBareGt(rest)
    ensures NoBareGt(t + rest)
    ensures ReadContent(t + rest) == Got(AttachText(t, ReadContent(rest).value), ReadContent(rest).rest)
  {
    BlankUnescaped(t);
    ReadTextPrinted(t, rest);
  }

  lemma LayoutIsBlank(e: Node, level: nat, o: XmlOptions)
    ensures IsBlank(Indentation(level, o)) && IsBlank(Newline(o))
    ensures e.Element? ==> IsBlank(Opening(e, o)) && IsBlank(Closing(e, level, o))
  {
  }

  // ----- nodes -----

  lemma ReadItem(s: string, item: Item, rest: string)
    requires |s| > 1 && s[0] == '<' && s[1] != '/'
    requires ReadMarkup(s) == Got(item, rest)
    requires ReadContent(rest).Got?
    ensures ReadContent(s) == Got([item] + ReadContent(rest).value, ReadContent(rest).rest)
    ensures NoBareGt(s)
  {
  }

  lemma PrintedCData(t: string, rest: string)
    ensures "<![CDATA[" + t + "]]>" + rest == "<![CDATA[" + (t + ("]]>" + rest))
  {
  }

  lemma PrintedComment(t: string, rest: string)
    ensures "<!--" + t + "-->" + rest == "<!--" + (t + ("-->" + rest))
  {
  }

  lemma PrintedInstruction(t: string, d: Option<string>, rest: string)
    ensures "<?" + t + DataText(d) + "?>" + rest == "<?" + (t + (DataText(d) + ("?>" + rest)))
  {
  }

  lemma ReadInstructionNode(t: string, d: Option<string>, rest: string)
    requires IsName(t) && !IsReserved(t) && LegalData(d)
    requires ReadContent(rest).Got?
    ensures var s := "<?" + t + DataText(d) + "?>" + rest;
            && NoBareGt(s)
            && ReadContent(s) == Got([Instruction(t, d)] + ReadContent(rest).value, ReadContent(rest).rest)
  {
    PrintedInstruction(t, d, rest);
    ReadInstructionPrinted(t, d, rest);
    ReadItem("<?" + t + DataText(d) + "?>" + rest, Instruction(t, d), rest);
  }

  lemma ReadCDataNode(t: string, rest: string)
    requires !Contains(t, "]]>")
    requires ReadContent(rest).Got?
    ensures var s := "<![CDATA[" + t + "]]>" + rest;
            && NoBareGt(s)
            && ReadContent(s) == Got([CDataSection(t)] + ReadContent(rest).value, ReadContent(rest).rest)
  {
    PrintedCData(t, rest);
    ReadCDataPrinted(t, rest);
    ReadItem("<![CDATA[" + t + "]]>" + rest, CDataSection(t), rest);
  }

  lemma ReadCommentNode(t: string, rest: string)
    requires LegalComment(t)
    requires ReadContent(rest).Got?
    ensures var s := "<!--" + t + "-->" + rest;
            && NoBareGt(s)
            && ReadContent(s) == Got([CommentItem(t)] + ReadContent(rest).value, ReadContent(rest).rest)
  {
    PrintedComment(t, rest);
    ReadCommentPrinted(t, rest);
    ReadItem("<!--" + t + "-->" + rest, CommentItem(t), rest);
  }

  lemma ReadLeafPrinted(n: Node, level: nat, o: XmlOptions, rest: string)
    requires Legal(n) && !n.Element?
    requires ReadContent(rest).Got? && NoBareGt(rest)
    ensures NoBareGt(PrintNode(n, level, o) + rest)
    ensures ReadContent(PrintNode(n, level, o) + rest)
         == Got(SeenNode(n, level, o, ReadContent(rest).value), ReadContent(rest).rest)
  {
    assert "" + rest == rest;
    match n
    case Text(Some(t)) => ReadTextPrinted(t, rest);
    case CData(Some(t)) => ReadCDataNode(t, rest);
    case Comment(Some(t)) => ReadCommentNode(t, rest);
    case ProcessingInstruction(Some(t), d) => ReadInstructionNode(t, d, rest);
    case _ =>
  }

  /** A printed element, from `<` to the end of its closing tag. */
  lemma {:induction false} ReadElementPrinted(e: Node, level: nat, o: XmlOptions, rest: string)
    requires e.Element? && Legal(e)
    ensures var s := OpenTag(e) + (PrintBody(e, level, o) + rest);
            && |s| > 1 && s[0] == '<' && IsNameStart(s[1])
            && ReadElement(s[1..]) == Got(SeenElement(e, level, o), rest)
    decreases e, 1
  {
    var name := e.name.GetOr("");
    var tail := PrintBody(e, level, o) + rest;
    ReadBodyPrinted(e, level, o, rest);
    ReadOpenTag(e, tail);
    var s := OpenTag(e) + tail;
    assert s[1..] == name + AttributesText(e, tail);
    assert s[1] == name[0];
    if e.children != [] {
      ReadElementWithContent(s[1..], name, AttributesText(e, tail), AllAttributes(e), tail,
                             SeenElement(e, level, o).content, rest);
    }
  }

  lemma ReadElementWithContent(s: string, name: string, text: string, attrs: seq<(string, string)>, tail: string,
                               content: seq<Item>, rest: string)
    requires ReadName(s) == Got(name, text)
    requires ReadAttributes(text) == Got(attrs, tail) && DistinctNames(attrs)
    requires tail != "" && tail[0] == '>'
    requires ReadContent(tail[1..]) == Got(content, "</" + (name + (">" + rest)))
    ensures ReadElement(s) == Got(Elem(name, attrs, content), rest)
  {
    var close := "</" + (name + (">" + rest));
    assert close[2..] == name + (">" + rest);
    assert close[2 + |name|..] == ">" + rest;
    assert SkipSpace(">" + rest) == ">" + rest;
    assert (">" + rest)[1..] == rest;
    assert !("/>" <= tail);
  }

  /** What follows the attributes of an element. */
  lemma {:induction false} ReadBodyPrinted(e: Node, level: nat, o: XmlOptions, rest: string)
    requires e.Element? && Legal(e)
    ensures var tail := PrintBody(e, level, o) + rest;
            && tail != "" && tail[0] in "/>"
            && (e.children == [] ==> "/>" <= tail && tail[2..] == rest)
            && (e.children != [] ==>
                  && tail[0] == '>'
                  && var close := "</" + (e.name.GetOr("") + (">" + rest));
                     ReadContent(tail[1..]) == Got(SeenElement(e, level, o).content, close))
    decreases e, 0
  {
    var name := e.name.GetOr("");
    var tail := PrintBody(e, level, o) + rest;
    if e.children == [] {
      assert tail == "/>" + rest && tail[2..] == rest;
    } else {
      var end := ">" + rest;
      var close := "</" + (name + end);
      LayoutIsBlank(e, level, o);
      assert close[0] == '<' && close[1] == '/' && "</" <= close;
      assert ReadContent(close) == Got([], close);
      ReadBlankPrinted(Closing(e, level, o), close);
      ReadChildrenPrinted(e.children, level + 1, o, Closing(e, level, o) + close);
      var body := PrintChildren(e.children, level + 1, o) + (Closing(e, level, o) + close);
      ReadBlankPrinted(Opening(e, o), body);
      BodyGroups(e, level, o, rest);
      assert tail[1..] == Opening(e, o) + body;
    }
  }

  lemma BodyGroups(e: Node, level: nat, o: XmlOptions, rest: string)
    requires e.Element? && e.children != []
    ensures PrintBody(e, level, o) + rest
         == ">" + (Opening(e, o) + (PrintChildren(e.children, level + 1, o)
                   + (Closing(e, level, o) + ("</" + (e.name.GetOr("") + (">" + rest))))))
  {
    var open, body := Opening(e, o), PrintChildren(e.children, level + 1, o);
    var c, name := Closing(e, level, o), e.name.GetOr("");
    var end := EndTag(e, level, o);
    Assoc(">" + open + body, end, rest);
    Assoc(c + "</" + name, ">", rest);
    Assoc(c + "</", name, ">" + rest);
    Assoc(c, "</", name + (">" + rest));
    Assoc(">" + open, body, end + rest);
    Assoc(">", open, body + (end + rest));
  }

  lemma ElementIsMarkup(s: string)
    requires |s| > 1 && s[0] == '<' && IsNameStart(s[1])
    ensures ReadMarkup(s) == ReadElement(s[1..]) && s[1] != '/'
  {
    assert forall other: string | other <= s && |other| > 1 :: other[1] == s[1];
    assert !IsNameStart('!') && !IsNameStart('?') && !IsNameStart('/');
  }

  lemma ElementGroups(e: Node, level: nat, o: XmlOptions, rest: string)
    requires e.Element?
    ensures PrintElement(e, level, o) + rest
         == Indentation(level, o) + (OpenTag(e) + (PrintBody(e, level, o) + (Newline(o) + rest)))
  {
  }

  lemma {:induction false} ReadNodePrinted(n: Node, level: nat, o: XmlOptions, rest: string)
    requires Legal(n)
    requires ReadContent(rest).Got? && NoBareGt(rest)
    ensures NoBareGt(PrintNode(n, level, o) + rest)
    ensures ReadContent(PrintNode(n, level, o) + rest)
         == Got(SeenNode(n, level, o, ReadContent(rest).value), ReadContent(rest).rest)
    decreases n, 2
  {
    if n.Element? {
      LayoutIsBlank(n, level, o);
      var after := Newline(o) + rest;
      ReadBlankPrinted(Newline(o), rest);
      ReadElementPrinted(n, level, o, after);
      var s := OpenTag(n) + (PrintBody(n, level, o) + after);
      ElementIsMarkup(s);
      ReadItem(s, SeenElement(n, level, o), after);
      ReadBlankPrinted(Indentation(level, o), s);
      ElementGroups(n, level, o, rest);
    } else {
      ReadLeafPrinted(n, level, o, rest);
    }
  }

  lemma {:induction false} ReadChildrenPrinted(ns: seq<Node>, level: nat, o: XmlOptions, rest: string)
    requires LegalAll(ns)
    requires ReadContent(rest).Got? && NoBareGt(rest)
    ensures NoBareGt(PrintChildren(ns, level, o) + rest)
    ensures ReadContent(PrintChildren(ns, level, o) + rest)
         == Got(SeenChildren(ns, level, o, ReadContent(rest).value), ReadContent(rest).rest)
    decreases ns, 3
  {
    if ns == [] {
      assert PrintChildren(ns, level, o) + rest == rest;
    } else {
      ReadChildrenPrinted(ns[1..], level, o, rest);
      ReadNodePrinted(ns[0], level, o, PrintChildren(ns[1..], level, o) + rest);
      Assoc(PrintNode(ns[0], level, o), PrintChildren(ns[1..], level, o), rest);
    }
  }

  // ----- the theorems -----

  /** Reading a printed element, compact or pretty, gives back the tree it shows. */
  lemma PrintedElementReads(e: Node, o: XmlOptions)
    requires e.Element? && Legal(e)
    ensures ReadDocument(PrintElement(e, 0, o)) == Some(SeenElement(e, 0, o))
  {
    var rest := Newline(o) + "";
    ReadElementPrinted(e, 0, o, rest);
    ElementGroups(e, 0, o, "");
    var s := OpenTag(e) + (PrintBody(e, 0, o) + rest);
    assert Indentation(0, o) == "";
    assert PrintElement(e, 0, o) + "" == PrintElement(e, 0, o);
    assert PrintElement(e, 0, o) == s;
    LayoutIsBlank(e, 0, o);
    assert rest == Newline(o);
  }

  /** What follows the attributes of an element that stands alone. */
  function AfterOpenTag(e: Node, o: XmlOptions): string
    requires e.Element?
  {
    PrintBody(e, 0, o) + (Newline(o) + "")
  }

  lemma TopElementGroups(e: Node, o: XmlOptions)
    requires e.Element?
    ensures PrintElement(e, 0, o) == OpenTag(e) + AfterOpenTag(e, o)
  {
  }

  /** With two attributes of one name, the output of an element cannot be read at all. */
  lemma DuplicateNamesUnreadable(e: Node, o: XmlOptions)
    requires e.Element? && IsName(e.name.GetOr("")) && AllNames(AllAttributes(e)) && CleanUris(e)
    requires !DistinctNames(AllAttributes(e))
    ensures ReadDocument(PrintElement(e, 0, o)) == None
  {
    var tail := AfterOpenTag(e, o);
    assert e.children != [] ==> PrintBody(e, 0, o)[0] == '>';
    ReadOpenTag(e, tail);
    TopElementGroups(e, o);
    var s := e.name.GetOr("") + AttributesText(e, tail);
    assert ("<" + s)[1..] == s;
  }

  /** The printer emits the namespace of an element and its stored declarations in two
      separate blocks, so a namespace that is declared where it is used is emitted twice. */
  lemma NamespaceDeclaredInPlace(e: Node, i: nat, o: XmlOptions)
    requires e.Element? && IsName(e.name.GetOr("")) && AllNames(AllAttributes(e)) && CleanUris(e)
    requires e.nsUri.Some? && i < |e.nsDecls| && e.nsDecls[i].prefix == e.nsPrefix
    ensures ReadDocument(PrintElement(e, 0, o)) == None
  {
    OwnNamespaceTwice(e, i);
    DuplicateNamesUnreadable(e, o);
  }

  lemma OwnNamespaceTwice(e: Node, i: nat)
    requires e.Element? && e.nsUri.Some? && i < |e.nsDecls| && e.nsDecls[i].prefix == e.nsPrefix
    ensures !DistinctNames(AllAttributes(e))
  {
    ShownDeclAt(e.nsDecls, i);
    var own := |ShownAttributes(e.attributes)|;
    assert AllAttributes(e)[own].0 == XmlnsName(e.nsPrefix);
    assert AllAttributes(e)[own + 1 + i].0 == XmlnsName(e.nsPrefix);
  }

  lemma {:induction false} ShownDeclAt(decls: seq<NamespaceDecl>, i: nat)
    requires i < |decls|
    ensures |ShownDecls(decls)| == |decls| && ShownDecls(decls)[i].0 == XmlnsName(decls[i].prefix)
  {
    if |decls| > 1 {
      ShownDeclAt(decls[1..], if i == 0 then 0 else i - 1);
    }
  }
}
