/** What the XML printer loses. Compact output shows the tree with white-space-only text
    dropped and adjacent text joined; pretty output shows the same tree, up to
    white-space-only text, exactly when no layout touches real text. */
module XmlMeaning {
  import opened Common
  import opened DocumentTree
  import opened XmlPrinter
  import opened XmlReader
  import opened XmlShown
  import opened XmlRoundTrip
  import opened XmlExact

  const COMPACT := XmlOptions(0, false)

  // ----- the normal form -----

  function JoinText(items: seq<Item>): seq<Item> {
    if items == [] then []
    else if items[0].Chars? then AttachText(items[0].text, JoinText(items[1..]))
    else [items[0]] + JoinText(items[1..])
  }

  /** The element with its white-space-only text dropped and then adjacent text joined. */
  function Normal(e: Node): Item
    requires e.Element?
    decreases e, 0
  {
    Elem(e.name.GetOr(""), AllAttributes(e), JoinText(Kept(e.children)))
  }

  function KeptNode(n: Node): seq<Item>
    decreases n, 1
  {
    match n
    case Element(_, _, _, _, _, _, _) => [Normal(n)]
    case Text(Some(t)) => if IsBlank(t) then [] else [Chars(t)]
    case CData(Some(t)) => [CDataSection(t)]
    case Comment(Some(t)) => [CommentItem(t)]
    case ProcessingInstruction(Some(t), d) => [Instruction(t, d)]
    case _ => []
  }

  function Kept(ns: seq<Node>): seq<Item>
    decreases ns, 2
  {
    if ns == [] then [] else KeptNode(ns[0]) + Kept(ns[1..])
  }

  lemma {:induction false} CompactShowsNormal(e: Node, level: nat, o: XmlOptions)
    requires e.Element? && !o.pretty
    ensures SeenElement(e, level, o) == Normal(e)
    decreases e, 0
  {
    CompactShowsKept(e.children, level + 1, o);
  }

  lemma {:induction false} CompactShowsKept(ns: seq<Node>, level: nat, o: XmlOptions)
    requires !o.pretty
    ensures SeenChildren(ns, level, o, []) == JoinText(Kept(ns))
    decreases ns, 1
  {
    if ns != [] {
      CompactShowsKept(ns[1..], level, o);
      if ns[0].Element? {
        CompactShowsNormal(ns[0], level, o);
      }
      var kept := KeptNode(ns[0]);
      if kept == [] {
        assert Kept(ns) == Kept(ns[1..]);
      } else {
        assert Kept(ns)[0] == kept[0] && Kept(ns)[1..] == Kept(ns[1..]);
      }
    }
  }

  /** Reading compact output gives the normal form, for exactly the legal elements. */
  lemma CompactRoundTrip(e: Node)
    requires e.Element?
    ensures ReadDocument(PrintElement(e, 0, COMPACT)) == Some(Normal(e)) <==> Legal(e)
  {
    CompactShowsNormal(e, 0, COMPACT);
    PrintedElementReadsExactly(e, COMPACT);
  }

  /** Legal elements with the same compact output have the same normal form. */
  lemma CompactInjective(e1: Node, e2: Node)
    requires e1.Element? && e2.Element? && Legal(e1) && Legal(e2)
    requires PrintElement(e1, 0, COMPACT) == PrintElement(e2, 0, COMPACT)
    ensures Normal(e1) == Normal(e2)
  {
    CompactRoundTrip(e1);
    CompactRoundTrip(e2);
  }

  // ----- pretty output -----

  function DropBlank(i: Item): Item
    decreases i, 0
  {
    match i
    case Elem(name, attrs, content) => Elem(name, attrs, DropBlankAll(content))
    case _ => i
  }

  /** Drops white-space-only text at every depth. */
  function DropBlankAll(items: seq<Item>): seq<Item>
    decreases items, 1
  {
    if items == [] then []
    else if items[0].Chars? && IsBlank(items[0].text) then DropBlankAll(items[1..])
    else [DropBlank(items[0])] + DropBlankAll(items[1..])
  }

  /** The character data that pretty output shows before anything else of `ns`, where
      `closing` is the indentation of the closing tag. */
  function NextText(ns: seq<Node>, level: nat, o: XmlOptions, closing: string): string {
    if ns == [] then closing
    else if ns[0].Element? then Indentation(level, o)
    else NextLeafText(ns[0], NextText(ns[1..], level, o, closing))
  }

  function NextLeafText(n: Node, next: string): string {
    match n
    case Text(Some(t)) => t + next
    case CData(Some(_)) => ""
    case Comment(Some(_)) => ""
    case ProcessingInstruction(Some(_), _) => ""
    case _ => next
  }

  /** No layout and no white-space-only text touches real text: nothing but white space
      follows an element, and real text is followed by more real text, by nothing, or
      by something that is not text. */
  predicate Undisturbed(e: Node, level: nat, o: XmlOptions)
    requires e.Element?
    decreases e, 0
  {
    UndisturbedAll(e.children, level + 1, o, Closing(e, level, o))
  }

  predicate UndisturbedAll(ns: seq<Node>, level: nat, o: XmlOptions, closing: string)
    decreases ns, 1
  {
    ns == [] ||
    (&& UndisturbedAll(ns[1..], level, o, closing)
     && var next := NextText(ns[1..], level, o, closing);
        match ns[0]
        case Element(_, _, _, _, _, _, _) => Undisturbed(ns[0], level, o) && IsBlank(next)
        case Text(Some(t)) =>
          if IsBlank(t) then t == "" || IsBlank(next) else next == "" || !IsBlank(next)
        case _ => true)
  }

  function HeadText(items: seq<Item>): string {
    if items != [] && items[0].Chars? then items[0].text else ""
  }

  lemma BlankConcat(a: string, b: string)
    ensures IsBlank(a + b) <==> IsBlank(a) && IsBlank(b)
  {
  }

  lemma DropAttached(t: string, s: seq<Item>)
    requires t != "" && Joined(s)
    ensures IsBlank(t) && IsBlank(HeadText(s)) ==> DropBlankAll(AttachText(t, s)) == DropBlankAll(s)
    ensures !(IsBlank(t) && IsBlank(HeadText(s))) ==>
              var d := DropBlankAll(AttachText(t, s));
              d != [] && d[0] == Chars(t + HeadText(s))
              && d[1..] == DropBlankAll(if HeadText(s) != "" then s[1..] else s)
  {
  }

  lemma BlankStep(t: string, s: seq<Item>, k: seq<Item>)
    requires IsBlank(t) && Joined(s) && |HeadText(k)| <= |HeadText(s)|
    ensures DropBlankAll(AttachText(t, s)) == k <==> DropBlankAll(s) == k && (t == "" || IsBlank(HeadText(s)))
  {
  }

  lemma SplitHead(t: string, items: seq<Item>)
    requires t != "" && Joined(items)
    ensures var tail := if HeadText(items) != "" then items[1..] else items;
            AttachText(t, items) == [Chars(t + HeadText(items))] + tail
  {
    if HeadText(items) == "" {
      assert t + "" == t;
    }
  }

  lemma TextStep(t: string, s: seq<Item>, k: seq<Item>)
    requires !IsBlank(t) && Joined(s) && Joined(k) && |HeadText(k)| <= |HeadText(s)|
    requires HeadText(k) == "" || !IsBlank(HeadText(k))
    ensures DropBlankAll(AttachText(t, s)) == AttachText(t, k)
       <==> DropBlankAll(s) == k && (HeadText(s) == "" || !IsBlank(HeadText(s)))
  {
    var u, v := HeadText(s), HeadText(k);
    DropAttached(t, s);
    SplitHead(t, k);
    var d := DropBlankAll(AttachText(t, s));
    var ktail := if v != "" then k[1..] else k;
    HeadAndTailEqual(d, Chars(t + v), ktail);
    assert t + u == t + v <==> u == v by {
      assert (t + u)[|t|..] == u && (t + v)[|t|..] == v;
    }
    if u != "" && !IsBlank(u) {
      HeadAndTailEqual(k, Chars(u), d[1..]);
    }
  }

  lemma HeadAndTailEqual(items: seq<Item>, head: Item, tail: seq<Item>)
    ensures items == [head] + tail <==> items != [] && items[0] == head && items[1..] == tail
  {
  }

  /** The leading text of pretty and of compact content. */
  lemma {:induction false} Heads(ns: seq<Node>, level: nat, o: XmlOptions, closing: string)
    requires o.pretty
    ensures var s := SeenChildren(ns, level, o, AttachText(closing, []));
            var k := SeenChildren(ns, level, COMPACT, []);
            && Joined(s) && HeadText(s) == NextText(ns, level, o, closing)
            && Joined(k) && |HeadText(k)| <= |HeadText(s)|
            && (HeadText(k) == "" || !IsBlank(HeadText(k)))
  {
    if ns != [] {
      Heads(ns[1..], level, o, closing);
      var s := SeenChildren(ns[1..], level, o, AttachText(closing, []));
      var k := SeenChildren(ns[1..], level, COMPACT, []);
      if ns[0].Element? {
        ElementHeads(ns[0], level, o, s, k);
      } else {
        LeafHeads(ns[0], level, o, s, k);
      }
    }
  }

  lemma ElementHeads(e: Node, level: nat, o: XmlOptions, s: seq<Item>, k: seq<Item>)
    requires e.Element? && o.pretty
    ensures Joined(SeenNode(e, level, o, s)) && HeadText(SeenNode(e, level, o, s)) == Indentation(level, o)
    ensures Joined(SeenNode(e, level, COMPACT, k)) && HeadText(SeenNode(e, level, COMPACT, k)) == ""
  {
  }

  lemma LeafHeads(n: Node, level: nat, o: XmlOptions, s: seq<Item>, k: seq<Item>)
    requires !n.Element? && o.pretty
    requires Joined(s) && Joined(k) && |HeadText(k)| <= |HeadText(s)|
    requires HeadText(k) == "" || !IsBlank(HeadText(k))
    ensures var s', k' := SeenNode(n, level, o, s), SeenNode(n, level, COMPACT, k);
            && Joined(s') && Joined(k') && |HeadText(k')| <= |HeadText(s')|
            && (HeadText(k') == "" || !IsBlank(HeadText(k')))
            && HeadText(s') == NextLeafText(n, HeadText(s))
  {
    if n.Text? && n.content.Some? {
      BlankConcat(n.content.value, HeadText(k));
    }
  }

  lemma {:induction false} PrettyElementExact(e: Node, level: nat, o: XmlOptions)
    requires e.Element? && o.pretty
    ensures DropBlank(SeenElement(e, level, o)) == SeenElement(e, level, COMPACT) <==> Undisturbed(e, level, o)
    decreases e, 0
  {
    if e.children != [] {
      var closing := Closing(e, level, o);
      PrettyContentExact(e.children, level + 1, o, closing);
      Heads(e.children, level + 1, o, closing);
      var s := SeenChildren(e.children, level + 1, o, AttachText(closing, []));
      var k := SeenChildren(e.children, level + 1, COMPACT, []);
      BlankStep(Opening(e, o), s, k);
    }
  }

  lemma {:induction false} PrettyContentExact(ns: seq<Node>, level: nat, o: XmlOptions, closing: string)
    requires o.pretty && IsBlank(closing)
    ensures DropBlankAll(SeenChildren(ns, level, o, AttachText(closing, []))) == SeenChildren(ns, level, COMPACT, [])
       <==> UndisturbedAll(ns, level, o, closing)
    decreases ns, 1
  {
    if ns != [] {
      PrettyContentExact(ns[1..], level, o, closing);
      Heads(ns[1..], level, o, closing);
      var s := SeenChildren(ns[1..], level, o, AttachText(closing, []));
      var k := SeenChildren(ns[1..], level, COMPACT, []);
      if ns[0].Element? {
        PrettyElementStep(ns[0], level, o, s, k);
      } else {
        PrettyLeafStep(ns[0], level, o, s, k);
      }
    }
  }

  lemma {:induction false} PrettyElementStep(e: Node, level: nat, o: XmlOptions, s: seq<Item>, k: seq<Item>)
    requires e.Element? && o.pretty && Joined(s) && |HeadText(k)| <= |HeadText(s)|
    ensures DropBlankAll(SeenNode(e, level, o, s)) == SeenNode(e, level, COMPACT, k)
       <==> Undisturbed(e, level, o) && DropBlankAll(s) == k && IsBlank(HeadText(s))
    decreases e, 1
  {
    PrettyElementExact(e, level, o);
    BlankStep("\n", s, k);
    var after := [SeenElement(e, level, o)] + AttachText("\n", s);
    assert after[1..] == AttachText("\n", s);
    if Indentation(level, o) != "" {
      DropAttached(Indentation(level, o), after);
    }
    assert ([SeenElement(e, level, COMPACT)] + k)[1..] == k;
  }

  lemma PrettyLeafStep(n: Node, level: nat, o: XmlOptions, s: seq<Item>, k: seq<Item>)
    requires !n.Element? && o.pretty && Joined(s) && Joined(k) && |HeadText(k)| <= |HeadText(s)|
    requires HeadText(k) == "" || !IsBlank(HeadText(k))
    ensures DropBlankAll(SeenNode(n, level, o, s)) == SeenNode(n, level, COMPACT, k)
       <==> DropBlankAll(s) == k
            && (n.Text? && n.content.Some? ==>
                  if IsBlank(n.content.value) then n.content.value == "" || IsBlank(HeadText(s))
                  else HeadText(s) == "" || !IsBlank(HeadText(s)))
  {
    if n.Text? && n.content.Some? {
      if IsBlank(n.content.value) {
        BlankStep(n.content.value, s, k);
      } else {
        TextStep(n.content.value, s, k);
      }
    } else {
      var seen := SeenNode(n, level, o, s);
      if |seen| != |s| {
        assert seen == [seen[0]] + s && seen[1..] == s;
        assert SeenNode(n, level, COMPACT, k) == [seen[0]] + k;
        assert ([seen[0]] + k)[1..] == k;
      }
    }
  }

  /** Pretty printing keeps the meaning of a legal element, for any indentation, exactly
      when no layout touches real text. */
  lemma PrettyKeepsMeaning(e: Node, o: XmlOptions)
    requires e.Element? && o.pretty && Legal(e)
    ensures ReadDocument(PrintElement(e, 0, o)).Some?
    ensures DropBlank(ReadDocument(PrintElement(e, 0, o)).value) == Normal(e) <==> Undisturbed(e, 0, o)
    ensures Some(Normal(e)) == ReadDocument(PrintElement(e, 0, COMPACT))
  {
    PrintedElementReads(e, o);
    PrettyElementExact(e, 0, o);
    CompactShowsNormal(e, 0, COMPACT);
    CompactRoundTrip(e);
  }

  /** Text only ever occurs as the sole child. */
  predicate TextAlone(n: Node)
    decreases n, 0
  {
    n.Element? ==>
      || (|n.children| == 1 && n.children[0].Text?)
      || TextNowhere(n.children)
  }

  predicate TextNowhere(ns: seq<Node>)
    decreases ns, 1
  {
    ns == [] || (!ns[0].Text? && TextAlone(ns[0]) && TextNowhere(ns[1..]))
  }

  lemma {:induction false} DataElementUndisturbed(e: Node, level: nat, o: XmlOptions)
    requires e.Element? && TextAlone(e)
    ensures Undisturbed(e, level, o)
    decreases e, 0
  {
    if |e.children| == 1 && e.children[0].Text? {
      assert e.children[1..] == [];
    } else {
      DataContentUndisturbed(e.children, level + 1, o, Closing(e, level, o));
    }
  }

  lemma {:induction false} DataContentUndisturbed(ns: seq<Node>, level: nat, o: XmlOptions, closing: string)
    requires TextNowhere(ns) && IsBlank(closing)
    ensures UndisturbedAll(ns, level, o, closing) && IsBlank(NextText(ns, level, o, closing))
    decreases ns, 1
  {
    if ns != [] {
      DataContentUndisturbed(ns[1..], level, o, closing);
      if ns[0].Element? {
        DataElementUndisturbed(ns[0], level, o);
      }
    }
  }

  /** Elements that hold either one text or no text keep their meaning at every indentation. */
  lemma PrettyKeepsData(e: Node, indent: int)
    requires e.Element? && Legal(e) && TextAlone(e)
    ensures var r := ReadDocument(PrintElement(e, 0, XmlOptions(indent, true)));
            r.Some? && Some(DropBlank(r.value)) == ReadDocument(PrintElement(e, 0, COMPACT))
  {
    DataElementUndisturbed(e, 0, XmlOptions(indent, true));
    PrettyKeepsMeaning(e, XmlOptions(indent, true));
  }

  function EmptyNamed(name: string, children: seq<Node>): Node {
    Element(Some(name), [], None, None, [], None, children)
  }

  /** Mixed content does not: the newline after an element joins the text behind it. */
  lemma PrettyDisturbsMixedContent(t: string, indent: int)
    requires !IsBlank(t)
    ensures var a := EmptyNamed("a", [EmptyNamed("b", []), Text(Some(t))]);
            && Legal(a)
            && var r := ReadDocument(PrintElement(a, 0, XmlOptions(indent, true)));
               r.Some? && DropBlank(r.value) != Normal(a)
  {
    var b := EmptyNamed("b", []);
    var ns := [b, Text(Some(t))];
    var a := EmptyNamed("a", ns);
    var o := XmlOptions(indent, true);
    assert ns[1..] == [Text(Some(t))];
    EmptyNamedLegal("b", []);
    TextListLegal(t);
    assert LegalAll(ns);
    EmptyNamedLegal("a", ns);
    TextIsNext(t, 1, o, Closing(a, 0, o));
    assert !UndisturbedAll(ns, 1, o, Closing(a, 0, o));
    PrettyKeepsMeaning(a, o);
  }

  lemma EmptyNamedLegal(name: string, children: seq<Node>)
    requires name == "a" || name == "b"
    requires LegalAll(children)
    ensures Legal(EmptyNamed(name, children))
  {
  }

  lemma TextListLegal(t: string)
    ensures LegalAll([Text(Some(t))])
  {
  }

  lemma TextIsNext(t: string, level: nat, o: XmlOptions, closing: string)
    requires !IsBlank(t)
    ensures !IsBlank(NextText([Text(Some(t))], level, o, closing))
  {
  }
}
