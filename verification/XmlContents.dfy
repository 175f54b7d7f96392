/** What the XML output of a legal element reads as, stated on the element itself: its name,
    its attributes and namespaces, and its content one character and one child at a time. */
module XmlContents {
  import opened Common
  import opened Filtering
  import opened DocumentTree
  import opened XmlPrinter
  import opened XmlReader
  import opened XmlShown
  import opened XmlMeaning

  // ----- attributes -----

  function Text(s: Option<string>): string {
    match s
    case None => ""
    case Some(text) => text
  }

  predicate Named(a: Attribute) {
    match a.name
    case None => false
    case Some(name) => |name| > 0
  }

  function Pair(a: Attribute): (string, string) {
    (Text(a.name), Text(a.value))
  }

  function DeclaredName(prefix: Option<string>): string {
    match prefix
    case None => "xmlns"
    case Some(p) => "xmlns:" + p
  }

  lemma {:induction false} NamedAreShown(attrs: seq<Attribute>)
    ensures Lists(ShownAttributes(attrs), attrs, Named, Pair)
  {
    if attrs == [] {
      ListsNone(Named, Pair);
    } else {
      NamedAreShown(attrs[1..]);
      ListsHead(ShownAttributes(attrs[1..]), attrs, Named, Pair);
      assert ShownAttributes(attrs)
          == (if Named(attrs[0]) then [Pair(attrs[0])] else []) + ShownAttributes(attrs[1..]);
    }
  }

  lemma {:induction false} DeclsAreShown(decls: seq<NamespaceDecl>)
    ensures |ShownDecls(decls)| == |decls|
    ensures forall k | 0 <= k < |decls| :: ShownDecls(decls)[k] == (DeclaredName(decls[k].prefix), Text(decls[k].uri))
  {
    if decls != [] {
      DeclsAreShown(decls[1..]);
      NameIs(decls[0].prefix);
    }
  }

  lemma NameIs(prefix: Option<string>)
    ensures XmlnsName(prefix) == DeclaredName(prefix)
  {
    if prefix.Some? {
      Assoc("xmlns", ":", prefix.value);
      assert "xmlns" + ":" == "xmlns:";
    }
  }

  /** The attributes that have a name, in order, then the namespace of the element, and then
      its declarations. */
  ghost predicate AttributesRead(read: seq<(string, string)>, e: Node)
    requires e.Element?
  {
    var own, named := if e.nsUri.Some? then 1 else 0, CountIf(e.attributes, Named);
    && |read| == named + own + |e.nsDecls|
    && Lists(read[..named], e.attributes, Named, Pair)
    && (e.nsUri.Some? ==> read[named] == (DeclaredName(e.nsPrefix), Text(e.nsUri)))
    && forall k | 0 <= k < |e.nsDecls| ::
         read[named + own + k] == (DeclaredName(e.nsDecls[k].prefix), Text(e.nsDecls[k].uri))
  }

  lemma Behind<T>(a: seq<T>, b: seq<T>, c: seq<T>)
    ensures var all := a + (b + c);
            && all[..|a|] == a && (b != [] ==> all[|a|] == b[0])
            && forall k | 0 <= k < |c| :: all[|a| + |b| + k] == c[k]
  {
  }

  lemma AllAttributesRead(e: Node)
    requires e.Element?
    ensures AttributesRead(AllAttributes(e), e)
  {
    NamedAreShown(e.attributes);
    DeclsAreShown(e.nsDecls);
    NameIs(e.nsPrefix);
    Behind(ShownAttributes(e.attributes), ShownNamespace(e), ShownDecls(e.nsDecls));
  }

  // ----- content -----

  /** Content one piece at a time: a character of text, or something that is not text. */
  datatype Piece = Letter(c: char) | Part(item: Item)

  function Letters(t: string): seq<Piece> {
    if t == "" then [] else [Letter(t[0])] + Letters(t[1..])
  }

  function PiecesOf(items: seq<Item>): seq<Piece> {
    if items == [] then []
    else (if items[0].Chars? then Letters(items[0].text) else [Part(items[0])]) + PiecesOf(items[1..])
  }

  predicate OnlyWhiteSpace(t: string) {
    forall c | c in t :: c == ' ' || c == '\t' || c == '\n' || c == '\r'
  }

  /** What a child contributes, given what its elements are read as: text with nothing but
      white space is dropped, and a node without content shows nothing. */
  function PiecesOfNode(n: Node): seq<Piece> {
    match n
    case Element(_, _, _, _, _, _, _) => [Part(Normal(n))]
    case Text(None) => []
    case Text(Some(t)) => if OnlyWhiteSpace(t) then [] else Letters(t)
    case CData(None) => []
    case CData(Some(t)) => [Part(CDataSection(t))]
    case Comment(None) => []
    case Comment(Some(t)) => [Part(CommentItem(t))]
    case ProcessingInstruction(None, _) => []
    case ProcessingInstruction(Some(target), data) => [Part(Instruction(target, data))]
    case OtherNode => []
  }

  function PiecesOfNodes(ns: seq<Node>): seq<Piece> {
    if ns == [] then [] else PiecesOfNode(ns[0]) + PiecesOfNodes(ns[1..])
  }

  lemma {:induction false} LettersConcat(a: string, b: string)
    ensures Letters(a + b) == Letters(a) + Letters(b)
  {
    if a == "" {
      assert a + b == b;
    } else {
      assert (a + b)[0] == a[0] && (a + b)[1..] == a[1..] + b;
      LettersConcat(a[1..], b);
    }
  }

  lemma AttachPieces(t: string, items: seq<Item>)
    ensures PiecesOf(AttachText(t, items)) == Letters(t) + PiecesOf(items)
  {
    if t != "" && items != [] && items[0].Chars? {
      LettersConcat(t, items[0].text);
      assert ([Chars(t + items[0].text)] + items[1..])[1..] == items[1..];
      Assoc(Letters(t), Letters(items[0].text), PiecesOf(items[1..]));
    } else if t != "" {
      assert ([Chars(t)] + items)[1..] == items;
    }
  }

  lemma NodePieces(n: Node)
    ensures |KeptNode(n)| <= 1 && PiecesOf(KeptNode(n)) == PiecesOfNode(n)
  {
    if KeptNode(n) != [] {
      assert KeptNode(n)[1..] == [] && PiecesOf([]) == [];
    }
  }

  lemma OneInFront(i: Item, later: seq<Item>)
    ensures PiecesOf(JoinText([i] + later)) == PiecesOf([i]) + PiecesOf(JoinText(later))
  {
    assert ([i] + later)[1..] == later && [i][1..] == [];
    if i.Chars? {
      AttachPieces(i.text, JoinText(later));
    } else {
      assert ([i] + JoinText(later))[1..] == JoinText(later);
    }
  }

  lemma {:induction false} KeptPieces(ns: seq<Node>)
    ensures PiecesOf(JoinText(Kept(ns))) == PiecesOfNodes(ns)
  {
    if ns != [] {
      KeptPieces(ns[1..]);
      NodePieces(ns[0]);
      var kept, later := KeptNode(ns[0]), Kept(ns[1..]);
      if kept == [] {
        assert Kept(ns) == later;
      } else {
        assert kept == [kept[0]];
        OneInFront(kept[0], later);
      }
    }
  }

  /** Adjacent text is one item, which is not empty. */
  predicate TextJoined(items: seq<Item>) {
    items != [] ==>
      && (items[0].Chars? ==> items[0].text != "" && (|items| > 1 ==> !items[1].Chars?))
      && TextJoined(items[1..])
  }

  lemma {:induction false} JoinedText(items: seq<Item>)
    requires forall i | i in items :: i.Chars? ==> i.text != ""
    ensures TextJoined(JoinText(items))
  {
    if items != [] {
      assert items[0] in items && forall i | i in items[1..] :: i in items;
      JoinedText(items[1..]);
      var later := JoinText(items[1..]);
      if items[0].Chars? {
        if later != [] && later[0].Chars? {
          assert ([Chars(items[0].text + later[0].text)] + later[1..])[1..] == later[1..];
          assert |later| > 1 ==> later[1..][0] == later[1];
        } else {
          assert ([Chars(items[0].text)] + later)[1..] == later;
        }
      } else {
        assert ([items[0]] + later)[1..] == later;
      }
    }
  }

  lemma NodeNotEmpty(n: Node)
    ensures forall i | i in KeptNode(n) :: i.Chars? ==> i.text != ""
  {
    assert IsBlank("");
  }

  lemma {:induction false} KeptNotEmpty(ns: seq<Node>)
    ensures forall i | i in Kept(ns) :: i.Chars? ==> i.text != ""
  {
    if ns != [] {
      KeptNotEmpty(ns[1..]);
      NodeNotEmpty(ns[0]);
      assert Kept(ns) == KeptNode(ns[0]) + Kept(ns[1..]);
      forall i | i in Kept(ns) ensures i.Chars? ==> i.text != "" {
        assert i in KeptNode(ns[0]) || i in Kept(ns[1..]);
      }
    }
  }

  /** The normal form of an element, piece by piece. */
  lemma NormalShows(e: Node)
    requires e.Element?
    ensures Normal(e).Elem? && Normal(e).name == Text(e.name)
    ensures AttributesRead(Normal(e).attributes, e)
    ensures PiecesOf(Normal(e).content) == PiecesOfNodes(e.children) && TextJoined(Normal(e).content)
  {
    AllAttributesRead(e);
    KeptPieces(e.children);
    KeptNotEmpty(e.children);
    JoinedText(Kept(e.children));
  }

  /** What compact output of a legal element reads as. Its element children read as their own
      normal forms, about which the same holds. */
  lemma CompactContents(e: Node)
    requires e.Element? && Legal(e)
    ensures var r := ReadDocument(PrintElement(e, 0, COMPACT));
            && r.Some? && r.value.Elem? && r.value.name == Text(e.name)
            && AttributesRead(r.value.attributes, e)
            && PiecesOf(r.value.content) == PiecesOfNodes(e.children) && TextJoined(r.value.content)
  {
    CompactRoundTrip(e);
    NormalShows(e);
  }
}
