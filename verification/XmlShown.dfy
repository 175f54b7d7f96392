/** What a printed element shows to a reader, and which elements can be printed as XML. */
module XmlShown {
  import opened Common
  import opened DocumentTree
  import opened XmlPrinter
  import opened XmlReader

  // ----- what an element shows -----

  function XmlnsName(prefix: Option<string>): string {
    "xmlns" + if prefix.Some? then ":" + prefix.value else ""
  }

  function ShownDecls(decls: seq<NamespaceDecl>): seq<(string, string)> {
    if decls == [] then []
    else [(XmlnsName(decls[0].prefix), decls[0].uri.GetOr(""))] + ShownDecls(decls[1..])
  }

  function ShownNamespace(e: Node): seq<(string, string)>
    requires e.Element?
  {
    if e.nsUri.Some? then [(XmlnsName(e.nsPrefix), e.nsUri.value)] else []
  }

  function AllAttributes(e: Node): seq<(string, string)>
    requires e.Element?
  {
    ShownAttributes(e.attributes) + (ShownNamespace(e) + ShownDecls(e.nsDecls))
  }

  /** The element `e`, printed at `level`, as a reader sees it: layout included, adjacent
      character data joined. */
  function SeenElement(e: Node, level: nat, o: XmlOptions): Item
    requires e.Element?
    decreases e, 0
  {
    Elem(e.name.GetOr(""), AllAttributes(e),
         if e.children == [] then []
         else AttachText(Opening(e, o),
                         SeenChildren(e.children, level + 1, o, AttachText(Closing(e, level, o), []))))
  }

  /** What the node `n` puts before the content `after`. */
  function SeenNode(n: Node, level: nat, o: XmlOptions, after: seq<Item>): seq<Item>
    decreases n, 1
  {
    match n
    case Element(_, _, _, _, _, _, _) =>
      AttachText(Indentation(level, o), [SeenElement(n, level, o)] + AttachText(Newline(o), after))
    case Text(Some(t)) => if !o.pretty && IsBlank(t) then after else AttachText(t, after)
    case CData(Some(t)) => [CDataSection(t)] + after
    case Comment(Some(t)) => [CommentItem(t)] + after
    case ProcessingInstruction(Some(t), d) => [Instruction(t, d)] + after
    case _ => after
  }

  function SeenChildren(ns: seq<Node>, level: nat, o: XmlOptions, after: seq<Item>): seq<Item>
    decreases ns, 2
  {
    if ns == [] then after else SeenNode(ns[0], level, o, SeenChildren(ns[1..], level, o, after))
  }

  // ----- which trees can be printed as XML at all -----

  predicate IsUriChar(c: char) {
    c != '<' && c != '&' && c != '"'
  }

  predicate CleanUri(u: string) {
    forall c | c in u :: IsUriChar(c)
  }

  /** Namespace URIs are printed as they are, so they must not need escaping. */
  predicate CleanUris(e: Node)
    requires e.Element?
  {
    CleanUri(e.nsUri.GetOr("")) && forall d | d in e.nsDecls :: CleanUri(d.uri.GetOr(""))
  }

  predicate Legal(n: Node)
    decreases n, 0
  {
    match n
    case Element(name, _, _, _, _, _, children) =>
      IsName(name.GetOr("")) && LegalAttributes(AllAttributes(n)) && CleanUris(n) && LegalAll(children)
    case CData(Some(t)) => !Contains(t, "]]>")
    case Comment(Some(t)) => LegalComment(t)
    case ProcessingInstruction(Some(t), d) => IsName(t) && !IsReserved(t) && LegalData(d)
    case _ => true
  }

  predicate LegalAll(ns: seq<Node>)
    decreases ns, 1
  {
    ns == [] || (Legal(ns[0]) && LegalAll(ns[1..]))
  }
}
