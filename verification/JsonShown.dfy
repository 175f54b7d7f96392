/** What the JSON output of an element reads as, stated on the element itself. */
module JsonShown {
  import opened Common
  import opened Filtering
  import opened DocumentTree
  import opened JsonReader
  import opened JsonPrinter
  import opened JsonNodeset

  predicate Named(a: Attribute) {
    match a.name
    case None => false
    case Some(name) => |name| > 0
  }

  function Text(s: Option<string>): string {
    match s
    case None => ""
    case Some(text) => text
  }

  /** A named attribute as a member. */
  function Pair(a: Attribute): (string, Json) {
    (Text(a.name), JString(Text(a.value)))
  }

  predicate IsElement(n: Node) {
    n.Element?
  }

  /** What the own output of a node reads as. */
  function ReadBack(n: Node): Json {
    if n.Element? && ReadJson(PrintJson(n), false).Got? then ReadJson(PrintJson(n), false).value else JNull
  }

  /** The values that stand under a key. */
  function Values(members: seq<(string, Json)>, key: string): seq<Json> {
    if members == [] then []
    else (if members[0].0 == key then [members[0].1] else []) + Values(members[1..], key)
  }

  lemma {:induction false} ShownPairs(attrs: seq<Attribute>)
    ensures Lists(AttributeMembers(ShownAttributes(attrs)), attrs, Named, Pair)
  {
    if attrs == [] {
      ListsNone(Named, Pair);
    } else {
      ShownPairs(attrs[1..]);
      ListsHead(AttributeMembers(ShownAttributes(attrs[1..])), attrs, Named, Pair);
      MembersHead(attrs);
    }
  }

  lemma MembersHead(attrs: seq<Attribute>)
    requires attrs != []
    ensures AttributeMembers(ShownAttributes(attrs))
         == (if Named(attrs[0]) then [Pair(attrs[0])] else []) + AttributeMembers(ShownAttributes(attrs[1..]))
  {
    var shown, later := ShownAttributes(attrs), ShownAttributes(attrs[1..]);
    assert Named(attrs[0]) ==> shown[0] == (Text(attrs[0].name), Text(attrs[0].value)) && shown[1..] == later;
    assert !Named(attrs[0]) ==> shown == later;
  }

  lemma {:induction false} ShownChildren(ns: seq<Node>)
    ensures Lists(EncodeAll(SummarizeElements(ns)), ns, IsElement, ReadBack)
  {
    if ns == [] {
      ListsNone(IsElement, ReadBack);
    } else {
      ShownChildren(ns[1..]);
      ListsHead(EncodeAll(SummarizeElements(ns[1..])), ns, IsElement, ReadBack);
      if ns[0].Element? {
        JsonRoundTrip(ns[0], false);
        var all := [Summarize(ns[0])] + SummarizeElements(ns[1..]);
        assert all[1..] == SummarizeElements(ns[1..]);
        assert EncodeAll(SummarizeElements(ns)) == [ReadBack(ns[0])] + EncodeAll(SummarizeElements(ns[1..]));
      } else {
        assert SummarizeElements(ns) == SummarizeElements(ns[1..]);
      }
    }
  }

  /** Of the members, the name comes first; the others are there exactly when there is
      something to show: an attribute list, though none of its attributes need be named, a
      text that is not empty, and children, though none of them need be an element. */
  predicate ShowsElement(members: seq<(string, Json)>, e: Node)
    requires e.Element?
  {
    && |members| == 1 + (if e.attributes != [] then 1 else 0) + (if Text(e.text) != "" then 1 else 0)
                    + (if e.children != [] then 1 else 0)
    && members[0] == ("name", JString(Text(e.name)))
    && Values(members, "name") == [JString(Text(e.name))]
    && Values(members, "text") == (if Text(e.text) != "" then [JString(Text(e.text))] else [])
  }

  ghost predicate ShowsAttributes(members: seq<(string, Json)>, e: Node)
    requires e.Element?
  {
    if e.attributes == [] then Values(members, "attributes") == []
    else
      && |Values(members, "attributes")| == 1 && Values(members, "attributes")[0].JObject?
      && Lists(Values(members, "attributes")[0].members, e.attributes, Named, Pair)
  }

  /** The items of the children are what the own outputs of the element children read as. */
  ghost predicate ShowsChildren(members: seq<(string, Json)>, e: Node)
    requires e.Element?
  {
    if e.children == [] then Values(members, "children") == []
    else
      && |Values(members, "children")| == 1 && Values(members, "children")[0].JArray?
      && Lists(Values(members, "children")[0].items, e.children, IsElement, ReadBack)
  }

  lemma FirstValue(m: (string, Json), rest: seq<(string, Json)>, key: string)
    ensures Values([m] + rest, key) == (if m.0 == key then [m.1] else []) + Values(rest, key)
  {
    assert ([m] + rest)[1..] == rest;
  }

  lemma {:induction false} ValuesConcat(a: seq<(string, Json)>, b: seq<(string, Json)>, key: string)
    ensures Values(a + b, key) == Values(a, key) + Values(b, key)
  {
    if a == [] {
      assert a + b == b;
    } else {
      var head, tail := a[0], a[1..];
      assert a == [head] + tail && a + b == [head] + (tail + b);
      ValuesConcat(tail, b, key);
      FirstValue(head, tail, key);
      FirstValue(head, tail + b, key);
      Assoc(if head.0 == key then [head.1] else [], Values(tail, key), Values(b, key));
    }
  }

  lemma ValuesOfParts(e: Node, key: string)
    requires e.Element?
    ensures Values(NameMember(e) + AttributesMember(e) + TextMember(e) + ChildrenMember(e), key)
         == Values(NameMember(e), key) + Values(AttributesMember(e), key)
            + Values(TextMember(e), key) + Values(ChildrenMember(e), key)
  {
    ValuesConcat(NameMember(e) + AttributesMember(e) + TextMember(e), ChildrenMember(e), key);
    ValuesConcat(NameMember(e) + AttributesMember(e), TextMember(e), key);
    ValuesConcat(NameMember(e), AttributesMember(e), key);
  }

  lemma OneValue(m: (string, Json), key: string)
    ensures Values([m], key) == if m.0 == key then [m.1] else []
  {
    assert [m][1..] == [];
  }

  lemma PartValues(e: Node, key: string)
    requires e.Element? && key in {"name", "attributes", "text", "children"}
    ensures Values(NameMember(e) + AttributesMember(e) + TextMember(e) + ChildrenMember(e), key)
         == if key == "name" then [NameMember(e)[0].1]
            else if key == "attributes" then (if AttributesMember(e) == [] then [] else [AttributesMember(e)[0].1])
            else if key == "text" then (if TextMember(e) == [] then [] else [TextMember(e)[0].1])
            else if ChildrenMember(e) == [] then [] else [ChildrenMember(e)[0].1]
  {
    KeyTexts();
    assert |"name"| == 4 && |"attributes"| == 10 && |"children"| == 8 && "name"[0] != "text"[0];
    ValuesOfParts(e, key);
    OneValue(NameMember(e)[0], key);
    if AttributesMember(e) != [] {
      OneValue(AttributesMember(e)[0], key);
    }
    if TextMember(e) != [] {
      OneValue(TextMember(e)[0], key);
    }
    if ChildrenMember(e) != [] {
      OneValue(ChildrenMember(e)[0], key);
    }
  }

  lemma ReadBackMembers(e: Node)
    requires e.Element?
    ensures ReadJson(PrintJson(e), false).Got?
    ensures ReadBack(e) == JObject(NameMember(e) + AttributesMember(e) + TextMember(e) + ChildrenMember(e))
  {
    JsonRoundTrip(e, false);
    MembersOfElement(e);
  }

  /** What any element's output reads as. */
  lemma JsonShowsElement(e: Node)
    requires e.Element?
    ensures ReadJson(PrintJson(e), false).Got? && ReadBack(e).JObject?
    ensures ShowsElement(ReadBack(e).members, e)
  {
    ReadBackMembers(e);
    PartValues(e, "name");
    PartValues(e, "text");
  }

  /** In its object, the named attributes stand in order under one key. */
  lemma JsonShowsAttributes(e: Node)
    requires e.Element?
    ensures ReadBack(e).JObject? && ShowsAttributes(ReadBack(e).members, e)
  {
    ReadBackMembers(e);
    PartValues(e, "attributes");
    ShownPairs(e.attributes);
  }

  /** And the element children stand in order under another. */
  lemma JsonShowsChildren(e: Node)
    requires e.Element?
    ensures ReadBack(e).JObject? && ShowsChildren(ReadBack(e).members, e)
  {
    ReadBackMembers(e);
    PartValues(e, "children");
    ShownChildren(e.children);
  }

  // ----- node sets -----

  /** The value that a result of each kind reads as. */
  ghost predicate ReadsAs(j: Json, r: ResultNode) {
    match r
    case AttributeResult(name, None) => j == JObject([(Text(name), JNull)])
    case AttributeResult(name, Some(value)) => j == JObject([(Text(name), JString(value))])
    case TextResult(None) => j == JNull
    case TextResult(Some(content)) => j == JString(content)
    case ElementResult(None) => false
    case ElementResult(Some(e)) => e.Element? && j == ReadBack(e)
    case OtherResult => j == JNull
  }

  lemma {:induction false} EncodedReadsAs(rs: seq<ResultNode>, k: nat)
    requires AllPrinted(rs) && k < |rs|
    ensures |EncodeResults(rs)| == |rs| && ReadsAs(EncodeResults(rs)[k], rs[k])
  {
    if k == 0 {
      if rs[0].ElementResult? {
        JsonRoundTrip(rs[0].node.value, false);
      }
      if |rs| > 1 {
        EncodedReadsAs(rs[1..], 0);
      }
    } else {
      EncodedReadsAs(rs[1..], k - 1);
    }
  }

  predicate HasNode(r: ResultNode) {
    r.ElementResult? ==> r.node.Some? && r.node.value.Element?
  }

  lemma {:induction false} AllHaveNodes(rs: seq<ResultNode>)
    ensures AllPrinted(rs) <==> forall r | r in rs :: HasNode(r)
  {
    if rs != [] {
      AllHaveNodes(rs[1..]);
      assert HasNode(rs[0]) <==> EncodeResult(rs[0]).Some?;
      assert forall r :: r in rs <==> r == rs[0] || r in rs[1..];
    }
  }

  /** A printed node set reads back as an array with one item for each result, in order. */
  lemma NodesetItems(rs: seq<ResultNode>)
    requires forall r | r in rs :: HasNode(r)
    ensures var r := ReadJson(NodesetText(rs), false);
            && r.Got? && r.rest == "\n" && r.value.JArray? && |r.value.items| == |rs|
            && forall k | 0 <= k < |rs| :: ReadsAs(r.value.items[k], rs[k])
  {
    AllHaveNodes(rs);
    NodesetRoundTrip(rs, false);
    forall k | 0 <= k < |rs| ensures |EncodeResults(rs)| == |rs| && ReadsAs(EncodeResults(rs)[k], rs[k]) {
      EncodedReadsAs(rs, k);
    }
  }
}
