/** The lines of the text output, one by one. */
module TextLines {
  import opened Common
  import opened DocumentTree
  import opened TextPrinter

  /** The elements in document order, each with its depth. */
  function Preorder(e: Node, depth: nat): seq<(nat, Node)>
    requires e.Element?
    decreases e, 0
  {
    [(depth, e)] + PreorderAll(e.children, depth + 1)
  }

  function PreorderAll(ns: seq<Node>, depth: nat): seq<(nat, Node)>
    decreases ns, 1
  {
    if ns == [] then []
    else (if ns[0].Element? then Preorder(ns[0], depth) else []) + PreorderAll(ns[1..], depth)
  }

  function Shown(s: Option<string>): string {
    match s
    case None => ""
    case Some(text) => text
  }

  /** A name, an equals sign and the value between quotation marks. */
  function AttributeShown(a: Attribute): string {
    (if a.name == None then "(null)" else a.name.value) + ("=\"" + Shown(a.value) + "\"")
  }

  function Pieces(attrs: seq<Attribute>): seq<string> {
    seq(|attrs|, i requires 0 <= i < |attrs| => AttributeShown(attrs[i]))
  }

  function Separated(pieces: seq<string>): string {
    if pieces == [] then ""
    else if |pieces| == 1 then pieces[0]
    else pieces[0] + (", " + Separated(pieces[1..]))
  }

  /** What the line of an element says: its name, its attributes in order between braces if
      there are any, and its text behind a colon if it has one. */
  function LineOf(depth: nat, e: Node): string
    requires e.Element?
  {
    Spaces(2 * depth)
    + Shown(e.name)
    + (if |e.attributes| == 0 then ""
       else " {" + Separated(Pieces(e.attributes)) + "}")
    + (if Shown(e.text) == "" then "" else ": " + Shown(e.text))
  }

  predicate NoNewline(s: Option<string>) {
    '\n' !in Shown(s)
  }

  /** Nothing that is shown breaks a line. */
  predicate Unbroken(n: Node)
    decreases n, 0
  {
    n.Element? ==>
      && NoNewline(n.name) && NoNewline(n.text)
      && (forall a | a in n.attributes :: NoNewline(a.name) && NoNewline(a.value))
      && UnbrokenAll(n.children)
  }

  predicate UnbrokenAll(ns: seq<Node>)
    decreases ns, 1
  {
    ns == [] || (Unbroken(ns[0]) && UnbrokenAll(ns[1..]))
  }

  // ----- one line -----

  lemma {:induction false} SeparatedSnoc(pieces: seq<string>, last: string)
    requires pieces != []
    ensures Separated(pieces + [last]) == Separated(pieces) + ", " + last
  {
    if |pieces| == 1 {
      assert (pieces + [last])[1..] == [last];
      Assoc(pieces[0], ", ", last);
    } else {
      assert (pieces + [last])[0] == pieces[0] && (pieces + [last])[1..] == pieces[1..] + [last];
      SeparatedSnoc(pieces[1..], last);
      Assoc(", ", Separated(pieces[1..]) + ", ", last);
      Assoc(", ", Separated(pieces[1..]), ", ");
      Assoc(pieces[0], ", " + Separated(pieces[1..]) + ", ", last);
      Assoc(pieces[0], ", " + Separated(pieces[1..]), ", ");
    }
  }

  lemma LabelIs(a: Attribute)
    ensures AttributeLabel(a) == AttributeShown(a)
  {
    var name, value := a.name.GetOr("(null)"), Shown(a.value);
    assert "=" + "\"" == "=\"";
    Assoc(name, "=", "\"");
    Assoc(name, "=\"", value);
    Assoc(name, "=\"" + value, "\"");
  }

  lemma {:induction false} JoinedIs(attrs: seq<Attribute>)
    ensures JoinAttributes(attrs) == Separated(Pieces(attrs))
  {
    if attrs != [] {
      var init, last := attrs[..|attrs| - 1], attrs[|attrs| - 1];
      JoinedIs(init);
      LabelIs(last);
      assert Pieces(attrs) == Pieces(init) + [AttributeShown(last)];
      if init != [] {
        SeparatedSnoc(Pieces(init), AttributeShown(last));
      } else {
        assert Pieces(attrs) == [AttributeShown(last)];
      }
    }
  }

  lemma LineIs(depth: nat, e: Node)
    requires e.Element?
    ensures LineOf(depth, e) == Spaces(depth * 2) + Label(e)
  {
    JoinedIs(e.attributes);
    var attributes := AttributesLabel(e);
    Assoc(Spaces(depth * 2), Shown(e.name), attributes);
    Assoc(Spaces(depth * 2), Shown(e.name) + attributes, TextLabel(e));
  }

  lemma {:induction false} JoinedUnbroken(attrs: seq<Attribute>)
    requires forall a | a in attrs :: NoNewline(a.name) && NoNewline(a.value)
    ensures '\n' !in JoinAttributes(attrs)
  {
    if attrs != [] {
      var init, last := attrs[..|attrs| - 1], attrs[|attrs| - 1];
      assert last in attrs && forall a | a in init :: a in attrs;
      JoinedUnbroken(init);
      assert '\n' !in AttributeLabel(last);
    }
  }

  lemma LabelUnbroken(e: Node)
    requires e.Element? && Unbroken(e)
    ensures '\n' !in Label(e)
  {
    JoinedUnbroken(e.attributes);
    assert '\n' !in AttributesLabel(e) by {
      assert '\n' !in " {" && '\n' !in "}";
    }
    assert '\n' !in TextLabel(e);
    assert '\n' !in e.name.GetOr("");
  }

  // ----- all the lines -----

  predicate AreLines(lines: seq<string>, elements: seq<(nat, Node)>) {
    && |lines| == |elements|
    && forall k | 0 <= k < |lines| :: elements[k].1.Element? && lines[k] == LineOf(elements[k].0, elements[k].1)
  }

  lemma LineUnbroken(depth: nat, e: Node)
    requires e.Element? && Unbroken(e)
    ensures '\n' !in LineOf(depth, e)
  {
    LabelUnbroken(e);
    LineIs(depth, e);
  }

  lemma FirstLine(line: string, rest: string)
    requires '\n' !in line
    ensures Lines(line + ("\n" + rest)) == [line] + Lines(rest)
  {
    LineThenRest(line, rest);
  }

  lemma LineInFront(depth: nat, e: Node, rest: string, elements: seq<(nat, Node)>)
    requires e.Element? && Unbroken(e) && AreLines(Lines(rest), elements)
    ensures AreLines(Lines(LineOf(depth, e) + ("\n" + rest)), [(depth, e)] + elements)
  {
    var line, later, all := LineOf(depth, e), Lines(rest), [(depth, e)] + elements;
    LineUnbroken(depth, e);
    FirstLine(line, rest);
    forall k | 0 <= k < |all|
      ensures all[k].1.Element? && ([line] + later)[k] == LineOf(all[k].0, all[k].1)
    {
      assert k > 0 ==> ([line] + later)[k] == later[k - 1] && all[k] == elements[k - 1];
    }
  }

  lemma {:induction false} ElementLines(e: Node, depth: nat, rest: string, elements: seq<(nat, Node)>)
    requires e.Element? && Unbroken(e) && AreLines(Lines(rest), elements)
    ensures AreLines(Lines(PrintText(e, depth) + rest), Preorder(e, depth) + elements)
    decreases e, 0
  {
    var children := PrintTexts(e.children, depth + 1);
    ChildrenLines(e.children, depth + 1, rest, elements);
    LineInFront(depth, e, children + rest, PreorderAll(e.children, depth + 1) + elements);
    LineIs(depth, e);
    Assoc(LineOf(depth, e), "\n", children);
    Assoc(LineOf(depth, e), "\n" + children, rest);
    Assoc("\n", children, rest);
    Assoc([(depth, e)], PreorderAll(e.children, depth + 1), elements);
  }

  lemma {:induction false} ChildrenLines(ns: seq<Node>, depth: nat, rest: string, elements: seq<(nat, Node)>)
    requires UnbrokenAll(ns) && AreLines(Lines(rest), elements)
    ensures AreLines(Lines(PrintTexts(ns, depth) + rest), PreorderAll(ns, depth) + elements)
    decreases ns, 1
  {
    if ns == [] {
      assert PrintTexts(ns, depth) + rest == rest && PreorderAll(ns, depth) + elements == elements;
    } else {
      ChildrenLines(ns[1..], depth, rest, elements);
      var later, behind := PrintTexts(ns[1..], depth) + rest, PreorderAll(ns[1..], depth) + elements;
      if ns[0].Element? {
        ElementLines(ns[0], depth, later, behind);
        Assoc(PrintText(ns[0], depth), PrintTexts(ns[1..], depth), rest);
        Assoc(Preorder(ns[0], depth), PreorderAll(ns[1..], depth), elements);
      } else {
        assert PrintTexts(ns, depth) == PrintTexts(ns[1..], depth);
        assert PreorderAll(ns, depth) == PreorderAll(ns[1..], depth);
      }
    }
  }

  /** The k-th line of the output is that of the k-th element in document order. */
  lemma TextShowsElements(e: Node)
    requires e.Element? && Unbroken(e)
    ensures AreLines(Lines(PrintText(e, 0)), Preorder(e, 0))
  {
    assert Lines("") == [];
    ElementLines(e, 0, "", []);
    assert PrintText(e, 0) + "" == PrintText(e, 0) && Preorder(e, 0) + [] == Preorder(e, 0);
  }
}
