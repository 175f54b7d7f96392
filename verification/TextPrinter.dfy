/** The text tree printer: one line for each element, indented by twice its depth. */
module TextPrinter {
  import opened Common
  import opened DocumentTree

  /** One attribute; the C library prints a NULL name as `(null)`. */
  function AttributeLabel(a: Attribute): string {
    a.name.GetOr("(null)") + "=" + "\"" + a.value.GetOr("") + "\""
  }

  function JoinAttributes(attrs: seq<Attribute>): string {
    if attrs == [] then ""
    else
      JoinAttributes(attrs[..|attrs| - 1])
      + (if |attrs| > 1 then ", " else "") + AttributeLabel(attrs[|attrs| - 1])
  }

  function AttributesLabel(e: Node): string
    requires e.Element?
  {
    if e.attributes == [] then "" else " {" + JoinAttributes(e.attributes) + "}"
  }

  function TextLabel(e: Node): string
    requires e.Element?
  {
    if e.text.GetOr("") == "" then "" else ": " + e.text.value
  }

  /** The line of an element, without its indentation and its newline. */
  function Label(e: Node): string
    requires e.Element?
  {
    e.name.GetOr("") + AttributesLabel(e) + TextLabel(e)
  }

  function PrintText(e: Node, level: nat): string
    requires e.Element?
    decreases e, 0
  {
    Spaces(level * 2) + Label(e) + "\n" + PrintTexts(e.children, level + 1)
  }

  /** The lines of the elements among the siblings `ns`. */
  function PrintTexts(ns: seq<Node>, level: nat): string
    decreases ns, 1
  {
    if ns == [] then ""
    else (if ns[0].Element? then PrintText(ns[0], level) else "") + PrintTexts(ns[1..], level)
  }

  // ----- the procedures -----

  method WriteSpaces(n: nat, out: Stream)
    modifies out
    ensures out.contents == old(out.contents) + Spaces(n)
  {
    var i := 0;
    while i < n
      invariant i <= n
      invariant out.contents + Spaces(n - i) == old(out.contents) + Spaces(n)
    {
      out.Put(' ');
      i := i + 1;
    }
  }

  method WriteAttributes(attrs: seq<Attribute>, out: Stream)
    modifies out
    ensures out.contents == old(out.contents) + JoinAttributes(attrs)
  {
    ghost var pre := out.contents;
    var firstAttr := true;
    var i := 0;
    while i < |attrs|
      invariant i <= |attrs|
      invariant firstAttr <==> i == 0
      invariant out.contents == pre + JoinAttributes(attrs[..i])
    {
      var a := attrs[i];
      ghost var sofar, comma := JoinAttributes(attrs[..i]), if i > 0 then ", " else "";
      assert attrs[..i + 1][..i] == attrs[..i];
      if !firstAttr {
        out.Write(", ");
      }
      firstAttr := false;
      Assoc(pre, sofar, comma);
      WriteAttribute(a, out);
      Assoc(pre, sofar + comma, AttributeLabel(a));
      i := i + 1;
    }
    assert attrs[..i] == attrs;
  }

  method WriteAttribute(a: Attribute, out: Stream)
    modifies out
    ensures out.contents == old(out.contents) + AttributeLabel(a)
  {
    ghost var pre := out.contents;
    var name, value := a.name.GetOr("(null)"), a.value.GetOr("");
    out.Write(name);
    out.Write("=");
    Assoc(pre, name, "=");
    out.Write("\"");
    Assoc(pre, name + "=", "\"");
    out.Write(value);
    Assoc(pre, name + "=" + "\"", value);
    out.Write("\"");
    Assoc(pre, name + "=" + "\"" + value, "\"");
  }

  method WriteLabel(e: Node, out: Stream)
    requires e.Element?
    modifies out
    ensures out.contents == old(out.contents) + Label(e)
  {
    ghost var pre := out.contents;
    out.Write(e.name.GetOr(""));
    ghost var named := out.contents;
    if |e.attributes| > 0 {
      out.Write(" {");
      WriteAttributes(e.attributes, out);
      Assoc(named, " {", JoinAttributes(e.attributes));
      out.Write("}");
      Assoc(named, " {" + JoinAttributes(e.attributes), "}");
    }
    Assoc(pre, e.name.GetOr(""), AttributesLabel(e));
    ghost var head := out.contents;
    if e.text.Some? && e.text.value != "" {
      out.Write(": ");
      out.Write(e.text.value);
      Assoc(head, ": ", e.text.value);
    }
    Assoc(pre, e.name.GetOr("") + AttributesLabel(e), TextLabel(e));
  }

  method WriteText(e: Node, level: nat, out: Stream)
    requires e.Element?
    modifies out
    ensures out.contents == old(out.contents) + PrintText(e, level)
    decreases e, 0
  {
    ghost var pre := out.contents;
    WriteSpaces(level * 2, out);
    WriteLabel(e, out);
    Assoc(pre, Spaces(level * 2), Label(e));
    out.Write("\n");
    Assoc(pre, Spaces(level * 2) + Label(e), "\n");
    WriteTexts(e.children, level + 1, out);
    Assoc(pre, Spaces(level * 2) + Label(e) + "\n", PrintTexts(e.children, level + 1));
  }

  method WriteTexts(ns: seq<Node>, level: nat, out: Stream)
    modifies out
    ensures out.contents == old(out.contents) + PrintTexts(ns, level)
    decreases ns, 1
  {
    ghost var pre := out.contents;
    var i := 0;
    while i < |ns|
      invariant i <= |ns|
      invariant out.contents + PrintTexts(ns[i..], level) == pre + PrintTexts(ns, level)
    {
      ghost var before, rest := out.contents, PrintTexts(ns[i + 1..], level);
      assert ns[i..][0] == ns[i] && ns[i..][1..] == ns[i + 1..];
      if ns[i].Element? {
        WriteText(ns[i], level, out);
      }
      Assoc(before, if ns[i].Element? then PrintText(ns[i], level) else "", rest);
      i := i + 1;
    }
  }

  // ----- reading the lines -----

  datatype Row = Row(depth: nat, title: string)

  /** The elements in preorder, with their depths. */
  function Rows(e: Node, depth: nat): seq<Row>
    requires e.Element?
    decreases e, 0
  {
    [Row(depth, Label(e))] + RowsAll(e.children, depth + 1)
  }

  function RowsAll(ns: seq<Node>, depth: nat): seq<Row>
    decreases ns, 1
  {
    if ns == [] then []
    else (if ns[0].Element? then Rows(ns[0], depth) else []) + RowsAll(ns[1..], depth)
  }

  function RowText(r: Row): string {
    Spaces(r.depth * 2) + r.title + "\n"
  }

  function RowsText(rows: seq<Row>): string {
    if rows == [] then "" else RowText(rows[0]) + RowsText(rows[1..])
  }

  function Lines(s: string): seq<string>
    decreases |s|
  {
    match ReadUntil(s, "\n")
    case Got(line, rest) => [line] + Lines(rest)
    case Fail => []
  }

  function LeadingSpaces(line: string): (n: nat)
    ensures n <= |line|
  {
    if line != "" && line[0] == ' ' then 1 + LeadingSpaces(line[1..]) else 0
  }

  function Widths(lines: seq<string>): seq<nat> {
    if lines == [] then [] else [LeadingSpaces(lines[0])] + Widths(lines[1..])
  }

  /** What the indentation of the output should be. */
  function Indents(rows: seq<Row>): seq<nat> {
    if rows == [] then [] else [rows[0].depth * 2] + Indents(rows[1..])
  }

  /** A label that keeps to its line and does not look indented. */
  predicate LineSafe(title: string) {
    '\n' !in title && LeadingSpaces(title) == 0
  }

  predicate LineSafeAll(rows: seq<Row>) {
    rows == [] || (LineSafe(rows[0].title) && LineSafeAll(rows[1..]))
  }

  lemma {:induction false} RowsTextConcat(a: seq<Row>, b: seq<Row>)
    ensures RowsText(a + b) == RowsText(a) + RowsText(b)
  {
    if a == [] {
      assert a + b == b;
    } else {
      assert a == [a[0]] + a[1..] && a + b == [a[0]] + (a[1..] + b);
      RowsTextConcat(a[1..], b);
      FirstRow(a[0], a[1..]);
      FirstRow(a[0], a[1..] + b);
      Assoc(RowText(a[0]), RowsText(a[1..]), RowsText(b));
    }
  }

  lemma FirstRow(r: Row, rows: seq<Row>)
    ensures RowsText([r] + rows) == RowText(r) + RowsText(rows)
  {
    assert ([r] + rows)[1..] == rows;
  }

  lemma {:induction false} PrintTextIsRows(e: Node, level: nat)
    requires e.Element?
    ensures PrintText(e, level) == RowsText(Rows(e, level))
    decreases e, 0
  {
    PrintTextsAreRows(e.children, level + 1);
    assert Rows(e, level)[1..] == RowsAll(e.children, level + 1);
  }

  lemma {:induction false} PrintTextsAreRows(ns: seq<Node>, level: nat)
    ensures PrintTexts(ns, level) == RowsText(RowsAll(ns, level))
    decreases ns, 1
  {
    if ns != [] {
      PrintTextsAreRows(ns[1..], level);
      if ns[0].Element? {
        PrintTextIsRows(ns[0], level);
        RowsTextConcat(Rows(ns[0], level), RowsAll(ns[1..], level));
      } else {
        assert RowsAll(ns, level) == RowsAll(ns[1..], level);
      }
    }
  }

  lemma {:induction false} LineThenRest(line: string, rest: string)
    requires '\n' !in line
    ensures ReadUntil(line + ("\n" + rest), "\n") == Got(line, rest)
  {
    var s := line + ("\n" + rest);
    if line == "" {
      assert s == "\n" + rest && s[1..] == rest;
    } else {
      LineThenRest(line[1..], rest);
      assert s[0] == line[0] && s[0] in line && s[1..] == line[1..] + ("\n" + rest);
      assert [line[0]] + line[1..] == line;
    }
  }

  /** A text with a newline in it yields at least one line more. */
  lemma {:induction false} MoreLines(text: string, rest: string)
    ensures |Lines(text + ("\n" + rest))| >= 1 + |Lines(rest)|
    ensures '\n' in text ==> |Lines(text + ("\n" + rest))| >= 2 + |Lines(rest)|
    decreases |text|
  {
    if '\n' in text {
      var i := FirstNewline(text);
      var after := text[i + 1..] + ("\n" + rest);
      assert text + ("\n" + rest) == text[..i] + ("\n" + after);
      LineThenRest(text[..i], after);
      MoreLines(text[i + 1..], rest);
    } else {
      LineThenRest(text, rest);
    }
  }

  lemma FirstNewline(text: string) returns (i: nat)
    requires '\n' in text
    ensures i < |text| && text[i] == '\n' && '\n' !in text[..i]
  {
    i := 0;
    while text[i] != '\n'
      invariant i < |text| && '\n' !in text[..i] && '\n' in text[i..]
      decreases |text| - i
    {
      assert text[..i + 1] == text[..i] + [text[i]];
      assert text[i..] == [text[i]] + text[i + 1..];
      i := i + 1;
    }
  }

  lemma {:induction false} LeadingOfIndented(n: nat, title: string)
    ensures LeadingSpaces(Spaces(n) + title) == n + LeadingSpaces(title)
  {
    if n == 0 {
      assert Spaces(n) + title == title;
    } else {
      LeadingOfIndented(n - 1, title);
      assert (Spaces(n) + title)[1..] == Spaces(n - 1) + title;
    }
  }

  /** The output shows the depths of the elements exactly when every label is safe. */
  lemma {:induction false} IndentationExact(rows: seq<Row>)
    ensures |Lines(RowsText(rows))| >= |rows|
    ensures Widths(Lines(RowsText(rows))) == Indents(rows) <==> LineSafeAll(rows)
  {
    if rows != [] {
      var r, rest := rows[0], RowsText(rows[1..]);
      var line := Spaces(r.depth * 2) + r.title;
      IndentationExact(rows[1..]);
      Assoc(line, "\n", rest);
      MoreLines(line, rest);
      WidthsLength(Lines(RowsText(rows)));
      IndentsLength(rows);
      if '\n' in line {
        assert '\n' in r.title;
      } else {
        assert '\n' !in r.title by {
          assert forall c | c in r.title :: c in line;
        }
        LineThenRest(line, rest);
        LeadingOfIndented(r.depth * 2, r.title);
        assert Lines(RowsText(rows))[1..] == Lines(rest);
        SplitEqual([LeadingSpaces(line)], Widths(Lines(rest)), [r.depth * 2], Indents(rows[1..]));
      }
    }
  }

  lemma SplitEqual(a: seq<nat>, x: seq<nat>, b: seq<nat>, y: seq<nat>)
    requires |a| == |b| == 1
    ensures a + x == b + y <==> a == b && x == y
  {
    assert (a + x)[0] == a[0] && (a + x)[1..] == x;
    assert (b + y)[0] == b[0] && (b + y)[1..] == y;
    if a[0] == b[0] {
      assert a == b;
    }
  }

  lemma {:induction false} WidthsLength(lines: seq<string>)
    ensures |Widths(lines)| == |lines|
  {
    if lines != [] {
      WidthsLength(lines[1..]);
    }
  }

  lemma {:induction false} IndentsLength(rows: seq<Row>)
    ensures |Indents(rows)| == |rows|
  {
    if rows != [] {
      IndentsLength(rows[1..]);
    }
  }

  // ----- the shape of the tree -----

  datatype Shape = Branch(parts: seq<Shape>)

  function ShapeOf(e: Node): Shape
    requires e.Element?
    decreases e, 0
  {
    Branch(ShapesOf(e.children))
  }

  function ShapesOf(ns: seq<Node>): seq<Shape>
    decreases ns, 1
  {
    if ns == [] then []
    else (if ns[0].Element? then [ShapeOf(ns[0])] else []) + ShapesOf(ns[1..])
  }

  function Depths(s: Shape, depth: nat): seq<nat>
    decreases s, 0
  {
    [depth * 2] + DepthsAll(s.parts, depth + 1)
  }

  function DepthsAll(ss: seq<Shape>, depth: nat): seq<nat>
    decreases ss, 1
  {
    if ss == [] then [] else Depths(ss[0], depth) + DepthsAll(ss[1..], depth)
  }

  lemma {:induction false} IndentsConcat(a: seq<Row>, b: seq<Row>)
    ensures Indents(a + b) == Indents(a) + Indents(b)
  {
    if a == [] {
      assert a + b == b;
    } else {
      assert (a + b)[0] == a[0] && (a + b)[1..] == a[1..] + b;
      IndentsConcat(a[1..], b);
    }
  }

  lemma {:induction false} IndentsAreDepths(e: Node, depth: nat)
    requires e.Element?
    ensures Indents(Rows(e, depth)) == Depths(ShapeOf(e), depth)
    decreases e, 0
  {
    IndentsAllAreDepths(e.children, depth + 1);
    assert Rows(e, depth)[1..] == RowsAll(e.children, depth + 1);
  }

  lemma {:induction false} IndentsAllAreDepths(ns: seq<Node>, depth: nat)
    ensures Indents(RowsAll(ns, depth)) == DepthsAll(ShapesOf(ns), depth)
    decreases ns, 1
  {
    if ns != [] {
      IndentsAllAreDepths(ns[1..], depth);
      if ns[0].Element? {
        IndentsAreDepths(ns[0], depth);
        IndentsConcat(Rows(ns[0], depth), RowsAll(ns[1..], depth));
        assert ShapesOf(ns)[1..] == ShapesOf(ns[1..]);
      } else {
        assert RowsAll(ns, depth) == RowsAll(ns[1..], depth);
        assert ShapesOf(ns) == ShapesOf(ns[1..]);
      }
    }
  }

  /** A list that is over, or goes on above the level `depth`. */
  predicate Above(rest: seq<nat>, depth: nat) {
    rest == [] || rest[0] < depth * 2
  }

  lemma {:induction false} ForestInjective(a: seq<Shape>, b: seq<Shape>, depth: nat, x: seq<nat>, y: seq<nat>)
    requires DepthsAll(a, depth) + x == DepthsAll(b, depth) + y
    requires Above(x, depth) && Above(y, depth)
    ensures a == b && x == y
    decreases a, 1
  {
    if a == [] || b == [] {
      FirstDepth(a, depth);
      FirstDepth(b, depth);
      assert a == [] ==> DepthsAll(a, depth) + x == x;
      assert b == [] ==> DepthsAll(b, depth) + y == y;
    } else {
      var moreA, moreB := DepthsAll(a[1..], depth) + x, DepthsAll(b[1..], depth) + y;
      Assoc(Depths(a[0], depth), DepthsAll(a[1..], depth), x);
      Assoc(Depths(b[0], depth), DepthsAll(b[1..], depth), y);
      FirstDepth(a[1..], depth);
      FirstDepth(b[1..], depth);
      TreeInjective(a[0], b[0], depth, moreA, moreB);
      ForestInjective(a[1..], b[1..], depth, x, y);
      assert a == [a[0]] + a[1..] && b == [b[0]] + b[1..];
    }
  }

  lemma {:induction false} TreeInjective(a: Shape, b: Shape, depth: nat, x: seq<nat>, y: seq<nat>)
    requires Depths(a, depth) + x == Depths(b, depth) + y
    requires Above(x, depth + 1) && Above(y, depth + 1)
    ensures a == b && x == y
    decreases a, 0
  {
    Assoc([depth * 2], DepthsAll(a.parts, depth + 1), x);
    Assoc([depth * 2], DepthsAll(b.parts, depth + 1), y);
    var p, q := DepthsAll(a.parts, depth + 1) + x, DepthsAll(b.parts, depth + 1) + y;
    assert ([depth * 2] + p)[1..] == p && ([depth * 2] + q)[1..] == q;
    ForestInjective(a.parts, b.parts, depth + 1, x, y);
  }

  lemma FirstDepth(ss: seq<Shape>, depth: nat)
    ensures ss != [] ==> DepthsAll(ss, depth) != [] && DepthsAll(ss, depth)[0] == depth * 2
  {
  }

  /** The indentation of the output is twice the depth of each element in preorder,
      exactly when every label keeps to its line and starts with no space. */
  lemma TextShowsDepths(e: Node)
    requires e.Element?
    ensures Widths(Lines(PrintText(e, 0))) == Depths(ShapeOf(e), 0) <==> LineSafeAll(Rows(e, 0))
  {
    PrintTextIsRows(e, 0);
    IndentationExact(Rows(e, 0));
    IndentsAreDepths(e, 0);
  }

  /** Elements with safe labels and equal output have the same shape. */
  lemma TextDeterminesShape(e1: Node, e2: Node)
    requires e1.Element? && e2.Element?
    requires LineSafeAll(Rows(e1, 0)) && LineSafeAll(Rows(e2, 0))
    requires PrintText(e1, 0) == PrintText(e2, 0)
    ensures ShapeOf(e1) == ShapeOf(e2)
  {
    TextShowsDepths(e1);
    TextShowsDepths(e2);
    TreeInjective(ShapeOf(e1), ShapeOf(e2), 0, [], []);
  }
}
