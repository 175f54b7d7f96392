/** The JSON tree printer. It is proved to write the compact text of a value, so that
    separators stand exactly between members and items, and two elements print alike
    exactly when they agree on what is shown. */
module JsonPrinter {
  import opened Common
  import opened DocumentTree
  import opened JsonReader

  /** What the printer shows of an element. */
  datatype Summary = Summary(name: string,
                             attributes: Option<seq<(string, string)>>,  // None: no attribute list
                             text: string,
                             hasChildren: bool,                          // of any kind
                             children: seq<Summary>)                     // the elements

  function Summarize(e: Node): Summary
    requires e.Element?
    decreases e, 0
  {
    Summary(e.name.GetOr(""),
            if e.attributes == [] then None else Some(ShownAttributes(e.attributes)),
            e.text.GetOr(""),
            e.children != [], SummarizeElements(e.children))
  }

  /** The summaries of the elements among `ns`. */
  function SummarizeElements(ns: seq<Node>): seq<Summary>
    decreases ns, 1
  {
    if ns == [] then []
    else (if ns[0].Element? then [Summarize(ns[0])] else []) + SummarizeElements(ns[1..])
  }

  function AttributeMembers(attrs: seq<(string, string)>): seq<(string, Json)> {
    if attrs == [] then [] else [(attrs[0].0, JString(attrs[0].1))] + AttributeMembers(attrs[1..])
  }

  /** The JSON object that stands for an element. */
  function Encode(s: Summary): Json
    decreases s, 0
  {
    JObject([("name", JString(s.name))]
            + (if s.attributes.Some? then [("attributes", JObject(AttributeMembers(s.attributes.value)))] else [])
            + (if s.text != "" then [("text", JString(s.text))] else [])
            + (if s.hasChildren then [("children", JArray(EncodeAll(s.children)))] else []))
  }

  function EncodeAll(ss: seq<Summary>): seq<Json>
    decreases ss, 1
  {
    if ss == [] then [] else [Encode(ss[0])] + EncodeAll(ss[1..])
  }

  function PrintJson(e: Node): string
    requires e.Element?
  {
    Render(Encode(Summarize(e)))
  }

  // ----- compact texts, piece by piece -----

  lemma {:induction false} PlainEscaped(s: string)
    requires forall i | 0 <= i < |s| :: |EscapeJsonChar(s[i])| == 1
    ensures Escaped(EscapeJsonChar, s) == s
  {
    if s != "" {
      assert EscapeJsonChar(s[0]) == [s[0]];
      PlainEscaped(s[1..]);
      assert [s[0]] + s[1..] == s;
    }
  }

  lemma CommaGroups(head: string, tail: string, last: string)
    ensures head + ("," + tail) + "," + last == head + ("," + (tail + "," + last))
  {
  }

  lemma {:induction false} RenderMembersSnoc(a: seq<(string, Json)>, m: (string, Json))
    ensures RenderMembers(a + [m]) == RenderMembers(a) + (if a == [] then "" else ",") + RenderMember(m)
  {
    if a == [] {
      assert a + [m] == [m];
    } else {
      RenderMembersSnoc(a[1..], m);
      assert (a + [m])[0] == a[0] && (a + [m])[1..] == a[1..] + [m];
      assert RenderMembers(a + [m]) == RenderMember(a[0]) + ("," + RenderMembers(a[1..] + [m]));
      if |a| == 1 {
        assert a[1..] + [m] == [m];
        assert RenderMembers([m]) == RenderMember(m);
        Assoc(RenderMember(a[0]), ",", RenderMember(m));
      } else {
        CommaGroups(RenderMember(a[0]), RenderMembers(a[1..]), RenderMember(m));
      }
    }
  }

  lemma FirstItem(j: Json, items: seq<Json>)
    requires items != []
    ensures RenderItems([j] + items) == Render(j) + ("," + RenderItems(items))
  {
    assert ([j] + items)[1..] == items;
  }

  lemma {:induction false} RenderItemsSnoc(a: seq<Json>, j: Json)
    ensures RenderItems(a + [j]) == RenderItems(a) + (if a == [] then "" else ",") + Render(j)
  {
    if a == [] {
      assert a + [j] == [j];
    } else {
      var head, tail := a[0], a[1..];
      assert a == [head] + tail && a + [j] == [head] + (tail + [j]);
      RenderItemsSnoc(tail, j);
      FirstItem(head, tail + [j]);
      if tail == [] {
        assert RenderItems(a) == Render(head);
        Assoc(Render(head), ",", Render(j));
      } else {
        FirstItem(head, tail);
        CommaGroups(Render(head), RenderItems(tail), Render(j));
      }
    }
  }

  lemma {:induction false} ShownSnoc(attrs: seq<Attribute>, a: Attribute)
    ensures ShownAttributes(attrs + [a])
         == ShownAttributes(attrs) + if HasName(a) then [(a.name.value, a.value.GetOr(""))] else []
  {
    if attrs == [] {
      assert (attrs + [a])[1..] == [];
    } else {
      assert (attrs + [a])[0] == attrs[0] && (attrs + [a])[1..] == attrs[1..] + [a];
      ShownSnoc(attrs[1..], a);
      Assoc(if HasName(attrs[0]) then [(attrs[0].name.value, attrs[0].value.GetOr(""))] else [],
            ShownAttributes(attrs[1..]),
            if HasName(a) then [(a.name.value, a.value.GetOr(""))] else []);
    }
  }

  lemma {:induction false} AttributeMembersSnoc(attrs: seq<(string, string)>, a: (string, string))
    ensures AttributeMembers(attrs + [a]) == AttributeMembers(attrs) + [(a.0, JString(a.1))]
  {
    if attrs == [] {
      assert (attrs + [a])[1..] == [];
    } else {
      assert (attrs + [a])[0] == attrs[0] && (attrs + [a])[1..] == attrs[1..] + [a];
      AttributeMembersSnoc(attrs[1..], a);
    }
  }

  lemma {:induction false} SummarizeSnoc(ns: seq<Node>, n: Node)
    ensures SummarizeElements(ns + [n])
         == SummarizeElements(ns) + if n.Element? then [Summarize(n)] else []
  {
    if ns == [] {
      assert (ns + [n])[1..] == [];
    } else {
      assert (ns + [n])[0] == ns[0] && (ns + [n])[1..] == ns[1..] + [n];
      SummarizeSnoc(ns[1..], n);
    }
  }

  lemma {:induction false} EncodeSnoc(ss: seq<Summary>, s: Summary)
    ensures EncodeAll(ss + [s]) == EncodeAll(ss) + [Encode(s)]
  {
    if ss == [] {
      assert (ss + [s])[1..] == [];
    } else {
      assert (ss + [s])[0] == ss[0] && (ss + [s])[1..] == ss[1..] + [s];
      EncodeSnoc(ss[1..], s);
    }
  }

  // ----- the procedures -----

  method WriteEscapedString(s: string, out: Stream)
    modifies out
    ensures out.contents == old(out.contents) + Escaped(EscapeJsonChar, s)
  {
    var p := 0;
    while p < |s|
      invariant p <= |s|
      invariant out.contents + Escaped(EscapeJsonChar, s[p..]) == old(out.contents) + Escaped(EscapeJsonChar, s)
    {
      assert s[p..][0] == s[p] && s[p..][1..] == s[p + 1..];
      ghost var before := out.contents;
      out.Write(EscapeJsonChar(s[p]));
      Assoc(before, EscapeJsonChar(s[p]), Escaped(EscapeJsonChar, s[p + 1..]));
      p := p + 1;
    }
  }

  /** An escaped string between quotation marks. */
  method WriteQuoted(s: string, out: Stream)
    modifies out
    ensures out.contents == old(out.contents) + RenderString(s)
  {
    ghost var pre := out.contents;
    out.Write("\"");
    WriteEscapedString(s, out);
    Assoc(pre, "\"", Escaped(EscapeJsonChar, s));
    out.Write("\"");
    Assoc(pre, "\"" + Escaped(EscapeJsonChar, s), "\"");
  }

  /** The members of the `attributes` object; `firstAttr` says whether none is out yet. */
  method WriteAttributeMembers(attrs: seq<Attribute>, out: Stream)
    modifies out
    ensures out.contents == old(out.contents) + RenderMembers(AttributeMembers(ShownAttributes(attrs)))
  {
    ghost var pre := out.contents;
    ghost var done: seq<(string, string)> := [];
    var firstAttr := true;
    var i := 0;
    while i < |attrs|
      invariant i <= |attrs|
      invariant done == ShownAttributes(attrs[..i])
      invariant firstAttr <==> done == []
      invariant out.contents == pre + RenderMembers(AttributeMembers(done))
    {
      var a := attrs[i];
      assert attrs[..i + 1] == attrs[..i] + [a];
      ShownSnoc(attrs[..i], a);
      if a.name.Some? && a.name.value != "" {
        ghost var members := AttributeMembers(done);
        ghost var comma := if members == [] then "" else ",";
        ghost var m := (a.name.value, JString(a.value.GetOr("")));
        AttributeMembersSnoc(done, (a.name.value, a.value.GetOr("")));
        RenderMembersSnoc(members, m);
        if !firstAttr {
          out.Write(",");
        }
        firstAttr := false;
        assert out.contents == pre + RenderMembers(members) + comma;
        WriteQuoted(a.name.value, out);
        out.Write(":");
        WriteQuoted(a.value.GetOr(""), out);
        ghost var soFar := pre + RenderMembers(members) + comma;
        Assoc(soFar, RenderString(m.0), ":");
        Assoc(soFar, RenderString(m.0) + ":", RenderString(a.value.GetOr("")));
        Assoc(pre + RenderMembers(members), comma, RenderMember(m));
        Assoc(pre, RenderMembers(members), comma + RenderMember(m));
        Assoc(RenderMembers(members), comma, RenderMember(m));
        done := done + [(a.name.value, a.value.GetOr(""))];
      } else {
        assert done + [] == done;
      }
      i := i + 1;
    }
    assert attrs[..i] == attrs;
  }

  /** The items of the `children` array: the elements among the siblings. */
  method WriteChildItems(ns: seq<Node>, out: Stream)
    modifies out
    ensures out.contents == old(out.contents) + RenderItems(EncodeAll(SummarizeElements(ns)))
    decreases ns, 0
  {
    ghost var pre := out.contents;
    ghost var done: seq<Summary> := [];
    var first := true;
    var i := 0;
    while i < |ns|
      invariant i <= |ns|
      invariant done == SummarizeElements(ns[..i])
      invariant first <==> done == []
      invariant out.contents == pre + RenderItems(EncodeAll(done))
    {
      assert ns[..i + 1] == ns[..i] + [ns[i]];
      SummarizeSnoc(ns[..i], ns[i]);
      if ns[i].Element? {
        ghost var items := EncodeAll(done);
        ghost var comma := if items == [] then "" else ",";
        ghost var s := Summarize(ns[i]);
        EncodeSnoc(done, s);
        RenderItemsSnoc(items, Encode(s));
        if !first {
          out.Write(",");
        }
        first := false;
        WriteJsonElement(ns[i], out);
        Assoc(pre + RenderItems(items), comma, Render(Encode(s)));
        Assoc(pre, RenderItems(items), comma + Render(Encode(s)));
        Assoc(RenderItems(items), comma, Render(Encode(s)));
        done := done + [s];
      } else {
        assert done + [] == done;
      }
      i := i + 1;
    }
    assert ns[..i] == ns;
  }

  function NameMember(e: Node): seq<(string, Json)>
    requires e.Element?
  {
    [("name", JString(e.name.GetOr("")))]
  }

  function AttributesMember(e: Node): seq<(string, Json)>
    requires e.Element?
  {
    if e.attributes == [] then [] else [("attributes", JObject(AttributeMembers(ShownAttributes(e.attributes))))]
  }

  function TextMember(e: Node): seq<(string, Json)>
    requires e.Element?
  {
    if e.text.GetOr("") == "" then [] else [("text", JString(e.text.value))]
  }

  function ChildrenMember(e: Node): seq<(string, Json)>
    requires e.Element?
  {
    if e.children == [] then [] else [("children", JArray(EncodeAll(SummarizeElements(e.children))))]
  }

  lemma MembersOfElement(e: Node)
    requires e.Element?
    ensures Encode(Summarize(e)) == JObject(NameMember(e) + AttributesMember(e) + TextMember(e) + ChildrenMember(e))
  {
  }

  lemma MemberGroups(pre: string, ms: string, k: string, v: string)
    ensures pre + ("{" + (ms + "," + (k + v))) == pre + ("{" + ms) + ("," + k) + v
  {
  }

  /** Appends one member, whose key with its punctuation is `lead`, to an object that
      already has some. */
  lemma AppendMember(pre: string, ms: seq<(string, Json)>, key: string, lead: string, value: Json)
    requires ms != [] && forall i | 0 <= i < |key| :: |EscapeJsonChar(key[i])| == 1
    requires lead == "," + ("\"" + key + "\"" + ":")
    ensures pre + ("{" + RenderMembers(ms + [(key, value)]))
         == pre + ("{" + RenderMembers(ms)) + lead + Render(value)
  {
    RenderMembersSnoc(ms, (key, value));
    PlainEscaped(key);
    MemberGroups(pre, RenderMembers(ms), RenderString(key) + ":", Render(value));
  }

  lemma Leads()
    ensures ",\"attributes\":" == "," + ("\"" + "attributes" + "\"" + ":")
    ensures ",\"text\":" == "," + ("\"" + "text" + "\"" + ":")
    ensures ",\"children\":" == "," + ("\"" + "children" + "\"" + ":")
  {
  }

  method WriteName(e: Node, out: Stream)
    requires e.Element?
    modifies out
    ensures out.contents == old(out.contents) + ("{" + RenderMembers(NameMember(e)))
  {
    ghost var pre := out.contents;
    out.Write("{");
    out.Write("\"name\":");
    Assoc(pre, "{", "\"name\":");
    WriteQuoted(e.name.GetOr(""), out);
    PlainEscaped("name");
    assert RenderString("name") + ":" == "\"name\":";
    Assoc(pre, "{" + "\"name\":", RenderString(e.name.GetOr("")));
    Assoc("{", "\"name\":", RenderString(e.name.GetOr("")));
  }

  method WriteAttributesMember(e: Node, out: Stream, ghost pre: string, ghost ms: seq<(string, Json)>)
    requires e.Element? && ms != []
    requires out.contents == pre + ("{" + RenderMembers(ms))
    modifies out
    ensures out.contents == pre + ("{" + RenderMembers(ms + AttributesMember(e)))
  {
    if |e.attributes| > 0 {
      ghost var body := RenderMembers(AttributeMembers(ShownAttributes(e.attributes)));
      Leads();
      AppendMember(pre, ms, "attributes", ",\"attributes\":", AttributesMember(e)[0].1);
      out.Write(",\"attributes\":");
      ghost var before := out.contents;
      out.Write("{");
      WriteAttributeMembers(e.attributes, out);
      Assoc(before, "{", body);
      out.Write("}");
      Assoc(before, "{" + body, "}");
    } else {
      assert ms + [] == ms;
    }
  }

  method WriteTextMember(e: Node, out: Stream, ghost pre: string, ghost ms: seq<(string, Json)>)
    requires e.Element? && ms != []
    requires out.contents == pre + ("{" + RenderMembers(ms))
    modifies out
    ensures out.contents == pre + ("{" + RenderMembers(ms + TextMember(e)))
  {
    if e.text.Some? && e.text.value != "" {
      Leads();
      AppendMember(pre, ms, "text", ",\"text\":", TextMember(e)[0].1);
      out.Write(",\"text\":");
      WriteQuoted(e.text.value, out);
    } else {
      assert ms + [] == ms;
    }
  }

  method WriteChildrenMember(e: Node, out: Stream, ghost pre: string, ghost ms: seq<(string, Json)>)
    requires e.Element? && ms != []
    requires out.contents == pre + ("{" + RenderMembers(ms))
    modifies out
    ensures out.contents == pre + ("{" + RenderMembers(ms + ChildrenMember(e)))
    decreases e, 0
  {
    if |e.children| > 0 {
      ghost var body := RenderItems(EncodeAll(SummarizeElements(e.children)));
      Leads();
      AppendMember(pre, ms, "children", ",\"children\":", ChildrenMember(e)[0].1);
      out.Write(",\"children\":");
      ghost var before := out.contents;
      out.Write("[");
      WriteChildItems(e.children, out);
      Assoc(before, "[", body);
      out.Write("]");
      Assoc(before, "[" + body, "]");
    } else {
      assert ms + [] == ms;
    }
  }

  method WriteJsonElement(e: Node, out: Stream)
    requires e.Element?
    modifies out
    ensures out.contents == old(out.contents) + PrintJson(e)
    decreases e, 1
  {
    ghost var pre := out.contents;
    WriteName(e, out);
    WriteAttributesMember(e, out, pre, NameMember(e));
    WriteTextMember(e, out, pre, NameMember(e) + AttributesMember(e));
    WriteChildrenMember(e, out, pre, NameMember(e) + AttributesMember(e) + TextMember(e));
    out.Write("}");
    MembersOfElement(e);
    Assoc(pre, "{" + RenderMembers(NameMember(e) + AttributesMember(e) + TextMember(e) + ChildrenMember(e)), "}");
  }

  // ----- what JSON output determines -----

  lemma {:induction false} MembersInjective(a: seq<(string, string)>, b: seq<(string, string)>)
    requires AttributeMembers(a) == AttributeMembers(b)
    ensures a == b
  {
    if a != [] && b != [] {
      assert AttributeMembers(a)[0] == AttributeMembers(b)[0];
      assert AttributeMembers(a)[1..] == AttributeMembers(a[1..]);
      assert AttributeMembers(b)[1..] == AttributeMembers(b[1..]);
      MembersInjective(a[1..], b[1..]);
      assert a == [a[0]] + a[1..] && b == [b[0]] + b[1..];
    }
  }

  /** The members of an encoded summary can be told apart by their keys. */
  lemma EncodeParts(a: Summary, b: Summary)
    requires Encode(a) == Encode(b)
    ensures a.name == b.name && a.text == b.text
    ensures a.attributes.Some? <==> b.attributes.Some?
    ensures a.attributes.Some? ==> AttributeMembers(a.attributes.value) == AttributeMembers(b.attributes.value)
    ensures a.hasChildren <==> b.hasChildren
    ensures a.hasChildren ==> EncodeAll(a.children) == EncodeAll(b.children)
  {
    var x, y := Encode(a).members, Encode(b).members;
    assert x[0] == ("name", JString(a.name)) && y[0] == ("name", JString(b.name));
    KeyTexts();
    var i := if a.attributes.Some? then 2 else 1;
    assert |x| > 1 ==> x[1] == y[1];
    assert a.attributes.Some? ==> x[1] == ("attributes", JObject(AttributeMembers(a.attributes.value)));
    assert b.attributes.Some? ==> y[1] == ("attributes", JObject(AttributeMembers(b.attributes.value)));
    assert a.attributes.Some? <==> b.attributes.Some?;
    assert |x| > i ==> x[i] == y[i];
    assert a.text != "" ==> x[i] == ("text", JString(a.text));
    assert b.text != "" ==> y[i] == ("text", JString(b.text));
    assert a.text == b.text;
    var k := if a.text != "" then i + 1 else i;
    assert a.hasChildren ==> x[k] == ("children", JArray(EncodeAll(a.children)));
    assert b.hasChildren ==> y[k] == ("children", JArray(EncodeAll(b.children)));
  }

  lemma KeyTexts()
    ensures "attributes" != "text" && "attributes" != "children" && "text" != "children"
  {
  }

  /** Children are listed only where there are some. */
  predicate Sound(s: Summary)
    decreases s, 0
  {
    (!s.hasChildren ==> s.children == []) && SoundAll(s.children)
  }

  predicate SoundAll(ss: seq<Summary>)
    decreases ss, 1
  {
    ss == [] || (Sound(ss[0]) && SoundAll(ss[1..]))
  }

  lemma {:induction false} SummarySound(e: Node)
    requires e.Element?
    ensures Sound(Summarize(e))
    decreases e, 0
  {
    SummariesSound(e.children);
  }

  lemma {:induction false} SummariesSound(ns: seq<Node>)
    ensures SoundAll(SummarizeElements(ns))
    decreases ns, 1
  {
    if ns != [] {
      SummariesSound(ns[1..]);
      if ns[0].Element? {
        SummarySound(ns[0]);
        var rest := SummarizeElements(ns[1..]);
        assert ([Summarize(ns[0])] + rest)[1..] == rest;
      } else {
        assert SummarizeElements(ns) == SummarizeElements(ns[1..]);
      }
    }
  }

  lemma {:induction false} EncodeInjective(a: Summary, b: Summary)
    requires Encode(a) == Encode(b) && Sound(a) && Sound(b)
    ensures a == b
    decreases a, 0
  {
    EncodeParts(a, b);
    if a.attributes.Some? {
      MembersInjective(a.attributes.value, b.attributes.value);
    }
    if a.hasChildren {
      EncodeAllInjective(a.children, b.children);
    }
  }

  lemma {:induction false} EncodeAllInjective(a: seq<Summary>, b: seq<Summary>)
    requires EncodeAll(a) == EncodeAll(b) && SoundAll(a) && SoundAll(b)
    ensures a == b
    decreases a, 1
  {
    if a != [] && b != [] {
      assert EncodeAll(a)[0] == EncodeAll(b)[0];
      assert EncodeAll(a)[1..] == EncodeAll(a[1..]) && EncodeAll(b)[1..] == EncodeAll(b[1..]);
      EncodeInjective(a[0], b[0]);
      EncodeAllInjective(a[1..], b[1..]);
      assert a == [a[0]] + a[1..] && b == [b[0]] + b[1..];
    }
  }

  /** Reading printed JSON gives back the encoded summary; a strict reader accepts it
      exactly when every string shown is free of control characters without a short escape. */
  lemma JsonRoundTrip(e: Node, strict: bool)
    requires e.Element?
    ensures ReadJson(PrintJson(e), strict)
         == if strict && !CleanJson(Encode(Summarize(e))) then Fail else Got(Encode(Summarize(e)), "")
  {
    ReadRendered(Encode(Summarize(e)), "", strict);
    assert PrintJson(e) + "" == PrintJson(e);
  }

  /** Two elements print alike exactly when they agree on everything that is shown. */
  lemma JsonInjective(e1: Node, e2: Node)
    requires e1.Element? && e2.Element?
    ensures PrintJson(e1) == PrintJson(e2) <==> Summarize(e1) == Summarize(e2)
  {
    if PrintJson(e1) == PrintJson(e2) {
      JsonRoundTrip(e1, false);
      JsonRoundTrip(e2, false);
      SummarySound(e1);
      SummarySound(e2);
      EncodeInjective(Summarize(e1), Summarize(e2));
    }
  }

  function WithText(text: string): Node {
    Element(Some("a"), [], None, None, [], Some(text), [])
  }

  lemma TextMembers(text: string)
    requires text != ""
    ensures Encode(Summarize(WithText(text))) == JObject([("name", JString("a")), ("text", JString(text))])
  {
  }

  lemma NamesClean()
    ensures CleanString("text") && CleanMember(("name", JString("a")))
  {
  }

  lemma TextClean(text: string)
    requires text != ""
    ensures CleanJson(Encode(Summarize(WithText(text)))) <==> CleanString(text)
  {
    var name, m := ("name", JString("a")), ("text", JString(text));
    TextMembers(text);
    assert [name, m][1..] == [m] && [m][1..] == [];
    NamesClean();
    assert CleanMember(m) <==> CleanString(text);
    assert CleanMembers([name, m]) <==> CleanMembers([m]);
    assert CleanMembers([m]) <==> CleanMember(m);
  }

  /** A text with a raw control character makes the whole output unreadable to a strict
      reader, though a lenient one still gets it back. */
  lemma RawControlCharacter()
    ensures ReadJson(PrintJson(WithText("\U{1}")), true) == Fail
    ensures ReadJson(PrintJson(WithText("\U{1}")), false) == Got(Encode(Summarize(WithText("\U{1}"))), "")
  {
    var text := "\U{1}";
    assert !CleanChar(text[0]);
    TextClean(text);
    JsonRoundTrip(WithText(text), true);
    JsonRoundTrip(WithText(text), false);
  }
}
