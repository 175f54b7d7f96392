/** Reading back a printed start tag: its name, its attributes and its namespaces. */
module XmlStartTag {
  import opened Common
  import opened DocumentTree
  import opened XmlPrinter
  import opened XmlReader
  import opened XmlShown

  lemma {:induction false} NameRunOfName(s: string, rest: string)
    requires forall c | c in s :: IsNameChar(c)
    requires rest == "" || !IsNameChar(rest[0])
    ensures NameRun(s + rest) == |s|
  {
    if s == "" {
      assert s + rest == rest;
    } else {
      assert (s + rest)[0] == s[0] && (s + rest)[1..] == s[1..] + rest;
      NameRunOfName(s[1..], rest);
    }
  }

  lemma ReadNamePrinted(s: string, rest: string)
    requires IsName(s)
    requires rest == "" || !IsNameChar(rest[0])
    ensures ReadName(s + rest) == Got(s, rest)
  {
    NameRunOfName(s, rest);
    assert (s + rest)[..|s|] == s && (s + rest)[|s|..] == rest;
  }

  lemma StartsOtherwise(p: string, s: string, i: nat)
    requires i < |p| && i < |s| && p[i] != s[i]
    ensures !(p <= s)
  {
  }

  lemma ReadEntityPrinted(c: char, more: string)
    requires |EscapeAttrChar(c)| > 1
    ensures ReadEntity(EscapeAttrChar(c)[1..] + more) == Got(c, more)
  {
    var e := EscapeAttrChar(c)[1..];
    var s := e + more;
    assert s[..|e|] == e && s[|e|..] == more;
    if c != '<' {
      StartsOtherwise("lt;", s, 0);
    }
    if c != '<' && c != '>' {
      StartsOtherwise("gt;", s, 0);
    }
    if c == '"' || c == '\'' {
      StartsOtherwise("amp;", s, if c == '"' then 0 else 1);
    }
    if c == '\'' {
      StartsOtherwise("quot;", s, 0);
    }
  }

  lemma ReadValueEntity(s: string, c: char, more: string)
    requires s != "" && s[0] == '&' && ReadEntity(s[1..]) == Got(c, more)
    ensures var r := ReadValue(more, '"');
            ReadValue(s, '"') == if r.Fail? then Fail else Got([c] + r.value, r.rest)
  {
  }

  lemma ReadValueChar(c: char, more: string)
    ensures var r := ReadValue(more, '"');
            ReadValue(EscapeAttrChar(c) + more, '"') == if r.Fail? then Fail else Got([c] + r.value, r.rest)
  {
    var e := EscapeAttrChar(c);
    if |e| == 1 {
      assert (e + more)[1..] == more;
    } else {
      assert (e + more)[0] == '&' && (e + more)[1..] == e[1..] + more;
      ReadEntityPrinted(c, more);
      ReadValueEntity(e + more, c, more);
    }
  }

  lemma {:induction false} ReadValueEscaped(v: string, rest: string)
    ensures ReadValue(Escaped(EscapeAttrChar, v) + ("\"" + rest), '"') == Got(v, rest)
  {
    var tail := "\"" + rest;
    if v == "" {
      assert Escaped(EscapeAttrChar, v) + tail == tail;
      assert tail[1..] == rest;
    } else {
      ReadValueEscaped(v[1..], rest);
      ReadValueChar(v[0], Escaped(EscapeAttrChar, v[1..]) + tail);
      Assoc(EscapeAttrChar(v[0]), Escaped(EscapeAttrChar, v[1..]), tail);
      assert [v[0]] + v[1..] == v;
    }
  }

  lemma {:induction false} ReadValueClean(v: string, rest: string)
    requires CleanUri(v)
    ensures ReadValue(v + ("\"" + rest), '"') == Got(v, rest)
  {
    var tail := "\"" + rest;
    if v == "" {
      assert v + tail == tail;
      assert tail[1..] == rest;
    } else {
      assert IsUriChar(v[0]) && CleanUri(v[1..]) by {
        assert v[0] in v && forall c | c in v[1..] :: c in v;
      }
      assert (v + tail)[0] == v[0] && (v + tail)[1..] == v[1..] + tail;
      ReadValueClean(v[1..], rest);
      assert [v[0]] + v[1..] == v;
    }
  }

  /** An attribute as it is printed, before the text `tail`. */
  function AttributeText(name: string, raw: string, tail: string): string {
    " " + (name + ("=" + ("\"" + (raw + ("\"" + tail)))))
  }

  lemma AttributeTextGroups(name: string, raw: string, tail: string)
    ensures " " + name + "=\"" + raw + "\"" + tail == AttributeText(name, raw, tail)
  {
  }

  lemma ReadAttributesStep(s: string, name: string, quoted: string, value: string, tail: string)
    requires s == " " + (name + ("=" + ("\"" + quoted)))
    requires ReadName(name + ("=" + ("\"" + quoted))) == Got(name, "=" + ("\"" + quoted))
    requires ReadValue(quoted, '"') == Got(value, tail)
    requires ReadAttributes(tail).Got?
    ensures ReadAttributes(s)
         == Got([(name, value)] + ReadAttributes(tail).value, ReadAttributes(tail).rest)
  {
    var eq := "=" + ("\"" + quoted);
    var t := name + eq;
    assert s[1..] == t && SkipSpace(s) == t;
    assert eq[1..] == "\"" + quoted;
    assert ("\"" + quoted)[1..] == quoted;
  }

  /** One printed attribute, followed by a text that reads as further attributes. */
  lemma ReadOneAttribute(name: string, raw: string, value: string, tail: string)
    requires IsName(name)
    requires ReadValue(raw + ("\"" + tail), '"') == Got(value, tail)
    requires ReadAttributes(tail).Got?
    ensures ReadAttributes(AttributeText(name, raw, tail))
         == Got([(name, value)] + ReadAttributes(tail).value, ReadAttributes(tail).rest)
  {
    var quoted := raw + ("\"" + tail);
    ReadNamePrinted(name, "=" + ("\"" + quoted));
    ReadAttributesStep(AttributeText(name, raw, tail), name, quoted, value, tail);
  }

  lemma {:induction false} ReadAttributesPrinted(attrs: seq<Attribute>, tail: string)
    requires ReadAttributes(tail).Got?
    requires AllNames(ShownAttributes(attrs))
    ensures ReadAttributes(PrintAttributes(attrs) + tail)
         == Got(ShownAttributes(attrs) + ReadAttributes(tail).value, ReadAttributes(tail).rest)
  {
    var r := ReadAttributes(tail);
    if attrs == [] {
      assert PrintAttributes(attrs) + tail == tail;
      assert ShownAttributes(attrs) + r.value == r.value;
    } else {
      var head := if HasName(attrs[0]) then PrintAttribute(attrs[0]) else "";
      var shown := if HasName(attrs[0]) then [(attrs[0].name.value, attrs[0].value.GetOr(""))] else [];
      var others := ShownAttributes(attrs[1..]);
      NamesOfParts(shown, others);
      ReadAttributesPrinted(attrs[1..], tail);
      Assoc(head, PrintAttributes(attrs[1..]), tail);
      Assoc(shown, others, r.value);
      var more := PrintAttributes(attrs[1..]) + tail;
      assert ReadAttributes(head + more) == Got(shown + (others + r.value), r.rest) by {
        if HasName(attrs[0]) {
          ReadAttributePrinted(attrs[0], more);
        } else {
          assert head + more == more && shown + (others + r.value) == others + r.value;
        }
      }
    }
  }

  predicate AllNames(attrs: seq<(string, string)>) {
    forall a | a in attrs :: IsName(a.0)
  }

  lemma NamesOfParts(a: seq<(string, string)>, b: seq<(string, string)>)
    requires AllNames(a + b)
    ensures AllNames(a) && AllNames(b)
    ensures |a| == 1 ==> IsName(a[0].0)
  {
  }

  lemma ReadAttributePrinted(a: Attribute, tail: string)
    requires HasName(a) && IsName(a.name.value)
    requires ReadAttributes(tail).Got?
    ensures ReadAttributes(PrintAttribute(a) + tail)
         == Got([(a.name.value, a.value.GetOr(""))] + ReadAttributes(tail).value, ReadAttributes(tail).rest)
  {
    var raw := Escaped(EscapeAttrChar, a.value.GetOr(""));
    ReadValueEscaped(a.value.GetOr(""), tail);
    ReadOneAttribute(a.name.value, raw, a.value.GetOr(""), tail);
    AttributeTextGroups(a.name.value, raw, tail);
  }

  lemma ReadXmlnsPrinted(prefix: Option<string>, uri: string, tail: string)
    requires ReadAttributes(tail).Got?
    requires IsName(XmlnsName(prefix)) && CleanUri(uri)
    ensures ReadAttributes(PrintXmlns(prefix, uri) + tail)
         == Got([(XmlnsName(prefix), uri)] + ReadAttributes(tail).value, ReadAttributes(tail).rest)
  {
    ReadValueClean(uri, tail);
    ReadOneAttribute(XmlnsName(prefix), uri, uri, tail);
    AttributeTextGroups(XmlnsName(prefix), uri, tail);
    Assoc(" ", "xmlns", if prefix.Some? then ":" + prefix.value else "");
    assert " xmlns" == " " + "xmlns";
  }

  lemma {:induction false} ReadDeclsPrinted(decls: seq<NamespaceDecl>, tail: string)
    requires ReadAttributes(tail).Got?
    requires AllNames(ShownDecls(decls))
    requires forall d | d in decls :: CleanUri(d.uri.GetOr(""))
    ensures ReadAttributes(PrintDecls(decls) + tail)
         == Got(ShownDecls(decls) + ReadAttributes(tail).value, ReadAttributes(tail).rest)
  {
    if decls == [] {
      assert PrintDecls(decls) + tail == tail;
      assert ShownDecls(decls) + ReadAttributes(tail).value == ReadAttributes(tail).value;
    } else {
      var d, others := decls[0], ShownDecls(decls[1..]);
      var shown := (XmlnsName(d.prefix), d.uri.GetOr(""));
      assert d in decls;
      NamesOfParts([shown], others);
      ReadDeclsPrinted(decls[1..], tail);
      ReadXmlnsPrinted(d.prefix, d.uri.GetOr(""), PrintDecls(decls[1..]) + tail);
      Assoc(PrintXmlns(d.prefix, d.uri.GetOr("")), PrintDecls(decls[1..]), tail);
      Assoc([shown], others, ReadAttributes(tail).value);
    }
  }

  /** All the attributes of a start tag, as printed before `tail`. */
  function AttributesText(e: Node, tail: string): string
    requires e.Element?
  {
    PrintAttributes(e.attributes) + (PrintNamespace(e) + (PrintDecls(e.nsDecls) + tail))
  }

  lemma ReadAllAttributes(e: Node, tail: string)
    requires e.Element? && AllNames(AllAttributes(e)) && CleanUris(e)
    requires ReadAttributes(tail) == Got([], tail)
    ensures ReadAttributes(AttributesText(e, tail)) == Got(AllAttributes(e), tail)
  {
    NamesOfParts(ShownAttributes(e.attributes), ShownNamespace(e) + ShownDecls(e.nsDecls));
    NamesOfParts(ShownNamespace(e), ShownDecls(e.nsDecls));
    ReadDeclsPrinted(e.nsDecls, tail);
    assert ShownDecls(e.nsDecls) + [] == ShownDecls(e.nsDecls);
    var decls := PrintDecls(e.nsDecls) + tail;
    if e.nsUri.Some? {
      ReadXmlnsPrinted(e.nsPrefix, e.nsUri.value, decls);
    } else {
      assert PrintNamespace(e) + decls == decls;
      assert ShownNamespace(e) + ShownDecls(e.nsDecls) == ShownDecls(e.nsDecls);
    }
    ReadAttributesPrinted(e.attributes, PrintNamespace(e) + decls);
  }

  lemma {:induction false} AttributesBlankOrSpace(attrs: seq<Attribute>)
    ensures PrintAttributes(attrs) == "" || PrintAttributes(attrs)[0] == ' '
  {
    if attrs != [] {
      AttributesBlankOrSpace(attrs[1..]);
    }
  }

  lemma AttributesStartWithSpace(e: Node, tail: string)
    requires e.Element?
    requires tail != "" && (tail[0] == '/' || tail[0] == '>')
    ensures AttributesText(e, tail) != "" && AttributesText(e, tail)[0] in " />"
  {
    AttributesBlankOrSpace(e.attributes);
    assert PrintDecls(e.nsDecls) == "" || PrintDecls(e.nsDecls)[0] == ' ';
    assert PrintNamespace(e) == "" || PrintNamespace(e)[0] == ' ';
  }

  lemma OpenTagGroups(e: Node, tail: string)
    requires e.Element?
    ensures OpenTag(e) + tail == "<" + (e.name.GetOr("") + AttributesText(e, tail))
  {
    var name, a, n, d := e.name.GetOr(""), PrintAttributes(e.attributes), PrintNamespace(e), PrintDecls(e.nsDecls);
    Assoc("<" + name + a + n, d, tail);
    Assoc("<" + name + a, n, d + tail);
    Assoc("<" + name, a, n + (d + tail));
    Assoc("<", name, a + (n + (d + tail)));
  }

  /** A printed start tag gives back the name and all the attributes. */
  lemma ReadOpenTag(e: Node, tail: string)
    requires e.Element? && IsName(e.name.GetOr("")) && AllNames(AllAttributes(e)) && CleanUris(e)
    requires tail != "" && (tail[0] == '/' || tail[0] == '>')
    ensures OpenTag(e) + tail == "<" + (e.name.GetOr("") + AttributesText(e, tail))
    ensures ReadName(e.name.GetOr("") + AttributesText(e, tail)) == Got(e.name.GetOr(""), AttributesText(e, tail))
    ensures ReadAttributes(AttributesText(e, tail)) == Got(AllAttributes(e), tail)
  {
    OpenTagGroups(e, tail);
    AttributesStartWithSpace(e, tail);
    ReadNamePrinted(e.name.GetOr(""), AttributesText(e, tail));
    ReadAllAttributes(e, tail);
  }
}
