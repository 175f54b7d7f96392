/** How single characters and numbers are spelled in the output: what readers alone do not
    settle, because they would accept another spelling too. */
module Spelling {
  import opened Common
  import XmlPrinter
  import JsonReader
  import BoundedEscape
  import EmitArray
  import DocumentTree
  import JsonPrinter

  lemma {:induction false} AttributeSpelling(v: string)
    ensures forall c | c in Escaped(XmlPrinter.EscapeAttrChar, v) :: c !in "<>\"'"
  {
    if v != "" {
      AttributeSpelling(v[1..]);
      assert forall c | c in XmlPrinter.EscapeAttrChar(v[0]) :: c !in "<>\"'";
    }
  }

  /** In printed text, angle brackets are always escaped. */
  lemma {:induction false} TextSpelling(v: string)
    ensures forall c | c in Escaped(XmlPrinter.EscapeTextChar, v) :: c != '<' && c != '>'
  {
    if v != "" {
      TextSpelling(v[1..]);
      assert forall c | c in XmlPrinter.EscapeTextChar(v[0]) :: c != '<' && c != '>';
    }
  }

  /** And a text without them and without ampersands is printed as it is. */
  lemma {:induction false} PlainText(v: string)
    requires forall c | c in v :: c != '<' && c != '>' && c != '&'
    ensures Escaped(XmlPrinter.EscapeTextChar, v) == v
  {
    if v != "" {
      assert v[0] in v && forall c | c in v[1..] :: c in v;
      PlainText(v[1..]);
      assert v == [v[0]] + v[1..];
    }
  }

  /** JSON strings: five control characters and two marks have an escape of two characters,
      and every other character is written as it is, the other control characters included. */
  lemma JsonSpelling(c: char)
    ensures var two := c in "\"\\\n\r\t" || c == '\U{8}' || c == '\U{C}';
            && (two ==> |JsonReader.EscapeJsonChar(c)| == 2) && (!two ==> JsonReader.EscapeJsonChar(c) == [c])
            && (JsonReader.CleanChar(c) <==> two || c >= ' ')
  {
  }

  /** The bounded escaper has fewer short escapes, and six characters for every other control
      character. */
  lemma BoundedSpelling(c: char)
    ensures |BoundedEscape.EscapeByte(c)| == if c in "\"\\\n\r\t" then 2 else if c < ' ' then 6 else 1
  {
  }

  lemma NumberSpelling()
    ensures EmitArray.Formatted(EmitArray.Hex, 0x17000) == "0x17000"
    ensures EmitArray.Formatted(EmitArray.Hex4, 0xAB) == "0x00AB"
    ensures EmitArray.Formatted(EmitArray.Decimal, 160) == "160"
  {
    assert EmitArray.Digits(0x17, EmitArray.Sixteen) == "17";
    assert EmitArray.Digits(0x170, EmitArray.Sixteen) == "170";
    assert EmitArray.Digits(0x1700, EmitArray.Sixteen) == "1700";
    assert EmitArray.Digits(0x17000, EmitArray.Sixteen) == "17000";
    assert EmitArray.Digits(0xAB, EmitArray.Sixteen) == "AB";
    assert EmitArray.Zeros(2) == "00";
    assert EmitArray.Digits(16, EmitArray.Ten) == "16";
    assert EmitArray.Digits(160, EmitArray.Ten) == "160";
  }

  lemma SampleRows(fmt: nat -> string)
    requires fmt(7) == "7" && fmt(8) == "8" && fmt(9) == "9"
    ensures EmitArray.RowText(fmt, [7, 8]) == "    7,8,\n" && EmitArray.RowText(fmt, [9]) == "    9,\n"
  {
    assert [7, 8][..1] == [7] && EmitArray.Joined(fmt, [7]) == "7" && EmitArray.Joined(fmt, [9]) == "9";
    assert EmitArray.Joined(fmt, [7, 8]) == "7,8";
  }

  lemma SampleChunks()
    ensures EmitArray.Rows([7, 8, 9], 2) == [[7, 8], [9]]
  {
    var vals := [7, 8, 9];
    assert vals[0..2] == [7, 8] && vals[2..3] == [9];
    assert EmitArray.RowsFrom(vals, 4, 2) == [];
    assert EmitArray.RowsFrom(vals, 2, 2) == [[9]];
  }

  /** The layout of the rows of an emitted array: four spaces, a comma behind every value. */
  lemma ArraySample()
    ensures var fmt := EmitArray.Conversion(EmitArray.Decimal);
            EmitArray.RowsText(fmt, EmitArray.Rows([7, 8, 9], 2)) == "    7,8,\n" + ("    9,\n" + "")
  {
    var fmt := EmitArray.Conversion(EmitArray.Decimal);
    SampleRows(fmt);
    SampleChunks();
    assert [[7, 8], [9]][1..] == [[9]] && [[9]][1..] == [];
    assert EmitArray.RowsText(fmt, [[9]]) == "    9,\n" + "";
  }

  const SAMPLE := DocumentTree.Element(Some("a"), [DocumentTree.Attribute(Some("x"), Some("1"))], None, None, [],
                                       None, [])

  /** The spaces around attributes, and the absence of spaces in JSON. */
  lemma XmlSample()
    ensures XmlPrinter.PrintElement(SAMPLE, 0, XmlPrinter.XmlOptions(0, false)) == "<a x=\"1\"/>"
  {
    assert Escaped(XmlPrinter.EscapeAttrChar, "1") == "1" by {
      assert "1"[1..] == "";
    }
    assert XmlPrinter.PrintAttribute(SAMPLE.attributes[0]) == " x=\"1\"";
    assert SAMPLE.attributes[1..] == [];
    assert XmlPrinter.PrintAttributes(SAMPLE.attributes) == " x=\"1\"";
    assert XmlPrinter.OpenTag(SAMPLE) == "<a x=\"1\"";
  }

  lemma PlainMember(key: string, text: string)
    requires forall i | 0 <= i < |key| :: |JsonReader.EscapeJsonChar(key[i])| == 1
    requires forall i | 0 <= i < |text| :: |JsonReader.EscapeJsonChar(text[i])| == 1
    ensures JsonReader.RenderMember((key, JsonReader.JString(text)))
         == "\"" + key + "\"" + ":" + ("\"" + text + "\"")
  {
    JsonPrinter.PlainEscaped(key);
    JsonPrinter.PlainEscaped(text);
  }

  lemma TwoMembers(a: (string, JsonReader.Json), b: (string, JsonReader.Json))
    ensures JsonReader.Render(JsonReader.JObject([a, b]))
         == "{" + (JsonReader.RenderMember(a) + ("," + JsonReader.RenderMember(b))) + "}"
  {
    assert [a, b][1..] == [b] && [b][1..] == [];
    assert JsonReader.RenderMembers([b]) == JsonReader.RenderMember(b) + "" == JsonReader.RenderMember(b);
  }

  lemma JsonSample()
    ensures JsonPrinter.PrintJson(JsonPrinter.WithText("t"))
         == "{" + ("\"" + "name" + "\"" + ":" + ("\"" + "a" + "\"")
                   + ("," + ("\"" + "text" + "\"" + ":" + ("\"" + "t" + "\"")))) + "}"
  {
    JsonPrinter.TextMembers("t");
    TwoMembers(("name", JsonReader.JString("a")), ("text", JsonReader.JString("t")));
    PlainMember("name", "a");
    PlainMember("text", "t");
  }
}
