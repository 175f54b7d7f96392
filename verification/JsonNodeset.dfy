/** The JSON node-set printer, which puts the results of a query into one array. For an
    element result whose node is no element it prints the separators and nothing else. */
module JsonNodeset {
  import opened Common
  import opened DocumentTree
  import opened JsonReader
  import opened JsonPrinter

  /** A result, by the kind the library reports; a NULL node is `None`. */
  datatype ResultNode =
    | AttributeResult(name: Option<string>, value: Option<string>)
    | TextResult(content: Option<string>)
    | ElementResult(node: Option<Node>)
    | OtherResult

  function StringOrNull(s: Option<string>): Json {
    if s.Some? then JString(s.value) else JNull
  }

  /** The value that stands for a result; `None` where nothing is printed. */
  function EncodeResult(r: ResultNode): Option<Json> {
    match r
    case AttributeResult(name, value) => Some(JObject([(name.GetOr(""), StringOrNull(value))]))
    case TextResult(content) => Some(StringOrNull(content))
    case ElementResult(Some(e)) => if e.Element? then Some(Encode(Summarize(e))) else None
    case ElementResult(None) => None
    case OtherResult => Some(JNull)
  }

  predicate AllPrinted(rs: seq<ResultNode>) {
    rs == [] || (EncodeResult(rs[0]).Some? && AllPrinted(rs[1..]))
  }

  function EncodeResults(rs: seq<ResultNode>): seq<Json> {
    if rs == [] then [] else [EncodeResult(rs[0]).GetOr(JNull)] + EncodeResults(rs[1..])
  }

  function ResultText(r: ResultNode): string {
    var j := EncodeResult(r);
    if j.Some? then Render(j.value) else ""
  }

  function ResultsText(rs: seq<ResultNode>): string {
    if rs == [] then ""
    else ResultText(rs[0]) + if |rs| == 1 then "" else "," + ResultsText(rs[1..])
  }

  function NodesetText(rs: seq<ResultNode>): string {
    "[" + ResultsText(rs) + "]\n"
  }

  // ----- the procedures -----

  method WriteStringOrNull(s: Option<string>, out: Stream)
    modifies out
    ensures out.contents == old(out.contents) + Render(StringOrNull(s))
  {
    if s.Some? {
      WriteQuoted(s.value, out);
    } else {
      out.Write("null");
    }
  }

  method WriteAttributeResult(name: Option<string>, value: Option<string>, out: Stream)
    modifies out
    ensures out.contents == old(out.contents) + Render(JObject([(name.GetOr(""), StringOrNull(value))]))
  {
    ghost var pre, key, v := out.contents, RenderString(name.GetOr("")), Render(StringOrNull(value));
    out.Write("{");
    WriteQuoted(name.GetOr(""), out);
    Assoc(pre, "{", key);
    out.Write(":");
    Assoc(pre, "{" + key, ":");
    WriteStringOrNull(value, out);
    Assoc(pre, "{" + key + ":", v);
    out.Write("}");
    Assoc(pre, "{" + key + ":" + v, "}");
    OneMember(name.GetOr(""), StringOrNull(value));
  }

  lemma OneMember(key: string, value: Json)
    ensures Render(JObject([(key, value)])) == "{" + RenderString(key) + ":" + Render(value) + "}"
  {
    var member := RenderMember((key, value));
    assert RenderMembers([(key, value)]) == member + "" == member;
    Assoc("{", RenderString(key), ":");
    Assoc("{", RenderString(key) + ":", Render(value));
  }

  method WriteResult(r: ResultNode, out: Stream)
    modifies out
    ensures out.contents == old(out.contents) + ResultText(r)
  {
    match r
    case AttributeResult(name, value) => WriteAttributeResult(name, value, out);
    case TextResult(content) => WriteStringOrNull(content, out);
    case ElementResult(node) =>
      if node.Some? && node.value.Element? {
        WriteJsonElement(node.value, out);
      }
    case OtherResult => out.Write("null");
  }

  function Item(rs: seq<ResultNode>, i: nat): string
    requires i < |rs|
  {
    (if i > 0 then "," else "") + ResultText(rs[i])
  }

  /** What the loop at index `i` has still to print. */
  function Remaining(rs: seq<ResultNode>, i: nat): string
    requires i <= |rs|
    decreases |rs| - i
  {
    if i == |rs| then "" else Item(rs, i) + Remaining(rs, i + 1)
  }

  lemma {:induction false} RemainingResults(rs: seq<ResultNode>, i: nat)
    requires i < |rs|
    ensures Remaining(rs, i) == (if i > 0 then "," else "") + ResultsText(rs[i..])
    decreases |rs| - i
  {
    var comma, text := if i > 0 then "," else "", ResultText(rs[i]);
    assert rs[i..][0] == rs[i] && rs[i..][1..] == rs[i + 1..];
    if i + 1 < |rs| {
      RemainingResults(rs, i + 1);
    }
    Assoc(comma, text, Remaining(rs, i + 1));
  }

  method WriteNodeset(rs: seq<ResultNode>, out: Stream)
    modifies out
    ensures out.contents == old(out.contents) + NodesetText(rs)
  {
    ghost var pre := out.contents;
    out.Write("[");
    WriteItems(rs, out);
    Assoc(pre, "[", ResultsText(rs));
    out.Write("]\n");
    Assoc(pre, "[" + ResultsText(rs), "]\n");
  }

  method WriteItem(rs: seq<ResultNode>, i: nat, out: Stream)
    requires i < |rs|
    modifies out
    ensures out.contents == old(out.contents) + Item(rs, i)
  {
    if i > 0 {
      out.Write(",");
      Assoc(old(out.contents), ",", ResultText(rs[i]));
    } else {
      assert "" + ResultText(rs[i]) == ResultText(rs[i]);
    }
    WriteResult(rs[i], out);
  }

  method WriteItems(rs: seq<ResultNode>, out: Stream)
    modifies out
    ensures out.contents == old(out.contents) + ResultsText(rs)
  {
    if rs != [] {
      RemainingResults(rs, 0);
      assert rs[0..] == rs;
    }
    var i := 0;
    while i < |rs|
      invariant i <= |rs|
      invariant out.contents + Remaining(rs, i) == old(out.contents) + ResultsText(rs)
    {
      Assoc(out.contents, Item(rs, i), Remaining(rs, i + 1));
      WriteItem(rs, i, out);
      i := i + 1;
    }
  }

  // ----- reading it back -----

  lemma {:induction false} PrintedResults(rs: seq<ResultNode>)
    requires AllPrinted(rs)
    ensures ResultsText(rs) == RenderItems(EncodeResults(rs))
  {
    if rs != [] {
      PrintedResults(rs[1..]);
      var items := EncodeResults(rs);
      assert items[0] == EncodeResult(rs[0]).value && items[1..] == EncodeResults(rs[1..]);
      assert |rs| == 1 <==> EncodeResults(rs[1..]) == [];
    }
  }

  /** Where nothing stands for a result, no item can be read. */
  lemma {:induction false} MissingResultFails(rs: seq<ResultNode>, rest: string, strict: bool)
    requires rs != [] && !AllPrinted(rs)
    ensures ReadItems(ResultsText(rs) + ("]" + rest), strict) == Fail
  {
    var tail := "]" + rest;
    if EncodeResult(rs[0]).None? {
      var s := ResultsText(rs) + tail;
      assert s[0] == ',' || s[0] == ']';
    } else {
      var j, more := EncodeResult(rs[0]).value, ResultsText(rs[1..]) + tail;
      Assoc(Render(j), "," + ResultsText(rs[1..]), tail);
      Assoc(",", ResultsText(rs[1..]), tail);
      ReadRendered(j, "," + more, strict);
      MissingResultFails(rs[1..], rest, strict);
      assert ("," + more)[1..] == more;
    }
  }

  lemma NodesetGroups(rs: seq<ResultNode>)
    ensures NodesetText(rs)[1..] == ResultsText(rs) + ("]" + "\n")
    ensures NodesetText(rs) == "[" + ResultsText(rs) + "]" + "\n"
  {
    var text := ResultsText(rs);
    assert "]\n" == "]" + "\n";
    Assoc("[" + text, "]", "\n");
    Assoc("[", text, "]\n");
    assert ("[" + (text + "]\n"))[1..] == text + "]\n";
  }

  lemma StartOfResults(rs: seq<ResultNode>, tail: string)
    requires rs != [] && (EncodeResult(rs[0]).Some? || |rs| > 1)
    ensures var s := ResultsText(rs) + tail;
            s != "" && !StartsWith(s, ']') && SkipSpace(s) == s
  {
    var more := if |rs| == 1 then "" else "," + ResultsText(rs[1..]);
    Assoc(ResultText(rs[0]), more, tail);
    StartOfResult(rs[0], more + tail);
  }

  lemma StartOfResult(r: ResultNode, rest: string)
    requires EncodeResult(r).Some? || StartsWith(rest, ',')
    ensures var s := ResultText(r) + rest;
            s != "" && !StartsWith(s, ']') && SkipSpace(s) == s
  {
    if EncodeResult(r).Some? {
      RenderStarts(EncodeResult(r).value, rest);
    } else {
      assert "" + rest == rest;
    }
  }

  lemma OnlyMissing(rs: seq<ResultNode>)
    requires |rs| == 1 && !AllPrinted(rs)
    ensures NodesetText(rs) == "[]\n"
  {
    assert rs[1..] == [] && AllPrinted([]);
    assert EncodeResult(rs[0]).None?;
    assert ResultText(rs[0]) == "";
    assert ResultsText(rs) == "";
  }

  /** What any reader makes of a printed node set: the array of the results, if all of them
      are printed and, for a strict reader, no raw control character is among them; an empty
      array, if the only result prints nothing; and nothing at all in all other cases. */
  lemma NodesetRoundTrip(rs: seq<ResultNode>, strict: bool)
    ensures ReadJson(NodesetText(rs), strict)
         == if !AllPrinted(rs) then (if |rs| == 1 then Got(JArray([]), "\n") else Fail)
            else if strict && !CleanItems(EncodeResults(rs)) then Fail
            else Got(JArray(EncodeResults(rs)), "\n")
  {
    NodesetGroups(rs);
    if AllPrinted(rs) {
      PrintedResults(rs);
      ReadRendered(JArray(EncodeResults(rs)), "\n", strict);
    } else {
      var s := NodesetText(rs)[1..];
      if |rs| == 1 {
        OnlyMissing(rs);
        assert s == "]\n" && s[1..] == "\n";
      } else {
        StartOfResults(rs, "]" + "\n");
        MissingResultFails(rs, "\n", strict);
      }
      assert SkipSpace(NodesetText(rs)) == NodesetText(rs);
    }
  }
}
