/** A reference reader for elements, after XML 1.0 (Fifth Edition): sections 2.3 (names
    and white space), 2.4 (character data), 2.5 (comments), 2.6 (processing
    instructions), 2.7 (CDATA sections), 3.1 (tags and attributes) and 4.6 (the five
    predefined entities). It applies neither the end-of-line handling of section 2.11
    nor the attribute-value normalization of section 3.3.3, knows no other entity, and
    does not restrict characters beyond what delimits the constructs above. */
module XmlReader {
  import opened Common

  datatype Item =
    | Elem(name: string, attributes: seq<(string, string)>, content: seq<Item>)
    | Chars(text: string)
    | CDataSection(text: string)
    | CommentItem(text: string)
    | Instruction(target: string, data: Option<string>)

  // ----- section 2.3 -----

  predicate IsNameStart(c: char) {
    || c == ':' || c == '_' || 'A' <= c <= 'Z' || 'a' <= c <= 'z'
    || '\U{C0}' <= c <= '\U{D6}' || '\U{D8}' <= c <= '\U{F6}' || '\U{F8}' <= c <= '\U{2FF}'
    || '\U{370}' <= c <= '\U{37D}' || '\U{37F}' <= c <= '\U{1FFF}' || '\U{200C}' <= c <= '\U{200D}'
    || '\U{2070}' <= c <= '\U{218F}' || '\U{2C00}' <= c <= '\U{2FEF}' || '\U{3001}' <= c <= '\U{D7FF}'
    || '\U{F900}' <= c <= '\U{FDCF}' || '\U{FDF0}' <= c <= '\U{FFFD}' || '\U{10000}' <= c <= '\U{EFFFF}'
  }

  predicate IsNameChar(c: char) {
    || IsNameStart(c) || c == '-' || c == '.' || '0' <= c <= '9' || c == '\U{B7}'
    || '\U{300}' <= c <= '\U{36F}' || '\U{203F}' <= c <= '\U{2040}'
  }

  predicate IsName(s: string) {
    s != "" && IsNameStart(s[0]) && forall c | c in s :: IsNameChar(c)
  }

  /** The target name that section 2.6 reserves, in any mix of cases. */
  predicate IsReserved(s: string) {
    |s| == 3 && s[0] in "xX" && s[1] in "mM" && s[2] in "lL"
  }

  // ----- what a reader may return -----

  predicate DistinctNames(attrs: seq<(string, string)>) {
    forall i, j :: 0 <= i < j < |attrs| ==> attrs[i].0 != attrs[j].0
  }

  predicate LegalComment(s: string) {
    !Contains(s, "--") && (s == "" || s[|s| - 1] != '-')
  }

  predicate LegalData(d: Option<string>) {
    d.Some? ==> d.value != "" && !IsSpace(d.value[0]) && !Contains(d.value, "?>")
  }

  predicate LegalAttributes(attrs: seq<(string, string)>) {
    DistinctNames(attrs) && forall a | a in attrs :: IsName(a.0)
  }

  predicate WellFormed(i: Item)
    decreases i, 0
  {
    match i
    case Elem(name, attrs, content) => IsName(name) && LegalAttributes(attrs) && WellFormedAll(content)
    case Chars(t) => true
    case CDataSection(t) => !Contains(t, "]]>")
    case CommentItem(t) => LegalComment(t)
    case Instruction(target, data) => IsName(target) && !IsReserved(target) && LegalData(data)
  }

  predicate WellFormedAll(items: seq<Item>)
    decreases items, 1
  {
    items == [] || (WellFormed(items[0]) && WellFormedAll(items[1..]))
  }

  /** Puts character data before some content, joining it to data that is already there. */
  function AttachText(t: string, items: seq<Item>): (r: seq<Item>)
    ensures WellFormedAll(r) <==> WellFormedAll(items)
  {
    if t == "" then items
    else if items != [] && items[0].Chars? then
      var r := [Chars(t + items[0].text)] + items[1..];
      assert r[1..] == items[1..];
      r
    else
      assert ([Chars(t)] + items)[1..] == items;
      [Chars(t)] + items
  }

  /** Content whose leading text, if any, is not empty. */
  predicate Joined(items: seq<Item>) {
    items != [] && items[0].Chars? ==> items[0].text != ""
  }

  // ----- reading -----

  function NameRun(s: string): (n: nat)
    ensures n <= |s| && forall c | c in s[..n] :: IsNameChar(c)
  {
    if s != "" && IsNameChar(s[0]) then
      var n := 1 + NameRun(s[1..]);
      assert s[..n] == [s[0]] + s[1..][..n - 1];
      n
    else 0
  }

  function ReadName(s: string): (r: Parse<string>)
    ensures r.Got? <==> s != "" && IsNameStart(s[0])
    ensures r.Got? ==> IsName(r.value) && r.value + r.rest == s && |r.rest| < |s|
  {
    if s != "" && IsNameStart(s[0]) then
      var n := NameRun(s);
      assert n > 0;
      Got(s[..n], s[n..])
    else Fail
  }

  /** What follows `&`: one of the predefined entities. */
  function ReadEntity(s: string): (r: Parse<char>)
    ensures r.Got? ==> |r.rest| < |s|
  {
    if "lt;" <= s then Got('<', s[3..])
    else if "gt;" <= s then Got('>', s[3..])
    else if "amp;" <= s then Got('&', s[4..])
    else if "quot;" <= s then Got('"', s[5..])
    else if "apos;" <= s then Got('\'', s[5..])
    else Fail
  }

  /** An attribute value, up to and past the closing `quote`. */
  function ReadValue(s: string, quote: char): (r: Parse<string>)
    ensures r.Got? ==> |r.rest| < |s|
    decreases |s|
  {
    if s == "" || s[0] == '<' then Fail
    else if s[0] == quote then Got("", s[1..])
    else if s[0] == '&' then
      var (c, tail) :- ReadEntity(s[1..]);
      var (v, rest) :- ReadValue(tail, quote);
      Got([c] + v, rest)
    else
      var (v, rest) :- ReadValue(s[1..], quote);
      Got([s[0]] + v, rest)
  }

  function ReadAttributes(s: string): (r: Parse<seq<(string, string)>>)
    ensures r.Got? ==> |r.rest| <= |s| && forall a | a in r.value :: IsName(a.0)
    decreases |s|
  {
    var t := SkipSpace(s);
    if t == "" || !IsNameStart(t[0]) then Got([], t)
    else if |t| == |s| then Fail
    else
      var Got(name, afterName) := ReadName(t);
      var eq := SkipSpace(afterName);
      if eq == "" || eq[0] != '=' then Fail
      else
        var v := SkipSpace(eq[1..]);
        if v == "" || (v[0] != '"' && v[0] != '\'') then Fail
        else
          var (value, afterValue) :- ReadValue(v[1..], v[0]);
          var (others, rest) :- ReadAttributes(afterValue);
          Got([(name, value)] + others, rest)
  }

  /** What follows `<!--`. */
  function ReadComment(s: string): (r: Parse<Item>)
    ensures r.Got? ==> |r.rest| < |s| && WellFormed(r.value)
  {
    var (text, tail) :- ReadUntil(s, "--");
    ReadUntilFirst(s, "--");
    if tail == "" || tail[0] != '>' then Fail
    else if LegalComment(text) then Got(CommentItem(text), tail[1..])
    else Fail
  }

  /** What follows `<![CDATA[`. */
  function ReadCData(s: string): (r: Parse<Item>)
    ensures r.Got? ==> |r.rest| < |s| && WellFormed(r.value)
  {
    var (text, rest) :- ReadUntil(s, "]]>");
    ReadUntilFirst(s, "]]>");
    Got(CDataSection(text), rest)
  }

  /** What follows `<?`. */
  function ReadInstruction(s: string): (r: Parse<Item>)
    ensures r.Got? ==> |r.rest| < |s| && WellFormed(r.value)
  {
    var (target, tail) :- ReadName(s);
    if IsReserved(target) then Fail
    else if "?>" <= tail then Got(Instruction(target, None), tail[2..])
    else if |SkipSpace(tail)| == |tail| then Fail
    else
      var (data, rest) :- ReadUntil(SkipSpace(tail), "?>");
      DataIsLegal(SkipSpace(tail), data, rest);
      Got(Instruction(target, if data == "" then None else Some(data)), rest)
  }

  lemma DataIsLegal(s: string, data: string, rest: string)
    requires SkipSpace(s) == s && ReadUntil(s, "?>") == Got(data, rest)
    ensures data != "" ==> LegalData(Some(data))
  {
    ReadUntilFirst(s, "?>");
  }

  /** What follows the `<` of an element. */
  function ReadElement(s: string): (r: Parse<Item>)
    ensures r.Got? ==> |r.rest| < |s| && r.value.Elem? && WellFormed(r.value)
    decreases |s|, 0
  {
    var (name, afterName) :- ReadName(s);
    var (attrs, tail) :- ReadAttributes(afterName);
    if !DistinctNames(attrs) then Fail
    else if "/>" <= tail then Got(Elem(name, attrs, []), tail[2..])
    else if tail == "" || tail[0] != '>' then Fail
    else
      var (content, close) :- ReadContent(tail[1..]);
      if name <= close[2..] then
        var end := SkipSpace(close[2 + |name|..]);
        if end == "" || end[0] != '>' then Fail
        else Got(Elem(name, attrs, content), end[1..])
      else Fail
  }

  /** One construct that starts with `<`. */
  function ReadMarkup(s: string): (r: Parse<Item>)
    requires s != "" && s[0] == '<'
    ensures r.Got? ==> |r.rest| < |s| && !r.value.Chars? && WellFormed(r.value)
    decreases |s|, 1
  {
    if "<!--" <= s then ReadComment(s[4..])
    else if "<![CDATA[" <= s then ReadCData(s[9..])
    else if "<?" <= s then ReadInstruction(s[2..])
    else ReadElement(s[1..])
  }

  /** Element content, up to the `</` that ends it. */
  function ReadContent(s: string): (r: Parse<seq<Item>>)
    ensures r.Got? ==> |r.rest| <= |s| && "</" <= r.rest && WellFormedAll(r.value)
    decreases |s|, 2
  {
    if s == "" || "]]>" <= s then Fail
    else if "</" <= s then Got([], s)
    else if s[0] == '<' then
      var (item, tail) :- ReadMarkup(s);
      var (items, rest) :- ReadContent(tail);
      assert ([item] + items)[1..] == items;
      Got([item] + items, rest)
    else if s[0] == '&' then
      var (c, tail) :- ReadEntity(s[1..]);
      var (items, rest) :- ReadContent(tail);
      Got(AttachText([c], items), rest)
    else
      var (items, rest) :- ReadContent(s[1..]);
      Got(AttachText([s[0]], items), rest)
  }

  /** A document without a prolog: one element, then nothing but white space. */
  function ReadDocument(s: string): (r: Option<Item>)
    ensures r.Some? ==> r.value.Elem? && WellFormed(r.value)
  {
    if s == "" || s[0] != '<' then None
    else
      match ReadElement(s[1..])
      case Got(e, rest) => if IsBlank(rest) then Some(e) else None
      case Fail => None
  }
}
