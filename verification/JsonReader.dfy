/** JSON values made of objects, arrays, strings and null, their compact text, and a
    reference reader after RFC 8259: section 2 (structure and white space), section 4
    (objects), section 5 (arrays) and section 7 (strings). The reader has two modes;
    the strict one rejects raw control characters inside strings, as section 7 does. */
module JsonReader {
  import opened Common

  datatype Json =
    | JObject(members: seq<(string, Json)>)
    | JArray(items: seq<Json>)
    | JString(text: string)
    | JNull

  // ----- reading -----

  function HexDigit(c: char): Option<nat> {
    if '0' <= c <= '9' then Some((c as int - '0' as int) as nat)
    else if 'a' <= c <= 'f' then Some((c as int - 'a' as int + 10) as nat)
    else if 'A' <= c <= 'F' then Some((c as int - 'A' as int + 10) as nat)
    else None
  }

  /** The four digits of a `\u` escape; one half of a surrogate pair is no character. */
  function ReadUnicode(s: string): (r: Parse<char>)
    ensures r.Got? ==> |r.rest| < |s|
  {
    if |s| < 4 then Fail
    else
      match (HexDigit(s[0]), HexDigit(s[1]), HexDigit(s[2]), HexDigit(s[3]))
      case (Some(a), Some(b), Some(c), Some(d)) =>
        var code := a * 4096 + b * 256 + c * 16 + d;
        if code < 0xD800 || 0xE000 <= code < 0x1_0000 then Got(code as char, s[4..]) else Fail
      case _ => Fail
  }

  /** What follows a reverse solidus. */
  function ReadEscape(s: string): (r: Parse<char>)
    ensures r.Got? ==> |r.rest| < |s|
  {
    if s == "" then Fail
    else
      match s[0]
      case '"' => Got('"', s[1..])
      case '\\' => Got('\\', s[1..])
      case '/' => Got('/', s[1..])
      case 'b' => Got('\U{8}', s[1..])
      case 'f' => Got('\U{C}', s[1..])
      case 'n' => Got('\n', s[1..])
      case 'r' => Got('\r', s[1..])
      case 't' => Got('\t', s[1..])
      case 'u' => ReadUnicode(s[1..])
      case _ => Fail
  }

  predicate IsControl(c: char) {
    c < ' '
  }

  /** The characters of a string, up to and past the closing quotation mark. */
  function ReadString(s: string, strict: bool): (r: Parse<string>)
    ensures r.Got? ==> |r.rest| < |s|
    decreases |s|
  {
    if s == "" then Fail
    else if s[0] == '"' then Got("", s[1..])
    else if s[0] == '\\' then
      var (c, tail) :- ReadEscape(s[1..]);
      var (text, rest) :- ReadString(tail, strict);
      Got([c] + text, rest)
    else if strict && IsControl(s[0]) then Fail
    else
      var (text, rest) :- ReadString(s[1..], strict);
      Got([s[0]] + text, rest)
  }

  predicate StartsWith(s: string, c: char) {
    s != "" && s[0] == c
  }

  function ReadJson(s: string, strict: bool): (r: Parse<Json>)
    ensures r.Got? ==> |r.rest| < |s|
    decreases |s|, 0
  {
    var t := SkipSpace(s);
    if t == "" then Fail
    else
      match t[0]
      case '"' => var (text, rest) :- ReadString(t[1..], strict); Got(JString(text), rest)
      case '{' =>
        var u := SkipSpace(t[1..]);
        if StartsWith(u, '}') then Got(JObject([]), u[1..])
        else var (members, rest) :- ReadMembers(u, strict); Got(JObject(members), rest)
      case '[' =>
        var u := SkipSpace(t[1..]);
        if StartsWith(u, ']') then Got(JArray([]), u[1..])
        else var (items, rest) :- ReadItems(u, strict); Got(JArray(items), rest)
      case 'n' => if "null" <= t then Got(JNull, t[4..]) else Fail
      case _ => Fail
  }

  /** One or more members, up to and past the closing brace. */
  function ReadMembers(s: string, strict: bool): (r: Parse<seq<(string, Json)>>)
    ensures r.Got? ==> |r.rest| < |s|
    decreases |s|, 1
  {
    var t := SkipSpace(s);
    if !StartsWith(t, '"') then Fail
    else
      var (key, afterKey) :- ReadString(t[1..], strict);
      var colon := SkipSpace(afterKey);
      if !StartsWith(colon, ':') then Fail
      else
        var (value, afterValue) :- ReadJson(colon[1..], strict);
        var next := SkipSpace(afterValue);
        if StartsWith(next, '}') then Got([(key, value)], next[1..])
        else if StartsWith(next, ',') then
          var (others, rest) :- ReadMembers(next[1..], strict);
          Got([(key, value)] + others, rest)
        else Fail
  }

  /** One or more array items, up to and past the closing bracket. */
  function ReadItems(s: string, strict: bool): (r: Parse<seq<Json>>)
    ensures r.Got? ==> |r.rest| < |s|
    decreases |s|, 1
  {
    var (value, afterValue) :- ReadJson(s, strict);
    var next := SkipSpace(afterValue);
    if StartsWith(next, ']') then Got([value], next[1..])
    else if StartsWith(next, ',') then
      var (others, rest) :- ReadItems(next[1..], strict);
      Got([value] + others, rest)
    else Fail
  }

  // ----- compact text -----

  function EscapeJsonChar(c: char): string {
    match c
    case '"' => "\\\""
    case '\\' => "\\\\"
    case '\U{8}' => "\\b"
    case '\U{C}' => "\\f"
    case '\n' => "\\n"
    case '\r' => "\\r"
    case '\t' => "\\t"
    case _ => [c]
  }

  function RenderString(s: string): string {
    "\"" + Escaped(EscapeJsonChar, s) + "\""
  }

  function Render(j: Json): string
    decreases j, 0
  {
    match j
    case JObject(members) => "{" + RenderMembers(members) + "}"
    case JArray(items) => "[" + RenderItems(items) + "]"
    case JString(text) => RenderString(text)
    case JNull => "null"
  }

  function RenderMember(m: (string, Json)): string
    decreases m, 1
  {
    RenderString(m.0) + ":" + Render(m.1)
  }

  function RenderMembers(members: seq<(string, Json)>): string
    decreases members, 2
  {
    if members == [] then ""
    else RenderMember(members[0]) + if |members| == 1 then "" else "," + RenderMembers(members[1..])
  }

  function RenderItems(items: seq<Json>): string
    decreases items, 2
  {
    if items == [] then ""
    else Render(items[0]) + if |items| == 1 then "" else "," + RenderItems(items[1..])
  }

  // ----- the strings that section 7 allows in this form -----

  /** Control characters other than the five with a short escape are written raw. */
  predicate CleanChar(c: char) {
    IsControl(c) ==> |EscapeJsonChar(c)| > 1
  }

  predicate CleanString(s: string) {
    s == "" || (CleanChar(s[0]) && CleanString(s[1..]))
  }

  predicate CleanJson(j: Json)
    decreases j, 0
  {
    match j
    case JObject(members) => CleanMembers(members)
    case JArray(items) => CleanItems(items)
    case JString(text) => CleanString(text)
    case JNull => true
  }

  predicate CleanMember(m: (string, Json))
    decreases m, 1
  {
    CleanString(m.0) && CleanJson(m.1)
  }

  predicate CleanMembers(members: seq<(string, Json)>)
    decreases members, 2
  {
    members == [] || (CleanMember(members[0]) && CleanMembers(members[1..]))
  }

  predicate CleanItems(items: seq<Json>)
    decreases items, 1
  {
    items == [] || (CleanJson(items[0]) && CleanItems(items[1..]))
  }

  // ----- the reader inverts the text -----

  lemma ReadStringChar(c: char, more: string, strict: bool)
    ensures var r := ReadString(more, strict);
            ReadString(EscapeJsonChar(c) + more, strict) ==
              (if (strict && !CleanChar(c)) || r.Fail? then Fail else Got([c] + r.value, r.rest))
  {
    var s := EscapeJsonChar(c) + more;
    if |EscapeJsonChar(c)| == 1 {
      assert s[1..] == more;
    } else {
      assert s[0] == '\\' && s[1..][0] == EscapeJsonChar(c)[1] && s[1..][1..] == more;
      assert ReadEscape(s[1..]) == Got(c, more);
    }
  }

  lemma {:induction false} ReadStringEscaped(t: string, rest: string, strict: bool)
    ensures ReadString(Escaped(EscapeJsonChar, t) + ("\"" + rest), strict)
         == if strict && !CleanString(t) then Fail else Got(t, rest)
  {
    var tail := "\"" + rest;
    if t == "" {
      assert Escaped(EscapeJsonChar, t) + tail == tail && tail[1..] == rest;
    } else {
      ReadStringEscaped(t[1..], rest, strict);
      Assoc(EscapeJsonChar(t[0]), Escaped(EscapeJsonChar, t[1..]), tail);
      ReadStringChar(t[0], Escaped(EscapeJsonChar, t[1..]) + tail, strict);
      assert [t[0]] + t[1..] == t;
    }
  }

  /** A rendered string, after its opening quotation mark. */
  lemma ReadRenderedString(t: string, rest: string, strict: bool)
    ensures var s := RenderString(t) + rest;
            && StartsWith(s, '"')
            && ReadString(s[1..], strict) == if strict && !CleanString(t) then Fail else Got(t, rest)
  {
    ReadStringEscaped(t, rest, strict);
    var e := Escaped(EscapeJsonChar, t);
    assert RenderString(t) + rest == "\"" + (e + ("\"" + rest));
    assert ("\"" + (e + ("\"" + rest)))[1..] == e + ("\"" + rest);
  }

  lemma RenderStarts(j: Json, rest: string)
    ensures var s := Render(j) + rest;
            && s != "" && !IsSpace(s[0]) && s[0] !in "]}," && SkipSpace(s) == s
  {
  }

  /** Reading a rendered value gives it back; the strict reader accepts it exactly when
      no string in it needs an escape that the rendering lacks. */
  lemma {:induction false} ReadRendered(j: Json, rest: string, strict: bool)
    ensures ReadJson(Render(j) + rest, strict) == if strict && !CleanJson(j) then Fail else Got(j, rest)
    decreases j, 0
  {
    RenderStarts(j, rest);
    match j
    case JString(text) => ReadRenderedString(text, rest, strict);
    case JNull =>
      var s := Render(j) + rest;
      assert s[..4] == "null" && s[4..] == rest;
    case JObject(members) =>
      if members != [] {
        ReadRenderedMembers(members, rest, strict);
      }
      ReadBraces(members, rest, strict);
    case JArray(items) =>
      if items != [] {
        ReadRenderedItems(items, rest, strict);
      }
      ReadBrackets(items, rest, strict);
  }

  lemma ReadBraces(members: seq<(string, Json)>, rest: string, strict: bool)
    requires var s := RenderMembers(members) + ("}" + rest);
             members != [] ==>
               && s != "" && !StartsWith(s, '}') && SkipSpace(s) == s
               && ReadMembers(s, strict) == if strict && !CleanMembers(members) then Fail else Got(members, rest)
    ensures ReadJson("{" + RenderMembers(members) + "}" + rest, strict)
         == if strict && !CleanMembers(members) then Fail else Got(JObject(members), rest)
  {
    var tail := RenderMembers(members) + ("}" + rest);
    var s := "{" + tail;
    Assoc("{" + RenderMembers(members), "}", rest);
    Assoc("{", RenderMembers(members), "}" + rest);
    assert SkipSpace(s) == s && s[1..] == tail;
    if members == [] {
      assert tail == "}" + rest && tail[1..] == rest;
    }
  }

  lemma ReadBrackets(items: seq<Json>, rest: string, strict: bool)
    requires var s := RenderItems(items) + ("]" + rest);
             items != [] ==>
               && s != "" && !StartsWith(s, ']') && SkipSpace(s) == s
               && ReadItems(s, strict) == if strict && !CleanItems(items) then Fail else Got(items, rest)
    ensures ReadJson("[" + RenderItems(items) + "]" + rest, strict)
         == if strict && !CleanItems(items) then Fail else Got(JArray(items), rest)
  {
    var tail := RenderItems(items) + ("]" + rest);
    var s := "[" + tail;
    Assoc("[" + RenderItems(items), "]", rest);
    Assoc("[", RenderItems(items), "]" + rest);
    assert SkipSpace(s) == s && s[1..] == tail;
    if items == [] {
      assert tail == "]" + rest && tail[1..] == rest;
    }
  }

  lemma {:induction false} ReadRenderedItems(items: seq<Json>, rest: string, strict: bool)
    requires items != []
    ensures var s := RenderItems(items) + ("]" + rest);
            && s != "" && !StartsWith(s, ']') && SkipSpace(s) == s
            && ReadItems(s, strict) == if strict && !CleanItems(items) then Fail else Got(items, rest)
    decreases items, 1
  {
    var tail := "]" + rest;
    var s := RenderItems(items) + tail;
    assert tail[1..] == rest;
    if |items| == 1 {
      assert s == Render(items[0]) + tail;
      RenderStarts(items[0], tail);
      ReadRendered(items[0], tail, strict);
      assert items[1..] == [];
      assert [items[0]] == items;
    } else {
      var more := RenderItems(items[1..]) + tail;
      assert s == Render(items[0]) + ("," + more) by {
        Assoc(Render(items[0]), "," + RenderItems(items[1..]), tail);
        Assoc(",", RenderItems(items[1..]), tail);
      }
      RenderStarts(items[0], "," + more);
      ReadRendered(items[0], "," + more, strict);
      ReadRenderedItems(items[1..], rest, strict);
      assert ("," + more)[1..] == more;
      assert [items[0]] + items[1..] == items;
    }
  }

  lemma {:induction false} ReadRenderedMembers(members: seq<(string, Json)>, rest: string, strict: bool)
    requires members != []
    ensures var s := RenderMembers(members) + ("}" + rest);
            && s != "" && !StartsWith(s, '}') && SkipSpace(s) == s
            && ReadMembers(s, strict) == if strict && !CleanMembers(members) then Fail else Got(members, rest)
    decreases members, 1
  {
    var tail := "}" + rest;
    var m := members[0];
    if |members| == 1 {
      assert RenderMembers(members) == RenderMember(m) && members[1..] == [] && [m] == members;
      ReadRenderedMember(m, tail, strict);
      ReadMembersStep(RenderMember(m) + tail, m, tail, strict);
      assert tail[1..] == rest;
    } else {
      var more := RenderMembers(members[1..]) + tail;
      Assoc(RenderMember(m), "," + RenderMembers(members[1..]), tail);
      Assoc(",", RenderMembers(members[1..]), tail);
      ReadRenderedMember(m, "," + more, strict);
      ReadRenderedMembers(members[1..], rest, strict);
      ReadMembersStep(RenderMember(m) + ("," + more), m, "," + more, strict);
      assert ("," + more)[1..] == more;
      assert [m] + members[1..] == members;
    }
  }

  /** The text `s` starts with the member `m`, unless a strict reader rejects it, and
      goes on with `after`. */
  predicate StartsWithMember(s: string, m: (string, Json), after: string, strict: bool) {
    && StartsWith(s, '"') && SkipSpace(s) == s
    && var key := ReadString(s[1..], strict);
       if strict && !CleanString(m.0) then key == Fail
       else
         && key.Got? && key.value == m.0 && StartsWith(key.rest, ':')
         && ReadJson(key.rest[1..], strict) == if strict && !CleanJson(m.1) then Fail else Got(m.1, after)
  }

  lemma ReadMembersStep(s: string, m: (string, Json), after: string, strict: bool)
    requires StartsWithMember(s, m, after, strict)
    requires StartsWith(after, '}') || StartsWith(after, ',')
    ensures strict && !CleanMember(m) ==> ReadMembers(s, strict) == Fail
    ensures !(strict && !CleanMember(m)) && after[0] == '}' ==> ReadMembers(s, strict) == Got([m], after[1..])
    ensures !(strict && !CleanMember(m)) && after[0] == ',' ==>
              var r := ReadMembers(after[1..], strict);
              ReadMembers(s, strict) == if r.Fail? then Fail else Got([m] + r.value, r.rest)
  {
  }

  /** One rendered member: the key, the colon and the value. */
  lemma {:induction false} ReadRenderedMember(m: (string, Json), tail: string, strict: bool)
    ensures StartsWithMember(RenderMember(m) + tail, m, tail, strict)
    decreases m, 1
  {
    var value := Render(m.1) + tail;
    assert RenderMember(m) + tail == RenderString(m.0) + (":" + value) by {
      Assoc(RenderString(m.0) + ":", Render(m.1), tail);
      Assoc(RenderString(m.0), ":", value);
    }
    ReadRenderedString(m.0, ":" + value, strict);
    ReadRendered(m.1, tail, strict);
    assert (":" + value)[1..] == value;
  }
}
