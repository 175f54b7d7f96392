/** Vocabulary shared by the whole model: optional values, the output stream, and
    the character-by-character rewriting that every escaper of the program performs. */
module Common {
  /** A C pointer that may be NULL, seen as a value. */
  datatype Option<+T> = None | Some(value: T) {
    function GetOr(default: T): T {
      if Some? then value else default
    }
  }

  /** The outcome of reading a prefix of a text: what was read and what is left. */
  datatype Parse<+T> = Fail | Got(value: T, rest: string) {
    predicate IsFailure() {
      Fail?
    }

    function PropagateFailure<U>(): Parse<U>
      requires Fail?
    {
      Fail
    }

    function Extract(): (T, string)
      requires Got?
    {
      (value, rest)
    }
  }

  /** A `FILE*` open for writing: everything written so far. */
  class Stream {
    var contents: string

    constructor ()
      ensures contents == ""
    {
      contents := "";
    }

    method Put(c: char)
      modifies this
      ensures contents == old(contents) + [c]
    {
      contents := contents + [c];
    }

    method Write(s: string)
      modifies this
      ensures contents == old(contents) + s
    {
      contents := contents + s;
    }
  }

  /** `n` spaces; none when `n` is negative, as a counting loop writes them. */
  function Spaces(n: int): (s: string)
    ensures |s| == if n < 0 then 0 else n
    ensures forall c | c in s :: c == ' '
    decreases if n < 0 then 0 else n
  {
    if n <= 0 then "" else " " + Spaces(n - 1)
  }

  /** Replaces every character of `s` by its escape under `f`. */
  function Escaped(f: char -> string, s: string): string {
    if s == "" then "" else f(s[0]) + Escaped(f, s[1..])
  }

  lemma Assoc<T>(a: seq<T>, b: seq<T>, c: seq<T>)
    ensures a + b + c == a + (b + c)
  {
  }

  lemma {:induction false} EscapedConcat(f: char -> string, s: string, t: string)
    ensures Escaped(f, s + t) == Escaped(f, s) + Escaped(f, t)
  {
    if s == "" {
      assert s + t == t;
    } else {
      assert (s + t)[0] == s[0] && (s + t)[1..] == s[1..] + t;
      EscapedConcat(f, s[1..], t);
    }
  }

  /** XML white space: the production `S` of section 2.3 of XML 1.0. */
  predicate IsSpace(c: char) {
    c == ' ' || c == '\t' || c == '\n' || c == '\r'
  }

  function SkipSpace(s: string): (r: string)
    ensures |r| <= |s| && (r == "" || !IsSpace(r[0]))
  {
    if s != "" && IsSpace(s[0]) then SkipSpace(s[1..]) else s
  }

  predicate IsBlank(s: string) {
    forall c | c in s :: IsSpace(c)
  }

  predicate Contains(s: string, part: string) {
    part <= s || (s != "" && Contains(s[1..], part))
  }

  /** Reads up to the first occurrence of `stop`, and past it. */
  function ReadUntil(s: string, stop: string): (r: Parse<string>)
    requires stop != ""
    ensures r.Got? ==> |r.rest| < |s|
  {
    if stop <= s then Got("", s[|stop|..])
    else if s == "" then Fail
    else
      var (text, rest) :- ReadUntil(s[1..], stop);
      Got([s[0]] + text, rest)
  }

  /** It stops at the first occurrence indeed. */
  lemma {:induction false} ReadUntilFirst(s: string, stop: string)
    requires stop != "" && ReadUntil(s, stop).Got?
    ensures var Got(text, rest) := ReadUntil(s, stop);
            text + (stop + rest) == s && !Contains(text, stop)
  {
    var Got(text, rest) := ReadUntil(s, stop);
    if stop <= s {
      assert text + (stop + rest) == s;
    } else {
      ReadUntilFirst(s[1..], stop);
      assert text[1..] == ReadUntil(s[1..], stop).value;
      assert s == [s[0]] + s[1..];
      Assoc([s[0]], text[1..], stop + rest);
      assert stop <= text ==> stop <= text + (stop + rest);
    }
  }
}
