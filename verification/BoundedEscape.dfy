/** The JSON escaper of the diff command, which writes into a buffer of a given size and
    stops early when the buffer may not hold another escape. */
module BoundedEscape {
  import opened Common
  import opened JsonReader

  function LowerHex(n: nat): char
    requires n < 16
  {
    "0123456789abcdef"[n]
  }

  function EscapeByte(c: char): (e: string)
    ensures 1 <= |e| <= 6
  {
    if c == '"' || c == '\\' then ['\\', c]
    else if c == '\n' then "\\n"
    else if c == '\t' then "\\t"
    else if c == '\r' then "\\r"
    else if IsControl(c) then ['\\', 'u', '0', '0', LowerHex(c as int / 16), LowerHex(c as int % 16)]
    else [c]
  }

  /** How many characters of `s` are taken when `o` places of the buffer are used up. */
  function Taken(s: string, o: nat, size: nat): (n: nat)
    ensures n <= |s|
  {
    if s == "" || o + 7 >= size then 0 else 1 + Taken(s[1..], o + |EscapeByte(s[0])|, size)
  }

  method JsonEscape(str: Option<string>, buf: array<char>) returns (o: nat)
    requires buf.Length >= 1
    modifies buf
    ensures o < buf.Length && buf[o] == '\0'
    ensures var s := str.GetOr("");
            buf[..o] == Escaped(EscapeByte, s[..Taken(s, 0, buf.Length)])
    ensures buf[o + 1..] == old(buf[o + 1..])
  {
    var s := str.GetOr("");
    var p := 0;
    o := 0;
    while p < |s| && o + 7 < buf.Length
      invariant p <= |s| && o < buf.Length
      invariant buf[..o] == Escaped(EscapeByte, s[..p])
      invariant Taken(s, 0, buf.Length) == p + Taken(s[p..], o, buf.Length)
      invariant forall k :: o < k < buf.Length ==> buf[k] == old(buf[k])
    {
      var e := EscapeByte(s[p]);
      assert s[p..][0] == s[p] && s[p..][1..] == s[p + 1..];
      assert s[..p + 1] == s[..p] + [s[p]];
      EscapedConcat(EscapeByte, s[..p], [s[p]]);
      EscapedOne(s[p]);
      Store(buf, o, e);
      o := o + |e|;
      p := p + 1;
    }
    buf[o] := '\0';
  }

  lemma EscapedOne(c: char)
    ensures Escaped(EscapeByte, [c]) == EscapeByte(c)
  {
  }

  /** Stores one escape at `o`; `snprintf` also puts a NUL behind a `\u` escape. */
  method Store(buf: array<char>, o: nat, e: string)
    requires o + |e| < buf.Length && 1 <= |e|
    modifies buf
    ensures buf[..o + |e|] == old(buf[..o]) + e
    ensures forall k :: o + |e| < k < buf.Length ==> buf[k] == old(buf[k])
  {
    var i := 0;
    while i < |e|
      invariant i <= |e|
      invariant buf[..o + i] == old(buf[..o]) + e[..i]
      invariant forall k :: o + i <= k < buf.Length ==> buf[k] == old(buf[k])
    {
      buf[o + i] := e[i];
      i := i + 1;
    }
    assert e[..i] == e;
    if |e| == 6 {
      buf[o + 6] := '\0';
    }
  }

  // ----- what is written -----

  lemma LowerHexReads(n: nat)
    requires n < 16
    ensures HexDigit(LowerHex(n)) == Some(n)
  {
  }

  lemma ReadEscapedByte(c: char, more: string)
    ensures var r := ReadString(more, true);
            ReadString(EscapeByte(c) + more, true) == (if r.Fail? then Fail else Got([c] + r.value, r.rest))
  {
    var e := EscapeByte(c);
    var s := e + more;
    if |e| == 1 {
      assert s[1..] == more;
    } else {
      assert s[0] == '\\' && s[1..] == e[1..] + more;
      if |e| == 2 {
        assert s[1..][0] == e[1] && s[1..][1..] == more;
      } else {
        ReadUnicodeByte(c, more);
        assert s[1..][0] == 'u' && s[1..][1..] == e[2..] + more;
      }
      assert ReadEscape(s[1..]) == Got(c, more);
    }
  }

  lemma ReadUnicodeByte(c: char, more: string)
    requires |EscapeByte(c)| == 6
    ensures ReadUnicode(EscapeByte(c)[2..] + more) == Got(c, more)
  {
    var hi, lo := c as int / 16, c as int % 16;
    LowerHexReads(hi);
    LowerHexReads(lo);
    LowerHexReads(0);
    var s := EscapeByte(c)[2..] + more;
    assert s[0] == '0' && s[1] == '0' && s[2] == LowerHex(hi) && s[3] == LowerHex(lo);
    assert s[4..] == more;
    assert (hi * 16 + lo) as char == c;
  }

  /** The strict reader gets back exactly what was escaped, whatever it was. */
  lemma {:induction false} EscapedReads(t: string, rest: string)
    ensures ReadString(Escaped(EscapeByte, t) + ("\"" + rest), true) == Got(t, rest)
  {
    var tail := "\"" + rest;
    if t == "" {
      assert Escaped(EscapeByte, t) + tail == tail && tail[1..] == rest;
    } else {
      EscapedReads(t[1..], rest);
      Assoc(EscapeByte(t[0]), Escaped(EscapeByte, t[1..]), tail);
      ReadEscapedByte(t[0], Escaped(EscapeByte, t[1..]) + tail);
      assert [t[0]] + t[1..] == t;
    }
  }

  predicate NoControl(s: string) {
    forall i | 0 <= i < |s| :: !IsControl(s[i])
  }

  lemma {:induction false} EscapedHasNoControl(t: string)
    ensures NoControl(Escaped(EscapeByte, t))
  {
    if t != "" {
      EscapedHasNoControl(t[1..]);
      ByteHasNoControl(t[0]);
    }
  }

  lemma ByteHasNoControl(c: char)
    ensures NoControl(EscapeByte(c))
  {
  }

  /** The written text is a whole number of escapes, it leaves room for the NUL, and
      escaping stops early only when fewer than eight places are left. */
  lemma {:induction false} TakenFits(s: string, o: nat, size: nat)
    requires o < size
    ensures var n := Taken(s, o, size);
            && o + |Escaped(EscapeByte, s[..n])| < size
            && (n < |s| ==> o + |Escaped(EscapeByte, s[..n])| + 7 >= size)
  {
    var n := Taken(s, o, size);
    if s != "" && o + 7 < size {
      TakenFits(s[1..], o + |EscapeByte(s[0])|, size);
      assert s[..n][0] == s[0] && s[..n][1..] == s[1..][..n - 1];
    }
  }

  /** Nothing is cut off exactly when the last escape starts with eight places to go. */
  lemma {:induction false} TakenAll(s: string, o: nat, size: nat)
    ensures Taken(s, o, size) == |s| <==> s == "" || o + |Escaped(EscapeByte, s[..|s| - 1])| + 7 < size
  {
    if s != "" {
      var init := s[..|s| - 1];
      if |s| == 1 {
        assert Escaped(EscapeByte, init) == "";
        assert s[1..] == "";
      } else {
        TakenAll(s[1..], o + |EscapeByte(s[0])|, size);
        assert init[0] == s[0] && init[1..] == s[1..][..|s[1..]| - 1];
      }
    }
  }

  /** The main result about one call, for every buffer of at least one place. */
  lemma BoundedEscapeMeaning(s: string, size: nat)
    requires size >= 1
    ensures var out := Escaped(EscapeByte, s[..Taken(s, 0, size)]);
            && |out| < size && NoControl(out)
            && ReadString(out + "\"", true) == Got(s[..Taken(s, 0, size)], "")
            && (Taken(s, 0, size) == |s| <==> s == "" || |Escaped(EscapeByte, s[..|s| - 1])| + 7 < size)
            && (|Escaped(EscapeByte, s)| + 7 <= size ==> Taken(s, 0, size) == |s|)
  {
    var t := s[..Taken(s, 0, size)];
    TakenFits(s, 0, size);
    EscapedHasNoControl(t);
    EscapedReads(t, "");
    assert "\"" + "" == "\"";
    TakenAll(s, 0, size);
    if s != "" {
      var init := s[..|s| - 1];
      assert s == init + [s[|s| - 1]];
      EscapedConcat(EscapeByte, init, [s[|s| - 1]]);
      EscapedOne(s[|s| - 1]);
    }
  }
}
