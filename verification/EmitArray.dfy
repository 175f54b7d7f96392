/** The array printer of the table generator, and a reader for the C declarations that it
    writes. The reader gives back the element type, the name, the declared length and the
    elements in order. */
module EmitArray {
  import opened Common

  // ----- numbers -----

  function DigitOf(n: nat): char
    requires n < 16
  {
    if n < 10 then ('0' as int + n) as char else ('A' as int + n - 10) as char
  }

  /** The two bases; a quotient by either is a quotient by a number, not by a variable. */
  datatype Base = Ten | Sixteen {
    function Radix(): nat {
      if Ten? then 10 else 16
    }

    function Quotient(n: nat): nat {
      if Ten? then n / 10 else n / 16
    }

    function Remainder(n: nat): (r: nat)
      ensures r < Radix()
    {
      if Ten? then n % 10 else n % 16
    }

    function Extended(n: nat, d: nat): nat {
      if Ten? then n * 10 + d else n * 16 + d
    }
  }

  function Digits(n: nat, base: Base): (s: string)
    ensures s != ""
  {
    if n < base.Radix() then [DigitOf(n)] else Digits(base.Quotient(n), base) + [DigitOf(base.Remainder(n))]
  }

  function Zeros(n: int): string
    decreases if n < 0 then 0 else n
  {
    if n <= 0 then "" else "0" + Zeros(n - 1)
  }

  /** The three conversions the generator uses: `0x%X`, `0x%04X` and `%d`. */
  datatype Format = Hex | Hex4 | Decimal

  function Formatted(f: Format, n: nat): string {
    match f
    case Hex => "0x" + Digits(n, Sixteen)
    case Hex4 => "0x" + (Zeros(4 - |Digits(n, Sixteen)|) + Digits(n, Sixteen))
    case Decimal => Digits(n, Ten)
  }

  function DigitValue(c: char): Option<nat> {
    if '0' <= c <= '9' then Some((c as int - '0' as int) as nat)
    else if 'A' <= c <= 'F' then Some((c as int - 'A' as int + 10) as nat)
    else None
  }

  /** Reads a numeral in `base`. */
  function ReadDigits(s: string, base: Base): Option<nat> {
    if s == "" then None
    else
      match DigitValue(s[|s| - 1])
      case None => None
      case Some(d) =>
        if d >= base.Radix() then None
        else if |s| == 1 then Some(d)
        else
          match ReadDigits(s[..|s| - 1], base)
          case None => None
          case Some(n) => Some(base.Extended(n, d))
  }

  /** A C integer constant: hexadecimal after `0x`, and otherwise decimal, which never
      starts with a zero that is followed by more digits. */
  function ReadNumber(s: string): Option<nat> {
    if |s| > 2 && s[0] == '0' && s[1] == 'x' then ReadDigits(s[2..], Sixteen)
    else if |s| > 1 && s[0] == '0' then None
    else ReadDigits(s, Ten)
  }

  lemma DigitReads(n: nat)
    requires n < 16
    ensures DigitValue(DigitOf(n)) == Some(n)
  {
  }

  lemma {:induction false} DigitsRead(n: nat, base: Base)
    ensures ReadDigits(Digits(n, base), base) == Some(n)
  {
    if n < base.Radix() {
      DigitReads(n);
    } else {
      DigitsRead(base.Quotient(n), base);
      DigitReads(base.Remainder(n));
      ReadLastDigit(Digits(base.Quotient(n), base), base.Remainder(n), base, base.Quotient(n));
      Recombine(n, base);
    }
  }

  lemma ReadLastDigit(s: string, d: nat, base: Base, n: nat)
    requires d < base.Radix() && s != "" && ReadDigits(s, base) == Some(n)
    ensures ReadDigits(s + [DigitOf(d)], base) == Some(base.Extended(n, d))
  {
    DigitReads(d);
    var t := s + [DigitOf(d)];
    assert t[..|t| - 1] == s;
  }

  lemma Recombine(n: nat, base: Base)
    ensures base.Extended(base.Quotient(n), base.Remainder(n)) == n
  {
  }

  lemma {:induction false} PaddedRead(k: int, s: string, n: nat)
    requires s != "" && ReadDigits(s, Sixteen) == Some(n)
    ensures ReadDigits(Zeros(k) + s, Sixteen) == Some(n)
    decreases |s|
  {
    var t := Zeros(k) + s;
    assert t[|t| - 1] == s[|s| - 1];
    if |s| == 1 {
      assert t[..|t| - 1] == Zeros(k);
      ZerosRead(k);
    } else {
      assert t[..|t| - 1] == Zeros(k) + s[..|s| - 1];
      PaddedRead(k, s[..|s| - 1], n / 16);
    }
  }

  lemma {:induction false} ZerosRead(k: int)
    ensures k > 0 ==> ReadDigits(Zeros(k), Sixteen) == Some(0)
    decreases if k < 0 then 0 else k
  {
    if k > 1 {
      ZerosRead(k - 1);
      ZerosSnoc(k);
    }
  }

  lemma {:induction false} ZerosSnoc(k: int)
    requires k > 0
    ensures Zeros(k) == Zeros(k - 1) + "0"
  {
    if k > 1 {
      ZerosSnoc(k - 1);
      Assoc("0", Zeros(k - 2), "0");
    }
  }

  /** A numeral without padding starts with a zero only when it is a single zero. */
  lemma {:induction false} NoLeadingZero(n: nat, base: Base)
    ensures Digits(n, base)[0] == '0' ==> n == 0
    ensures n == 0 ==> |Digits(n, base)| == 1
  {
    if n < base.Radix() {
      DigitReads(n);
    } else {
      NoLeadingZero(base.Quotient(n), base);
    }
  }

  predicate IsNumeral(s: string) {
    forall i | 0 <= i < |s| :: DigitValue(s[i]).Some? || s[i] == 'x'
  }

  lemma {:induction false} DigitsAreDigits(n: nat, base: Base)
    ensures forall i | 0 <= i < |Digits(n, base)| :: DigitValue(Digits(n, base)[i]).Some?
  {
    if n < base.Radix() {
      DigitReads(n);
    } else {
      DigitsAreDigits(base.Quotient(n), base);
      DigitReads(base.Remainder(n));
    }
  }

  lemma {:induction false} ZerosAreDigits(k: int)
    ensures forall i | 0 <= i < |Zeros(k)| :: DigitValue(Zeros(k)[i]).Some?
    decreases if k < 0 then 0 else k
  {
    if k > 0 {
      ZerosAreDigits(k - 1);
    }
  }

  lemma FormattedReads(f: Format, n: nat)
    ensures ReadNumber(Formatted(f, n)) == Some(n)
    ensures Formatted(f, n) != "" && IsNumeral(Formatted(f, n))
  {
    var s := Formatted(f, n);
    match f
    case Decimal =>
      DigitsRead(n, Ten);
      NoLeadingZero(n, Ten);
      DigitsAreDigits(n, Ten);
      if |s| > 1 {
        assert s[0] != '0';
      }
    case Hex =>
      DigitsRead(n, Sixteen);
      DigitsAreDigits(n, Sixteen);
      assert s[2..] == Digits(n, Sixteen);
    case Hex4 =>
      var k := 4 - |Digits(n, Sixteen)|;
      DigitsRead(n, Sixteen);
      DigitsAreDigits(n, Sixteen);
      ZerosAreDigits(k);
      PaddedRead(k, Digits(n, Sixteen), n);
      assert s[2..] == Zeros(k) + Digits(n, Sixteen);
  }

  // ----- rows -----

  /** The slice `vals[i:i + per_line]`. */
  function RowAt(vals: seq<nat>, i: nat, perLine: nat): seq<nat>
    requires i < |vals|
  {
    vals[i..if i + perLine < |vals| then i + perLine else |vals|]
  }

  /** The slices from index `i` on, in steps of `perLine`. */
  function RowsFrom(vals: seq<nat>, i: nat, perLine: nat): seq<seq<nat>>
    requires perLine > 0
    decreases |vals| - i
  {
    if i >= |vals| then [] else [RowAt(vals, i, perLine)] + RowsFrom(vals, i + perLine, perLine)
  }

  function Rows(vals: seq<nat>, perLine: nat): seq<seq<nat>>
    requires perLine > 0
  {
    RowsFrom(vals, 0, perLine)
  }

  function Flattened(rows: seq<seq<nat>>): seq<nat> {
    if rows == [] then [] else rows[0] + Flattened(rows[1..])
  }

  /** The conversion as a function of the value. */
  function Conversion(f: Format): nat -> string {
    (n: nat) => Formatted(f, n)
  }

  function Joined(fmt: nat -> string, row: seq<nat>): string {
    if row == [] then ""
    else if |row| == 1 then fmt(row[0])
    else Joined(fmt, row[..|row| - 1]) + "," + fmt(row[|row| - 1])
  }

  function RowText(fmt: nat -> string, row: seq<nat>): string {
    "    " + Joined(fmt, row) + ",\n"
  }

  function RowsText(fmt: nat -> string, rows: seq<seq<nat>>): string {
    if rows == [] then "" else RowText(fmt, rows[0]) + RowsText(fmt, rows[1..])
  }

  predicate NoEmptyRow(rows: seq<seq<nat>>) {
    rows == [] || (rows[0] != [] && NoEmptyRow(rows[1..]))
  }

  /** The rows hold the values in order, and only the last row may be short. */
  predicate Chunks(rows: seq<seq<nat>>, vals: seq<nat>, perLine: nat) {
    && Flattened(rows) == vals
    && (forall i :: 0 <= i < |rows| ==> 1 <= |rows[i]| <= perLine)
    && (forall i :: 0 <= i < |rows| - 1 ==> |rows[i]| == perLine)
    && NoEmptyRow(rows)
  }

  lemma {:induction false} ChunksFrom(vals: seq<nat>, i: nat, perLine: nat)
    requires perLine > 0 && i <= |vals|
    ensures Chunks(RowsFrom(vals, i, perLine), vals[i..], perLine)
    decreases |vals| - i
  {
    if i < |vals| {
      var row, later := RowAt(vals, i, perLine), RowsFrom(vals, i + perLine, perLine);
      assert ([row] + later)[1..] == later;
      if i + perLine < |vals| {
        ChunksFrom(vals, i + perLine, perLine);
        assert vals[i..] == row + vals[i + perLine..];
      } else {
        assert vals[i..] == row + [];
      }
    }
  }

  lemma RowsCorrect(vals: seq<nat>, perLine: nat)
    requires perLine > 0
    ensures Chunks(Rows(vals, perLine), vals, perLine)
  {
    ChunksFrom(vals, 0, perLine);
    assert vals[0..] == vals;
  }

  function Header(ty: string, name: string, n: nat): string {
    "static const " + ty + " " + name + "[" + Digits(n, Ten) + "] = {\n"
  }

  function ArrayText(name: string, ty: string, f: Format, vals: seq<nat>, perLine: nat): string
    requires perLine > 0
  {
    Header(ty, name, |vals|) + RowsText(Conversion(f), Rows(vals, perLine)) + "};\n"
  }

  method WriteHeader(ty: string, name: string, n: nat, out: Stream)
    modifies out
    ensures out.contents == old(out.contents) + Header(ty, name, n)
  {
    out.Write("static const " + ty + " " + name + "[" + Digits(n, Ten) + "] = {\n");
  }

  lemma JoinedSnoc(fmt: nat -> string, row: seq<nat>, n: nat)
    requires row != []
    ensures Joined(fmt, row + [n]) == Joined(fmt, row) + "," + fmt(n)
  {
  }

  function JoinedTo(fmt: nat -> string, row: seq<nat>, i: nat): string
    requires i <= |row|
  {
    Joined(fmt, row[..i])
  }

  lemma JoinedToNext(fmt: nat -> string, row: seq<nat>, i: nat)
    requires 1 <= i < |row|
    ensures JoinedTo(fmt, row, i + 1) == JoinedTo(fmt, row, i) + "," + fmt(row[i])
  {
    JoinedSnoc(fmt, row[..i], row[i]);
    assert row[..i + 1] == row[..i] + [row[i]];
  }

  lemma JoinedToEnds(fmt: nat -> string, row: seq<nat>)
    requires row != []
    ensures JoinedTo(fmt, row, 1) == fmt(row[0]) && JoinedTo(fmt, row, |row|) == Joined(fmt, row)
  {
    assert row[..1] == [row[0]] && row[..|row|] == row;
  }

  /** `","` between the formatted values of one row. */
  method JoinRow(fmt: nat -> string, row: seq<nat>) returns (s: string)
    requires row != []
    ensures s == Joined(fmt, row)
  {
    s := fmt(row[0]);
    var i := 1;
    JoinedToEnds(fmt, row);
    while i < |row|
      invariant 1 <= i <= |row|
      invariant s == JoinedTo(fmt, row, i)
    {
      JoinedToNext(fmt, row, i);
      s := s + "," + fmt(row[i]);
      i := i + 1;
    }
  }

  method EmitArr(name: string, ty: string, f: Format, vals: seq<nat>, perLine: nat, out: Stream)
    requires perLine > 0
    modifies out
    ensures out.contents == old(out.contents) + ArrayText(name, ty, f, vals, perLine)
  {
    ghost var pre, header := out.contents, Header(ty, name, |vals|);
    WriteHeader(ty, name, |vals|, out);
    WriteRows(Conversion(f), vals, perLine, out);
    Assoc(pre, header, RowsText(Conversion(f), Rows(vals, perLine)));
    out.Write("};\n");
    Assoc(pre, header + RowsText(Conversion(f), Rows(vals, perLine)), "};\n");
  }

  /** What the loop at index `i` has still to print. */
  function RemainingText(fmt: nat -> string, vals: seq<nat>, i: nat, perLine: nat): string
    requires perLine > 0
  {
    RowsText(fmt, RowsFrom(vals, i, perLine))
  }

  lemma NextRow(before: string, fmt: nat -> string, vals: seq<nat>, i: nat, perLine: nat)
    requires perLine > 0 && i < |vals|
    ensures before + RowText(fmt, RowAt(vals, i, perLine)) + RemainingText(fmt, vals, i + perLine, perLine)
         == before + RemainingText(fmt, vals, i, perLine)
  {
    var row, later := RowAt(vals, i, perLine), RowsFrom(vals, i + perLine, perLine);
    assert ([row] + later)[1..] == later;
    Assoc(before, RowText(fmt, row), RowsText(fmt, later));
  }

  method WriteRow(fmt: nat -> string, row: seq<nat>, out: Stream)
    requires row != []
    modifies out
    ensures out.contents == old(out.contents) + RowText(fmt, row)
  {
    var s := JoinRow(fmt, row);
    out.Write("    " + s + ",\n");
  }

  method WriteRows(fmt: nat -> string, vals: seq<nat>, perLine: nat, out: Stream)
    requires perLine > 0
    modifies out
    ensures out.contents == old(out.contents) + RowsText(fmt, Rows(vals, perLine))
  {
    var i: nat := 0;
    while i < |vals|
      invariant out.contents + RemainingText(fmt, vals, i, perLine)
             == old(out.contents) + RemainingText(fmt, vals, 0, perLine)
      decreases |vals| - i
    {
      NextRow(out.contents, fmt, vals, i, perLine);
      WriteRow(fmt, RowAt(vals, i, perLine), out);
      i := i + perLine;
    }
    assert RemainingText(fmt, vals, i, perLine) == "";
  }

  // ----- reading a declaration back -----

  datatype Declaration = Declaration(ty: string, name: string, length: nat, vals: seq<nat>)

  /** Numbers, each followed by a comma, with white space before them, up to `}`. */
  function ReadValues(s: string): (r: Parse<seq<nat>>)
    decreases |s|
  {
    var t := SkipSpace(s);
    if t == "" then Fail
    else if t[0] == '}' then Got([], t[1..])
    else
      var (numeral, tail) :- ReadUntil(t, ",");
      match ReadNumber(numeral)
      case None => Fail
      case Some(n) => var (others, rest) :- ReadValues(tail); Got([n] + others, rest)
  }

  function Expect(prefix: string, s: string): Parse<()> {
    if prefix <= s then Got((), s[|prefix|..]) else Fail
  }

  function ReadDeclaration(s: string): Option<Declaration> {
    match Expect("static const ", s)
    case Fail => None
    case Got(_, s1) =>
      match ReadUntil(s1, " ")
      case Fail => None
      case Got(ty, s2) =>
        match ReadUntil(s2, "[")
        case Fail => None
        case Got(name, s3) =>
          match ReadUntil(s3, "]")
          case Fail => None
          case Got(size, s4) =>
            match (ReadNumber(size), Expect(" = {\n", s4))
            case (Some(n), Got(_, s5)) =>
              (match ReadValues(s5)
               case Got(vals, s6) => if s6 == ";\n" then Some(Declaration(ty, name, n, vals)) else None
               case Fail => None)
            case _ => None
  }

  lemma {:induction false} ReadUntilChar(t: string, stop: char, rest: string)
    requires stop !in t
    ensures ReadUntil(t + ([stop] + rest), [stop]) == Got(t, rest)
  {
    var s := t + ([stop] + rest);
    if t == "" {
      assert s == [stop] + rest && s[1..] == rest;
    } else {
      assert t[0] in t && forall c | c in t[1..] :: c in t;
      ReadUntilChar(t[1..], stop, rest);
      assert s[0] == t[0] && s[1..] == t[1..] + ([stop] + rest);
      assert [t[0]] + t[1..] == t;
    }
  }

  lemma ReadOneValue(f: Format, n: nat, tail: string)
    requires ReadValues(tail).Got?
    ensures ReadValues(Formatted(f, n) + ("," + tail))
         == Got([n] + ReadValues(tail).value, ReadValues(tail).rest)
  {
    var x := Formatted(f, n);
    FormattedReads(f, n);
    NumeralIsPlain(x);
    ReadUntilChar(x, ',', tail);
    var s := x + ("," + tail);
    assert s[0] == x[0] && SkipSpace(s) == s;
    assert [','] == ",";
  }

  lemma NumeralIsPlain(x: string)
    requires x != "" && IsNumeral(x)
    ensures ',' !in x && !IsSpace(x[0]) && x[0] != '}' && ']' !in x
  {
  }

  lemma {:induction false} ReadJoined(f: Format, row: seq<nat>, tail: string)
    requires row != [] && ReadValues(tail).Got?
    ensures ReadValues(Joined(Conversion(f), row) + ("," + tail))
         == Got(row + ReadValues(tail).value, ReadValues(tail).rest)
    decreases |row|
  {
    var last := row[|row| - 1];
    ReadOneValue(f, last, tail);
    if |row| == 1 {
      assert row == [last];
    } else {
      var init, more := row[..|row| - 1], Formatted(f, last) + ("," + tail);
      assert row == init + [last];
      assert ReadValues(more) == Got([last] + ReadValues(tail).value, ReadValues(tail).rest);
      ReadJoined(f, init, more);
      ReadJoinedStep(f, init, last, tail);
    }
  }

  lemma ReadJoinedStep(f: Format, init: seq<nat>, last: nat, tail: string)
    requires init != [] && ReadValues(tail).Got?
    requires var r, more := ReadValues(tail), Formatted(f, last) + ("," + tail);
             ReadValues(Joined(Conversion(f), init) + ("," + more)) == Got(init + ([last] + r.value), r.rest)
    ensures ReadValues(Joined(Conversion(f), init + [last]) + ("," + tail))
         == Got(init + [last] + ReadValues(tail).value, ReadValues(tail).rest)
  {
    var more := Formatted(f, last) + ("," + tail);
    assert (init + [last])[..|init|] == init;
    Assoc(Joined(Conversion(f), init) + ",", Formatted(f, last), "," + tail);
    Assoc(Joined(Conversion(f), init), ",", more);
    Assoc(init, [last], ReadValues(tail).value);
  }

  lemma SkipOne(c: char, s: string)
    requires IsSpace(c)
    ensures SkipSpace([c] + s) == SkipSpace(s)
  {
  }

  lemma SkipToValue(s: string)
    ensures ReadValues("\n" + s) == ReadValues(s) && ReadValues("    " + s) == ReadValues(s)
  {
    SkipOne('\n', s);
    SkipFour(s);
    SameValues("\n" + s, s);
    SameValues("    " + s, s);
  }

  lemma SkipFour(s: string)
    ensures SkipSpace("    " + s) == SkipSpace(s)
  {
    SkipOne(' ', s);
    SkipOne(' ', " " + s);
    SkipOne(' ', " " + (" " + s));
    SkipOne(' ', " " + (" " + (" " + s)));
    assert "    " + s == " " + (" " + (" " + (" " + s)));
  }

  lemma SameValues(s: string, t: string)
    requires SkipSpace(s) == SkipSpace(t)
    ensures ReadValues(s) == ReadValues(t)
  {
  }

  lemma ReadRowText(f: Format, row: seq<nat>, tail: string)
    requires row != [] && ReadValues(tail).Got?
    ensures ReadValues(RowText(Conversion(f), row) + tail) == Got(row + ReadValues(tail).value, ReadValues(tail).rest)
  {
    SkipToValue(tail);
    ReadJoined(f, row, "\n" + tail);
    var body := Joined(Conversion(f), row) + ("," + ("\n" + tail));
    Assoc("    " + Joined(Conversion(f), row), ",\n", tail);
    Assoc("    ", Joined(Conversion(f), row), ",\n" + tail);
    assert ",\n" + tail == "," + ("\n" + tail);
    SkipToValue(body);
  }

  lemma {:induction false} ReadRowsText(f: Format, rows: seq<seq<nat>>, tail: string)
    requires NoEmptyRow(rows) && ReadValues(tail).Got?
    ensures ReadValues(RowsText(Conversion(f), rows) + tail)
         == Got(Flattened(rows) + ReadValues(tail).value, ReadValues(tail).rest)
  {
    if rows == [] {
      assert RowsText(Conversion(f), rows) + tail == tail;
      assert Flattened(rows) + ReadValues(tail).value == ReadValues(tail).value;
    } else {
      ReadRowsText(f, rows[1..], tail);
      ReadRowText(f, rows[0], RowsText(Conversion(f), rows[1..]) + tail);
      Assoc(RowText(Conversion(f), rows[0]), RowsText(Conversion(f), rows[1..]), tail);
      Assoc(rows[0], Flattened(rows[1..]), ReadValues(tail).value);
    }
  }

  lemma HeaderGroups(ty: string, name: string, size: string, tail: string)
    ensures "static const " + ty + " " + name + "[" + size + "] = {\n" + tail
         == "static const " + (ty + (" " + (name + ("[" + (size + ("]" + (" = {\n" + tail)))))))
  {
  }

  lemma ReadHeader(ty: string, name: string, size: string, n: nat, tail: string, vals: seq<nat>)
    requires ' ' !in ty && '[' !in name && ']' !in size
    requires ReadNumber(size) == Some(n) && ReadValues(tail) == Got(vals, ";\n")
    ensures ReadDeclaration("static const " + (ty + (" " + (name + ("[" + (size + ("]" + (" = {\n" + tail))))))))
         == Some(Declaration(ty, name, n, vals))
  {
    var s5 := " = {\n" + tail;
    var s3 := size + ("]" + s5);
    var s2 := name + ("[" + s3);
    var s1 := ty + (" " + s2);
    assert Expect("static const ", "static const " + s1) == Got((), s1) by {
      assert ("static const " + s1)[|"static const "|..] == s1;
    }
    ReadUntilChar(ty, ' ', s2);
    ReadUntilChar(name, '[', s3);
    ReadUntilChar(size, ']', s5);
    assert Expect(" = {\n", s5) == Got((), tail) by {
      assert s5[|" = {\n"|..] == tail;
    }
    assert [' '] == " " && ['['] == "[" && [']'] == "]";
  }

  /** An emitted array reads back as its type, its name, its length and its elements. */
  lemma EmittedReads(name: string, ty: string, f: Format, vals: seq<nat>, perLine: nat)
    requires perLine > 0 && ' ' !in ty && '[' !in name
    ensures ReadDeclaration(ArrayText(name, ty, f, vals, perLine))
         == Some(Declaration(ty, name, |vals|, vals))
  {
    RowsCorrect(vals, perLine);
    var rows := Rows(vals, perLine);
    var size := Digits(|vals|, Ten);
    var tail := RowsText(Conversion(f), rows) + "};\n";
    assert SkipSpace("};\n") == "};\n" && "};\n"[1..] == ";\n";
    assert ReadValues("};\n") == Got([], ";\n");
    ReadRowsText(f, rows, "};\n");
    assert vals + [] == vals;
    FormattedReads(Decimal, |vals|);
    NumeralIsPlain(size);
    HeaderGroups(ty, name, size, tail);
    Assoc(Header(ty, name, |vals|), RowsText(Conversion(f), rows), "};\n");
    ReadHeader(ty, name, size, |vals|, tail, vals);
  }
}
