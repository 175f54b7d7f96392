/** The option parsers of the commands, stated on the arguments as they are written: which
    strings are options, what each one does, and which command lines are accepted. */
module OptionForms {
  import opened Common
  import opened Filtering
  import opened TokenGrammar
  import opened ParseCommand
  import opened FormatCommand
  import opened XPathCommand
  import EmitArray

  /** A single dash is a file: standard input. */
  predicate Dashed(a: string) {
    a != "" && a[0] == '-' && a != "-"
  }

  predicate NotDashed(a: string) {
    !Dashed(a)
  }

  function Itself(a: string): string {
    a
  }

  // ----- arguments without options that take a value -----

  predicate Plain(g: Syntax, args: seq<string>) {
    forall a | a in args :: a !in g.valued
  }

  predicate FlagsDashed(g: Syntax) {
    forall f | f in g.flags :: Dashed(f)
  }

  lemma PlainTail(g: Syntax, args: seq<string>)
    requires args != [] && Plain(g, args)
    ensures args[0] !in g.valued && Plain(g, args[1..])
    ensures Tokens(g, args)[1..] == Tokens(g, args[1..])
    ensures Tokens(g, args) != [] && Tokens(g, args)[0] == TokenAt(g, args, 0)
  {
    assert args[0] in args && forall a | a in args[1..] :: a in args;
  }

  lemma {:induction false} PlainOperands(g: Syntax, args: seq<string>)
    requires Plain(g, args) && FlagsDashed(g)
    ensures Lists(Operands(Tokens(g, args)), args, NotDashed, Itself)
  {
    if args == [] {
      ListsNone(NotDashed, Itself);
    } else {
      PlainTail(g, args);
      PlainOperands(g, args[1..]);
      ListsHead(Operands(Tokens(g, args[1..])), args, NotDashed, Itself);
    }
  }

  /** Of the arguments that start with a dash, only those of the flags are accepted. */
  lemma {:induction false} PlainSane(g: Syntax, args: seq<string>)
    requires Plain(g, args) && FlagsDashed(g)
    ensures AllSane(Tokens(g, args)) <==> forall a | a in args && Dashed(a) :: a in g.flags
  {
    if args != [] {
      PlainTail(g, args);
      PlainSane(g, args[1..]);
      assert forall a :: a in args <==> a == args[0] || a in args[1..];
    }
  }

  lemma {:induction false} PlainFlags(g: Syntax, args: seq<string>, names: set<string>)
    requires Plain(g, args) && names <= g.flags
    ensures HasFlag(Tokens(g, args), names) <==> exists a :: a in args && a in names
  {
    if args != [] {
      PlainTail(g, args);
      PlainFlags(g, args[1..], names);
      assert forall a :: a in args <==> a == args[0] || a in args[1..];
    }
  }

  lemma {:induction false} PlainValues(g: Syntax, args: seq<string>, names: set<string>)
    requires Plain(g, args)
    ensures LastValue(Tokens(g, args), names) == None
    ensures forall t | t in Tokens(g, args) :: !t.Valued?
  {
    if args != [] {
      PlainTail(g, args);
      PlainValues(g, args[1..], names);
      var ts := Tokens(g, args);
      assert forall t | t in ts :: t == ts[0] || t in ts[1..];
    }
  }

  /** The only argument of its kind is the one that is listed. */
  lemma OnlyOperand(g: Syntax, args: seq<string>)
    requires Plain(g, args) && FlagsDashed(g)
    ensures var operands := Operands(Tokens(g, args));
            && |operands| == CountIf(args, NotDashed)
            && (|operands| == 1 ==> forall a | a in args && !Dashed(a) :: a == operands[0])
            && (|operands| == 1 ==> operands[0] in args && !Dashed(operands[0]))
  {
    PlainOperands(g, args);
    var operands := Operands(Tokens(g, args));
    forall a | |operands| == 1 && a in args && !Dashed(a) ensures a == operands[0] {
      var i :| 0 <= i < |args| && args[i] == a;
      assert NotDashed(args[i]);
    }
    if |operands| == 1 {
      var i := PositionOf(args, NotDashed, 0);
    }
  }

  // ----- the parse command -----

  predicate IsParseFlag(a: string) {
    || a == "--validate" || a == "--recover" || a == "--noout"
    || a == "--verbose" || a == "-v" || a == "--quiet" || a == "-q"
  }

  /** What one argument does, at any place and whatever came before. */
  lemma ParseRound(o: ParseOptions, argv: seq<string>, i: nat)
    requires i < |argv|
    ensures var a, r := argv[i], ParseOutcome(o, argv, i);
            && (a == "--validate" ==> r == ParseOutcome(o.(validate := true), argv, i + 1))
            && (a == "--recover" ==> r == ParseOutcome(o.(recover := true), argv, i + 1))
            && (a == "--noout" ==> r == ParseOutcome(o.(noout := true), argv, i + 1))
            && (a == "--verbose" || a == "-v" ==> r == ParseOutcome(o.(verbose := true), argv, i + 1))
            && (a == "--quiet" || a == "-q" ==> r == ParseOutcome(o, argv, i + 1))
            && (a == "-f" || a == "--format" ==>
                  && (i + 1 == |argv| ==> r == Rejected(NoValue))
                  && (i + 1 < |argv| ==>
                        var v := argv[i + 1];
                        && (v == "xml" ==> r == ParseOutcome(o.(format := Xml), argv, i + 2))
                        && (v == "json" ==> r == ParseOutcome(o.(format := Json), argv, i + 2))
                        && (v == "text" ==> r == ParseOutcome(o.(format := Text), argv, i + 2))
                        && (v != "xml" && v != "json" && v != "text" ==> r == Rejected(BadFormat))))
            && (a == "-h" || a == "--help" ==> r == HelpWanted)
  {
    OutcomeStep(PARSE, ParseToken, ParseFinish, o, argv, i);
  }

  lemma ParseOther(o: ParseOptions, argv: seq<string>, i: nat)
    requires i < |argv| && !IsParseFlag(argv[i]) && argv[i] != "-f" && argv[i] != "--format"
    requires argv[i] != "-h" && argv[i] != "--help"
    ensures var a, r := argv[i], ParseOutcome(o, argv, i);
            && (Dashed(a) ==> r == Rejected(UnknownOption))
            && (!Dashed(a) && o.inputFile.Some? ==> r == Rejected(TooManyOperands))
            && (!Dashed(a) && o.inputFile.None? ==> r == ParseOutcome(o.(inputFile := Some(a)), argv, i + 1))
  {
    OutcomeStep(PARSE, ParseToken, ParseFinish, o, argv, i);
  }

  lemma ParseSyntax(args: seq<string>)
    requires forall a | a in args :: a != "-f" && a != "--format"
    ensures Plain(PARSE, args) && FlagsDashed(PARSE)
    ensures forall a :: a in PARSE.flags <==> IsParseFlag(a)
  {
  }

  lemma {:induction false} ParseSaneWithoutValues(ts: seq<Token>)
    requires forall t | t in ts :: !t.Valued?
    ensures ParseSane(ts) <==> AllSane(ts)
  {
    if ts != [] {
      assert ts[0] in ts && forall t | t in ts[1..] :: t in ts;
      ParseSaneWithoutValues(ts[1..]);
    }
  }

  /** Without a format option: the parse command accepts exactly one argument that is no
      option, and every other argument must be one of seven flags. */
  lemma ParsePlain(command: string, args: seq<string>)
    requires forall a | a in args :: a != "-f" && a != "--format"
    ensures var r := ParseOutcome(PARSE_DEFAULTS, [command] + args, 1);
            && (r.Accepted? <==> CountIf(args, NotDashed) == 1 && forall a | a in args && Dashed(a) :: IsParseFlag(a))
            && (r.Accepted? ==>
                  && r.options.inputFile.Some?
                  && r.options.inputFile.value in args && !Dashed(r.options.inputFile.value)
                  && r.options.format == Xml
                  && (r.options.validate <==> "--validate" in args)
                  && (r.options.recover <==> "--recover" in args)
                  && (r.options.noout <==> "--noout" in args)
                  && (r.options.verbose <==> "--verbose" in args || "-v" in args))
  {
    var argv := [command] + args;
    assert argv[1..] == args;
    ParseSyntax(args);
    ParseAccepts(argv);
    PlainSane(PARSE, args);
    PlainValues(PARSE, args, {"-f", "--format"});
    ParseSaneWithoutValues(Tokens(PARSE, args));
    OnlyOperand(PARSE, args);
    PlainFlag(PARSE, args, "--validate");
    PlainFlag(PARSE, args, "--recover");
    PlainFlag(PARSE, args, "--noout");
    PlainFlags(PARSE, args, {"--verbose", "-v"});
    assert "--verbose" in args || "-v" in args <==> exists a :: a in args && a in {"--verbose", "-v"};
  }

  lemma PlainFlag(g: Syntax, args: seq<string>, name: string)
    requires Plain(g, args) && name in g.flags
    ensures HasFlag(Tokens(g, args), {name}) <==> name in args
  {
    PlainFlags(g, args, {name});
    assert name in args <==> exists a :: a in args && a in {name};
  }

  // ----- the format command -----

  predicate IsFormatFlag(a: string) {
    a == "--compact" || a == "--verbose" || a == "-v" || a == "--quiet" || a == "-q"
  }

  predicate IsFormatValued(a: string) {
    a == "-o" || a == "--output" || a == "-i" || a == "--indent" || a == "--encode" || a == "--format"
  }

  lemma FormatRound(o: FormatOptions, argv: seq<string>, i: nat)
    requires i < |argv|
    ensures var a, r := argv[i], FormatOutcome(o, argv, i);
            && (a == "--compact" ==> r == FormatOutcome(o.(compact := true), argv, i + 1))
            && (a == "--verbose" || a == "-v" ==> r == FormatOutcome(o.(verbose := true), argv, i + 1))
            && (a == "--quiet" || a == "-q" ==> r == FormatOutcome(o, argv, i + 1))
            && (a == "-h" || a == "--help" ==> r == HelpWanted)
            && (IsFormatValued(a) && i + 1 == |argv| ==> r == Rejected(NoValue))
  {
    OutcomeStep(FORMAT, FormatToken, FormatFinish, o, argv, i);
  }

  /** An option with its value. A format name that is not known stands for XML. */
  lemma FormatValueRound(o: FormatOptions, argv: seq<string>, i: nat)
    requires i + 1 < |argv|
    ensures var a, v, r := argv[i], argv[i + 1], FormatOutcome(o, argv, i);
            && (a == "-o" || a == "--output" ==> r == FormatOutcome(o.(outputFile := Some(v)), argv, i + 2))
            && (a == "-i" || a == "--indent" ==>
                  if 0 <= Atoi(v) <= 16 then r == FormatOutcome(o.(indent := Atoi(v)), argv, i + 2)
                  else r == Rejected(BadIndent))
            && (a == "--encode" ==> r == FormatOutcome(o.(encoding := v), argv, i + 2))
            && (a == "--format" && v == "json" ==> r == FormatOutcome(o.(format := Json), argv, i + 2))
            && (a == "--format" && v == "text" ==> r == FormatOutcome(o.(format := Text), argv, i + 2))
            && (a == "--format" && v != "json" && v != "text" ==> r == FormatOutcome(o.(format := Xml), argv, i + 2))
  {
    OutcomeStep(FORMAT, FormatToken, FormatFinish, o, argv, i);
  }

  lemma FormatOther(o: FormatOptions, argv: seq<string>, i: nat)
    requires i < |argv| && !IsFormatFlag(argv[i]) && !IsFormatValued(argv[i])
    requires argv[i] != "-h" && argv[i] != "--help"
    ensures var a, r := argv[i], FormatOutcome(o, argv, i);
            && (Dashed(a) ==> r == Rejected(UnknownOption))
            && (!Dashed(a) && o.inputFile.Some? ==> r == Rejected(TooManyOperands))
            && (!Dashed(a) && o.inputFile.None? ==> r == FormatOutcome(o.(inputFile := Some(a)), argv, i + 1))
  {
    OutcomeStep(FORMAT, FormatToken, FormatFinish, o, argv, i);
  }

  lemma FormatSyntax(args: seq<string>)
    requires forall a | a in args :: !IsFormatValued(a)
    ensures Plain(FORMAT, args) && FlagsDashed(FORMAT)
    ensures forall a :: a in FORMAT.flags <==> IsFormatFlag(a)
  {
  }

  lemma {:induction false} FormatSaneWithoutValues(ts: seq<Token>)
    requires forall t | t in ts :: !t.Valued?
    ensures FormatSane(ts) <==> AllSane(ts)
  {
    if ts != [] {
      assert ts[0] in ts && forall t | t in ts[1..] :: t in ts;
      FormatSaneWithoutValues(ts[1..]);
    }
  }

  /** Without options that take a value: exactly one argument that is no option, every other
      argument one of five flags; the output is XML in UTF-8, indented by 2. */
  lemma FormatPlain(command: string, args: seq<string>)
    requires forall a | a in args :: !IsFormatValued(a)
    ensures var r := FormatOutcome(FORMAT_DEFAULTS, [command] + args, 1);
            && (r.Accepted? <==> CountIf(args, NotDashed) == 1 && forall a | a in args && Dashed(a) :: IsFormatFlag(a))
            && (r.Accepted? ==>
                  && r.options.inputFile.Some?
                  && r.options.inputFile.value in args && !Dashed(r.options.inputFile.value)
                  && r.options.outputFile == None && r.options.indent == 2
                  && r.options.encoding == "UTF-8" && r.options.format == Xml
                  && (r.options.compact <==> "--compact" in args)
                  && (r.options.verbose <==> "--verbose" in args || "-v" in args))
  {
    var argv := [command] + args;
    assert argv[1..] == args;
    FormatSyntax(args);
    FormatAccepts(argv);
    PlainSane(FORMAT, args);
    FormatPlainValues(args);
    OnlyOperand(FORMAT, args);
    PlainFlag(FORMAT, args, "--compact");
    PlainFlags(FORMAT, args, {"--verbose", "-v"});
    assert "--verbose" in args || "-v" in args <==> exists a :: a in args && a in {"--verbose", "-v"};
  }

  lemma FormatPlainValues(args: seq<string>)
    requires Plain(FORMAT, args)
    ensures var ts := Tokens(FORMAT, args);
            && (FormatSane(ts) <==> AllSane(ts)) && LastIndent(ts, 2) == 2
            && LastValue(ts, {"--encode"}) == LastValue(ts, {"-o", "--output"}) == LastValue(ts, {"--format"}) == None
  {
    PlainValues(FORMAT, args, {"-i", "--indent"});
    PlainValues(FORMAT, args, {"--encode"});
    PlainValues(FORMAT, args, {"-o", "--output"});
    PlainValues(FORMAT, args, {"--format"});
    FormatSaneWithoutValues(Tokens(FORMAT, args));
  }

  // ----- the xpath command -----

  predicate IsXPathFlag(a: string) {
    || a == "-c" || a == "--count" || a == "-b" || a == "--boolean"
    || a == "--verbose" || a == "-v" || a == "--quiet" || a == "-q"
  }

  predicate IsXPathValued(a: string) {
    a == "--nsfile" || a == "-f" || a == "--format"
  }

  lemma XPathRound(o: XPathOptions, argv: seq<string>, i: nat)
    requires i < |argv|
    ensures var a, r := argv[i], XPathOutcome(o, argv, i);
            && (a == "-c" || a == "--count" ==> r == XPathOutcome(o.(countOnly := true), argv, i + 1))
            && (a == "-b" || a == "--boolean" ==> r == XPathOutcome(o.(booleanOnly := true), argv, i + 1))
            && (a == "--verbose" || a == "-v" ==> r == XPathOutcome(o.(verbose := true), argv, i + 1))
            && (a == "--quiet" || a == "-q" ==> r == XPathOutcome(o, argv, i + 1))
            && (a == "-h" || a == "--help" ==> r == HelpWanted)
            && (IsXPathValued(a) && i + 1 == |argv| ==> r == Rejected(NoValue))
  {
    OutcomeStep(XPATH, XPathToken, XPathFinish, o, argv, i);
  }

  lemma XPathValueRound(o: XPathOptions, argv: seq<string>, i: nat)
    requires i + 1 < |argv|
    ensures var a, v, r := argv[i], argv[i + 1], XPathOutcome(o, argv, i);
            && (a == "--nsfile" ==> r == XPathOutcome(o.(nsfile := Some(v)), argv, i + 2))
            && (a == "-f" || a == "--format" ==>
                  && (v == "json" ==> r == XPathOutcome(o.(format := Json), argv, i + 2))
                  && (v == "text" ==> r == XPathOutcome(o.(format := Text), argv, i + 2))
                  && (v != "json" && v != "text" ==> r == XPathOutcome(o.(format := Xml), argv, i + 2)))
  {
    OutcomeStep(XPATH, XPathToken, XPathFinish, o, argv, i);
  }

  lemma XPathOther(o: XPathOptions, argv: seq<string>, i: nat)
    requires i < |argv| && !IsXPathFlag(argv[i]) && !IsXPathValued(argv[i])
    requires argv[i] != "-h" && argv[i] != "--help"
    ensures var a, r := argv[i], XPathOutcome(o, argv, i);
            && (Dashed(a) ==> r == Rejected(UnknownOption))
            && (!Dashed(a) && o.inputFile.None? ==> r == XPathOutcome(o.(inputFile := Some(a)), argv, i + 1))
            && (!Dashed(a) && o.inputFile.Some? && o.expression.None? ==>
                  r == XPathOutcome(o.(expression := Some(a)), argv, i + 1))
            && (!Dashed(a) && o.inputFile.Some? && o.expression.Some? ==> r == Rejected(TooManyOperands))
  {
    OutcomeStep(XPATH, XPathToken, XPathFinish, o, argv, i);
  }

  lemma XPathSyntax(args: seq<string>)
    requires forall a | a in args :: !IsXPathValued(a)
    ensures Plain(XPATH, args) && FlagsDashed(XPATH)
    ensures forall a :: a in XPATH.flags <==> IsXPathFlag(a)
  {
  }

  predicate Either(args: seq<string>, a: string, b: string) {
    a in args || b in args
  }

  lemma PlainEither(g: Syntax, args: seq<string>, a: string, b: string)
    requires Plain(g, args) && a in g.flags && b in g.flags
    ensures HasFlag(Tokens(g, args), {a, b}) <==> Either(args, a, b)
  {
    PlainFlags(g, args, {a, b});
    assert Either(args, a, b) <==> exists x :: x in args && x in {a, b};
  }

  /** Without options that take a value: exactly two arguments that are no options, the file
      first and the expression behind it, and not both of the two kinds of answer. */
  lemma XPathPlain(command: string, args: seq<string>)
    requires forall a | a in args :: !IsXPathValued(a)
    ensures var r := XPathOutcome(XPATH_DEFAULTS, [command] + args, 1);
            && (r.Accepted? <==>
                  && CountIf(args, NotDashed) == 2 && (forall a | a in args && Dashed(a) :: IsXPathFlag(a))
                  && !(Either(args, "-c", "--count") && Either(args, "-b", "--boolean")))
            && (r.Accepted? ==>
                  && r.options.inputFile.Some? && r.options.expression.Some?
                  && Lists([r.options.inputFile.value, r.options.expression.value], args, NotDashed, Itself)
                  && (r.options.countOnly <==> Either(args, "-c", "--count"))
                  && (r.options.booleanOnly <==> Either(args, "-b", "--boolean"))
                  && (r.options.verbose <==> Either(args, "--verbose", "-v"))
                  && r.options.nsfile == None && r.options.format == Xml)
  {
    var argv := [command] + args;
    assert argv[1..] == args;
    XPathSyntax(args);
    XPathAccepts(argv);
    PlainSane(XPATH, args);
    PlainValues(XPATH, args, {"--nsfile"});
    PlainValues(XPATH, args, {"-f", "--format"});
    PlainOperands(XPATH, args);
    PlainEither(XPATH, args, "-c", "--count");
    PlainEither(XPATH, args, "-b", "--boolean");
    PlainEither(XPATH, args, "--verbose", "-v");
    var operands := Operands(Tokens(XPATH, args));
    assert |operands| == 2 ==> operands == [operands[0], operands[1]];
  }

  /** What is checked when the arguments are used up. */
  lemma LastChecks(p: ParseOptions, f: FormatOptions, x: XPathOptions, argv: seq<string>)
    ensures ParseOutcome(p, argv, |argv|) == if p.inputFile.None? then Rejected(NoFile) else Accepted(p)
    ensures FormatOutcome(f, argv, |argv|) ==
              if f.inputFile.None? then Rejected(NoFile)
              else if f.compact && f.indent != 2 then Rejected(Exclusive)
              else Accepted(f)
    ensures XPathOutcome(x, argv, |argv|) ==
              if x.inputFile.None? then Rejected(NoFile)
              else if x.expression.None? then Rejected(NoExpression)
              else if x.countOnly && x.booleanOnly then Rejected(Exclusive)
              else Accepted(x)
  {
  }

  // ----- indentations -----

  lemma {:induction false} LeadingSnoc(s: string, d: char, sofar: nat)
    requires (forall c | c in s :: '0' <= c <= '9') && '0' <= d <= '9'
    ensures LeadingNumber(s + [d], sofar) == LeadingNumber(s, sofar) * 10 + (d as int - '0' as int)
  {
    if s == "" {
      assert (s + [d])[1..] == "";
    } else {
      assert forall c | c in s[1..] :: c in s;
      assert s[0] in s && (s + [d])[0] == s[0] && (s + [d])[1..] == s[1..] + [d];
      LeadingSnoc(s[1..], d, sofar * 10 + (s[0] as int - '0' as int));
    }
  }

  lemma {:induction false} DecimalReads(n: nat)
    ensures var s := EmitArray.Digits(n, EmitArray.Ten);
            s != "" && (forall c | c in s :: '0' <= c <= '9') && LeadingNumber(s, 0) == n
  {
    if n >= 10 {
      DecimalReads(n / 10);
      LeadingSnoc(EmitArray.Digits(n / 10, EmitArray.Ten), EmitArray.DigitOf(n % 10), 0);
    } else {
      assert [EmitArray.DigitOf(n)][1..] == "";
    }
  }

  /** A number is read from its decimal digits, with a sign or without. */
  lemma AtoiReads(n: nat)
    ensures var s := EmitArray.Digits(n, EmitArray.Ten);
            Atoi(s) == n && Atoi("+" + s) == n && Atoi("-" + s) == 0 - n as int
  {
    DecimalReads(n);
    var s := EmitArray.Digits(n, EmitArray.Ten);
    assert s[0] in s;
    assert ("+" + s)[1..] == s && ("-" + s)[1..] == s;
  }
}
