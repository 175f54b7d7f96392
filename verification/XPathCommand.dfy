/** The option parser of the xpath command. */
module XPathCommand {
  import opened Common
  import opened GlobalOptions
  import opened TokenGrammar

  datatype XPathOptions = XPathOptions(inputFile: Option<string>, expression: Option<string>,
                                       countOnly: bool, booleanOnly: bool, verbose: bool,
                                       nsfile: Option<string>, format: OutputFormat)

  const XPATH_DEFAULTS := XPathOptions(None, None, false, false, false, None, Xml)

  const XPATH := Syntax({"-c", "--count", "-b", "--boolean", "--verbose", "-v", "--quiet", "-q"},
                        {"--nsfile", "-f", "--format"})

  function XPathToken(o: XPathOptions, t: Token): Outcome<XPathOptions> {
    match t
    case Flag(a) =>
      if a == "-c" || a == "--count" then Accepted(o.(countOnly := true))
      else if a == "-b" || a == "--boolean" then Accepted(o.(booleanOnly := true))
      else if a == "--verbose" || a == "-v" then Accepted(o.(verbose := true))
      else Accepted(o)
    case Valued(a, v) =>
      if a == "--nsfile" then Accepted(o.(nsfile := Some(v))) else Accepted(o.(format := FormatFromString(v)))
    case MissingValue(_) => Rejected(NoValue)
    case HelpToken => HelpWanted
    case Unknown(_) => Rejected(UnknownOption)
    case Operand(a) =>
      if o.inputFile.None? then Accepted(o.(inputFile := Some(a)))
      else if o.expression.None? then Accepted(o.(expression := Some(a)))
      else Rejected(TooManyOperands)
  }

  function XPathFinish(o: XPathOptions): Outcome<XPathOptions> {
    if o.inputFile.None? then Rejected(NoFile)
    else if o.expression.None? then Rejected(NoExpression)
    else if o.countOnly && o.booleanOnly then Rejected(Exclusive)
    else Accepted(o)
  }

  function XPathOutcome(o: XPathOptions, argv: seq<string>, i: nat): Outcome<XPathOptions> {
    OutcomeFrom(XPATH, XPathToken, XPathFinish, o, argv, i)
  }

  /** One round of the loop: the argument `argv[i]`, and its value if it takes one. */
  method XPathArgument(o: XPathOptions, positionalCount: nat, argv: seq<string>, i: nat)
    returns (r: Outcome<XPathOptions>, next: nat, count: nat)
    requires i < |argv|
    requires o.inputFile.None? <==> positionalCount == 0
    requires o.expression.None? <==> positionalCount <= 1
    ensures r == XPathToken(o, TokenAt(XPATH, argv, i))
    ensures r.Accepted? ==>
              && next == After(TokenAt(XPATH, argv, i), i)
              && (r.options.inputFile.None? <==> count == 0)
              && (r.options.expression.None? <==> count <= 1)
  {
    var a := argv[i];
    next, count := i + 1, positionalCount;
    if a == "-c" || a == "--count" {
      r := Accepted(o.(countOnly := true));
    } else if a == "-b" || a == "--boolean" {
      r := Accepted(o.(booleanOnly := true));
    } else if a == "--nsfile" {
      if i + 1 >= |argv| {
        return Rejected(NoValue), next, count;
      }
      r := Accepted(o.(nsfile := Some(argv[i + 1])));
      next := i + 2;
    } else if a == "-f" || a == "--format" {
      if i + 1 >= |argv| {
        return Rejected(NoValue), next, count;
      }
      r := Accepted(o.(format := FormatFromString(argv[i + 1])));
      next := i + 2;
    } else if a == "--verbose" || a == "-v" {
      r := Accepted(o.(verbose := true));
    } else if a == "--quiet" || a == "-q" {
      r := Accepted(o);
    } else if a == "-h" || a == "--help" {
      r := HelpWanted;
    } else if IsOption(a) && a != "-" {
      r := Rejected(UnknownOption);
    } else {
      if positionalCount == 0 {
        r := Accepted(o.(inputFile := Some(a)));
      } else if positionalCount == 1 {
        r := Accepted(o.(expression := Some(a)));
      } else {
        return Rejected(TooManyOperands), next, count;
      }
      count := positionalCount + 1;
    }
  }

  method XPathArguments(argv: seq<string>) returns (r: Outcome<XPathOptions>)
    ensures r == XPathOutcome(XPATH_DEFAULTS, argv, 1)
  {
    var opts := XPATH_DEFAULTS;
    var i: nat := 1;
    var positionalCount: nat := 0;
    while i < |argv|
      invariant opts.inputFile.None? <==> positionalCount == 0
      invariant opts.expression.None? <==> positionalCount <= 1
      invariant XPathOutcome(opts, argv, i) == XPathOutcome(XPATH_DEFAULTS, argv, 1)
      decreases |argv| - i
    {
      OutcomeStep(XPATH, XPathToken, XPathFinish, opts, argv, i);
      var round, next, count := XPathArgument(opts, positionalCount, argv, i);
      if !round.Accepted? {
        return round;
      }
      opts, i, positionalCount := round.options, next, count;
    }
    if opts.inputFile.None? {
      return Rejected(NoFile);
    }
    if opts.expression.None? {
      return Rejected(NoExpression);
    }
    if opts.countOnly && opts.booleanOnly {
      return Rejected(Exclusive);
    }
    r := Accepted(opts);
  }

  // ----- what it accepts -----

  predicate XPathEffect(o: XPathOptions, ts: seq<Token>, r: XPathOptions) {
    && r.countOnly == (o.countOnly || HasFlag(ts, {"-c", "--count"}))
    && r.booleanOnly == (o.booleanOnly || HasFlag(ts, {"-b", "--boolean"}))
    && r.verbose == (o.verbose || HasFlag(ts, {"--verbose", "-v"}))
    && r.nsfile == (if LastValue(ts, {"--nsfile"}).Some? then LastValue(ts, {"--nsfile"}) else o.nsfile)
    && r.format == (if LastValue(ts, {"-f", "--format"}).Some?
                    then FormatFromString(LastValue(ts, {"-f", "--format"}).value) else o.format)
  }

  /** The operands so far, followed by those of `ts`. */
  function XPathOperands(o: XPathOptions, ts: seq<Token>): seq<string> {
    Files(o.inputFile, []) + Files(o.expression, []) + Operands(ts)
  }

  /** The expression is only there behind the file. */
  predicate InOrder(o: XPathOptions) {
    o.expression.Some? ==> o.inputFile.Some?
  }

  lemma XPathTokenEffect(o: XPathOptions, t: Token)
    requires InOrder(o) && (t.Valued? ==> t.name in XPATH.valued)
    ensures var r := XPathToken(o, t);
            && (r.Accepted? <==> Sane(t) && (t.Operand? ==> o.expression.None?))
            && (r.Accepted? ==>
                  && InOrder(r.options) && XPathEffect(o, [t], r.options)
                  && XPathOperands(r.options, []) == XPathOperands(o, [t]))
  {
    OneToken(t, {"-c", "--count"});
    OneToken(t, {"-b", "--boolean"});
    OneToken(t, {"--verbose", "-v"});
    OneToken(t, {"--nsfile"});
    OneToken(t, {"-f", "--format"});
  }

  lemma XPathEffectHead(o: XPathOptions, ts: seq<Token>, m: XPathOptions, r: XPathOptions)
    requires ts != [] && XPathEffect(o, [ts[0]], m) && XPathEffect(m, ts[1..], r)
    ensures XPathEffect(o, ts, r)
  {
    HasFlagHead(ts, {"-c", "--count"});
    HasFlagHead(ts, {"-b", "--boolean"});
    HasFlagHead(ts, {"--verbose", "-v"});
    LastValueHead(ts, {"--nsfile"});
    LastValueHead(ts, {"-f", "--format"});
  }

  lemma XPathOperandsHead(o: XPathOptions, ts: seq<Token>, m: XPathOptions)
    requires ts != [] && XPathOperands(m, []) == XPathOperands(o, [ts[0]])
    ensures XPathOperands(o, ts) == XPathOperands(m, ts[1..])
  {
    assert [ts[0]][1..] == [];
    var before := Files(o.inputFile, []) + Files(o.expression, []);
    assert Operands(ts) == Operands([ts[0]]) + Operands(ts[1..]);
    assert XPathOperands(m, ts[1..]) == XPathOperands(m, []) + Operands(ts[1..]);
    Assoc(before, Operands([ts[0]]), Operands(ts[1..]));
  }

  predicate Both(o: XPathOptions, ts: seq<Token>) {
    (o.countOnly || HasFlag(ts, {"-c", "--count"})) && (o.booleanOnly || HasFlag(ts, {"-b", "--boolean"}))
  }

  lemma {:induction false} XPathAcceptsFrom(o: XPathOptions, ts: seq<Token>)
    requires InOrder(o) && forall i :: 0 <= i < |ts| && ts[i].Valued? ==> ts[i].name in XPATH.valued
    ensures var r := Interpreted(XPathToken, XPathFinish, o, ts);
            && (r.Accepted? <==> AllSane(ts) && |XPathOperands(o, ts)| == 2 && !Both(o, ts))
            && (r.Accepted? ==>
                  && XPathEffect(o, ts, r.options)
                  && r.options.inputFile == Some(XPathOperands(o, ts)[0])
                  && r.options.expression == Some(XPathOperands(o, ts)[1]))
    decreases ts
  {
    if ts != [] {
      var m := XPathToken(o, ts[0]);
      XPathTokenEffect(o, ts[0]);
      if m.Accepted? {
        XPathAcceptsFrom(m.options, ts[1..]);
        XPathOperandsHead(o, ts, m.options);
        HasFlagHead(ts, {"-c", "--count"});
        HasFlagHead(ts, {"-b", "--boolean"});
        var r := Interpreted(XPathToken, XPathFinish, o, ts);
        if r.Accepted? {
          XPathEffectHead(o, ts, m.options, r.options);
        }
      }
    }
  }

  /** The xpath command accepts exactly a file and an expression, in that order, known
      options, and not both of `--count` and `--boolean`. */
  lemma XPathAccepts(argv: seq<string>)
    requires argv != []
    ensures var ts, r := Tokens(XPATH, argv[1..]), XPathOutcome(XPATH_DEFAULTS, argv, 1);
            && (r.Accepted? <==>
                  && AllSane(ts) && |Operands(ts)| == 2
                  && !(HasFlag(ts, {"-c", "--count"}) && HasFlag(ts, {"-b", "--boolean"})))
            && (r.Accepted? ==>
                  && XPathEffect(XPATH_DEFAULTS, ts, r.options)
                  && r.options.inputFile == Some(Operands(ts)[0])
                  && r.options.expression == Some(Operands(ts)[1]))
  {
    var ts := Tokens(XPATH, argv[1..]);
    assert ts == Tokens(XPATH, if 1 < |argv| then argv[1..] else []);
    ValuedAreDeclared(XPATH, argv[1..]);
    XPathAcceptsFrom(XPATH_DEFAULTS, ts);
    assert XPathOperands(XPATH_DEFAULTS, ts) == Operands(ts);
  }
}
