/** The option parser of the parse command. */
module ParseCommand {
  import opened Common
  import opened GlobalOptions
  import opened TokenGrammar

  datatype ParseOptions = ParseOptions(inputFile: Option<string>, validate: bool, recover: bool,
                                       noout: bool, verbose: bool, format: OutputFormat)

  const PARSE_DEFAULTS := ParseOptions(None, false, false, false, false, Xml)

  const PARSE := Syntax({"--validate", "--recover", "--noout", "--verbose", "-v", "--quiet", "-q"},
                        {"-f", "--format"})

  function ParseToken(o: ParseOptions, t: Token): Outcome<ParseOptions> {
    match t
    case Flag(a) =>
      if a == "--validate" then Accepted(o.(validate := true))
      else if a == "--recover" then Accepted(o.(recover := true))
      else if a == "--noout" then Accepted(o.(noout := true))
      else if a == "--verbose" || a == "-v" then Accepted(o.(verbose := true))
      else Accepted(o)
    case Valued(_, v) =>
      if IsFormatName(v) then Accepted(o.(format := FormatFromString(v))) else Rejected(BadFormat)
    case MissingValue(_) => Rejected(NoValue)
    case HelpToken => HelpWanted
    case Unknown(_) => Rejected(UnknownOption)
    case Operand(a) =>
      if o.inputFile.Some? then Rejected(TooManyOperands) else Accepted(o.(inputFile := Some(a)))
  }

  function ParseFinish(o: ParseOptions): Outcome<ParseOptions> {
    if o.inputFile.None? then Rejected(NoFile) else Accepted(o)
  }

  function ParseOutcome(o: ParseOptions, argv: seq<string>, i: nat): Outcome<ParseOptions> {
    OutcomeFrom(PARSE, ParseToken, ParseFinish, o, argv, i)
  }

  method ParseArguments(argv: seq<string>) returns (r: Outcome<ParseOptions>)
    ensures r == ParseOutcome(PARSE_DEFAULTS, argv, 1)
  {
    var opts := PARSE_DEFAULTS;
    var i := 1;
    while i < |argv|
      invariant 1 <= i
      invariant ParseOutcome(opts, argv, i) == ParseOutcome(PARSE_DEFAULTS, argv, 1)
      decreases |argv| - i
    {
      var a := argv[i];
      OutcomeStep(PARSE, ParseToken, ParseFinish, opts, argv, i);
      if a == "--validate" {
        opts := opts.(validate := true);
        i := i + 1;
      } else if a == "--recover" {
        opts := opts.(recover := true);
        i := i + 1;
      } else if a == "--noout" {
        opts := opts.(noout := true);
        i := i + 1;
      } else if a == "-f" || a == "--format" {
        if i + 1 >= |argv| {
          return Rejected(NoValue);
        }
        if argv[i + 1] != "xml" && argv[i + 1] != "json" && argv[i + 1] != "text" {
          return Rejected(BadFormat);
        }
        opts := opts.(format := FormatFromString(argv[i + 1]));
        i := i + 2;
      } else if a == "--verbose" || a == "-v" {
        opts := opts.(verbose := true);
        i := i + 1;
      } else if a == "--quiet" || a == "-q" {
        i := i + 1;
      } else if a == "-h" || a == "--help" {
        return HelpWanted;
      } else if IsOption(a) && a != "-" {
        return Rejected(UnknownOption);
      } else {
        if opts.inputFile.Some? {
          return Rejected(TooManyOperands);
        }
        opts := opts.(inputFile := Some(a));
        i := i + 1;
      }
    }
    r := if opts.inputFile.None? then Rejected(NoFile) else Accepted(opts);
  }

  predicate ParseSane(ts: seq<Token>) {
    ts == [] || (Sane(ts[0]) && (ts[0].Valued? ==> IsFormatName(ts[0].value)) && ParseSane(ts[1..]))
  }

  /** The options with the effect of `ts` added to `o`, as far as flags and values go. */
  predicate ParseEffect(o: ParseOptions, ts: seq<Token>, r: ParseOptions) {
    && r.verbose == (o.verbose || HasFlag(ts, {"--verbose", "-v"}))
    && r.validate == (o.validate || HasFlag(ts, {"--validate"}))
    && r.recover == (o.recover || HasFlag(ts, {"--recover"}))
    && r.noout == (o.noout || HasFlag(ts, {"--noout"}))
  }

  lemma ParseTokenEffect(o: ParseOptions, t: Token)
    ensures var r := ParseToken(o, t);
            && (r.Accepted? <==> Sane(t) && (t.Valued? ==> IsFormatName(t.value)) && (t.Operand? ==> o.inputFile.None?))
            && (r.Accepted? ==>
                  && ParseEffect(o, [t], r.options)
                  && r.options.inputFile == (if t.Operand? then Some(t.arg) else o.inputFile)
                  && r.options.format == (if t.Valued? then FormatFromString(t.value) else o.format))
  {
    assert [t][1..] == [];
  }

  lemma ParseEffectHead(o: ParseOptions, ts: seq<Token>, m: ParseOptions, r: ParseOptions)
    requires ts != [] && ParseEffect(o, [ts[0]], m) && ParseEffect(m, ts[1..], r)
    ensures ParseEffect(o, ts, r)
  {
    HasFlagHead(ts, {"--verbose", "-v"});
    HasFlagHead(ts, {"--validate"});
    HasFlagHead(ts, {"--recover"});
    HasFlagHead(ts, {"--noout"});
  }

  lemma {:induction false} ParseAcceptsFrom(o: ParseOptions, ts: seq<Token>)
    ensures var r := Interpreted(ParseToken, ParseFinish, o, ts);
            && (r.Accepted? <==> ParseSane(ts) && |Files(o.inputFile, ts)| == 1)
            && (r.Accepted? ==>
                  && ParseEffect(o, ts, r.options)
                  && r.options.inputFile == Some(Files(o.inputFile, ts)[0]))
    decreases ts
  {
    if ts != [] {
      var m := ParseToken(o, ts[0]);
      ParseTokenEffect(o, ts[0]);
      OneToken(ts[0], {});
      if m.Accepted? {
        ParseAcceptsFrom(m.options, ts[1..]);
        assert Files(m.options.inputFile, ts[1..]) == Files(o.inputFile, ts);
        var r := Interpreted(ParseToken, ParseFinish, o, ts);
        if r.Accepted? {
          ParseEffectHead(o, ts, m.options, r.options);
        }
      }
    }
  }

  lemma {:induction false} ParseFormatFrom(o: ParseOptions, ts: seq<Token>)
    requires Interpreted(ParseToken, ParseFinish, o, ts).Accepted?
    requires forall i :: 0 <= i < |ts| && ts[i].Valued? ==> ts[i].name in PARSE.valued
    ensures var r := Interpreted(ParseToken, ParseFinish, o, ts);
            r.options.format == FormatFromString(LastValue(ts, PARSE.valued).GetOr(FormatName(o.format)))
    decreases ts
  {
    FormatNames(o.format, "xml");
    if ts != [] {
      ParseTokenEffect(o, ts[0]);
      var m := ParseToken(o, ts[0]).options;
      if ts[0].Valued? {
        FormatNames(o.format, ts[0].value);
      }
      LastValueHead(ts, PARSE.valued);
      OneToken(ts[0], PARSE.valued);
      ParseFormatFrom(m, ts[1..]);
    }
  }

  /** The parse command accepts exactly one file, known options and the three format
      names, in any order; its flags are the ones given and its format is the last one. */
  lemma ParseAccepts(argv: seq<string>)
    requires argv != []
    ensures var ts, r := Tokens(PARSE, argv[1..]), ParseOutcome(PARSE_DEFAULTS, argv, 1);
            && (r.Accepted? <==> ParseSane(ts) && |Operands(ts)| == 1)
            && (r.Accepted? ==>
                  && ParseEffect(PARSE_DEFAULTS, ts, r.options)
                  && r.options.inputFile == Some(Operands(ts)[0])
                  && r.options.format == FormatFromString(LastValue(ts, {"-f", "--format"}).GetOr("xml")))
  {
    var ts := Tokens(PARSE, argv[1..]);
    assert ts == Tokens(PARSE, if 1 < |argv| then argv[1..] else []);
    ParseAcceptsFrom(PARSE_DEFAULTS, ts);
    assert Files(None, ts) == Operands(ts);
    ValuedAreDeclared(PARSE, argv[1..]);
    if ParseOutcome(PARSE_DEFAULTS, argv, 1).Accepted? {
      ParseFormatFrom(PARSE_DEFAULTS, ts);
    }
  }
}
