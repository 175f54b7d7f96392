/** The option parser of the format command. */
module FormatCommand {
  import opened Common
  import opened GlobalOptions
  import opened TokenGrammar

  datatype FormatOptions = FormatOptions(inputFile: Option<string>, outputFile: Option<string>, indent: int,
                                         compact: bool, verbose: bool, encoding: string, format: OutputFormat)

  const FORMAT_DEFAULTS := FormatOptions(None, None, 2, false, false, "UTF-8", Xml)

  const FORMAT := Syntax({"--compact", "--verbose", "-v", "--quiet", "-q"},
                         {"-o", "--output", "-i", "--indent", "--encode", "--format"})

  // ----- `atoi` -----

  predicate IsAtoiSpace(c: char) {
    c == ' ' || '\t' <= c <= '\r'
  }

  function SkipAtoiSpace(s: string): string {
    if s != "" && IsAtoiSpace(s[0]) then SkipAtoiSpace(s[1..]) else s
  }

  function LeadingNumber(s: string, sofar: nat): nat {
    if s != "" && '0' <= s[0] <= '9' then LeadingNumber(s[1..], sofar * 10 + (s[0] as int - '0' as int)) else sofar
  }

  /** The integer at the start of a string; zero if there is none. */
  function Atoi(s: string): int {
    var t := SkipAtoiSpace(s);
    if t != "" && t[0] == '-' then 0 - LeadingNumber(t[1..], 0) as int
    else if t != "" && t[0] == '+' then LeadingNumber(t[1..], 0)
    else LeadingNumber(t, 0)
  }

  // ----- the parser -----

  predicate IsIndent(name: string) {
    name == "-i" || name == "--indent"
  }

  function FormatToken(o: FormatOptions, t: Token): Outcome<FormatOptions> {
    match t
    case Flag(a) =>
      if a == "--compact" then Accepted(o.(compact := true))
      else if a == "--verbose" || a == "-v" then Accepted(o.(verbose := true))
      else Accepted(o)
    case Valued(a, v) =>
      if a == "-o" || a == "--output" then Accepted(o.(outputFile := Some(v)))
      else if IsIndent(a) then if 0 <= Atoi(v) <= 16 then Accepted(o.(indent := Atoi(v))) else Rejected(BadIndent)
      else if a == "--encode" then Accepted(o.(encoding := v))
      else Accepted(o.(format := FormatFromString(v)))
    case MissingValue(_) => Rejected(NoValue)
    case HelpToken => HelpWanted
    case Unknown(_) => Rejected(UnknownOption)
    case Operand(a) =>
      if o.inputFile.Some? then Rejected(TooManyOperands) else Accepted(o.(inputFile := Some(a)))
  }

  function FormatFinish(o: FormatOptions): Outcome<FormatOptions> {
    if o.inputFile.None? then Rejected(NoFile)
    else if o.compact && o.indent != 2 then Rejected(Exclusive)
    else Accepted(o)
  }

  function FormatOutcome(o: FormatOptions, argv: seq<string>, i: nat): Outcome<FormatOptions> {
    OutcomeFrom(FORMAT, FormatToken, FormatFinish, o, argv, i)
  }

  method FormatArguments(argv: seq<string>) returns (r: Outcome<FormatOptions>)
    ensures r == FormatOutcome(FORMAT_DEFAULTS, argv, 1)
  {
    var opts := FORMAT_DEFAULTS;
    var i := 1;
    while i < |argv|
      invariant 1 <= i
      invariant FormatOutcome(opts, argv, i) == FormatOutcome(FORMAT_DEFAULTS, argv, 1)
      decreases |argv| - i
    {
      var a := argv[i];
      OutcomeStep(FORMAT, FormatToken, FormatFinish, opts, argv, i);
      if a in FORMAT.valued {
        if i + 1 >= |argv| {
          return Rejected(NoValue);
        }
        var v := argv[i + 1];
        if a == "-o" || a == "--output" {
          opts := opts.(outputFile := Some(v));
        } else if a == "-i" || a == "--indent" {
          opts := opts.(indent := Atoi(v));
          if opts.indent < 0 || opts.indent > 16 {
            return Rejected(BadIndent);
          }
        } else if a == "--encode" {
          opts := opts.(encoding := v);
        } else {
          opts := opts.(format := FormatFromString(v));
        }
        i := i + 2;
      } else if a == "--compact" {
        opts := opts.(compact := true);
        i := i + 1;
      } else if a == "--verbose" || a == "-v" {
        opts := opts.(verbose := true);
        i := i + 1;
      } else if a == "--quiet" || a == "-q" {
        i := i + 1;
      } else if a == "-h" || a == "--help" {
        return HelpWanted;
      } else if IsOption(a) && a != "-" {
        return Rejected(UnknownOption);
      } else {
        if opts.inputFile.Some? {
          return Rejected(TooManyOperands);
        }
        opts := opts.(inputFile := Some(a));
        i := i + 1;
      }
    }
    if opts.inputFile.None? {
      return Rejected(NoFile);
    }
    if opts.compact && opts.indent != 2 {
      return Rejected(Exclusive);
    }
    r := Accepted(opts);
  }

  // ----- what it accepts -----

  predicate FormatSane(ts: seq<Token>) {
    ts == [] ||
    (Sane(ts[0]) && (ts[0].Valued? && IsIndent(ts[0].name) ==> 0 <= Atoi(ts[0].value) <= 16) && FormatSane(ts[1..]))
  }

  /** The indentation that is in force after `ts`, when it was `indent` before. */
  function LastIndent(ts: seq<Token>, indent: int): int {
    var v := LastValue(ts, {"-i", "--indent"});
    if v.Some? then Atoi(v.value) else indent
  }

  predicate FormatEffect(o: FormatOptions, ts: seq<Token>, r: FormatOptions) {
    && r.compact == (o.compact || HasFlag(ts, {"--compact"}))
    && r.verbose == (o.verbose || HasFlag(ts, {"--verbose", "-v"}))
    && r.indent == LastIndent(ts, o.indent)
    && r.encoding == LastValue(ts, {"--encode"}).GetOr(o.encoding)
    && var output, format := LastValue(ts, {"-o", "--output"}), LastValue(ts, {"--format"});
       && r.outputFile == (if output.Some? then output else o.outputFile)
       && r.format == (if format.Some? then FormatFromString(format.value) else o.format)
  }

  lemma FormatTokenEffect(o: FormatOptions, t: Token)
    requires t.Valued? ==> t.name in FORMAT.valued
    ensures var r := FormatToken(o, t);
            && (r.Accepted? <==> FormatSane([t]) && (t.Operand? ==> o.inputFile.None?))
            && (r.Accepted? ==>
                  && FormatEffect(o, [t], r.options)
                  && r.options.inputFile == (if t.Operand? then Some(t.arg) else o.inputFile))
  {
    OneToken(t, {"--compact"});
    OneToken(t, {"--verbose", "-v"});
    OneToken(t, {"-i", "--indent"});
    OneToken(t, {"--encode"});
    OneToken(t, {"-o", "--output"});
    OneToken(t, {"--format"});
    assert [t][1..] == [];
  }

  lemma FormatEffectHead(o: FormatOptions, ts: seq<Token>, m: FormatOptions, r: FormatOptions)
    requires ts != [] && FormatEffect(o, [ts[0]], m) && FormatEffect(m, ts[1..], r)
    ensures FormatEffect(o, ts, r)
  {
    HasFlagHead(ts, {"--compact"});
    HasFlagHead(ts, {"--verbose", "-v"});
    LastValueHead(ts, {"-i", "--indent"});
    LastValueHead(ts, {"--encode"});
    LastValueHead(ts, {"-o", "--output"});
    LastValueHead(ts, {"--format"});
  }

  predicate DeclaredValues(ts: seq<Token>) {
    forall i :: 0 <= i < |ts| && ts[i].Valued? ==> ts[i].name in FORMAT.valued
  }

  /** What the options end up as before the final checks. */
  lemma {:induction false} FormatAcceptsFrom(o: FormatOptions, ts: seq<Token>)
    requires DeclaredValues(ts)
    ensures var r := Interpreted(FormatToken, FormatFinish, o, ts);
            && (r.Accepted? <==>
                  && FormatSane(ts) && |Files(o.inputFile, ts)| == 1
                  && !((o.compact || HasFlag(ts, {"--compact"})) && LastIndent(ts, o.indent) != 2))
            && (r.Accepted? ==>
                  && FormatEffect(o, ts, r.options)
                  && r.options.inputFile == Some(Files(o.inputFile, ts)[0]))
    decreases ts
  {
    if ts != [] {
      var m := FormatToken(o, ts[0]);
      FormatTokenEffect(o, ts[0]);
      assert FormatSane(ts) <==> FormatSane([ts[0]]) && FormatSane(ts[1..]) by {
        assert [ts[0]][1..] == [];
      }
      if m.Accepted? {
        FormatAcceptsFrom(m.options, ts[1..]);
        assert Files(m.options.inputFile, ts[1..]) == Files(o.inputFile, ts);
        FormatHead(o, ts, m.options);
        var r := Interpreted(FormatToken, FormatFinish, o, ts);
        if r.Accepted? {
          FormatEffectHead(o, ts, m.options, r.options);
        }
      }
    }
  }

  lemma FormatHead(o: FormatOptions, ts: seq<Token>, m: FormatOptions)
    requires ts != [] && FormatEffect(o, [ts[0]], m)
    ensures LastIndent(ts, o.indent) == LastIndent(ts[1..], m.indent)
    ensures (o.compact || HasFlag(ts, {"--compact"})) <==> (m.compact || HasFlag(ts[1..], {"--compact"}))
  {
    HasFlagHead(ts, {"--compact"});
    LastValueHead(ts, {"-i", "--indent"});
  }

  /** The format command accepts exactly one file, known options, indentations from 0 to
      16, and `--compact` only with an indentation that ends up at 2. Of every option with
      a value the last one counts. */
  lemma FormatAccepts(argv: seq<string>)
    requires argv != []
    ensures var ts, r := Tokens(FORMAT, argv[1..]), FormatOutcome(FORMAT_DEFAULTS, argv, 1);
            && (r.Accepted? <==>
                  && FormatSane(ts) && |Operands(ts)| == 1
                  && !(HasFlag(ts, {"--compact"}) && LastIndent(ts, 2) != 2))
            && (r.Accepted? ==>
                  && FormatEffect(FORMAT_DEFAULTS, ts, r.options)
                  && r.options.inputFile == Some(Operands(ts)[0]))
  {
    var ts := Tokens(FORMAT, argv[1..]);
    assert ts == Tokens(FORMAT, if 1 < |argv| then argv[1..] else []);
    ValuedAreDeclared(FORMAT, argv[1..]);
    FormatAcceptsFrom(FORMAT_DEFAULTS, ts);
    assert Files(None, ts) == Operands(ts);
  }
}
