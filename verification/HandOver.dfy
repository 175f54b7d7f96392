/** What a command receives, stated on the command line itself. */
module HandOver {
  import opened Common
  import opened Filtering
  import opened GlobalOptions
  import opened TokenGrammar
  import opened ParseCommand
  import opened CommandLine

  /** The arguments that the program keeps to itself. */
  predicate IsGlobal(arg: string) {
    arg == "-h" || arg == "--help" || arg == "--color" || arg == "--no-color" || arg == "--version"
  }

  function Itself(arg: string): string {
    arg
  }

  predicate IsPassed(arg: string) {
    !IsGlobal(arg)
  }

  lemma {:induction false} KeptLists(args: seq<string>)
    ensures Lists(Kept(args), args, IsPassed, Itself)
  {
    if args == [] {
      ListsNone(IsPassed, Itself);
    } else {
      var init, last := args[..|args| - 1], args[|args| - 1];
      KeptLists(init);
      ListsSnoc(Kept(init), init, last, IsPassed, Itself);
      assert init + [last] == args;
    }
  }

  lemma {:induction false} PositionalLists(args: seq<string>)
    ensures Lists(Positional(args), args, (arg: string) => !(arg != "" && arg[0] == '-'), Itself)
  {
    var p := (arg: string) => !(arg != "" && arg[0] == '-');
    if args == [] {
      ListsNone(p, Itself);
    } else {
      var init, last := args[..|args| - 1], args[|args| - 1];
      PositionalLists(init);
      ListsSnoc(Positional(init), init, last, p, Itself);
      assert init + [last] == args;
    }
  }

  /** A command receives exactly the arguments behind the program name that are no help,
      colour or version arguments, in order and as often as they occur. */
  lemma ExecutedArguments(argv: seq<string>, memory: Memory)
    requires argv != [] && ActionOf(argv, memory).Execute?
    ensures Lists(ActionOf(argv, memory).args, argv[1..], IsPassed, Itself)
  {
    KeptLists(argv[1..]);
  }

  /** Without such arguments, that is the whole command line behind the program name. */
  lemma ExecutedUnchanged(argv: seq<string>)
    requires |argv| > 1 && argv[1] in COMMANDS && forall arg | arg in argv[1..] :: !IsGlobal(arg)
    ensures ActionOf(argv, ENOUGH) == Execute(argv[1..])
  {
    KeptAll(argv[1..]);
    AppliedFlags(DEFAULTS, argv[1..]);
  }

  lemma KeptNothing(args: seq<string>)
    ensures Kept(args) == [] <==> forall a | a in args :: IsGlobal(a)
  {
    KeptMembers(args);
    assert Kept(args) != [] ==> Kept(args)[0] in Kept(args);
  }

  lemma UsageOrVersion(argv: seq<string>)
    requires argv != []
    ensures var action, args := ActionOf(argv, ENOUGH), argv[1..];
            && (action == ShowUsage <==> "-h" in args || "--help" in args)
            && (action == ShowVersion <==> "-h" !in args && "--help" !in args && "--version" in args)
  {
    var args := argv[1..];
    AppliedFlags(DEFAULTS, args);
    assert "-h" in args ==> exists a :: a in args && IsHelp(a);
    assert "--help" in args ==> exists a :: a in args && IsHelp(a);
    assert "--version" in args <==> exists a :: a in args && IsVersion(a);
  }

  /** The first argument that is passed on, `argv[i]`, decides: it names the command, or it
      is the name that is not known. */
  lemma FirstArgumentDecides(argv: seq<string>, i: nat)
    requires 0 < i < |argv| && !IsGlobal(argv[i]) && forall k | 0 < k < i :: IsGlobal(argv[k])
    ensures var action := ActionOf(argv, ENOUGH);
            && !action.MissingCommand?
            && (action.UnknownCommand? ==> action.name == argv[i] && argv[i] !in COMMANDS)
            && (action.Execute? ==> action.args != [] && action.args[0] == argv[i] && argv[i] in COMMANDS)
  {
    var args := argv[1..];
    KeptLists(args);
    NoneBefore(args, i - 1);
    assert args[i - 1] == argv[i];
  }

  predicate AsksVerbose(arg: string) {
    arg == "-v" || arg == "--verbose"
  }

  lemma {:induction false} VerboseCounted(args: seq<string>)
    ensures Count(args, IsVerbose) == CountIf(args, AsksVerbose)
  {
    if args != [] {
      var init, last := args[..|args| - 1], args[|args| - 1];
      VerboseCounted(init);
      CountSnoc(init, last, AsksVerbose);
      assert init + [last] == args;
    }
  }

  /** The settings of a run: how often it asks for more, whether it asks for less, and colour
      unless the last colour argument turns it off. */
  lemma SettingsExact(args: seq<string>)
    ensures var s := Applied(DEFAULTS, args);
            && s.verbose == CountIf(args, AsksVerbose)
            && (s.quiet <==> "-q" in args || "--quiet" in args)
            && (s.version <==> "--version" in args)
            && ("--color" !in args && "--no-color" !in args ==> s.color && s.colorSource == Default)
  {
    VerboseCounted(args);
    AppliedFlags(DEFAULTS, args);
    assert "-q" in args ==> exists a :: a in args && IsQuiet(a);
    assert "--quiet" in args ==> exists a :: a in args && IsQuiet(a);
    assert "--version" in args <==> exists a :: a in args && IsVersion(a);
    if "--color" !in args && "--no-color" !in args {
      NoColorFlag(DEFAULTS, args);
    }
  }

  /** The commands there are. */
  lemma CommandNames(name: string)
    ensures name in COMMANDS <==>
              || name == "parse" || name == "xpath" || name == "format" || name == "validate"
              || name == "diff" || name == "xquery" || name == "xslt" || name == "version"
  {
    assert COMMANDS == ["version", "diff", "validate", "parse", "xpath", "format", "xquery", "xslt"];
  }

  lemma {:induction false} NoneBefore(args: seq<string>, i: nat)
    requires i <= |args| && forall k | 0 <= k < i :: IsGlobal(args[k])
    ensures CountIf(args[..i], IsPassed) == 0
  {
    if i > 0 {
      CountHead(args, IsPassed, i);
      assert forall k | 0 <= k < i - 1 :: args[1..][k] == args[k + 1];
      NoneBefore(args[1..], i - 1);
    }
  }

  // ----- a file on the command line -----

  const GLOBALS := {"-h", "--help", "--color", "--no-color", "--version"}

  /** The options of the parse command together with those of the program. */
  const PARSE_LINE := Syntax(PARSE.flags + GLOBALS, PARSE.valued)

  lemma KeptHead(args: seq<string>)
    requires args != []
    ensures Kept(args) == (if IsGlobal(args[0]) then [] else [args[0]]) + Kept(args[1..])
  {
    assert args == [args[0]] + args[1..];
    KeptConcat([args[0]], args[1..]);
    assert [args[0]][..0] == [];
  }

  /** No program option stands where the value of an option should be. */
  predicate ValuesFollow(g: Syntax, args: seq<string>) {
    forall i | 0 <= i < |args| - 1 :: args[i] in g.valued ==> !IsGlobal(args[i + 1])
  }

  lemma ValuesFollowTail(g: Syntax, args: seq<string>)
    requires ValuesFollow(g, args) && args != []
    ensures ValuesFollow(g, args[1..])
  {
    var tail := args[1..];
    forall i | 0 <= i < |tail| - 1 ensures tail[i] in g.valued ==> !IsGlobal(tail[i + 1]) {
      assert tail[i] == args[i + 1] && tail[i + 1] == args[i + 2];
    }
  }

  predicate SameOperands(args: seq<string>) {
    Operands(Tokens(PARSE, Kept(args))) == Operands(Tokens(PARSE_LINE, args))
  }

  /** The operands of a command line are those that are left when the program has taken its
      own options away. */
  lemma {:induction false} OperandsOfKept(args: seq<string>)
    requires ValuesFollow(PARSE, args)
    ensures SameOperands(args)
    decreases |args|
  {
    if args != [] {
      var a, rest := args[0], args[1..];
      ValuesFollowTail(PARSE, args);
      if a in PARSE.valued && rest != [] {
        assert !IsGlobal(rest[0]);
        ValuesFollowTail(PARSE, rest);
        OperandsOfKept(rest[1..]);
        SameBehindValue(a, rest[0], rest[1..]);
        assert args == [a, rest[0]] + rest[1..];
      } else if a in PARSE.valued {
        SameWithoutValue(a);
        assert args == [a];
      } else {
        OperandsOfKept(rest);
        SameBehindOne(a, rest);
        assert args == [a] + rest;
      }
    }
  }

  /** An option with a value is neither a flag nor an option of the program. */
  lemma ValuedIsOwn(a: string)
    requires a in PARSE.valued
    ensures a !in PARSE.flags && a !in PARSE_LINE.flags && a in PARSE_LINE.valued && !IsGlobal(a)
  {
  }

  lemma KeptPair(a: string, v: string, rest: seq<string>)
    requires !IsGlobal(a) && !IsGlobal(v)
    ensures Kept([a, v] + rest) == [a, v] + Kept(rest)
  {
    assert [a, v] + rest == [a] + ([v] + rest);
    assert ([a] + ([v] + rest))[1..] == [v] + rest && ([v] + rest)[1..] == rest;
    KeptHead([a] + ([v] + rest));
    KeptHead([v] + rest);
  }

  lemma SameBehindValue(a: string, v: string, rest: seq<string>)
    requires a in PARSE.valued && !IsGlobal(v) && SameOperands(rest)
    ensures SameOperands([a, v] + rest)
  {
    ValuedIsOwn(a);
    KeptPair(a, v, rest);
    ValuedHead(PARSE, a, v, Kept(rest));
    ValuedHead(PARSE_LINE, a, v, rest);
  }

  lemma SameWithoutValue(a: string)
    requires a in PARSE.valued
    ensures SameOperands([a])
  {
    ValuedIsOwn(a);
    KeptHead([a]);
    assert Kept([a][1..]) == [] && Kept([a]) == [a];
    NoValueThere(PARSE, a);
    NoValueThere(PARSE_LINE, a);
  }

  lemma NoValueThere(g: Syntax, a: string)
    requires a in g.valued && a !in g.flags
    ensures Operands(Tokens(g, [a])) == []
  {
    assert [a][1..] == [];
    assert Tokens(g, [a]) == [MissingValue(a)];
    assert [MissingValue(a)][1..] == [];
  }

  lemma SameBehindOne(a: string, rest: seq<string>)
    requires a !in PARSE.valued && SameOperands(rest)
    ensures SameOperands([a] + rest)
  {
    assert ([a] + rest)[1..] == rest;
    KeptHead([a] + rest);
    SingleHead(PARSE_LINE, a, rest);
    if IsGlobal(a) {
      assert Kept([a] + rest) == Kept(rest);
    } else {
      SingleHead(PARSE, a, Kept(rest));
    }
  }

  lemma ValuedHead(g: Syntax, a: string, v: string, rest: seq<string>)
    requires a in g.valued && a !in g.flags
    ensures Operands(Tokens(g, [a, v] + rest)) == Operands(Tokens(g, rest))
  {
    var args := [a, v] + rest;
    assert args[1..][0] == v && args[1..][1..] == rest;
    assert Tokens(g, args) == [Valued(a, v)] + Tokens(g, rest);
    assert Tokens(g, args)[1..] == Tokens(g, rest);
  }

  lemma SingleHead(g: Syntax, a: string, rest: seq<string>)
    requires a !in g.valued
    ensures Operands(Tokens(g, [a] + rest))
         == (if a in g.flags || IsHelp(a) || (IsOption(a) && a != "-") then [] else [a]) + Operands(Tokens(g, rest))
  {
    var args := [a] + rest;
    assert args[0] == a && args[1..] == rest;
    assert Tokens(g, args)[1..] == Tokens(g, rest);
  }

  /** The file that the parse command accepts is, next to the command itself, the only
      operand on the whole command line, as long as no option lacks its value there. */
  lemma ParsedFile(argv: seq<string>, memory: Memory)
    requires argv != [] && ActionOf(argv, memory).Execute? && ActionOf(argv, memory).args[0] == "parse"
    requires ValuesFollow(PARSE, argv[1..])
    ensures var r := ParseOutcome(PARSE_DEFAULTS, ActionOf(argv, memory).args, 1);
            r.Accepted? ==>
              && r.options.inputFile.Some?
              && Operands(Tokens(PARSE_LINE, argv[1..])) == ["parse", r.options.inputFile.value]
  {
    var args := ActionOf(argv, memory).args;
    assert args == ["parse"] + args[1..];
    OperandsOfKept(argv[1..]);
    SingleHead(PARSE, "parse", args[1..]);
    ParseAccepts(args);
    var operands := Operands(Tokens(PARSE, args[1..]));
    assert |operands| == 1 ==> operands == [operands[0]] && ["parse"] + operands == ["parse", operands[0]];
  }

  const BROKEN_LINE := ["leptris", "parse", "-f", "--color", "json", "a.xml"]

  lemma BrokenLineKept()
    ensures Kept(BROKEN_LINE[4..]) == ["json", "a.xml"]
    ensures Kept(BROKEN_LINE[1..]) == ["parse", "-f", "json", "a.xml"]
  {
    KeptAll(BROKEN_LINE[4..]);
    KeptHead(BROKEN_LINE[3..]);
    KeptHead(BROKEN_LINE[2..]);
    KeptHead(BROKEN_LINE[1..]);
    assert BROKEN_LINE[3..][1..] == BROKEN_LINE[4..] && BROKEN_LINE[2..][1..] == BROKEN_LINE[3..];
    assert BROKEN_LINE[1..][1..] == BROKEN_LINE[2..];
  }

  /** Otherwise the program takes away its own option from between the two, and the next
      argument becomes the value. */
  lemma ColorBehindFormat()
    ensures ActionOf(BROKEN_LINE, ENOUGH) == Execute(["parse", "-f", "json", "a.xml"])
  {
    BrokenLineKept();
    UsageOrVersion(BROKEN_LINE);
  }
}
