/** The flow of the program from argv to a command: the global pass, the decisions of
    `main`, and what they mean for the help branches of the commands. */
module CommandLine {
  import opened Common
  import opened GlobalOptions
  import opened TokenGrammar
  import opened ParseCommand
  import opened FormatCommand
  import opened XPathCommand
  import opened Registry

  const COMMANDS := ["version", "diff", "validate", "parse", "xpath", "format", "xquery", "xslt"]

  datatype Action =
    | ShowUsage
    | ShowVersion
    | MissingCommand
    | UnknownCommand(name: string)
    | Execute(args: seq<string>)  // the command name and its arguments
    | Abort(code: Code)           // no memory

  /** Which of the allocations of `main` succeed: the options, the filtered vector, and the
      registry with its array. */
  datatype Memory = Memory(options: bool, vector: bool, registry: bool)

  const ENOUGH := Memory(true, true, true)

  function ActionOf(argv: seq<string>, memory: Memory): Action
    requires argv != []
  {
    var settings, kept := Applied(DEFAULTS, argv[1..]), Kept(argv[1..]);
    if !memory.options then Abort(ErrorMemory)
    else if !memory.vector then Abort(ErrorArgs)
    else if !memory.registry then Abort(ErrorMemory)
    else if settings.help then ShowUsage
    else if settings.version then ShowVersion
    else if kept == [] then MissingCommand
    else if kept[0] !in COMMANDS then UnknownCommand(kept[0])
    else Execute(kept)
  }

  // ----- the registry of `main` -----

  function Names(commands: seq<Command>): seq<string> {
    seq(|commands|, i requires 0 <= i < |commands| => commands[i].name)
  }

  /** The registry has the first `n` commands, in order, in its first array. */
  ghost predicate Holding(registry: CommandRegistry, n: nat)
    requires n <= |COMMANDS|
    reads registry, registry.commands
  {
    registry.Valid() && registry.capacity == 8 && Names(registry.Contents()) == COMMANDS[..n]
  }

  lemma NamedIn(commands: seq<Command>, name: string)
    ensures HasNamed(commands, name) <==> name in Names(commands)
  {
    if HasNamed(commands, name) {
      var i :| 0 <= i < |commands| && commands[i].name == name;
      assert Names(commands)[i] == name;
    }
    if name in Names(commands) {
      var i :| 0 <= i < |Names(commands)| && Names(commands)[i] == name;
      assert commands[i].name == name;
    }
  }

  lemma CommandsDiffer(n: nat)
    requires n < |COMMANDS|
    ensures COMMANDS[n] !in COMMANDS[..n]
  {
    assert "diff"[0] != "xslt"[0] && "parse"[0] != "xpath"[0] && "format"[0] != "xquery"[0];
    forall i | 0 <= i < n ensures COMMANDS[i] != COMMANDS[n] {
      assert |COMMANDS[i]| != |COMMANDS[n]| || COMMANDS[i][0] != COMMANDS[n][0];
    }
  }

  /** Registers the next command; neither a duplicate nor growth can come in the way. */
  method RegisterNext(registry: CommandRegistry, ghost n: nat, name: string)
    requires n < |COMMANDS| && name == COMMANDS[n] && Holding(registry, n)
    modifies registry, registry.commands
    ensures Holding(registry, n + 1) && registry.commands == old(registry.commands)
  {
    var command := new Command(name, "");
    ghost var before := registry.Contents();
    NamedIn(before, name);
    CommandsDiffer(n);
    assert |before| == |Names(before)| == n;
    var code := registry.Register(command, false);
    assert registry.Contents() == before + [command];
    assert Names(before + [command]) == Names(before) + [name];
    assert COMMANDS[..n + 1] == COMMANDS[..n] + [COMMANDS[n]];
  }

  method RegisterCommands() returns (registry: CommandRegistry)
    ensures fresh(registry) && fresh(registry.commands) && Holding(registry, |COMMANDS|)
  {
    registry := new CommandRegistry();
    RegisterNext(registry, 0, "version");
    RegisterNext(registry, 1, "diff");
    RegisterNext(registry, 2, "validate");
    RegisterNext(registry, 3, "parse");
    RegisterNext(registry, 4, "xpath");
    RegisterNext(registry, 5, "format");
    RegisterNext(registry, 6, "xquery");
    RegisterNext(registry, 7, "xslt");
  }

  // ----- the flow of `main` -----

  /** `main` up to the call of the command. */
  method Dispatch(argc: nat, argv: array<string>, memory: Memory) returns (action: Action)
    requires 1 <= argc <= argv.Length
    modifies argv
    ensures action == ActionOf(old(argv[..argc]), memory)
  {
    ghost var args := argv[..argc];
    assert argv[1..argc] == args[1..];
    if !memory.options {
      return Abort(ErrorMemory);
    }
    var options := new Options();
    var ok, newArgc := options.Parse(argc, argv, memory.vector);
    if !ok {
      return Abort(ErrorArgs);
    }
    if !memory.registry {
      return Abort(ErrorMemory);
    }
    var registry := RegisterCommands();
    assert argv[1..newArgc] == argv[..newArgc][1..];
    if options.settings.help {
      return ShowUsage;
    }
    if options.settings.version {
      return ShowVersion;
    }
    if newArgc < 2 {
      return MissingCommand;
    }
    NamedIn(registry.Contents(), argv[1]);
    var found := registry.Find(Some(argv[1]));
    if found == null {
      return UnknownCommand(argv[1]);
    }
    action := Execute(argv[1..newArgc]);
  }

  // ----- help -----

  lemma {:induction false} NoHelpOutcome<T>(step: (T, Token) -> Outcome<T>, finish: T -> Outcome<T>,
                                            o: T, ts: seq<Token>)
    requires forall o, t :: t != HelpToken ==> step(o, t) != HelpWanted
    requires forall o :: finish(o) != HelpWanted
    requires HelpToken !in ts
    ensures Interpreted(step, finish, o, ts) != HelpWanted
    decreases ts
  {
    if ts != [] {
      var r := step(o, ts[0]);
      assert ts[0] in ts;
      if r.Accepted? {
        assert forall t | t in ts[1..] :: t in ts;
        NoHelpOutcome(step, finish, r.options, ts[1..]);
      }
    }
  }

  /** With enough memory, `main` takes its help branch exactly when a help argument occurs
      anywhere after the program name, in front of a command or behind it. */
  lemma HelpIsGlobal(argv: seq<string>)
    requires argv != []
    ensures ActionOf(argv, ENOUGH) == ShowUsage <==> exists a :: a in argv[1..] && IsHelp(a)
  {
    AppliedFlags(DEFAULTS, argv[1..]);
  }

  /** The actions that print the usage text. */
  predicate PrintsUsage(action: Action) {
    action.ShowUsage? || action.MissingCommand? || action.UnknownCommand?
  }

  /** The usage text is printed exactly when the allocations succeed and either a help
      argument occurs, or no version argument does and what is left of the arguments does
      not start with the name of a command. */
  lemma UsageIsPrinted(argv: seq<string>, memory: Memory)
    requires argv != []
    ensures PrintsUsage(ActionOf(argv, memory)) <==>
              && memory == ENOUGH
              && ((exists a :: a in argv[1..] && IsHelp(a))
                  || (!(exists a :: a in argv[1..] && IsVersion(a))
                      && (forall name :: name in COMMANDS ==> !([name] <= Kept(argv[1..])))))
  {
    AppliedFlags(DEFAULTS, argv[1..]);
    var kept := Kept(argv[1..]);
    assert kept != [] ==> forall name :: [name] <= kept <==> name == kept[0];
  }

  lemma CommandsWithoutHelp(args: seq<string>)
    requires args != [] && forall g :: HelpToken !in Tokens(g, args[1..])
    ensures ParseOutcome(PARSE_DEFAULTS, args, 1) != HelpWanted
    ensures FormatOutcome(FORMAT_DEFAULTS, args, 1) != HelpWanted
    ensures XPathOutcome(XPATH_DEFAULTS, args, 1) != HelpWanted
  {
    var rest := if 1 < |args| then args[1..] else [];
    assert rest == args[1..];
    NoHelpOutcome(ParseToken, ParseFinish, PARSE_DEFAULTS, Tokens(PARSE, rest));
    NoHelpOutcome(FormatToken, FormatFinish, FORMAT_DEFAULTS, Tokens(FORMAT, rest));
    NoHelpOutcome(XPathToken, XPathFinish, XPATH_DEFAULTS, Tokens(XPATH, rest));
  }

  /** Whatever the command line, no command meets a help token: the help branches of the
      command parsers are never taken. */
  lemma HelpNeverReachesCommands(argv: seq<string>, memory: Memory)
    requires argv != [] && ActionOf(argv, memory).Execute?
    ensures var args := ActionOf(argv, memory).args;
            && args != []
            && (forall g :: HelpToken !in Tokens(g, args[1..]))
            && ParseOutcome(PARSE_DEFAULTS, args, 1) != HelpWanted
            && FormatOutcome(FORMAT_DEFAULTS, args, 1) != HelpWanted
            && XPathOutcome(XPATH_DEFAULTS, args, 1) != HelpWanted
  {
    var args := ActionOf(argv, memory).args;
    KeptMembers(argv[1..]);
    assert forall a | a in args[1..] :: a in args;
    forall g ensures HelpToken !in Tokens(g, args[1..]) {
      NoHelpToken(g, args[1..]);
    }
    CommandsWithoutHelp(args);
  }
}
