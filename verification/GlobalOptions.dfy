/** Global options: the pass over argv that records them and filters the vector in place. */
module GlobalOptions {
  import opened Common

  datatype Source = Default | Env | Cli

  datatype Settings = Settings(verbose: nat, quiet: bool, color: bool, help: bool, version: bool,
                               verboseSource: Source, quietSource: Source, colorSource: Source)

  const DEFAULTS := Settings(0, false, true, false, false, Default, Default, Default)

  // ----- what the pass does, as functions -----

  predicate IsVerbose(arg: string) {
    arg == "-v" || arg == "--verbose"
  }

  predicate IsQuiet(arg: string) {
    arg == "-q" || arg == "--quiet"
  }

  predicate IsHelp(arg: string) {
    arg == "-h" || arg == "--help"
  }

  predicate IsColor(arg: string) {
    arg == "--color" || arg == "--no-color"
  }

  predicate IsVersion(arg: string) {
    arg == "--version"
  }

  /** An argument that the commands get to see; `-v` and `-q` are among them. */
  predicate IsKept(arg: string) {
    !IsHelp(arg) && !IsColor(arg) && !IsVersion(arg)
  }

  function Kept(args: seq<string>): seq<string> {
    if args == [] then []
    else Kept(args[..|args| - 1]) + if IsKept(args[|args| - 1]) then [args[|args| - 1]] else []
  }

  function Count(args: seq<string>, p: string -> bool): nat {
    if args == [] then 0
    else Count(args[..|args| - 1], p) + if p(args[|args| - 1]) then 1 else 0
  }

  function Applied(s: Settings, args: seq<string>): Settings {
    if args == [] then s
    else ApplyOne(Applied(s, args[..|args| - 1]), args[|args| - 1])
  }

  function ApplyOne(s: Settings, arg: string): Settings {
    if IsVerbose(arg) then s.(verbose := s.verbose + 1, verboseSource := Cli)
    else if IsQuiet(arg) then s.(quiet := true, quietSource := Cli)
    else if IsColor(arg) then s.(color := arg == "--color", colorSource := Cli)
    else if IsHelp(arg) then s.(help := true)
    else if IsVersion(arg) then s.(version := true)
    else s
  }

  // ----- the cursor over argv -----

  class OptionParser {
    const argc: nat
    const argv: array<string>
    var pos: nat

    constructor (c: nat, v: array<string>)
      requires c <= v.Length
      ensures argc == c && argv == v && pos == 0
    {
      argc, argv, pos := c, v, 0;
    }

    predicate HasMore()
      reads this
    {
      pos < argc
    }

    function Current(): (r: Option<string>)
      requires argc <= argv.Length
      reads this, argv
      ensures r.Some? <==> HasMore()
      ensures r.Some? ==> r.value == argv[pos]
    {
      if pos >= argc then None else Some(argv[pos])
    }

    method Advance()
      modifies this
      ensures pos == if old(HasMore()) then old(pos) + 1 else old(pos)
    {
      if pos < argc {
        pos := pos + 1;
      }
    }

    /** NULL for an option form stands for "none". */
    predicate Match(shortOpt: Option<string>, longOpt: Option<string>)
      requires argc <= argv.Length
      reads this, argv
    {
      var arg := Current();
      arg.Some? && (shortOpt == arg || longOpt == arg)
    }

    method CountPositional() returns (count: nat)
      requires argc <= argv.Length && pos <= argc
      ensures count == |Positional(argv[pos..argc])|
    {
      count := 0;
      var i := pos;
      ghost var rest := argv[pos..argc];
      while i < argc
        invariant pos <= i <= argc
        invariant count == |Positional(rest[..i - pos])|
      {
        PositionalSnoc(rest, i - pos);
        if !IsOption(argv[i]) {
          count := count + 1;
        }
        i := i + 1;
      }
      assert rest[..i - pos] == rest;
    }

    /** The rest of argv without what starts with `-`, counted first and then copied. */
    method GetPositional(granted: bool) returns (result: array?<string>, count: nat)
      requires argc <= argv.Length && pos <= argc
      ensures count == |Positional(argv[pos..argc])|
      ensures result != null <==> count > 0 && granted
      ensures result != null ==> fresh(result) && result[..] == Positional(argv[pos..argc])
    {
      count := CountPositional();
      if count == 0 || !granted {
        return null, count;
      }
      var copy := new string[count];
      var idx, i := 0, pos;
      ghost var rest := argv[pos..argc];
      while i < argc
        invariant pos <= i <= argc
        invariant idx == |Positional(rest[..i - pos])| <= count
        invariant copy[..idx] == Positional(rest[..i - pos])
      {
        PositionalSnoc(rest, i - pos);
        PositionalPrefix(rest, i - pos + 1);
        if !IsOption(argv[i]) {
          copy[idx] := argv[i];
          idx := idx + 1;
        }
        i := i + 1;
      }
      assert rest[..i - pos] == rest;
      assert copy[..idx] == copy[..];
      result := copy;
    }
  }

  predicate IsOption(arg: string) {
    arg != "" && arg[0] == '-'
  }

  function Positional(args: seq<string>): seq<string> {
    if args == [] then []
    else Positional(args[..|args| - 1]) + if IsOption(args[|args| - 1]) then [] else [args[|args| - 1]]
  }

  lemma PositionalSnoc(args: seq<string>, i: nat)
    requires i < |args|
    ensures Positional(args[..i + 1]) == Positional(args[..i]) + if IsOption(args[i]) then [] else [args[i]]
  {
    assert args[..i + 1][..i] == args[..i];
  }

  lemma {:induction false} PositionalPrefix(args: seq<string>, i: nat)
    requires i <= |args|
    ensures |Positional(args[..i])| <= |Positional(args)|
    decreases |args| - i
  {
    if i < |args| {
      PositionalPrefix(args, i + 1);
      PositionalSnoc(args, i);
    } else {
      assert args[..i] == args;
    }
  }

  // ----- the pass itself -----

  class Options {
    var settings: Settings

    constructor ()
      ensures settings == DEFAULTS
    {
      settings := DEFAULTS;
    }

    /** Records the global options and compacts argv in place. `argc` is at least one. */
    method Parse(argc: nat, argv: array<string>, granted: bool) returns (ok: bool, newArgc: nat)
      requires 1 <= argc <= argv.Length
      modifies this, argv
      ensures ok == granted
      ensures !ok ==> settings == old(settings) && argv[..] == old(argv[..]) && newArgc == argc
      ensures ok ==>
                && settings == Applied(old(settings), old(argv[1..argc]))
                && newArgc == 1 + |Kept(old(argv[1..argc]))| <= argc
                && argv[..newArgc] == [old(argv[0])] + Kept(old(argv[1..argc]))
                && argv[newArgc..] == old(argv[newArgc..])
    {
      var parser := new OptionParser(argc, argv);
      parser.Advance();
      if !granted {
        return false, argc;
      }
      var newArgv := new string[argc];
      newArgv[0] := argv[0];
      newArgc := Filter(parser, newArgv);
      CopyBack(argv, newArgv, newArgc);
      ok := true;
    }

    /** The loop of the pass: kept arguments go to `newArgv`, behind the program name. */
    method Filter(parser: OptionParser, newArgv: array<string>) returns (newArgc: nat)
      requires parser.pos == 1 <= parser.argc <= parser.argv.Length
      requires newArgv.Length == parser.argc && newArgv != parser.argv
      modifies this, parser, newArgv
      ensures var args := parser.argv[1..parser.argc];
              && settings == Applied(old(settings), args)
              && newArgc == 1 + |Kept(args)| <= parser.argc
              && newArgv[..newArgc] == [old(newArgv[0])] + Kept(args)
    {
      ghost var args, name := parser.argv[1..parser.argc], newArgv[0];
      newArgc := 1;
      while parser.HasMore()
        invariant 1 <= parser.pos <= parser.argc
        invariant parser.argv[1..parser.argc] == args
        invariant settings == Applied(old(settings), args[..parser.pos - 1])
        invariant newArgc == 1 + |Kept(args[..parser.pos - 1])| <= parser.pos
        invariant newArgv[..newArgc] == [name] + Kept(args[..parser.pos - 1])
        decreases parser.argc - parser.pos
      {
        var arg := parser.argv[parser.pos];
        assert arg == args[parser.pos - 1];
        assert args[..parser.pos][..parser.pos - 1] == args[..parser.pos - 1];
        var keep := Consume(parser);
        if keep {
          newArgv[newArgc] := arg;
          newArgc := newArgc + 1;
          assert newArgv[..newArgc] == newArgv[..newArgc - 1] + [arg];
        }
      }
      assert args[..parser.pos - 1] == args;
    }

    /** One round: the option at the cursor takes effect, the cursor moves on, and `keep`
        says whether the argument stays in argv. */
    method Consume(parser: OptionParser) returns (keep: bool)
      requires parser.argc <= parser.argv.Length && parser.HasMore()
      modifies this, parser
      ensures settings == ApplyOne(old(settings), old(parser.argv[parser.pos]))
      ensures parser.pos == old(parser.pos) + 1
      ensures keep == IsKept(old(parser.argv[parser.pos]))
    {
      keep := false;
      if parser.Match(Some("-v"), Some("--verbose")) {
        settings := settings.(verbose := settings.verbose + 1, verboseSource := Cli);
        keep := true;
      } else if parser.Match(Some("-q"), Some("--quiet")) {
        settings := settings.(quiet := true, quietSource := Cli);
        keep := true;
      } else if parser.Match(None, Some("--color")) {
        settings := settings.(color := true, colorSource := Cli);
      } else if parser.Match(None, Some("--no-color")) {
        settings := settings.(color := false, colorSource := Cli);
      } else if parser.Match(Some("-h"), Some("--help")) {
        settings := settings.(help := true);
      } else if parser.Match(None, Some("--version")) {
        settings := settings.(version := true);
      } else {
        keep := true;
      }
      parser.Advance();
    }
  }

  /** `memcpy` of the kept pointers over the front of argv. */
  method CopyBack(argv: array<string>, from: array<string>, n: nat)
    requires n <= argv.Length && n <= from.Length && argv != from
    modifies argv
    ensures argv[..n] == from[..n] && argv[n..] == old(argv[n..])
  {
    forall i | 0 <= i < n {
      argv[i] := from[i];
    }
  }

  // ----- what the filter keeps -----

  lemma {:induction false} KeptConcat(a: seq<string>, b: seq<string>)
    ensures Kept(a + b) == Kept(a) + Kept(b)
  {
    if b == [] {
      assert a + b == a;
    } else {
      assert (a + b)[..|a + b| - 1] == a + b[..|b| - 1];
      KeptConcat(a, b[..|b| - 1]);
    }
  }

  lemma {:induction false} KeptMembers(args: seq<string>)
    ensures forall arg :: arg in Kept(args) <==> arg in args && IsKept(arg)
  {
    if args != [] {
      KeptMembers(args[..|args| - 1]);
      assert args == args[..|args| - 1] + [args[|args| - 1]];
    }
  }

  /** Nothing is dropped from a vector that has only kept arguments. */
  lemma {:induction false} KeptAll(args: seq<string>)
    requires forall arg | arg in args :: IsKept(arg)
    ensures Kept(args) == args
  {
    if args != [] {
      var init, last := args[..|args| - 1], args[|args| - 1];
      assert args == init + [last];
      assert last in args && forall arg | arg in init :: arg in args;
      KeptAll(init);
    }
  }

  /** The pass over its own output finds no more to remove. */
  lemma KeptIdempotent(args: seq<string>)
    ensures Kept(Kept(args)) == Kept(args)
  {
    KeptMembers(args);
    KeptAll(Kept(args));
  }

  lemma LastMember(args: seq<string>)
    requires args != []
    ensures forall arg :: arg in args <==> arg in args[..|args| - 1] || arg == args[|args| - 1]
  {
  }

  /** The flags after the pass, stated on the arguments: `-v` is counted, `-q`, `-h` and
      `--version` are noticed anywhere. */
  lemma {:induction false} AppliedFlags(s: Settings, args: seq<string>)
    ensures var r := Applied(s, args);
            && r.verbose == s.verbose + Count(args, IsVerbose)
            && (r.quiet <==> s.quiet || exists arg :: arg in args && IsQuiet(arg))
            && (r.help <==> s.help || exists arg :: arg in args && IsHelp(arg))
            && (r.version <==> s.version || exists arg :: arg in args && IsVersion(arg))
  {
    if args != [] {
      AppliedFlags(s, args[..|args| - 1]);
      LastMember(args);
    }
  }

  /** The last colour flag wins. */
  lemma {:induction false} LastColorWins(s: Settings, args: seq<string>, i: nat)
    requires i < |args| && IsColor(args[i])
    requires forall k :: i < k < |args| ==> !IsColor(args[k])
    ensures Applied(s, args).color == (args[i] == "--color") && Applied(s, args).colorSource == Cli
    decreases |args|
  {
    var init := args[..|args| - 1];
    if i < |args| - 1 {
      LastColorWins(s, init, i);
      assert !IsColor(args[|args| - 1]);
    }
  }

  lemma {:induction false} NoColorFlag(s: Settings, args: seq<string>)
    requires forall k :: 0 <= k < |args| ==> !IsColor(args[k])
    ensures Applied(s, args).color == s.color && Applied(s, args).colorSource == s.colorSource
  {
    if args != [] {
      NoColorFlag(s, args[..|args| - 1]);
    }
  }
}
