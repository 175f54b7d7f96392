/** The token grammar that the option parsers of the commands share, and the left-to-right
    interpretation of its tokens. Each command brings its own tables and effects. */
module TokenGrammar {
  import opened Common
  import opened GlobalOptions

  // ----- the grammar -----

  datatype Token =
    | Flag(name: string)
    | Valued(name: string, value: string)
    | MissingValue(name: string)
    | HelpToken
    | Unknown(name: string)
    | Operand(arg: string)

  /** The options of a command: those without and those with a value. */
  datatype Syntax = Syntax(flags: set<string>, valued: set<string>)

  function Tokens(g: Syntax, args: seq<string>): seq<Token> {
    if args == [] then []
    else
      var a, rest := args[0], args[1..];
      if a in g.flags then [Flag(a)] + Tokens(g, rest)
      else if a in g.valued then
        if rest == [] then [MissingValue(a)] else [Valued(a, rest[0])] + Tokens(g, rest[1..])
      else if IsHelp(a) then [HelpToken] + Tokens(g, rest)
      else if IsOption(a) && a != "-" then [Unknown(a)] + Tokens(g, rest)
      else [Operand(a)] + Tokens(g, rest)
  }

  datatype Reason =
    | NoValue | BadFormat | BadIndent | UnknownOption | TooManyOperands
    | NoFile | NoExpression | Exclusive

  /** `HelpWanted` and `Rejected` are one result code in the program. */
  datatype Outcome<+T> = Accepted(options: T) | HelpWanted | Rejected(reason: Reason)

  function Operands(ts: seq<Token>): seq<string> {
    if ts == [] then [] else (if ts[0].Operand? then [ts[0].arg] else []) + Operands(ts[1..])
  }

  /** The value of the last option among `names`, if there is one. */
  function LastValue(ts: seq<Token>, names: set<string>): Option<string> {
    if ts == [] then None
    else
      var later := LastValue(ts[1..], names);
      if later.None? && ts[0].Valued? && ts[0].name in names then Some(ts[0].value) else later
  }

  predicate HasFlag(ts: seq<Token>, names: set<string>) {
    ts != [] && ((ts[0].Flag? && ts[0].name in names) || HasFlag(ts[1..], names))
  }

  // ----- one left-to-right interpretation for every command -----

  /** The tokens take effect one after the other; the first one that does not ends it. */
  function Interpreted<T>(step: (T, Token) -> Outcome<T>, finish: T -> Outcome<T>, o: T, ts: seq<Token>): Outcome<T>
    decreases ts
  {
    if ts == [] then finish(o)
    else
      match step(o, ts[0])
      case Accepted(o') => Interpreted(step, finish, o', ts[1..])
      case HelpWanted => HelpWanted
      case Rejected(r) => Rejected(r)
  }

  function OutcomeFrom<T>(g: Syntax, step: (T, Token) -> Outcome<T>, finish: T -> Outcome<T>,
                          o: T, argv: seq<string>, i: nat): Outcome<T>
  {
    Interpreted(step, finish, o, Tokens(g, if i < |argv| then argv[i..] else []))
  }

  function TokenAt(g: Syntax, argv: seq<string>, i: nat): Token
    requires i < |argv|
  {
    var a := argv[i];
    if a in g.flags then Flag(a)
    else if a in g.valued then if i + 1 < |argv| then Valued(a, argv[i + 1]) else MissingValue(a)
    else if IsHelp(a) then HelpToken
    else if IsOption(a) && a != "-" then Unknown(a)
    else Operand(a)
  }

  function After(t: Token, i: nat): nat {
    if t.Valued? then i + 2 else i + 1
  }

  lemma TokensAt(g: Syntax, argv: seq<string>, i: nat)
    requires i < |argv|
    ensures var t := TokenAt(g, argv, i);
            var next := After(t, i);
            Tokens(g, argv[i..]) == [t] + Tokens(g, if next < |argv| then argv[next..] else [])
  {
  }

  /** One round of any of the parsers, at the argument `argv[i]`. */
  lemma OutcomeStep<T>(g: Syntax, step: (T, Token) -> Outcome<T>, finish: T -> Outcome<T>,
                       o: T, argv: seq<string>, i: nat)
    requires i < |argv|
    ensures var t := TokenAt(g, argv, i);
            var r := step(o, t);
            OutcomeFrom(g, step, finish, o, argv, i) ==
              (if r.Accepted? then OutcomeFrom(g, step, finish, r.options, argv, After(t, i)) else r)
  {
    TokensAt(g, argv, i);
    var t := TokenAt(g, argv, i);
    var next := After(t, i);
    var later := Tokens(g, if next < |argv| then argv[next..] else []);
    assert ([t] + later)[1..] == later;
  }

  datatype OutputFormat = Xml | Json | Text

  /** An unknown format name stands for XML. */
  function FormatFromString(s: string): OutputFormat {
    if s == "json" then Json else if s == "text" then Text else Xml
  }

  predicate IsFormatName(s: string) {
    s == "xml" || s == "json" || s == "text"
  }

  /** A token that no command rejects on sight. */
  predicate Sane(t: Token) {
    t.Flag? || t.Valued? || t.Operand?
  }

  // ----- facts about tokens -----

  function FormatName(f: OutputFormat): string {
    match f case Xml => "xml" case Json => "json" case Text => "text"
  }

  lemma FormatNames(f: OutputFormat, s: string)
    ensures FormatFromString(FormatName(f)) == f
    ensures IsFormatName(s) ==> FormatName(FormatFromString(s)) == s
  {
  }

  lemma HasFlagHead(ts: seq<Token>, names: set<string>)
    requires ts != []
    ensures HasFlag(ts, names) <==> HasFlag([ts[0]], names) || HasFlag(ts[1..], names)
  {
  }

  function Files(file: Option<string>, ts: seq<Token>): seq<string> {
    (if file.Some? then [file.value] else []) + Operands(ts)
  }

  lemma {:induction false} ValuedAreDeclared(g: Syntax, args: seq<string>)
    ensures forall i :: 0 <= i < |Tokens(g, args)| && Tokens(g, args)[i].Valued? ==> Tokens(g, args)[i].name in g.valued
    decreases |args|
  {
    if args != [] {
      var t := TokenAt(g, args, 0);
      TokensAt(g, args, 0);
      assert args[0..] == args;
      var next := After(t, 0);
      ValuedAreDeclared(g, if next < |args| then args[next..] else []);
    }
  }

  lemma LastValueHead(ts: seq<Token>, names: set<string>)
    requires ts != []
    ensures LastValue(ts, names)
         == if LastValue(ts[1..], names).Some? then LastValue(ts[1..], names) else LastValue([ts[0]], names)
  {
  }

  lemma OneToken(t: Token, names: set<string>)
    ensures LastValue([t], names) == if t.Valued? && t.name in names then Some(t.value) else None
    ensures HasFlag([t], names) <==> t.Flag? && t.name in names
    ensures Operands([t]) == if t.Operand? then [t.arg] else []
  {
  }

  predicate AllSane(ts: seq<Token>) {
    ts == [] || (Sane(ts[0]) && AllSane(ts[1..]))
  }

  /** Without a help argument there is no help token, whatever the options of a command. */
  lemma {:induction false} NoHelpToken(g: Syntax, args: seq<string>)
    requires forall a | a in args :: !IsHelp(a)
    ensures HelpToken !in Tokens(g, args)
    decreases |args|
  {
    if args != [] {
      TokensAt(g, args, 0);
      assert args[0..] == args && args[0] in args;
      var next := After(TokenAt(g, args, 0), 0);
      var later := if next < |args| then args[next..] else [];
      assert forall a | a in later :: a in args;
      NoHelpToken(g, later);
    }
  }
}
