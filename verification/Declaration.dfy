/** The XML declaration of a document: two strings that the document owns, a standalone
    marker and two flags. Strings live in a heap of allocated blocks; reading or freeing a
    block that is not allocated is ruled out by precondition. */
module Declaration {
  import opened Common

  datatype Status = Ok | InvalidArg | OutOfMemory

  // ----- the declaration as a value -----

  /** `standalone` is -1 when it is not set. */
  datatype State = State(version: Option<string>, encoding: Option<string>, standalone: int,
                         hadDeclaration: bool, encodingVerbatim: bool)

  const FRESH := State(None, None, -1, false, false)

  /** A string argument of a setter: NULL, a string of the caller, or a pointer into one of
      the document's own strings. The latter is what a getter returns at the time of the
      call, moved on by `skip` characters, though never past the end of the string. */
  datatype Arg = Null | CallerString(text: string) | OwnVersion(skip: nat) | OwnEncoding(skip: nat)

  datatype Op =
    | SetVersion(arg: Arg, granted: bool)
    | SetEncoding(arg: Arg, granted: bool)
    | SetStandalone(value: int)
    | Clear

  function ArgText(s: State, a: Arg): Option<string> {
    match a
    case Null => None
    case CallerString(text) => Some(text)
    case OwnVersion(skip) => Skipped(s.version, skip)
    case OwnEncoding(skip) => Skipped(s.encoding, skip)
  }

  function Skipped(text: Option<string>, skip: nat): Option<string> {
    if text.None? then None
    else Some(text.value[if skip < |text.value| then skip else |text.value|..])
  }

  /** What a call does to a copied text: its status, and whether the field is replaced. */
  function CopyStatus(text: Option<string>, granted: bool): Status {
    if text.GetOr("") == "" then InvalidArg else if !granted then OutOfMemory else Ok
  }

  function AfterVersion(s: State, text: Option<string>, granted: bool): (State, Status) {
    var status := CopyStatus(text, granted);
    (if status == Ok then s.(version := text, hadDeclaration := true) else s, status)
  }

  function AfterEncoding(s: State, text: Option<string>, granted: bool): (State, Status) {
    var status := CopyStatus(text, granted);
    (if status == Ok then s.(encoding := text, hadDeclaration := true, encodingVerbatim := true) else s, status)
  }

  function Step(s: State, op: Op): (State, Status) {
    match op
    case SetVersion(arg, granted) => AfterVersion(s, ArgText(s, arg), granted)
    case SetEncoding(arg, granted) => AfterEncoding(s, ArgText(s, arg), granted)
    case SetStandalone(value) => (s.(standalone := if value != 0 then 1 else 0, hadDeclaration := true), Ok)
    case Clear => (FRESH, Ok)
  }

  function Run(ops: seq<Op>): State {
    if ops == [] then FRESH else Step(Run(ops[..|ops| - 1]), ops[|ops| - 1]).0
  }

  // ----- the document in memory -----

  /** A pointer to a character of an allocated block, or to its terminating NUL. */
  datatype Pointer = Pointer(block: nat, at: nat)

  class Document {
    /** The allocated blocks, by address. The document owns the blocks of its two fields;
        every other block belongs to a caller. */
    var blocks: map<nat, string>
    var xmlVersion: Option<nat>
    var xmlEncoding: Option<nat>
    var xmlStandalone: int
    var hadDeclaration: bool
    var declEncodingVerbatim: bool
    ghost var callers: set<nat>

    ghost function Owned(): set<nat>
      reads this
    {
      (if xmlVersion.Some? then {xmlVersion.value} else {})
      + (if xmlEncoding.Some? then {xmlEncoding.value} else {})
    }

    /** Exactly the callers' blocks and the document's own are allocated: nothing leaks, no
        field dangles, and no block has two owners. */
    ghost predicate Valid()
      reads this
    {
      && blocks.Keys == callers + Owned()
      && callers !! Owned()
      && (xmlVersion.Some? && xmlEncoding.Some? ==> xmlVersion != xmlEncoding)
      && (xmlVersion.Some? ==> xmlVersion.value in blocks)
      && (xmlEncoding.Some? ==> xmlEncoding.value in blocks)
    }

    /** The text a field owns. */
    ghost function TextAt(p: Option<nat>): Option<string>
      requires p.Some? ==> p.value in blocks
      reads this
    {
      if p.Some? then Some(blocks[p.value]) else None
    }

    /** A pointer may be NULL, but it must not dangle. */
    ghost predicate Sound(p: Option<Pointer>)
      reads this
    {
      p.Some? ==> p.value.block in blocks && p.value.at <= |blocks[p.value.block]|
    }

    /** The text from a pointer up to the NUL. */
    ghost function TextFrom(p: Option<Pointer>): Option<string>
      requires Sound(p)
      reads this
    {
      if p.Some? then Some(blocks[p.value.block][p.value.at..]) else None
    }

    ghost function Abstract(): State
      requires Valid()
      reads this
    {
      State(TextAt(xmlVersion), TextAt(xmlEncoding), xmlStandalone, hadDeclaration, declEncodingVerbatim)
    }

    constructor ()
      ensures Valid() && Abstract() == FRESH && callers == {}
    {
      blocks := map[];
      xmlVersion, xmlEncoding, xmlStandalone := None, None, -1;
      hadDeclaration, declEncodingVerbatim := false, false;
      callers := {};
    }

    // The getters return the document's own pointers.

    method Version() returns (p: Option<nat>)
      requires Valid()
      ensures p == xmlVersion && (p.Some? ==> p.value in blocks) && TextAt(p) == Abstract().version
    {
      p := xmlVersion;
    }

    method Encoding() returns (p: Option<nat>)
      requires Valid()
      ensures p == xmlEncoding && (p.Some? ==> p.value in blocks) && TextAt(p) == Abstract().encoding
    {
      p := xmlEncoding;
    }

    /** `strdup`: reads an allocated block and copies it to an address not in use. */
    method Duplicate(p: Pointer, granted: bool) returns (copy: Option<nat>)
      requires Sound(Some(p))
      modifies this`blocks
      ensures copy.Some? <==> granted
      ensures copy.None? ==> blocks == old(blocks)
      ensures copy.Some? ==>
                && copy.value !in old(blocks)
                && blocks == old(blocks)[copy.value := old(blocks)[p.block][p.at..]]
    {
      if !granted {
        return None;
      }
      var address := FreeAddress(blocks.Keys);
      blocks := blocks[address := blocks[p.block][p.at..]];
      copy := Some(address);
    }

    /** `free`: only an allocated block may be released. */
    method Free(p: nat)
      requires p in blocks
      modifies this`blocks
      ensures blocks == old(blocks) - {p}
    {
      blocks := blocks - {p};
    }

    method SetVersion(version: Option<Pointer>, granted: bool) returns (status: Status)
      requires Valid() && Sound(version)
      modifies this
      ensures Valid() && callers == old(callers)
      ensures (Abstract(), status) == AfterVersion(old(Abstract()), old(TextFrom(version)), granted)
      ensures forall p | p in callers :: blocks[p] == old(blocks)[p]
    {
      if version.None? || blocks[version.value.block][version.value.at..] == "" {
        return InvalidArg;
      }
      var copy := Duplicate(version.value, granted);
      if copy.None? {
        return OutOfMemory;
      }
      if xmlVersion.Some? {
        Free(xmlVersion.value);
      }
      xmlVersion := copy;
      hadDeclaration := true;
      status := Ok;
    }

    method SetEncoding(encoding: Option<Pointer>, granted: bool) returns (status: Status)
      requires Valid() && Sound(encoding)
      modifies this
      ensures Valid() && callers == old(callers)
      ensures (Abstract(), status) == AfterEncoding(old(Abstract()), old(TextFrom(encoding)), granted)
      ensures forall p | p in callers :: blocks[p] == old(blocks)[p]
    {
      if encoding.None? || blocks[encoding.value.block][encoding.value.at..] == "" {
        return InvalidArg;
      }
      var copy := Duplicate(encoding.value, granted);
      if copy.None? {
        return OutOfMemory;
      }
      if xmlEncoding.Some? {
        Free(xmlEncoding.value);
      }
      xmlEncoding := copy;
      hadDeclaration := true;
      declEncodingVerbatim := true;
      status := Ok;
    }

    method SetStandalone(standalone: int) returns (status: Status)
      requires Valid()
      modifies this
      ensures Valid() && callers == old(callers) && blocks == old(blocks)
      ensures (Abstract(), status) == Step(old(Abstract()), Op.SetStandalone(standalone))
    {
      xmlStandalone := if standalone != 0 then 1 else 0;
      hadDeclaration := true;
      status := Ok;
    }

    method ClearDeclaration() returns (status: Status)
      requires Valid()
      modifies this
      ensures Valid() && callers == old(callers)
      ensures (Abstract(), status) == Step(old(Abstract()), Clear)
      ensures blocks.Keys == callers && forall p | p in callers :: blocks[p] == old(blocks)[p]
    {
      if xmlVersion.Some? {
        Free(xmlVersion.value);
        xmlVersion := None;
      }
      if xmlEncoding.Some? {
        Free(xmlEncoding.value);
        xmlEncoding := None;
      }
      xmlStandalone := -1;
      declEncodingVerbatim := false;
      hadDeclaration := false;
      status := Ok;
    }

    /** A caller's string comes into being. */
    method CallerBlock(text: string) returns (p: nat)
      requires Valid()
      modifies this
      ensures Valid() && Abstract() == old(Abstract())
      ensures p !in old(blocks) && callers == old(callers) + {p}
      ensures blocks == old(blocks)[p := text]
    {
      p := FreeAddress(blocks.Keys);
      blocks := blocks[p := text];
      callers := callers + {p};
    }

    method PointerTo(arg: Arg) returns (p: Option<Pointer>)
      requires Valid()
      modifies this
      ensures Valid() && Abstract() == old(Abstract()) && old(callers) <= callers
      ensures Sound(p) && TextFrom(p) == ArgText(old(Abstract()), arg)
    {
      match arg
      case Null => p := None;
      case CallerString(text) =>
        var address := CallerBlock(text);
        p := Some(Pointer(address, 0));
      case OwnVersion(skip) =>
        var field := Version();
        p := Into(field, skip);
      case OwnEncoding(skip) =>
        var field := Encoding();
        p := Into(field, skip);
    }

    /** Moves a getter's pointer on, as far as its text goes. */
    method Into(field: Option<nat>, skip: nat) returns (p: Option<Pointer>)
      requires field.Some? ==> field.value in blocks
      ensures Sound(p) && TextFrom(p) == Skipped(TextAt(field), skip)
    {
      if field.None? {
        return None;
      }
      var length := |blocks[field.value]|;
      p := Some(Pointer(field.value, if skip < length then skip else length));
    }

    /** One call, whose argument may be a pointer into the document itself. */
    method Perform(op: Op) returns (status: Status)
      requires Valid()
      modifies this
      ensures Valid() && (Abstract(), status) == Step(old(Abstract()), op)
    {
      match op
      case SetVersion(arg, granted) =>
        var p := PointerTo(arg);
        status := SetVersion(p, granted);
      case SetEncoding(arg, granted) =>
        var p := PointerTo(arg);
        status := SetEncoding(p, granted);
      case SetStandalone(value) => status := SetStandalone(value);
      case Clear => status := ClearDeclaration();
    }
  }

  /** An address that no block occupies. */
  method FreeAddress(used: set<nat>) returns (address: nat)
    ensures address !in used
  {
    address := 0;
    var below := used;
    while below != {}
      invariant below <= used
      invariant forall a | a in used && a !in below :: a < address
      decreases |below|
    {
      var a :| a in below;
      below := below - {a};
      if a >= address {
        address := a + 1;
      }
    }
  }

  // ----- every run -----

  /** The flags say exactly what is set, and what is set is not empty. */
  predicate Consistent(s: State) {
    && (s.hadDeclaration <==> s.version.Some? || s.encoding.Some? || s.standalone != -1)
    && (s.encodingVerbatim <==> s.encoding.Some?)
    && -1 <= s.standalone <= 1
    && s.version != Some("") && s.encoding != Some("")
  }

  lemma {:induction false} RunConsistent(ops: seq<Op>)
    ensures Consistent(Run(ops))
  {
    if ops != [] {
      RunConsistent(ops[..|ops| - 1]);
    }
  }

  /** A call that fails changes nothing, and it fails only for a NULL or empty argument or
      for want of memory. */
  lemma FailedCallsChangeNothing(ops: seq<Op>, op: Op)
    ensures var (after, status) := Step(Run(ops), op);
            && (status != Ok ==> after == Run(ops))
            && (op.SetStandalone? || op.Clear? ==> status == Ok)
            && (op.SetVersion? || op.SetEncoding? ==>
                  var text := ArgText(Run(ops), op.arg).GetOr("");
                  && (status == InvalidArg <==> text == "")
                  && (status == OutOfMemory <==> text != "" && !op.granted))
  {
  }

  /** The calls of a run that succeed, in order. */
  function Effective(ops: seq<Op>): seq<Op> {
    if ops == [] then []
    else
      var init, op := ops[..|ops| - 1], ops[|ops| - 1];
      Effective(init) + if Step(Run(init), op).1 == Ok then [op] else []
  }

  /** The calls that fail could as well not have been made. */
  lemma {:induction false} RunIsEffective(ops: seq<Op>)
    ensures Run(ops) == Run(Effective(ops))
  {
    if ops != [] {
      var init, op := ops[..|ops| - 1], ops[|ops| - 1];
      RunIsEffective(init);
      FailedCallsChangeNothing(init, op);
      assert Effective(init) + [] == Effective(init);
      assert (Effective(init) + [op])[..|Effective(init)|] == Effective(init);
    }
  }

  lemma {:induction false} RunConcat(a: seq<Op>, b: seq<Op>, later: seq<Op>)
    requires Run(a) == Run(b)
    ensures Run(a + later) == Run(b + later)
    decreases |later|
  {
    var n := |later| - 1;
    if later == [] {
      assert a + later == a && b + later == b;
    } else {
      RunConcat(a, b, later[..n]);
      assert (a + later)[..|a + later| - 1] == a + later[..n];
      assert (b + later)[..|b + later| - 1] == b + later[..n];
    }
  }

  /** Setting a field from the pointer of its own getter has no effect on any run, whether
      the field is set or not and whether memory is granted or not. */
  lemma SelfAssignment(before: seq<Op>, op: Op, later: seq<Op>)
    requires (op.SetVersion? && op.arg == OwnVersion(0)) || (op.SetEncoding? && op.arg == OwnEncoding(0))
    ensures Run(before + [op] + later) == Run(before + later)
  {
    RunConsistent(before);
    assert (before + [op])[..|before|] == before;
    RunConcat(before + [op], before, later);
  }

  /** Clearing forgets the whole run before it. */
  lemma ClearForgets(before: seq<Op>, later: seq<Op>)
    ensures Run(before + [Clear] + later) == Run(later)
  {
    assert (before + [Clear])[..|before|] == before;
    RunConcat(before + [Clear], [], later);
    assert [] + later == later;
  }
}
