/** The command registry: an array of command pointers that doubles when it is full. */
module Registry {
  import opened Common

  class Command {
    const name: string
    const description: string

    constructor (n: string, d: string)
      ensures name == n && description == d
    {
      name := n;
      description := d;
    }
  }

  datatype Code = Success | ErrorArgs | ErrorMemory

  // ----- the registry as a value -----

  /** The registered commands, the capacity, and the slots copied by growing so far. */
  datatype State = State(commands: seq<Command>, capacity: nat, copied: nat)

  const INITIAL := State([], 8, 0)

  predicate HasNamed(commands: seq<Command>, name: string) {
    exists i :: 0 <= i < |commands| && commands[i].name == name
  }

  /** One registration; `None` stands for a NULL command, and growing may fail. */
  datatype Request = Request(command: Option<Command>, growthSucceeds: bool)

  function Registered(s: State, r: Request): (State, Code) {
    if r.command.None? || HasNamed(s.commands, r.command.value.name) then (s, ErrorArgs)
    else if |s.commands| < s.capacity then (s.(commands := s.commands + [r.command.value]), Success)
    else if !r.growthSucceeds then (s, ErrorMemory)
    else (State(s.commands + [r.command.value], s.capacity * 2, s.copied + s.capacity), Success)
  }

  function Run(rs: seq<Request>): State {
    if rs == [] then INITIAL else Registered(Run(rs[..|rs| - 1]), rs[|rs| - 1]).0
  }

  // ----- the registry in memory -----

  class CommandRegistry {
    var commands: array<Command?>
    var count: nat
    var capacity: nat
    ghost var copied: nat

    ghost predicate Valid()
      reads this, commands
    {
      && count <= capacity == commands.Length && capacity > 0
      && forall i :: 0 <= i < count ==> commands[i] != null
    }

    ghost function Contents(): (s: seq<Command>)
      requires Valid()
      reads this, commands
      ensures |s| == count && forall i :: 0 <= i < count ==> s[i] == commands[i]
    {
      seq(count, i requires 0 <= i < count && Valid() reads this, commands => commands[i])
    }

    ghost function Abstract(): State
      requires Valid()
      reads this, commands
    {
      State(Contents(), capacity, copied)
    }

    constructor ()
      ensures Valid() && Abstract() == INITIAL && fresh(commands)
    {
      commands := new Command?[8];
      count := 0;
      capacity := 8;
      copied := 0;
    }

    method Register(command: Command?, growthSucceeds: bool) returns (code: Code)
      requires Valid()
      modifies this, commands
      ensures Valid() && (commands == old(commands) || (fresh(commands) && capacity > old(capacity)))
      ensures var request := Request(if command == null then None else Some(command), growthSucceeds);
              (Abstract(), code) == Registered(old(Abstract()), request)
    {
      if command == null {
        return ErrorArgs;
      }
      var i := 0;
      while i < count
        invariant i <= count
        invariant forall k :: 0 <= k < i ==> commands[k].name != command.name
      {
        if commands[i].name == command.name {
          assert Contents()[i].name == command.name;
          return ErrorArgs;
        }
        i := i + 1;
      }
      ghost var before := Contents();
      if count >= capacity {
        if !growthSucceeds {
          return ErrorMemory;
        }
        Grow();
      }
      commands[count] := command;
      count := count + 1;
      assert Contents() == before + [command];
      code := Success;
    }

    /** `realloc` to twice the capacity. */
    method Grow()
      requires Valid()
      modifies this
      ensures Valid() && fresh(commands) && count == old(count)
      ensures capacity == old(capacity) * 2 && copied == old(copied) + old(capacity)
      ensures Contents() == old(Contents())
    {
      var grown := new Command?[capacity * 2];
      forall i | 0 <= i < capacity {
        grown[i] := commands[i];
      }
      copied := copied + capacity;
      commands := grown;
      capacity := capacity * 2;
    }

    method Find(name: Option<string>) returns (found: Command?)
      requires Valid()
      ensures found != null ==> found in Contents() && name == Some(found.name)
      ensures found == null <==> name.None? || !HasNamed(Contents(), name.value)
    {
      if name.None? {
        return null;
      }
      var i := 0;
      while i < count
        invariant i <= count
        invariant forall k :: 0 <= k < i ==> commands[k].name != name.value
      {
        if commands[i].name == name.value {
          assert Contents()[i].name == name.value;
          return commands[i];
        }
        i := i + 1;
      }
      found := null;
    }
  }

  // ----- every run -----

  ghost predicate DistinctNames(commands: seq<Command>) {
    forall i, j :: 0 <= i < j < |commands| ==> commands[i].name != commands[j].name
  }

  /** 8 times a power of two. */
  predicate Doubled(capacity: nat) {
    capacity == 8 || (capacity > 8 && capacity % 2 == 0 && Doubled(capacity / 2))
  }

  /** What holds of the registry at all times. The copying stays below twice the number of
      commands, so that a registration costs a constant number of copies on average. */
  ghost predicate Invariant(s: State) {
    && DistinctNames(s.commands)
    && |s.commands| <= s.capacity && Doubled(s.capacity)
    && s.copied == s.capacity - 8
    && (s.capacity == 8 || s.capacity < 2 * |s.commands|)
  }

  lemma RegisteredKeepsInvariant(s: State, r: Request)
    requires Invariant(s)
    ensures Invariant(Registered(s, r).0)
  {
  }

  /** After any sequence of registrations, whatever growing did. */
  lemma {:induction false} RunInvariant(rs: seq<Request>)
    ensures Invariant(Run(rs))
    ensures Run(rs).copied <= 2 * |Run(rs).commands|
    ensures Run(rs).commands != [] ==> Run(rs).copied < 2 * |Run(rs).commands|
  {
    if rs != [] {
      RunInvariant(rs[..|rs| - 1]);
      RegisteredKeepsInvariant(Run(rs[..|rs| - 1]), rs[|rs| - 1]);
    }
  }

  /** The requests that succeed, in order. */
  function Accepted(rs: seq<Request>): seq<Command> {
    if rs == [] then []
    else
      var init, last := rs[..|rs| - 1], rs[|rs| - 1];
      Accepted(init) + if Registered(Run(init), last).1 == Success then [last.command.value] else []
  }

  /** The commands stand in registration order, and a rejected request changes nothing. */
  lemma {:induction false} RunIsAccepted(rs: seq<Request>, r: Request)
    ensures Run(rs).commands == Accepted(rs)
    ensures Registered(Run(rs), r).1 != Success ==> Run(rs + [r]) == Run(rs)
    ensures Registered(Run(rs), r).1 == Success ==>
              r.command.Some? && Run(rs + [r]).commands == Run(rs).commands + [r.command.value]
  {
    assert (rs + [r])[..|rs|] == rs;
    if rs != [] {
      RunIsAccepted(rs[..|rs| - 1], rs[|rs| - 1]);
      assert rs == rs[..|rs| - 1] + [rs[|rs| - 1]];
    }
  }

  /** Where names are distinct, a lookup by name has at most one answer. */
  lemma FoundIsUnique(rs: seq<Request>, a: Command, b: Command)
    requires a in Run(rs).commands && b in Run(rs).commands && a.name == b.name
    ensures a == b
  {
    RunInvariant(rs);
    var commands := Run(rs).commands;
    var i :| 0 <= i < |commands| && commands[i] == a;
    var j :| 0 <= j < |commands| && commands[j] == b;
    assert !(i < j) && !(j < i);
  }

  predicate Taken(rs: seq<Request>, name: string) {
    exists c :: c in Run(rs).commands && c.name == name
  }

  /** What a registration returns after any run: NULL and a name that is taken are rejected
      as arguments, a full array that cannot grow is a lack of memory, and everything else
      is accepted and stands last. */
  lemma RegistrationDecides(rs: seq<Request>, r: Request)
    ensures var code, full := Registered(Run(rs), r).1, |Run(rs).commands| == Run(rs).capacity;
            && (r.command.None? ==> code == ErrorArgs)
            && (r.command.Some? && Taken(rs, r.command.value.name) ==> code == ErrorArgs)
            && (r.command.Some? && !Taken(rs, r.command.value.name) ==>
                  if full && !r.growthSucceeds then code == ErrorMemory
                  else code == Success && Run(rs + [r]).commands == Run(rs).commands + [r.command.value])
    ensures Run(rs + [r]).capacity ==
              if Registered(Run(rs), r).1 == Success && |Run(rs).commands| == Run(rs).capacity
              then 2 * Run(rs).capacity else Run(rs).capacity
  {
    assert (rs + [r])[..|rs|] == rs;
    RunInvariant(rs);
    var commands := Run(rs).commands;
    if r.command.Some? {
      var name := r.command.value.name;
      if HasNamed(commands, name) {
        var i :| 0 <= i < |commands| && commands[i].name == name;
        assert commands[i] in commands;
      }
      if Taken(rs, name) {
        var c :| c in commands && c.name == name;
        var i :| 0 <= i < |commands| && commands[i] == c;
      }
    }
  }

  /** As long as growth succeeds, different names are all registered, in order. */
  lemma {:induction false} FreshNamesAccepted(rs: seq<Request>)
    requires forall r | r in rs :: r.command.Some? && r.growthSucceeds
    requires forall i, j | 0 <= i < j < |rs| :: rs[i].command.value.name != rs[j].command.value.name
    ensures |Run(rs).commands| == |rs| && forall i | 0 <= i < |rs| :: Run(rs).commands[i] == rs[i].command.value
  {
    if rs != [] {
      var init, last := rs[..|rs| - 1], rs[|rs| - 1];
      FreshNamesAccepted(init);
      assert last in rs && init + [last] == rs;
      RegistrationDecides(init, last);
    }
  }
}
