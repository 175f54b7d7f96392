/** The three ways the program reads a whole stream into a growing buffer. Each stores
    exactly the bytes of the stream, inside the capacity it has allocated at the time. */
module StreamReaders {
  import opened Common

  /** A `FILE*` open for reading. A read falls short only at the end of the input, and a
      read that falls short sets the end-of-file indicator. */
  class Input {
    const data: seq<char>
    var pos: nat
    var atEof: bool

    ghost predicate Valid()
      reads this
    {
      pos <= |data| && (atEof ==> pos == |data|)
    }

    /** What is left to read. */
    ghost function Rest(): seq<char>
      requires Valid()
      reads this
    {
      data[pos..]
    }

    constructor (bytes: seq<char>)
      ensures Valid() && Rest() == bytes && !atEof && pos == 0 && data == bytes
    {
      data := bytes;
      pos := 0;
      atEof := false;
    }

    /** `fread`: up to `n` bytes into `buf` from `at` on. */
    method Read(buf: array<char>, at: nat, n: nat) returns (got: nat)
      requires Valid() && at + n <= buf.Length
      modifies this, buf
      ensures Valid() && got == (if n <= old(|Rest()|) then n else old(|Rest()|))
      ensures atEof <==> old(atEof) || got < n
      ensures buf[..at] == old(buf[..at])
      ensures buf[..at + got] + Rest() == old(buf[..at] + Rest())
    {
      ghost var kept, all := buf[..at], Rest();
      got := if n <= |data| - pos then n else |data| - pos;
      forall i | 0 <= i < got {
        buf[at + i] := data[pos + i];
      }
      pos := pos + got;
      if got < n {
        atEof := true;
      }
      assert buf[..at + got] == kept + all[..got];
      assert all == all[..got] + Rest();
    }

    /** `fgetc`. */
    method GetChar() returns (c: Option<char>)
      requires Valid()
      modifies this
      ensures Valid()
      ensures Pending(c) + Rest() == old(Rest())
      ensures c.None? ==> Rest() == []
    {
      if pos < |data| {
        c := Some(data[pos]);
        pos := pos + 1;
      } else {
        c := None;
        atEof := true;
      }
    }
  }

  function Pending(c: Option<char>): seq<char> {
    if c.Some? then [c.value] else []
  }

  /** `realloc` to a larger size: the old bytes are kept, `used` of them being of interest. */
  method Resize(buf: array<char>, size: nat, ghost used: nat) returns (grown: array<char>)
    requires used <= buf.Length <= size
    ensures fresh(grown) && grown.Length == size && grown[..buf.Length] == buf[..]
    ensures grown[..used] == buf[..used]
  {
    grown := new char[size];
    forall i | 0 <= i < buf.Length {
      grown[i] := buf[i];
    }
  }

  /** `realloc`, of a buffer that may not exist yet. */
  method Grown(buf: array?<char>, size: nat, ghost used: nat) returns (grown: array<char>)
    requires if buf == null then used == 0 else used <= buf.Length <= size
    ensures fresh(grown) && grown.Length == size
    ensures buf != null ==> grown[..buf.Length] == buf[..] && grown[..used] == buf[..used]
  {
    if buf == null {
      grown := new char[size];
    } else {
      grown := Resize(buf, size, used);
    }
  }

  ghost function Stored(buf: array?<char>, len: nat): seq<char>
    requires buf != null ==> len <= buf.Length
    reads buf
  {
    if buf == null then [] else buf[..len]
  }

  /** `memory(k)` says whether the k-th allocation succeeds. */
  ghost predicate Plentiful(memory: nat -> bool) {
    forall k :: memory(k)
  }

  /** The shared reader of the command line tool. */
  method ReadStream(fp: Input, memory: nat -> bool) returns (buf: array?<char>, len: nat)
    requires fp.Valid()
    modifies fp
    ensures Plentiful(memory) ==> buf != null
    ensures buf != null ==>
              && fresh(buf) && buf[..] != [] && len < buf.Length
              && buf[..len] == old(fp.Rest()) && buf[len] == '\0'
              && (buf.Length <= 4096 || buf.Length <= 2 * (len + 1))
              && fp.Valid() && fp.Rest() == []
  {
    ghost var all := fp.Rest();
    var cap := 4096;
    len := 0;
    if !memory(0) {
      return null, 0;
    }
    var b := new char[cap];
    var allocations := 1;
    while true
      invariant fp.Valid() && fresh(b) && b.Length == cap && len + 1 < cap
      invariant cap <= 4096 || cap <= 2 * (len + 1)
      invariant b[..len] + fp.Rest() == all
      decreases |fp.Rest()|
    {
      var n := fp.Read(b, len, cap - len - 1);
      len := len + n;
      if len + 1 >= cap {
        cap := cap * 2;
        if !memory(allocations) {
          return null, 0;
        }
        allocations := allocations + 1;
        b := Resize(b, cap, len);
        continue;
      }
      break;
    }
    b[len] := '\0';
    buf := b;
  }

  /** The standard-input branch of `read_file` in the parse, format and xpath commands. */
  method ReadStdin(fp: Input, memory: nat -> bool) returns (buf: array?<char>, len: nat)
    requires fp.Valid()
    modifies fp
    ensures Plentiful(memory) ==> buf != null
    ensures buf != null ==>
              && fresh(buf) && len < buf.Length
              && buf[..len] == old(fp.Rest()) && buf[len] == '\0'
              && buf.Length <= 2 * (len + 4096)
              && fp.Valid() && fp.Rest() == []
  {
    ghost var all := fp.Rest();
    var capacity := 4096;
    var offset: nat := 0;
    if !memory(0) {
      return null, 0;
    }
    var buffer := new char[capacity];
    var allocations := 1;
    while !fp.atEof
      invariant fp.Valid() && fresh(buffer) && buffer.Length == capacity && offset <= capacity && 4096 <= capacity
      invariant capacity <= 2 * (offset + 4096)
      invariant buffer[..offset] + fp.Rest() == all
      invariant fp.atEof ==> offset < capacity && fp.Rest() == []
      decreases !fp.atEof, |fp.Rest()|
    {
      if offset + 4096 > capacity {
        capacity := capacity * 2;
        if !memory(allocations) {
          return null, 0;
        }
        allocations := allocations + 1;
        buffer := Resize(buffer, capacity, offset);
      }
      var n := fp.Read(buffer, offset, 4096);
      offset := offset + n;
    }
    buffer[offset] := '\0';
    buf := buffer;
    len := offset;
  }

  /** The byte-at-a-time reader of the diff command. It does not terminate the text, and
      for an empty stream it has no buffer at all. */
  method ReadDoc(fp: Input, memory: nat -> bool) returns (buf: array?<char>, len: nat)
    requires fp.Valid()
    modifies fp
    ensures Plentiful(memory) ==> (buf == null <==> old(fp.Rest()) == [])
    ensures old(fp.Rest()) == [] ==> buf == null
    ensures buf != null ==>
              && fresh(buf) && len < buf.Length
              && buf[..len] == old(fp.Rest())
              && (buf.Length <= 8192 || buf.Length <= 2 * len)
              && fp.Valid() && fp.Rest() == []
  {
    ghost var all := fp.Rest();
    buf := null;
    len := 0;
    var cap, allocations := 0, 0;
    var c := fp.GetChar();
    while c.Some?
      invariant fp.Valid() && (c.None? ==> fp.Rest() == [])
      invariant buf == null <==> cap == 0
      invariant buf == null <==> len == 0
      invariant buf != null ==> fresh(buf) && buf.Length == cap && len < cap
      invariant cap <= 8192 || cap <= 2 * len
      invariant Stored(buf, len) + (Pending(c) + fp.Rest()) == all
      decreases |fp.Rest()|, c.Some?
    {
      ghost var stored, rest := Stored(buf, len), fp.Rest();
      if len + 1 >= cap {
        cap := if cap != 0 then cap * 2 else 8192;
        if !memory(allocations) {
          return null, 0;
        }
        allocations := allocations + 1;
        buf := Grown(buf, cap, len);
      }
      assert buf[..len] == stored;
      buf[len] := c.value;
      assert buf[..len + 1] == stored + [c.value];
      len := len + 1;
      c := fp.GetChar();
      Assoc(stored, [buf[len - 1]], rest);
    }
  }
}
