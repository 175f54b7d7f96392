/** Turning a string into collation elements with the generated tables: the scan of the
    collation code, over the code points of a normalized string, set against the rule of
    step S2.1 in section 7.2 of UTS #10 that the longest matching prefix is taken at each point. */
module CollationScan {
  import opened Common
  import opened DucetTable
  import opened DucetLookup

  // ----- code points without an entry -----

  /** Base and offset of a code point in the implicit weights of this implementation. */
  function ImplicitBase(cp: nat): (nat, nat) {
    if 0x17000 <= cp <= 0x18AFF then (0xFB00, cp - 0x17000)
    else if 0x18B00 <= cp <= 0x18CFF then (0xFB02, cp - 0x18B00)
    else if 0x1B170 <= cp <= 0x1B2FF then (0xFB01, cp - 0x1B170)
    else (0xFB80 + cp / 0x8000 * 2, cp % 0x8000)
  }

  /** The first weight, before it is cut to 16 bits. */
  function ImplicitSum(cp: nat): nat {
    ImplicitBase(cp).0 + ImplicitBase(cp).1 * 2
  }

  function Implicit(cp: nat): (ces: seq<Ce>)
    ensures 1 <= |ces| <= 2
    ensures forall ce | ce in ces :: ce.primary <= 0xFFFF
  {
    var p1 := if ImplicitSum(cp) > 0xFFFF then 0xFFFF else ImplicitSum(cp);
    var lead := Ce(p1, 0x20, 0x2, false);
    if p1 >= 0xFFFF then [lead] else [lead, Ce(p1 + 1, 0x20, 0x4, false)]
  }

  /** Two code points collide exactly when their sums agree, or when both are cut. */
  lemma ImplicitCollides(a: nat, b: nat)
    ensures Implicit(a) == Implicit(b)
       <==> ImplicitSum(a) == ImplicitSum(b) || (ImplicitSum(a) >= 0xFFFF && ImplicitSum(b) >= 0xFFFF)
  {
    if Implicit(a) == Implicit(b) {
      assert Implicit(a)[0].primary == Implicit(b)[0].primary;
    }
  }

  /** Within a group, code points are told apart, and ordered as they should be, exactly as
      long as the smaller one is not cut. */
  lemma ImplicitOrdered(a: nat, b: nat)
    requires a < b && ImplicitBase(a).0 == ImplicitBase(b).0
    ensures Implicit(a)[0].primary < Implicit(b)[0].primary <==> ImplicitSum(a) < 0xFFFF
    ensures Implicit(a) == Implicit(b) <==> ImplicitSum(a) >= 0xFFFF
  {
    assert ImplicitBase(a).1 < ImplicitBase(b).1;
    ImplicitCollides(a, b);
  }

  /** Neighbours that are cut: two ideographs, and two in the Tangut range. Then code points
      of different groups whose sums agree: a Tangut and a Khitan one, and an ideograph and
      an unassigned code point. */
  lemma ImplicitCollisions()
    ensures Implicit(0x4E00) == Implicit(0x4E01)
    ensures Implicit(0x17300) == Implicit(0x17301)
    ensures Implicit(0x17001) == Implicit(0x18B00)
    ensures Implicit(0x800D) == Implicit(0x1000C)
  {
    ImplicitCollides(0x4E00, 0x4E01);
    ImplicitCollides(0x17300, 0x17301);
    ImplicitCollides(0x17001, 0x18B00);
    ImplicitCollides(0x800D, 0x1000C);
  }

  // ----- keys and their elements -----

  /** Which contractions there are; a third code point of zero stands for a pair. */
  type Contractions = (nat, nat, nat) -> bool

  /** The contractions of the tables. */
  function TableHas(t: Tables): Contractions
    requires Shaped(t)
  {
    (a: nat, b: nat, c: nat) => FindRow(t, a, b, c).Some?
  }

  /** The elements of one matched key, of one to three code points. */
  function CesOfKey(t: Tables, key: seq<nat>): seq<Ce>
    requires Shaped(t)
  {
    if |key| == 1 then
      match SingleCes(t, key[0])
      case Some(ces) => ces
      case None => Implicit(key[0])
    else if |key| == 2 then ContractionCes(t, key[0], key[1], 0).GetOr([])
    else if |key| == 3 then ContractionCes(t, key[0], key[1], key[2]).GetOr([])
    else []
  }

  function KeyCes(t: Tables): seq<nat> -> seq<Ce>
    requires Shaped(t)
  {
    (key: seq<nat>) => CesOfKey(t, key)
  }

  /** The elements of the keys one after the other, where `f` gives those of each. */
  function Collected(f: seq<nat> -> seq<Ce>, keys: seq<seq<nat>>): seq<Ce> {
    if keys == [] then [] else f(keys[0]) + Collected(f, keys[1..])
  }

  function CesOfKeys(t: Tables, keys: seq<seq<nat>>): seq<Ce>
    requires Shaped(t)
  {
    Collected(KeyCes(t), keys)
  }

  // ----- the longest match -----

  predicate Triple(has: Contractions, cps: seq<nat>, p: nat) {
    p + 3 <= |cps| && cps[p + 1] != 0 && cps[p + 2] != 0 && has(cps[p], cps[p + 1], cps[p + 2])
  }

  predicate Pair(has: Contractions, cps: seq<nat>, p: nat) {
    p + 2 <= |cps| && cps[p + 1] != 0 && has(cps[p], cps[p + 1], 0)
  }

  /** The length of the longest match at position `p`. */
  function LongestAt(has: Contractions, cps: seq<nat>, p: nat): (n: nat)
    requires p < |cps|
    ensures 1 <= n <= 3 && p + n <= |cps|
  {
    if Triple(has, cps, p) then 3 else if Pair(has, cps, p) then 2 else 1
  }

  /** The keys that longest matching cuts a string into, from position `p` on. */
  function LongestKeys(has: Contractions, cps: seq<nat>, p: nat := 0): seq<seq<nat>>
    requires p <= |cps|
    decreases |cps| - p
  {
    if p == |cps| then []
    else
      var n := LongestAt(has, cps, p);
      [cps[p..p + n]] + LongestKeys(has, cps, p + n)
  }

  // ----- the scan -----

  /** What the scan finds at position `p`: the length of the key, and how far it moves. It
      reads two code points ahead, sees neither of them when only one is there, and after a
      pair goes on behind both. */
  function ScannedAt(has: Contractions, cps: seq<nat>, p: nat): (r: (nat, nat))
    requires p < |cps|
    ensures 1 <= r.0 <= r.1 && r.0 <= 3 && p + r.1 <= |cps|
  {
    if Triple(has, cps, p) then (3, 3) else if p + 3 <= |cps| && Pair(has, cps, p) then (2, 3) else (1, 1)
  }

  /** The keys that the scan looks up from position `p` on. */
  function ScannedKeys(has: Contractions, cps: seq<nat>, p: nat := 0): seq<seq<nat>>
    requires p <= |cps|
    decreases |cps| - p
  {
    if p == |cps| then []
    else
      var (n, moved) := ScannedAt(has, cps, p);
      [cps[p..p + n]] + ScannedKeys(has, cps, p + moved)
  }

  lemma NextScanned(has: Contractions, cps: seq<nat>, p: nat)
    requires p < |cps|
    ensures var keys, (n, moved) := ScannedKeys(has, cps, p), ScannedAt(has, cps, p);
            keys != [] && keys[0] == cps[p..p + n] && keys[1..] == ScannedKeys(has, cps, p + moved)
  {
  }

  /** `has` and `f` give the contractions of the tables and the elements of every key. The
      loop of the scan is stated about them rather than about the tables, because its proof
      does not depend on how they are found; the triggers keep that out of it. */
  ghost predicate Gives(has: Contractions, f: seq<nat> -> seq<Ce>, t: Tables)
    requires Shaped(t)
  {
    && (forall a: nat, b: nat, c: nat {:trigger FindRow(t, a, b, c)} :: has(a, b, c) == FindRow(t, a, b, c).Some?)
    && (forall key {:trigger CesOfKey(t, key)} :: f(key) == CesOfKey(t, key))
  }

  /** The elements that the scan has still to collect at position `p`. */
  function Upcoming(has: Contractions, f: seq<nat> -> seq<Ce>, cps: seq<nat>, p: nat): seq<Ce>
    requires p <= |cps|
    decreases |cps| - p
  {
    if p == |cps| then []
    else
      var (n, moved) := ScannedAt(has, cps, p);
      f(cps[p..p + n]) + Upcoming(has, f, cps, p + moved)
  }

  lemma {:induction false} UpcomingKeys(has: Contractions, f: seq<nat> -> seq<Ce>, cps: seq<nat>, p: nat)
    requires p <= |cps|
    ensures Upcoming(has, f, cps, p) == Collected(f, ScannedKeys(has, cps, p))
    decreases |cps| - p
  {
    if p < |cps| {
      NextScanned(has, cps, p);
      UpcomingKeys(has, f, cps, p + ScannedAt(has, cps, p).1);
    }
  }

  /** One round of the scan at position `p`: the elements of the key that is found, and how
      far the scan moves. */
  method ScanStep(t: Tables, cps: seq<nat>, p: nat, ghost has: Contractions, ghost f: seq<nat> -> seq<Ce>)
    returns (ces: seq<Ce>, moved: nat)
    requires Shaped(t) && Increasing(t.cp) && RowsIncreasing(t) && p < |cps| && Gives(has, f, t)
    ensures moved == ScannedAt(has, cps, p).1 && ces == f(cps[p..p + ScannedAt(has, cps, p).0])
  {
    ghost var key := cps[p..p + ScannedAt(has, cps, p).0];
    assert f(key) == CesOfKey(t, key);
    var cp := cps[p];
    var nxt := p + 1;
    var c2, c3 := 0, 0;
    if nxt < |cps| {
      c2 := cps[nxt];
      nxt := nxt + 1;
      if nxt < |cps| {
        c3 := cps[nxt];
        nxt := nxt + 1;
      } else {
        c2 := 0;
      }
    }
    if c2 != 0 && c3 != 0 {
      var r := CesOfContraction(t, cp, c2, c3);
      assert has(cp, c2, c3) == FindRow(t, cp, c2, c3).Some?;
      if r.Some? {
        return r.value, nxt - p;
      }
    }
    if c2 != 0 {
      var r := CesOfContraction(t, cp, c2, 0);
      assert has(cp, c2, 0) == FindRow(t, cp, c2, 0).Some?;
      if r.Some? {
        return r.value, nxt - p;
      }
    }
    var r := CesOfSingle(t, cp);
    return if r.Some? then r.value else Implicit(cp), 1;
  }

  /** The loop of the scan. */
  method Scan(t: Tables, cps: seq<nat>, ghost has: Contractions, ghost f: seq<nat> -> seq<Ce>)
    returns (buf: seq<Ce>)
    requires Shaped(t) && Increasing(t.cp) && RowsIncreasing(t) && Gives(has, f, t)
    ensures buf == Upcoming(has, f, cps, 0)
  {
    buf := [];
    var p := 0;
    while p < |cps|
      invariant p <= |cps|
      invariant buf + Upcoming(has, f, cps, p) == Upcoming(has, f, cps, 0)
    {
      var ces, moved := ScanStep(t, cps, p, has, f);
      Assoc(buf, ces, Upcoming(has, f, cps, p + moved));
      buf := buf + ces;
      p := p + moved;
    }
    assert buf + [] == buf;
  }

  method CesFromString(t: Tables, cps: seq<nat>) returns (buf: seq<Ce>)
    requires Shaped(t) && Increasing(t.cp) && RowsIncreasing(t)
    ensures buf == CesOfKeys(t, ScannedKeys(TableHas(t), cps))
  {
    ghost var has, f := TableHas(t), KeyCes(t);
    buf := Scan(t, cps, has, f);
    UpcomingKeys(has, f, cps, 0);
  }

  // ----- a code point without an entry -----

  function Cut(weight: nat): nat {
    if weight < 0xFFFF then weight else 0xFFFF
  }

  /** The form of implicit elements: two of them with consecutive first weights, or just one
      when the first weight is the greatest there is. */
  predicate ImplicitForm(ces: seq<Ce>) {
    && 1 <= |ces| <= 2 && (|ces| == 1 <==> ces[0].primary == 0xFFFF)
    && ces[0] == Ce(ces[0].primary, 0x20, 0x2, false)
    && (|ces| == 2 ==> ces[1] == Ce(ces[0].primary + 1, 0x20, 0x4, false))
  }

  lemma ScannedAlone(t: Tables, cp: nat)
    requires Shaped(t)
    ensures CesOfKeys(t, ScannedKeys(TableHas(t), [cp])) == CesOfKey(t, [cp])
  {
    var has := TableHas(t);
    assert [cp][0..1] == [cp];
    assert ScannedKeys(has, [cp], 1) == [];
    assert ScannedKeys(has, [cp]) == [[cp]];
    assert [[cp]][1..] == [] && Collected(KeyCes(t), []) == [];
    assert CesOfKey(t, [cp]) + [] == CesOfKey(t, [cp]);
  }

  /** What the scan yields for a code point that the tables do not know. Within each of the
      three script ranges, the first weight counts up by two, up to 0xFFFF. */
  lemma ImplicitElements(t: Tables, cp: nat)
    requires Shaped(t) && SingleCes(t, cp) == None
    ensures var ces := CesOfKeys(t, ScannedKeys(TableHas(t), [cp]));
            && ImplicitForm(ces)
            && (0x17000 <= cp < 0x18B00 ==> ces[0].primary == Cut(0xFB00 + 2 * (cp - 0x17000)))
            && (0x18B00 <= cp < 0x18D00 ==> ces[0].primary == Cut(0xFB02 + 2 * (cp - 0x18B00)))
            && (0x1B170 <= cp < 0x1B300 ==> ces[0].primary == Cut(0xFB01 + 2 * (cp - 0x1B170)))
  {
    ScannedAlone(t, cp);
    ImplicitFormed(cp);
    assert CesOfKey(t, [cp]) == Implicit(cp);
  }

  lemma ImplicitFormed(cp: nat)
    ensures ImplicitForm(Implicit(cp)) && Implicit(cp)[0].primary == Cut(ImplicitSum(cp))
  {
  }

  lemma GroupOf(g: nat, k: nat)
    requires k < 0x8000
    ensures (0x8000 * g + k) / 0x8000 == g && (0x8000 * g + k) % 0x8000 == k
  {
  }

  /** Elsewhere, it does so within each group of 0x8000 code points. */
  lemma ImplicitInGroup(t: Tables, g: nat, k: nat)
    requires k < 0x8000
    requires var cp := 0x8000 * g + k;
             && !(0x17000 <= cp < 0x18D00) && !(0x1B170 <= cp < 0x1B300)
             && Shaped(t) && SingleCes(t, cp) == None
    ensures var ces := CesOfKeys(t, ScannedKeys(TableHas(t), [0x8000 * g + k]));
            ImplicitForm(ces) && ces[0].primary == Cut(0xFB80 + 2 * g + 2 * k)
  {
    var cp := 0x8000 * g + k;
    GroupOf(g, k);
    ScannedAlone(t, cp);
    ImplicitFormed(cp);
    assert ImplicitSum(cp) == 0xFB80 + 2 * g + 2 * k;
    assert CesOfKey(t, [cp]) == Implicit(cp);
  }

  // ----- what the scan covers -----

  function Joined(keys: seq<seq<nat>>): seq<nat> {
    if keys == [] then [] else keys[0] + Joined(keys[1..])
  }

  predicate NoPairKey(keys: seq<seq<nat>>) {
    keys == [] || (|keys[0]| != 2 && NoPairKey(keys[1..]))
  }

  function PairKeys(keys: seq<seq<nat>>): nat {
    if keys == [] then 0 else (if |keys[0]| == 2 then 1 else 0) + PairKeys(keys[1..])
  }

  lemma {:induction false} LongestCoversFrom(has: Contractions, cps: seq<nat>, p: nat)
    requires p <= |cps|
    ensures Joined(LongestKeys(has, cps, p)) == cps[p..]
    decreases |cps| - p
  {
    if p < |cps| {
      var n := LongestAt(has, cps, p);
      LongestCoversFrom(has, cps, p + n);
      assert LongestKeys(has, cps, p)[1..] == LongestKeys(has, cps, p + n);
      assert cps[p..] == cps[p..p + n] + cps[p + n..];
    }
  }

  /** Longest matching covers the string. */
  lemma LongestCovers(has: Contractions, cps: seq<nat>)
    ensures Joined(LongestKeys(has, cps)) == cps
  {
    LongestCoversFrom(has, cps, 0);
    assert cps[0..] == cps;
  }

  /** The scan loses one code point for every pair it finds, and no other. */
  lemma {:induction false} ScanLosesOnePerPair(has: Contractions, cps: seq<nat>, p: nat)
    requires p <= |cps|
    ensures |Joined(ScannedKeys(has, cps, p))| + PairKeys(ScannedKeys(has, cps, p)) == |cps| - p
    decreases |cps| - p
  {
    if p < |cps| {
      var moved := ScannedAt(has, cps, p).1;
      ScanLosesOnePerPair(has, cps, p + moved);
      assert ScannedKeys(has, cps, p)[1..] == ScannedKeys(has, cps, p + moved);
    }
  }

  lemma {:induction false} PairKeysZero(keys: seq<seq<nat>>)
    ensures PairKeys(keys) == 0 <==> NoPairKey(keys)
  {
    if keys != [] {
      PairKeysZero(keys[1..]);
    }
  }

  lemma {:induction false} SameWithoutPairs(has: Contractions, cps: seq<nat>, p: nat)
    requires p <= |cps| && NoPairKey(LongestKeys(has, cps, p))
    ensures ScannedKeys(has, cps, p) == LongestKeys(has, cps, p)
    decreases |cps| - p
  {
    if p < |cps| {
      var n := LongestAt(has, cps, p);
      assert LongestKeys(has, cps, p)[0] == cps[p..p + n];
      assert LongestKeys(has, cps, p)[1..] == LongestKeys(has, cps, p + n);
      SameWithoutPairs(has, cps, p + n);
    }
  }

  /** The scan takes the longest match everywhere exactly for the strings in which longest
      matching meets no two-code-point contraction. */
  lemma ScanIsLongestMatch(has: Contractions, cps: seq<nat>)
    ensures ScannedKeys(has, cps) == LongestKeys(has, cps) <==> NoPairKey(LongestKeys(has, cps))
  {
    if NoPairKey(LongestKeys(has, cps)) {
      SameWithoutPairs(has, cps, 0);
    } else {
      LongestCovers(has, cps);
      ScanLosesOnePerPair(has, cps, 0);
      PairKeysZero(LongestKeys(has, cps));
    }
  }

  /** For every pair in the table and every code point behind it that completes no triple,
      the scan drops that code point; and it does not see a pair at the end of the string. */
  lemma PairExamples(has: Contractions, a: nat, b: nat, x: nat)
    requires b != 0 && has(a, b, 0)
    requires x == 0 || !has(a, b, x)
    ensures ScannedKeys(has, [a, b, x]) == [[a, b]]
    ensures LongestKeys(has, [a, b, x]) == [[a, b], [x]]
    ensures ScannedKeys(has, [a, b]) == [[a], [b]] && LongestKeys(has, [a, b]) == [[a, b]]
  {
    var s, u := [a, b, x], [a, b];
    assert s[0..2] == [a, b] && s[2..3] == [x];
    assert LongestKeys(has, s, 3) == [];
    assert LongestKeys(has, s, 2) == [[x]] && ScannedKeys(has, s, 3) == [];
    assert u[0..1] == [a] && u[1..2] == [b] && u[0..2] == [a, b];
    assert ScannedKeys(has, u, 1) == [[b]] && LongestKeys(has, u, 2) == [];
  }
}
