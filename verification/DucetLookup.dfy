/** Looking up the generated tables, as the collation code does: a binary search, then a
    slice of the shared pool. The tables are C arrays, whose elements keep only the low
    bits that their types hold. The lookups agree with the entries they were made from. */
module DucetLookup {
  import opened Common
  import opened Sorting
  import opened DucetTable

  const UINT8 := 0x100
  const UINT16 := 0x1_0000
  const UINT32 := 0x1_0000_0000

  function Truncated(xs: seq<nat>, m: nat): seq<nat>
    requires m > 0
  {
    seq(|xs|, i requires 0 <= i < |xs| => xs[i] % m)
  }

  /** The arrays as the C compiler stores them. */
  function Stored(t: Tables): Tables {
    Tables(Truncated(t.cp, UINT32), Truncated(t.ceOff, UINT16),
           Truncated(t.ctA, UINT32), Truncated(t.ctB, UINT32), Truncated(t.ctC, UINT32),
           Truncated(t.ctOff, UINT16), Truncated(t.ctNce, UINT8),
           Truncated(t.w, UINT16), Truncated(t.variable, UINT8))
  }

  predicate Shaped(t: Tables) {
    && |t.ceOff| == |t.cp| + 1
    && |t.ctA| == |t.ctB| == |t.ctC| == |t.ctOff| == |t.ctNce|
    && |t.w| == 3 * |t.variable|
    && (forall i :: 0 <= i < |t.ceOff| ==> t.ceOff[i] <= |t.variable|)
    && (forall i :: 0 <= i < |t.ctOff| ==> t.ctOff[i] + t.ctNce[i] <= |t.variable|)
  }

  // ----- reading the pool -----

  function CeAt(t: Tables, i: nat): Ce
    requires |t.w| == 3 * |t.variable| && i < |t.variable|
  {
    Ce(t.w[i * 3], t.w[i * 3 + 1], t.w[i * 3 + 2], t.variable[i] != 0)
  }

  function ReadPool(t: Tables, lo: nat, hi: nat): seq<Ce>
    requires |t.w| == 3 * |t.variable| && hi <= |t.variable|
  {
    if hi <= lo then [] else ReadPool(t, lo, hi - 1) + [CeAt(t, hi - 1)]
  }

  method ReadCes(t: Tables, off: nat, offEnd: nat) returns (ces: seq<Ce>)
    requires |t.w| == 3 * |t.variable| && offEnd <= |t.variable|
    ensures ces == ReadPool(t, off, offEnd)
  {
    ces := [];
    var w := off;
    while w < offEnd
      invariant w == off || off < w <= offEnd
      invariant ces == ReadPool(t, off, if w <= offEnd then w else offEnd)
    {
      ces := ces + [CeAt(t, w)];
      w := w + 1;
    }
  }

  // ----- the binary searches -----

  predicate Increasing(xs: seq<nat>) {
    forall i, j :: 0 <= i < j < |xs| ==> xs[i] < xs[j]
  }

  method LookupSingle(cps: seq<nat>, cp: nat) returns (r: Option<nat>)
    requires Increasing(cps)
    ensures r.Some? ==> r.value < |cps| && cps[r.value] == cp
    ensures r.None? ==> cp !in cps
  {
    var lo, hi := 0, |cps|;
    while lo < hi
      invariant lo <= hi <= |cps|
      invariant forall k :: 0 <= k < lo ==> cps[k] < cp
      invariant forall k :: hi <= k < |cps| ==> cp < cps[k]
    {
      var mid := lo + (hi - lo) / 2;
      if cps[mid] == cp {
        return Some(mid);
      }
      if cps[mid] < cp {
        lo := mid + 1;
      } else {
        hi := mid;
      }
    }
    return None;
  }

  predicate RowLess(a: nat, b: nat, c: nat, a': nat, b': nat, c': nat) {
    a < a' || (a == a' && (b < b' || (b == b' && c < c')))
  }

  predicate RowsIncreasing(t: Tables)
    requires Shaped(t)
  {
    forall i, j :: 0 <= i < j < |t.ctA| ==>
      RowLess(t.ctA[i], t.ctB[i], t.ctC[i], t.ctA[j], t.ctB[j], t.ctC[j])
  }

  method LookupContraction(t: Tables, a: nat, b: nat, c: nat) returns (r: Option<nat>)
    requires Shaped(t) && RowsIncreasing(t)
    ensures r.Some? ==> var i := r.value; i < |t.ctA| && (t.ctA[i], t.ctB[i], t.ctC[i]) == (a, b, c)
    ensures r.None? ==> forall i :: 0 <= i < |t.ctA| ==> (t.ctA[i], t.ctB[i], t.ctC[i]) != (a, b, c)
  {
    var lo, hi := 0, |t.ctA|;
    while lo < hi
      invariant lo <= hi <= |t.ctA|
      invariant forall k :: 0 <= k < lo ==> RowLess(t.ctA[k], t.ctB[k], t.ctC[k], a, b, c)
      invariant forall k :: hi <= k < |t.ctA| ==> RowLess(a, b, c, t.ctA[k], t.ctB[k], t.ctC[k])
    {
      var mid := lo + (hi - lo) / 2;
      var ka, kb, kc := t.ctA[mid], t.ctB[mid], t.ctC[mid];
      if ka < a || (ka == a && (kb < b || (kb == b && kc < c))) {
        lo := mid + 1;
      } else if ka == a && kb == b && kc == c {
        return Some(mid);
      } else {
        hi := mid;
      }
    }
    return None;
  }

  // ----- the answers of the tables, as functions -----

  /** The first place of `x` in `xs` from `i` on. */
  function Find(xs: seq<nat>, x: nat, i: nat := 0): (r: Option<nat>)
    requires i <= |xs|
    ensures r.Some? ==> i <= r.value < |xs| && xs[r.value] == x
    ensures r.None? ==> forall k :: i <= k < |xs| ==> xs[k] != x
    decreases |xs| - i
  {
    if i == |xs| then None else if xs[i] == x then Some(i) else Find(xs, x, i + 1)
  }

  function FindRow(t: Tables, a: nat, b: nat, c: nat, i: nat := 0): (r: Option<nat>)
    requires Shaped(t) && i <= |t.ctA|
    ensures r.Some? ==> i <= r.value < |t.ctA| && (t.ctA[r.value], t.ctB[r.value], t.ctC[r.value]) == (a, b, c)
    ensures r.None? ==> forall k :: i <= k < |t.ctA| ==> (t.ctA[k], t.ctB[k], t.ctC[k]) != (a, b, c)
    decreases |t.ctA| - i
  {
    if i == |t.ctA| then None
    else if (t.ctA[i], t.ctB[i], t.ctC[i]) == (a, b, c) then Some(i)
    else FindRow(t, a, b, c, i + 1)
  }

  function SingleCes(t: Tables, cp: nat): Option<seq<Ce>>
    requires Shaped(t)
  {
    match Find(t.cp, cp)
    case None => None
    case Some(i) => Some(ReadPool(t, t.ceOff[i], t.ceOff[i + 1]))
  }

  function ContractionCes(t: Tables, a: nat, b: nat, c: nat): Option<seq<Ce>>
    requires Shaped(t)
  {
    match FindRow(t, a, b, c)
    case None => None
    case Some(i) => Some(ReadPool(t, t.ctOff[i], t.ctOff[i] + t.ctNce[i]))
  }

  method CesOfSingle(t: Tables, cp: nat) returns (ces: Option<seq<Ce>>)
    requires Shaped(t) && Increasing(t.cp)
    ensures ces == SingleCes(t, cp)
  {
    var idx := LookupSingle(t.cp, cp);
    if idx.None? {
      return None;
    }
    var out := ReadCes(t, t.ceOff[idx.value], t.ceOff[idx.value + 1]);
    ces := Some(out);
    var found := Find(t.cp, cp);
    assert found.Some? && found.value == idx.value;
  }

  method CesOfContraction(t: Tables, a: nat, b: nat, c: nat) returns (ces: Option<seq<Ce>>)
    requires Shaped(t) && RowsIncreasing(t)
    ensures ces == ContractionCes(t, a, b, c)
  {
    var idx := LookupContraction(t, a, b, c);
    if idx.None? {
      return None;
    }
    var out := ReadCes(t, t.ctOff[idx.value], t.ctOff[idx.value] + t.ctNce[idx.value]);
    ces := Some(out);
    var found := FindRow(t, a, b, c);
    assert found.Some? && found.value == idx.value;
  }

  // ----- the entries the tables stand for -----

  /** `r` is what the entries say about the code point `cp`. */
  predicate SingleAnswer(single: seq<Single>, cp: nat, r: Option<seq<Ce>>) {
    match r
    case None => forall e | e in single :: e.cp != cp
    case Some(ces) => Single(cp, ces) in single
  }

  function Key(a: nat, b: nat, c: nat): seq<nat> {
    if c == 0 then [a, b] else [a, b, c]
  }

  predicate ContractionAnswer(contr: seq<Contraction>, key: seq<nat>, r: Option<seq<Ce>>) {
    match r
    case None => forall e | e in contr :: e.cps != key
    case Some(ces) => Contraction(key, ces) in contr
  }

  predicate CeFits(ce: Ce) {
    ce.primary < UINT16 && ce.secondary < UINT16 && ce.tertiary < UINT16
  }

  /** What the parser guarantees: code points and weights of the right size, at least one
      element for an entry, and the table has one entry for each code point. */
  ghost predicate GoodSingles(single: seq<Single>) {
    && (forall e | e in single :: e.cp < UINT32 && e.ces != [] && forall ce | ce in e.ces :: CeFits(ce))
    && DistinctKeys(single, (e: Single) => e.cp)
  }

  /** The same for contractions of two or three code points, none of them zero. */
  ghost predicate GoodContractions(contr: seq<Contraction>) {
    && (forall e | e in contr ::
          && 2 <= |e.cps| <= 3 && (forall cp | cp in e.cps :: 0 < cp < UINT32)
          && e.ces != [] && forall ce | ce in e.ces :: CeFits(ce))
    && DistinctKeys(contr, (e: Contraction) => e.cps)
  }

  lemma SortedSingles(single: seq<Single>)
    requires GoodSingles(single)
    ensures var s := Sort(single, SingleLe);
            && GoodSingles(s) && (forall e :: e in s <==> e in single)
            && (forall i, j :: 0 <= i < j < |s| ==> s[i].cp < s[j].cp)
  {
    var s := Sort(single, SingleLe);
    SingleOrder();
    SortCorrect(single, SingleLe);
    SameElements(single, s);
    PermutedDistinct(single, s, (e: Single) => e.cp);
    forall i, j | 0 <= i < j < |s| ensures s[i].cp < s[j].cp {
      assert SingleLe(s[i], s[j]);
      assert ((e: Single) => e.cp)(s[i]) != ((e: Single) => e.cp)(s[j]);
    }
  }

  lemma SortedContractions(contr: seq<Contraction>)
    requires GoodContractions(contr)
    ensures var s := Sort(contr, ContractionLe);
            && GoodContractions(s) && (forall e :: e in s <==> e in contr)
            && (forall i, j :: 0 <= i < j < |s| ==> TupleLe(s[i].cps, s[j].cps) && s[i].cps != s[j].cps)
  {
    var s := Sort(contr, ContractionLe);
    ContractionOrder();
    SortCorrect(contr, ContractionLe);
    SameElements(contr, s);
    PermutedDistinct(contr, s, (e: Contraction) => e.cps);
    forall i, j | 0 <= i < j < |s| ensures TupleLe(s[i].cps, s[j].cps) && s[i].cps != s[j].cps {
      assert ContractionLe(s[i], s[j]);
      assert ((e: Contraction) => e.cps)(s[i]) != ((e: Contraction) => e.cps)(s[j]);
    }
  }

  // ----- the pool is tiled by the entries -----

  lemma {:induction false} PoolPrefix(single: seq<Single>, i: nat)
    requires i <= |single|
    ensures SinglePool(single[..i]) <= SinglePool(single)
    decreases |single| - i
  {
    if i == |single| {
      assert single[..i] == single;
    } else {
      PoolPrefix(single, i + 1);
      PoolSnoc(single, i);
    }
  }

  lemma {:induction false} ContractionPoolPrefix(contr: seq<Contraction>, i: nat)
    requires i <= |contr|
    ensures ContractionPool(contr[..i]) <= ContractionPool(contr)
    decreases |contr| - i
  {
    if i == |contr| {
      assert contr[..i] == contr;
    } else {
      ContractionPoolPrefix(contr, i + 1);
      ContractionPoolSnoc(contr, i);
    }
  }

  /** Where the elements of each entry are. */
  lemma SingleSlice(single: seq<Single>, contr: seq<Contraction>, i: nat)
    requires i < |single|
    ensures var pool := SinglePool(single) + ContractionPool(contr);
            var lo, hi := SingleOffset(single, i), SingleOffset(single, i + 1);
            lo <= hi <= |pool| && hi == lo + |single[i].ces| && pool[lo..hi] == single[i].ces
  {
    PoolSnoc(single, i);
    PoolPrefix(single, i + 1);
    var lo, hi := SingleOffset(single, i), SingleOffset(single, i + 1);
    assert SinglePool(single)[..hi] == SinglePool(single[..i + 1]);
    assert (SinglePool(single) + ContractionPool(contr))[lo..hi] == SinglePool(single)[..hi][lo..];
  }

  lemma ContractionSlice(single: seq<Single>, contr: seq<Contraction>, i: nat)
    requires i < |contr|
    ensures var pool := SinglePool(single) + ContractionPool(contr);
            var lo := ContractionOffset(single, contr, i);
            var hi := lo + |contr[i].ces|;
            hi <= |pool| && hi == ContractionOffset(single, contr, i + 1) && pool[lo..hi] == contr[i].ces
  {
    ContractionPoolSnoc(contr, i);
    ContractionPoolPrefix(contr, i + 1);
    var n := |SinglePool(single)|;
    var lo := ContractionOffset(single, contr, i);
    var hi := lo + |contr[i].ces|;
    assert ContractionPool(contr)[..hi - n] == ContractionPool(contr[..i + 1]);
    assert (SinglePool(single) + ContractionPool(contr))[lo..hi] == ContractionPool(contr)[..hi - n][lo - n..];
  }

  /** The slices in pool order: singles first, then contractions. */
  function Slice(single: seq<Single>, contr: seq<Contraction>, k: nat): (nat, nat)
    requires k < |single| + |contr| && AtLeastTwo(contr)
  {
    var t := TablesOf(single, contr);
    if k < |single| then (t.ceOff[k], t.ceOff[k + 1])
    else (t.ctOff[k - |single|], t.ctOff[k - |single|] + t.ctNce[k - |single|])
  }

  /** The entries in pool order. */
  function EntryCes(single: seq<Single>, contr: seq<Contraction>, k: nat): seq<Ce>
    requires k < |single| + |contr|
  {
    if k < |single| then single[k].ces else contr[k - |single|].ces
  }

  lemma SliceShowsEntry(single: seq<Single>, contr: seq<Contraction>, k: nat)
    requires k < |single| + |contr| && AtLeastTwo(contr)
    ensures var pool, (lo, hi) := SinglePool(single) + ContractionPool(contr), Slice(single, contr, k);
            lo <= hi <= |pool| && pool[lo..hi] == EntryCes(single, contr, k)
  {
    if k < |single| {
      SingleSlice(single, contr, k);
    } else {
      ContractionSlice(single, contr, k - |single|);
    }
  }

  lemma OffsetsIncrease(single: seq<Single>, contr: seq<Contraction>)
    requires AtLeastTwo(contr)
    requires (forall e | e in single :: e.ces != []) && (forall e | e in contr :: e.ces != [])
    ensures Increasing(TablesOf(single, contr).ceOff) && Increasing(TablesOf(single, contr).ctOff)
  {
    var t := TablesOf(single, contr);
    forall k | 0 <= k < |single| ensures t.ceOff[k] < t.ceOff[k + 1] {
      SingleSlice(single, contr, k);
    }
    forall k | 0 <= k < |contr| - 1 ensures t.ctOff[k] < t.ctOff[k + 1] {
      ContractionSlice(single, contr, k);
    }
    StepsIncrease(t.ceOff);
    StepsIncrease(t.ctOff);
  }

  /** The weights and variable bits are those of one pool of elements. Its slices follow one
      another without gap or overlap, from the start of the pool to its end, and each one
      shows the elements of its entry; no slice is empty. */
  lemma PoolTiled(single: seq<Single>, contr: seq<Contraction>)
    requires AtLeastTwo(contr)
    requires (forall e | e in single :: e.ces != []) && (forall e | e in contr :: e.ces != [])
    ensures var n := |single| + |contr|;
            var t := TablesOf(single, contr);
            var pool := SinglePool(single) + ContractionPool(contr);
            && t.w == Weights(pool) && t.variable == VarBits(pool) && |t.w| == 3 * |t.variable|
            && (forall k :: 0 <= k < n ==> Slice(single, contr, k).0 < Slice(single, contr, k).1 <= |pool|)
            && (forall k :: 0 <= k < n ==>
                  pool[Slice(single, contr, k).0..Slice(single, contr, k).1] == EntryCes(single, contr, k))
            && (forall k :: 0 <= k < n - 1 ==> Slice(single, contr, k).1 == Slice(single, contr, k + 1).0)
            && (n > 0 ==> Slice(single, contr, 0).0 == 0 && Slice(single, contr, n - 1).1 == |t.variable|)
            && Increasing(t.ceOff) && Increasing(t.ctOff)
  {
    var n, t := |single| + |contr|, TablesOf(single, contr);
    assert single[..|single|] == single && contr[..|contr|] == contr;
    assert single[..0] == [] && contr[..0] == [];
    forall k | 0 <= k < n
      ensures Slice(single, contr, k).0 < Slice(single, contr, k).1
      ensures k < n - 1 ==> Slice(single, contr, k).1 == Slice(single, contr, k + 1).0
      ensures k == n - 1 ==> Slice(single, contr, k).1 == |t.variable|
    {
      if k < |single| {
        SingleSlice(single, contr, k);
      } else {
        ContractionSlice(single, contr, k - |single|);
      }
    }
    OffsetsIncrease(single, contr);
    forall k | 0 <= k < n
      ensures var pool, (lo, hi) := SinglePool(single) + ContractionPool(contr), Slice(single, contr, k);
              lo <= hi <= |pool| && pool[lo..hi] == EntryCes(single, contr, k)
    {
      SliceShowsEntry(single, contr, k);
    }
  }

  lemma StepsIncrease(xs: seq<nat>)
    requires forall k :: 0 <= k < |xs| - 1 ==> xs[k] < xs[k + 1]
    ensures Increasing(xs)
  {
    forall i, j | 0 <= i < j < |xs| ensures xs[i] < xs[j] {
      StepsIncreaseTo(xs, i, j);
    }
  }

  lemma {:induction false} StepsIncreaseTo(xs: seq<nat>, i: nat, j: nat)
    requires forall k :: 0 <= k < |xs| - 1 ==> xs[k] < xs[k + 1]
    requires i < j < |xs|
    ensures xs[i] < xs[j]
  {
    if i + 1 < j {
      StepsIncreaseTo(xs, i, j - 1);
    }
    assert xs[j - 1] < xs[j - 1 + 1];
  }
}
