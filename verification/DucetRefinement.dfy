/** The flat tables answer every lookup as the entries do: for single code points exactly
    when the offsets fit their 16-bit array, and for contractions exactly when their elements
    survive the 8-bit counts and 16-bit offsets. */
module DucetRefinement {
  import opened Common
  import opened Sorting
  import opened DucetTable
  import opened DucetLookup

  // ----- the stored pool -----

  lemma {:induction false} WeightsAt(ces: seq<Ce>, i: nat)
    requires i < |ces|
    ensures Weights(ces)[i * 3] == ces[i].primary && Weights(ces)[i * 3 + 1] == ces[i].secondary
    ensures Weights(ces)[i * 3 + 2] == ces[i].tertiary
    ensures VarBits(ces)[i] == if ces[i].variable then 1 else 0
  {
    var init := ces[..|ces| - 1];
    if i < |init| {
      WeightsAt(init, i);
      assert init[i] == ces[i];
    }
  }

  /** The arrays built from sorted entries, as they are stored. */
  function Compiled(single: seq<Single>, contr: seq<Contraction>): Tables
    requires AtLeastTwo(contr)
  {
    Stored(TablesOf(single, contr))
  }

  function Pool(single: seq<Single>, contr: seq<Contraction>): seq<Ce> {
    SinglePool(single) + ContractionPool(contr)
  }

  lemma CompiledShaped(single: seq<Single>, contr: seq<Contraction>)
    requires AtLeastTwo(contr)
    ensures Shaped(Compiled(single, contr))
    ensures |Compiled(single, contr).variable| == |Pool(single, contr)|
  {
    var t := Compiled(single, contr);
    forall i | 0 <= i < |t.ceOff| ensures t.ceOff[i] <= |t.variable| {
      PoolPrefix(single, i);
      CutIsLess(SingleOffset(single, i), UINT16);
    }
    forall i | 0 <= i < |t.ctOff| ensures t.ctOff[i] + t.ctNce[i] <= |t.variable| {
      ContractionSlice(single, contr, i);
      CutIsLess(ContractionOffset(single, contr, i), UINT16);
      CutIsLess(|contr[i].ces|, UINT8);
    }
  }

  lemma CutIsLess(x: nat, m: nat)
    requires m > 0
    ensures x % m <= x
  {
  }

  lemma {:induction false} PoolFits(single: seq<Single>)
    requires forall e | e in single :: forall ce | ce in e.ces :: CeFits(ce)
    ensures forall ce | ce in SinglePool(single) :: CeFits(ce)
  {
    if single != [] {
      PoolFits(single[..|single| - 1]);
    }
  }

  lemma {:induction false} ContractionPoolFits(contr: seq<Contraction>)
    requires forall e | e in contr :: forall ce | ce in e.ces :: CeFits(ce)
    ensures forall ce | ce in ContractionPool(contr) :: CeFits(ce)
  {
    if contr != [] {
      ContractionPoolFits(contr[..|contr| - 1]);
    }
  }

  /** The arrays hold the elements of `pool`, in order. */
  predicate Holds(t: Tables, pool: seq<Ce>) {
    && |t.w| == 3 * |t.variable| && |t.variable| == |pool|
    && forall i {:trigger CeAt(t, i)} :: 0 <= i < |pool| ==> CeAt(t, i) == pool[i]
  }

  /** Reading a slice gives the elements of the pool one by one. */
  lemma {:induction false} ReadPoolAt(t: Tables, lo: nat, hi: nat, k: nat)
    requires |t.w| == 3 * |t.variable| && lo + k < hi <= |t.variable|
    ensures |ReadPool(t, lo, hi)| == hi - lo && ReadPool(t, lo, hi)[k] == CeAt(t, lo + k)
    decreases hi
  {
    if lo + k < hi - 1 {
      ReadPoolAt(t, lo, hi - 1, k);
    } else if lo < hi - 1 {
      ReadPoolAt(t, lo, hi - 1, 0);
    }
  }

  lemma ReadHeld(t: Tables, pool: seq<Ce>, lo: nat, hi: nat)
    requires Holds(t, pool) && hi <= |pool|
    ensures ReadPool(t, lo, hi) == if lo <= hi then pool[lo..hi] else []
  {
    if lo < hi {
      ReadPoolAt(t, lo, hi, 0);
      forall k | 0 <= k < hi - lo ensures ReadPool(t, lo, hi)[k] == pool[lo..hi][k] {
        ReadPoolAt(t, lo, hi, k);
      }
    }
  }

  lemma CutBound(n: nat)
    ensures n < UINT16 ==> n % UINT16 == n
    ensures n >= UINT16 ==> n % UINT16 <= n - UINT16
  {
  }

  /** The pool holds `ces` from position `lo` on. */
  predicate SliceIs(pool: seq<Ce>, lo: nat, ces: seq<Ce>) {
    lo + |ces| <= |pool| && pool[lo..lo + |ces|] == ces
  }

  /** A slice between two offsets shows `ces` exactly when the pool has them there. */
  lemma BetweenOffsets(t: Tables, pool: seq<Ce>, lo: nat, hi: nat, ces: seq<Ce>)
    requires Holds(t, pool) && hi <= |t.variable| && ces != []
    ensures ReadPool(t, lo, hi) == ces <==> SliceIs(pool, lo, ces) && hi == lo + |ces|
  {
    ReadHeld(t, pool, lo, hi);
  }

  lemma CountCut(n: nat)
    ensures n % UINT8 == n <==> n < UINT8
  {
  }

  /** The same when the length is cut to 8 bits. */
  lemma CountedSlice(t: Tables, pool: seq<Ce>, lo: nat, n: nat, ces: seq<Ce>)
    requires Holds(t, pool) && n == |ces| % UINT8 && lo + n <= |t.variable| && ces != []
    ensures ReadPool(t, lo, lo + n) == ces <==> |ces| < UINT8 && SliceIs(pool, lo, ces)
  {
    CountCut(|ces|);
    BetweenOffsets(t, pool, lo, lo + n, ces);
  }

  lemma CompiledHolds(single: seq<Single>, contr: seq<Contraction>)
    requires GoodSingles(single) && GoodContractions(contr)
    ensures AtLeastTwo(contr) && Holds(Compiled(single, contr), Pool(single, contr))
  {
    GoodPoolFits(single, contr);
    var t, pool := Compiled(single, contr), Pool(single, contr);
    forall i | 0 <= i < |pool| ensures CeAt(t, i) == pool[i] {
      WeightsAt(pool, i);
      assert CeFits(pool[i]);
    }
  }

  lemma GoodPoolFits(single: seq<Single>, contr: seq<Contraction>)
    requires GoodSingles(single) && GoodContractions(contr)
    ensures AtLeastTwo(contr)
    ensures forall ce | ce in Pool(single, contr) :: CeFits(ce)
  {
    PoolFits(single);
    ContractionPoolFits(contr);
  }

  // ----- single code points -----

  predicate Ascending(single: seq<Single>) {
    forall i, j :: 0 <= i < j < |single| ==> single[i].cp < single[j].cp
  }

  lemma SingleFound(single: seq<Single>, contr: seq<Contraction>, i: nat)
    requires GoodSingles(single) && AtLeastTwo(contr) && Ascending(single) && i < |single|
    ensures Find(Compiled(single, contr).cp, single[i].cp) == Some(i)
  {
    var cps := Compiled(single, contr).cp;
    forall k | 0 <= k < |cps| ensures cps[k] == single[k].cp {
      assert single[k] in single;
    }
  }

  /** The elements of the `i`-th entry survive: the pool holds them between the two offsets
      that are left of theirs. */
  predicate SingleSurvives(single: seq<Single>, contr: seq<Contraction>, i: nat)
    requires i < |single|
  {
    var lo, hi := SingleOffset(single, i) % UINT16, SingleOffset(single, i + 1) % UINT16;
    SliceIs(Pool(single, contr), lo, single[i].ces) && hi == lo + |single[i].ces|
  }

  /** The answer for the `i`-th entry, wherever it lies in the pool. */
  lemma SingleAnswerAt(single: seq<Single>, contr: seq<Contraction>, i: nat)
    requires GoodSingles(single) && GoodContractions(contr) && Ascending(single) && i < |single|
    ensures AtLeastTwo(contr) && Shaped(Compiled(single, contr))
    ensures SingleCes(Compiled(single, contr), single[i].cp) == Some(single[i].ces)
       <==> SingleSurvives(single, contr, i)
  {
    var lo, hi := SingleOffset(single, i) % UINT16, SingleOffset(single, i + 1) % UINT16;
    GoodPoolFits(single, contr);
    CompiledShaped(single, contr);
    SingleFound(single, contr, i);
    SingleCesAt(single, contr, i);
    CompiledHolds(single, contr);
    assert single[i] in single;
    BetweenOffsets(Compiled(single, contr), Pool(single, contr), lo, hi, single[i].ces);
  }

  /** An entry that starts below 65536 survives exactly when it also ends there. */
  lemma SingleSurvivesInRange(single: seq<Single>, contr: seq<Contraction>, i: nat)
    requires i < |single| && SingleOffset(single, i) < UINT16 && single[i].ces != []
    ensures SingleSurvives(single, contr, i) <==> SingleOffset(single, i + 1) < UINT16
  {
    SingleSlice(single, contr, i);
    CutBound(SingleOffset(single, i + 1));
  }

  lemma SingleCesAt(single: seq<Single>, contr: seq<Contraction>, i: nat)
    requires AtLeastTwo(contr) && Shaped(Compiled(single, contr)) && i < |single|
    requires Find(Compiled(single, contr).cp, single[i].cp) == Some(i)
    ensures var lo, hi := SingleOffset(single, i) % UINT16, SingleOffset(single, i + 1) % UINT16;
            var t := Compiled(single, contr);
            hi <= |t.variable| && SingleCes(t, single[i].cp) == Some(ReadPool(t, lo, hi))
  {
  }

  lemma SingleAbsent(single: seq<Single>, contr: seq<Contraction>, cp: nat)
    requires GoodSingles(single) && AtLeastTwo(contr) && Shaped(Compiled(single, contr))
    requires forall e | e in single :: e.cp != cp
    ensures SingleCes(Compiled(single, contr), cp) == None
  {
    var t := Compiled(single, contr);
    forall k | 0 <= k < |t.cp| ensures t.cp[k] != cp {
      assert single[k] in single;
    }
  }

  /** Some entry straddles the 16-bit limit when the pool of the singles outgrows it. */
  lemma {:induction false} Straddles(single: seq<Single>, n: nat) returns (i: nat)
    requires n <= |single| && SingleOffset(single, n) >= UINT16
    ensures i < n && SingleOffset(single, i) < UINT16 <= SingleOffset(single, i + 1)
  {
    assert single[..0] == [];
    if SingleOffset(single, n - 1) >= UINT16 {
      i := Straddles(single, n - 1);
    } else {
      i := n - 1;
    }
  }

  lemma AllOffsetsFit(single: seq<Single>, i: nat)
    requires i <= |single| && |SinglePool(single)| < UINT16
    ensures SingleOffset(single, i) < UINT16
  {
    PoolPrefix(single, i);
  }

  lemma SingleAnswered(single: seq<Single>, contr: seq<Contraction>, cp: nat)
    requires GoodSingles(single) && GoodContractions(contr) && Ascending(single)
    requires |SinglePool(single)| < UINT16
    ensures AtLeastTwo(contr) && Shaped(Compiled(single, contr))
    ensures SingleAnswer(single, cp, SingleCes(Compiled(single, contr), cp))
  {
    GoodPoolFits(single, contr);
    CompiledShaped(single, contr);
    if exists e :: e in single && e.cp == cp {
      var e :| e in single && e.cp == cp;
      var i :| 0 <= i < |single| && single[i] == e;
      AllOffsetsFit(single, i);
      AllOffsetsFit(single, i + 1);
      SingleSurvivesInRange(single, contr, i);
      SingleAnswerAt(single, contr, i);
    } else {
      SingleAbsent(single, contr, cp);
    }
  }

  /** With distinct code points, an entry admits no other elements. */
  lemma SingleUnique(single: seq<Single>, e: Single, r: Option<seq<Ce>>)
    requires GoodSingles(single) && e in single && r != Some(e.ces)
    ensures !SingleAnswer(single, e.cp, r)
  {
  }

  lemma SingleUnanswered(single: seq<Single>, contr: seq<Contraction>) returns (cp: nat)
    requires GoodSingles(single) && GoodContractions(contr) && Ascending(single)
    requires |SinglePool(single)| >= UINT16
    ensures AtLeastTwo(contr) && Shaped(Compiled(single, contr))
    ensures !SingleAnswer(single, cp, SingleCes(Compiled(single, contr), cp))
  {
    GoodPoolFits(single, contr);
    CompiledShaped(single, contr);
    assert single[..|single|] == single;
    var i := Straddles(single, |single|);
    cp := single[i].cp;
    assert single[i] in single;
    SingleSurvivesInRange(single, contr, i);
    SingleAnswerAt(single, contr, i);
    SingleUnique(single, single[i], SingleCes(Compiled(single, contr), cp));
  }

  lemma SameAnswers(a: seq<Single>, b: seq<Single>, cp: nat, r: Option<seq<Ce>>)
    requires forall e :: e in a <==> e in b
    ensures SingleAnswer(a, cp, r) <==> SingleAnswer(b, cp, r)
  {
  }

  lemma CompiledIncreasing(single: seq<Single>, contr: seq<Contraction>)
    requires GoodSingles(single) && AtLeastTwo(contr) && Ascending(single)
    ensures Increasing(Compiled(single, contr).cp)
  {
  }

  /** Every lookup of a code point in the tables gives what the entries say. */
  ghost predicate SinglesAnswered(t: Tables, single: seq<Single>)
    requires Shaped(t)
  {
    forall cp: nat :: SingleAnswer(single, cp, SingleCes(t, cp))
  }

  /** Looking up every code point in the generated tables gives what the entries say,
      exactly when the number of collation elements of the single entries fits 16 bits. */
  lemma SinglesRefined(unsortedSingle: seq<Single>, unsortedContr: seq<Contraction>)
    requires GoodSingles(unsortedSingle) && GoodContractions(unsortedContr)
    ensures var single, contr := Sort(unsortedSingle, SingleLe), Sort(unsortedContr, ContractionLe);
            && AtLeastTwo(contr) && Shaped(Compiled(single, contr)) && Increasing(Compiled(single, contr).cp)
            && (SinglesAnswered(Compiled(single, contr), unsortedSingle) <==> |SinglePool(single)| < UINT16)
  {
    var single, contr := Sort(unsortedSingle, SingleLe), Sort(unsortedContr, ContractionLe);
    SortedSingles(unsortedSingle);
    SortedContractions(unsortedContr);
    GoodPoolFits(single, contr);
    CompiledShaped(single, contr);
    CompiledIncreasing(single, contr);
    var t := Compiled(single, contr);
    if |SinglePool(single)| < UINT16 {
      forall cp: nat ensures SingleAnswer(unsortedSingle, cp, SingleCes(t, cp)) {
        SingleAnswered(single, contr, cp);
        SameAnswers(single, unsortedSingle, cp, SingleCes(t, cp));
      }
    } else {
      var cp := SingleUnanswered(single, contr);
      SameAnswers(single, unsortedSingle, cp, SingleCes(t, cp));
    }
  }

  // ----- contractions -----

  /** The first three code points of a key, zero standing for none. */
  lemma KeyOfRow(cps: seq<nat>, a: nat, b: nat, c: nat)
    requires 2 <= |cps| <= 3 && forall cp | cp in cps :: cp > 0
    ensures Key(a, b, c) == cps <==> (a, b, c) == (cps[0], cps[1], Third(cps))
  {
    if |cps| == 2 {
      assert cps == [cps[0], cps[1]];
    } else {
      assert cps[2] in cps;
      assert cps == [cps[0], cps[1], cps[2]];
    }
  }

  lemma RowsFollowTuples(x: seq<nat>, y: seq<nat>)
    requires 2 <= |x| <= 3 && 2 <= |y| <= 3 && (forall cp | cp in y :: cp > 0)
    requires TupleLe(x, y) && x != y
    ensures RowLess(x[0], x[1], Third(x), y[0], y[1], Third(y))
  {
    if x[0] == y[0] && x[1] == y[1] {
      assert TupleLe(x[1..], y[1..]) && TupleLe(x[1..][1..], y[1..][1..]);
      assert x[1..][1..] == x[2..] && y[1..][1..] == y[2..];
      if |y| == 3 {
        assert y[2] in y;
      }
      if |x| == |y| {
        assert x == x[..2] + x[2..] && y == y[..2] + y[2..];
      }
    }
  }

  ghost predicate Arranged(contr: seq<Contraction>) {
    && GoodContractions(contr)
    && forall i, j :: 0 <= i < j < |contr| ==> TupleLe(contr[i].cps, contr[j].cps) && contr[i].cps != contr[j].cps
  }

  lemma CompiledRows(single: seq<Single>, contr: seq<Contraction>)
    requires GoodSingles(single) && Arranged(contr)
    ensures AtLeastTwo(contr) && Shaped(Compiled(single, contr))
    ensures var t := Compiled(single, contr);
            && (forall i :: 0 <= i < |contr| ==>
                  (t.ctA[i], t.ctB[i], t.ctC[i]) == (contr[i].cps[0], contr[i].cps[1], Third(contr[i].cps)))
            && |t.ctA| == |contr| && RowsIncreasing(t)
  {
    CompiledShaped(single, contr);
    var t := Compiled(single, contr);
    forall i | 0 <= i < |contr|
      ensures (t.ctA[i], t.ctB[i], t.ctC[i]) == (contr[i].cps[0], contr[i].cps[1], Third(contr[i].cps))
    {
      assert contr[i] in contr && contr[i].cps[0] in contr[i].cps && contr[i].cps[1] in contr[i].cps;
      assert |contr[i].cps| > 2 ==> contr[i].cps[2] in contr[i].cps;
    }
    forall i, j | 0 <= i < j < |contr|
      ensures RowLess(t.ctA[i], t.ctB[i], t.ctC[i], t.ctA[j], t.ctB[j], t.ctC[j])
    {
      assert contr[i] in contr && contr[j] in contr;
      RowsFollowTuples(contr[i].cps, contr[j].cps);
    }
  }

  lemma ContractionFound(t: Tables, i: nat)
    requires Shaped(t) && RowsIncreasing(t) && i < |t.ctA|
    ensures ContractionCes(t, t.ctA[i], t.ctB[i], t.ctC[i])
         == Some(ReadPool(t, t.ctOff[i], t.ctOff[i] + t.ctNce[i]))
  {
  }

  lemma CompiledSpan(single: seq<Single>, contr: seq<Contraction>, i: nat)
    requires AtLeastTwo(contr) && i < |contr|
    ensures var t := Compiled(single, contr);
            && i < |t.ctOff| && t.ctOff[i] == ContractionOffset(single, contr, i) % UINT16
            && i < |t.ctNce| && t.ctNce[i] == |contr[i].ces| % UINT8
  {
  }

  /** What the tables say about the key of the `i`-th contraction: the `n` elements from
      position `lo` on, its length and its offset as they are stored. */
  lemma ContractionShown(single: seq<Single>, contr: seq<Contraction>, i: nat, lo: nat, n: nat)
    requires GoodSingles(single) && Arranged(contr) && i < |contr|
    requires lo == ContractionOffset(single, contr, i) % UINT16 && n == |contr[i].ces| % UINT8
    ensures AtLeastTwo(contr) && Shaped(Compiled(single, contr))
    ensures var t, cps := Compiled(single, contr), contr[i].cps;
            && lo + n <= |t.variable|
            && ContractionCes(t, cps[0], cps[1], Third(cps)) == Some(ReadPool(t, lo, lo + n))
  {
    CompiledRows(single, contr);
    CompiledSpan(single, contr, i);
    ContractionFound(Compiled(single, contr), i);
  }

  /** The elements of the `i`-th contraction survive: they are few enough to be counted, and
      the pool holds them at the offset that is left of theirs. */
  predicate Survives(single: seq<Single>, contr: seq<Contraction>, i: nat)
    requires i < |contr|
  {
    |contr[i].ces| < UINT8 && SliceIs(Pool(single, contr), ContractionOffset(single, contr, i) % UINT16, contr[i].ces)
  }

  lemma SurvivesInRange(single: seq<Single>, contr: seq<Contraction>, i: nat)
    requires i < |contr| && ContractionOffset(single, contr, i) < UINT16
    ensures Survives(single, contr, i) <==> |contr[i].ces| < UINT8
  {
    ContractionSlice(single, contr, i);
  }

  /** The answer for the `i`-th contraction, wherever it lies in the pool. */
  lemma ContractionAnswerAt(single: seq<Single>, contr: seq<Contraction>, i: nat)
    requires GoodSingles(single) && Arranged(contr) && i < |contr|
    ensures AtLeastTwo(contr) && Shaped(Compiled(single, contr))
    ensures var cps := contr[i].cps;
            ContractionCes(Compiled(single, contr), cps[0], cps[1], Third(cps)) == Some(contr[i].ces)
            <==> Survives(single, contr, i)
  {
    var lo, n := ContractionOffset(single, contr, i) % UINT16, |contr[i].ces| % UINT8;
    CompiledHolds(single, contr);
    ContractionShown(single, contr, i, lo, n);
    assert contr[i] in contr;
    CountedSlice(Compiled(single, contr), Pool(single, contr), lo, n, contr[i].ces);
  }

  /** A contraction 65536 elements behind another of the same small length is answered with
      the elements of that other one. */
  lemma WrappedAnswer(single: seq<Single>, contr: seq<Contraction>, i: nat, j: nat)
    requires GoodSingles(single) && Arranged(contr) && i < |contr| && j < |contr|
    requires ContractionOffset(single, contr, i) < UINT16
    requires ContractionOffset(single, contr, j) == ContractionOffset(single, contr, i) + UINT16
    requires |contr[j].ces| == |contr[i].ces| < UINT8
    ensures AtLeastTwo(contr) && Shaped(Compiled(single, contr))
    ensures var cps := contr[j].cps;
            ContractionCes(Compiled(single, contr), cps[0], cps[1], Third(cps)) == Some(contr[i].ces)
  {
    var lo, n := ContractionOffset(single, contr, i), |contr[i].ces|;
    WrapsTo(ContractionOffset(single, contr, j), lo);
    CountCut(n);
    SliceHeld(single, contr, i);
    ShownAs(single, contr, j, lo, n, contr[i].ces);
  }

  lemma WrapsTo(offset: nat, lo: nat)
    requires lo < UINT16 && offset == lo + UINT16
    ensures offset % UINT16 == lo
  {
  }

  lemma ShownAs(single: seq<Single>, contr: seq<Contraction>, j: nat, lo: nat, n: nat, ces: seq<Ce>)
    requires GoodSingles(single) && Arranged(contr) && j < |contr|
    requires lo == ContractionOffset(single, contr, j) % UINT16 && n == |contr[j].ces| % UINT8
    requires AtLeastTwo(contr) && Shaped(Compiled(single, contr)) && lo + n <= |Compiled(single, contr).variable|
    requires ReadPool(Compiled(single, contr), lo, lo + n) == ces
    ensures var cps := contr[j].cps;
            ContractionCes(Compiled(single, contr), cps[0], cps[1], Third(cps)) == Some(ces)
  {
    ContractionShown(single, contr, j, lo, n);
  }

  lemma SliceHeld(single: seq<Single>, contr: seq<Contraction>, i: nat)
    requires GoodSingles(single) && Arranged(contr) && i < |contr|
    ensures AtLeastTwo(contr) && Shaped(Compiled(single, contr))
    ensures var lo, t := ContractionOffset(single, contr, i), Compiled(single, contr);
            var hi := lo + |contr[i].ces|;
            hi <= |t.variable| && ReadPool(t, lo, hi) == contr[i].ces
  {
    CompiledShaped(single, contr);
    CompiledHolds(single, contr);
    ContractionSlice(single, contr, i);
    HeldSlice(Compiled(single, contr), Pool(single, contr), ContractionOffset(single, contr, i), contr[i].ces);
  }

  lemma HeldSlice(t: Tables, pool: seq<Ce>, lo: nat, ces: seq<Ce>)
    requires Holds(t, pool) && SliceIs(pool, lo, ces)
    ensures ReadPool(t, lo, lo + |ces|) == ces
  {
    ReadHeld(t, pool, lo, lo + |ces|);
  }

  lemma ContractionAbsent(single: seq<Single>, contr: seq<Contraction>, a: nat, b: nat, c: nat)
    requires GoodSingles(single) && Arranged(contr)
    requires forall e | e in contr :: e.cps != Key(a, b, c)
    ensures AtLeastTwo(contr) && Shaped(Compiled(single, contr))
    ensures ContractionCes(Compiled(single, contr), a, b, c) == None
  {
    CompiledRows(single, contr);
    var t := Compiled(single, contr);
    forall k | 0 <= k < |t.ctA| ensures (t.ctA[k], t.ctB[k], t.ctC[k]) != (a, b, c) {
      assert contr[k] in contr;
      KeyOfRow(contr[k].cps, a, b, c);
    }
  }

  lemma ContractionAnswered(single: seq<Single>, contr: seq<Contraction>, a: nat, b: nat, c: nat)
    requires GoodSingles(single) && Arranged(contr)
    requires forall i | 0 <= i < |contr| :: Survives(single, contr, i)
    ensures AtLeastTwo(contr) && Shaped(Compiled(single, contr))
    ensures ContractionAnswer(contr, Key(a, b, c), ContractionCes(Compiled(single, contr), a, b, c))
  {
    GoodPoolFits(single, contr);
    if exists e :: e in contr && e.cps == Key(a, b, c) {
      var e :| e in contr && e.cps == Key(a, b, c);
      var i :| 0 <= i < |contr| && contr[i] == e;
      KeyOfRow(e.cps, a, b, c);
      ContractionAnswerAt(single, contr, i);
    } else {
      ContractionAbsent(single, contr, a, b, c);
    }
  }

  lemma ContractionUnanswered(single: seq<Single>, contr: seq<Contraction>, i: nat)
    requires GoodSingles(single) && Arranged(contr) && i < |contr| && !Survives(single, contr, i)
    ensures AtLeastTwo(contr) && Shaped(Compiled(single, contr))
    ensures !ContractionsAnswered(Compiled(single, contr), contr)
  {
    var e, t := contr[i], Compiled(single, contr);
    ContractionAnswerAt(single, contr, i);
    var a, b, c := e.cps[0], e.cps[1], Third(e.cps);
    KeyOfRow(e.cps, a, b, c);
    ContractionUnique(contr, e, ContractionCes(t, a, b, c));
    assert !ContractionAnswer(contr, Key(a, b, c), ContractionCes(t, a, b, c));
  }

  lemma ContractionUnique(contr: seq<Contraction>, e: Contraction, r: Option<seq<Ce>>)
    requires GoodContractions(contr) && e in contr && r != Some(e.ces)
    ensures !ContractionAnswer(contr, e.cps, r)
  {
  }

  /** Every lookup of a pair or a triple gives what the entries say. */
  ghost predicate ContractionsAnswered(t: Tables, contr: seq<Contraction>)
    requires Shaped(t)
  {
    forall a: nat, b: nat, c: nat :: ContractionAnswer(contr, Key(a, b, c), ContractionCes(t, a, b, c))
  }

  lemma SameContractionAnswers(t: Tables, a: seq<Contraction>, b: seq<Contraction>)
    requires Shaped(t) && forall e :: e in a <==> e in b
    ensures ContractionsAnswered(t, a) <==> ContractionsAnswered(t, b)
  {
    forall x: nat, y: nat, z: nat
      ensures ContractionAnswer(a, Key(x, y, z), ContractionCes(t, x, y, z))
         <==> ContractionAnswer(b, Key(x, y, z), ContractionCes(t, x, y, z))
    {
    }
  }

  /** Looking up every sequence of two or three code points gives what the entries say,
      exactly when the elements of every contraction survive the 8-bit counts and the 16-bit
      offsets, however large the pool is. */
  lemma ContractionsRefined(unsortedSingle: seq<Single>, unsortedContr: seq<Contraction>)
    requires GoodSingles(unsortedSingle) && GoodContractions(unsortedContr)
    ensures var single, contr := Sort(unsortedSingle, SingleLe), Sort(unsortedContr, ContractionLe);
            && AtLeastTwo(contr) && Shaped(Compiled(single, contr)) && RowsIncreasing(Compiled(single, contr))
            && (ContractionsAnswered(Compiled(single, contr), unsortedContr)
                <==> forall i | 0 <= i < |contr| :: Survives(single, contr, i))
  {
    var single, contr := Sort(unsortedSingle, SingleLe), Sort(unsortedContr, ContractionLe);
    SortedSingles(unsortedSingle);
    SortedContractions(unsortedContr);
    CompiledRows(single, contr);
    var t := Compiled(single, contr);
    SameContractionAnswers(t, unsortedContr, contr);
    if forall i | 0 <= i < |contr| :: Survives(single, contr, i) {
      forall a: nat, b: nat, c: nat
        ensures ContractionAnswer(contr, Key(a, b, c), ContractionCes(t, a, b, c))
      {
        ContractionAnswered(single, contr, a, b, c);
      }
    } else {
      var i :| 0 <= i < |contr| && !Survives(single, contr, i);
      ContractionUnanswered(single, contr, i);
    }
  }

  lemma {:induction false} OffsetsGrow(single: seq<Single>, contr: seq<Contraction>, i: nat, j: nat)
    requires i <= j <= |contr|
    ensures ContractionOffset(single, contr, i) <= ContractionOffset(single, contr, j)
  {
    if i < j {
      OffsetsGrow(single, contr, i, j - 1);
      ContractionSlice(single, contr, j - 1);
    }
  }

  /** As long as the last contraction starts below 65536, all that matters is that no
      contraction has 256 elements or more. */
  lemma ContractionsRefinedInRange(unsortedSingle: seq<Single>, unsortedContr: seq<Contraction>)
    requires GoodSingles(unsortedSingle) && GoodContractions(unsortedContr)
    requires var single, contr := Sort(unsortedSingle, SingleLe), Sort(unsortedContr, ContractionLe);
             contr != [] ==> ContractionOffset(single, contr, |contr| - 1) < UINT16
    ensures var single, contr := Sort(unsortedSingle, SingleLe), Sort(unsortedContr, ContractionLe);
            && AtLeastTwo(contr) && Shaped(Compiled(single, contr))
            && (ContractionsAnswered(Compiled(single, contr), unsortedContr)
                <==> forall e | e in unsortedContr :: |e.ces| < UINT8)
  {
    var single, contr := Sort(unsortedSingle, SingleLe), Sort(unsortedContr, ContractionLe);
    ContractionsRefined(unsortedSingle, unsortedContr);
    SortedContractions(unsortedContr);
    forall i | 0 <= i < |contr| ensures Survives(single, contr, i) <==> |contr[i].ces| < UINT8 {
      OffsetsGrow(single, contr, i, |contr| - 1);
      SurvivesInRange(single, contr, i);
    }
    forall e ensures e in unsortedContr <==> e in contr {
    }
  }

  /** Every offset fits its 16-bit array when the whole pool has at most 65535 elements. */
  lemma OffsetsFit(single: seq<Single>, contr: seq<Contraction>)
    requires AtLeastTwo(contr) && |Pool(single, contr)| < UINT16
    ensures var t := TablesOf(single, contr);
            Stored(t).ceOff == t.ceOff && Stored(t).ctOff == t.ctOff
  {
    var t := TablesOf(single, contr);
    forall i | 0 <= i < |t.ceOff| ensures t.ceOff[i] < UINT16 {
      AllOffsetsFit(single, i);
    }
    forall i | 0 <= i < |t.ctOff| ensures t.ctOff[i] < UINT16 {
      ContractionSlice(single, contr, i);
    }
  }

  // ----- tables that overflow -----

  lemma {:induction false} PoolGrows(single: seq<Single>)
    requires forall e | e in single :: e.ces != []
    ensures |SinglePool(single)| >= |single|
  {
    if single != [] {
      var init := single[..|single| - 1];
      assert single[|single| - 1] in single && forall e | e in init :: e in single;
      PoolGrows(init);
    }
  }

  /** With 65536 entries or more for single code points, some lookup is wrong, whatever the
      entries are. */
  lemma TooManySingles(unsortedSingle: seq<Single>, unsortedContr: seq<Contraction>)
    requires GoodSingles(unsortedSingle) && GoodContractions(unsortedContr) && |unsortedSingle| >= UINT16
    ensures var single, contr := Sort(unsortedSingle, SingleLe), Sort(unsortedContr, ContractionLe);
            && AtLeastTwo(contr) && Shaped(Compiled(single, contr))
            && !SinglesAnswered(Compiled(single, contr), unsortedSingle)
  {
    SinglesRefined(unsortedSingle, unsortedContr);
    SingleOrder();
    SortCorrect(unsortedSingle, SingleLe);
    SortedSingles(unsortedSingle);
    PoolGrows(Sort(unsortedSingle, SingleLe));
  }

  const SOME_CE := Ce(1, 1, 1, false)

  /** One element for each of the first 65536 code points. */
  function FullPlane(): seq<Single> {
    seq(UINT16, (i: nat) => Single(i, [SOME_CE]))
  }

  lemma FullPlaneOverflows()
    ensures GoodSingles(FullPlane())
    ensures var single := Sort(FullPlane(), SingleLe);
            Shaped(Compiled(single, [])) && !SinglesAnswered(Compiled(single, []), FullPlane())
  {
    assert Sort([], ContractionLe) == [];
    TooManySingles(FullPlane(), []);
  }

  /** One pair with 256 elements, which is one more than its count can hold. */
  function LongPair(): Contraction {
    Contraction([1, 2], seq(UINT8, (i: nat) => SOME_CE))
  }

  lemma LongPairOverflows()
    ensures GoodContractions([LongPair()]) && AtLeastTwo([LongPair()]) && Shaped(Compiled([], [LongPair()]))
    ensures !ContractionsAnswered(Compiled([], [LongPair()]), [LongPair()])
  {
    assert LongPair() in [LongPair()];
    assert GoodSingles([]) && Arranged([LongPair()]);
    ContractionUnanswered([], [LongPair()], 0);
  }
}
