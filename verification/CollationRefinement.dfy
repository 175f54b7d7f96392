/** The scan over the generated tables, for a whole string, set against the entries that the
    tables were generated from. */
module CollationRefinement {
  import opened Common
  import opened Sorting
  import opened DucetTable
  import opened DucetLookup
  import opened DucetRefinement
  import opened CollationScan

  // ----- the entries as a map -----

  function SingleEntry(single: seq<Single>, cp: nat): Option<seq<Ce>> {
    if single == [] then None
    else if single[0].cp == cp then Some(single[0].ces)
    else SingleEntry(single[1..], cp)
  }

  function ContractionEntry(contr: seq<Contraction>, key: seq<nat>): Option<seq<Ce>> {
    if contr == [] then None
    else if contr[0].cps == key then Some(contr[0].ces)
    else ContractionEntry(contr[1..], key)
  }

  /** The contractions among the entries. */
  function EntryHas(contr: seq<Contraction>): Contractions {
    (a: nat, b: nat, c: nat) => ContractionEntry(contr, Key(a, b, c)).Some?
  }

  /** The elements that the entries give to a key, with implicit weights for a code point
      that has no entry. */
  function EntryCesOfKey(single: seq<Single>, contr: seq<Contraction>, key: seq<nat>): seq<Ce> {
    if |key| == 1 then SingleEntry(single, key[0]).GetOr(Implicit(key[0]))
    else ContractionEntry(contr, key).GetOr([])
  }

  function EntryCes(single: seq<Single>, contr: seq<Contraction>): seq<nat> -> seq<Ce> {
    (key: seq<nat>) => EntryCesOfKey(single, contr, key)
  }

  lemma {:induction false} SingleEntryFound(single: seq<Single>, cp: nat)
    ensures SingleAnswer(single, cp, SingleEntry(single, cp))
  {
    if single != [] && single[0].cp != cp {
      SingleEntryFound(single[1..], cp);
      assert forall e | e in single :: e == single[0] || e in single[1..];
    }
  }

  lemma {:induction false} ContractionEntryFound(contr: seq<Contraction>, key: seq<nat>)
    ensures ContractionAnswer(contr, key, ContractionEntry(contr, key))
  {
    if contr != [] && contr[0].cps != key {
      ContractionEntryFound(contr[1..], key);
      assert forall e | e in contr :: e == contr[0] || e in contr[1..];
    }
  }

  /** An answer is unique, since keys are. */
  lemma SingleAnswersAgree(single: seq<Single>, cp: nat, r: Option<seq<Ce>>, q: Option<seq<Ce>>)
    requires GoodSingles(single) && SingleAnswer(single, cp, r) && SingleAnswer(single, cp, q)
    ensures r == q
  {
    if r.Some? && r != q {
      SingleUnique(single, Single(cp, r.value), q);
    }
  }

  lemma ContractionAnswersAgree(contr: seq<Contraction>, key: seq<nat>, r: Option<seq<Ce>>, q: Option<seq<Ce>>)
    requires GoodContractions(contr) && ContractionAnswer(contr, key, r) && ContractionAnswer(contr, key, q)
    ensures r == q
  {
    if r.Some? && r != q {
      ContractionUnique(contr, Contraction(key, r.value), q);
    }
  }

  // ----- tables that answer as the entries do -----

  /** Every lookup in `t` gives what the entries say. */
  ghost predicate Answers(t: Tables, single: seq<Single>, contr: seq<Contraction>) {
    && GoodSingles(single) && GoodContractions(contr)
    && Shaped(t) && SinglesAnswered(t, single) && ContractionsAnswered(t, contr)
  }

  lemma SingleLooksUp(t: Tables, single: seq<Single>, contr: seq<Contraction>, cp: nat)
    requires Answers(t, single, contr)
    ensures SingleCes(t, cp) == SingleEntry(single, cp)
  {
    assert SingleAnswer(single, cp, SingleCes(t, cp));
    SingleEntryFound(single, cp);
    SingleAnswersAgree(single, cp, SingleCes(t, cp), SingleEntry(single, cp));
  }

  lemma ContractionLooksUp(t: Tables, single: seq<Single>, contr: seq<Contraction>, a: nat, b: nat, c: nat)
    requires Answers(t, single, contr)
    ensures ContractionCes(t, a, b, c) == ContractionEntry(contr, Key(a, b, c))
    ensures TableHas(t)(a, b, c) == EntryHas(contr)(a, b, c)
  {
    assert ContractionAnswer(contr, Key(a, b, c), ContractionCes(t, a, b, c));
    ContractionEntryFound(contr, Key(a, b, c));
    ContractionAnswersAgree(contr, Key(a, b, c), ContractionCes(t, a, b, c), ContractionEntry(contr, Key(a, b, c)));
  }

  lemma SameAt(t: Tables, single: seq<Single>, contr: seq<Contraction>, cps: seq<nat>, p: nat)
    requires Answers(t, single, contr) && p < |cps|
    ensures ScannedAt(TableHas(t), cps, p) == ScannedAt(EntryHas(contr), cps, p)
  {
    if p + 2 <= |cps| {
      ContractionLooksUp(t, single, contr, cps[p], cps[p + 1], 0);
    }
    if p + 3 <= |cps| {
      ContractionLooksUp(t, single, contr, cps[p], cps[p + 1], cps[p + 2]);
    }
  }

  /** The key found at a position has the elements that its entry has. */
  lemma SameCesAt(t: Tables, single: seq<Single>, contr: seq<Contraction>, cps: seq<nat>, p: nat)
    requires Answers(t, single, contr) && p < |cps|
    ensures var key := cps[p..p + ScannedAt(TableHas(t), cps, p).0];
            CesOfKey(t, key) == EntryCesOfKey(single, contr, key)
  {
    var n := ScannedAt(TableHas(t), cps, p).0;
    var key := cps[p..p + n];
    if n == 1 {
      SingleLooksUp(t, single, contr, key[0]);
    } else if n == 2 {
      assert key == Key(key[0], key[1], 0);
      ContractionLooksUp(t, single, contr, key[0], key[1], 0);
    } else {
      assert key == Key(key[0], key[1], key[2]);
      ContractionLooksUp(t, single, contr, key[0], key[1], key[2]);
    }
  }

  lemma {:induction false} SameKeys(t: Tables, single: seq<Single>, contr: seq<Contraction>, cps: seq<nat>, p: nat)
    requires Answers(t, single, contr) && p <= |cps|
    ensures ScannedKeys(TableHas(t), cps, p) == ScannedKeys(EntryHas(contr), cps, p)
    decreases |cps| - p
  {
    if p < |cps| {
      SameAt(t, single, contr, cps, p);
      SameKeys(t, single, contr, cps, p + ScannedAt(TableHas(t), cps, p).1);
    }
  }

  /** Where `f` and `g` agree on every key that the scan finds, they collect the same. */
  lemma {:induction false} SameCollected(f: seq<nat> -> seq<Ce>, g: seq<nat> -> seq<Ce>, has: Contractions,
                                         cps: seq<nat>, p: nat)
    requires p <= |cps|
    requires forall q: nat {:trigger ScannedAt(has, cps, q)} ::
               q < |cps| ==> var key := cps[q..q + ScannedAt(has, cps, q).0]; f(key) == g(key)
    ensures Collected(f, ScannedKeys(has, cps, p)) == Collected(g, ScannedKeys(has, cps, p))
    decreases |cps| - p
  {
    if p < |cps| {
      NextScanned(has, cps, p);
      SameCollected(f, g, has, cps, p + ScannedAt(has, cps, p).1);
    }
  }

  lemma SameCes(t: Tables, single: seq<Single>, contr: seq<Contraction>, cps: seq<nat>)
    requires Answers(t, single, contr)
    ensures var keys := ScannedKeys(TableHas(t), cps);
            CesOfKeys(t, keys) == Collected(EntryCes(single, contr), keys)
  {
    var f, g, has := KeyCes(t), EntryCes(single, contr), TableHas(t);
    forall q: nat | q < |cps|
      ensures var key := cps[q..q + ScannedAt(has, cps, q).0]; f(key) == g(key)
    {
      SameCesAt(t, single, contr, cps, q);
    }
    SameCollected(f, g, has, cps, 0);
  }

  // ----- the theorem -----

  /** The tables generated from the entries. */
  function Generated(single: seq<Single>, contr: seq<Contraction>): Tables
    requires AtLeastTwo(Sort(contr, ContractionLe))
  {
    Compiled(Sort(single, SingleLe), Sort(contr, ContractionLe))
  }

  /** Neither offsets nor counts lose anything on the way into the tables. */
  ghost predicate Fits(single: seq<Single>, contr: seq<Contraction>) {
    var s, c := Sort(single, SingleLe), Sort(contr, ContractionLe);
    |SinglePool(s)| < UINT16 && forall i | 0 <= i < |c| :: Survives(s, c, i)
  }

  /** For any string, the scan over generated tables gives the elements that the entries give
      to the keys it finds among them; and where longest matching meets no pair, these are
      the elements of the longest matches. */
  lemma StringRefined(single: seq<Single>, contr: seq<Contraction>, cps: seq<nat>)
    requires GoodSingles(single) && GoodContractions(contr) && Fits(single, contr)
    ensures AtLeastTwo(Sort(contr, ContractionLe))
    ensures var t, has, f := Generated(single, contr), EntryHas(contr), EntryCes(single, contr);
            && Shaped(t) && Increasing(t.cp) && RowsIncreasing(t)
            && var ces := CesOfKeys(t, ScannedKeys(TableHas(t), cps));
               && ces == Collected(f, ScannedKeys(has, cps))
               && (NoPairKey(LongestKeys(has, cps)) ==> ces == Collected(f, LongestKeys(has, cps)))
  {
    SinglesRefined(single, contr);
    ContractionsRefined(single, contr);
    var t := Generated(single, contr);
    SameKeys(t, single, contr, cps, 0);
    SameCes(t, single, contr, cps);
    ScanIsLongestMatch(EntryHas(contr), cps);
  }

  /** Exactly the entries that fit give tables in which every lookup gives what they say. */
  lemma FitsExactly(single: seq<Single>, contr: seq<Contraction>)
    requires GoodSingles(single) && GoodContractions(contr)
    ensures AtLeastTwo(Sort(contr, ContractionLe))
    ensures Answers(Generated(single, contr), single, contr) <==> Fits(single, contr)
  {
    SinglesRefined(single, contr);
    ContractionsRefined(single, contr);
  }

  /** A code point that has no entry gets implicit elements from the generated tables. */
  lemma NoEntryIsImplicit(single: seq<Single>, contr: seq<Contraction>, cp: nat)
    requires GoodSingles(single) && GoodContractions(contr) && Fits(single, contr)
    requires forall e | e in single :: e.cp != cp
    ensures AtLeastTwo(Sort(contr, ContractionLe)) && Shaped(Generated(single, contr))
    ensures var t := Generated(single, contr);
            SingleCes(t, cp) == None && ImplicitForm(CesOfKeys(t, ScannedKeys(TableHas(t), [cp])))
  {
    FitsExactly(single, contr);
    var t := Generated(single, contr);
    assert SingleAnswer(single, cp, SingleCes(t, cp));
    ImplicitElements(t, cp);
  }
}
