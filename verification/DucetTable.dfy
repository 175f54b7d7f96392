/** The table generator: it sorts the entries of the default Unicode collation element
    table and flattens them into parallel arrays over one shared pool of weights. */
module DucetTable {
  import opened Common
  import opened Sorting

  /** A collation element: three weights and whether it is variable. */
  datatype Ce = Ce(primary: nat, secondary: nat, tertiary: nat, variable: bool)

  /** The entry of one code point, and of several. */
  datatype Single = Single(cp: nat, ces: seq<Ce>)
  datatype Contraction = Contraction(cps: seq<nat>, ces: seq<Ce>)

  datatype Tables = Tables(cp: seq<nat>, ceOff: seq<nat>,
                           ctA: seq<nat>, ctB: seq<nat>, ctC: seq<nat>,
                           ctOff: seq<nat>, ctNce: seq<nat>,
                           w: seq<nat>, variable: seq<nat>)

  predicate SingleLe(a: Single, b: Single) {
    a.cp <= b.cp
  }

  /** Tuples compare element by element; a proper prefix comes first. */
  predicate TupleLe(a: seq<nat>, b: seq<nat>) {
    a == [] || (b != [] && (a[0] < b[0] || (a[0] == b[0] && TupleLe(a[1..], b[1..]))))
  }

  predicate ContractionLe(a: Contraction, b: Contraction) {
    TupleLe(a.cps, b.cps)
  }

  // ----- what the arrays hold -----

  function Weights(ces: seq<Ce>): (w: seq<nat>)
    ensures |w| == 3 * |ces|
  {
    if ces == [] then []
    else
      var last := ces[|ces| - 1];
      Weights(ces[..|ces| - 1]) + [last.primary, last.secondary, last.tertiary]
  }

  function VarBits(ces: seq<Ce>): (v: seq<nat>)
    ensures |v| == |ces|
  {
    if ces == [] then []
    else VarBits(ces[..|ces| - 1]) + [if ces[|ces| - 1].variable then 1 else 0]
  }

  function SinglePool(single: seq<Single>): seq<Ce> {
    if single == [] then [] else SinglePool(single[..|single| - 1]) + single[|single| - 1].ces
  }

  function ContractionPool(contr: seq<Contraction>): seq<Ce> {
    if contr == [] then [] else ContractionPool(contr[..|contr| - 1]) + contr[|contr| - 1].ces
  }

  function SingleOffset(single: seq<Single>, i: nat): nat
    requires i <= |single|
  {
    |SinglePool(single[..i])|
  }

  function ContractionOffset(single: seq<Single>, contr: seq<Contraction>, i: nat): nat
    requires i <= |contr|
  {
    |SinglePool(single)| + |ContractionPool(contr[..i])|
  }

  predicate AtLeastTwo(contr: seq<Contraction>) {
    forall c | c in contr :: |c.cps| >= 2
  }

  function Third(cps: seq<nat>): nat {
    if |cps| > 2 then cps[2] else 0
  }

  function TablesOf(single: seq<Single>, contr: seq<Contraction>): Tables
    requires AtLeastTwo(contr)
  {
    var pool := SinglePool(single) + ContractionPool(contr);
    Tables(seq(|single|, i requires 0 <= i < |single| => single[i].cp),
           SingleOffsets(single, |single| + 1),
           seq(|contr|, i requires 0 <= i < |contr| => contr[i].cps[0]),
           seq(|contr|, i requires 0 <= i < |contr| => contr[i].cps[1]),
           seq(|contr|, i requires 0 <= i < |contr| => Third(contr[i].cps)),
           seq(|contr|, i requires 0 <= i < |contr| => ContractionOffset(single, contr, i)),
           seq(|contr|, i requires 0 <= i < |contr| => |contr[i].ces|),
           Weights(pool), VarBits(pool))
  }

  // ----- the generator -----

  lemma PoolSnoc(single: seq<Single>, k: nat)
    requires k < |single|
    ensures SinglePool(single[..k + 1]) == SinglePool(single[..k]) + single[k].ces
  {
    assert single[..k + 1][..k] == single[..k];
  }

  lemma ContractionPoolSnoc(contr: seq<Contraction>, k: nat)
    requires k < |contr|
    ensures ContractionPool(contr[..k + 1]) == ContractionPool(contr[..k]) + contr[k].ces
  {
    assert contr[..k + 1][..k] == contr[..k];
  }

  lemma CesSnoc(pool: seq<Ce>, ces: seq<Ce>, k: nat)
    requires k < |ces|
    ensures Weights(pool + ces[..k + 1])
         == Weights(pool + ces[..k]) + [ces[k].primary, ces[k].secondary, ces[k].tertiary]
    ensures VarBits(pool + ces[..k + 1]) == VarBits(pool + ces[..k]) + [if ces[k].variable then 1 else 0]
  {
    var more := pool + ces[..k + 1];
    assert more[..|more| - 1] == pool + ces[..k];
    assert more[|more| - 1] == ces[k];
  }

  /** The inner loop of the generator: one entry's elements go to the end of the pool. */
  method AppendCes(ces: seq<Ce>, ghost pool: seq<Ce>, w: seq<nat>, v: seq<nat>) returns (w': seq<nat>, v': seq<nat>)
    requires w == Weights(pool) && v == VarBits(pool)
    ensures w' == Weights(pool + ces) && v' == VarBits(pool + ces)
  {
    w', v' := w, v;
    var i := 0;
    assert pool + ces[..0] == pool;
    while i < |ces|
      invariant i <= |ces|
      invariant w' == Weights(pool + ces[..i]) && v' == VarBits(pool + ces[..i])
    {
      CesSnoc(pool, ces, i);
      w' := w' + [ces[i].primary, ces[i].secondary, ces[i].tertiary];
      v' := v' + [if ces[i].variable then 1 else 0];
      i := i + 1;
    }
    assert ces[..i] == ces;
  }

  function SingleOffsets(single: seq<Single>, n: nat): seq<nat>
    requires n <= |single| + 1
  {
    seq(n, i requires 0 <= i < n => SingleOffset(single, i))
  }

  lemma OffsetsSnoc(single: seq<Single>, n: nat)
    requires n <= |single|
    ensures SingleOffsets(single, n + 1) == SingleOffsets(single, n) + [SingleOffset(single, n)]
  {
  }

  method AppendSingles(single: seq<Single>) returns (offs: seq<nat>, weights: seq<nat>, varbits: seq<nat>)
    ensures offs == SingleOffsets(single, |single|)
    ensures weights == Weights(SinglePool(single)) && varbits == VarBits(SinglePool(single))
  {
    offs, weights, varbits := [], [], [];
    var i := 0;
    while i < |single|
      invariant i <= |single|
      invariant offs == SingleOffsets(single, i)
      invariant weights == Weights(SinglePool(single[..i])) && varbits == VarBits(SinglePool(single[..i]))
    {
      assert |weights| / 3 == SingleOffset(single, i);
      OffsetsSnoc(single, i);
      offs := offs + [|weights| / 3];
      PoolSnoc(single, i);
      weights, varbits := AppendCes(single[i].ces, SinglePool(single[..i]), weights, varbits);
      i := i + 1;
    }
    assert single[..i] == single;
  }

  /** The columns of the first `n` contraction rows. */
  predicate ColumnsOf(single: seq<Single>, contr: seq<Contraction>, n: nat,
                      a: seq<nat>, b: seq<nat>, c: seq<nat>, off: seq<nat>, nce: seq<nat>)
    requires AtLeastTwo(contr) && n <= |contr|
  {
    && |a| == |b| == |c| == |off| == |nce| == n
    && forall k :: 0 <= k < n ==>
         && a[k] == contr[k].cps[0] && b[k] == contr[k].cps[1] && c[k] == Third(contr[k].cps)
         && off[k] == ContractionOffset(single, contr, k) && nce[k] == |contr[k].ces|
  }

  lemma ColumnsSnoc(single: seq<Single>, contr: seq<Contraction>, n: nat,
                    a: seq<nat>, b: seq<nat>, c: seq<nat>, off: seq<nat>, nce: seq<nat>)
    requires AtLeastTwo(contr) && n < |contr| && ColumnsOf(single, contr, n, a, b, c, off, nce)
    ensures var cps := contr[n].cps;
            ColumnsOf(single, contr, n + 1, a + [cps[0]], b + [cps[1]], c + [Third(cps)],
                      off + [ContractionOffset(single, contr, n)], nce + [|contr[n].ces|])
  {
  }

  method AppendContractions(ghost single: seq<Single>, contr: seq<Contraction>, w: seq<nat>, v: seq<nat>)
    returns (ctA: seq<nat>, ctB: seq<nat>, ctC: seq<nat>, ctOff: seq<nat>, ctNce: seq<nat>,
             weights: seq<nat>, varbits: seq<nat>)
    requires AtLeastTwo(contr)
    requires w == Weights(SinglePool(single)) && v == VarBits(SinglePool(single))
    ensures ColumnsOf(single, contr, |contr|, ctA, ctB, ctC, ctOff, ctNce)
    ensures weights == Weights(SinglePool(single) + ContractionPool(contr))
    ensures varbits == VarBits(SinglePool(single) + ContractionPool(contr))
  {
    ghost var pool := SinglePool(single);
    ctA, ctB, ctC, ctOff, ctNce := [], [], [], [], [];
    weights, varbits := w, v;
    var j := 0;
    assert pool + ContractionPool(contr[..0]) == pool;
    while j < |contr|
      invariant j <= |contr|
      invariant ColumnsOf(single, contr, j, ctA, ctB, ctC, ctOff, ctNce)
      invariant weights == Weights(pool + ContractionPool(contr[..j]))
      invariant varbits == VarBits(pool + ContractionPool(contr[..j]))
    {
      var cps, ces := contr[j].cps, contr[j].ces;
      assert |weights| / 3 == ContractionOffset(single, contr, j);
      ColumnsSnoc(single, contr, j, ctA, ctB, ctC, ctOff, ctNce);
      ctA := ctA + [cps[0]];
      ctB := ctB + [cps[1]];
      ctC := ctC + [if |cps| > 2 then cps[2] else 0];
      ctOff := ctOff + [|weights| / 3];
      ctNce := ctNce + [|ces|];
      ContractionPoolSnoc(contr, j);
      Assoc(pool, ContractionPool(contr[..j]), ces);
      weights, varbits := AppendCes(ces, pool + ContractionPool(contr[..j]), weights, varbits);
      j := j + 1;
    }
    assert contr[..j] == contr;
  }

  method Generate(unsortedSingle: seq<Single>, unsortedContr: seq<Contraction>) returns (t: Tables)
    requires AtLeastTwo(unsortedContr)
    ensures AtLeastTwo(Sort(unsortedContr, ContractionLe))
    ensures t == TablesOf(Sort(unsortedSingle, SingleLe), Sort(unsortedContr, ContractionLe))
  {
    var single := Sort(unsortedSingle, SingleLe);
    var contr := Sort(unsortedContr, ContractionLe);
    SortKeepsLengths(unsortedContr);
    var offs, weights, varbits := AppendSingles(single);
    var totalSingleCes := |weights| / 3;
    var ctA, ctB, ctC, ctOff, ctNce, w, v := AppendContractions(single, contr, weights, varbits);
    LastOffset(single, offs, totalSingleCes);
    ColumnsAreTables(single, contr, ctA, ctB, ctC, ctOff, ctNce);
    t := Tables(seq(|single|, k requires 0 <= k < |single| => single[k].cp), offs + [totalSingleCes],
                ctA, ctB, ctC, ctOff, ctNce, w, v);
  }

  lemma LastOffset(single: seq<Single>, offs: seq<nat>, total: nat)
    requires offs == SingleOffsets(single, |single|) && total == |SinglePool(single)|
    ensures offs + [total] == SingleOffsets(single, |single| + 1)
  {
    assert single[..|single|] == single;
  }

  lemma ColumnsAreTables(single: seq<Single>, contr: seq<Contraction>,
                         a: seq<nat>, b: seq<nat>, c: seq<nat>, off: seq<nat>, nce: seq<nat>)
    requires AtLeastTwo(contr) && ColumnsOf(single, contr, |contr|, a, b, c, off, nce)
    ensures var t := TablesOf(single, contr);
            t.ctA == a && t.ctB == b && t.ctC == c && t.ctOff == off && t.ctNce == nce
  {
  }

  lemma SortKeepsLengths(contr: seq<Contraction>)
    requires AtLeastTwo(contr)
    ensures AtLeastTwo(Sort(contr, ContractionLe))
  {
    ContractionOrder();
    SortCorrect(contr, ContractionLe);
    forall c | c in Sort(contr, ContractionLe) ensures |c.cps| >= 2 {
      assert c in multiset(Sort(contr, ContractionLe));
    }
  }

  // ----- the orders -----

  lemma {:induction false} TupleTotal(a: seq<nat>, b: seq<nat>)
    ensures TupleLe(a, b) || TupleLe(b, a)
    ensures TupleLe(a, b) && TupleLe(b, a) ==> a == b
  {
    if a != [] && b != [] {
      TupleTotal(a[1..], b[1..]);
      assert a == [a[0]] + a[1..] && b == [b[0]] + b[1..];
    }
  }

  lemma {:induction false} TupleTransitive(a: seq<nat>, b: seq<nat>, c: seq<nat>)
    requires TupleLe(a, b) && TupleLe(b, c)
    ensures TupleLe(a, c)
  {
    if a != [] {
      if a[0] == b[0] == c[0] {
        TupleTransitive(a[1..], b[1..], c[1..]);
      }
    }
  }

  lemma ContractionOrder()
    ensures TotalPreorder(ContractionLe)
  {
    forall a, b ensures ContractionLe(a, b) || ContractionLe(b, a) {
      TupleTotal(a.cps, b.cps);
    }
    forall a, b, c | ContractionLe(a, b) && ContractionLe(b, c) ensures ContractionLe(a, c) {
      TupleTransitive(a.cps, b.cps, c.cps);
    }
  }

  lemma SingleOrder()
    ensures TotalPreorder(SingleLe)
  {
  }
}
