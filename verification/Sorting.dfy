/** The contract of the library sorts the program calls (`list.sort`, `qsort`): an ordered
    rearrangement. The order in which equal elements come is the one of a stable sort. */
module Sorting {
  ghost predicate TotalPreorder<T(!new)>(le: (T, T) -> bool) {
    && (forall x, y :: le(x, y) || le(y, x))
    && (forall x, y, z :: le(x, y) && le(y, z) ==> le(x, z))
  }

  ghost predicate Ordered<T>(s: seq<T>, le: (T, T) -> bool) {
    forall i, j :: 0 <= i < j < |s| ==> le(s[i], s[j])
  }

  function Insert<T>(x: T, s: seq<T>, le: (T, T) -> bool): seq<T> {
    if s == [] then [x]
    else if le(x, s[0]) then [x] + s
    else [s[0]] + Insert(x, s[1..], le)
  }

  function Sort<T>(s: seq<T>, le: (T, T) -> bool): seq<T> {
    if s == [] then [] else Insert(s[0], Sort(s[1..], le), le)
  }

  lemma {:induction false} InsertMultiset<T>(x: T, s: seq<T>, le: (T, T) -> bool)
    ensures multiset(Insert(x, s, le)) == multiset(s) + multiset{x}
  {
    if s != [] && !le(x, s[0]) {
      InsertMultiset(x, s[1..], le);
      assert s == [s[0]] + s[1..];
    }
  }

  lemma {:induction false} InsertOrdered<T(!new)>(x: T, s: seq<T>, le: (T, T) -> bool)
    requires TotalPreorder(le) && Ordered(s, le)
    ensures Ordered(Insert(x, s, le), le)
  {
    if s != [] {
      if le(x, s[0]) {
        assert forall i | 0 <= i < |s| :: le(x, s[i]);
      } else {
        var t := Insert(x, s[1..], le);
        InsertOrdered(x, s[1..], le);
        InsertMultiset(x, s[1..], le);
        forall i | 0 <= i < |t| ensures le(s[0], t[i]) {
          assert t[i] in multiset(t);
          if t[i] != x {
            assert t[i] in s[1..];
          }
        }
      }
    }
  }

  /** Sorting rearranges, and orders. */
  lemma {:induction false} SortCorrect<T(!new)>(s: seq<T>, le: (T, T) -> bool)
    requires TotalPreorder(le)
    ensures multiset(Sort(s, le)) == multiset(s)
    ensures |Sort(s, le)| == |s|
    ensures Ordered(Sort(s, le), le)
  {
    if s != [] {
      SortCorrect(s[1..], le);
      InsertMultiset(s[0], Sort(s[1..], le), le);
      InsertOrdered(s[0], Sort(s[1..], le), le);
      assert s == [s[0]] + s[1..];
    }
    assert |Sort(s, le)| == |multiset(Sort(s, le))| == |multiset(s)| == |s|;
  }

  lemma SameElements<T>(a: seq<T>, b: seq<T>)
    requires multiset(a) == multiset(b)
    ensures forall e :: e in a <==> e in b
  {
    forall e ensures e in a <==> e in b {
      assert e in a <==> e in multiset(a);
      assert e in b <==> e in multiset(b);
    }
  }

  lemma HeadIsLeast<T(!new)>(a: seq<T>, b: seq<T>, le: (T, T) -> bool)
    requires TotalPreorder(le) && Ordered(a, le) && a != [] && multiset(a) == multiset(b)
    ensures b != [] && le(a[0], b[0])
  {
    assert a[0] in multiset(b);
    assert b[0] in multiset(a);
    var j :| 0 <= j < |a| && a[j] == b[0];
    assert le(a[0], a[0]);
  }

  lemma TailMultiset<T>(a: seq<T>)
    requires a != []
    ensures multiset(a[1..]) == multiset(a) - multiset{a[0]}
  {
    assert a == [a[0]] + a[1..];
  }

  lemma TailOrdered<T(!new)>(a: seq<T>, le: (T, T) -> bool)
    requires a != [] && Ordered(a, le)
    ensures Ordered(a[1..], le)
  {
  }

  lemma SameHead<T(!new)>(a: seq<T>, b: seq<T>, le: (T, T) -> bool)
    requires TotalPreorder(le) && (forall x, y :: le(x, y) && le(y, x) ==> x == y)
    requires Ordered(a, le) && Ordered(b, le) && multiset(a) == multiset(b) && a != []
    ensures b != [] && a[0] == b[0]
  {
    assert a[0] in multiset(b);
    HeadIsLeast(a, b, le);
    HeadIsLeast(b, a, le);
  }

  /** Under an antisymmetric order, an ordered arrangement is determined by its elements. */
  lemma {:induction false} OrderedUnique<T(!new)>(a: seq<T>, b: seq<T>, le: (T, T) -> bool)
    requires TotalPreorder(le) && (forall x, y :: le(x, y) && le(y, x) ==> x == y)
    requires Ordered(a, le) && Ordered(b, le) && multiset(a) == multiset(b)
    ensures a == b
  {
    if a == [] {
      if b != [] {
        HeadIsLeast(b, a, le);
      }
    } else {
      SameHead(a, b, le);
      TailMultiset(a);
      TailMultiset(b);
      TailOrdered(a, le);
      TailOrdered(b, le);
      OrderedUnique(a[1..], b[1..], le);
      assert a == [a[0]] + a[1..] && b == [b[0]] + b[1..];
    }
  }

  ghost predicate DistinctKeys<T, K>(s: seq<T>, key: T -> K) {
    forall i, j :: 0 <= i < j < |s| ==> key(s[i]) != key(s[j])
  }

  lemma {:induction false} TwoPositions<T>(s: seq<T>, x: T) returns (p: nat, q: nat)
    requires multiset(s)[x] >= 2
    ensures p < q < |s| && s[p] == s[q] == x
  {
    assert s == [s[0]] + s[1..];
    if s[0] == x {
      assert multiset(s[1..])[x] >= 1;
      assert x in s[1..];
      var k :| 0 <= k < |s[1..]| && s[1..][k] == x;
      p, q := 0, k + 1;
    } else {
      p, q := TwoPositions(s[1..], x);
      p, q := p + 1, q + 1;
    }
  }

  lemma TwiceCounted<T>(s: seq<T>, i: nat, j: nat)
    requires i < j < |s| && s[i] == s[j]
    ensures multiset(s)[s[i]] >= 2
  {
    assert s == s[..i + 1] + s[i + 1..];
    assert s[i] in s[..i + 1] by {
      assert s[..i + 1][i] == s[i];
    }
    assert s[i] in s[i + 1..] by {
      assert s[i + 1..][j - i - 1] == s[j];
    }
  }

  /** Rearranging keeps keys distinct. */
  lemma PermutedDistinct<T, K>(a: seq<T>, b: seq<T>, key: T -> K)
    requires multiset(a) == multiset(b) && DistinctKeys(a, key)
    ensures DistinctKeys(b, key)
  {
    forall i, j | 0 <= i < j < |b| ensures key(b[i]) != key(b[j]) {
      if b[i] == b[j] {
        TwiceCounted(b, i, j);
        var p, q := TwoPositions(a, b[i]);
      } else {
        assert b[i] in multiset(a) && b[j] in multiset(a);
        var p :| 0 <= p < |a| && a[p] == b[i];
        var q :| 0 <= q < |a| && a[q] == b[j];
        assert p < q || q < p;
      }
    }
  }

}
