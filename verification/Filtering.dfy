/** What it means that one sequence lists, in order, what another one has of a certain kind.
    The positions are given by counting, so that nothing can be lost, doubled or moved. */
module Filtering {

  function CountIf<T>(s: seq<T>, p: T -> bool): nat {
    if s == [] then 0 else (if p(s[0]) then 1 else 0) + CountIf(s[1..], p)
  }

  /** `r` holds the images under `f` of exactly the elements of `s` with the property `p`,
      in order: that of `s[i]` stands behind those of the elements before it. */
  ghost predicate Lists<S, T>(r: seq<T>, s: seq<S>, p: S -> bool, f: S -> T) {
    && |r| == CountIf(s, p)
    && forall i | 0 <= i < |s| && p(s[i]) :: CountIf(s[..i], p) < |r| && r[CountIf(s[..i], p)] == f(s[i])
  }

  lemma ListsNone<S, T>(p: S -> bool, f: S -> T)
    ensures Lists([], [], p, f)
  {
  }

  lemma CountHead<T>(s: seq<T>, p: T -> bool, i: nat)
    requires 0 < i <= |s|
    ensures CountIf(s[..i], p) == (if p(s[0]) then 1 else 0) + CountIf(s[1..][..i - 1], p)
  {
    assert s[..i][0] == s[0] && s[..i][1..] == s[1..][..i - 1];
  }

  /** One more element in front. */
  lemma ListsHead<S, T>(r: seq<T>, s: seq<S>, p: S -> bool, f: S -> T)
    requires s != [] && Lists(r, s[1..], p, f)
    ensures Lists((if p(s[0]) then [f(s[0])] else []) + r, s, p, f)
  {
    var n := if p(s[0]) then 1 else 0;
    var whole := (if p(s[0]) then [f(s[0])] else []) + r;
    forall i | 0 <= i < |s| && p(s[i])
      ensures CountIf(s[..i], p) < |whole| && whole[CountIf(s[..i], p)] == f(s[i])
    {
      if i > 0 {
        CountHead(s, p, i);
        assert s[1..][i - 1] == s[i];
      }
    }
  }

  lemma {:induction false} CountSnoc<T>(s: seq<T>, x: T, p: T -> bool)
    ensures CountIf(s + [x], p) == CountIf(s, p) + if p(x) then 1 else 0
  {
    if s == [] {
      assert s + [x] == [x] && [x][1..] == [];
    } else {
      assert (s + [x])[0] == s[0] && (s + [x])[1..] == s[1..] + [x];
      CountSnoc(s[1..], x, p);
    }
  }

  /** One more element at the end. */
  lemma ListsSnoc<S, T>(r: seq<T>, s: seq<S>, x: S, p: S -> bool, f: S -> T)
    requires Lists(r, s, p, f)
    ensures Lists(r + (if p(x) then [f(x)] else []), s + [x], p, f)
  {
    CountSnoc(s, x, p);
    var all, whole := s + [x], r + (if p(x) then [f(x)] else []);
    assert all[..|s|] == s;
    forall i | 0 <= i < |all| && p(all[i])
      ensures CountIf(all[..i], p) < |whole| && whole[CountIf(all[..i], p)] == f(all[i])
    {
      if i < |s| {
        assert all[..i] == s[..i];
      }
    }
  }

  /** Without any element of another kind, nothing is left out. */
  lemma {:induction false} CountAll<T>(s: seq<T>, p: T -> bool)
    requires forall x | x in s :: p(x)
    ensures CountIf(s, p) == |s|
  {
    if s != [] {
      CountAll(s[1..], p);
    }
  }

  lemma {:induction false} CountSplit<T>(s: seq<T>, p: T -> bool, i: nat)
    requires i < |s| && p(s[i])
    ensures CountIf(s[..i], p) < CountIf(s, p)
  {
    if i > 0 {
      CountHead(s, p, i);
      CountSplit(s[1..], p, i - 1);
    }
  }

  /** Such a list is determined by what it lists. */
  lemma {:induction false} ListsUnique<S, T>(a: seq<T>, b: seq<T>, s: seq<S>, p: S -> bool, f: S -> T)
    requires Lists(a, s, p, f) && Lists(b, s, p, f)
    ensures a == b
  {
    forall k | 0 <= k < |a| ensures a[k] == b[k] {
      var i := PositionOf(s, p, k);
    }
  }

  lemma {:induction false} PositionOf<T>(s: seq<T>, p: T -> bool, k: nat) returns (i: nat)
    requires k < CountIf(s, p)
    ensures i < |s| && p(s[i]) && CountIf(s[..i], p) == k
  {
    if p(s[0]) && k == 0 {
      i := 0;
    } else {
      var j := PositionOf(s[1..], p, if p(s[0]) then k - 1 else k);
      i := j + 1;
      CountHead(s, p, i);
    }
  }
}
