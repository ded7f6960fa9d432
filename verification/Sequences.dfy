/** Lists of numbers without repetitions, and how long they can be. */
module Sequences {
  predicate NoDup(s: seq<nat>) {
    forall i, j | 0 <= i < j < |s| :: s[i] != s[j]
  }

  predicate Within(s: seq<nat>, n: nat) {
    forall j | 0 <= j < |s| :: s[j] < n
  }

  lemma AllWithin(s: seq<nat>, n: nat)
    requires forall i | i in s :: i < n
    ensures Within(s, n)
  {
    assert forall j | 0 <= j < |s| :: s[j] in s;
  }

  lemma NoDupTail(i: nat, rest: seq<nat>)
    requires NoDup([i] + rest)
    ensures NoDup(rest) && i !in rest
    ensures forall j :: j in [i] + rest <==> j == i || j in rest
  {
    var all := [i] + rest;
    assert forall k | 0 <= k < |rest| :: all[k + 1] == rest[k];
    forall a, b | 0 <= a < b < |rest|
      ensures rest[a] != rest[b]
    {
      assert all[a + 1] != all[b + 1];
    }
    assert forall x | x in all[1..] :: x != all[0];
    assert all[1..] == rest;
  }

  function Elements(s: seq<nat>): set<nat> {
    set x | x in s
  }

  function Below(n: nat): set<nat> {
    if n == 0 then {} else Below(n - 1) + {n - 1}
  }

  lemma {:induction false} ElementsSize(s: seq<nat>)
    requires NoDup(s)
    ensures |Elements(s)| == |s|
  {
    if s == [] {
      assert Elements(s) == {};
    } else {
      var i, rest := s[0], s[1..];
      assert s == [i] + rest;
      NoDupTail(i, rest);
      ElementsSize(rest);
      assert Elements(s) == Elements(rest) + {i};
    }
  }

  lemma {:induction false} BelowIs(n: nat)
    ensures |Below(n)| == n && forall i: nat :: i in Below(n) <==> i < n
  {
    if n > 0 {
      BelowIs(n - 1);
      assert n - 1 !in Below(n - 1);
    }
  }

  lemma {:induction false} SubsetSize(a: set<nat>, b: set<nat>)
    requires a <= b
    ensures |a| <= |b|
    decreases a
  {
    if a != {} {
      var x :| x in a;
      SubsetSize(a - {x}, b - {x});
    }
  }

  /** A list of numbers below n without repetitions is not longer than n. */
  lemma Pigeonhole(s: seq<nat>, n: nat)
    requires NoDup(s) && Within(s, n)
    ensures |s| <= n
  {
    ElementsSize(s);
    BelowIs(n);
    SubsetSize(Elements(s), Below(n));
  }

  /** A list that holds every number below n is not shorter than n. */
  lemma Covers(s: seq<nat>, n: nat)
    requires NoDup(s) && forall i: nat | i < n :: i in s
    ensures |s| >= n
  {
    ElementsSize(s);
    BelowIs(n);
    SubsetSize(Below(n), Elements(s));
  }
}
