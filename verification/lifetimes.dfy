/**
  Pools of short-lived effect particles (a dying monster's debris, the
  game manager's hit sparks) reduced to what the game logic depends on:
  each entry's remaining lifetime in frames. Every frame each lifetime
  drops by one and the entries whose lifetime is no longer positive are
  removed.
 */
module Lifetimes {

  predicate AllPositive(ls: seq<int>) {
    forall i :: 0 <= i < |ls| ==> ls[i] > 0
  }

  predicate AllAtMost(ls: seq<int>, k: int) {
    forall i :: 0 <= i < |ls| ==> ls[i] <= k
  }

  predicate AllWithin(ls: seq<int>, lo: int, hi: int) {
    forall i :: 0 <= i < |ls| ==> lo <= ls[i] < hi
  }

  /** The longest remaining lifetime, or 0 for a pool with nothing alive. */
  function Longest(ls: seq<int>): (m: int)
    ensures m >= 0
    ensures AllAtMost(ls, m)
    ensures m > 0 ==> exists i :: 0 <= i < |ls| && ls[i] == m
  {
    if |ls| == 0 then 0
    else
      var rest := Longest(ls[1..]);
      if ls[0] > rest then ls[0] else rest
  }

  /**
    One frame of decay: every lifetime drops by one and the expired
    entries go. The pool empties exactly when no lifetime exceeds one,
    and otherwise the longest lifetime is exactly one frame shorter.
   */
  function Tick(ls: seq<int>): (r: seq<int>)
    ensures |r| <= |ls|
    ensures AllPositive(r)
    ensures r == [] <==> Longest(ls) <= 1
    ensures Longest(ls) > 1 ==> Longest(r) == Longest(ls) - 1
  {
    if |ls| == 0 then []
    else
      var rest := Tick(ls[1..]);
      if ls[0] - 1 > 0 then
        var r := [ls[0] - 1] + rest;
        assert r[1..] == rest;
        r
      else rest
  }

  /**
    What one frame leaves, value by value: a lifetime `v > 0` occurs as
    often as `v + 1` did before (every entry lost exactly one frame), and
    nothing at or below zero is left (exactly the entries at one or below
    were removed).
   */
  lemma TickContents(ls: seq<int>)
    ensures forall v :: multiset(Tick(ls))[v] == if v > 0 then multiset(ls)[v + 1] else 0
  {
    forall v
      ensures multiset(Tick(ls))[v] == if v > 0 then multiset(ls)[v + 1] else 0
    {
      TickCount(ls, v);
    }
  }

  /** TickContents for one value `v`. */
  lemma {:induction false} TickCount(ls: seq<int>, v: int)
    ensures multiset(Tick(ls))[v] == if v > 0 then multiset(ls)[v + 1] else 0
  {
    if |ls| > 0 {
      TickCount(ls[1..], v);
      assert ls == [ls[0]] + ls[1..];
      CountStep(ls[0], ls[1..], Tick(ls[1..]), Tick(ls), v);
    }
  }

  /** One entry's share in TickCount: pure multiset reasoning. */
  lemma CountStep(h: int, tail: seq<int>, rt: seq<int>, r: seq<int>, v: int)
    requires multiset(rt)[v] == if v > 0 then multiset(tail)[v + 1] else 0
    requires r == if h - 1 > 0 then [h - 1] + rt else rt
    ensures multiset(r)[v] == if v > 0 then multiset([h] + tail)[v + 1] else 0
  {
    assert multiset([h] + tail) == multiset([h]) + multiset(tail);
    if h - 1 > 0 {
      assert multiset(r) == multiset([h - 1]) + multiset(rt);
    }
  }

  /** `n` frames of decay. */
  function TickN(ls: seq<int>, n: nat): seq<int>
    decreases n
  {
    if n == 0 then ls else TickN(Tick(ls), n - 1)
  }

  lemma AllAtMostIffLongest(ls: seq<int>, k: int)
    requires k >= 0
    ensures AllAtMost(ls, k) <==> Longest(ls) <= k
  {
  }

  /**
    After `n >= 1` frames the pool is empty exactly when every lifetime
    was at most `n`: nothing expires early and nothing lingers.
   */
  lemma {:induction false} EmptyAfterIffAllAtMost(ls: seq<int>, n: nat)
    requires n >= 1
    ensures TickN(ls, n) == [] <==> AllAtMost(ls, n)
    decreases n
  {
    AllAtMostIffLongest(ls, n);
    var t := Tick(ls);
    assert TickN(ls, n) == TickN(t, n - 1);
    if n > 1 {
      EmptyAfterIffAllAtMost(t, n - 1);
      AllAtMostIffLongest(t, n - 1);
      if Longest(ls) <= 1 {
        assert t == [];
        assert TickN(t, n - 1) == [] by { TickNOfEmpty(n - 1); }
      }
    }
  }

  lemma {:induction false} TickNOfEmpty(n: nat)
    ensures TickN([], n) == []
    decreases n
  {
    if n > 0 {
      assert Tick([]) == [];
      TickNOfEmpty(n - 1);
    }
  }
}
