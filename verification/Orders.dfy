/** The orders that a shuffle can and cannot give (scripts/generator/rng.ts): it takes its draws from one
    32-bit state, and thirteen items have more orders than there are states. */
module Orders {
  import opened Rng

  predicate Distinct<T(==)>(s: seq<T>) {
    forall i, j :: 0 <= i < j < |s| ==> s[i] != s[j]
  }

  predicate ArePicks(picks: seq<nat>) {
    forall k :: 0 <= k < |picks| ==> picks[k] <= k
  }

  // ---------------------------------------------------------------------------------------------
  // Different positions, different orders
  // ---------------------------------------------------------------------------------------------

  lemma SwapKeepsDistinct<T>(s: seq<T>, i: nat, j: nat)
    requires i < |s| && j < |s| && Distinct(s)
    ensures Distinct(Swapped(s, i, j))
  {
  }

  lemma SwapPlaces<T>(s: seq<T>, i: nat, j: nat)
    requires i < |s| && j < |s|
    ensures |Swapped(s, i, j)| == |s| && Swapped(s, i, j)[i] == s[j]
  {
  }

  /** After the exchange at `i` its place holds the item picked for good. */
  lemma PlacedLast<T>(s: seq<T>, picks: seq<nat>, i: nat)
    requires 0 < i < |s| && |picks| == |s| && ArePicks(picks)
    ensures |Shuffled(s, picks, i)| == |s| && Shuffled(s, picks, i)[i] == s[picks[i]]
  {
    hide Swapped, Shuffled;
    SwapPlaces(s, i, picks[i]);
    ShuffleStep(s, picks, i);
    ShuffleKeeps(Swapped(s, i, picks[i]), picks, i - 1);
  }

  /** Of different items, no two choices of positions give the same order. */
  lemma {:induction false} PicksAreTold<T>(s: seq<T>, p: seq<nat>, q: seq<nat>, i: nat)
    requires i < |s| && |p| == |s| == |q| && ArePicks(p) && ArePicks(q) && Distinct(s)
    requires Shuffled(s, p, i) == Shuffled(s, q, i)
    ensures p[..i + 1] == q[..i + 1]
    decreases i
  {
    hide Swapped;
    if i > 0 {
      PlacedLast(s, p, i);
      PlacedLast(s, q, i);
      assert p[i] == q[i];
      SwapKeepsDistinct(s, i, p[i]);
      SwapPlaces(s, i, p[i]);
      PicksAreTold(Swapped(s, i, p[i]), p, q, i - 1);
      assert p[..i + 1] == p[..i] + [p[i]] && q[..i + 1] == q[..i] + [q[i]];
    }
  }

  lemma OrderTellsPicks<T>(s: seq<T>, p: seq<nat>, q: seq<nat>)
    requires s != [] && |p| == |s| == |q| && ArePicks(p) && ArePicks(q) && Distinct(s)
    ensures Shuffled(s, p, |s| - 1) == Shuffled(s, q, |s| - 1) <==> p == q
  {
    hide Shuffled;
    if Shuffled(s, p, |s| - 1) == Shuffled(s, q, |s| - 1) {
      PicksAreTold(s, p, q, |s| - 1);
      assert p[..|s|] == p && q[..|s|] == q;
    }
  }

  // ---------------------------------------------------------------------------------------------
  // How many choices there are
  // ---------------------------------------------------------------------------------------------

  function Factorial(n: nat): (f: nat)
    ensures f > 0
  {
    if n == 0 then 1 else Factorial(n - 1) * n
  }

  /** The choices of positions for `n` items, counted through. */
  function Choice(c: nat, n: nat): (picks: seq<nat>)
    ensures |picks| == n && ArePicks(picks)
    decreases n
  {
    if n == 0 then [] else Choice(c / n, n - 1) + [c % n]
  }

  function Number(picks: seq<nat>): nat {
    if picks == [] then 0 else Number(picks[..|picks| - 1]) * |picks| + picks[|picks| - 1]
  }

  lemma NumberAppends(picks: seq<nat>, x: nat)
    ensures Number(picks + [x]) == Number(picks) * (|picks| + 1) + x
  {
    assert (picks + [x])[..|picks|] == picks;
  }

  lemma {:induction false} NumberOfChoice(c: nat, n: nat)
    requires c < Factorial(n)
    ensures Number(Choice(c, n)) == c
    decreases n
  {
    hide Number;
    if n == 0 {
      NumberOfNone();
    } else {
      Divided(c, n);
      TimesGrows(Factorial(n - 1), c / n, n);
      NumberOfChoice(c / n, n - 1);
      NumberAppends(Choice(c / n, n - 1), c % n);
    }
  }

  lemma NumberOfNone()
    ensures Number([]) == 0
  {
  }

  lemma Divided(c: nat, n: nat)
    requires n > 0
    ensures c / n * n + c % n == c && 0 <= c % n < n
  {
  }

  lemma TimesGrows(x: nat, y: nat, n: nat)
    ensures x <= y ==> x * n <= y * n
  {
  }

  lemma ThirteenHaveMore(n: nat)
    requires n >= 13
    ensures Factorial(n) > 0x1_0000_0000
    decreases n
  {
    if n > 13 {
      ThirteenHaveMore(n - 1);
      assert Factorial(n) == Factorial(n - 1) * n;
    } else {
      assert Factorial(7) == 5040;
      assert Factorial(10) == 3628800;
      assert Factorial(13) == 6227020800;
    }
  }

  // ---------------------------------------------------------------------------------------------
  // More choices than states
  // ---------------------------------------------------------------------------------------------

  function Reached(f: nat -> nat, n: nat): set<nat> {
    if n == 0 then {} else Reached(f, n - 1) + {f(n - 1)}
  }

  lemma {:induction false} ReachedIsSmall(f: nat -> nat, n: nat)
    ensures |Reached(f, n)| <= n
  {
    if n > 0 { ReachedIsSmall(f, n - 1); }
  }

  lemma {:induction false} IsReached(f: nat -> nat, n: nat, a: nat)
    requires a < n
    ensures f(a) in Reached(f, n)
  {
    if a < n - 1 { IsReached(f, n - 1, a); }
  }

  /** A set of fewer numbers than there are below `m` misses one of them. */
  lemma {:induction false} OneIsMissed(s: set<nat>, m: nat) returns (c: nat)
    requires |s| < m
    ensures c < m && c !in s
    decreases m
  {
    if m - 1 !in s {
      c := m - 1;
    } else {
      c := OneIsMissed(s - {m - 1}, m - 1);
    }
  }

  /** Of thirteen or more different items there is an order that no state leads to. */
  lemma SomeOrderIsNeverDrawn<T>(s: seq<T>) returns (t: seq<T>)
    requires |s| >= 13 && Distinct(s)
    ensures multiset(t) == multiset(s)
    ensures forall a: Bytes.word :: Shuffled(s, Picks(a, |s|), |s| - 1) != t
  {
    hide Shuffled, Picks, Factorial, Reached, Choice, Number;
    var n := |s|;
    var f := (a: nat) => if a < 0x1_0000_0000 then Number(Picks(a, n)) else 0;
    ThirteenHaveMore(n);
    ReachedIsSmall(f, 0x1_0000_0000);
    var c := OneIsMissed(Reached(f, 0x1_0000_0000), Factorial(n));
    var picks := Choice(c, n);
    NumberOfChoice(c, n);
    t := Shuffled(s, picks, n - 1);
    ShuffleKeeps(s, picks, n - 1);
    forall a: Bytes.word ensures Shuffled(s, Picks(a, n), n - 1) != t {
      IsReached(f, 0x1_0000_0000, a);
      OrderTellsPicks(s, Picks(a, n), picks);
    }
  }
}
