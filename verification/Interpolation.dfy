/** Interpolation between the checkpoints of a curated scenario (scripts/generator/curated.ts). */
module Interpolation {
  import Delivery

  datatype Checkpoint = Checkpoint(
    weeksBefore: nat, physical: real, planned: real, costToDate: real, etc: real, committed: real,
    contingencyConsumed: real, executedValueDelta: real)

  // ---------------------------------------------------------------------------------------------
  // Interpolation
  // ---------------------------------------------------------------------------------------------

  /** A stable sort, earliest week (most weeks before) first. */
  function Insert(sorted: seq<Checkpoint>, c: Checkpoint): seq<Checkpoint> {
    if sorted == [] || sorted[|sorted| - 1].weeksBefore >= c.weeksBefore then sorted + [c]
    else Insert(sorted[..|sorted| - 1], c) + [sorted[|sorted| - 1]]
  }

  function Sorted(cps: seq<Checkpoint>): seq<Checkpoint> {
    if cps == [] then [] else Insert(Sorted(cps[..|cps| - 1]), cps[|cps| - 1])
  }

  function Lerp(x: real, y: real, t: real): real {
    x + (y - x) * t
  }

  /** The point a share `t` of the way from `a` to `b`. */
  function Between(a: Checkpoint, b: Checkpoint, weeksBefore: nat, t: real): Checkpoint {
    Checkpoint(weeksBefore, Lerp(a.physical, b.physical, t), Lerp(a.planned, b.planned, t),
               Lerp(a.costToDate, b.costToDate, t), Lerp(a.etc, b.etc, t), Lerp(a.committed, b.committed, t),
               Lerp(a.contingencyConsumed, b.contingencyConsumed, t),
               if t < 0.5 then a.executedValueDelta else b.executedValueDelta)
  }

  function ShareOf(a: Checkpoint, b: Checkpoint, weeksBefore: nat): real {
    var span := a.weeksBefore - b.weeksBefore;
    if span == 0 then 0.0 else (a.weeksBefore - weeksBefore) as real / span as real
  }

  /** The loop's search for the surrounding checkpoints, from pair `i` on. */
  function Search(sorted: seq<Checkpoint>, weeksBefore: nat, i: nat): Checkpoint
    requires i < |sorted|
    decreases |sorted| - i
  {
    if i == |sorted| - 1 then sorted[i]
    else if sorted[i + 1].weeksBefore <= weeksBefore <= sorted[i].weeksBefore then
      Between(sorted[i], sorted[i + 1], weeksBefore, ShareOf(sorted[i], sorted[i + 1], weeksBefore))
    else Search(sorted, weeksBefore, i + 1)
  }

  function InSorted(sorted: seq<Checkpoint>, weeksBefore: nat): Checkpoint
    requires sorted != []
  {
    var last := sorted[|sorted| - 1];
    if weeksBefore >= sorted[0].weeksBefore then sorted[0]
    else if weeksBefore <= last.weeksBefore then last
    else Search(sorted, weeksBefore, 0)
  }

  method Interpolate(cps: seq<Checkpoint>, weeksBefore: nat) returns (c: Checkpoint)
    requires cps != []
    ensures c == InSorted(Sorted(cps), weeksBefore)
  {
    SortKeeps(cps);
    var sorted := Sorted(cps);
    var first, last := sorted[0], sorted[|sorted| - 1];
    if weeksBefore >= first.weeksBefore { return first; }
    if weeksBefore <= last.weeksBefore { return last; }
    for i := 0 to |sorted| - 1
      invariant Search(sorted, weeksBefore, 0) == Search(sorted, weeksBefore, i)
    {
      var a, b := sorted[i], sorted[i + 1];
      if weeksBefore <= a.weeksBefore && weeksBefore >= b.weeksBefore {
        return Between(a, b, weeksBefore, ShareOf(a, b, weeksBefore));
      }
    }
    return last;
  }

  predicate Descends(sorted: seq<Checkpoint>) {
    forall i, j :: 0 <= i < j < |sorted| ==> sorted[i].weeksBefore >= sorted[j].weeksBefore
  }

  lemma {:induction false} InsertPermutes(sorted: seq<Checkpoint>, c: Checkpoint)
    ensures multiset(Insert(sorted, c)) == multiset(sorted) + multiset{c} && |Insert(sorted, c)| == |sorted| + 1
    decreases |sorted|
  {
    if sorted != [] && sorted[|sorted| - 1].weeksBefore < c.weeksBefore {
      InsertPermutes(sorted[..|sorted| - 1], c);
      assert sorted == sorted[..|sorted| - 1] + [sorted[|sorted| - 1]];
    }
  }

  /** No checkpoint is earlier than this number of weeks before, or none is later. */
  predicate AtLeast(s: seq<Checkpoint>, weeksBefore: nat) {
    forall i :: 0 <= i < |s| ==> s[i].weeksBefore >= weeksBefore
  }

  lemma {:induction false} InsertAbove(sorted: seq<Checkpoint>, c: Checkpoint, weeksBefore: nat)
    requires AtLeast(sorted, weeksBefore) && c.weeksBefore >= weeksBefore
    ensures AtLeast(Insert(sorted, c), weeksBefore)
    decreases |sorted|
  {
    if sorted != [] && sorted[|sorted| - 1].weeksBefore < c.weeksBefore {
      InsertAbove(sorted[..|sorted| - 1], c, weeksBefore);
    }
  }

  lemma {:induction false} InsertDescends(sorted: seq<Checkpoint>, c: Checkpoint)
    requires Descends(sorted)
    ensures Descends(Insert(sorted, c))
    decreases |sorted|
  {
    if sorted != [] && sorted[|sorted| - 1].weeksBefore < c.weeksBefore {
      InsertDescends(sorted[..|sorted| - 1], c);
      InsertAbove(sorted[..|sorted| - 1], c, sorted[|sorted| - 1].weeksBefore);
    }
  }

  /** The sort is a rearrangement in descending order. */
  lemma {:induction false} SortKeeps(cps: seq<Checkpoint>)
    ensures Descends(Sorted(cps)) && multiset(Sorted(cps)) == multiset(cps) && |Sorted(cps)| == |cps|
    decreases |cps|
  {
    hide Insert;
    if cps != [] {
      SortKeeps(cps[..|cps| - 1]);
      InsertDescends(Sorted(cps[..|cps| - 1]), cps[|cps| - 1]);
      InsertPermutes(Sorted(cps[..|cps| - 1]), cps[|cps| - 1]);
      assert cps == cps[..|cps| - 1] + [cps[|cps| - 1]];
    }
  }

  lemma SortHolds(cps: seq<Checkpoint>, c: Checkpoint)
    ensures c in Sorted(cps) <==> c in cps
  {
    SortKeeps(cps);
    assert c in multiset(Sorted(cps)) <==> c in multiset(cps);
  }

  // ---------------------------------------------------------------------------------------------
  // The pair around a week
  // ---------------------------------------------------------------------------------------------

  lemma LineEnds(a: Checkpoint, b: Checkpoint)
    requires a.weeksBefore > b.weeksBefore
    ensures Between(a, b, b.weeksBefore, ShareOf(a, b, b.weeksBefore)) == b
  {
    var span := a.weeksBefore - b.weeksBefore;
    assert span as real / span as real == 1.0;
    LerpEnds(a.physical, b.physical);
    LerpEnds(a.planned, b.planned);
    LerpEnds(a.costToDate, b.costToDate);
    LerpEnds(a.etc, b.etc);
    LerpEnds(a.committed, b.committed);
    LerpEnds(a.contingencyConsumed, b.contingencyConsumed);
  }

  lemma LerpEnds(x: real, y: real)
    ensures Lerp(x, y, 0.0) == x && Lerp(x, y, 1.0) == y
  {
  }

  /** The pair of neighbours with the week from the later one up to, and not at, the earlier one. */
  lemma {:induction false} PairAround(sorted: seq<Checkpoint>, weeksBefore: nat) returns (k: nat)
    requires Descends(sorted) && sorted != []
    requires sorted[|sorted| - 1].weeksBefore <= weeksBefore < sorted[0].weeksBefore
    ensures k + 1 < |sorted| && sorted[k + 1].weeksBefore <= weeksBefore < sorted[k].weeksBefore
    decreases |sorted|
  {
    var last := |sorted| - 1;
    if weeksBefore < sorted[last - 1].weeksBefore {
      k := last - 1;
    } else {
      k := PairAround(sorted[..last], weeksBefore);
    }
  }

  /** The search stops at that pair, which is never two checkpoints of one week. */
  lemma {:induction false} SearchStops(sorted: seq<Checkpoint>, weeksBefore: nat, i: nat, k: nat)
    requires Descends(sorted) && i <= k && k + 1 < |sorted|
    requires sorted[k + 1].weeksBefore <= weeksBefore < sorted[k].weeksBefore
    ensures Search(sorted, weeksBefore, i)
         == Between(sorted[k], sorted[k + 1], weeksBefore, ShareOf(sorted[k], sorted[k + 1], weeksBefore))
    decreases k - i
  {
    hide Between, ShareOf;
    if i < k { SearchStops(sorted, weeksBefore, i + 1, k); }
  }

  /** Strictly between the first and the last week the interpolation is the line of that pair. */
  lemma OnTheLine(sorted: seq<Checkpoint>, k: nat, weeksBefore: nat)
    requires Descends(sorted) && k + 1 < |sorted|
    requires sorted[k + 1].weeksBefore <= weeksBefore < sorted[k].weeksBefore
    requires sorted[|sorted| - 1].weeksBefore < weeksBefore
    ensures InSorted(sorted, weeksBefore)
         == Between(sorted[k], sorted[k + 1], weeksBefore, ShareOf(sorted[k], sorted[k + 1], weeksBefore))
  {
    hide Between, ShareOf, Search;
    assert sorted[k].weeksBefore <= sorted[0].weeksBefore;
    SearchStops(sorted, weeksBefore, 0, k);
  }

  /** Interpolation gives a checkpoint itself at its week, in every field, if no other has that week. */
  lemma ExactAtCheckpoints(cps: seq<Checkpoint>, c: Checkpoint)
    requires c in cps && forall d :: d in cps && d.weeksBefore == c.weeksBefore ==> d == c
    ensures InSorted(Sorted(cps), c.weeksBefore) == c
  {
    hide Sorted, Between, ShareOf, Search;
    var sorted, w := Sorted(cps), c.weeksBefore;
    SortKeeps(cps);
    var j := Position(cps, c);
    forall i | 0 <= i < |sorted| && sorted[i].weeksBefore == w ensures sorted[i] == c {
      SortHolds(cps, sorted[i]);
    }
    var last := |sorted| - 1;
    assert sorted[last].weeksBefore <= w <= sorted[0].weeksBefore;
    if sorted[last].weeksBefore < w < sorted[0].weeksBefore {
      var k := PairAround(sorted, w);
      assert sorted[j].weeksBefore == w && j > k;
      assert sorted[k + 1].weeksBefore == w;
      OnTheLine(sorted, k, w);
      LineEnds(sorted[k], sorted[k + 1]);
    }
  }

  lemma Position(cps: seq<Checkpoint>, c: Checkpoint) returns (j: nat)
    requires c in cps
    ensures j < |Sorted(cps)| && Sorted(cps)[j] == c
  {
    SortHolds(cps, c);
    j :| 0 <= j < |Sorted(cps)| && Sorted(cps)[j] == c;
  }

  // ---------------------------------------------------------------------------------------------
  // Between checkpoints
  // ---------------------------------------------------------------------------------------------

  predicate CostsRise(sorted: seq<Checkpoint>) {
    forall i, j :: 0 <= i < j < |sorted| ==> sorted[i].costToDate <= sorted[j].costToDate
  }

  /** The shares of two weeks from the earlier checkpoint on. */
  lemma ShareGrows(a: Checkpoint, b: Checkpoint, earlier: nat, later: nat)
    requires b.weeksBefore <= later <= earlier <= a.weeksBefore && b.weeksBefore < a.weeksBefore
    ensures 0.0 <= ShareOf(a, b, earlier) <= ShareOf(a, b, later) <= 1.0
  {
    var span := (a.weeksBefore - b.weeksBefore) as real;
    var x, y := (a.weeksBefore - earlier) as real, (a.weeksBefore - later) as real;
    Delivery.Ratio(0.0, x, span);
    Delivery.Ratio(x, y, span);
    Delivery.Ratio(y, span, span);
    assert span / span == 1.0;
  }

  lemma LerpGrows(x: real, y: real, t: real, u: real)
    requires x <= y && t <= u
    ensures Lerp(x, y, t) <= Lerp(x, y, u)
  {
    Delivery.SCurve.Product(y - x, u - t);
    assert (y - x) * (u - t) == (y - x) * u - (y - x) * t;
  }

  function LineCost(a: Checkpoint, b: Checkpoint, weeksBefore: nat): real {
    Between(a, b, weeksBefore, ShareOf(a, b, weeksBefore)).costToDate
  }

  /** Along one pair the cost never falls, and stays between the two. */
  lemma LineRises(a: Checkpoint, b: Checkpoint, earlier: nat, later: nat)
    requires b.weeksBefore <= later <= earlier <= a.weeksBefore && b.weeksBefore < a.weeksBefore
    requires a.costToDate <= b.costToDate
    ensures a.costToDate <= LineCost(a, b, earlier) <= LineCost(a, b, later) <= b.costToDate
  {
    hide ShareOf, Lerp;
    var t, u := ShareOf(a, b, earlier), ShareOf(a, b, later);
    ShareGrows(a, b, earlier, later);
    LerpEnds(a.costToDate, b.costToDate);
    LerpGrows(a.costToDate, b.costToDate, 0.0, t);
    LerpGrows(a.costToDate, b.costToDate, t, u);
    LerpGrows(a.costToDate, b.costToDate, u, 1.0);
  }

  /** The interpolated cost lies between that of the last checkpoint before a week and the first at or
      after it. */
  lemma CostWithin(sorted: seq<Checkpoint>, weeksBefore: nat, k: nat)
    requires Descends(sorted) && CostsRise(sorted) && k < |sorted|
    ensures sorted[k].weeksBefore > weeksBefore ==> sorted[k].costToDate <= InSorted(sorted, weeksBefore).costToDate
    ensures sorted[k].weeksBefore <= weeksBefore && sorted[|sorted| - 1].weeksBefore < weeksBefore ==>
        InSorted(sorted, weeksBefore).costToDate <= sorted[k].costToDate
  {
    hide Between, ShareOf, Search;
    var last := |sorted| - 1;
    if sorted[last].weeksBefore < weeksBefore < sorted[0].weeksBefore {
      var j := PairAround(sorted, weeksBefore);
      OnTheLine(sorted, j, weeksBefore);
      LineRises(sorted[j], sorted[j + 1], weeksBefore, weeksBefore);
      assert InSorted(sorted, weeksBefore).costToDate == LineCost(sorted[j], sorted[j + 1], weeksBefore);
      if sorted[k].weeksBefore > weeksBefore {
        assert k <= j;
      } else {
        assert k >= j + 1;
      }
    }
  }

  lemma CostAtMostLast(sorted: seq<Checkpoint>, weeksBefore: nat)
    requires sorted != [] && Descends(sorted) && CostsRise(sorted)
    ensures InSorted(sorted, weeksBefore).costToDate <= sorted[|sorted| - 1].costToDate
  {
    hide Search;
    if sorted[|sorted| - 1].weeksBefore < weeksBefore { CostWithin(sorted, weeksBefore, |sorted| - 1); }
  }

  /** From one week to the next the interpolated cost never falls, shared weeks included. */
  lemma WeekRises(sorted: seq<Checkpoint>, weeksBefore: nat)
    requires sorted != [] && Descends(sorted) && CostsRise(sorted)
    ensures InSorted(sorted, weeksBefore + 1).costToDate <= InSorted(sorted, weeksBefore).costToDate
  {
    hide Between, ShareOf, Search;
    var last := |sorted| - 1;
    if weeksBefore >= sorted[0].weeksBefore {
    } else if weeksBefore <= sorted[last].weeksBefore {
      CostAtMostLast(sorted, weeksBefore + 1);
    } else {
      var k := PairAround(sorted, weeksBefore);
      OnTheLine(sorted, k, weeksBefore);
      if sorted[k].weeksBefore > weeksBefore + 1 {
        OnTheLine(sorted, k, weeksBefore + 1);
        LineRises(sorted[k], sorted[k + 1], weeksBefore + 1, weeksBefore);
        assert InSorted(sorted, weeksBefore + 1).costToDate == LineCost(sorted[k], sorted[k + 1], weeksBefore + 1);
        assert InSorted(sorted, weeksBefore).costToDate == LineCost(sorted[k], sorted[k + 1], weeksBefore);
      } else {
        CostWithin(sorted, weeksBefore, k);
        CostWithin(sorted, weeksBefore + 1, k);
      }
    }
  }

  /** Over any span of weeks. */
  lemma {:induction false} InterpolationIsMonotone(sorted: seq<Checkpoint>, earlier: nat, later: nat)
    requires sorted != [] && Descends(sorted) && CostsRise(sorted) && later <= earlier
    ensures InSorted(sorted, earlier).costToDate <= InSorted(sorted, later).costToDate
    decreases earlier - later
  {
    hide InSorted;
    if later < earlier {
      WeekRises(sorted, earlier - 1);
      InterpolationIsMonotone(sorted, earlier - 1, later);
    }
  }
}
