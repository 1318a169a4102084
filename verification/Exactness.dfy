/** When the estimate at completion of a curated scenario (scripts/generator/curated.ts) lands exactly on
    its target: what emission adds to it, from the checkpoints alone. */
module Exactness {
  import opened Curated
  import opened Interpolation
  import Money

  // ---------------------------------------------------------------------------------------------
  // What emission adds, week by week
  // ---------------------------------------------------------------------------------------------

  /** What the two rows of a week's cost add to the step the cost takes: a step down is emitted as nothing. */
  function CostMiss(step: real): real {
    Money.Amount(Emitted(step * 0.9) + Emitted(step * 0.1)) - step
  }

  function EtcMiss(etc: real): real {
    Money.Amount(Emitted(etc * 0.88) + Emitted(etc * 0.12)) - etc
  }

  function CommitmentMiss(committed: real): real {
    Money.Amount(Emitted(committed)) - committed
  }

  function Step(sc: Scenario, wb: nat): real
    requires sc.Valid() && wb <= sc.Horizon()
  {
    sc.At(wb).costToDate - PrevCost(sc, wb)
  }

  function Missed(sc: Scenario, wb: nat): real
    requires sc.Valid() && wb <= sc.Horizon()
    decreases sc.Horizon() - wb
  {
    (if wb == sc.Horizon() then 0.0 else Missed(sc, wb + 1))
    + if sc.Date(wb) >= sc.start then CostMiss(Step(sc, wb)) else 0.0
  }

  lemma MissIsResidue(x: real)
    ensures Money.NotNegative(x) + CostResidue(Money.NotNegative(x)) == x + CostMiss(x)
    ensures Money.NotNegative(x) + EtcResidue(x) == x + EtcMiss(x)
    ensures Money.NotNegative(x) + CommitmentResidue(x) == x + CommitmentMiss(x)
  {
    hide Money.Amount;
    if x < 0.0 { NothingEmitted(x); }
  }

  lemma NothingEmitted(x: real)
    requires x < 0.0
    ensures Emitted(x * 0.9) == Emitted(x * 0.1) == Emitted(0.0) == 0
  {
  }

  /** Whatever the costs do, what is emitted is the interpolated cost and what emission adds. */
  lemma {:induction false} SpentAndMissed(sc: Scenario, wb: nat)
    requires sc.Valid() && wb <= sc.Horizon()
    ensures Spent(sc, wb) + Drift(sc, wb)
         == (if sc.Date(wb) >= sc.start then sc.At(wb).costToDate else 0.0) + Missed(sc, wb)
    decreases sc.Horizon() - wb
  {
    hide InSorted, Sorted, CostResidue, CostMiss;
    if wb < sc.Horizon() { SpentAndMissed(sc, wb + 1); }
    if sc.Date(wb) >= sc.start {
      MissIsResidue(Step(sc, wb));
    }
  }

  /** At every week that restates, the estimate at completion is that week's target and what emission
      adds: no condition on the checkpoints. */
  lemma EacMissesBy(sc: Scenario, wb: nat)
    requires sc.Valid() && wb <= sc.Horizon() && Restated(sc, wb) && sc.Date(wb) >= sc.start
    ensures EacAt(Down(sc, sc.Horizon() + 1), sc.Date(wb)) - TargetAt(sc, wb)
         == Missed(sc, wb) + EtcMiss(sc.At(wb).etc) + CommitmentMiss(sc.At(wb).committed)
  {
    hide Down, InSorted, Sorted, Restated, EtcResidue, CommitmentResidue, EtcMiss, CommitmentMiss, CostMiss,
      CostResidue, Spent, Drift, Missed, EacAt;
    EacIsAccountedFor(sc, wb);
    SpentAndMissed(sc, wb);
    MissIsResidue(sc.At(wb).etc);
    MissIsResidue(sc.At(wb).committed);
  }

  // ---------------------------------------------------------------------------------------------
  // What emission adds, from the checkpoints
  // ---------------------------------------------------------------------------------------------

  /** The first emitted week: the horizon's, or the one the project starts in. */
  function First(sc: Scenario): (first: nat)
    requires sc.Valid() && sc.start <= sc.asOf
    ensures first <= sc.Horizon()
    ensures forall wb: nat :: wb <= sc.Horizon() ==> (sc.Date(wb) >= sc.start <==> wb <= first)
  {
    var weeks := (sc.asOf - sc.start) / 7;
    if weeks < sc.Horizon() then weeks else sc.Horizon()
  }

  /** The cost of every week between two checkpoints. */
  function Pace(a: Checkpoint, b: Checkpoint): real {
    if a.weeksBefore <= b.weeksBefore then 0.0
    else (b.costToDate - a.costToDate) / (a.weeksBefore - b.weeksBefore) as real
  }

  /** What the last of several checkpoints in one week adds to the cost of that week. */
  function Jump(sc: Scenario, k: nat): real
    requires sc.Valid() && k < |sc.Points()|
  {
    sc.Points()[k].costToDate - sc.At(sc.Points()[k].weeksBefore).costToDate
  }

  /** What `n` weeks from where a segment is entered add: all at its pace, but for the jump. */
  function PartMiss(sc: Scenario, k: nat, n: nat): real
    requires sc.Valid() && k + 1 < |sc.Points()| && sc.start <= sc.asOf
  {
    if n == 0 then 0.0 else
    var a, pace := sc.Points()[k], Pace(sc.Points()[k], sc.Points()[k + 1]);
    CostMiss(pace + if a.weeksBefore <= First(sc) then Jump(sc, k) else 0.0)
      + Money.Portion(CostMiss(pace), (n - 1) as real)
  }

  /** What the emitted weeks add from the first down to checkpoint `k`: the opening cost, and segment by
      segment the weeks of each. */
  function MissedTo(sc: Scenario, k: nat): real
    requires sc.Valid() && k < |sc.Points()| && sc.start <= sc.asOf
    decreases k
  {
    var first, wb := First(sc), sc.Points()[k].weeksBefore;
    if k == 0 || wb >= first then CostMiss(sc.At(first).costToDate) else
    var from := if sc.Points()[k - 1].weeksBefore < first then sc.Points()[k - 1].weeksBefore else first;
    MissedTo(sc, k - 1) + PartMiss(sc, k - 1, if from < wb then 0 else from - wb)
  }

  lemma PaceAlongLine(a: Checkpoint, b: Checkpoint, w: nat)
    requires b.weeksBefore <= w < a.weeksBefore
    ensures LineCost(a, b, w) - LineCost(a, b, w + 1) == Pace(a, b)
  {
    hide Lerp;
    var d, span := b.costToDate - a.costToDate, (a.weeksBefore - b.weeksBefore) as real;
    LerpDiffers(a.costToDate, b.costToDate, ShareOf(a, b, w), ShareOf(a, b, w + 1));
    assert ShareOf(a, b, w) == (a.weeksBefore - w) as real / span;
    assert ShareOf(a, b, w + 1) == (a.weeksBefore - w - 1) as real / span;
    OneShare((a.weeksBefore - w) as real, span);
    assert d * (1.0 / span) == d / span;
  }

  lemma LerpDiffers(x: real, y: real, t: real, u: real)
    ensures Lerp(x, y, t) - Lerp(x, y, u) == (y - x) * (t - u)
  {
  }

  lemma OneShare(n: real, span: real)
    requires span > 0.0
    ensures n / span - (n - 1.0) / span == 1.0 / span
  {
  }

  lemma LineStarts(a: Checkpoint, b: Checkpoint)
    requires b.weeksBefore < a.weeksBefore
    ensures LineCost(a, b, a.weeksBefore) == a.costToDate && LineCost(a, b, b.weeksBefore) == b.costToDate
  {
    hide Lerp;
    LerpEnds(a.costToDate, b.costToDate);
    LineEnds(a, b);
    assert 0.0 / (a.weeksBefore - b.weeksBefore) as real == 0.0;
  }

  /** Of the checkpoints down to `k`, those in the last week have the last one's cost. */
  predicate LastIsLast(sorted: seq<Checkpoint>, k: nat)
    requires k < |sorted|
  {
    var last := sorted[|sorted| - 1];
    forall j :: 0 <= j <= k && sorted[j].weeksBefore == last.weeksBefore ==> sorted[j].costToDate == last.costToDate
  }

  lemma CostOnLine(sorted: seq<Checkpoint>, k: nat, w: nat)
    requires Descends(sorted) && k + 1 < |sorted| && LastIsLast(sorted, k + 1)
    requires sorted[k + 1].weeksBefore <= w < sorted[k].weeksBefore
    ensures InSorted(sorted, w).costToDate == LineCost(sorted[k], sorted[k + 1], w)
  {
    hide Search, Between, ShareOf;
    var last := sorted[|sorted| - 1];
    if last.weeksBefore < w {
      OnTheLine(sorted, k, w);
    } else {
      LineStarts(sorted[k], sorted[k + 1]);
      assert sorted[k + 1].weeksBefore >= last.weeksBefore;
      assert sorted[0].weeksBefore >= sorted[k].weeksBefore;
    }
  }

  /** Every week of a segment steps by its pace, and the one that enters it by the jump as well. */
  lemma StepInSegment(sc: Scenario, k: nat, w: nat)
    requires sc.Valid() && sc.start <= sc.asOf && k + 1 < |sc.Points()| && LastIsLast(sc.Points(), k + 1)
    requires sc.Points()[k + 1].weeksBefore <= w < sc.Points()[k].weeksBefore && w < First(sc)
    ensures Step(sc, w)
         == Pace(sc.Points()[k], sc.Points()[k + 1]) + if w + 1 == sc.Points()[k].weeksBefore then Jump(sc, k) else 0.0
  {
    hide InSorted, Sorted, Between, ShareOf, LineCost, Pace;
    var s := sc.Points();
    SortKeeps(sc.checkpoints);
    CostOnLine(s, k, w);
    PaceAlongLine(s[k], s[k + 1], w);
    if w + 1 < s[k].weeksBefore {
      CostOnLine(s, k, w + 1);
    } else {
      LineStarts(s[k], s[k + 1]);
    }
  }

  lemma MissedSteps(sc: Scenario, w: nat)
    requires sc.Valid() && sc.start <= sc.asOf && w <= First(sc)
    ensures w < First(sc) ==> Missed(sc, w) == Missed(sc, w + 1) + CostMiss(Step(sc, w))
    ensures w == First(sc) ==> Missed(sc, w) == CostMiss(sc.At(w).costToDate)
  {
    hide InSorted, Sorted, CostMiss;
    if w == First(sc) && w < sc.Horizon() { NothingMissed(sc, w + 1); }
  }

  lemma {:induction false} NothingMissed(sc: Scenario, wb: nat)
    requires sc.Valid() && wb <= sc.Horizon() && sc.Date(wb) < sc.start
    ensures Missed(sc, wb) == 0.0
    decreases sc.Horizon() - wb
  {
    hide InSorted, Sorted, CostMiss;
    if wb < sc.Horizon() { NothingMissed(sc, wb + 1); }
  }

  lemma OneMoreWeek(sc: Scenario, k: nat, n: nat)
    requires sc.Valid() && k + 1 < |sc.Points()| && sc.start <= sc.asOf
    ensures PartMiss(sc, k, n + 1) == PartMiss(sc, k, n)
         + CostMiss(Pace(sc.Points()[k], sc.Points()[k + 1])
                    + if n == 0 && sc.Points()[k].weeksBefore <= First(sc) then Jump(sc, k) else 0.0)
  {
    hide CostMiss, Pace, Jump, Money.Portion, First;
    var miss := CostMiss(Pace(sc.Points()[k], sc.Points()[k + 1]));
    Money.PortionSplits(miss, 0.0, 0.0);
    if n > 0 {
      Money.PortionSplits(miss, (n - 1) as real, 1.0);
      assert (n - 1) as real + 1.0 == n as real;
    }
  }

  /** So between two checkpoints all weeks together add one number, a week at a time. */
  lemma {:induction false} SegmentMisses(sc: Scenario, k: nat, top: nat, n: nat)
    requires sc.Valid() && sc.start <= sc.asOf && k + 1 < |sc.Points()| && LastIsLast(sc.Points(), k + 1)
    requires top == if sc.Points()[k].weeksBefore < First(sc) then sc.Points()[k].weeksBefore else First(sc)
    requires sc.Points()[k + 1].weeksBefore + n <= top
    ensures Missed(sc, top - n) == Missed(sc, top) + PartMiss(sc, k, n)
    decreases n
  {
    hide Missed, PartMiss, CostMiss, Pace, Jump, InSorted, Sorted, LastIsLast;
    if n == 0 {
      NoPart(sc, k);
    } else {
      SegmentMisses(sc, k, top, n - 1);
      OneMoreWeek(sc, k, n - 1);
      StepInSegment(sc, k, top - n);
      MissedSteps(sc, top - n);
    }
  }

  lemma NoPart(sc: Scenario, k: nat)
    requires sc.Valid() && sc.start <= sc.asOf && k + 1 < |sc.Points()|
    ensures PartMiss(sc, k, 0) == 0.0
  {
  }

  lemma {:induction false} MissedFromCheckpoints(sc: Scenario, k: nat)
    requires sc.Valid() && sc.start <= sc.asOf && k < |sc.Points()| && LastIsLast(sc.Points(), k)
    requires sc.Points()[k].weeksBefore <= First(sc)
    ensures Missed(sc, sc.Points()[k].weeksBefore) == MissedTo(sc, k)
    decreases k
  {
    hide Missed, PartMiss, CostMiss, InSorted, Sorted;
    var first, s := First(sc), sc.Points();
    SortKeeps(sc.checkpoints);
    MissedSteps(sc, first);
    if s[k].weeksBefore < first {
      var top := if s[k - 1].weeksBefore < first then s[k - 1].weeksBefore else first;
      assert s[k - 1].weeksBefore >= s[k].weeksBefore;
      if s[k - 1].weeksBefore <= first {
        MissedFromCheckpoints(sc, k - 1);
      }
      SegmentMisses(sc, k - 1, top, top - s[k].weeksBefore);
    }
  }

  // ---------------------------------------------------------------------------------------------
  // When it lands exactly
  // ---------------------------------------------------------------------------------------------

  /** Checkpoint `k` is of a week that is emitted and has no other. */
  predicate Targeted(sc: Scenario, k: nat)
    requires sc.Valid()
  {
    && k < |sc.Points()| && sc.Date(sc.Points()[k].weeksBefore) >= sc.start
    && forall c :: c in sc.checkpoints && c.weeksBefore == sc.Points()[k].weeksBefore ==> c == sc.Points()[k]
  }

  /** What emission adds to the target of a checkpoint, computed from the checkpoints. */
  function TargetMiss(sc: Scenario, k: nat): real
    requires sc.Valid() && sc.start <= sc.asOf && k < |sc.Points()|
  {
    MissedTo(sc, k) + EtcMiss(sc.Points()[k].etc) + CommitmentMiss(sc.Points()[k].committed)
  }

  lemma TargetedIsLast(sc: Scenario, k: nat)
    requires sc.Valid() && Targeted(sc, k)
    ensures sc.start <= sc.asOf && sc.Points()[k].weeksBefore <= First(sc) && LastIsLast(sc.Points(), k)
    ensures sc.At(sc.Points()[k].weeksBefore) == sc.Points()[k] && Restated(sc, sc.Points()[k].weeksBefore)
  {
    hide InSorted, Sorted, Restated;
    var s, c := sc.Points(), sc.Points()[k];
    SortHolds(sc.checkpoints, c);
    SortKeeps(sc.checkpoints);
    ExactAtCheckpoints(sc.checkpoints, c);
    IsRestated(sc, c);
    WithinHorizon(sc, c);
    assert sc.asOf >= sc.Date(c.weeksBefore);
    var last := s[|s| - 1];
    assert c.weeksBefore >= last.weeksBefore;
    forall j | 0 <= j <= k && s[j].weeksBefore == last.weeksBefore ensures s[j].costToDate == last.costToDate {
      assert s[j].weeksBefore >= c.weeksBefore;
      SortHolds(sc.checkpoints, s[j]);
      SortHolds(sc.checkpoints, last);
    }
  }

  /** The estimate at completion lands exactly on the target of a checkpoint if and only if what the
      checkpoints make emission add is nothing; a target that is met is of whole cents. */
  lemma EacIsExactIff(sc: Scenario, k: nat)
    requires sc.Valid() && Targeted(sc, k)
    ensures sc.start <= sc.asOf
    ensures var c := sc.Points()[k];
      var eac, target := EacAt(Down(sc, sc.Horizon() + 1), sc.Date(c.weeksBefore)), c.costToDate + c.etc + c.committed;
      && eac == target + TargetMiss(sc, k)
      && (eac == target <==> TargetMiss(sc, k) == 0.0)
      && (eac == target ==> WholeCents(target))
  {
    hide Down, Sorted, InSorted, Missed, MissedTo, EtcMiss, CommitmentMiss, WholeCents, LatestTotal, TotalTo,
      Money.Amount, Restated, LastIsLast;
    var wb := sc.Points()[k].weeksBefore;
    TargetedIsLast(sc, k);
    EacMissesBy(sc, wb);
    MissedFromCheckpoints(sc, k);
    EacIsWhole(Down(sc, sc.Horizon() + 1), sc.Date(wb));
  }

  lemma EacIsWhole(f: Facts, cut: int)
    ensures WholeCents(EacAt(f, cut))
  {
    hide WholeCents, LatestTotal, TotalTo, Money.Amount;
    var a, b, c := TotalTo(f.costs, cut), LatestTotal(f.etcs, cut), LatestTotal(f.commitments, cut);
    Money.AmountsAdd(a, b);
    Money.AmountsAdd(a + b, c);
    AmountIsWhole(a + b + c);
  }


  predicate WholeCents(x: real) {
    Money.Amount(Money.Cents(x)) == x
  }

  /** Of whole cents the two cost rows keep all but a final five: nine tenths and one tenth of it are both
      a half, and both go up.  Of a part of a cent nothing is kept. */
  lemma CostResidueIs(x: real)
    requires x >= 0.0
    ensures CostResidue(x) == 0.0 <==> WholeCents(x) && Money.Cents(x) % 10 != 5
    ensures WholeCents(x) && Money.Cents(x) % 10 == 5 ==> CostResidue(x) == 0.01
  {
    if WholeCents(x) {
      NineTenths(Money.Cents(x), x);
    } else {
      NotAnAmount(x, Emitted(x * 0.9) + Emitted(x * 0.1));
    }
  }

  /** A share of whole cents is rounded as the integers say. */
  lemma SharesRound(y: real, m: nat, d: nat)
    requires d > 0 && 100.0 * y * d as real == m as real
    ensures Emitted(y) == (2 * m + d) / (2 * d)
  {
    var q, r := (2 * m + d) / (2 * d), (2 * m + d) % (2 * d);
    Whole(2 * m + d, 2 * d, q, r);
    var x := 100.0 * y + 0.5;
    assert x * (2 * d) as real == (2 * m + d) as real;
    FloorOfShare(x, 2 * d, q, r);
    SignOfShare(100.0 * y, d as real);
  }

  lemma SignOfShare(x: real, d: real)
    requires d > 0.0
    ensures x * d >= 0.0 <==> x >= 0.0
  {
    if x < 0.0 {
      assert (-x) * d > 0.0;
    }
  }

  lemma Whole(n: nat, d: nat, q: nat, r: nat)
    requires d > 0 && q == n / d && r == n % d
    ensures n as real == q as real * d as real + r as real && r < d
  {
    assert n == q * d + r;
  }

  lemma FloorOfShare(x: real, d: nat, q: nat, r: nat)
    requires d > 0 && r < d && x * d as real == q as real * d as real + r as real
    ensures x.Floor == q
  {
    var part := x - q as real;
    assert part * d as real == r as real;
    assert (part - 1.0) * d as real == r as real - d as real;
    SignOfShare(part, d as real);
    SignOfShare(part - 1.0, d as real);
  }

  lemma NineTenths(n: nat, x: real)
    requires x == Money.Amount(n)
    ensures Emitted(x * 0.9) + Emitted(x * 0.1) == if n % 10 == 5 then n + 1 else n
  {
    hide Emitted;
    SharesRound(x * 0.9, 9 * n, 10);
    SharesRound(x * 0.1, n, 10);
    Tenths(n / 10, n % 10);
  }

  lemma Tenths(q: nat, r: nat)
    requires r < 10
    ensures (2 * (9 * (10 * q + r)) + 10) / 20 + (2 * (10 * q + r) + 10) / 20
         == 10 * q + r + if r == 5 then 1 else 0
  {
    assert (2 * (9 * (10 * q + r)) + 10) / 20 == 9 * q + (18 * r + 10) / 20;
    assert (2 * (10 * q + r) + 10) / 20 == q + (2 * r + 10) / 20;
  }

  /** Of whole cents the two estimate rows keep all: no share of 25 parts is a half. */
  lemma EtcResidueIs(x: real)
    requires x >= 0.0
    ensures EtcResidue(x) == 0.0 <==> WholeCents(x)
  {
    if WholeCents(x) {
      TwentyFifths(Money.Cents(x), x);
    } else {
      NotAnAmount(x, Emitted(x * 0.88) + Emitted(x * 0.12));
    }
  }

  lemma TwentyFifths(n: nat, x: real)
    requires x == Money.Amount(n)
    ensures Emitted(x * 0.88) + Emitted(x * 0.12) == n
  {
    hide Emitted;
    SharesRound(x * 0.88, 22 * n, 25);
    SharesRound(x * 0.12, 3 * n, 25);
    TwoShares(n, 3 * n / 25, 3 * n % 25);
  }

  /** `22 n / 25` and `3 n / 25` sum to `n`, and so do their nearest whole numbers. */
  lemma TwoShares(n: nat, q: nat, r: nat)
    requires 3 * n == 25 * q + r && r < 25
    ensures (2 * (22 * n) + 25) / 50 + (2 * (3 * n) + 25) / 50 == n
  {
    assert 2 * (22 * n) + 25 == 50 * (n - q) + (25 - 2 * r);
    assert 2 * (3 * n) + 25 == 50 * q + (2 * r + 25);
    assert (50 * (n - q) + (25 - 2 * r)) / 50 == n - q + (25 - 2 * r) / 50;
    assert (50 * q + (2 * r + 25)) / 50 == q + (2 * r + 25) / 50;
  }

  lemma CommitmentResidueIs(x: real)
    requires x >= 0.0
    ensures CommitmentResidue(x) == 0.0 <==> WholeCents(x)
  {
  }

  lemma NotAnAmount(x: real, n: int)
    requires !WholeCents(x)
    ensures Money.Amount(n) != x
  {
    Money.CentsAreExact(n);
  }

  /** Every emitted week down to `wb` spends whole cents. */
  predicate WholeWeeks(sc: Scenario, wb: nat)
    requires sc.Valid() && wb <= sc.Horizon()
    decreases sc.Horizon() - wb
  {
    && (wb < sc.Horizon() ==> WholeWeeks(sc, wb + 1))
    && (sc.Date(wb) >= sc.start ==> WholeCents(WeekCost(sc, wb)))
  }

  /** How many of them spend an amount that ends in five cents. */
  function Fives(sc: Scenario, wb: nat): nat
    requires sc.Valid() && wb <= sc.Horizon()
    decreases sc.Horizon() - wb
  {
    (if wb == sc.Horizon() then 0 else Fives(sc, wb + 1))
    + if sc.Date(wb) >= sc.start && Money.Cents(WeekCost(sc, wb)) % 10 == 5 then 1 else 0
  }

  lemma {:induction false} DriftOfWholeWeeks(sc: Scenario, wb: nat)
    requires sc.Valid() && wb <= sc.Horizon() && WholeWeeks(sc, wb)
    ensures Drift(sc, wb) == 0.01 * Fives(sc, wb) as real
    decreases sc.Horizon() - wb
  {
    hide InSorted, Sorted, CostResidue, WholeCents, Money.Cents;
    if wb < sc.Horizon() { DriftOfWholeWeeks(sc, wb + 1); }
    CostResidueIs(WeekCost(sc, wb));
  }

  /** In whole cents the estimate at completion is above its target by one cent for each week whose cost
      ends in five cents, so it lands exactly on the target if and only if there is no such week. */
  lemma EacInWholeCents(sc: Scenario, c: Checkpoint)
    requires sc.Valid() && OnPlan(sc, c) && c.weeksBefore <= sc.Horizon()
    requires WholeWeeks(sc, c.weeksBefore) && WholeCents(c.etc) && WholeCents(c.committed)
    ensures var eac, target := EacAt(Down(sc, sc.Horizon() + 1), sc.Date(c.weeksBefore)),
      c.costToDate + c.etc + c.committed;
      && eac == target + 0.01 * Fives(sc, c.weeksBefore) as real
      && (eac == target <==> Fives(sc, c.weeksBefore) == 0)
  {
    hide Down, Sorted, InSorted, EacAt, Drift, Fives, WholeWeeks, EtcResidue, CommitmentResidue, Plausible, Estimated,
      WholeCents;
    OnPlanIsEstimated(sc, c);
    EacMissesByRounding(sc, c.weeksBefore);
    DriftOfWholeWeeks(sc, c.weeksBefore);
    EtcResidueIs(c.etc);
    CommitmentResidueIs(c.committed);
  }

  lemma AmountIsWhole(n: int)
    ensures WholeCents(Money.Amount(n))
  {
    Money.CentsAreExact(n);
  }

  // ---------------------------------------------------------------------------------------------
  // Scenarios that miss, and one that does not
  // ---------------------------------------------------------------------------------------------

  /** Every checkpoint in a week of its own, and given in order. */
  predicate InTurn(s: seq<Checkpoint>) {
    forall i, j :: 0 <= i < j < |s| ==> s[i].weeksBefore > s[j].weeksBefore
  }

  lemma InsertLast(sorted: seq<Checkpoint>, c: Checkpoint)
    requires sorted == [] || sorted[|sorted| - 1].weeksBefore >= c.weeksBefore
    ensures Insert(sorted, c) == sorted + [c]
  {
  }

  lemma {:induction false} InOrder(s: seq<Checkpoint>)
    requires InTurn(s)
    ensures Sorted(s) == s
    decreases |s|
  {
    hide Insert;
    if s != [] {
      var front, last := s[..|s| - 1], s[|s| - 1];
      InOrder(front);
      InsertLast(front, last);
      assert s == front + [last];
    }
  }

  /** A scenario whose checkpoints are in turn and all emitted. */
  predicate AllEmitted(sc: Scenario) {
    sc.Valid() && InTurn(sc.checkpoints) && sc.start <= sc.Date(sc.checkpoints[0].weeksBefore)
  }

  lemma StartsAtHorizon(sc: Scenario)
    requires AllEmitted(sc)
    ensures sc.Points() == sc.checkpoints && sc.start <= sc.asOf && First(sc) == sc.Horizon()
    ensures MissedTo(sc, 0) == CostMiss(sc.checkpoints[0].costToDate)
  {
    hide CostMiss, Sorted;
    InOrder(sc.checkpoints);
  }

  lemma WeekTellsPlace(s: seq<Checkpoint>, j: nat, k: nat)
    requires InTurn(s) && j < |s| && k < |s| && s[j].weeksBefore == s[k].weeksBefore
    ensures j == k
  {
  }

  lemma AllTargeted(sc: Scenario, k: nat)
    requires AllEmitted(sc) && k < |sc.checkpoints|
    ensures sc.Points() == sc.checkpoints && Targeted(sc, k) && Jump(sc, k) == 0.0
  {
    hide Sorted, InSorted;
    StartsAtHorizon(sc);
    var s := sc.checkpoints;
    assert s[k].weeksBefore <= s[0].weeksBefore;
    forall c | c in s && c.weeksBefore == s[k].weeksBefore ensures c == s[k] {
      var j :| 0 <= j < |s| && s[j] == c;
      WeekTellsPlace(s, j, k);
    }
    TargetedIsLast(sc, k);
  }

  /** From one checkpoint to the next the weeks all add the same. */
  lemma NextCheckpoint(sc: Scenario, k: nat, miss: real)
    requires AllEmitted(sc) && k + 1 < |sc.checkpoints|
      && miss == CostMiss(Pace(sc.checkpoints[k], sc.checkpoints[k + 1]))
    ensures sc.start <= sc.asOf && sc.Points() == sc.checkpoints
    ensures MissedTo(sc, k + 1) == MissedTo(sc, k)
         + Money.Portion(miss, (sc.checkpoints[k].weeksBefore - sc.checkpoints[k + 1].weeksBefore) as real)
  {
    hide Sorted, InSorted, CostMiss, Pace, Money.Portion, Jump;
    var s := sc.checkpoints;
    StartsAtHorizon(sc);
    AllTargeted(sc, k);
    assert s[0].weeksBefore >= s[k].weeksBefore > s[k + 1].weeksBefore;
    var n := s[k].weeksBefore - s[k + 1].weeksBefore;
    Money.PortionSplits(miss, (n - 1) as real, 1.0);
    assert (n - 1) as real + 1.0 == n as real;
  }

  /** The checkpoints of the scenario of the healthy reference (scripts/generator/curated.ts:139-145). */
  function HealthyReference(): seq<Checkpoint> {
    [Checkpoint(36, 0.30, 0.29, 700000.0, 1760000.0, 20000.0, 4000.0, 0.0),
     Checkpoint(24, 0.41, 0.40, 970000.0, 1460000.0, 40000.0, 9000.0, 0.0),
     Checkpoint(12, 0.52, 0.51, 1220000.0, 1200000.0, 55000.0, 16000.0, 0.0),
     Checkpoint(0, 0.62, 0.60, 1470000.0, 950000.0, 60000.0, 22000.0, 0.0)]
  }

  /** Its first two targets are met.  Then twelve weeks of 20833 and a third lose a third of a cent each, and
      twelve more as much again. */
  lemma HealthyReferenceMisses(sc: Scenario)
    requires sc.checkpoints == HealthyReference() && sc.start <= sc.Date(36)
    ensures sc.Valid()
    ensures var f := Down(sc, sc.Horizon() + 1);
      && EacAt(f, sc.Date(36)) == 2480000.0 && EacAt(f, sc.Date(24)) == 2470000.0
      && EacAt(f, sc.Date(12)) == 2475000.0 - 0.04 && EacAt(f, sc.asOf) == 2480000.0 - 0.08
  {
    hide Down, EacAt, MissedTo, Sorted, InSorted, CostMiss, EtcMiss, CommitmentMiss, Pace, Targeted;
    StartsAtHorizon(sc);
    WeeksOfReference();
    NextCheckpoint(sc, 0, 0.0);
    NextCheckpoint(sc, 1, -0.01 / 3.0);
    NextCheckpoint(sc, 2, -0.01 / 3.0);
    TargetOf(sc, 0, 1760000.0, 20000.0);
    TargetOf(sc, 1, 1460000.0, 40000.0);
    TargetOf(sc, 2, 1200000.0, 55000.0);
    TargetOf(sc, 3, 950000.0, 60000.0);
  }

  /** Where estimate and commitment are of whole cents only the weeks add anything. */
  lemma TargetOf(sc: Scenario, k: nat, etc: real, committed: real)
    requires AllEmitted(sc) && k < |sc.checkpoints| && sc.checkpoints[k].etc == etc
      && sc.checkpoints[k].committed == committed
    requires etc >= 0.0 && committed >= 0.0 && WholeCents(etc) && WholeCents(committed)
    ensures sc.start <= sc.asOf && sc.Points() == sc.checkpoints
    ensures EacAt(Down(sc, sc.Horizon() + 1), sc.Date(sc.checkpoints[k].weeksBefore))
         == sc.checkpoints[k].costToDate + etc + committed + MissedTo(sc, k)
  {
    hide Down, EacAt, MissedTo, Sorted, InSorted, WholeCents, EtcResidue, CommitmentResidue, EtcMiss, CommitmentMiss,
      CostMiss, CostResidue;
    AllTargeted(sc, k);
    EtcResidueIs(etc);
    CommitmentResidueIs(committed);
    MissIsResidue(etc);
    MissIsResidue(committed);
    EacIsExactIff(sc, k);
  }

  lemma CostMissIs(step: real, labour: int, other: int)
    requires labour as real <= 90.0 * step + 0.5 < labour as real + 1.0 && step >= 0.0
    requires other as real <= 10.0 * step + 0.5 < other as real + 1.0
    ensures CostMiss(step) == Money.Amount(labour + other) - step
  {
    hide Emitted, Money.Amount;
    EmittedIs(step * 0.9, labour);
    EmittedIs(step * 0.1, other);
  }

  lemma EmittedIs(x: real, cents: int)
    requires cents as real <= 100.0 * x + 0.5 < cents as real + 1.0 && x >= 0.0
    ensures Emitted(x) == cents
  {
  }

  lemma WeeksOfReference()
    ensures CostMiss(700000.0) == 0.0
    ensures CostMiss(Pace(HealthyReference()[0], HealthyReference()[1])) == 0.0
    ensures CostMiss(Pace(HealthyReference()[1], HealthyReference()[2])) == -0.01 / 3.0
    ensures CostMiss(Pace(HealthyReference()[2], HealthyReference()[3])) == -0.01 / 3.0
  {
    hide CostMiss;
    CostMissIs(700000.0, 63000000, 7000000);
    CostMissIs(22500.0, 2025000, 225000);
    CostMissIs(250000.0 / 12.0, 1875000, 208333);
  }

  /** The least that misses: five cents of cost are emitted as five and one. */
  lemma EacCanMissItsTarget(sc: Scenario, c: Checkpoint)
    requires sc.checkpoints == [c] && c.weeksBefore == 0 && c.costToDate == 0.05 && c.etc == 0.0 && c.committed == 0.0
    requires sc.start <= sc.asOf
    ensures sc.Valid() && EacAt(Down(sc, sc.Horizon() + 1), sc.asOf) == 0.06
  {
    hide Down, EacAt, MissedTo, Sorted, InSorted, CostMiss, WholeCents, Targeted;
    StartsAtHorizon(sc);
    CostMissIs(0.05, 5, 1);
    NotWhole();
    TargetOf(sc, 0, 0.0, 0.0);
  }

  /** Two segments can cancel: weeks of 0.6 and of 1.4 cents, one of each, are emitted as two cents.  So a
      target can be met though no week spends whole cents. */
  lemma SegmentsCanCancel(sc: Scenario, a: Checkpoint, b: Checkpoint, c: Checkpoint)
    requires sc.checkpoints == [a, b, c] && a.weeksBefore == 2 && b.weeksBefore == 1 && c.weeksBefore == 0
    requires a.costToDate == 0.0 && b.costToDate == 0.006 && c.costToDate == 0.02 && c.etc == c.committed == 0.0
    requires sc.start <= sc.Date(2)
    ensures !WholeCents(Pace(a, b)) && !WholeCents(Pace(b, c))
    ensures sc.Valid() && EacAt(Down(sc, sc.Horizon() + 1), sc.asOf) == 0.02
  {
    hide Down, EacAt, MissedTo, Sorted, InSorted, CostMiss, WholeCents, Targeted;
    assert Pace(a, b) == 0.006 && Pace(b, c) == 0.014;
    StartsAtHorizon(sc);
    CostMissIs(0.0, 0, 0);
    CostMissIs(0.006, 1, 0);
    CostMissIs(0.014, 1, 0);
    NotWhole();
    NextCheckpoint(sc, 0, 0.004);
    NextCheckpoint(sc, 1, -0.004);
    TargetOf(sc, 2, 0.0, 0.0);
  }

  lemma NotWhole()
    ensures !WholeCents(0.006) && !WholeCents(0.014) && WholeCents(0.0)
  {
  }
}
