/** What each driver of the weekly loop does (scripts/generator/simulate.ts): recovery, dependencies, rework,
    defects and the catching up of an overrun, week by week and over whole runs. */
module DriverLaws {
  import opened Delivery
  import opened Wrappers
  import Money
  import Rng
  import SCurve

  // ---------------------------------------------------------------------------------------------
  // Recovery and the opening week
  // ---------------------------------------------------------------------------------------------

  /** Recovery begins where the project is and takes 3.5 points a week off its distance to the healthy
      baseline, until after twenty-two weeks a quarter of it is left; before, nothing changes. */
  lemma RecoveryIsGradual(dr: Drivers, week: nat)
    ensures var t := RecoveryTaper(dr, week);
      && (!InRecovery(dr, week) ==> t == 1.0)
      && (InRecovery(dr, week) ==>
            var k := week - dr.recoveryFromWeek.value;
            t == if k < 22 then 1.0 - 0.035 * k as real else 0.25)
      && DefectIntake(dr, week) - 0.9 == Money.Portion(dr.defectInjectionPer100h - 0.9, t)
      && ReworkPerDefect(dr, week) - 1.4 == Money.Portion(dr.reworkHoursPerDefectWeek - 1.4, t)
  {
  }

  /** A project with drag starts 6% behind its plan, and at 4% above the cost of what it has done; any starts
      without rework, open defects or dependencies. */
  lemma OpeningIs(spec: Spec, dr: Drivers, first: nat)
    requires spec.Valid()
    ensures var work := Opening(spec, dr, first);
      && work.reworkHours == 0.0 && work.openMajorDefects == 0 && work.blockedUntil == None
      && var done := Money.Portion(spec.budgetedCost, work.physical);
         work.costToDate == if dr.productivityDrag > 1.0 then 1.04 * done else done
  {
    hide PlannedAt;
  }

  // ---------------------------------------------------------------------------------------------
  // Dependencies
  // ---------------------------------------------------------------------------------------------

  /** An open dependency ends at the start of one of the five weeks to come. */
  lemma {:induction false} SpellsEnd(spec: Spec, dr: Drivers, draws: nat -> Draws, first: nat, n: nat)
    requires spec.Valid() && AllValid(draws)
    ensures var until := Run(spec, dr, draws, first, n).blockedUntil;
      until.Some? ==> first + n <= until.value <= first + n + 4
    decreases n
  {
    hide PlannedAt, HoursOf, Opening, ProgressIncrement, Labour, NonLabour, OpenMajorDefects, Rng.Int, Rng.Chance;
    if n == 0 {
      StartOfRun(spec, dr, draws, first);
      OpeningIs(spec, dr, first);
    } else {
      SpellsEnd(spec, dr, draws, first, n - 1);
      assert Uniform(draws(first + n - 1).blockWeeks);
      Rng.IntBounds(draws(first + n - 1).blockWeeks, 1, 5);
    }
  }

  /** In every week of every run effort is blocked if and only if a dependency is open and not ending, or none
      is and one is opened by a draw below the declared chance, of which recovery leaves 35%; and then 15% to
      45% of it is. */
  lemma WeekIsBlockedIff(spec: Spec, dr: Drivers, draws: nat -> Draws, first: nat, n: nat)
    requires spec.Valid() && AllValid(draws)
    ensures var week, work := first + n, Run(spec, dr, draws, first, n);
      var blocked := BlockedFraction(dr, draws(week), work, week);
      && (blocked > 0.0 <==>
            var left := if InRecovery(dr, week) then 0.35 else 1.0;
            if work.blockedUntil.Some? then week < work.blockedUntil.value
            else draws(week).block < Money.Portion(dr.dependencyBlockChance, left))
      && (blocked == 0.0 || 0.15 <= blocked <= 0.45)
  {
    hide Run, Rng.Int, Rng.Range;
    var week, work := first + n, Run(spec, dr, draws, first, n);
    SpellsEnd(spec, dr, draws, first, n);
    assert Uniform(draws(week).blockWeeks) && Uniform(draws(week).blocked);
    Rng.IntBounds(draws(week).blockWeeks, 1, 5);
    Rng.RangeBounds(draws(week).blocked, 0.15, 0.45);
    var chance := dr.dependencyBlockChance * if InRecovery(dr, week) then 0.35 else 1.0;
    assert chance == Money.Portion(dr.dependencyBlockChance, if InRecovery(dr, week) then 0.35 else 1.0);
  }

  // ---------------------------------------------------------------------------------------------
  // Rework and defects
  // ---------------------------------------------------------------------------------------------

  /** In every run the rework is at most 42% of the hours since the start. */
  lemma {:induction false} ReworkIsShare(spec: Spec, dr: Drivers, draws: nat -> Draws, first: nat, n: nat)
    requires spec.Valid() && dr.Valid() && AllValid(draws)
    ensures var work := Run(spec, dr, draws, first, n);
      0.0 <= work.reworkHours <= 0.42 * (work.totalHours - Opening(spec, dr, first).totalHours)
    ensures n > 0 ==> Run(spec, dr, draws, first, n - 1).reworkHours <= Run(spec, dr, draws, first, n).reworkHours
    decreases n
  {
    hide PlannedAt, HoursOf, Opening, ProgressIncrement, Labour, NonLabour, OpenMajorDefects, Blocking, GrossHours;
    if n == 0 {
      StartOfRun(spec, dr, draws, first);
      OpeningIs(spec, dr, first);
    } else {
      ReworkIsShare(spec, dr, draws, first, n - 1);
      var week, work := first + n - 1, Run(spec, dr, draws, first, n - 1);
      HoursSplit(spec, dr, draws(week), work, week);
      ReworkIsCapped(spec, dr, draws(week), work, week);
    }
  }

  lemma ReworkIsCapped(spec: Spec, dr: Drivers, d: Draws, work: Work, week: nat)
    requires spec.Valid()
    ensures HoursOf(spec, dr, d, work, week).rework <= 0.42 * HoursOf(spec, dr, d, work, week).gross
  {
    hide GrossHours, WantedRework, BlockedFraction;
  }

  /** To half a defect: 60% to 140% of the intake is injected, of which the serious ones drawn arrive; of all
      that are open then 86% stay where injection is heavy and 70% elsewhere. */
  lemma DefectsFlow(dr: Drivers, d: Draws, open: nat, week: nat, productive: real) returns (arrived: nat)
    requires d.Valid() && productive >= 0.0 && DefectIntake(dr, week) >= 0.0
    ensures var expected := Money.Portion(DefectIntake(dr, week), productive / 100.0);
      && arrived <= d.serious && arrived as real <= 1.4 * expected + 0.5
      && (arrived < d.serious ==> arrived as real >= 0.6 * expected - 0.5)
    ensures var kept := Money.Portion((open + arrived) as real, if dr.defectInjectionPer100h > 2.0 then 0.86 else 0.7);
      -0.5 <= OpenMajorDefects(dr, d, open, week, productive) as real - kept <= 0.5
  {
    hide Rng.Range, DefectIntake, NatRound, Money.Portion;
    var share, expected := Rng.Range(d.injected, 0.6, 1.4), Money.Portion(DefectIntake(dr, week), productive / 100.0);
    Rng.RangeBounds(d.injected, 0.6, 1.4);
    Money.PortionSign(DefectIntake(dr, week), productive / 100.0);
    Between(expected, share);
    NearestNumber(Money.Portion(expected, share));
    var injected := Injected(dr, d, week, productive);
    arrived := if d.serious < injected then d.serious else injected;
    var staying := if dr.defectInjectionPer100h > 2.0 then 0.86 else 0.7;
    Money.PortionSign((open + arrived) as real, staying);
    NearestNumber(Money.Portion((open + arrived) as real, staying));
  }

  lemma Between(expected: real, share: real)
    requires expected >= 0.0 && 0.6 <= share <= 1.4
    ensures 0.6 * expected <= Money.Portion(expected, share) <= 1.4 * expected
  {
    SCurve.Product(expected, share - 0.6);
    SCurve.Product(expected, 1.4 - share);
    assert expected * (share - 0.6) == Money.Portion(expected, share) - 0.6 * expected;
    assert expected * (1.4 - share) == 1.4 * expected - Money.Portion(expected, share);
  }

  lemma NearestNumber(x: real)
    requires x >= 0.0
    ensures -0.5 <= NatRound(x) as real - x <= 0.5
  {
  }

  /** Rounding keeps the last open defect: once a run has one, it always has. */
  lemma {:induction false} DefectsNeverEnd(spec: Spec, dr: Drivers, draws: nat -> Draws, first: nat, m: nat, n: nat)
    requires spec.Valid() && m <= n && Run(spec, dr, draws, first, m).openMajorDefects > 0
    ensures Run(spec, dr, draws, first, n).openMajorDefects > 0
    decreases n - m
  {
    hide PlannedAt, HoursOf, Opening, ProgressIncrement, Labour, NonLabour, OpenMajorDefects, Blocking, GrossHours;
    if m < n {
      DefectsNeverEnd(spec, dr, draws, first, m, n - 1);
      var week, work := first + n - 1, Run(spec, dr, draws, first, n - 1);
      LastDefectStays(dr, draws(week), work.openMajorDefects, week,
        HoursOf(spec, dr, draws(week), work, week).productive);
    }
  }

  lemma LastDefectStays(dr: Drivers, d: Draws, open: nat, week: nat, productive: real)
    requires open > 0
    ensures OpenMajorDefects(dr, d, open, week, productive) > 0
  {
    hide Injected, Money.Portion, NatRound;
    var injected := Injected(dr, d, week, productive);
    var all := open + if d.serious < injected then d.serious else injected;
    AtLeastOne(all, if dr.defectInjectionPer100h > 2.0 then 0.86 else 0.7);
  }

  lemma AtLeastOne(all: nat, staying: real)
    requires all > 0 && staying >= 0.7
    ensures NatRound(Money.Portion(all as real, staying)) > 0
  {
    SCurve.Product(all as real - 1.0, staying);
    assert (all as real - 1.0) * staying == Money.Portion(all as real, staying) - staying;
  }

  // ---------------------------------------------------------------------------------------------
  // Overruns
  // ---------------------------------------------------------------------------------------------

  function Power(x: real, n: nat): real {
    if n == 0 then 1.0 else Power(x, n - 1) * x
  }

  /** Past the planned end, what remains shrinks each week by 28% of the capacity there is. */
  lemma RemainingShrinks(spec: Spec, dr: Drivers, draws: nat -> Draws, first: nat, n: nat)
    requires spec.Valid() && dr.Valid() && AllValid(draws) && first + n >= spec.durationWeeks
    ensures var week, work := first + n, Run(spec, dr, draws, first, n);
      var capacity := HoursOf(spec, dr, draws(week), work, week).Capacity();
      1.0 - Run(spec, dr, draws, first, n + 1).physical == (1.0 - work.physical) * (1.0 - 0.28 * capacity)
  {
    hide PlannedAt, PlannedThisWeek, HoursOf, ProgressIncrement, Drag, InAcceptance, Run;
    var week, work := first + n, Run(spec, dr, draws, first, n);
    var capacity := HoursOf(spec, dr, draws(week), work, week).Capacity();
    RunSteps(spec, dr, draws, first, n + 1);
    PlanLaws(spec, week);
    IncrementPastTheEnd(spec, dr, capacity, work.physical, week);
    CapacityBounds(spec, dr, draws(week), work, week);
    ProgressNeverFalls(spec, dr, draws, first, n);
    SCurve.Product(1.0 - work.physical, 1.0 - 0.28 * capacity);
    Remaining(work.physical, capacity);
  }

  lemma IncrementPastTheEnd(spec: Spec, dr: Drivers, capacity: real, physical: real, week: nat)
    requires spec.Valid() && PlannedThisWeek(spec, week) == 0.0
    ensures ProgressIncrement(spec, dr, capacity, physical, week) == (1.0 - physical) * 0.28 * capacity
  {
    hide PlannedThisWeek, Drag, InAcceptance;
    DragIsFloored(dr, week);
    assert 0.0 * (capacity / Drag(dr, week)) == 0.0;
  }

  lemma Remaining(physical: real, capacity: real)
    ensures (1.0 - physical) * (1.0 - 0.28 * capacity) == 1.0 - (physical + (1.0 - physical) * 0.28 * capacity)
  {
  }

  /** So with full capacity 72% of what remains is left after every week of an overrun. */
  lemma {:induction false} OverrunsConverge(spec: Spec, dr: Drivers, draws: nat -> Draws, first: nat, n: nat)
    requires spec.Valid() && dr.Valid() && AllValid(draws) && first >= spec.durationWeeks
    requires forall k :: 0 <= k < n ==>
        HoursOf(spec, dr, draws(first + k), Run(spec, dr, draws, first, k), first + k).Capacity() == 1.0
    ensures 1.0 - Run(spec, dr, draws, first, n).physical
         == Money.Portion(1.0 - Opening(spec, dr, first).physical, Power(0.72, n))
    decreases n
  {
    hide PlannedAt, HoursOf, Opening, Run;
    StartOfRun(spec, dr, draws, first);
    if n > 0 {
      OverrunsConverge(spec, dr, draws, first, n - 1);
      RemainingShrinks(spec, dr, draws, first, n - 1);
      var k := n - 1;
      assert HoursOf(spec, dr, draws(first + k), Run(spec, dr, draws, first, k), first + k).Capacity() == 1.0;
      Chained(1.0 - Opening(spec, dr, first).physical, Power(0.72, n - 1));
    }
  }

  lemma Chained(x: real, p: real)
    ensures Money.Portion(x, p) * (1.0 - 0.28 * 1.0) == Money.Portion(x, p * 0.72)
  {
  }
}
