/** The weekly hours, progress and cost of scripts/generator/simulate.ts.  Every draw is an arbitrary
    real of [0, 1), every driver an arbitrary value of the ranges the archetypes declare. */
module Delivery {
  import opened Wrappers
  import opened SCurve
  import Money
  import Rng

  datatype Spec = Spec(
    durationWeeks: nat, plannedHours: real, asSoldRate: real, budgetedCost: real, contingencyBudget: real,
    contractValue: real) {

    predicate Valid() {
      && durationWeeks > 0 && plannedHours >= 0.0 && asSoldRate >= 0.0 && budgetedCost >= 0.0
      && contingencyBudget >= 0.0 && contractValue >= 0.0
    }
  }

  datatype Drivers = Drivers(
    productivityDrag: real, productivityDragPerWeek: real, rateDriftPerWeek: real, defectInjectionPer100h: real,
    reworkHoursPerDefectWeek: real, contingencyDrawPerWeek: real, dependencyBlockChance: real,
    scopeCreepPerWeek: real, scopeCommercialisationRate: real, etcOptimism: real, recoveryFromWeek: Option<nat>) {

    predicate Valid() {
      && rateDriftPerWeek >= 0.0 && defectInjectionPer100h >= 0.0 && reworkHoursPerDefectWeek >= 0.0
      && contingencyDrawPerWeek >= 0.0 && scopeCreepPerWeek >= 0.0 && etcOptimism >= 0.0
    }
  }

  /** The draws of one week.  `serious` is how many of its defects are drawn critical or major. */
  datatype Draws = Draws(
    block: real, blockWeeks: real, blocked: real, nonLabour: real, injected: real, serious: nat,
    scope: real, commercialised: real, execute: real, executeDays: real, committed: real) {

    predicate Valid() {
      && Uniform(block) && Uniform(blockWeeks) && Uniform(blocked) && Uniform(nonLabour) && Uniform(injected)
      && Uniform(scope) && Uniform(commercialised) && Uniform(execute) && Uniform(executeDays) && Uniform(committed)
    }
  }

  predicate Uniform(u: real) {
    0.0 <= u < 1.0
  }

  /** What the loop carries from week to week about the work. */
  datatype Work = Work(
    physical: real, totalHours: real, reworkHours: real, costToDate: real, openMajorDefects: nat,
    blockedUntil: Option<int>)

  // ---------------------------------------------------------------------------------------------
  // The drivers of a week
  // ---------------------------------------------------------------------------------------------

  predicate InRecovery(dr: Drivers, week: nat) {
    dr.recoveryFromWeek.Some? && week >= dr.recoveryFromWeek.value
  }

  function Drag(dr: Drivers, week: nat): real {
    var dragWeeks := if InRecovery(dr, week) then dr.recoveryFromWeek.value else week;
    var recoveryWeeks := if InRecovery(dr, week) then week - dr.recoveryFromWeek.value else 0;
    var drag := dr.productivityDrag + dr.productivityDragPerWeek * dragWeeks as real
                + if InRecovery(dr, week) then dr.productivityDragPerWeek * recoveryWeeks as real else 0.0;
    if drag < 0.9 then 0.9 else drag
  }

  function HourlyRate(spec: Spec, dr: Drivers, week: nat): real {
    var drift := dr.rateDriftPerWeek * week as real;
    spec.asSoldRate * (1.0 + if drift < 0.03 then drift else 0.03)
  }

  function RecoveryTaper(dr: Drivers, week: nat): (t: real)
    ensures 0.25 <= t <= 1.0
  {
    if !InRecovery(dr, week) then 1.0 else
    var t := 1.0 - (week - dr.recoveryFromWeek.value) as real * 0.035;
    if t < 0.25 then 0.25 else t
  }

  /** A driver that recovery brings back toward its healthy baseline. */
  function Tapered(baseline: real, value: real, taper: real): real {
    baseline + (value - baseline) * taper
  }

  function ReworkPerDefect(dr: Drivers, week: nat): real {
    Tapered(1.4, dr.reworkHoursPerDefectWeek, RecoveryTaper(dr, week))
  }

  function DefectIntake(dr: Drivers, week: nat): real {
    Tapered(0.9, dr.defectInjectionPer100h, RecoveryTaper(dr, week))
  }

  // ---------------------------------------------------------------------------------------------
  // The plan
  // ---------------------------------------------------------------------------------------------

  function Elapsed(spec: Spec, week: nat): real
    requires spec.Valid()
  {
    week as real / spec.durationWeeks as real
  }

  function PlannedAt(spec: Spec, week: nat): real
    requires spec.Valid()
  {
    PlannedProgressAt(Elapsed(spec, week))
  }

  function PlannedThisWeek(spec: Spec, week: nat): real
    requires spec.Valid()
  {
    PlannedAt(spec, week + 1) - PlannedAt(spec, week)
  }

  function GrossHours(spec: Spec, week: nat): real
    requires spec.Valid()
  {
    if PlannedThisWeek(spec, week) > 0.0 then PlannedThisWeek(spec, week) * spec.plannedHours
    else spec.plannedHours / spec.durationWeeks as real * 0.3
  }

  // ---------------------------------------------------------------------------------------------
  // One week
  // ---------------------------------------------------------------------------------------------

  /** The dependency that blocks this week, if any: an open one, or one opened now. */
  function Blocking(dr: Drivers, d: Draws, work: Work, week: nat): Option<int> {
    if work.blockedUntil.None?
      && Rng.Chance(d.block, dr.dependencyBlockChance * if InRecovery(dr, week) then 0.35 else 1.0)
    then Some(week + Rng.Int(d.blockWeeks, 1, 5)) else work.blockedUntil
  }

  function BlockedFraction(dr: Drivers, d: Draws, work: Work, week: nat): real {
    var blocking := Blocking(dr, d, work, week);
    if blocking.Some? && week < blocking.value then Rng.Range(d.blocked, 0.15, 0.45) else 0.0
  }

  datatype Hours = Hours(gross: real, rework: real, blocked: real, productive: real) {
    function Capacity(): real {
      if gross == 0.0 then 0.0 else productive / gross
    }
  }

  /** Rework is capped at 42% of the week, blocked effort is a share of it, the rest is productive. */
  function Divided(gross: real, wanted: real, blockedFraction: real): Hours {
    var rework := if wanted < gross * 0.42 then wanted else gross * 0.42;
    var blocked := gross * blockedFraction;
    Hours(gross, rework, blocked, Money.NotNegative(gross - rework - blocked))
  }

  /** What the open defects ask for. */
  function WantedRework(dr: Drivers, open: nat, week: nat): real {
    open as real * ReworkPerDefect(dr, week)
  }

  function HoursOf(spec: Spec, dr: Drivers, d: Draws, work: Work, week: nat): Hours
    requires spec.Valid()
  {
    Divided(GrossHours(spec, week), WantedRework(dr, work.openMajorDefects, week), BlockedFraction(dr, d, work, week))
  }

  predicate InAcceptance(spec: Spec, week: nat)
    requires spec.Valid()
  {
    Elapsed(spec, week) >= 0.87
  }

  /** `overrunCatchUp`, of the capacity there is. */
  function CatchUp(spec: Spec, capacity: real, physical: real, week: nat): real
    requires spec.Valid()
  {
    (if PlannedThisWeek(spec, week) <= 0.0 || InAcceptance(spec, week) then (1.0 - physical) * 0.28 else 0.0) * capacity
  }

  function ProgressIncrement(spec: Spec, dr: Drivers, capacity: real, physical: real, week: nat): real
    requires spec.Valid()
  {
    PlannedThisWeek(spec, week) * (capacity / Drag(dr, week)) + CatchUp(spec, capacity, physical, week)
  }

  function AtMostOne(x: real): real {
    if x < 1.0 then x else 1.0
  }

  function Labour(spec: Spec, dr: Drivers, week: nat): real
    requires spec.Valid()
  {
    GrossHours(spec, week) * HourlyRate(spec, dr, week)
  }

  function NonLabour(spec: Spec, dr: Drivers, d: Draws, week: nat): real
    requires spec.Valid()
  {
    Labour(spec, dr, week) * Rng.Range(d.nonLabour, 0.05, 0.11)
  }

  /** `Math.round` */
  function Round(x: real): int {
    (x + 0.5).Floor
  }

  function NatRound(x: real): nat {
    if Round(x) < 0 then 0 else Round(x)
  }

  /** What a hundred productive hours let in, with a draw around it. */
  function Injected(dr: Drivers, d: Draws, week: nat, productive: real): nat {
    NatRound(Money.Portion(Money.Portion(DefectIntake(dr, week), productive / 100.0), Rng.Range(d.injected, 0.6, 1.4)))
  }

  /** The serious ones of them join those open, of which a share stays. */
  function OpenMajorDefects(dr: Drivers, d: Draws, open: nat, week: nat, productive: real): nat {
    var injected := Injected(dr, d, week, productive);
    var serious := if d.serious < injected then d.serious else injected;
    NatRound(Money.Portion((open + serious) as real, if dr.defectInjectionPer100h > 2.0 then 0.86 else 0.7))
  }

  function Next(spec: Spec, dr: Drivers, d: Draws, work: Work, week: nat): Work
    requires spec.Valid()
  {
    var h := HoursOf(spec, dr, d, work, week);
    var blocking := Blocking(dr, d, work, week);
    Work(
      AtMostOne(work.physical + ProgressIncrement(spec, dr, h.Capacity(), work.physical, week)),
      work.totalHours + h.gross,
      work.reworkHours + h.rework,
      work.costToDate + (Labour(spec, dr, week) + NonLabour(spec, dr, d, week)),
      OpenMajorDefects(dr, d, work.openMajorDefects, week, h.productive),
      if blocking.Some? && week >= blocking.value then None else blocking)
  }

  function Opening(spec: Spec, dr: Drivers, week: nat): Work
    requires spec.Valid()
  {
    var physical := PlannedAt(spec, week) * if dr.productivityDrag > 1.0 then 0.94 else 1.0;
    Work(physical, physical * spec.plannedHours, 0.0,
         physical * spec.budgetedCost * (if dr.productivityDrag > 1.0 then 1.04 else 1.0), 0, None)
  }

  /** The work at the start of week `first + n`, for draws given by week. */
  function Run(spec: Spec, dr: Drivers, draws: nat -> Draws, first: nat, n: nat): Work
    requires spec.Valid()
    decreases n, first
  {
    if n == 0 then Opening(spec, dr, first)
    else Next(spec, dr, draws(first + n - 1), Run(spec, dr, draws, first, n - 1), first + n - 1)
  }

  // ---------------------------------------------------------------------------------------------
  // The plan's own laws
  // ---------------------------------------------------------------------------------------------

  lemma Ratio(a: real, b: real, d: real)
    requires d > 0.0 && a <= b
    ensures a / d <= b / d
    ensures a < b ==> a / d < b / d
    ensures a >= d <==> a / d >= 1.0
    ensures a >= 0.0 ==> a / d >= 0.0
  {
    var x, y := a / d, b / d;
    assert x * d == a && y * d == b;
    Product(y - x, d);
    assert (y - x) * d == b - a;
    if x > y { Product(x - y, d); }
    if x == y { assert a == b; }
    if x < 1.0 { Product(1.0 - x, d); } else { Product(x - 1.0, d); }
    if x < 0.0 { Product(-x, d); }
  }

  lemma ElapsedRises(spec: Spec, week: nat, later: nat)
    requires spec.Valid() && week <= later
    ensures 0.0 <= Elapsed(spec, week) <= Elapsed(spec, later)
    ensures week < later ==> Elapsed(spec, week) < Elapsed(spec, later)
    ensures week >= spec.durationWeeks <==> Elapsed(spec, week) >= 1.0
    ensures Elapsed(spec, 0) == 0.0
  {
    Ratio(week as real, later as real, spec.durationWeeks as real);
  }

  lemma PlanLaws(spec: Spec, week: nat)
    requires spec.Valid()
    ensures 0.0 <= PlannedAt(spec, week) <= PlannedAt(spec, week + 1) <= 1.0
    ensures PlannedThisWeek(spec, week) > 0.0 <==> week < spec.durationWeeks
    ensures week >= spec.durationWeeks ==> PlannedAt(spec, week) == 1.0 && PlannedThisWeek(spec, week) == 0.0
    ensures PlannedAt(spec, 0) == 0.0
    ensures week > 0 ==> PlannedAt(spec, week) > 0.0
  {
    hide PlannedProgressAt, Elapsed;
    ElapsedRises(spec, week, week + 1);
    ElapsedRises(spec, 0, week);
    ElapsedRises(spec, week + 1, week + 1);
    PlanRises(Elapsed(spec, week), Elapsed(spec, week + 1));
    PlanRises(Elapsed(spec, 0), Elapsed(spec, week));
    PlanRises(Elapsed(spec, week + 1), Elapsed(spec, week + 1));
  }

  lemma PlanStep(spec: Spec, week: nat)
    requires spec.Valid()
    ensures PlannedAt(spec, week + 1) == PlannedAt(spec, week) + PlannedThisWeek(spec, week)
  {
  }

  /** Whatever week recovery starts in, the drag is the one line of the two drivers, floored: recovery
      does not bend it. */
  lemma DragIgnoresRecovery(dr: Drivers, week: nat)
    ensures Drag(dr, week) == Drag(dr.(recoveryFromWeek := None), week)
    ensures var line := dr.productivityDrag + dr.productivityDragPerWeek * week as real;
      Drag(dr, week) == if line < 0.9 then 0.9 else line
  {
    if InRecovery(dr, week) {
      var before, since := dr.recoveryFromWeek.value, week - dr.recoveryFromWeek.value;
      assert dr.productivityDragPerWeek * before as real + dr.productivityDragPerWeek * since as real
          == dr.productivityDragPerWeek * (before as real + since as real);
      assert before as real + since as real == week as real;
    }
  }

  // ---------------------------------------------------------------------------------------------
  // Where the hours of a week go
  // ---------------------------------------------------------------------------------------------

  lemma GrossIsPlanned(spec: Spec, week: nat)
    requires spec.Valid()
    ensures GrossHours(spec, week) >= 0.0
    ensures spec.plannedHours > 0.0 ==> GrossHours(spec, week) > 0.0
    ensures GrossHours(spec, week) == if week < spec.durationWeeks then PlannedThisWeek(spec, week) * spec.plannedHours
                                      else spec.plannedHours / spec.durationWeeks as real * 0.3
  {
    hide PlannedThisWeek;
    PlanLaws(spec, week);
    if week < spec.durationWeeks {
      Product(PlannedThisWeek(spec, week), spec.plannedHours);
    } else {
      Ratio(0.0, spec.plannedHours, spec.durationWeeks as real);
    }
  }

  lemma GrossIsNotNegative(spec: Spec, week: nat)
    requires spec.Valid()
    ensures GrossHours(spec, week) >= 0.0
  {
    hide GrossHours;
    GrossIsPlanned(spec, week);
  }

  lemma TaperedStays(baseline: real, value: real, taper: real)
    requires baseline >= 0.0 && value >= 0.0 && 0.0 <= taper <= 1.0
    ensures Tapered(baseline, value, taper) >= 0.0
  {
    assert Tapered(baseline, value, taper) == baseline * (1.0 - taper) + value * taper;
    Product(baseline, 1.0 - taper);
    Product(value, taper);
  }

  lemma BlockedBounds(dr: Drivers, d: Draws, work: Work, week: nat)
    requires d.Valid()
    ensures 0.0 <= BlockedFraction(dr, d, work, week) <= 0.45
  {
    hide Rng.Range, Blocking;
    Rng.RangeBounds(d.blocked, 0.15, 0.45);
  }

  /** Rework, blocked and productive hours are the gross hours: the floor at zero never bites, because
      at least 13% of every week is productive. */
  lemma HoursSplit(spec: Spec, dr: Drivers, d: Draws, work: Work, week: nat)
    requires spec.Valid() && dr.Valid() && d.Valid()
    ensures var h := HoursOf(spec, dr, d, work, week);
      && h.productive + h.rework + h.blocked == h.gross
      && h.gross >= 0.0 && h.rework >= 0.0 && h.blocked >= 0.0 && h.productive >= 0.13 * h.gross
  {
    hide GrossHours, BlockedFraction, WantedRework, Divided;
    GrossIsNotNegative(spec, week);
    BlockedBounds(dr, d, work, week);
    ReworkStays(dr, work, week);
    DividedAddsUp(GrossHours(spec, week), WantedRework(dr, work.openMajorDefects, week),
      BlockedFraction(dr, d, work, week));
  }

  lemma DividedAddsUp(gross: real, wanted: real, fraction: real)
    requires gross >= 0.0 && wanted >= 0.0 && 0.0 <= fraction <= 0.45
    ensures var h := Divided(gross, wanted, fraction);
      && h.productive + h.rework + h.blocked == h.gross == gross
      && h.rework >= 0.0 && h.blocked >= 0.0 && h.productive >= 0.13 * h.gross
  {
    Product(gross, fraction);
    Product(gross, 0.45 - fraction);
    assert gross * (0.45 - fraction) == 0.45 * gross - gross * fraction;
  }

  lemma ReworkStays(dr: Drivers, work: Work, week: nat)
    requires dr.Valid()
    ensures WantedRework(dr, work.openMajorDefects, week) >= 0.0
  {
    hide Tapered;
    TaperedStays(1.4, dr.reworkHoursPerDefectWeek, RecoveryTaper(dr, week));
    Product(work.openMajorDefects as real, ReworkPerDefect(dr, week));
  }

  lemma CapacityBounds(spec: Spec, dr: Drivers, d: Draws, work: Work, week: nat)
    requires spec.Valid() && dr.Valid() && d.Valid()
    ensures var h := HoursOf(spec, dr, d, work, week);
      && 0.0 <= h.Capacity() <= 1.0
      && h.Capacity() * h.gross == h.productive
      && (h.gross > 0.0 ==> h.Capacity() >= 0.13)
  {
    hide HoursOf;
    HoursSplit(spec, dr, d, work, week);
    var h := HoursOf(spec, dr, d, work, week);
    if h.gross > 0.0 {
      Quotient(h.productive, h.gross);
    }
  }

  lemma Quotient(productive: real, gross: real)
    requires gross > 0.0 && 0.13 * gross <= productive <= gross
    ensures 0.13 <= productive / gross <= 1.0 && productive / gross * gross == productive
  {
    var c := productive / gross;
    assert c * gross == productive;
    Unscale(c, gross, 1.0);
    Unscale(0.13, gross, c);
  }

  lemma Unscale(c: real, g: real, k: real)
    requires g > 0.0
    ensures c * g <= k * g <==> c <= k
  {
    if c <= k {
      Product(k - c, g);
      assert (k - c) * g == k * g - c * g;
    } else {
      Product(c - k, g);
      assert (c - k) * g == c * g - k * g;
    }
  }

  // ---------------------------------------------------------------------------------------------
  // Progress
  // ---------------------------------------------------------------------------------------------

  ghost predicate AllValid(draws: nat -> Draws) {
    forall week :: draws(week).Valid()
  }

  lemma DragIsFloored(dr: Drivers, week: nat)
    ensures Drag(dr, week) >= 0.9
  {
  }

  lemma IncrementIsNotNegative(spec: Spec, dr: Drivers, capacity: real, physical: real, week: nat)
    requires spec.Valid() && 0.0 <= capacity && 0.0 <= physical <= 1.0
    ensures ProgressIncrement(spec, dr, capacity, physical, week) >= 0.0
  {
    hide PlannedThisWeek, InAcceptance, Drag, PlannedAt;
    var planned, drag := PlannedThisWeek(spec, week), Drag(dr, week);
    PlanLaws(spec, week);
    PlanStep(spec, week);
    DragIsFloored(dr, week);
    Ratio(0.0, capacity, drag);
    Product(planned, capacity / drag);
    Product((1.0 - physical) * 0.28, capacity);
  }

  lemma OpeningProgress(spec: Spec, dr: Drivers, first: nat)
    requires spec.Valid()
    ensures 0.0 <= Opening(spec, dr, first).physical <= PlannedAt(spec, first)
    ensures Opening(spec, dr, first).physical == PlannedAt(spec, first)
      <==> dr.productivityDrag <= 1.0 || first == 0
  {
    hide PlannedAt;
    PlanLaws(spec, first);
    PlanLaws(spec, 0);
  }

  /** In every run progress stays in [0, 1] and never falls. */
  lemma {:induction false} ProgressNeverFalls(spec: Spec, dr: Drivers, draws: nat -> Draws, first: nat, n: nat)
    requires spec.Valid() && dr.Valid() && AllValid(draws)
    ensures 0.0 <= Run(spec, dr, draws, first, n).physical <= Run(spec, dr, draws, first, n + 1).physical <= 1.0
    decreases n
  {
    hide PlannedAt, HoursOf, Opening, ProgressIncrement;
    if n == 0 {
      PlanLaws(spec, first);
      OpeningProgress(spec, dr, first);
    } else {
      ProgressNeverFalls(spec, dr, draws, first, n - 1);
    }
    var work := Run(spec, dr, draws, first, n);
    assert 0.0 <= work.physical <= 1.0;
    CapacityBounds(spec, dr, draws(first + n), work, first + n);
    var h := HoursOf(spec, dr, draws(first + n), work, first + n);
    IncrementIsNotNegative(spec, dr, h.Capacity(), work.physical, first + n);
  }

  /** The plan a week could not follow: the planned increment that reached no productive work, or that
      the drag used up. */
  function Lost(spec: Spec, dr: Drivers, draws: nat -> Draws, first: nat, n: nat): real
    requires spec.Valid()
    decreases n, first
  {
    if n == 0 then 0.0 else
    var week := first + n - 1;
    var capacity := HoursOf(spec, dr, draws(week), Run(spec, dr, draws, first, n - 1), week).Capacity();
    Lost(spec, dr, draws, first, n - 1) + PlannedThisWeek(spec, week) * (1.0 - capacity / Drag(dr, week))
  }

  function Gap(spec: Spec, dr: Drivers, draws: nat -> Draws, first: nat, n: nat): real
    requires spec.Valid()
  {
    PlannedAt(spec, first + n) - Run(spec, dr, draws, first, n).physical
  }

  /** What catching up, past the planned end or in acceptance, won back. */
  function CaughtUp(spec: Spec, dr: Drivers, draws: nat -> Draws, first: nat, n: nat): real
    requires spec.Valid()
    decreases n, first
  {
    if n == 0 then 0.0 else
    var week, work := first + n - 1, Run(spec, dr, draws, first, n - 1);
    CaughtUp(spec, dr, draws, first, n - 1)
    + CatchUp(spec, HoursOf(spec, dr, draws(week), work, week).Capacity(), work.physical, week)
  }

  /** What was earned beyond the whole, which `Math.min(1, ...)` cuts off. */
  function Excess(spec: Spec, dr: Drivers, draws: nat -> Draws, first: nat, n: nat): real
    requires spec.Valid()
    decreases n, first
  {
    if n == 0 then 0.0 else
    var week, work := first + n - 1, Run(spec, dr, draws, first, n - 1);
    var earned := work.physical
      + ProgressIncrement(spec, dr, HoursOf(spec, dr, draws(week), work, week).Capacity(), work.physical, week);
    Excess(spec, dr, draws, first, n - 1) + (earned - AtMostOne(earned))
  }

  lemma IncrementSplits(spec: Spec, dr: Drivers, capacity: real, physical: real, week: nat)
    requires spec.Valid()
    ensures Drag(dr, week) > 0.0
    ensures ProgressIncrement(spec, dr, capacity, physical, week)
         == PlannedThisWeek(spec, week) - PlannedThisWeek(spec, week) * (1.0 - capacity / Drag(dr, week))
            + CatchUp(spec, capacity, physical, week)
  {
    hide PlannedThisWeek, Drag, CatchUp;
    DragIsFloored(dr, week);
    LossSplits(PlannedThisWeek(spec, week), capacity / Drag(dr, week));
  }

  lemma LossSplits(planned: real, share: real)
    ensures planned * (1.0 - share) == planned - planned * share
  {
  }

  /** In every run of every length, whatever the drag: the distance to the plan is the opening distance,
      what the drivers cost, and what was cut off, less what catching up won back. */
  lemma {:induction false} GapIsAccountedFor(spec: Spec, dr: Drivers, draws: nat -> Draws, first: nat, n: nat)
    requires spec.Valid()
    ensures Gap(spec, dr, draws, first, n)
         == Gap(spec, dr, draws, first, 0) + Lost(spec, dr, draws, first, n) + Excess(spec, dr, draws, first, n)
            - CaughtUp(spec, dr, draws, first, n)
    decreases n
  {
    hide PlannedAt, PlannedThisWeek, ProgressIncrement, HoursOf, Opening, Drag, CatchUp, Run, AtMostOne, Spec.Valid;
    if n > 0 {
      var week, work := first + n - 1, Run(spec, dr, draws, first, n - 1);
      GapIsAccountedFor(spec, dr, draws, first, n - 1);
      IncrementSplits(spec, dr, HoursOf(spec, dr, draws(week), work, week).Capacity(), work.physical, week);
      PlanStep(spec, week);
      RunSteps(spec, dr, draws, first, n);
    }
  }

  /** Before acceptance, and in fact before the planned end, nothing is caught up. */
  lemma {:induction false} NothingCaughtUp(spec: Spec, dr: Drivers, draws: nat -> Draws, first: nat, n: nat)
    requires spec.Valid() && (n > 0 ==> !InAcceptance(spec, first + n - 1))
    ensures CaughtUp(spec, dr, draws, first, n) == 0.0
    decreases n
  {
    hide PlannedAt, PlannedThisWeek, HoursOf, Opening, InAcceptance, Run;
    if n > 0 {
      var week := first + n - 1;
      if n > 1 { BeforeAcceptance(spec, week, week - 1); }
      BeforeAcceptance(spec, week, week);
      PlanLaws(spec, week);
      NothingCaughtUp(spec, dr, draws, first, n - 1);
    }
  }

  lemma LossIsNotNegative(planned: real, capacity: real, drag: real)
    requires planned >= 0.0 && 0.0 <= capacity <= 1.0 <= drag
    ensures planned * (1.0 - capacity / drag) >= 0.0
    ensures planned * (1.0 - capacity / drag) == planned - planned * (capacity / drag)
  {
    Ratio(capacity, drag, drag);
    assert drag / drag == 1.0;
    Product(planned, 1.0 - capacity / drag);
  }

  lemma BeforeAcceptance(spec: Spec, week: nat, earlier: nat)
    requires spec.Valid() && earlier <= week && !InAcceptance(spec, week)
    ensures !InAcceptance(spec, earlier) && week < spec.durationWeeks
  {
    ElapsedRises(spec, earlier, week);
    ElapsedRises(spec, week, week);
  }

  lemma RunSteps(spec: Spec, dr: Drivers, draws: nat -> Draws, first: nat, n: nat)
    requires spec.Valid() && n > 0
    ensures var week, before, work := first + n - 1, Run(spec, dr, draws, first, n - 1), Run(spec, dr, draws, first, n);
      var h := HoursOf(spec, dr, draws(week), before, week);
      && work.physical == AtMostOne(before.physical + ProgressIncrement(spec, dr, h.Capacity(), before.physical, week))
      && work.totalHours == before.totalHours + GrossHours(spec, week)
      && work.costToDate == before.costToDate + (Labour(spec, dr, week) + NonLabour(spec, dr, draws(week), week))
  {
    hide GrossHours, ProgressIncrement, OpenMajorDefects, Blocking, Labour, NonLabour, BlockedFraction, ReworkPerDefect;
  }

  lemma PlainIncrement(spec: Spec, dr: Drivers, capacity: real, physical: real, week: nat)
    requires spec.Valid() && !InAcceptance(spec, week) && PlannedThisWeek(spec, week) > 0.0
    ensures ProgressIncrement(spec, dr, capacity, physical, week)
      == PlannedThisWeek(spec, week) * (capacity / Drag(dr, week))
  {
    hide PlannedThisWeek, Drag;
  }

  /** Before acceptance the distance to the plan is the opening distance, what the declared drivers cost,
      and what is cut off at the whole, and nothing else.  With a drag of at least one nothing is cut off
      and the project is never ahead. */
  lemma GapIsCaused(spec: Spec, dr: Drivers, draws: nat -> Draws, first: nat, n: nat)
    requires spec.Valid() && dr.Valid() && AllValid(draws)
    requires n > 0 ==> !InAcceptance(spec, first + n - 1)
    ensures Gap(spec, dr, draws, first, n)
         == Gap(spec, dr, draws, first, 0) + Lost(spec, dr, draws, first, n) + Excess(spec, dr, draws, first, n)
    ensures (forall week :: first <= week < first + n ==> Drag(dr, week) >= 1.0) ==>
              Excess(spec, dr, draws, first, n) == 0.0 && Gap(spec, dr, draws, first, n) >= 0.0
  {
    hide Gap, Lost, Excess, CaughtUp, Drag, InAcceptance, Drivers.Valid, Spec.Valid;
    GapIsAccountedFor(spec, dr, draws, first, n);
    NothingCaughtUp(spec, dr, draws, first, n);
    if forall week :: first <= week < first + n ==> Drag(dr, week) >= 1.0 {
      NeverAhead(spec, dr, draws, first, n);
    }
  }

  lemma NoMoreThanPlanned(spec: Spec, dr: Drivers, capacity: real, physical: real, week: nat)
    requires spec.Valid() && !InAcceptance(spec, week) && PlannedThisWeek(spec, week) > 0.0
    requires 0.0 <= capacity <= 1.0 <= Drag(dr, week)
    ensures ProgressIncrement(spec, dr, capacity, physical, week) <= PlannedThisWeek(spec, week)
  {
    hide PlannedThisWeek, Drag, InAcceptance, ProgressIncrement;
    PlainIncrement(spec, dr, capacity, physical, week);
    LossIsNotNegative(PlannedThisWeek(spec, week), capacity, Drag(dr, week));
  }

  lemma {:induction false} NeverAhead(spec: Spec, dr: Drivers, draws: nat -> Draws, first: nat, n: nat)
    requires spec.Valid() && dr.Valid() && AllValid(draws)
    requires n > 0 ==> !InAcceptance(spec, first + n - 1)
    requires forall week :: first <= week < first + n ==> Drag(dr, week) >= 1.0
    ensures Excess(spec, dr, draws, first, n) == 0.0 && Gap(spec, dr, draws, first, n) >= 0.0
    decreases n
  {
    hide PlannedAt, PlannedThisWeek, HoursOf, Opening, Drag, InAcceptance, ProgressIncrement, Run,
      Drivers.Valid, Spec.Valid, Draws.Valid;
    if n == 0 {
      StartOfRun(spec, dr, draws, first);
      OpeningProgress(spec, dr, first);
    } else {
      var week, work := first + n - 1, Run(spec, dr, draws, first, n - 1);
      if n > 1 { BeforeAcceptance(spec, week, week - 1); }
      BeforeAcceptance(spec, week, week);
      NeverAhead(spec, dr, draws, first, n - 1);
      CapacityBounds(spec, dr, draws(week), work, week);
      PlanLaws(spec, week);
      PlanStep(spec, week);
      NoMoreThanPlanned(spec, dr, HoursOf(spec, dr, draws(week), work, week).Capacity(), work.physical, week);
      RunSteps(spec, dr, draws, first, n);
    }
  }

  /** In acceptance, until the planned end, a project at or ahead of its plan that loses no capacity and
      has no drag comes out ahead of it. */
  lemma RunsAhead(spec: Spec, dr: Drivers, draws: nat -> Draws, first: nat, n: nat)
    requires spec.Valid() && dr.Valid() && AllValid(draws)
    requires var week := first + n;
      && InAcceptance(spec, week) && week + 1 < spec.durationWeeks && Drag(dr, week) <= 1.0
      && HoursOf(spec, dr, draws(week), Run(spec, dr, draws, first, n), week).Capacity() == 1.0
    requires Gap(spec, dr, draws, first, n) <= 0.0
    ensures Gap(spec, dr, draws, first, n + 1) < 0.0
  {
    hide PlannedAt, PlannedThisWeek, ProgressIncrement, HoursOf, Drag, InAcceptance, Run, Drivers.Valid, Draws.Valid;
    var week, work := first + n, Run(spec, dr, draws, first, n);
    RunSteps(spec, dr, draws, first, n + 1);
    PlanLaws(spec, week);
    PlanLaws(spec, week + 1);
    PlanStep(spec, week);
    PlanStep(spec, week + 1);
    ProgressNeverFalls(spec, dr, draws, first, n);
    QuickIncrement(spec, dr, work.physical, week);
  }

  lemma QuickIncrement(spec: Spec, dr: Drivers, physical: real, week: nat)
    requires spec.Valid() && InAcceptance(spec, week) && Drag(dr, week) <= 1.0
    ensures ProgressIncrement(spec, dr, 1.0, physical, week) >= PlannedThisWeek(spec, week) + (1.0 - physical) * 0.28
  {
    hide PlannedAt, PlannedThisWeek, Drag, InAcceptance, CatchUp;
    DragIsFloored(dr, week);
    PlanLaws(spec, week);
    PlanStep(spec, week);
    Quicker(PlannedThisWeek(spec, week), 1.0, Drag(dr, week));
    FullCatchUp(spec, physical, week);
    var planned, drag := PlannedThisWeek(spec, week), Drag(dr, week);
    assert planned * (1.0 / drag) >= planned;
    assert ProgressIncrement(spec, dr, 1.0, physical, week)
        == planned * (1.0 / drag) + CatchUp(spec, 1.0, physical, week);
  }

  lemma FullCatchUp(spec: Spec, physical: real, week: nat)
    requires spec.Valid() && InAcceptance(spec, week)
    ensures CatchUp(spec, 1.0, physical, week) == (1.0 - physical) * 0.28
  {
    hide PlannedThisWeek, InAcceptance;
  }

  lemma Quicker(planned: real, capacity: real, drag: real)
    requires planned >= 0.0 && 0.0 < drag <= 1.0 == capacity
    ensures planned * (capacity / drag) >= planned
  {
    Ratio(drag, capacity, drag);
    assert drag / drag == 1.0;
    LossSplits(planned, capacity / drag);
    Product(planned, capacity / drag - 1.0);
    assert planned * (capacity / drag - 1.0) == -(planned * (1.0 - capacity / drag));
  }

  lemma StartOfRun(spec: Spec, dr: Drivers, draws: nat -> Draws, first: nat)
    requires spec.Valid()
    ensures Run(spec, dr, draws, first, 0) == Opening(spec, dr, first)
  {
  }

  /** No drag, no rework, no blocked effort: the project is exactly as far from its plan as it started. */
  lemma {:induction false} NoDriversNoDeparture(spec: Spec, dr: Drivers, draws: nat -> Draws, first: nat, n: nat)
    requires spec.Valid() && dr.Valid() && AllValid(draws)
    requires n > 0 ==> !InAcceptance(spec, first + n - 1)
    requires forall week :: first <= week < first + n ==> Drag(dr, week) == 1.0
    requires forall k :: 0 <= k < n ==>
        HoursOf(spec, dr, draws(first + k), Run(spec, dr, draws, first, k), first + k).Capacity() == 1.0
    ensures Gap(spec, dr, draws, first, n) == Gap(spec, dr, draws, first, 0)
    decreases n
  {
    hide PlannedAt, HoursOf, Opening, Drag, InAcceptance, Run;
    GapIsCaused(spec, dr, draws, first, n);
    if n > 0 {
      if n > 1 { BeforeAcceptance(spec, first + n - 1, first + n - 2); }
      NoDriversNoDeparture(spec, dr, draws, first, n - 1);
      GapIsCaused(spec, dr, draws, first, n - 1);
      var week, k := first + n - 1, n - 1;
      assert HoursOf(spec, dr, draws(first + k), Run(spec, dr, draws, first, k), first + k).Capacity() == 1.0;
      assert Lost(spec, dr, draws, first, n) == Lost(spec, dr, draws, first, n - 1)
        + PlannedThisWeek(spec, week) * (1.0 - 1.0);
    }
  }

  // ---------------------------------------------------------------------------------------------
  // Hours and cost
  // ---------------------------------------------------------------------------------------------

  /** How many of the weeks `first` to `first + n` lie past the planned end. */
  function Overrun(spec: Spec, first: nat, n: nat): nat {
    if first + n <= spec.durationWeeks then 0
    else if first >= spec.durationWeeks then n
    else first + n - spec.durationWeeks
  }

  /** Through the planned end the hours are the opening hours and the rest of the plan's; each week past
      it adds 30% of an average week. */
  lemma {:induction false} HoursFollowPlan(spec: Spec, dr: Drivers, draws: nat -> Draws, first: nat, n: nat)
    requires spec.Valid()
    ensures Run(spec, dr, draws, first, n).totalHours
         == Opening(spec, dr, first).totalHours
            + (PlannedAt(spec, first + n) - PlannedAt(spec, first)) * spec.plannedHours
            + Overrun(spec, first, n) as real * (spec.plannedHours / spec.durationWeeks as real * 0.3)
    decreases n
  {
    hide PlannedAt, PlannedThisWeek, GrossHours, Opening, Run, Overrun, HoursOf, ProgressIncrement, AtMostOne, Labour,
      NonLabour;
    StartOfRun(spec, dr, draws, first);
    if n == 0 {
      OverrunSteps(spec, first, 0);
    } else {
      HoursFollowPlan(spec, dr, draws, first, n - 1);
      var week := first + n - 1;
      GrossIsPlanned(spec, week);
      PlanLaws(spec, week);
      PlanStep(spec, week);
      RunSteps(spec, dr, draws, first, n);
      OverrunSteps(spec, first, n);
      var before, increment := PlannedAt(spec, week) - PlannedAt(spec, first), PlannedThisWeek(spec, week);
      SumTimes(before, increment, spec.plannedHours);
      SumTimes(Overrun(spec, first, n - 1) as real, 1.0, spec.plannedHours / spec.durationWeeks as real * 0.3);
    }
  }

  lemma SumTimes(x: real, y: real, a: real)
    ensures (x + y) * a == x * a + y * a
  {
  }

  lemma OverrunSteps(spec: Spec, first: nat, n: nat)
    ensures Overrun(spec, first, 0) == 0
    ensures n > 0 && first + n - 1 < spec.durationWeeks ==> Overrun(spec, first, n) == Overrun(spec, first, n - 1)
    ensures n > 0 && first + n - 1 >= spec.durationWeeks ==>
        Overrun(spec, first, n) as real == Overrun(spec, first, n - 1) as real + 1.0
  {
  }

  /** "The whole-project total equals plannedHours" holds when the history starts with the project or
      without drag, and only then: otherwise 6% of what was planned before it is missing. */
  lemma WholePlanHours(spec: Spec, dr: Drivers, draws: nat -> Draws, first: nat)
    requires spec.Valid() && spec.plannedHours > 0.0 && first <= spec.durationWeeks
    ensures Run(spec, dr, draws, first, spec.durationWeeks - first).totalHours == spec.plannedHours
      <==> dr.productivityDrag <= 1.0 || first == 0
    ensures var missing := if dr.productivityDrag > 1.0 then 0.06 * PlannedAt(spec, first) * spec.plannedHours else 0.0;
        Run(spec, dr, draws, first, spec.durationWeeks - first).totalHours == spec.plannedHours - missing
  {
    hide PlannedAt, Run;
    var p, h := PlannedAt(spec, first), spec.plannedHours;
    HoursFollowPlan(spec, dr, draws, first, spec.durationWeeks - first);
    PlanLaws(spec, spec.durationWeeks);
    PlanLaws(spec, first);
    PlanLaws(spec, 0);
    assert (1.0 - p) * h == h - p * h;
    Product(p, h);
    if dr.productivityDrag > 1.0 {
      assert p * 0.94 * h == 0.94 * (p * h) && 0.06 * p * h == 0.06 * (p * h);
    }
  }

  lemma RateBounds(spec: Spec, dr: Drivers, week: nat)
    requires spec.Valid() && dr.Valid()
    ensures spec.asSoldRate <= HourlyRate(spec, dr, week) <= 1.03 * spec.asSoldRate
  {
    var drift := dr.rateDriftPerWeek * week as real;
    Product(dr.rateDriftPerWeek, week as real);
    var capped := if drift < 0.03 then drift else 0.03;
    Product(spec.asSoldRate, capped);
    Product(spec.asSoldRate, 0.03 - capped);
  }

  /** The price of so many hours: the sold rate, and 5% to 14.33% more. */
  predicate Priced(rate: real, hours: real, cost: real) {
    1.05 * rate * hours <= cost <= 1.1433 * rate * hours
  }

  lemma PricesAdd(rate: real, hours: real, cost: real, moreHours: real, moreCost: real)
    requires Priced(rate, hours, cost) && Priced(rate, moreHours, moreCost)
    ensures Priced(rate, hours + moreHours, cost + moreCost)
  {
    Distributes(1.05 * rate, hours, moreHours);
    Distributes(1.1433 * rate, hours, moreHours);
  }

  lemma WeekCost(spec: Spec, dr: Drivers, d: Draws, week: nat)
    requires spec.Valid() && dr.Valid() && d.Valid()
    ensures Priced(spec.asSoldRate, GrossHours(spec, week), Labour(spec, dr, week) + NonLabour(spec, dr, d, week))
    ensures Labour(spec, dr, week) >= 0.0 && NonLabour(spec, dr, d, week) >= 0.0
  {
    hide GrossHours, HourlyRate, Rng.Range, Labour, NonLabour, Priced;
    GrossIsNotNegative(spec, week);
    RateBounds(spec, dr, week);
    Rng.RangeBounds(d.nonLabour, 0.05, 0.11);
    CostParts(spec, dr, d, week, GrossHours(spec, week), HourlyRate(spec, dr, week),
      Rng.Range(d.nonLabour, 0.05, 0.11));
    PriceBounds(GrossHours(spec, week), HourlyRate(spec, dr, week), spec.asSoldRate, Rng.Range(d.nonLabour, 0.05, 0.11),
                Labour(spec, dr, week), NonLabour(spec, dr, d, week));
  }

  lemma CostParts(spec: Spec, dr: Drivers, d: Draws, week: nat, gross: real, rate: real, share: real)
    requires spec.Valid() && gross == GrossHours(spec, week) && rate == HourlyRate(spec, dr, week)
    requires share == Rng.Range(d.nonLabour, 0.05, 0.11)
    ensures Labour(spec, dr, week) == gross * rate && NonLabour(spec, dr, d, week) == Labour(spec, dr, week) * share
  {
    hide GrossHours, HourlyRate, Rng.Range;
  }

  lemma PriceBounds(g: real, r: real, sold: real, share: real, labour: real, nonLabour: real)
    requires g >= 0.0 && 0.0 <= sold <= r <= 1.03 * sold && 0.05 <= share <= 0.11
    requires labour == g * r && nonLabour == labour * share
    ensures Priced(sold, g, labour + nonLabour) && labour >= 0.0 && nonLabour >= 0.0
  {
    var base := sold * g;
    LabourBounds(g, r, sold, labour, base);
    ShareBounds(labour, share, nonLabour);
    assert 1.05 * sold * g == 1.05 * base && 1.1433 * sold * g == 1.1433 * base;
  }

  lemma LabourBounds(g: real, r: real, sold: real, labour: real, base: real)
    requires g >= 0.0 && 0.0 <= sold <= r <= 1.03 * sold && labour == g * r && base == sold * g
    ensures 0.0 <= base <= labour <= 1.03 * base
  {
    Product(g, r - sold);
    Product(g, 1.03 * sold - r);
    Product(g, sold);
    assert g * (r - sold) == labour - base;
    assert g * (1.03 * sold - r) == 1.03 * base - labour;
  }

  lemma ShareBounds(labour: real, share: real, nonLabour: real)
    requires labour >= 0.0 && 0.05 <= share <= 0.11 && nonLabour == labour * share
    ensures 0.05 * labour <= nonLabour <= 0.11 * labour
  {
    Product(labour, share - 0.05);
    Product(labour, 0.11 - share);
    assert labour * (share - 0.05) == nonLabour - 0.05 * labour;
    assert labour * (0.11 - share) == 0.11 * labour - nonLabour;
  }

  /** The cost the run adds is its hours at the sold rate, and 5% to 14.33% more: at most 11% non-labour
      on a rate that has drifted at most 3%. */
  lemma {:induction false} CostFollowsHours(spec: Spec, dr: Drivers, draws: nat -> Draws, first: nat, n: nat)
    requires spec.Valid() && dr.Valid() && AllValid(draws)
    ensures var open, work := Opening(spec, dr, first), Run(spec, dr, draws, first, n);
      && Priced(spec.asSoldRate, work.totalHours - open.totalHours, work.costToDate - open.costToDate)
      && work.totalHours >= open.totalHours && work.costToDate >= open.costToDate
    decreases n
  {
    hide Opening, GrossHours, Labour, NonLabour, Run, HoursOf, ProgressIncrement, Priced;
    StartOfRun(spec, dr, draws, first);
    var open := Opening(spec, dr, first);
    if n == 0 {
      NothingPriced(spec.asSoldRate);
    } else {
      RunSteps(spec, dr, draws, first, n);
      CostFollowsHours(spec, dr, draws, first, n - 1);
      var week, before := first + n - 1, Run(spec, dr, draws, first, n - 1);
      WeekCost(spec, dr, draws(week), week);
      GrossIsPlanned(spec, week);
      PricesAdd(spec.asSoldRate, before.totalHours - open.totalHours, before.costToDate - open.costToDate,
                GrossHours(spec, week), Labour(spec, dr, week) + NonLabour(spec, dr, draws(week), week));
      var work := Run(spec, dr, draws, first, n);
      assert work.totalHours - open.totalHours == before.totalHours - open.totalHours + GrossHours(spec, week);
      assert work.costToDate - open.costToDate
          == before.costToDate - open.costToDate + (Labour(spec, dr, week) + NonLabour(spec, dr, draws(week), week));
    }
  }

  lemma NothingPriced(rate: real)
    ensures Priced(rate, 0.0, 0.0)
  {
  }

  lemma Distributes(a: real, x: real, y: real)
    ensures a * (x + y) == a * x + a * y
  {
  }
}
