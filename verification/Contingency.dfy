/** When contingency is drawn (scripts/generator/simulate.ts), over whole runs and from cost and plan. */
module Contingency {
  import opened Delivery
  import opened Simulation
  import Money
  import Recognition
  import Scope
  import SCurve

  /** After week `first + k` cost is above 102% of what the plan gives for that week. */
  predicate Above(spec: Spec, dr: Drivers, draws: nat -> Draws, first: nat, k: nat)
    requires spec.Valid()
  {
    Run(spec, dr, draws, first, k + 1).costToDate > 1.02 * (PlannedAt(spec, first + k) * spec.budgetedCost)
  }

  /** What a week above the line asks for, if that is more than one. */
  function Asked(spec: Spec, dr: Drivers, week: nat): real {
    var wanted := Money.Portion(spec.contingencyBudget, ContingencyDraw(dr, week));
    if wanted > 1.0 then wanted else 0.0
  }

  /** What the weeks above the line have asked for. */
  function Demand(spec: Spec, dr: Drivers, draws: nat -> Draws, first: nat, n: nat): real
    requires spec.Valid()
    decreases n, first
  {
    if n == 0 then 0.0 else
      Demand(spec, dr, draws, first, n - 1)
      + if Above(spec, dr, draws, first, n - 1) then Asked(spec, dr, first + n - 1) else 0.0
  }

  /** What is consumed is what was asked for, while the budget lasts; then all but at most one. */
  predicate Meets(consumed: real, demand: real, budget: real) {
    if demand <= budget then consumed == demand else budget - 1.0 <= consumed <= budget
  }

  /** What a week above the line draws from what is left. */
  function Filled(spec: Spec, dr: Drivers, r: Reserve, week: nat): Reserve {
    var draw := DrawOf(spec, dr, r.consumed, week);
    if r.consumed < spec.contingencyBudget && draw > 1.0
      then Reserve(r.consumed + draw, r.drawdowns + [Drawdown(week, draw)])
    else r
  }

  /** One week of the reserve, by whether it is above the line. */
  lemma ReserveSteps(spec: Spec, dr: Drivers, draws: nat -> Draws, span: Span, n: nat)
    requires spec.Valid() && n > 0
    ensures var r := RunWeeks(spec, dr, draws, span, n - 1).reserve;
      RunWeeks(spec, dr, draws, span, n).reserve ==
        if Above(spec, dr, draws, span.first, n - 1) then Filled(spec, dr, r, span.first + n - 1) else r
  {
    hide Week, RunWeeks, Run, PlannedAt, DrawOf, Drawn;
    var week, before := span.first + n - 1, RunWeeks(spec, dr, draws, span, n - 1);
    OneMoreWeek(spec, dr, draws, span, n - 1);
    WorkIsDelivery(spec, dr, draws, span, n);
    ReserveOfWeek(spec, dr, draws(week), span, before, week);
    DrawnIsFilled(spec, dr, Run(spec, dr, draws, span.first, n).costToDate, before.reserve, week);
  }

  lemma ReserveOfWeek(spec: Spec, dr: Drivers, d: Draws, span: Span, s: State, week: nat)
    requires spec.Valid() && week >= span.first
    ensures var t := Week(spec, dr, d, span, s, week);
      t.reserve == Drawn(spec, dr, t.work.costToDate, s.reserve, week)
  {
    hide Scope.Arrive, Scope.ArrivalOf, Revised, Recognition.Post, Recognition.Target, ScopeValue, Drawn, Money.Cents,
      Delivery.Next, Labour, NonLabour;
  }

  lemma DrawnIsFilled(spec: Spec, dr: Drivers, cost: real, r: Reserve, week: nat)
    requires spec.Valid()
    ensures Drawn(spec, dr, cost, r, week)
         == if cost > 1.02 * (PlannedAt(spec, week) * spec.budgetedCost) then Filled(spec, dr, r, week) else r
  {
    hide PlannedAt, DrawOf;
  }

  lemma WeekMeets(spec: Spec, dr: Drivers, r: Reserve, demand: real, week: nat)
    requires Meets(r.consumed, demand, spec.contingencyBudget) && 0.0 <= r.consumed <= spec.contingencyBudget
    ensures Meets(Filled(spec, dr, r, week).consumed, demand + Asked(spec, dr, week), spec.contingencyBudget)
  {
    hide ContingencyDraw;
  }

  /** In every run contingency consumed is exactly what the weeks above the line asked for, as long as that
      is within the budget, and from then on the budget but for a last remainder of at most one. */
  lemma {:induction false} ConsumedIsDemand(spec: Spec, dr: Drivers, draws: nat -> Draws, span: Span, n: nat)
    requires spec.Valid()
    ensures Meets(RunWeeks(spec, dr, draws, span, n).reserve.consumed, Demand(spec, dr, draws, span.first, n),
              spec.contingencyBudget)
    decreases n
  {
    hide RunWeeks, Meets, Above, Asked, Filled, Within;
    if n == 0 {
      NothingAsked(spec);
      NoWeeks(spec, dr, draws, span);
    } else {
      ConsumedIsDemand(spec, dr, draws, span, n - 1);
      ReserveSteps(spec, dr, draws, span, n);
      var r := RunWeeks(spec, dr, draws, span, n - 1).reserve;
      ContingencyStaysWithin(spec, dr, draws, span, n - 1);
      ConsumedWithin(r, spec.contingencyBudget);
      WeekMeets(spec, dr, r, Demand(spec, dr, draws, span.first, n - 1), span.first + n - 1);
    }
  }

  lemma ConsumedWithin(r: Reserve, budget: real)
    requires Within(r, budget)
    ensures 0.0 <= r.consumed <= budget
  {
  }

  lemma NothingAsked(spec: Spec)
    requires spec.Valid()
    ensures Meets(0.0, 0.0, spec.contingencyBudget)
  {
  }

  /** Drawdowns are of different weeks of the run, in order, each of a week above the line, and of what
      that week asks for unless it is what is left. */
  predicate Due(spec: Spec, dr: Drivers, draws: nat -> Draws, first: nat, n: nat, d: Drawdown)
    requires spec.Valid()
  {
    && first <= d.week < first + n && Above(spec, dr, draws, first, d.week - first)
    && 1.0 < d.amount <= Asked(spec, dr, d.week)
  }

  predicate InOrder(drawdowns: seq<Drawdown>) {
    forall i, j :: 0 <= i < j < |drawdowns| ==> drawdowns[i].week < drawdowns[j].week
  }

  lemma {:induction false} EveryDrawdownWasDue(spec: Spec, dr: Drivers, draws: nat -> Draws, span: Span, n: nat)
    requires spec.Valid()
    ensures var drawdowns := RunWeeks(spec, dr, draws, span, n).reserve.drawdowns;
      && InOrder(drawdowns)
      && forall i :: 0 <= i < |drawdowns| ==> Due(spec, dr, draws, span.first, n, drawdowns[i])
    decreases n
  {
    hide RunWeeks, Above, Asked, Filled;
    if n == 0 {
      NoWeeks(spec, dr, draws, span);
    } else {
      EveryDrawdownWasDue(spec, dr, draws, span, n - 1);
      ReserveSteps(spec, dr, draws, span, n);
      FilledIsAsked(spec, dr, RunWeeks(spec, dr, draws, span, n - 1).reserve, span.first + n - 1);
    }
  }

  lemma FilledIsAsked(spec: Spec, dr: Drivers, r: Reserve, week: nat)
    ensures var f := Filled(spec, dr, r, week);
      f == r || (f.drawdowns == r.drawdowns + [f.drawdowns[|r.drawdowns|]]
                 && f.drawdowns[|r.drawdowns|].week == week
                 && 1.0 < f.drawdowns[|r.drawdowns|].amount <= Asked(spec, dr, week))
  {
    hide ContingencyDraw;
  }

  /** A week above the line is drawn for unless it asks for one or less, or at most one is left. */
  lemma EveryWeekAboveDraws(spec: Spec, dr: Drivers, draws: nat -> Draws, span: Span, n: nat, k: nat)
    requires spec.Valid() && k < n && Above(spec, dr, draws, span.first, k)
    requires Demand(spec, dr, draws, span.first, k + 1) <= spec.contingencyBudget
      && Asked(spec, dr, span.first + k) > 0.0
    ensures var week := span.first + k;
      Drawdown(week, Asked(spec, dr, week)) in RunWeeks(spec, dr, draws, span, n).reserve.drawdowns
    decreases n
  {
    hide RunWeeks, Above, Asked, Filled;
    ReserveSteps(spec, dr, draws, span, n);
    if k < n - 1 {
      EveryWeekAboveDraws(spec, dr, draws, span, n - 1, k);
      FilledIsAsked(spec, dr, RunWeeks(spec, dr, draws, span, n - 1).reserve, span.first + n - 1);
    } else {
      ConsumedIsDemand(spec, dr, draws, span, k);
      FilledWhole(spec, dr, RunWeeks(spec, dr, draws, span, k).reserve, Demand(spec, dr, draws, span.first, k),
        span.first + k);
    }
  }

  lemma FilledWhole(spec: Spec, dr: Drivers, r: Reserve, demand: real, week: nat)
    requires Meets(r.consumed, demand, spec.contingencyBudget)
    requires Asked(spec, dr, week) > 0.0 && demand + Asked(spec, dr, week) <= spec.contingencyBudget
    ensures Filled(spec, dr, r, week).drawdowns == r.drawdowns + [Drawdown(week, Asked(spec, dr, week))]
  {
    hide ContingencyDraw;
  }

  // ---------------------------------------------------------------------------------------------
  // Runs below the line, and above it
  // ---------------------------------------------------------------------------------------------

  /** A run whose cost never passes 102% of planned progress times budgeted cost draws nothing. */
  lemma BelowTheLineNothingIsDrawn(spec: Spec, dr: Drivers, draws: nat -> Draws, span: Span, n: nat)
    requires spec.Valid()
    requires forall k :: 1 <= k <= n ==>
      Run(spec, dr, draws, span.first, k).costToDate
        <= 1.02 * (PlannedAt(spec, span.first + k - 1) * spec.budgetedCost)
    ensures RunWeeks(spec, dr, draws, span, n).reserve == Reserve(0.0, [])
    decreases n
  {
    hide RunWeeks, PlannedAt, Run;
    if n == 0 {
      NoWeeks(spec, dr, draws, span);
    } else {
      BelowTheLineNothingIsDrawn(spec, dr, draws, span, n - 1);
      ReserveSteps(spec, dr, draws, span, n);
    }
  }

  /** How many weeks of a run are above the line. */
  function WeeksAbove(spec: Spec, dr: Drivers, draws: nat -> Draws, first: nat, n: nat): nat
    requires spec.Valid()
    decreases n, first
  {
    if n == 0 then 0
    else WeeksAbove(spec, dr, draws, first, n - 1) + if Above(spec, dr, draws, first, n - 1) then 1 else 0
  }

  /** So many weeks' draws at the declared rate. */
  function AtRate(spec: Spec, dr: Drivers, weeks: nat): real {
    weeks as real * Money.Portion(spec.contingencyBudget, dr.contingencyDrawPerWeek)
  }

  /** Outside recovery, with weekly draws above one, what is consumed is the smaller of the budget and the
      number of weeks above the line times the weekly rate times the budget, less a last remainder of at
      most one once the budget is passed. */
  lemma EveryWeekAboveCounts(spec: Spec, dr: Drivers, draws: nat -> Draws, span: Span, n: nat)
    requires spec.Valid() && (forall week :: span.first <= week < span.first + n ==> !InRecovery(dr, week))
    requires Money.Portion(spec.contingencyBudget, dr.contingencyDrawPerWeek) > 1.0
    ensures var asked := AtRate(spec, dr, WeeksAbove(spec, dr, draws, span.first, n));
      var consumed := RunWeeks(spec, dr, draws, span, n).reserve.consumed;
      if asked <= spec.contingencyBudget then consumed == asked
      else spec.contingencyBudget - 1.0 <= consumed <= spec.contingencyBudget
  {
    hide RunWeeks, WeeksAbove, Demand, InRecovery, AtRate;
    ConsumedIsDemand(spec, dr, draws, span, n);
    DemandOutsideRecovery(spec, dr, draws, span.first, n);
  }

  lemma {:induction false} DemandOutsideRecovery(spec: Spec, dr: Drivers, draws: nat -> Draws, first: nat, n: nat)
    requires spec.Valid() && (forall week :: first <= week < first + n ==> !InRecovery(dr, week))
    requires Money.Portion(spec.contingencyBudget, dr.contingencyDrawPerWeek) > 1.0
    ensures Demand(spec, dr, draws, first, n) == AtRate(spec, dr, WeeksAbove(spec, dr, draws, first, n))
    decreases n
  {
    hide Above, InRecovery, Asked, AtRate;
    if n == 0 {
      NoWeekAtRate(spec, dr);
    } else {
      DemandOutsideRecovery(spec, dr, draws, first, n - 1);
      AskedOutsideRecovery(spec, dr, first + n - 1);
      OneMoreAtRate(spec, dr, WeeksAbove(spec, dr, draws, first, n - 1));
    }
  }

  lemma NoWeekAtRate(spec: Spec, dr: Drivers)
    ensures AtRate(spec, dr, 0) == 0.0
  {
  }

  lemma OneMoreAtRate(spec: Spec, dr: Drivers, weeks: nat)
    ensures AtRate(spec, dr, weeks + 1) == AtRate(spec, dr, weeks)
      + Money.Portion(spec.contingencyBudget, dr.contingencyDrawPerWeek)
  {
    SumTimes(weeks as real, 1.0, Money.Portion(spec.contingencyBudget, dr.contingencyDrawPerWeek));
  }

  lemma AskedOutsideRecovery(spec: Spec, dr: Drivers, week: nat)
    requires !InRecovery(dr, week) && Money.Portion(spec.contingencyBudget, dr.contingencyDrawPerWeek) > 1.0
    ensures Asked(spec, dr, week) == Money.Portion(spec.contingencyBudget, dr.contingencyDrawPerWeek)
  {
    hide ContingencyDraw, Money.Portion;
    DeclaredRate(dr, week);
  }

  lemma DeclaredRate(dr: Drivers, week: nat)
    requires !InRecovery(dr, week)
    ensures ContingencyDraw(dr, week) == dr.contingencyDrawPerWeek
  {
  }

  /** In recovery a week asks for at most four tenths of the declared rate, at least one tenth, and no more
      than the week before. */
  lemma RecoveryAsksForLess(dr: Drivers, week: nat)
    requires dr.Valid() && InRecovery(dr, week)
    ensures 0.1 * dr.contingencyDrawPerWeek <= ContingencyDraw(dr, week) <= 0.4 * dr.contingencyDrawPerWeek
    ensures ContingencyDraw(dr, week + 1) <= ContingencyDraw(dr, week)
    ensures week == dr.recoveryFromWeek.value ==> ContingencyDraw(dr, week) == 0.4 * dr.contingencyDrawPerWeek
  {
    var rate, t, u := dr.contingencyDrawPerWeek, RecoveryTaper(dr, week), RecoveryTaper(dr, week + 1);
    assert ContingencyDraw(dr, week) == 0.4 * (rate * t) && ContingencyDraw(dr, week + 1) == 0.4 * (rate * u);
    SCurve.Product(rate, t - u);
    SCurve.Product(rate, t - 0.25);
    SCurve.Product(rate, 1.0 - t);
    assert rate * (t - u) == rate * t - rate * u && rate * (t - 0.25) == rate * t - 0.25 * rate;
    assert rate * (1.0 - t) == rate - rate * t;
  }
}
