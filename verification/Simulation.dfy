/** The whole weekly loop of scripts/generator/simulate.ts over its drivers: work, scope, estimate,
    contingency and recognised revenue, with the rows each pushes. */
module Simulation {
  import opened Wrappers
  import opened Delivery
  import Billing
  import Money
  import Recognition
  import Rng
  import Scope

  /** The calendar and the span of the history; `month` numbers the month of a day. */
  datatype Span = Span(first: nat, start: int, asOf: int, month: int -> int) {
    function Today(week: nat): int {
      start + 7 * (week - first)
    }
  }

  datatype Estimate = Estimate(etc: real, committed: real)

  datatype Drawdown = Drawdown(week: nat, amount: real)

  datatype Reserve = Reserve(consumed: real, drawdowns: seq<Drawdown>)

  datatype State = State(
    work: Work, costs: seq<int>, scope: Scope.Ledger, estimate: Estimate, reserve: Reserve, books: Recognition.Books)

  // ---------------------------------------------------------------------------------------------
  // One week
  // ---------------------------------------------------------------------------------------------

  function ScopeValue(spec: Spec, dr: Drivers): real {
    dr.scopeCreepPerWeek * spec.contractValue
  }

  /** `Math.max(0, 1 - physical)` of the hours, at the drag and the rate of the week. */
  function HonestEtc(spec: Spec, dr: Drivers, physical: real, week: nat): real {
    Money.NotNegative(1.0 - physical) * spec.plannedHours * Drag(dr, week) * HourlyRate(spec, dr, week)
  }

  function Revised(spec: Spec, dr: Drivers, d: Draws, physical: real, week: nat): Estimate {
    var etc := HonestEtc(spec, dr, physical, week) * dr.etcOptimism;
    Estimate(etc, etc * Rng.Range(d.committed, 0.05, 0.14))
  }

  function ContingencyDraw(dr: Drivers, week: nat): real {
    dr.contingencyDrawPerWeek * if InRecovery(dr, week) then RecoveryTaper(dr, week) * 0.4 else 1.0
  }

  predicate RunsAhead(spec: Spec, costToDate: real, week: nat)
    requires spec.Valid()
  {
    costToDate > PlannedAt(spec, week) * spec.budgetedCost * 1.02
  }

  function DrawOf(spec: Spec, dr: Drivers, consumed: real, week: nat): real {
    var wanted := Money.Portion(spec.contingencyBudget, ContingencyDraw(dr, week));
    if wanted < spec.contingencyBudget - consumed then wanted else spec.contingencyBudget - consumed
  }

  function Drawn(spec: Spec, dr: Drivers, costToDate: real, r: Reserve, week: nat): Reserve
    requires spec.Valid()
  {
    if !(RunsAhead(spec, costToDate, week) && r.consumed < spec.contingencyBudget) then r else
    var draw := DrawOf(spec, dr, r.consumed, week);
    if draw > 1.0 then Reserve(r.consumed + draw, r.drawdowns + [Drawdown(week, draw)]) else r
  }

  function Week(spec: Spec, dr: Drivers, d: Draws, span: Span, s: State, week: nat): State
    requires spec.Valid() && week >= span.first
  {
    var today := span.Today(week);
    var work := Next(spec, dr, d, s.work, week);
    var costs := s.costs + [Money.Cents(Labour(spec, dr, week)), Money.Cents(NonLabour(spec, dr, d, week))];
    var value := ScopeValue(spec, dr);
    var scope := Scope.Arrive(s.scope, Scope.ArrivalOf(dr, d, value, week, today, span.asOf), value, week, today);
    var estimate := if week % 4 == 0 then Revised(spec, dr, d, work.physical, week) else s.estimate;
    var reserve := Drawn(spec, dr, work.costToDate, s.reserve, week);
    var books := if week % 4 == 0
      then Recognition.Post(s.books, span.month(today), today,
             Recognition.Target(
               spec.contractValue + scope.executedValue, work.costToDate, estimate.etc, estimate.committed))
      else s.books;
    State(work, costs, scope, estimate, reserve, books)
  }

  /** The state at the start of week `span.first + n`. */
  function RunWeeks(spec: Spec, dr: Drivers, draws: nat -> Draws, span: Span, n: nat): State
    requires spec.Valid()
    decreases n, span.first
  {
    if n == 0 then
      State(Opening(spec, dr, span.first), [], Scope.EMPTY, Estimate(0.0, 0.0), Reserve(0.0, []), Recognition.CLOSED)
    else Week(spec, dr, draws(span.first + n - 1), span, RunWeeks(spec, dr, draws, span, n - 1), span.first + n - 1)
  }

  lemma NoWeeks(spec: Spec, dr: Drivers, draws: nat -> Draws, span: Span)
    requires spec.Valid()
    ensures RunWeeks(spec, dr, draws, span, 0)
      == State(Opening(spec, dr, span.first), [], Scope.EMPTY, Estimate(0.0, 0.0), Reserve(0.0, []), Recognition.CLOSED)
  {
  }

  lemma OneMoreWeek(spec: Spec, dr: Drivers, draws: nat -> Draws, span: Span, n: nat)
    requires spec.Valid()
    ensures RunWeeks(spec, dr, draws, span, n + 1)
         == Week(spec, dr, draws(span.first + n), span, RunWeeks(spec, dr, draws, span, n), span.first + n)
  {
    hide Week;
  }

  /** The week's work, statement by statement: the dependency, the hours, progress, cost and defects. */
  method WorkWeek(spec: Spec, dr: Drivers, d: Draws, work: Work, week: nat) returns (next: Work)
    requires spec.Valid()
    ensures next == Next(spec, dr, d, work, week)
  {
    hide GrossHours, Divided, ProgressIncrement, OpenMajorDefects, WantedRework, InRecovery, AtMostOne, Labour,
      NonLabour, Rng.Range, Rng.Int, Rng.Chance;
    var blockedUntil := work.blockedUntil;
    if blockedUntil.None?
      && Rng.Chance(d.block, dr.dependencyBlockChance * if InRecovery(dr, week) then 0.35 else 1.0)
    {
      blockedUntil := Some(week + Rng.Int(d.blockWeeks, 1, 5));
    }
    var blockedFraction := 0.0;
    if blockedUntil.Some? {
      if week < blockedUntil.value {
        blockedFraction := Rng.Range(d.blocked, 0.15, 0.45);
      } else {
        blockedUntil := None;
      }
    }
    var grossHours := GrossHours(spec, week);
    var hours := Divided(grossHours, WantedRework(dr, work.openMajorDefects, week), blockedFraction);
    DividedGross(grossHours, WantedRework(dr, work.openMajorDefects, week), blockedFraction);
    var physical := AtMostOne(work.physical + ProgressIncrement(spec, dr, hours.Capacity(), work.physical, week));
    var totalHours := work.totalHours + grossHours;
    var reworkHours := work.reworkHours + hours.rework;
    var costToDate := work.costToDate + (Labour(spec, dr, week) + NonLabour(spec, dr, d, week));
    var openMajorDefects := OpenMajorDefects(dr, d, work.openMajorDefects, week, hours.productive);
    next := Work(physical, totalHours, reworkHours, costToDate, openMajorDefects, blockedUntil);
  }

  lemma DividedGross(gross: real, wanted: real, fraction: real)
    ensures Divided(gross, wanted, fraction).gross == gross
  {
  }

  /** Contingency is drawn when cost runs ahead of the plan and some is left. */
  method DrawContingency(spec: Spec, dr: Drivers, costToDate: real, reserve: Reserve, week: nat) returns (next: Reserve)
    requires spec.Valid()
    ensures next == Drawn(spec, dr, costToDate, reserve, week)
  {
    next := reserve;
    if RunsAhead(spec, costToDate, week) && reserve.consumed < spec.contingencyBudget {
      var draw := DrawOf(spec, dr, reserve.consumed, week);
      if draw > 1.0 {
        next := Reserve(reserve.consumed + draw, reserve.drawdowns + [Drawdown(week, draw)]);
      }
    }
  }

  /** The loop.  It leaves what the specification says after the weeks it ran, and runs every week there
      is. */
  method SimulateProject(spec: Spec, dr: Drivers, draws: nat -> Draws, span: Span)
    returns (weeks: nat, facts: Scope.Facts, ledger: Recognition.Ledger, end: State)
    requires spec.Valid()
    ensures end == RunWeeks(spec, dr, draws, span, weeks)
    ensures fresh(facts) && facts.Value() == end.scope && fresh(ledger) && ledger.Value() == end.books
    ensures var next := span.first + weeks; span.start + 7 * weeks > span.asOf || next > spec.durationWeeks + 8
    ensures weeks > 0 ==> span.start + 7 * (weeks - 1) <= span.asOf && span.first + weeks - 1 <= spec.durationWeeks + 8
  {
    hide Next, Scope.Arrive, Scope.ArrivalOf, Revised, Drawn, Recognition.Post, Recognition.Target, Money.Cents, Labour,
      NonLabour, Opening, ScopeValue, Scope.Named, Scope.AllBefore, RunWeeks;
    NoWeeks(spec, dr, draws, span);
    Scope.EmptyIsNamed(span.first);
    facts := new Scope.Facts();
    ledger := new Recognition.Ledger();
    var weekIndex := span.first;
    var cursor := span.start;
    var work := Opening(spec, dr, span.first);
    var estimate := Estimate(0.0, 0.0);
    var reserve := Reserve(0.0, []);
    var costs: seq<int> := [];
    while cursor <= span.asOf && weekIndex <= spec.durationWeeks + 8
      invariant weekIndex >= span.first && cursor == span.Today(weekIndex)
      invariant fresh(facts) && fresh(ledger)
      invariant Scope.Named(facts.Value(), weekIndex)
      invariant State(work, costs, facts.Value(), estimate, reserve, ledger.Value())
             == RunWeeks(spec, dr, draws, span, weekIndex - span.first)
      invariant weekIndex > span.first ==> cursor - 7 <= span.asOf && weekIndex - 1 <= spec.durationWeeks + 8
      decreases spec.durationWeeks + 9 - weekIndex
    {
      OneMoreWeek(spec, dr, draws, span, weekIndex - span.first);
      var d := draws(weekIndex);
      work := WorkWeek(spec, dr, d, work, weekIndex);
      costs := costs + [Money.Cents(Labour(spec, dr, weekIndex)), Money.Cents(NonLabour(spec, dr, d, weekIndex))];

      var scopeValue := ScopeValue(spec, dr);
      Scope.ArriveKeepsNames(facts.Value(), Scope.ArrivalOf(dr, d, scopeValue, weekIndex, cursor, span.asOf),
        scopeValue, weekIndex, cursor);
      Scope.NamedMeans(facts.Value(), weekIndex);
      facts.ArriveWeek(dr, d, scopeValue, weekIndex, cursor, span.asOf);

      if weekIndex % 4 == 0 { estimate := Revised(spec, dr, d, work.physical, weekIndex); }
      reserve := DrawContingency(spec, dr, work.costToDate, reserve, weekIndex);
      if weekIndex % 4 == 0 {
        ledger.Recognise(span.month(cursor), cursor,
          Recognition.Target(
            spec.contractValue + facts.executedValue, work.costToDate, estimate.etc, estimate.committed));
      }
      cursor := cursor + 7;
      weekIndex := weekIndex + 1;
    }
    weeks := weekIndex - span.first;
    end := State(work, costs, facts.Value(), estimate, reserve, ledger.Value());
  }

  // ---------------------------------------------------------------------------------------------
  // What every week keeps
  // ---------------------------------------------------------------------------------------------

  /** The work of the loop is the work of the run of Delivery, so its laws hold here. */
  lemma {:induction false} WorkIsDelivery(spec: Spec, dr: Drivers, draws: nat -> Draws, span: Span, n: nat)
    requires spec.Valid()
    ensures RunWeeks(spec, dr, draws, span, n).work == Run(spec, dr, draws, span.first, n)
    decreases n
  {
    hide Next, Scope.Arrive, Scope.ArrivalOf, Revised, Drawn, Recognition.Post, Recognition.Target, Opening,
      Money.Cents;
    if n > 0 { WorkIsDelivery(spec, dr, draws, span, n - 1); }
  }

  function CostTotal(costs: seq<int>): int {
    if costs == [] then 0 else CostTotal(costs[..|costs| - 1]) + costs[|costs| - 1]
  }

  lemma CostAppends(costs: seq<int>, a: int, b: int)
    ensures CostTotal(costs + [a, b]) == CostTotal(costs) + a + b
  {
    assert (costs + [a, b])[..|costs + [a, b]| - 1] == costs + [a];
    assert (costs + [a])[..|costs + [a]| - 1] == costs;
  }

  /** The emitted cost rows sum to the cost so far less the opening cost, which no row carries, within
      half a cent a row. */
  predicate CostsAddUp(costs: seq<int>, total: real) {
    Money.Near(CostTotal(costs), total, |costs|)
  }

  lemma CostsAdd(costs: seq<int>, total: real, a: real, b: real)
    requires CostsAddUp(costs, total)
    ensures CostsAddUp(costs + [Money.Cents(a), Money.Cents(b)], total + (a + b))
  {
    hide CostTotal, Money.Cents, Money.Near;
    CostAppends(costs, Money.Cents(a), Money.Cents(b));
    Money.NearAdds(CostTotal(costs), total, |costs|, a);
    Money.NearAdds(CostTotal(costs) + Money.Cents(a), total + a, |costs| + 1, b);
    assert total + a + b == total + (a + b);
  }

  lemma NoCosts()
    ensures CostsAddUp([], 0.0)
  {
  }

  lemma {:induction false} CostRowsAddUp(spec: Spec, dr: Drivers, draws: nat -> Draws, span: Span, n: nat)
    requires spec.Valid()
    ensures var s := RunWeeks(spec, dr, draws, span, n);
      CostsAddUp(s.costs, s.work.costToDate - Opening(spec, dr, span.first).costToDate)
    decreases n
  {
    hide Scope.Arrive, Scope.ArrivalOf, Revised, Drawn, Recognition.Post, Recognition.Target, Opening, Money.Cents,
      CostsAddUp, Labour, NonLabour, HoursOf, ProgressIncrement, OpenMajorDefects, Blocking;
    if n == 0 {
      NoCosts();
      assert Opening(spec, dr, span.first).costToDate - Opening(spec, dr, span.first).costToDate == 0.0;
    } else {
      CostRowsAddUp(spec, dr, draws, span, n - 1);
      var week, before := span.first + n - 1, RunWeeks(spec, dr, draws, span, n - 1);
      var labour, nonLabour := Labour(spec, dr, week), NonLabour(spec, dr, draws(week), week);
      var total := before.work.costToDate - Opening(spec, dr, span.first).costToDate;
      CostsAdd(before.costs, total, labour, nonLabour);
      assert total + (labour + nonLabour)
          == RunWeeks(spec, dr, draws, span, n).work.costToDate - Opening(spec, dr, span.first).costToDate;
    }
  }

  /** In every run all scope is in exactly one of the three totals, and the executed and the superseded
      rows name each other. */
  lemma {:induction false} ScopeIsConserved(spec: Spec, dr: Drivers, draws: nat -> Draws, span: Span, n: nat)
    requires spec.Valid()
    ensures var l := RunWeeks(spec, dr, draws, span, n).scope;
      Scope.Balanced(l) && Scope.Named(l, span.first + n) && Scope.MutualLinks(l.pending, l.executed)
    decreases n
  {
    hide Scope.Arrive, Scope.ArrivalOf, Scope.Balanced, Scope.Named, Scope.MutualLinks, Next, Drawn, Revised,
      Recognition.Post, Recognition.Target, ScopeValue, Opening, Money.Cents;
    if n == 0 {
      EmptyScope(span.first);
    } else {
      ScopeIsConserved(spec, dr, draws, span, n - 1);
      var week, l := span.first + n - 1, RunWeeks(spec, dr, draws, span, n - 1).scope;
      var value, today := ScopeValue(spec, dr), span.Today(span.first + n - 1);
      var a := Scope.ArrivalOf(dr, draws(week), value, week, today, span.asOf);
      Scope.ArriveKeepsBalance(l, a, value, week, today);
      Scope.ArriveKeepsNames(l, a, value, week, today);
      Scope.ArriveKeepsLinks(l, a, value, week, today);
    }
  }

  lemma EmptyScope(week: nat)
    ensures Scope.Balanced(Scope.EMPTY) && Scope.Named(Scope.EMPTY, week)
    ensures Scope.MutualLinks(Scope.EMPTY.pending, Scope.EMPTY.executed)
  {
  }

  /** So, cut at any date, the pending and the executed changes of a run are together worth the same. */
  lemma EveryCutIsWorthTheSame(spec: Spec, dr: Drivers, draws: nat -> Draws, span: Span, n: nat, cut: int)
    requires spec.Valid()
    ensures var l := RunWeeks(spec, dr, draws, span, n).scope;
      Scope.PendingValueAt(l.pending, l.executed, cut) + Scope.ExecutedValueAt(l.executed, cut)
      == l.pendingValue + l.executedValue
  {
    hide RunWeeks, Scope.MutualLinks, Scope.PendingValueAt, Scope.ExecutedValueAt, Scope.Named;
    ScopeIsConserved(spec, dr, draws, span, n);
    var l := RunWeeks(spec, dr, draws, span, n).scope;
    Scope.CombinedValueIsConstant(l.pending, l.executed, cut);
    Scope.ProposedIsWaitingOrExecuted(l.pending, l.executed);
  }

  // ---------------------------------------------------------------------------------------------
  // Contingency
  // ---------------------------------------------------------------------------------------------

  function DrawnTotal(drawdowns: seq<Drawdown>): real {
    if drawdowns == [] then 0.0 else DrawnTotal(drawdowns[..|drawdowns| - 1]) + drawdowns[|drawdowns| - 1].amount
  }

  lemma DrawnAppends(drawdowns: seq<Drawdown>, d: Drawdown)
    ensures DrawnTotal(drawdowns + [d]) == DrawnTotal(drawdowns) + d.amount
  {
    assert (drawdowns + [d])[..|drawdowns|] == drawdowns;
  }

  /** Each drawdown is above one, together they are what is consumed, and that is within the budget. */
  predicate Within(r: Reserve, budget: real) {
    && 0.0 <= r.consumed <= budget && r.consumed == DrawnTotal(r.drawdowns)
    && forall i :: 0 <= i < |r.drawdowns| ==> r.drawdowns[i].amount > 1.0
  }

  lemma DrawnStaysWithin(spec: Spec, dr: Drivers, costToDate: real, r: Reserve, week: nat)
    requires spec.Valid() && Within(r, spec.contingencyBudget)
    ensures Within(Drawn(spec, dr, costToDate, r, week), spec.contingencyBudget)
    ensures r.drawdowns <= Drawn(spec, dr, costToDate, r, week).drawdowns
  {
    hide RunsAhead, ContingencyDraw, DrawnTotal;
    var draw := DrawOf(spec, dr, r.consumed, week);
    assert draw <= spec.contingencyBudget - r.consumed;
    DrawnAppends(r.drawdowns, Drawdown(week, draw));
  }

  lemma NothingDrawn(budget: real)
    requires budget >= 0.0
    ensures Within(Reserve(0.0, []), budget)
  {
  }

  /** In every run the contingency consumed is the sum of its drawdowns and never more than its budget. */
  lemma {:induction false} ContingencyStaysWithin(spec: Spec, dr: Drivers, draws: nat -> Draws, span: Span, n: nat)
    requires spec.Valid()
    ensures Within(RunWeeks(spec, dr, draws, span, n).reserve, spec.contingencyBudget)
    decreases n
  {
    hide Scope.Arrive, Scope.ArrivalOf, Next, Drawn, Revised, Recognition.Post, Recognition.Target, ScopeValue, Opening,
      Money.Cents, Within;
    if n == 0 {
      NothingDrawn(spec.contingencyBudget);
    } else {
      ContingencyStaysWithin(spec, dr, draws, span, n - 1);
      var week, before := span.first + n - 1, RunWeeks(spec, dr, draws, span, n - 1);
      DrawnStaysWithin(spec, dr, Next(spec, dr, draws(week), before.work, week).costToDate, before.reserve, week);
    }
  }

  // ---------------------------------------------------------------------------------------------
  // Recognised revenue
  // ---------------------------------------------------------------------------------------------

  /** Four weeks on is the same month or the next. */
  predicate MonthMoves(month: int -> int, day: int) {
    month(day) <= month(day + 28) <= month(day) + 1
  }

  ghost predicate Calendar(month: int -> int) {
    forall day :: MonthMoves(month, day)
  }

  predicate NotNegativeEstimate(e: Estimate) {
    e.etc >= 0.0 && e.committed >= 0.0
  }

  lemma RevisedIsNotNegative(spec: Spec, dr: Drivers, d: Draws, physical: real, week: nat)
    requires spec.Valid() && dr.Valid() && d.Valid()
    ensures NotNegativeEstimate(Revised(spec, dr, d, physical, week))
  {
    hide HourlyRate, Rng.Range;
    var remaining, drag, rate := Money.NotNegative(1.0 - physical), Drag(dr, week), HourlyRate(spec, dr, week);
    RateBounds(spec, dr, week);
    Rng.RangeBounds(d.committed, 0.05, 0.14);
    Delivery.SCurve.Product(remaining, spec.plannedHours);
    Delivery.SCurve.Product(remaining * spec.plannedHours, drag);
    Delivery.SCurve.Product(remaining * spec.plannedHours * drag, rate);
    var honest := HonestEtc(spec, dr, physical, week);
    assert honest >= 0.0;
    hide HonestEtc;
    Delivery.SCurve.Product(honest, dr.etcOptimism);
    Delivery.SCurve.Product(honest * dr.etcOptimism, Rng.Range(d.committed, 0.05, 0.14));
  }

  lemma OpeningCost(spec: Spec, dr: Drivers, first: nat)
    requires spec.Valid()
    ensures Opening(spec, dr, first).costToDate >= 0.0
  {
    hide PlannedAt;
    OpeningProgress(spec, dr, first);
    var physical := Opening(spec, dr, first).physical;
    Delivery.SCurve.Product(physical, spec.budgetedCost);
  }

  lemma CostIsNotNegative(spec: Spec, dr: Drivers, draws: nat -> Draws, span: Span, n: nat)
    requires spec.Valid() && dr.Valid() && AllValid(draws)
    ensures RunWeeks(spec, dr, draws, span, n).work.costToDate >= 0.0
  {
    hide Opening, Run, RunWeeks, Priced;
    WorkIsDelivery(spec, dr, draws, span, n);
    CostFollowsHours(spec, dr, draws, span.first, n);
    OpeningCost(spec, dr, span.first);
  }

  /** The day of the last four-weekly tick before week `week`. */
  function LastTick(week: nat): int {
    (week - 1) / 4 * 4
  }

  /** What holds of the books at the start of a week. */
  predicate Booked(spec: Spec, span: Span, s: State, week: nat)
    requires week >= span.first
  {
    && Recognition.Sound(s.books) && s.books.cumulative <= spec.contractValue + s.scope.executedValue
    && s.scope.executedValue >= 0.0 && NotNegativeEstimate(s.estimate)
    && (s.books.last.Some? ==>
          LastTick(week) >= span.first
          && s.books.last.value == span.month(span.start + 7 * (LastTick(week) - span.first)))
  }

  lemma TickFollows(span: Span, week: nat)
    requires week >= span.first && Calendar(span.month)
    ensures week % 4 == 0 ==> MonthMoves(span.month, span.Today(week) - 28)
    ensures week % 4 == 0 ==> span.start + 7 * (LastTick(week) - span.first) == span.Today(week) - 28
    ensures week % 4 == 0 ==> LastTick(week + 1) == week
    ensures week % 4 != 0 ==> LastTick(week + 1) == LastTick(week)
  {
  }

  lemma EmptyBooks()
    ensures Recognition.Sound(Recognition.CLOSED)
  {
  }

  lemma WeekKeepsBooked(spec: Spec, dr: Drivers, d: Draws, span: Span, s: State, week: nat)
    requires spec.Valid() && dr.Valid() && d.Valid() && week >= span.first && Calendar(span.month)
    requires Booked(spec, span, s, week) && Next(spec, dr, d, s.work, week).costToDate >= 0.0
    ensures Booked(spec, span, Week(spec, dr, d, span, s, week), week + 1)
    ensures s.books.postings <= Week(spec, dr, d, span, s, week).books.postings
    ensures s.books.cumulative <= Week(spec, dr, d, span, s, week).books.cumulative
  {
    hide Scope.Arrive, Scope.ArrivalOf, Next, Drawn, Revised, Recognition.Post, Recognition.Target, ScopeValue,
      Money.Cents, Recognition.Sound, Labour, NonLabour, LastTick, MonthMoves, Calendar;
    var today, t := span.Today(week), Week(spec, dr, d, span, s, week);
    var value := ScopeValue(spec, dr);
    Scope.ExecutedGrows(s.scope, dr, d, value, week, today, span.asOf);
    RevisedIsNotNegative(spec, dr, d, t.work.physical, week);
    TickFollows(span, week);
    if week % 4 == 0 {
      var contractual := spec.contractValue + t.scope.executedValue;
      Recognition.TargetBounds(contractual, t.work.costToDate, t.estimate.etc, t.estimate.committed);
      MonthMeans(span.month, today - 28);
      Recognition.PostKeepsSound(s.books, span.month(today), today,
        Recognition.Target(contractual, t.work.costToDate, t.estimate.etc, t.estimate.committed), contractual);
      PostMoves(s.books, span.month(today), today,
        Recognition.Target(contractual, t.work.costToDate, t.estimate.etc, t.estimate.committed));
    }
  }

  lemma MonthMeans(month: int -> int, day: int)
    requires MonthMoves(month, day)
    ensures month(day) <= month(day + 28) <= month(day) + 1
  {
  }

  lemma PostMoves(b: Recognition.Books, period: int, date: int, target: real)
    ensures Recognition.Post(b, period, date, target).last == Some(period)
  {
  }

  /** In every run the original postings are one for each month in turn, none negative and none skipped;
      they sum to the cumulative, which never falls and never passes the contract and what has been
      executed on it. */
  lemma {:induction false} RevenueIsSound(spec: Spec, dr: Drivers, draws: nat -> Draws, span: Span, n: nat)
    requires spec.Valid() && dr.Valid() && AllValid(draws) && Calendar(span.month)
    ensures Booked(spec, span, RunWeeks(spec, dr, draws, span, n), span.first + n)
    ensures RunWeeks(spec, dr, draws, span, n).books.cumulative
      <= RunWeeks(spec, dr, draws, span, n + 1).books.cumulative
    ensures RunWeeks(spec, dr, draws, span, n).books.postings <= RunWeeks(spec, dr, draws, span, n + 1).books.postings
    decreases n
  {
    hide Week, Recognition.Sound, Calendar, Next, Opening;
    if n == 0 {
      EmptyBooks();
    } else {
      RevenueIsSound(spec, dr, draws, span, n - 1);
      NextCost(spec, dr, draws, span, n - 1);
      WeekKeepsBooked(spec, dr, draws(span.first + n - 1), span, RunWeeks(spec, dr, draws, span, n - 1),
        span.first + n - 1);
    }
    NextCost(spec, dr, draws, span, n);
    WeekKeepsBooked(spec, dr, draws(span.first + n), span, RunWeeks(spec, dr, draws, span, n), span.first + n);
  }

  lemma NextCost(spec: Spec, dr: Drivers, draws: nat -> Draws, span: Span, n: nat)
    requires spec.Valid() && dr.Valid() && AllValid(draws)
    ensures var week := span.first + n;
      Next(spec, dr, draws(week), RunWeeks(spec, dr, draws, span, n).work, week).costToDate >= 0.0
  {
    hide Next, Scope.Arrive, Scope.ArrivalOf, Drawn, Revised, Recognition.Post, Recognition.Target, ScopeValue, Opening,
      Money.Cents;
    CostIsNotNegative(spec, dr, draws, span, n + 1);
  }

  lemma {:induction false} AllAreOriginal(postings: seq<Recognition.Posting>)
    requires Recognition.Originals(postings)
    ensures Recognition.OnlyOriginals(postings) == postings
  {
    if postings != [] {
      AllAreOriginal(postings[..|postings| - 1]);
      assert postings[..|postings| - 1] + [postings[|postings| - 1]] == postings;
    }
  }

  lemma SoundBooksBill(b: Recognition.Books)
    requires Recognition.Sound(b)
    ensures Recognition.Originals(b.postings) && Recognition.OnePostingAPeriod(b.postings)
    ensures Billing.CumulativeNeverFalls(b.postings)
  {
    hide Recognition.SumsUp, Money.Cents;
  }

  /** Over a run's postings, corrected or not, billing keeps paid within invoiced and invoiced within the
      billed fraction of the cumulative last posted, to half a cent an invoice. */
  lemma RunBillsWithinRecognised(
      spec: Spec, dr: Drivers, draws: nat -> Draws, span: Span, n: nat, d: Recognition.CorrectionDraws,
      bill: nat -> real)
    requires spec.Valid() && dr.Valid() && AllValid(draws) && Calendar(span.month) && d.Valid()
      && Billing.InUnit(bill, 0)
    requires RunWeeks(spec, dr, draws, span, n).books.postings != []
    ensures var postings := RunWeeks(spec, dr, draws, span, n).books.postings;
      var originals := Recognition.OnlyOriginals(postings + Recognition.Corrections(postings, d));
      var b := Billing.BillsAfter(originals, |originals|, bill, span.asOf);
      && originals == postings
      && Billing.Paid(b.payments) <= Billing.Invoiced(b.invoices)
      && Money.Amount(Billing.Invoiced(b.invoices))
           <= Billing.TargetBilled(postings[|postings| - 1], bill) + 0.005 * |b.invoices| as real
      && (Billing.Fraction(bill) < Billing.THRESHOLD ==>
            20 * Billing.Invoiced(b.invoices) <= 19 * postings[|postings| - 1].cumulative)
  {
    hide RunWeeks, Recognition.Sound, Calendar, Recognition.Corrections, Billing.BillsAfter, Billing.TargetBilled,
      Money.Amount;
    RevenueIsSound(spec, dr, draws, span, n);
    var s := RunWeeks(spec, dr, draws, span, n);
    SoundBooksBill(s.books);
    AllAreOriginal(s.books.postings);
    Recognition.CorrectionsAreNotOriginal(s.books.postings, d);
    Billing.PaidWithinInvoicedWithinRecognised(s.books.postings, |s.books.postings|, bill, span.asOf);
    if Billing.Fraction(bill) < Billing.THRESHOLD {
      Billing.InvoicedWithinBilled(s.books.postings, |s.books.postings|, bill, span.asOf);
    }
  }
}
