/** What the rows of a run say of when and what (scripts/generator/simulate.ts): scope and change requests,
    the estimate in force, and the dates of revenue postings. */
module RunLaws {
  import opened Delivery
  import opened Simulation
  import opened Wrappers
  import Money
  import Recognition
  import Rng
  import SCurve
  import Scope

  // ---------------------------------------------------------------------------------------------
  // Scope
  // ---------------------------------------------------------------------------------------------

  /** Outside recovery the share of scope that becomes a change request is the declared one; recovery lifts
      it by up to 37.5 points, 1.75 a week, and never beyond 95%. */
  lemma CommercialisationIs(dr: Drivers, week: nat)
    ensures var c := Scope.Commercialisation(dr, week);
      && (!InRecovery(dr, week) ==> c == dr.scopeCommercialisationRate)
      && (InRecovery(dr, week) ==>
            var k := week - dr.recoveryFromWeek.value;
            var lifted := dr.scopeCommercialisationRate + if k < 22 then 0.0175 * k as real else 0.375;
            c == if lifted < 0.95 then lifted else 0.95)
  {
  }

  /** What becomes of a week's scope, by its four draws. */
  lemma ArrivalIff(dr: Drivers, d: Draws, value: real, week: nat, today: int, asOf: int)
    requires d.Valid()
    ensures var a := Scope.ArrivalOf(dr, d, value, week, today, asOf);
      var asked := d.commercialised < Scope.Commercialisation(dr, week);
      && (a == Scope.Nothing <==> value <= 500.0 || d.scope >= 0.55)
      && (a == Scope.Absorbed <==> value > 500.0 && d.scope < 0.55 && !asked)
      && (a.Signed? ==> value > 500.0 && d.scope < 0.55 && asked && d.execute < 0.6
                        && today + 21 <= a.executedOn <= today + 63 && a.executedOn <= asOf)
      && (a == Scope.Waiting ==> value > 500.0 && d.scope < 0.55 && asked && (d.execute >= 0.6 || asOf < today + 63))
  {
    hide Scope.Commercialisation, Rng.Int;
    Rng.IntBounds(d.executeDays, 21, 63);
  }

  /** An executed change is of a week of the run and that week's scope: three to nine weeks later, not after
      the as-of date, at a cost of 74% of its value. */
  predicate ExecutedInTime(e: Scope.Executed, value: real, span: Span, n: nat) {
    && span.first <= e.id < span.first + n && e.fromPending == e.id
    && span.Today(e.id) + 21 <= e.executedOn <= span.Today(e.id) + 63 && e.executedOn <= span.asOf
    && e.value == value && e.cost == 0.74 * value
  }

  /** An item, and a change request, is of a week of the run and that week's date. */
  predicate ItemInTime(i: Scope.Item, value: real, span: Span, n: nat) {
    i.value == value && span.first <= i.week < span.first + n && i.raisedOn == span.Today(i.week)
  }

  predicate PendingInTime(p: Scope.Pending, value: real, span: Span, n: nat) {
    p.value == value && span.first <= p.id < span.first + n && p.raisedOn == span.Today(p.id)
  }

  predicate InTime(l: Scope.Ledger, value: real, span: Span, n: nat) {
    && (forall i :: 0 <= i < |l.items| ==> ItemInTime(l.items[i], value, span, n))
    && (forall i :: 0 <= i < |l.pending| ==> PendingInTime(l.pending[i], value, span, n))
    && (forall i :: 0 <= i < |l.executed| ==> ExecutedInTime(l.executed[i], value, span, n))
  }

  lemma {:induction false} ScopeIsInTime(spec: Spec, dr: Drivers, draws: nat -> Draws, span: Span, n: nat)
    requires spec.Valid() && AllValid(draws)
    ensures InTime(RunWeeks(spec, dr, draws, span, n).scope, dr.scopeCreepPerWeek * spec.contractValue, span, n)
    decreases n
  {
    hide RunWeeks, Week, Scope.ArrivalOf, Scope.Arrive, Scope.Commercialisation, InTime, ScopeValue;
    ScopeValueIs(spec, dr);
    if n == 0 {
      NoWeeks(spec, dr, draws, span);
      NothingInTime(ScopeValue(spec, dr), span);
    } else {
      ScopeIsInTime(spec, dr, draws, span, n - 1);
      OneMoreWeek(spec, dr, draws, span, n - 1);
      var week, s := span.first + n - 1, RunWeeks(spec, dr, draws, span, n - 1);
      ScopeOfWeek(spec, dr, draws(week), span, s, week);
      assert draws(week).Valid();
      var value, today := ScopeValue(spec, dr), span.Today(week);
      var a := Scope.ArrivalOf(dr, draws(week), value, week, today, span.asOf);
      ArrivalIff(dr, draws(week), value, week, today, span.asOf);
      ArrivesInTime(s.scope, a, value, span, n);
    }
  }

  lemma ScopeValueIs(spec: Spec, dr: Drivers)
    ensures ScopeValue(spec, dr) == dr.scopeCreepPerWeek * spec.contractValue
  {
  }

  lemma NothingInTime(value: real, span: Span)
    ensures InTime(Scope.EMPTY, value, span, 0)
  {
  }

  lemma ScopeOfWeek(spec: Spec, dr: Drivers, d: Draws, span: Span, s: State, week: nat)
    requires spec.Valid() && week >= span.first
    ensures var value, today := ScopeValue(spec, dr), span.Today(week);
      Week(spec, dr, d, span, s, week).scope
      == Scope.Arrive(s.scope, Scope.ArrivalOf(dr, d, value, week, today, span.asOf), value, week, today)
  {
    hide Scope.Arrive, Scope.ArrivalOf, Revised, Recognition.Post, Recognition.Target, Drawn, Money.Cents,
      Delivery.Next;
  }

  lemma ArrivesInTime(l: Scope.Ledger, a: Scope.Arrival, value: real, span: Span, n: nat)
    requires n > 0 && InTime(l, value, span, n - 1)
    requires var today := span.Today(span.first + n - 1);
      a.Signed? ==> today + 21 <= a.executedOn <= today + 63 && a.executedOn <= span.asOf
    ensures InTime(Scope.Arrive(l, a, value, span.first + n - 1, span.Today(span.first + n - 1)), value, span, n)
  {
  }

  // ---------------------------------------------------------------------------------------------
  // The estimate in force
  // ---------------------------------------------------------------------------------------------

  /** An estimate is of the share of the plan that is left: in proportion to it, and all of the planned hours,
      at the week's drag and rate and as optimistic as declared, when nothing is done; committed is 5% to
      14% of it. */
  lemma EstimateIsOfTheRest(spec: Spec, dr: Drivers, d: Draws, physical: real, week: nat)
    requires spec.Valid() && dr.Valid() && d.Valid() && physical <= 1.0
    ensures var e, all := Revised(spec, dr, d, physical, week), Revised(spec, dr, d, 0.0, week);
      && e.etc == Money.Portion(all.etc, 1.0 - physical)
      && all.etc == spec.plannedHours * Drag(dr, week) * HourlyRate(spec, dr, week) * dr.etcOptimism
      && 0.05 * e.etc <= e.committed <= 0.14 * e.etc
  {
    hide HourlyRate, Rng.Range, Drag;
    var hours, drag, rate := spec.plannedHours, Drag(dr, week), HourlyRate(spec, dr, week);
    InProportion(1.0 - physical, hours, drag, rate, dr.etcOptimism);
    InProportion(1.0, hours, drag, rate, dr.etcOptimism);
    RevisedIsNotNegative(spec, dr, d, physical, week);
    Rng.RangeBounds(d.committed, 0.05, 0.14);
    var e := Revised(spec, dr, d, physical, week);
    var share := Rng.Range(d.committed, 0.05, 0.14);
    SCurve.Product(e.etc, share - 0.05);
    SCurve.Product(e.etc, 0.14 - share);
    assert e.etc * (share - 0.05) == e.committed - 0.05 * e.etc && e.etc * (0.14 - share) == 0.14 * e.etc - e.committed;
  }

  lemma InProportion(left: real, hours: real, drag: real, rate: real, optimism: real)
    ensures left * hours * drag * rate * optimism == Money.Portion(hours * drag * rate * optimism, left)
  {
    assert left * hours * drag == left * (hours * drag);
    assert left * (hours * drag) * rate == left * (hours * drag * rate);
    assert left * (hours * drag * rate) * optimism == left * (hours * drag * rate * optimism);
  }

  /** Revised every fourth week, the estimate in force is the one of the last such week, from the progress the
      project had made by its end: so it is never more than three weeks old.  Before the first such week there
      is none. */
  lemma {:induction false} EstimateIsInForce(spec: Spec, dr: Drivers, draws: nat -> Draws, span: Span, n: nat, k: nat)
    requires spec.Valid() && k < n && (span.first + k) % 4 == 0 && n <= k + 4
    ensures RunWeeks(spec, dr, draws, span, n).estimate
         == Revised(spec, dr, draws(span.first + k), Run(spec, dr, draws, span.first, k + 1).physical, span.first + k)
    decreases n
  {
    hide RunWeeks, Week, Revised, Run;
    EstimateSteps(spec, dr, draws, span, n);
    if k < n - 1 {
      EstimateIsInForce(spec, dr, draws, span, n - 1, k);
    }
  }

  lemma EstimateSteps(spec: Spec, dr: Drivers, draws: nat -> Draws, span: Span, n: nat)
    requires spec.Valid() && n > 0
    ensures var week := span.first + n - 1;
      RunWeeks(spec, dr, draws, span, n).estimate ==
        if week % 4 == 0 then Revised(spec, dr, draws(week), Run(spec, dr, draws, span.first, n).physical, week)
        else RunWeeks(spec, dr, draws, span, n - 1).estimate
  {
    hide Week, RunWeeks, Revised, Run;
    OneMoreWeek(spec, dr, draws, span, n - 1);
    WorkIsDelivery(spec, dr, draws, span, n);
    var week := span.first + n - 1;
    EstimateOfWeek(spec, dr, draws(week), span, RunWeeks(spec, dr, draws, span, n - 1), week);
  }

  lemma EstimateOfWeek(spec: Spec, dr: Drivers, d: Draws, span: Span, s: State, week: nat)
    requires spec.Valid() && week >= span.first
    ensures var t := Week(spec, dr, d, span, s, week);
      t.estimate == if week % 4 == 0 then Revised(spec, dr, d, t.work.physical, week) else s.estimate
  {
    hide Scope.Arrive, Scope.ArrivalOf, Revised, Recognition.Post, Recognition.Target, Drawn, Money.Cents,
      Delivery.Next;
  }

  lemma {:induction false} NoEstimateYet(spec: Spec, dr: Drivers, draws: nat -> Draws, span: Span, n: nat)
    requires spec.Valid() && forall week :: span.first <= week < span.first + n ==> week % 4 != 0
    ensures RunWeeks(spec, dr, draws, span, n).estimate == Estimate(0.0, 0.0)
    decreases n
  {
    hide RunWeeks, Week, Revised, Run;
    if n == 0 {
      NoWeeks(spec, dr, draws, span);
    } else {
      NoEstimateYet(spec, dr, draws, span, n - 1);
      EstimateSteps(spec, dr, draws, span, n);
    }
  }

  // ---------------------------------------------------------------------------------------------
  // Revenue postings
  // ---------------------------------------------------------------------------------------------

  /** A posting is the first version of its period, stamped three days after the date of the week, one in four,
      that it was posted in, whose month is its period. */
  predicate PostedInWeek(p: Recognition.Posting, span: Span, week: nat) {
    && week % 4 == 0 && p.day == span.Today(week) + 3 && p.period == span.month(span.Today(week))
    && p.id == Recognition.First(p.period) && p.version == 1 && p.supersedes == None && p.originalFact == None
  }

  predicate Posted(p: Recognition.Posting, span: Span, n: nat) {
    exists week: nat :: span.first <= week < span.first + n && PostedInWeek(p, span, week)
  }

  lemma {:induction false} PostingsAreDated(spec: Spec, dr: Drivers, draws: nat -> Draws, span: Span, n: nat, i: nat)
    requires spec.Valid() && i < |RunWeeks(spec, dr, draws, span, n).books.postings|
    ensures Posted(RunWeeks(spec, dr, draws, span, n).books.postings[i], span, n)
    decreases n
  {
    hide RunWeeks, Week, PostedInWeek;
    if n == 0 {
      NoWeeks(spec, dr, draws, span);
    } else {
      OneMoreWeek(spec, dr, draws, span, n - 1);
      var week, s := span.first + n - 1, RunWeeks(spec, dr, draws, span, n - 1);
      PostingOfWeek(spec, dr, draws(week), span, s, week);
      if i < |s.books.postings| {
        PostingsAreDated(spec, dr, draws, span, n - 1, i);
      } else {
        assert PostedInWeek(RunWeeks(spec, dr, draws, span, n).books.postings[i], span, week);
      }
    }
  }

  lemma PostingOfWeek(spec: Spec, dr: Drivers, d: Draws, span: Span, s: State, week: nat)
    requires spec.Valid() && week >= span.first
    ensures var before, after := s.books.postings, Week(spec, dr, d, span, s, week).books.postings;
      after == before || (after[..|before|] == before && |after| == |before| + 1
                          && PostedInWeek(after[|before|], span, week))
  {
    hide Scope.Arrive, Scope.ArrivalOf, Revised, Recognition.Target, Drawn, Money.Cents, Delivery.Next;
  }
}
