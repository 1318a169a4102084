/** The curated scenarios (scripts/generator/curated.ts): the rows emitted week by week from the
    interpolated checkpoints, and what scripts/assessment/curated-assessment.ts makes of them at a date. */
module Curated {
  import opened Interpolation
  import opened Wrappers
  import Money

  // ---------------------------------------------------------------------------------------------
  // The rows, week by week
  // ---------------------------------------------------------------------------------------------

  datatype Row = Row(on: int, amount: int)

  datatype Facts = Facts(
    prevCost: real, costs: seq<Row>, etcs: seq<Row>, commitments: seq<Row>, drawdowns: seq<Row>)

  datatype Scenario = Scenario(checkpoints: seq<Checkpoint>, start: int, asOf: int) {
    predicate Valid() {
      checkpoints != []
    }

    function Points(): (sorted: seq<Checkpoint>)
      requires Valid()
      ensures sorted != []
    {
      SortKeeps(checkpoints);
      Sorted(checkpoints)
    }

    function At(weeksBefore: nat): Checkpoint
      requires Valid()
    {
      InSorted(Points(), weeksBefore)
    }

    function Horizon(): nat
      requires Valid()
    {
      Points()[0].weeksBefore
    }

    function Date(weeksBefore: nat): int {
      asOf - 7 * weeksBefore
    }

    predicate IsCheckpoint(weeksBefore: nat) {
      exists i :: 0 <= i < |checkpoints| && checkpoints[i].weeksBefore == weeksBefore
    }
  }

  function Emitted(x: real): int {
    Money.Cents(Money.NotNegative(x))
  }

  function DrawAt(sc: Scenario, weeksBefore: nat): real
    requires sc.Valid()
  {
    if weeksBefore == sc.Horizon() then sc.At(weeksBefore).contingencyConsumed
    else sc.At(weeksBefore).contingencyConsumed - sc.At(weeksBefore + 1).contingencyConsumed
  }

  function CostRows(on: int, weekCost: real): seq<Row> {
    [Row(on, Emitted(weekCost * 0.9)), Row(on, Emitted(weekCost * 0.1))]
  }

  function EtcRows(on: int, etc: real): seq<Row> {
    [Row(on, Emitted(etc * 0.88)), Row(on, Emitted(etc * 0.12))]
  }

  predicate Restated(sc: Scenario, weeksBefore: nat) {
    sc.IsCheckpoint(weeksBefore) || weeksBefore % 6 == 0
  }

  /** One week's rows; the weeks before the project started have none. */
  function WeekRows(sc: Scenario, f: Facts, weeksBefore: nat): Facts
    requires sc.Valid()
  {
    var on, point := sc.Date(weeksBefore), sc.At(weeksBefore);
    if on < sc.start then f else
    Facts(
      point.costToDate,
      f.costs + CostRows(on, Money.NotNegative(point.costToDate - f.prevCost)),
      if Restated(sc, weeksBefore) then f.etcs + EtcRows(on, point.etc) else f.etcs,
      if Restated(sc, weeksBefore) then f.commitments + [Row(on, Emitted(point.committed))] else f.commitments,
      if DrawAt(sc, weeksBefore) > 1.0 then f.drawdowns + [Row(on, Emitted(DrawAt(sc, weeksBefore)))] else f.drawdowns)
  }

  /** After `n` weeks from the horizon down. */
  function Down(sc: Scenario, n: nat): Facts
    requires sc.Valid() && n <= sc.Horizon() + 1
    decreases n, sc
  {
    if n == 0 then Facts(0.0, [], [], [], []) else WeekRows(sc, Down(sc, n - 1), sc.Horizon() + 1 - n)
  }

  method BuildCuratedFacts(sc: Scenario) returns (f: Facts)
    requires sc.Valid()
    ensures f == Down(sc, sc.Horizon() + 1)
  {
    hide Sorted, InSorted, CostRows, EtcRows, Emitted, DrawAt, Restated;
    var horizon := sc.Horizon();
    var prevCost := 0.0;
    var costs: seq<Row>, etcs: seq<Row>, commitments: seq<Row>, drawdowns: seq<Row> := [], [], [], [];
    var wb: int := horizon;
    while wb >= 0
      invariant -1 <= wb <= horizon
      invariant Facts(prevCost, costs, etcs, commitments, drawdowns) == Down(sc, horizon - wb)
    {
      var on := sc.Date(wb);
      if on >= sc.start {
        var point := sc.At(wb);
        var weekCost := Money.NotNegative(point.costToDate - prevCost);
        prevCost := point.costToDate;
        costs := costs + CostRows(on, weekCost);
        if Restated(sc, wb) {
          etcs := etcs + EtcRows(on, point.etc);
          commitments := commitments + [Row(on, Emitted(point.committed))];
        }
        var draw := DrawAt(sc, wb);
        if draw > 1.0 {
          drawdowns := drawdowns + [Row(on, Emitted(draw))];
        }
      }
      wb := wb - 1;
    }
    f := Facts(prevCost, costs, etcs, commitments, drawdowns);
  }

  // ---------------------------------------------------------------------------------------------
  // What a reader makes of the rows at a date
  // ---------------------------------------------------------------------------------------------

  /** The total, and the number, of the rows on or before a date. */
  function TotalTo(rows: seq<Row>, cut: int): int {
    if rows == [] then 0 else
    TotalTo(rows[..|rows| - 1], cut) + if rows[|rows| - 1].on <= cut then rows[|rows| - 1].amount else 0
  }

  function CountTo(rows: seq<Row>, cut: int): nat {
    if rows == [] then 0 else
    CountTo(rows[..|rows| - 1], cut) + if rows[|rows| - 1].on <= cut then 1 else 0
  }

  /** The date of the latest row on or before a date. */
  function LatestTo(rows: seq<Row>, cut: int): Option<int> {
    if rows == [] then None else
    var before, last := LatestTo(rows[..|rows| - 1], cut), rows[|rows| - 1].on;
    if last <= cut && (before.None? || last > before.value) then Some(last) else before
  }

  function TotalOn(rows: seq<Row>, on: int): int {
    if rows == [] then 0 else
    TotalOn(rows[..|rows| - 1], on) + if rows[|rows| - 1].on == on then rows[|rows| - 1].amount else 0
  }

  /** The total of the latest rows, as the estimate to complete and the commitments are read. */
  function LatestTotal(rows: seq<Row>, cut: int): int {
    match LatestTo(rows, cut)
    case None => 0
    case Some(on) => TotalOn(rows, on)
  }

  /** Cost to date, latest estimate to complete and latest commitment. */
  function EacAt(f: Facts, cut: int): real {
    Money.Amount(TotalTo(f.costs, cut)) + Money.Amount(LatestTotal(f.etcs, cut))
      + Money.Amount(LatestTotal(f.commitments, cut))
  }

  predicate UpTo(rows: seq<Row>, cut: int) {
    forall i :: 0 <= i < |rows| ==> rows[i].on <= cut
  }

  predicate Before(rows: seq<Row>, cut: int) {
    forall i :: 0 <= i < |rows| ==> rows[i].on < cut
  }

  predicate After(rows: seq<Row>, cut: int) {
    forall i :: 0 <= i < |rows| ==> rows[i].on > cut
  }

  lemma {:induction false} LaterRows(rows: seq<Row>, more: seq<Row>, cut: int)
    requires After(more, cut)
    ensures TotalTo(rows + more, cut) == TotalTo(rows, cut) && CountTo(rows + more, cut) == CountTo(rows, cut)
    ensures LatestTo(rows + more, cut) == LatestTo(rows, cut)
    ensures TotalOn(rows + more, cut) == TotalOn(rows, cut)
    decreases |more|
  {
    if more == [] {
      assert rows + more == rows;
    } else {
      LaterRows(rows, more[..|more| - 1], cut);
      assert (rows + more)[..|rows + more| - 1] == rows + more[..|more| - 1];
    }
  }

  lemma {:induction false} NoneOn(rows: seq<Row>, cut: int)
    requires Before(rows, cut)
    ensures TotalOn(rows, cut) == 0
    ensures LatestTo(rows, cut).Some? ==> LatestTo(rows, cut).value < cut
  {
    if rows != [] { NoneOn(rows[..|rows| - 1], cut); }
  }

  lemma RowAppends(rows: seq<Row>, r: Row, cut: int)
    requires r.on <= cut
    ensures TotalTo(rows + [r], cut) == TotalTo(rows, cut) + r.amount
      && CountTo(rows + [r], cut) == CountTo(rows, cut) + 1
    ensures TotalOn(rows + [r], r.on) == TotalOn(rows, r.on) + r.amount
    ensures (LatestTo(rows, r.on).None? || LatestTo(rows, r.on).value <= r.on)
      ==> LatestTo(rows + [r], r.on) == Some(r.on)
  {
    assert (rows + [r])[..|rows|] == rows;
  }

  lemma {:induction false} EarlierCut(rows: seq<Row>, cut: int, later: int)
    requires UpTo(rows, cut) && cut <= later
    ensures TotalTo(rows, later) == TotalTo(rows, cut) && CountTo(rows, later) == CountTo(rows, cut)
  {
    if rows != [] { EarlierCut(rows[..|rows| - 1], cut, later); }
  }

  lemma RowsGrow(rows: seq<Row>, more: seq<Row>, cut: int)
    requires UpTo(rows, cut - 7) && UpTo(more, cut)
    ensures UpTo(rows + more, cut)
  {
  }

  lemma EmptyDown(sc: Scenario)
    requires sc.Valid()
    ensures Down(sc, 0) == Facts(0.0, [], [], [], [])
  {
  }

  lemma DownSteps(sc: Scenario, wb: nat)
    requires sc.Valid() && wb <= sc.Horizon()
    ensures Down(sc, sc.Horizon() + 1 - wb) == WeekRows(sc, Down(sc, sc.Horizon() - wb), wb)
  {
    hide WeekRows;
  }

  /** The cut sees the same rows in both. */
  predicate SameAt(f: Facts, g: Facts, cut: int) {
    && TotalTo(f.costs, cut) == TotalTo(g.costs, cut) && CountTo(f.costs, cut) == CountTo(g.costs, cut)
    && LatestTo(f.etcs, cut) == LatestTo(g.etcs, cut) && TotalOn(f.etcs, cut) == TotalOn(g.etcs, cut)
    && LatestTo(f.commitments, cut) == LatestTo(g.commitments, cut)
    && TotalOn(f.commitments, cut) == TotalOn(g.commitments, cut)
  }

  lemma WeekAfterCut(sc: Scenario, f: Facts, wb: nat, cut: int)
    requires sc.Valid() && sc.Date(wb) > cut
    ensures SameAt(WeekRows(sc, f, wb), f, cut)
  {
    hide Emitted, DrawAt, Restated, InSorted, TotalTo, CountTo, LatestTo, TotalOn;
    var on, point := sc.Date(wb), sc.At(wb);
    LaterRows(f.costs, CostRows(on, Money.NotNegative(point.costToDate - f.prevCost)), cut);
    LaterRows(f.etcs, EtcRows(on, point.etc), cut);
    LaterRows(f.commitments, [Row(on, Emitted(point.committed))], cut);
  }

  /** What comes after a week changes nothing at that week's cut. */
  lemma {:induction false} CutIsFinal(sc: Scenario, wb: nat, later: nat)
    requires sc.Valid() && later <= wb <= sc.Horizon()
    ensures SameAt(Down(sc, sc.Horizon() + 1 - later), Down(sc, sc.Horizon() + 1 - wb), sc.Date(wb))
    decreases wb - later
  {
    hide Down, WeekRows, TotalTo, CountTo, LatestTo, TotalOn;
    if later < wb {
      CutIsFinal(sc, wb, later + 1);
      DownSteps(sc, later);
      WeekAfterCut(sc, Down(sc, sc.Horizon() - later), later, sc.Date(wb));
    }
  }

  lemma UpToIsBefore(rows: seq<Row>, cut: int)
    requires UpTo(rows, cut - 7)
    ensures Before(rows, cut)
  {
  }

  /** The rows of a week that restates are read back as its estimate and its commitment. */
  lemma RestatedHere(sc: Scenario, f: Facts, wb: nat)
    requires sc.Valid() && Restated(sc, wb) && sc.Date(wb) >= sc.start && AllUpTo(f, sc.Date(wb) - 7)
    ensures var g, on, point := WeekRows(sc, f, wb), sc.Date(wb), sc.At(wb);
      && LatestTo(g.etcs, on) == Some(on)
      && TotalOn(g.etcs, on) == Emitted(point.etc * 0.88) + Emitted(point.etc * 0.12)
      && LatestTo(g.commitments, on) == Some(on) && TotalOn(g.commitments, on) == Emitted(point.committed)
  {
    hide Emitted, DrawAt, InSorted, CostRows, Restated;
    var on, point := sc.Date(wb), sc.At(wb);
    UpToIsBefore(f.etcs, on);
    UpToIsBefore(f.commitments, on);
    NoneOn(f.etcs, on);
    NoneOn(f.commitments, on);
    var a, b := Row(on, Emitted(point.etc * 0.88)), Row(on, Emitted(point.etc * 0.12));
    RowAppends(f.etcs, a, on);
    RowAppends(f.etcs + [a], b, on);
    assert f.etcs + [a] + [b] == f.etcs + EtcRows(on, point.etc);
    RowAppends(f.commitments, Row(on, Emitted(point.committed)), on);
  }

  predicate AllUpTo(f: Facts, cut: int) {
    UpTo(f.costs, cut) && UpTo(f.etcs, cut) && UpTo(f.commitments, cut)
  }

  // ---------------------------------------------------------------------------------------------
  // How fresh an estimate is
  // ---------------------------------------------------------------------------------------------

  predicate NoCheckpointFrom(sc: Scenario, wb: nat) {
    forall w :: wb <= w < wb + 6 ==> !sc.IsCheckpoint(w)
  }

  /** Counted back from the as-of date one week in six restates, the as-of date's own week among them: of any
      six consecutive weeks without a checkpoint exactly one does. */
  lemma OneInSix(sc: Scenario, wb: nat) returns (w: nat)
    ensures wb <= w < wb + 6 && Restated(sc, w) && Restated(sc, 0)
    ensures NoCheckpointFrom(sc, wb) ==> forall v: nat :: wb <= v < wb + 6 && Restated(sc, v) ==> v == w
  {
    w := wb + (6 - wb % 6) % 6;
    assert w % 6 == 0;
    forall v: nat | wb <= v < wb + 6 && v % 6 == 0
      ensures v == w
    {
    }
  }

  /** The estimates of a prefix of the weeks: the latest is of the last week that restated. */
  lemma {:induction false} LatestIsLastRestated(sc: Scenario, wb: nat, w: nat)
    requires sc.Valid() && wb <= w <= sc.Horizon() && Restated(sc, w) && sc.Date(w) >= sc.start
    requires forall v: nat :: wb <= v < w ==> !Restated(sc, v)
    ensures var f := Down(sc, sc.Horizon() + 1 - wb);
      && LatestTo(f.etcs, sc.Date(wb)) == Some(sc.Date(w))
      && LatestTo(f.commitments, sc.Date(wb)) == Some(sc.Date(w))
    decreases w - wb
  {
    hide Down, LatestTo, InSorted, Sorted, Restated, DrawAt, Emitted, CostRows, EtcRows;
    DownSteps(sc, wb);
    WeeksAreDone(sc, wb);
    if wb == w {
      RestatedHere(sc, Down(sc, sc.Horizon() - wb), wb);
    } else {
      LatestIsLastRestated(sc, wb + 1, w);
      var f := Down(sc, sc.Horizon() - wb);
      LatestStays(f.etcs, sc.Date(wb) - 7, sc.Date(wb));
      LatestStays(f.commitments, sc.Date(wb) - 7, sc.Date(wb));
    }
  }

  lemma {:induction false} LatestStays(rows: seq<Row>, cut: int, later: int)
    requires UpTo(rows, cut) && cut <= later
    ensures LatestTo(rows, later) == LatestTo(rows, cut)
  {
    if rows != [] { LatestStays(rows[..|rows| - 1], cut, later); }
  }

  /** At the date of any week that has five emitted weeks before it, the estimate and the commitment that are
      read are at most five weeks old; and at the as-of date they are that day's. */
  lemma EstimateIsFresh(sc: Scenario, wb: nat)
    requires sc.Valid()
    requires (wb + 5 <= sc.Horizon() && sc.Date(wb + 5) >= sc.start) || (wb == 0 && sc.start <= sc.asOf)
    ensures var f := Down(sc, sc.Horizon() + 1);
      && LatestTo(f.etcs, sc.Date(wb)).Some? && LatestTo(f.commitments, sc.Date(wb)) == LatestTo(f.etcs, sc.Date(wb))
      && sc.Date(wb) - 35 <= LatestTo(f.etcs, sc.Date(wb)).value <= sc.Date(wb)
      && (wb == 0 ==> LatestTo(f.etcs, sc.asOf) == Some(sc.asOf))
  {
    hide Down, LatestTo, InSorted, Sorted, TotalTo, CountTo, TotalOn;
    var w := OneInSix(sc, wb);
    if wb == 0 { w := 0; }
    var v := FirstRestated(sc, wb, w);
    LatestIsLastRestated(sc, wb, v);
    CutIsFinal(sc, wb, 0);
  }

  lemma FirstRestated(sc: Scenario, wb: nat, w: nat) returns (v: nat)
    requires wb <= w && Restated(sc, w)
    ensures wb <= v <= w && Restated(sc, v) && forall u: nat :: wb <= u < v ==> !Restated(sc, u)
    decreases w - wb
  {
    hide Restated;
    if Restated(sc, wb) {
      v := wb;
    } else {
      v := FirstRestated(sc, wb + 1, w);
    }
  }

  // ---------------------------------------------------------------------------------------------
  // What each week spends, and what rounding adds
  // ---------------------------------------------------------------------------------------------

  /** The cost the loop has in hand when it comes to a week: that of the week before, if it was emitted. */
  function PrevCost(sc: Scenario, wb: nat): real
    requires sc.Valid() && wb <= sc.Horizon()
  {
    if wb < sc.Horizon() && sc.Date(wb + 1) >= sc.start then sc.At(wb + 1).costToDate else 0.0
  }

  function WeekCost(sc: Scenario, wb: nat): real
    requires sc.Valid() && wb <= sc.Horizon()
  {
    Money.NotNegative(sc.At(wb).costToDate - PrevCost(sc, wb))
  }

  /** What rounding the two cost rows of a week, the two of an estimate, or a commitment, adds. */
  function CostResidue(x: real): real {
    Money.Amount(Emitted(x * 0.9) + Emitted(x * 0.1)) - Money.NotNegative(x)
  }

  function EtcResidue(x: real): real {
    Money.Amount(Emitted(x * 0.88) + Emitted(x * 0.12)) - Money.NotNegative(x)
  }

  function CommitmentResidue(x: real): real {
    Money.Amount(Emitted(x)) - Money.NotNegative(x)
  }

  /** The cost, the rounding and the number of the emitted weeks down to week `wb`. */
  function Spent(sc: Scenario, wb: nat): real
    requires sc.Valid() && wb <= sc.Horizon()
    decreases sc.Horizon() - wb
  {
    (if wb == sc.Horizon() then 0.0 else Spent(sc, wb + 1)) + if sc.Date(wb) >= sc.start then WeekCost(sc, wb) else 0.0
  }

  function Drift(sc: Scenario, wb: nat): real
    requires sc.Valid() && wb <= sc.Horizon()
    decreases sc.Horizon() - wb
  {
    (if wb == sc.Horizon() then 0.0 else Drift(sc, wb + 1))
    + if sc.Date(wb) >= sc.start then CostResidue(WeekCost(sc, wb)) else 0.0
  }

  function Weeks(sc: Scenario, wb: nat): nat
    requires sc.Valid() && wb <= sc.Horizon()
    decreases sc.Horizon() - wb
  {
    (if wb == sc.Horizon() then 0 else Weeks(sc, wb + 1)) + if sc.Date(wb) >= sc.start then 1 else 0
  }

  /** What holds once week `wb` is done: the emitted cost is what was spent and what rounding added. */
  predicate Done(sc: Scenario, f: Facts, wb: nat)
    requires sc.Valid() && wb <= sc.Horizon()
  {
    && AllUpTo(f, sc.Date(wb))
    && f.prevCost == (if sc.Date(wb) >= sc.start then sc.At(wb).costToDate else 0.0)
    && Money.Amount(TotalTo(f.costs, sc.Date(wb))) == Spent(sc, wb) + Drift(sc, wb)
  }

  /** The state in which the loop comes to week `wb`. */
  predicate Ready(sc: Scenario, f: Facts, wb: nat)
    requires sc.Valid() && wb <= sc.Horizon()
  {
    && AllUpTo(f, sc.Date(wb) - 7) && f.prevCost == PrevCost(sc, wb)
    && Money.Amount(TotalTo(f.costs, sc.Date(wb) - 7))
       == if wb == sc.Horizon() then 0.0 else Spent(sc, wb + 1) + Drift(sc, wb + 1)
  }

  lemma CostRowsAdd(costs: seq<Row>, on: int, weekCost: real)
    requires UpTo(costs, on - 7) && weekCost >= 0.0
    ensures Money.Amount(TotalTo(costs + CostRows(on, weekCost), on))
         == Money.Amount(TotalTo(costs, on - 7)) + weekCost + CostResidue(weekCost)
  {
    hide Emitted, Money.Amount;
    var a, b := Row(on, Emitted(weekCost * 0.9)), Row(on, Emitted(weekCost * 0.1));
    EarlierCut(costs, on - 7, on);
    RowAppends(costs, a, on);
    RowAppends(costs + [a], b, on);
    assert costs + [a] + [b] == costs + CostRows(on, weekCost);
    Money.AmountsAdd(TotalTo(costs, on), a.amount + b.amount);
  }

  lemma WeekRowsAreUpTo(sc: Scenario, f: Facts, wb: nat)
    requires sc.Valid() && AllUpTo(f, sc.Date(wb) - 7)
    ensures AllUpTo(WeekRows(sc, f, wb), sc.Date(wb))
  {
    hide Emitted, DrawAt, Restated, InSorted, CostRows, EtcRows, UpTo;
    var on, point := sc.Date(wb), sc.At(wb);
    var weekCost := Money.NotNegative(point.costToDate - f.prevCost);
    RowsAreOn(on, weekCost, point.etc, Emitted(point.committed));
    RowsGrow(f.costs, CostRows(on, weekCost), on);
    RowsGrow(f.etcs, EtcRows(on, point.etc), on);
    RowsGrow(f.commitments, [Row(on, Emitted(point.committed))], on);
    RowsStay(f.costs, on);
    RowsStay(f.etcs, on);
    RowsStay(f.commitments, on);
  }

  lemma RowsStay(rows: seq<Row>, cut: int)
    requires UpTo(rows, cut - 7)
    ensures UpTo(rows, cut)
  {
  }

  lemma WeekRowsCost(sc: Scenario, f: Facts, wb: nat)
    requires sc.Valid() && wb <= sc.Horizon() && UpTo(f.costs, sc.Date(wb) - 7) && f.prevCost == PrevCost(sc, wb)
    ensures Money.Amount(TotalTo(WeekRows(sc, f, wb).costs, sc.Date(wb)))
         == Money.Amount(TotalTo(f.costs, sc.Date(wb) - 7))
            + if sc.Date(wb) >= sc.start then WeekCost(sc, wb) + CostResidue(WeekCost(sc, wb)) else 0.0
    ensures WeekRows(sc, f, wb).prevCost == if sc.Date(wb) >= sc.start then sc.At(wb).costToDate else f.prevCost
  {
    hide Emitted, DrawAt, Restated, InSorted, TotalTo, CostResidue, CostRows, EtcRows, Money.Amount, UpTo, PrevCost;
    if sc.Date(wb) >= sc.start {
      CostRowsAdd(f.costs, sc.Date(wb), WeekCost(sc, wb));
    } else {
      EarlierCut(f.costs, sc.Date(wb) - 7, sc.Date(wb));
    }
  }

  lemma SkippedHasNoCost(sc: Scenario, wb: nat)
    requires sc.Valid() && wb <= sc.Horizon() && sc.Date(wb) < sc.start
    ensures PrevCost(sc, wb) == 0.0
  {
    hide InSorted;
  }

  lemma WeekIsDone(sc: Scenario, f: Facts, wb: nat)
    requires sc.Valid() && wb <= sc.Horizon() && Ready(sc, f, wb)
    ensures Done(sc, WeekRows(sc, f, wb), wb)
  {
    hide WeekRows, InSorted, TotalTo, CostResidue, WeekCost, Money.Amount, UpTo, PrevCost, Sorted;
    WeekRowsAreUpTo(sc, f, wb);
    WeekRowsCost(sc, f, wb);
    if sc.Date(wb) < sc.start { SkippedHasNoCost(sc, wb); }
  }

  lemma RowsAreOn(on: int, weekCost: real, etc: real, committed: int)
    ensures UpTo(CostRows(on, weekCost), on) && UpTo(EtcRows(on, etc), on) && UpTo([Row(on, committed)], on)
  {
  }

  lemma NothingYet(sc: Scenario)
    requires sc.Valid()
    ensures Ready(sc, Facts(0.0, [], [], [], []), sc.Horizon())
  {
  }

  /** Over every prefix of the weeks the emitted cost is, to the cent, what the weeks spent and what
      rounding them added: no condition on the checkpoints. */
  lemma {:induction false} WeeksAreDone(sc: Scenario, wb: nat)
    requires sc.Valid() && wb <= sc.Horizon()
    ensures Ready(sc, Down(sc, sc.Horizon() - wb), wb)
    ensures Done(sc, Down(sc, sc.Horizon() + 1 - wb), wb)
    decreases sc.Horizon() - wb
  {
    hide Down, WeekRows, Done, Ready, InSorted, Sorted;
    DownSteps(sc, wb);
    if wb == sc.Horizon() {
      EmptyDown(sc);
      NothingYet(sc);
    } else {
      WeeksAreDone(sc, wb + 1);
      DoneIsReady(sc, Down(sc, sc.Horizon() - wb), wb);
    }
    WeekIsDone(sc, Down(sc, sc.Horizon() - wb), wb);
  }

  lemma DoneIsReady(sc: Scenario, f: Facts, wb: nat)
    requires sc.Valid() && wb < sc.Horizon() && Done(sc, f, wb + 1)
    ensures Ready(sc, f, wb)
  {
    hide InSorted, TotalTo, Spent, Drift, UpTo, Money.Amount;
    assert sc.Date(wb + 1) == sc.Date(wb) - 7;
  }

  // ---------------------------------------------------------------------------------------------
  // When the weekly costs telescope
  // ---------------------------------------------------------------------------------------------

  /** From the emitted weeks' point of view the cost never falls, and starts at nothing or above. */
  predicate NeverFalls(sc: Scenario, wb: nat)
    requires sc.Valid() && wb <= sc.Horizon()
    decreases sc.Horizon() - wb
  {
    && (wb < sc.Horizon() ==> NeverFalls(sc, wb + 1))
    && (sc.Date(wb) >= sc.start ==> PrevCost(sc, wb) <= sc.At(wb).costToDate)
  }

  /** Weekly costs telescope to the interpolated cost exactly when it never falls; otherwise they sum to
      more. */
  lemma {:induction false} WeeklyCostsTelescope(sc: Scenario, wb: nat)
    requires sc.Valid() && wb <= sc.Horizon() && sc.Date(wb) >= sc.start
    ensures Spent(sc, wb) >= sc.At(wb).costToDate
    ensures Spent(sc, wb) == sc.At(wb).costToDate <==> NeverFalls(sc, wb)
    decreases sc.Horizon() - wb
  {
    hide InSorted, Sorted;
    if wb < sc.Horizon() {
      if sc.Date(wb + 1) >= sc.start {
        WeeklyCostsTelescope(sc, wb + 1);
      } else {
        NothingSpent(sc, wb + 1);
      }
    }
  }

  lemma {:induction false} NothingSpent(sc: Scenario, wb: nat)
    requires sc.Valid() && wb <= sc.Horizon() && sc.Date(wb) < sc.start
    ensures Spent(sc, wb) == 0.0 && NeverFalls(sc, wb)
    decreases sc.Horizon() - wb
  {
    hide InSorted, Sorted;
    if wb < sc.Horizon() { NothingSpent(sc, wb + 1); }
  }

  /** Checkpoints whose costs start at nothing or above and do not fall. */
  predicate Plausible(sc: Scenario)
    requires sc.Valid()
  {
    CostsRise(sc.Points()) && sc.Points()[0].costToDate >= 0.0
  }

  lemma CostIsNotNegative(sc: Scenario, wb: nat)
    requires sc.Valid() && Plausible(sc)
    ensures sc.At(wb).costToDate >= 0.0
    ensures sc.At(wb + 1).costToDate <= sc.At(wb).costToDate
  {
    hide InSorted, Sorted;
    SortKeeps(sc.checkpoints);
    WeekRises(sc.Points(), wb);
    var far := if wb > sc.Horizon() then wb else sc.Horizon();
    BeyondHorizon(sc, far);
    InterpolationIsMonotone(sc.Points(), far, wb);
  }

  lemma BeyondHorizon(sc: Scenario, far: nat)
    requires sc.Valid() && far >= sc.Horizon()
    ensures sc.At(far) == sc.Points()[0]
  {
  }

  /** Such checkpoints, shared weeks included, never fall between. */
  lemma {:induction false} PlausibleNeverFalls(sc: Scenario, wb: nat)
    requires sc.Valid() && Plausible(sc) && wb <= sc.Horizon()
    ensures NeverFalls(sc, wb)
    decreases sc.Horizon() - wb
  {
    hide InSorted, Sorted, Plausible;
    CostIsNotNegative(sc, wb);
    if wb < sc.Horizon() { PlausibleNeverFalls(sc, wb + 1); }
  }

  // ---------------------------------------------------------------------------------------------
  // The estimate at completion
  // ---------------------------------------------------------------------------------------------

  /** At every week that restates, and for ever after, the estimate at completion is what was spent, the
      week's estimate and its commitment, and what rounding them adds: an equation, not a bound. */
  lemma EacIsAccountedFor(sc: Scenario, wb: nat)
    requires sc.Valid() && wb <= sc.Horizon() && Restated(sc, wb) && sc.Date(wb) >= sc.start
    ensures var point := sc.At(wb);
      EacAt(Down(sc, sc.Horizon() + 1), sc.Date(wb))
      == Spent(sc, wb) + Money.NotNegative(point.etc) + Money.NotNegative(point.committed)
         + (Drift(sc, wb) + EtcResidue(point.etc) + CommitmentResidue(point.committed))
  {
    hide Down, WeekRows, TotalTo, CountTo, LatestTo, TotalOn, Emitted, InSorted, Sorted, Money.Amount, Restated,
      Spent, Drift, UpTo;
    WeeksAreDone(sc, wb);
    DownSteps(sc, wb);
    RestatedHere(sc, Down(sc, sc.Horizon() - wb), wb);
    CutIsFinal(sc, wb, 0);
  }

  function TargetAt(sc: Scenario, wb: nat): real
    requires sc.Valid()
  {
    sc.At(wb).costToDate + sc.At(wb).etc + sc.At(wb).committed
  }

  predicate Estimated(sc: Scenario, wb: nat)
    requires sc.Valid() && wb <= sc.Horizon()
  {
    && Restated(sc, wb) && sc.Date(wb) >= sc.start && NeverFalls(sc, wb)
    && sc.At(wb).etc >= 0.0 && sc.At(wb).committed >= 0.0
  }

  /** The target is met but for rounding. */
  lemma EacMissesByRounding(sc: Scenario, wb: nat)
    requires sc.Valid() && wb <= sc.Horizon() && Estimated(sc, wb)
    ensures EacAt(Down(sc, sc.Horizon() + 1), sc.Date(wb)) - TargetAt(sc, wb)
         == Drift(sc, wb) + EtcResidue(sc.At(wb).etc) + CommitmentResidue(sc.At(wb).committed)
  {
    hide Down, InSorted, Sorted, Restated, EtcResidue, CommitmentResidue, Spent, Drift, EacAt, NeverFalls;
    EacIsAccountedFor(sc, wb);
    WeeklyCostsTelescope(sc, wb);
  }

  lemma ResiduesAreSmall(x: real)
    requires x >= 0.0
    ensures -0.01 <= CostResidue(x) <= 0.01 && -0.01 <= EtcResidue(x) <= 0.01 && -0.005 <= CommitmentResidue(x) <= 0.005
  {
    SplitClose(x, x * 0.9, x * 0.1);
    SplitClose(x, x * 0.88, x * 0.12);
    Money.CentsAreClose(x);
  }

  lemma SplitClose(x: real, a: real, b: real)
    requires a >= 0.0 && b >= 0.0 && a + b == x
    ensures -0.01 <= Money.Amount(Emitted(a) + Emitted(b)) - x <= 0.01
  {
    Money.CentsAreClose(a);
    Money.CentsAreClose(b);
    Money.AmountsAdd(Emitted(a), Emitted(b));
  }

  lemma {:induction false} DriftIsSmall(sc: Scenario, wb: nat)
    requires sc.Valid() && wb <= sc.Horizon()
    ensures -0.01 * Weeks(sc, wb) as real <= Drift(sc, wb) <= 0.01 * Weeks(sc, wb) as real
    decreases sc.Horizon() - wb
  {
    hide InSorted, Sorted, CostResidue;
    if wb < sc.Horizon() { DriftIsSmall(sc, wb + 1); }
    ResiduesAreSmall(WeekCost(sc, wb));
  }

  lemma WithinHorizon(sc: Scenario, c: Checkpoint)
    requires sc.Valid() && c in sc.checkpoints
    ensures c.weeksBefore <= sc.Horizon()
  {
    SortKeeps(sc.checkpoints);
    var k := Position(sc.checkpoints, c);
  }

  lemma IsRestated(sc: Scenario, c: Checkpoint)
    requires c in sc.checkpoints
    ensures Restated(sc, c.weeksBefore)
  {
    var i :| 0 <= i < |sc.checkpoints| && sc.checkpoints[i] == c;
    assert sc.checkpoints[i].weeksBefore == c.weeksBefore;
  }

  /** A checkpoint alone in its week, of a project that had started, with costs that do not fall. */
  predicate OnPlan(sc: Scenario, c: Checkpoint)
    requires sc.Valid()
  {
    && c in sc.checkpoints && (forall d :: d in sc.checkpoints && d.weeksBefore == c.weeksBefore ==> d == c)
    && Plausible(sc) && sc.Date(c.weeksBefore) >= sc.start && c.etc >= 0.0 && c.committed >= 0.0
  }

  lemma OnPlanIsEstimated(sc: Scenario, c: Checkpoint)
    requires sc.Valid() && OnPlan(sc, c)
    ensures c.weeksBefore <= sc.Horizon() && sc.At(c.weeksBefore) == c && Estimated(sc, c.weeksBefore)
  {
    hide Sorted, InSorted, Plausible, Restated;
    WithinHorizon(sc, c);
    IsRestated(sc, c);
    ExactAtCheckpoints(sc.checkpoints, c);
    PlausibleNeverFalls(sc, c.weeksBefore);
  }

  /** At every checkpoint cost to date, latest estimate and latest commitment sum to the checkpoint's
      target, to half a cent for each row read: two a week, two and one. */
  lemma EacLandsOnTarget(sc: Scenario, c: Checkpoint)
    requires sc.Valid() && OnPlan(sc, c)
    ensures var wb := c.weeksBefore;
      && wb <= sc.Horizon()
      && var slack := 0.005 * (2 * Weeks(sc, wb) + 3) as real;
         -slack <= EacAt(Down(sc, sc.Horizon() + 1), sc.Date(wb)) - (c.costToDate + c.etc + c.committed) <= slack
  {
    hide Down, Sorted, InSorted, EacAt, Drift, Weeks, EtcResidue, CommitmentResidue, CostResidue, Plausible, Estimated;
    OnPlanIsEstimated(sc, c);
    EacMissesByRounding(sc, c.weeksBefore);
    DriftIsSmall(sc, c.weeksBefore);
    ResiduesAreSmall(c.etc);
    ResiduesAreSmall(c.committed);
    assert 0.005 * (2 * Weeks(sc, c.weeksBefore) + 3) as real == 0.01 * Weeks(sc, c.weeksBefore) as real + 0.015;
  }

  // ---------------------------------------------------------------------------------------------
  // Contingency
  // ---------------------------------------------------------------------------------------------

  function RowTotal(rows: seq<Row>): int {
    if rows == [] then 0 else RowTotal(rows[..|rows| - 1]) + rows[|rows| - 1].amount
  }

  /** The increments of the emitted weeks that are too small to be rows: an opening balance of at most one
      is among them. */
  function Dropped(sc: Scenario, n: nat): real
    requires sc.Valid() && n <= sc.Horizon() + 1
    decreases n, sc
  {
    if n == 0 then 0.0 else
    var wb := sc.Horizon() + 1 - n;
    Dropped(sc, n - 1) + if sc.Date(wb) >= sc.start && DrawAt(sc, wb) <= 1.0 then DrawAt(sc, wb) else 0.0
  }

  /** What was consumed before the first emitted week and is never emitted: nothing when the horizon's
      own week is emitted, for then the opening balance is drawn whole. */
  function Unseen(sc: Scenario, wb: nat): real
    requires sc.Valid() && wb <= sc.Horizon()
    decreases sc.Horizon() - wb
  {
    if wb == sc.Horizon() then 0.0
    else if sc.Date(wb + 1) >= sc.start then Unseen(sc, wb + 1)
    else sc.At(wb + 1).contingencyConsumed
  }

  /** The last emitted week before nothing more is: going back from `wb`, the first of the project. */
  function FirstEmitted(sc: Scenario, wb: nat): (first: nat)
    requires sc.Valid() && wb <= sc.Horizon()
    ensures wb <= first <= sc.Horizon()
    decreases sc.Horizon() - wb
  {
    if wb < sc.Horizon() && sc.Date(wb + 1) >= sc.start then FirstEmitted(sc, wb + 1) else wb
  }

  /** What is never emitted is what had been consumed at the last skipped week.  So nothing is missing if
      and only if the horizon's own week is emitted, or nothing had been consumed by then. */
  lemma {:induction false} UnseenIs(sc: Scenario, wb: nat)
    requires sc.Valid() && wb <= sc.Horizon() && sc.Date(wb) >= sc.start
    ensures var first := FirstEmitted(sc, wb);
      && Unseen(sc, wb) == (if first == sc.Horizon() then 0.0 else sc.At(first + 1).contingencyConsumed)
      && (first == sc.Horizon() <==> sc.Date(sc.Horizon()) >= sc.start)
      && (Unseen(sc, wb) == 0.0
          <==> sc.Date(sc.Horizon()) >= sc.start || sc.At(first + 1).contingencyConsumed == 0.0)
    decreases sc.Horizon() - wb
  {
    hide InSorted, Sorted;
    if wb < sc.Horizon() {
      if sc.Date(wb + 1) >= sc.start { UnseenIs(sc, wb + 1); }
    }
  }

  /** A project that starts a week after its first checkpoint, with a thousand consumed by then and no more
      since: nothing is ever drawn. */
  lemma OpeningBalanceCanVanish(sc: Scenario, early: Checkpoint, late: Checkpoint)
    requires sc.checkpoints == [early, late] && sc.start == sc.asOf
    requires early.weeksBefore == 1 && late.weeksBefore == 0
    requires early.contingencyConsumed == 1000.0 && late.contingencyConsumed == 1000.0
    ensures sc.Valid() && sc.Horizon() == 1 && sc.At(0).contingencyConsumed == 1000.0
    ensures Down(sc, sc.Horizon() + 1).drawdowns == [] && Unseen(sc, 0) == 1000.0
  {
    TwoPoints(sc, early, late);
    hide Sorted, InSorted;
    EmptyDown(sc);
    DownSteps(sc, 1);
    DownSteps(sc, 0);
  }

  lemma TwoPoints(sc: Scenario, early: Checkpoint, late: Checkpoint)
    requires sc.checkpoints == [early, late] && early.weeksBefore == 1 && late.weeksBefore == 0
    ensures sc.Points() == [early, late] && sc.Horizon() == 1 && sc.At(1) == early && sc.At(0) == late
  {
    assert sc.checkpoints[..1] == [early] && [early][..0] == [];
    assert Sorted([]) == [] && Sorted([early]) == [early];
  }

  lemma {:induction false} NothingDropped(sc: Scenario, n: nat)
    requires sc.Valid() && 0 < n <= sc.Horizon() + 1 && sc.Date(sc.Horizon() + 1 - n) < sc.start
    ensures Dropped(sc, n) == 0.0 && Down(sc, n).drawdowns == []
    decreases n
  {
    hide InSorted, Sorted, DrawAt;
    if n > 1 { NothingDropped(sc, n - 1); }
  }

  lemma DrawAdds(rows: seq<Row>, x: real, on: int, draw: real)
    requires Money.Near(RowTotal(rows), x, |rows|) && draw >= 0.0
    ensures Money.Near(RowTotal(rows + [Row(on, Emitted(draw))]), x + draw, |rows| + 1)
  {
    hide Money.Near, Money.Cents;
    assert (rows + [Row(on, Emitted(draw))])[..|rows|] == rows;
    Money.NearAdds(RowTotal(rows), x, |rows|, draw);
  }

  lemma NoRows()
    ensures Money.Near(RowTotal([]), 0.0, 0)
  {
  }

  /** In every prefix of the weeks that has begun, drawdowns and dropped increments together are what
      has been consumed, less what was consumed before anything was emitted, to half a cent a row. */
  lemma {:induction false} DrawdownsTelescope(sc: Scenario, wb: nat)
    requires sc.Valid() && wb <= sc.Horizon() && sc.Date(wb) >= sc.start
    ensures var n := sc.Horizon() + 1 - wb;
      Money.Near(RowTotal(Down(sc, n).drawdowns), sc.At(wb).contingencyConsumed - Unseen(sc, wb) - Dropped(sc, n),
           |Down(sc, n).drawdowns|)
    decreases sc.Horizon() - wb
  {
    hide Down, Money.Near, InSorted, Sorted, RowTotal, Emitted, CostRows, EtcRows, Restated;
    var n, f := sc.Horizon() + 1 - wb, Down(sc, sc.Horizon() - wb);
    DownSteps(sc, wb);
    var draw := DrawAt(sc, wb);
    if wb == sc.Horizon() {
      EmptyDown(sc);
      NoRows();
    } else if sc.Date(wb + 1) >= sc.start {
      DrawdownsTelescope(sc, wb + 1);
    } else {
      NothingDropped(sc, n - 1);
      NoRows();
    }
    var before := sc.At(wb).contingencyConsumed - draw - Unseen(sc, wb) - Dropped(sc, n - 1);
    assert Money.Near(RowTotal(f.drawdowns), before, |f.drawdowns|);
    if draw > 1.0 {
      DrawAdds(f.drawdowns, before, sc.Date(wb), draw);
    }
  }
}
