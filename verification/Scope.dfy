/** Scope arrivals and change requests: the ledger that scripts/generator/simulate.ts keeps, and the
    cut that scripts/assessment/curated-assessment.ts takes of it at any date.  Dates are day numbers;
    a change is named by the week it was raised in, as the generator's ids are. */
module Scope {
  import opened Wrappers
  import Delivery
  import Rng

  datatype Item = Item(week: nat, raisedOn: int, uncontracted: bool, value: real)

  datatype Pending = Pending(id: nat, raisedOn: int, value: real, supersededBy: Option<nat>)

  datatype Executed = Executed(id: nat, executedOn: int, value: real, cost: real, fromPending: nat)

  /** The rows and the four running totals. */
  datatype Ledger = Ledger(
    items: seq<Item>, pending: seq<Pending>, executed: seq<Executed>,
    pendingValue: real, executedValue: real, executedCost: real, uncontractedValue: real)

  const EMPTY := Ledger([], [], [], 0.0, 0.0, 0.0, 0.0)

  // ---------------------------------------------------------------------------------------------
  // One week's arrival
  // ---------------------------------------------------------------------------------------------

  function Commercialisation(dr: Delivery.Drivers, week: nat): real {
    if !Delivery.InRecovery(dr, week) then dr.scopeCommercialisationRate else
    var lifted := dr.scopeCommercialisationRate + (1.0 - Delivery.RecoveryTaper(dr, week)) * 0.5;
    if lifted < 0.95 then lifted else 0.95
  }

  datatype Arrival = Nothing | Absorbed | Waiting | Signed(executedOn: int)

  /** What becomes of the scope of a week. */
  function ArrivalOf(dr: Delivery.Drivers, d: Delivery.Draws, value: real, week: nat, today: int, asOf: int): Arrival {
    if !(value > 500.0 && Rng.Chance(d.scope, 0.55)) then Nothing
    else if !Rng.Chance(d.commercialised, Commercialisation(dr, week)) then Absorbed
    else
      var executedOn := today + Rng.Int(d.executeDays, 21, 63);
      if Rng.Chance(d.execute, 0.6) && executedOn <= asOf then Signed(executedOn) else Waiting
  }

  function Arrive(l: Ledger, a: Arrival, value: real, week: nat, today: int): Ledger {
    match a
    case Nothing => l
    case Absorbed =>
      l.(items := l.items + [Item(week, today, true, value)], uncontractedValue := l.uncontractedValue + value)
    case Waiting =>
      l.(items := l.items + [Item(week, today, false, value)],
         pending := l.pending + [Pending(week, today, value, None)],
         pendingValue := l.pendingValue + value)
    case Signed(executedOn) =>
      l.(items := l.items + [Item(week, today, false, value)],
         pending := l.pending + [Pending(week, today, value, Some(week))],
         executed := l.executed + [Executed(week, executedOn, value, value * 0.74, week)],
         executedValue := l.executedValue + value, executedCost := l.executedCost + value * 0.74)
  }

  predicate AllBefore(pending: seq<Pending>, week: nat) {
    forall i :: 0 <= i < |pending| ==> pending[i].id < week
  }

  /** The facts the simulation pushes rows to, and its running totals. */
  class Facts {
    var items: seq<Item>
    var pending: seq<Pending>
    var executed: seq<Executed>
    var pendingValue: real
    var executedValue: real
    var executedCost: real
    var uncontractedValue: real

    function Value(): Ledger
      reads this
    {
      Ledger(items, pending, executed, pendingValue, executedValue, executedCost, uncontractedValue)
    }

    constructor ()
      ensures Value() == EMPTY
    {
      items, pending, executed := [], [], [];
      pendingValue, executedValue, executedCost, uncontractedValue := 0.0, 0.0, 0.0, 0.0;
    }

    /** The position of the pending row with an id. */
    method FindPending(id: nat) returns (at: Option<nat>)
      ensures match at
        case None => forall i :: 0 <= i < |pending| ==> pending[i].id != id
        case Some(k) => k < |pending| && pending[k].id == id && forall i :: 0 <= i < k ==> pending[i].id != id
    {
      for k := 0 to |pending|
        invariant forall i :: 0 <= i < k ==> pending[i].id != id
      {
        if pending[k].id == id { return Some(k); }
      }
      return None;
    }

    /** The week's scope becomes rows.  A signed change is an insert, and the pending row it came from is
        replaced in place by one that names it. */
    method ArriveWeek(dr: Delivery.Drivers, d: Delivery.Draws, value: real, week: nat, today: int, asOf: int)
      requires AllBefore(pending, week)
      modifies this
      ensures Value() == Arrive(old(Value()), ArrivalOf(dr, d, value, week, today, asOf), value, week, today)
    {
      if value > 500.0 && Rng.Chance(d.scope, 0.55) {
        var commercialised := Rng.Chance(d.commercialised, Commercialisation(dr, week));
        items := items + [Item(week, today, !commercialised, value)];
        if commercialised {
          pending := pending + [Pending(week, today, value, None)];
          pendingValue := pendingValue + value;
          if Rng.Chance(d.execute, 0.6) {
            var executedOn := today + Rng.Int(d.executeDays, 21, 63);
            if executedOn <= asOf {
              executed := executed + [Executed(week, executedOn, value, value * 0.74, week)];
              assert pending[|pending| - 1].id == week;
              var held := FindPending(week);
              if held.Some? {
                pending := pending[held.value := pending[held.value].(supersededBy := Some(week))];
              }
              executedValue := executedValue + value;
              executedCost := executedCost + value * 0.74;
              pendingValue := pendingValue - value;
            }
          }
        } else {
          uncontractedValue := uncontractedValue + value;
        }
      }
    }
  }

  // ---------------------------------------------------------------------------------------------
  // Nothing is lost and nothing counted twice
  // ---------------------------------------------------------------------------------------------

  function ItemTotal(items: seq<Item>): real {
    if items == [] then 0.0 else ItemTotal(items[..|items| - 1]) + items[|items| - 1].value
  }

  function UncontractedTotal(items: seq<Item>): real {
    if items == [] then 0.0 else
    UncontractedTotal(items[..|items| - 1]) + if items[|items| - 1].uncontracted then items[|items| - 1].value else 0.0
  }

  function WaitingTotal(pending: seq<Pending>): real {
    if pending == [] then 0.0 else
    WaitingTotal(pending[..|pending| - 1])
    + if pending[|pending| - 1].supersededBy.None? then pending[|pending| - 1].value else 0.0
  }

  function ExecutedTotal(executed: seq<Executed>): real {
    if executed == [] then 0.0 else ExecutedTotal(executed[..|executed| - 1]) + executed[|executed| - 1].value
  }

  /** The totals are those of the rows, and all the scope is in exactly one of the three. */
  predicate Balanced(l: Ledger) {
    && l.uncontractedValue == UncontractedTotal(l.items)
    && l.pendingValue == WaitingTotal(l.pending)
    && l.executedValue == ExecutedTotal(l.executed)
    && l.executedCost == 0.74 * l.executedValue
    && ItemTotal(l.items) == l.uncontractedValue + l.pendingValue + l.executedValue
  }

  lemma TotalsGrow(l: Ledger, i: Item, p: Pending, e: Executed)
    ensures ItemTotal(l.items + [i]) == ItemTotal(l.items) + i.value
    ensures UncontractedTotal(l.items + [i]) == UncontractedTotal(l.items) + if i.uncontracted then i.value else 0.0
    ensures WaitingTotal(l.pending + [p]) == WaitingTotal(l.pending) + if p.supersededBy.None? then p.value else 0.0
    ensures ExecutedTotal(l.executed + [e]) == ExecutedTotal(l.executed) + e.value
  {
    assert (l.items + [i])[..|l.items|] == l.items;
    assert (l.pending + [p])[..|l.pending|] == l.pending;
    assert (l.executed + [e])[..|l.executed|] == l.executed;
  }

  lemma ArriveKeepsBalance(l: Ledger, a: Arrival, value: real, week: nat, today: int)
    requires Balanced(l)
    ensures Balanced(Arrive(l, a, value, week, today))
  {
    hide ItemTotal, UncontractedTotal, WaitingTotal, ExecutedTotal;
    var e := Executed(week, if a.Signed? then a.executedOn else 0, value, value * 0.74, week);
    match a
    case Nothing =>
    case Absorbed => TotalsGrow(l, Item(week, today, true, value), Pending(week, today, value, None), e);
    case Waiting => TotalsGrow(l, Item(week, today, false, value), Pending(week, today, value, None), e);
    case Signed(_) => TotalsGrow(l, Item(week, today, false, value), Pending(week, today, value, Some(week)), e);
  }

  /** Rows are named by weeks before `week`, each name once in its list. */
  predicate Named(l: Ledger, week: nat) {
    && (forall i, j :: 0 <= i < j < |l.pending| ==> l.pending[i].id < l.pending[j].id)
    && (forall i, j :: 0 <= i < j < |l.executed| ==> l.executed[i].id < l.executed[j].id)
    && (forall i :: 0 <= i < |l.pending| ==> l.pending[i].id < week)
    && (forall i :: 0 <= i < |l.executed| ==> l.executed[i].id < week)
  }

  lemma NamedMeans(l: Ledger, week: nat)
    requires Named(l, week)
    ensures AllBefore(l.pending, week)
  {
  }

  lemma EmptyIsNamed(week: nat)
    ensures Named(EMPTY, week)
  {
  }

  /** The two rows are each other's, for the same value. */
  predicate Linked(p: Pending, e: Executed) {
    p.supersededBy == Some(e.id) && e.fromPending == p.id && p.value == e.value
  }

  predicate HasExecuted(p: Pending, executed: seq<Executed>) {
    exists k :: 0 <= k < |executed| && Linked(p, executed[k])
  }

  predicate HasPending(e: Executed, pending: seq<Pending>) {
    exists j :: 0 <= j < |pending| && Linked(pending[j], e)
  }

  /** Every superseded row is linked, and so is every executed one; ids occur once. */
  predicate MutualLinks(pending: seq<Pending>, executed: seq<Executed>) {
    && (forall i, j :: 0 <= i < j < |pending| ==> pending[i].id != pending[j].id)
    && (forall i, j :: 0 <= i < j < |executed| ==> executed[i].id != executed[j].id)
    && (forall j :: 0 <= j < |pending| && pending[j].supersededBy.Some? ==> HasExecuted(pending[j], executed))
    && (forall k :: 0 <= k < |executed| ==> HasPending(executed[k], pending))
  }

  lemma ArriveKeepsNames(l: Ledger, a: Arrival, value: real, week: nat, today: int)
    requires Named(l, week)
    ensures Named(Arrive(l, a, value, week, today), week + 1)
  {
  }

  lemma StillHasExecuted(p: Pending, executed: seq<Executed>, e: Executed)
    requires HasExecuted(p, executed) || Linked(p, e)
    ensures HasExecuted(p, executed + [e])
  {
    if Linked(p, e) {
      assert (executed + [e])[|executed|] == e;
    } else {
      var k :| 0 <= k < |executed| && Linked(p, executed[k]);
      assert (executed + [e])[k] == executed[k];
    }
  }

  lemma StillHasPending(e: Executed, pending: seq<Pending>, p: Pending)
    requires HasPending(e, pending) || Linked(p, e)
    ensures HasPending(e, pending + [p])
  {
    if Linked(p, e) {
      assert (pending + [p])[|pending|] == p;
    } else {
      var j :| 0 <= j < |pending| && Linked(pending[j], e);
      assert (pending + [p])[j] == pending[j];
    }
  }

  lemma WaitingKeepsLinks(pending: seq<Pending>, executed: seq<Executed>, p: Pending)
    requires MutualLinks(pending, executed) && p.supersededBy.None?
    requires forall j :: 0 <= j < |pending| ==> pending[j].id != p.id
    ensures MutualLinks(pending + [p], executed)
  {
    hide HasExecuted, HasPending;
    forall k | 0 <= k < |executed| ensures HasPending(executed[k], pending + [p]) {
      StillHasPending(executed[k], pending, p);
    }
  }

  lemma SignedKeepsLinks(pending: seq<Pending>, executed: seq<Executed>, p: Pending, e: Executed)
    requires MutualLinks(pending, executed) && Linked(p, e)
    requires forall j :: 0 <= j < |pending| ==> pending[j].id != p.id
    requires forall k :: 0 <= k < |executed| ==> executed[k].id != e.id
    ensures MutualLinks(pending + [p], executed + [e])
  {
    hide HasExecuted, HasPending, Linked;
    forall j | 0 <= j < |pending + [p]| && (pending + [p])[j].supersededBy.Some?
      ensures HasExecuted((pending + [p])[j], executed + [e])
    {
      StillHasExecuted((pending + [p])[j], executed, e);
    }
    forall k | 0 <= k < |executed + [e]| ensures HasPending((executed + [e])[k], pending + [p]) {
      StillHasPending((executed + [e])[k], pending, p);
    }
  }

  lemma ArriveKeepsLinks(l: Ledger, a: Arrival, value: real, week: nat, today: int)
    requires Named(l, week) && MutualLinks(l.pending, l.executed)
    ensures var m := Arrive(l, a, value, week, today); MutualLinks(m.pending, m.executed)
  {
    hide MutualLinks;
    match a
    case Nothing =>
    case Absorbed =>
    case Waiting => WaitingKeepsLinks(l.pending, l.executed, Pending(week, today, value, None));
    case Signed(executedOn) =>
      SignedKeepsLinks(l.pending, l.executed, Pending(week, today, value, Some(week)),
                       Executed(week, executedOn, value, value * 0.74, week));
  }

  // ---------------------------------------------------------------------------------------------
  // The ledger at a date
  // ---------------------------------------------------------------------------------------------

  /** `new Map(executed.map((c) => [c.id, c.executedOn]))`, looked up: the last row with the id. */
  function ExecutedOn(executed: seq<Executed>, id: nat): Option<int> {
    if executed == [] then None
    else if executed[|executed| - 1].id == id then Some(executed[|executed| - 1].executedOn)
    else ExecutedOn(executed[..|executed| - 1], id)
  }

  /** `isOpenAsOf`: settled on the date itself counts as settled. */
  predicate IsOpenAsOf(settledOn: Option<int>, asOf: int) {
    !(settledOn.Some? && settledOn.value <= asOf)
  }

  predicate PendingAt(p: Pending, executed: seq<Executed>, cut: int) {
    IsOpenAsOf(match p.supersededBy case None => None case Some(id) => ExecutedOn(executed, id), cut)
  }

  predicate ExecutedAt(e: Executed, cut: int) {
    e.executedOn <= cut
  }

  /** What the pending rows of a cut are worth; `all` is the whole executed list. */
  function PendingValueAt(pending: seq<Pending>, all: seq<Executed>, cut: int): real {
    if pending == [] then 0.0 else
    PendingValueAt(pending[..|pending| - 1], all, cut)
    + if PendingAt(pending[|pending| - 1], all, cut) then pending[|pending| - 1].value else 0.0
  }

  function ExecutedValueAt(executed: seq<Executed>, cut: int): real {
    if executed == [] then 0.0 else
    ExecutedValueAt(executed[..|executed| - 1], cut)
    + if ExecutedAt(executed[|executed| - 1], cut) then executed[|executed| - 1].value else 0.0
  }

  function PendingTotal(pending: seq<Pending>): real {
    if pending == [] then 0.0 else PendingTotal(pending[..|pending| - 1]) + pending[|pending| - 1].value
  }

  lemma {:induction false} LookUp(executed: seq<Executed>, k: nat)
    requires k < |executed|
    requires forall i, j :: 0 <= i < j < |executed| ==> executed[i].id != executed[j].id
    ensures ExecutedOn(executed, executed[k].id) == Some(executed[k].executedOn)
  {
    if k < |executed| - 1 {
      LookUp(executed[..|executed| - 1], k);
    }
  }

  /** At every cut exactly one of a linked pair is counted. */
  lemma ExactlyOneCounted(pending: seq<Pending>, executed: seq<Executed>, j: nat, k: nat, cut: int)
    requires MutualLinks(pending, executed) && j < |pending| && k < |executed| && Linked(pending[j], executed[k])
    ensures PendingAt(pending[j], executed, cut) <==> !ExecutedAt(executed[k], cut)
  {
    LookUp(executed, k);
  }

  lemma {:induction false} AllPendingBefore(pending: seq<Pending>, all: seq<Executed>, cut: int)
    requires forall j :: 0 <= j < |pending| ==> PendingAt(pending[j], all, cut)
    ensures PendingValueAt(pending, all, cut) == PendingTotal(pending)
  {
    if pending != [] { AllPendingBefore(pending[..|pending| - 1], all, cut); }
  }

  /** Freeing one linked pair: the executed row leaves the list and its pending row is open again. */
  lemma {:induction false} FreeOne(pending: seq<Pending>, all: seq<Executed>, fewer: seq<Executed>, at: nat, cut: int)
    requires at < |pending|
    requires forall j :: 0 <= j < |pending| && j != at ==>
               (PendingAt(pending[j], all, cut) <==> PendingAt(pending[j], fewer, cut))
    ensures var freed := pending[at := pending[at].(supersededBy := None)];
      && PendingTotal(freed) == PendingTotal(pending)
      && PendingValueAt(freed, fewer, cut) == PendingValueAt(pending, all, cut)
           + if PendingAt(pending[at], all, cut) then 0.0 else pending[at].value
  {
    var freed := pending[at := pending[at].(supersededBy := None)];
    var last := |pending| - 1;
    if at < last {
      FreeOne(pending[..last], all, fewer, at, cut);
      assert freed[..last] == pending[..last][at := pending[at].(supersededBy := None)];
    } else {
      assert freed[..last] == pending[..last];
      SamePending(pending[..last], all, fewer, cut);
    }
  }

  lemma {:induction false} SamePending(pending: seq<Pending>, all: seq<Executed>, fewer: seq<Executed>, cut: int)
    requires forall j :: 0 <= j < |pending| ==> (PendingAt(pending[j], all, cut) <==> PendingAt(pending[j], fewer, cut))
    ensures PendingValueAt(pending, all, cut) == PendingValueAt(pending, fewer, cut)
  {
    if pending != [] { SamePending(pending[..|pending| - 1], all, fewer, cut); }
  }

  lemma OtherExecuted(p: Pending, executed: seq<Executed>)
    requires executed != [] && HasExecuted(p, executed) && p.id != executed[|executed| - 1].fromPending
    requires forall i, j :: 0 <= i < j < |executed| ==> executed[i].id != executed[j].id
    ensures HasExecuted(p, executed[..|executed| - 1]) && p.supersededBy != Some(executed[|executed| - 1].id)
  {
    var k :| 0 <= k < |executed| && Linked(p, executed[k]);
    assert k != |executed| - 1;
    assert executed[..|executed| - 1][k] == executed[k];
  }

  lemma OtherPending(e: Executed, pending: seq<Pending>, at: nat)
    requires at < |pending| && HasPending(e, pending) && pending[at].supersededBy != Some(e.id)
    ensures HasPending(e, pending[at := pending[at].(supersededBy := None)])
  {
    var j :| 0 <= j < |pending| && Linked(pending[j], e);
    assert j != at;
    assert pending[at := pending[at].(supersededBy := None)][j] == pending[j];
  }

  lemma FreedLinks(pending: seq<Pending>, executed: seq<Executed>, at: nat)
    requires MutualLinks(pending, executed) && executed != [] && at < |pending|
    requires Linked(pending[at], executed[|executed| - 1])
    ensures MutualLinks(pending[at := pending[at].(supersededBy := None)], executed[..|executed| - 1])
    ensures forall j :: 0 <= j < |pending| && j != at ==> pending[j].supersededBy != Some(executed[|executed| - 1].id)
  {
    hide HasExecuted, HasPending;
    var freed, fewer := pending[at := pending[at].(supersededBy := None)], executed[..|executed| - 1];
    forall j | 0 <= j < |pending| && j != at && pending[j].supersededBy.Some?
      ensures HasExecuted(freed[j], fewer) && pending[j].supersededBy != Some(executed[|executed| - 1].id)
    {
      OtherExecuted(pending[j], executed);
    }
    forall k | 0 <= k < |fewer| ensures HasPending(fewer[k], freed) {
      OtherPending(executed[k], pending, at);
    }
  }

  /** Leaving out the last executed row changes no pending row that does not name it. */
  lemma UnnamedIsSame(p: Pending, executed: seq<Executed>, cut: int)
    requires executed != [] && p.supersededBy != Some(executed[|executed| - 1].id)
    ensures PendingAt(p, executed, cut) <==> PendingAt(p, executed[..|executed| - 1], cut)
  {
  }

  lemma LastPartner(pending: seq<Pending>, executed: seq<Executed>) returns (at: nat)
    requires MutualLinks(pending, executed) && executed != []
    ensures at < |pending| && Linked(pending[at], executed[|executed| - 1])
  {
    assert HasPending(executed[|executed| - 1], pending);
    at :| 0 <= at < |pending| && Linked(pending[at], executed[|executed| - 1]);
  }

  /** Pending and executed value together are the same at every cut: all that was ever proposed. */
  lemma {:induction false} CombinedValueIsConstant(pending: seq<Pending>, executed: seq<Executed>, cut: int)
    requires MutualLinks(pending, executed)
    ensures PendingValueAt(pending, executed, cut) + ExecutedValueAt(executed, cut) == PendingTotal(pending)
    decreases |executed|
  {
    hide MutualLinks, PendingAt, ExecutedAt, PendingTotal, PendingValueAt;
    if executed == [] {
      OpenWithoutExecuted(pending, cut);
    } else {
      var k := |executed| - 1;
      var at := LastPartner(pending, executed);
      var fewer := executed[..k];
      FreedLinks(pending, executed, at);
      CombinedValueIsConstant(pending[at := pending[at].(supersededBy := None)], fewer, cut);
      forall j | 0 <= j < |pending| && j != at
        ensures PendingAt(pending[j], executed, cut) <==> PendingAt(pending[j], fewer, cut)
      {
        UnnamedIsSame(pending[j], executed, cut);
      }
      FreeOne(pending, executed, fewer, at, cut);
      ExactlyOneCounted(pending, executed, at, k, cut);
      assert pending[at].value == executed[k].value;
    }
  }

  lemma OpenWithoutExecuted(pending: seq<Pending>, cut: int)
    ensures PendingValueAt(pending, [], cut) == PendingTotal(pending)
  {
    AllPendingBefore(pending, [], cut);
  }

  function LastExecution(executed: seq<Executed>): (cut: int)
    ensures forall k :: 0 <= k < |executed| ==> executed[k].executedOn <= cut
  {
    if executed == [] then 0 else
    var before := LastExecution(executed[..|executed| - 1]);
    if before > executed[|executed| - 1].executedOn then before else executed[|executed| - 1].executedOn
  }

  lemma {:induction false} AllExecuted(executed: seq<Executed>, cut: int)
    requires forall k :: 0 <= k < |executed| ==> executed[k].executedOn <= cut
    ensures ExecutedValueAt(executed, cut) == ExecutedTotal(executed)
  {
    if executed != [] { AllExecuted(executed[..|executed| - 1], cut); }
  }

  lemma {:induction false} OnlyWaitingPending(pending: seq<Pending>, all: seq<Executed>, cut: int)
    requires forall j :: 0 <= j < |pending| && pending[j].supersededBy.Some? ==> !PendingAt(pending[j], all, cut)
    ensures PendingValueAt(pending, all, cut) == WaitingTotal(pending)
  {
    if pending != [] { OnlyWaitingPending(pending[..|pending| - 1], all, cut); }
  }

  /** All that was ever proposed is still waiting or executed. */
  lemma ProposedIsWaitingOrExecuted(pending: seq<Pending>, executed: seq<Executed>)
    requires MutualLinks(pending, executed)
    ensures PendingTotal(pending) == WaitingTotal(pending) + ExecutedTotal(executed)
  {
    hide PendingAt, PendingTotal, PendingValueAt, WaitingTotal, ExecutedValueAt, ExecutedTotal;
    var cut := LastExecution(executed);
    forall j | 0 <= j < |pending| && pending[j].supersededBy.Some?
      ensures !PendingAt(pending[j], executed, cut)
    {
      var k :| 0 <= k < |executed| && Linked(pending[j], executed[k]);
      ExactlyOneCounted(pending, executed, j, k, cut);
    }
    AllExecuted(executed, cut);
    OnlyWaitingPending(pending, executed, cut);
    CombinedValueIsConstant(pending, executed, cut);
  }

  /** An arrival never lowers what is executed. */
  lemma ExecutedGrows(l: Ledger, dr: Delivery.Drivers, d: Delivery.Draws, value: real, week: nat, today: int, asOf: int)
    ensures Arrive(l, ArrivalOf(dr, d, value, week, today, asOf), value, week, today).executedValue >= l.executedValue
  {
  }
}
