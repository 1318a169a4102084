/** The weekly open-defect history of scripts/assessment/curated-assessment.ts. */
module Quality {
  import opened Wrappers
  import Scope

  datatype Defect = Defect(raisedOn: int, closedOn: Option<int>)

  predicate CountedAt(d: Defect, asAt: int) {
    d.raisedOn <= asAt && Scope.IsOpenAsOf(d.closedOn, asAt)
  }

  /** The recount: how many of all the defects are open at a date. */
  function OpenAt(defects: seq<Defect>, asAt: int): nat {
    if defects == [] then 0 else
    OpenAt(defects[..|defects| - 1], asAt) + if CountedAt(defects[|defects| - 1], asAt) then 1 else 0
  }

  /** How many are raised, and how many closed, after one date and by another. */
  function Raised(defects: seq<Defect>, after: int, until: int): nat {
    if defects == [] then 0 else
    Raised(defects[..|defects| - 1], after, until) + if after < defects[|defects| - 1].raisedOn <= until then 1 else 0
  }

  function Closed(defects: seq<Defect>, after: int, until: int): nat {
    if defects == [] then 0 else
    Closed(defects[..|defects| - 1], after, until)
    + if defects[|defects| - 1].closedOn.Some? && after < defects[|defects| - 1].closedOn.value <= until then 1 else 0
  }

  predicate ClosedBeforeRaised(d: Defect) {
    d.closedOn.Some? && d.closedOn.value < d.raisedOn
  }

  predicate AllInOrder(defects: seq<Defect>) {
    forall i :: 0 <= i < |defects| ==> !ClosedBeforeRaised(defects[i])
  }

  /** The recount changes by what was raised and closed. */
  predicate FlowHolds(defects: seq<Defect>, after: int, until: int) {
    OpenAt(defects, until) - OpenAt(defects, after) == Raised(defects, after, until) - Closed(defects, after, until)
  }

  lemma {:induction false} InOrderFlows(defects: seq<Defect>, after: int, until: int)
    requires AllInOrder(defects) && after <= until
    ensures FlowHolds(defects, after, until)
  {
    if defects != [] { InOrderFlows(defects[..|defects| - 1], after, until); }
  }

  /** On the day of the first such closing the flow falls short by every defect closed that day before
      it was raised. */
  lemma {:induction false} FlowFallsShort(defects: seq<Defect>, day: int)
    requires forall i :: 0 <= i < |defects| && ClosedBeforeRaised(defects[i]) ==> day <= defects[i].closedOn.value
    ensures OpenAt(defects, day) - OpenAt(defects, day - 1)
      >= Raised(defects, day - 1, day) - Closed(defects, day - 1, day)
    ensures (exists i :: 0 <= i < |defects| && ClosedBeforeRaised(defects[i]) && defects[i].closedOn.value == day) ==>
        OpenAt(defects, day) - OpenAt(defects, day - 1) > Raised(defects, day - 1, day) - Closed(defects, day - 1, day)
  {
    if defects != [] { FlowFallsShort(defects[..|defects| - 1], day); }
  }

  lemma {:induction false} FirstEarlyClosing(defects: seq<Defect>) returns (at: nat)
    requires !AllInOrder(defects)
    ensures at < |defects| && ClosedBeforeRaised(defects[at])
    ensures forall i :: 0 <= i < |defects| && ClosedBeforeRaised(defects[i]) ==>
        defects[at].closedOn.value <= defects[i].closedOn.value
    decreases |defects|
  {
    var last := |defects| - 1;
    if AllInOrder(defects[..last]) {
      at := last;
      assert forall i :: 0 <= i < last ==> defects[i] == defects[..last][i];
    } else {
      at := FirstEarlyClosing(defects[..last]);
      assert forall i :: 0 <= i < last ==> defects[i] == defects[..last][i];
      if ClosedBeforeRaised(defects[last]) && defects[last].closedOn.value < defects[at].closedOn.value {
        at := last;
      }
    }
  }

  /** Recount and flow agree over every span exactly when no defect closes before it is raised. */
  lemma RecountIsFlow(defects: seq<Defect>)
    ensures AllInOrder(defects) <==> forall after, until :: after <= until ==> FlowHolds(defects, after, until)
  {
    if AllInOrder(defects) {
      forall after, until | after <= until ensures FlowHolds(defects, after, until) {
        InOrderFlows(defects, after, until);
      }
    } else {
      var at := FirstEarlyClosing(defects);
      var day := defects[at].closedOn.value;
      FlowFallsShort(defects, day);
      assert !FlowHolds(defects, day - 1, day);
    }
  }

  /** `openDefectHistory`: a recount at every week end. */
  function History(defects: seq<Defect>, weekEnds: seq<int>): seq<nat> {
    seq(|weekEnds|, i requires 0 <= i < |weekEnds| => OpenAt(defects, weekEnds[i]))
  }

  /** The same series by one sweep over the weeks: the first count, and then only what changed. */
  function Sweep(defects: seq<Defect>, weekEnds: seq<int>): (counts: seq<int>)
    ensures |counts| == |weekEnds|
  {
    if weekEnds == [] then []
    else if |weekEnds| == 1 then [OpenAt(defects, weekEnds[0])]
    else
      var n := |weekEnds|;
      var before := Sweep(defects, weekEnds[..n - 1]);
      var after, until := weekEnds[n - 2], weekEnds[n - 1];
      before + [before[n - 2] + Raised(defects, after, until) - Closed(defects, after, until)]
  }

  lemma {:induction false} HistoryIsSweep(defects: seq<Defect>, weekEnds: seq<int>, i: nat)
    requires AllInOrder(defects) && i < |weekEnds|
    requires forall j, k :: 0 <= j < k < |weekEnds| ==> weekEnds[j] <= weekEnds[k]
    ensures History(defects, weekEnds)[i] == Sweep(defects, weekEnds)[i]
    decreases |weekEnds|
  {
    hide FlowHolds, OpenAt, Raised, Closed;
    var n := |weekEnds|;
    if n > 1 {
      if i < n - 1 {
        HistoryIsSweep(defects, weekEnds[..n - 1], i);
      } else {
        HistoryIsSweep(defects, weekEnds[..n - 1], n - 2);
        InOrderFlows(defects, weekEnds[n - 2], weekEnds[n - 1]);
        FlowIs(defects, weekEnds[n - 2], weekEnds[n - 1]);
      }
    }
  }

  lemma FlowIs(defects: seq<Defect>, after: int, until: int)
    requires FlowHolds(defects, after, until)
    ensures OpenAt(defects, until) == OpenAt(defects, after)
      + Raised(defects, after, until) - Closed(defects, after, until)
  {
  }
}
