/** The band-movement rows (scripts/design/gl-runtime.ts): who changes band within 60 days. */
module Movement {
  import opened Facts

  /** One row: the pair of bands, the figures, and the projects. */
  datatype Move = Move(from: string, to: string, n: nat, v: real, r: real, ids: seq<string>)

  predicate Moves(f: Fact) {
    Dim(f, SYSTEM) != Dim(f, OUTLOOK60)
  }

  predicate Along(f: Fact, from: string, to: string) {
    Dim(f, SYSTEM) == from && Dim(f, OUTLOOK60) == to && Moves(f)
  }

  predicate IsFor(m: Move, f: Fact) {
    m.from == Dim(f, SYSTEM) && m.to == Dim(f, OUTLOOK60)
  }

  /** The position of a fact's row, or the end. */
  function Find(moves: seq<Move>, f: Fact): (k: nat)
    ensures k <= |moves| && (k < |moves| ==> IsFor(moves[k], f))
    ensures forall j :: 0 <= j < k ==> !IsFor(moves[j], f)
    decreases |moves|
  {
    if moves == [] then 0
    else
      var k := Find(moves[..|moves| - 1], f);
      if k < |moves| - 1 then k else if IsFor(moves[|moves| - 1], f) then |moves| - 1 else |moves|
  }

  function Counted(m: Move, f: Fact): Move {
    Move(m.from, m.to, m.n + 1, m.v + f.tcv, m.r + f.gmAtRisk, m.ids + [f.id])
  }

  function Added(moves: seq<Move>, f: Fact): seq<Move> {
    if !Moves(f) then moves else
    var k := Find(moves, f);
    if k < |moves| then moves[k := Counted(moves[k], f)]
    else moves + [Counted(Move(Dim(f, SYSTEM), Dim(f, OUTLOOK60), 0, 0.0, 0.0, []), f)]
  }

  function RowsOf(facts: seq<Fact>): seq<Move> {
    if facts == [] then [] else Added(RowsOf(facts[..|facts| - 1]), facts[|facts| - 1])
  }

  /** `sort` by value, the largest first, rows of one value in the order they came up. */
  function Place(shown: seq<Move>, m: Move): seq<Move> {
    if shown == [] || shown[|shown| - 1].v >= m.v then shown + [m]
    else Place(shown[..|shown| - 1], m) + [shown[|shown| - 1]]
  }

  function ByValue(moves: seq<Move>): seq<Move> {
    if moves == [] then [] else Place(ByValue(moves[..|moves| - 1]), moves[|moves| - 1])
  }

  /** The rows as they are shown. */
  function Shown(facts: seq<Fact>): seq<Move> {
    ByValue(RowsOf(facts))
  }

  method Flow(rowsIn: seq<Fact>) returns (rows: seq<Move>)
    ensures rows == Shown(rowsIn)
  {
    hide Moves, ByValue;
    var moves := [];
    for i := 0 to |rowsIn|
      invariant moves == RowsOf(rowsIn[..i])
    {
      var f := rowsIn[i];
      assert rowsIn[..i + 1][..i] == rowsIn[..i];
      if Moves(f) {
        var k := Find(moves, f);
        if k == |moves| {
          moves := moves + [Move(Dim(f, SYSTEM), Dim(f, OUTLOOK60), 0, 0.0, 0.0, [])];
        }
        var m := moves[k];
        moves := moves[k := Move(m.from, m.to, m.n + 1, m.v + f.tcv, m.r + f.gmAtRisk, m.ids + [f.id])];
      }
    }
    assert rowsIn[..|rowsIn|] == rowsIn;
    rows := ByValue(moves);
  }

  // ---------------------------------------------------------------------------------------------
  // The order shown
  // ---------------------------------------------------------------------------------------------

  predicate Falls(shown: seq<Move>) {
    forall j, k :: 0 <= j < k < |shown| ==> shown[j].v >= shown[k].v
  }

  predicate Below(shown: seq<Move>, v: real) {
    forall k :: 0 <= k < |shown| ==> shown[k].v >= v
  }

  lemma {:induction false} PlaceStaysAbove(shown: seq<Move>, m: Move, v: real)
    requires Below(shown, v) && m.v >= v
    ensures Below(Place(shown, m), v)
    decreases |shown|
  {
    if shown != [] && shown[|shown| - 1].v < m.v { PlaceStaysAbove(shown[..|shown| - 1], m, v); }
  }

  lemma {:induction false} PlaceFalls(shown: seq<Move>, m: Move)
    requires Falls(shown)
    ensures Falls(Place(shown, m))
    decreases |shown|
  {
    if shown != [] && shown[|shown| - 1].v < m.v {
      PlaceFalls(shown[..|shown| - 1], m);
      PlaceStaysAbove(shown[..|shown| - 1], m, shown[|shown| - 1].v);
    }
  }

  lemma {:induction false} PlacePermutes(shown: seq<Move>, m: Move)
    ensures multiset(Place(shown, m)) == multiset(shown) + multiset{m}
    decreases |shown|
  {
    if shown != [] && shown[|shown| - 1].v < m.v {
      PlacePermutes(shown[..|shown| - 1], m);
      assert shown == shown[..|shown| - 1] + [shown[|shown| - 1]];
    }
  }

  /** The rows shown are the rows found, the largest value first. */
  lemma {:induction false} ShownByValue(moves: seq<Move>)
    ensures Falls(ByValue(moves)) && multiset(ByValue(moves)) == multiset(moves)
  {
    hide Place, Falls;
    if moves == [] {
      NothingFalls();
    } else {
      var front, last := moves[..|moves| - 1], moves[|moves| - 1];
      ShownByValue(front);
      PlaceFalls(ByValue(front), last);
      PlacePermutes(ByValue(front), last);
      assert moves == front + [last];
    }
  }

  lemma NothingFalls()
    ensures Falls([])
  {
  }

  // ---------------------------------------------------------------------------------------------
  // Each mover is in exactly one row
  // ---------------------------------------------------------------------------------------------

  function IdsAlong(facts: seq<Fact>, from: string, to: string): seq<string> {
    if facts == [] then [] else
    IdsAlong(facts[..|facts| - 1], from, to)
    + if Along(facts[|facts| - 1], from, to) then [facts[|facts| - 1].id] else []
  }

  function ValueAlong(facts: seq<Fact>, from: string, to: string): real {
    if facts == [] then 0.0 else
    ValueAlong(facts[..|facts| - 1], from, to)
    + if Along(facts[|facts| - 1], from, to) then facts[|facts| - 1].tcv else 0.0
  }

  function RiskAlong(facts: seq<Fact>, from: string, to: string): real {
    if facts == [] then 0.0 else
    RiskAlong(facts[..|facts| - 1], from, to)
    + if Along(facts[|facts| - 1], from, to) then facts[|facts| - 1].gmAtRisk else 0.0
  }

  /** A row says who moves along its pair, how many they are and what they weigh. */
  predicate RowIsRight(m: Move, facts: seq<Fact>) {
    && m.from != m.to && m.n > 0 && m.n == |m.ids| && m.ids == IdsAlong(facts, m.from, m.to)
    && m.v == ValueAlong(facts, m.from, m.to) && m.r == RiskAlong(facts, m.from, m.to)
  }

  predicate HasRow(moves: seq<Move>, f: Fact) {
    exists k :: 0 <= k < |moves| && IsFor(moves[k], f)
  }

  predicate PairsDiffer(moves: seq<Move>) {
    forall j, k :: 0 <= j < k < |moves| ==> moves[j].from != moves[k].from || moves[j].to != moves[k].to
  }

  predicate RowsAreRight(moves: seq<Move>, facts: seq<Fact>) {
    && PairsDiffer(moves)
    && (forall k :: 0 <= k < |moves| ==> RowIsRight(moves[k], facts))
    && (forall i :: 0 <= i < |facts| && Moves(facts[i]) ==> HasRow(moves, facts[i]))
  }

  lemma {:induction false} NoneAlong(facts: seq<Fact>, from: string, to: string)
    requires forall i :: 0 <= i < |facts| ==> !Along(facts[i], from, to)
    ensures IdsAlong(facts, from, to) == [] && ValueAlong(facts, from, to) == 0.0 && RiskAlong(facts, from, to) == 0.0
  {
    if facts != [] { NoneAlong(facts[..|facts| - 1], from, to); }
  }

  lemma RowMoves(m: Move, facts: seq<Fact>, f: Fact)
    requires RowIsRight(m, facts)
    ensures RowIsRight(if Along(f, m.from, m.to) then Counted(m, f) else m, facts + [f])
  {
    assert (facts + [f])[..|facts|] == facts;
  }

  lemma NewRow(facts: seq<Fact>, f: Fact)
    requires Moves(f) && forall i :: 0 <= i < |facts| ==> !Along(facts[i], Dim(f, SYSTEM), Dim(f, OUTLOOK60))
    ensures RowIsRight(Counted(Move(Dim(f, SYSTEM), Dim(f, OUTLOOK60), 0, 0.0, 0.0, []), f), facts + [f])
  {
    assert (facts + [f])[..|facts|] == facts;
    NoneAlong(facts, Dim(f, SYSTEM), Dim(f, OUTLOOK60));
  }

  lemma StillHasRow(moves: seq<Move>, g: Fact, f: Fact)
    requires HasRow(moves, g) || (Moves(f) && g == f)
    ensures HasRow(Added(moves, f), g)
  {
    var after := Added(moves, f);
    if HasRow(moves, g) {
      var k :| 0 <= k < |moves| && IsFor(moves[k], g);
      assert IsFor(after[k], g);
    } else {
      assert IsFor(after[Find(moves, f)], g);
    }
  }

  lemma AddedIsRight(moves: seq<Move>, facts: seq<Fact>, f: Fact)
    requires RowsAreRight(moves, facts)
    ensures RowsAreRight(Added(moves, f), facts + [f])
  {
    hide HasRow, RowIsRight, Counted;
    var after, all := Added(moves, f), facts + [f];
    forall i | 0 <= i < |all| && Moves(all[i]) ensures HasRow(after, all[i]) {
      StillHasRow(moves, all[i], f);
    }
    forall k | 0 <= k < |moves|
      ensures RowIsRight(if Along(f, moves[k].from, moves[k].to) then Counted(moves[k], f) else moves[k], all)
    {
      RowMoves(moves[k], facts, f);
    }
    CountedKeepsPairs(moves, f);
    if Moves(f) && Find(moves, f) == |moves| {
      forall i | 0 <= i < |facts| ensures !Along(facts[i], Dim(f, SYSTEM), Dim(f, OUTLOOK60)) {
        NoRowNoFact(moves, facts, f, i);
      }
      NewRow(facts, f);
    }
  }

  lemma CountedKeepsPairs(moves: seq<Move>, f: Fact)
    requires PairsDiffer(moves)
    ensures PairsDiffer(Added(moves, f))
  {
  }

  lemma NoRowNoFact(moves: seq<Move>, facts: seq<Fact>, f: Fact, i: nat)
    requires RowsAreRight(moves, facts) && Find(moves, f) == |moves| && i < |facts|
    ensures !Along(facts[i], Dim(f, SYSTEM), Dim(f, OUTLOOK60))
  {
    if Moves(facts[i]) {
      assert HasRow(moves, facts[i]);
      var k :| 0 <= k < |moves| && IsFor(moves[k], facts[i]);
      assert !IsFor(moves[k], f);
    }
  }

  /** Every row lists exactly the projects that make its move, in order, and every project that moves has
      its row; the pairs differ, so it has only one. */
  lemma {:induction false} EveryMoverHasOneRow(facts: seq<Fact>)
    ensures RowsAreRight(RowsOf(facts), facts)
  {
    hide Added, RowsAreRight;
    if facts == [] {
      NoRows();
    } else {
      EveryMoverHasOneRow(facts[..|facts| - 1]);
      AddedIsRight(RowsOf(facts[..|facts| - 1]), facts[..|facts| - 1], facts[|facts| - 1]);
      assert facts[..|facts| - 1] + [facts[|facts| - 1]] == facts;
    }
  }

  lemma NoRows()
    ensures RowsAreRight([], [])
  {
  }

  predicate DiffersFrom(m: Move, moves: seq<Move>) {
    forall k :: 0 <= k < |moves| ==> moves[k].from != m.from || moves[k].to != m.to
  }

  lemma SameRows(a: seq<Move>, b: seq<Move>, m: Move)
    requires multiset(a) == multiset(b)
    ensures m in a <==> m in b
  {
    assert m in multiset(a) <==> m in multiset(b);
  }

  lemma {:induction false} PlaceDiffers(shown: seq<Move>, m: Move, x: Move)
    requires DiffersFrom(x, shown) && (m.from != x.from || m.to != x.to)
    ensures DiffersFrom(x, Place(shown, m))
    decreases |shown|
  {
    if shown != [] && shown[|shown| - 1].v < m.v { PlaceDiffers(shown[..|shown| - 1], m, x); }
  }

  lemma PairsAppend(moves: seq<Move>, m: Move)
    ensures PairsDiffer(moves + [m]) <==> PairsDiffer(moves) && DiffersFrom(m, moves)
  {
    if PairsDiffer(moves + [m]) {
      assert forall k :: 0 <= k < |moves| ==> (moves + [m])[k] == moves[k];
      assert (moves + [m])[|moves|] == m;
    }
  }

  lemma {:induction false} PlaceKeepsPairs(shown: seq<Move>, m: Move)
    requires PairsDiffer(shown) && DiffersFrom(m, shown)
    ensures PairsDiffer(Place(shown, m))
    decreases |shown|
  {
    hide PairsDiffer;
    if shown == [] || shown[|shown| - 1].v >= m.v {
      PairsAppend(shown, m);
    } else {
      var front, last := shown[..|shown| - 1], shown[|shown| - 1];
      assert shown == front + [last];
      PairsAppend(front, last);
      PlaceKeepsPairs(front, m);
      PlaceDiffers(front, m, last);
      PairsAppend(Place(front, m), last);
    }
  }

  lemma {:induction false} ByValueDiffers(moves: seq<Move>, x: Move)
    requires DiffersFrom(x, moves)
    ensures DiffersFrom(x, ByValue(moves))
  {
    hide Place;
    if moves != [] {
      ByValueDiffers(moves[..|moves| - 1], x);
      PlaceDiffers(ByValue(moves[..|moves| - 1]), moves[|moves| - 1], x);
    }
  }

  lemma {:induction false} ByValueKeepsPairs(moves: seq<Move>)
    requires PairsDiffer(moves)
    ensures PairsDiffer(ByValue(moves))
  {
    hide PairsDiffer, Place;
    if moves == [] {
      NoPairs();
    } else {
      var front, last := moves[..|moves| - 1], moves[|moves| - 1];
      assert moves == front + [last];
      PairsAppend(front, last);
      ByValueKeepsPairs(front);
      ByValueDiffers(front, last);
      PlaceKeepsPairs(ByValue(front), last);
    }
  }

  lemma NoPairs()
    ensures PairsDiffer([])
  {
  }

  lemma RowIsShown(moves: seq<Move>, f: Fact)
    requires HasRow(moves, f)
    ensures HasRow(ByValue(moves), f)
  {
    hide ByValue;
    ShownByValue(moves);
    var k :| 0 <= k < |moves| && IsFor(moves[k], f);
    SameRows(ByValue(moves), moves, moves[k]);
    var j :| 0 <= j < |ByValue(moves)| && ByValue(moves)[j] == moves[k];
    assert IsFor(ByValue(moves)[j], f);
  }

  /** The same of the rows as they are shown. */
  lemma ShownRowsAreRight(facts: seq<Fact>)
    ensures RowsAreRight(Shown(facts), facts) && Falls(Shown(facts))
  {
    hide ByValue, RowsOf, RowIsRight, HasRow, Falls;
    var moves := RowsOf(facts);
    EveryMoverHasOneRow(facts);
    ByValueKeepsPairs(moves);
    ShownByValue(moves);
    forall k | 0 <= k < |Shown(facts)| ensures RowIsRight(Shown(facts)[k], facts) {
      SameRows(Shown(facts), moves, Shown(facts)[k]);
    }
    forall i | 0 <= i < |facts| && Moves(facts[i]) ensures HasRow(Shown(facts), facts[i]) {
      RowIsShown(moves, facts[i]);
    }
  }

  // ---------------------------------------------------------------------------------------------
  // Conservation
  // ---------------------------------------------------------------------------------------------

  function BandCount(facts: seq<Fact>, dim: nat, band: string): int {
    if facts == [] then 0 else
    BandCount(facts[..|facts| - 1], dim, band) + if Dim(facts[|facts| - 1], dim) == band then 1 else 0
  }

  function BandValue(facts: seq<Fact>, dim: nat, band: string): real {
    if facts == [] then 0.0 else
    BandValue(facts[..|facts| - 1], dim, band)
    + if Dim(facts[|facts| - 1], dim) == band then facts[|facts| - 1].tcv else 0.0
  }

  /** What the rows move out of, and into, a band: projects and value. */
  function NetCount(moves: seq<Move>, band: string): int {
    if moves == [] then 0 else
    NetCount(moves[..|moves| - 1], band)
    + (if moves[|moves| - 1].to == band then moves[|moves| - 1].n else 0)
    - (if moves[|moves| - 1].from == band then moves[|moves| - 1].n else 0)
  }

  function NetValue(moves: seq<Move>, band: string): real {
    if moves == [] then 0.0 else
    NetValue(moves[..|moves| - 1], band)
    + (if moves[|moves| - 1].to == band then moves[|moves| - 1].v else 0.0)
    - (if moves[|moves| - 1].from == band then moves[|moves| - 1].v else 0.0)
  }

  lemma {:induction false} CountedNets(moves: seq<Move>, k: nat, f: Fact, band: string)
    requires k < |moves|
    ensures var after := moves[k := Counted(moves[k], f)];
      && NetCount(after, band) == NetCount(moves, band)
           + (if moves[k].to == band then 1 else 0) - (if moves[k].from == band then 1 else 0)
      && NetValue(after, band) == NetValue(moves, band)
           + (if moves[k].to == band then f.tcv else 0.0) - (if moves[k].from == band then f.tcv else 0.0)
    decreases |moves|
  {
    var last, after := |moves| - 1, moves[k := Counted(moves[k], f)];
    if k < last {
      CountedNets(moves[..last], k, f, band);
      assert after[..last] == moves[..last][k := Counted(moves[k], f)];
    } else {
      assert after[..last] == moves[..last];
    }
  }

  lemma AddedNets(moves: seq<Move>, f: Fact, band: string)
    ensures NetCount(Added(moves, f), band) == NetCount(moves, band)
      + (if Dim(f, OUTLOOK60) == band then 1 else 0) - (if Dim(f, SYSTEM) == band then 1 else 0)
    ensures NetValue(Added(moves, f), band) == NetValue(moves, band)
      + (if Dim(f, OUTLOOK60) == band then f.tcv else 0.0) - (if Dim(f, SYSTEM) == band then f.tcv else 0.0)
  {
    if Moves(f) {
      var k := Find(moves, f);
      if k < |moves| {
        CountedNets(moves, k, f, band);
      } else {
        assert Added(moves, f)[..|moves|] == moves;
      }
    }
  }

  lemma {:induction false} PlaceNets(shown: seq<Move>, m: Move, band: string)
    ensures NetCount(Place(shown, m), band) == NetCount(shown, band)
      + (if m.to == band then m.n else 0) - (if m.from == band then m.n else 0)
    ensures NetValue(Place(shown, m), band) == NetValue(shown, band)
      + (if m.to == band then m.v else 0.0) - (if m.from == band then m.v else 0.0)
    decreases |shown|
  {
    if shown == [] || shown[|shown| - 1].v >= m.v {
      assert (shown + [m])[..|shown|] == shown;
    } else {
      var front, last := shown[..|shown| - 1], shown[|shown| - 1];
      PlaceNets(front, m, band);
      assert (Place(front, m) + [last])[..|Place(front, m)|] == Place(front, m);
    }
  }

  lemma {:induction false} ShownNets(moves: seq<Move>, band: string)
    ensures NetCount(ByValue(moves), band) == NetCount(moves, band)
    ensures NetValue(ByValue(moves), band) == NetValue(moves, band)
  {
    hide Place;
    if moves != [] {
      ShownNets(moves[..|moves| - 1], band);
      PlaceNets(ByValue(moves[..|moves| - 1]), moves[|moves| - 1], band);
    }
  }

  lemma {:induction false} RowsConserve(facts: seq<Fact>, band: string)
    ensures BandCount(facts, OUTLOOK60, band) == BandCount(facts, SYSTEM, band) + NetCount(RowsOf(facts), band)
    ensures BandValue(facts, OUTLOOK60, band) == BandValue(facts, SYSTEM, band) + NetValue(RowsOf(facts), band)
  {
    hide Added;
    if facts != [] {
      RowsConserve(facts[..|facts| - 1], band);
      AddedNets(RowsOf(facts[..|facts| - 1]), facts[|facts| - 1], band);
    }
  }

  /** For every selection and band, what the band holds in 60 days is what it holds today, and what the
      rows move in, less what they move out: projects and contract value alike. */
  lemma BandsAreConserved(facts: seq<Fact>, band: string)
    ensures BandCount(facts, OUTLOOK60, band) == BandCount(facts, SYSTEM, band) + NetCount(Shown(facts), band)
    ensures BandValue(facts, OUTLOOK60, band) == BandValue(facts, SYSTEM, band) + NetValue(Shown(facts), band)
  {
    hide RowsOf, ByValue, NetCount, NetValue, BandCount, BandValue;
    RowsConserve(facts, band);
    ShownNets(RowsOf(facts), band);
  }
}
