/** The facts the page embeds and the view that selects among them (scripts/design/gl-runtime.ts). */
module Facts {
  import opened Wrappers

  /** `dims` holds the nine dimensions in the order of DIMS. */
  datatype Fact = Fact(
    id: string, dims: seq<string>, drivers: seq<string>, action: string, reportedGreenRisk: bool, emergingRisk: bool,
    tcv: real, gmAtRisk: real)

  const DIMS := 9
  const SYSTEM := 4
  const TRAJECTORY := 6
  const OUTLOOK60 := 8

  function Dim(f: Fact, i: nat): string {
    if i < |f.dims| then f.dims[i] else ""
  }

  /** `s.indexOf(t) >= 0` */
  predicate Contains(s: string, t: string) {
    t <= s || (s != "" && Contains(s[1..], t))
  }

  datatype Quick = Intervene | Disagree | Emerging | Declining | Recovering | Erosion | Scope

  predicate Lens(q: Quick, f: Fact) {
    match q
    case Intervene => !("Monitor" <= f.action)
    case Disagree => f.reportedGreenRisk
    case Emerging => f.emergingRisk
    case Declining => Contains(Dim(f, TRAJECTORY), "DETERIORATING")
    case Recovering => Dim(f, TRAJECTORY) == "IMPROVING"
    case Erosion => "margin-erosion" in f.drivers
    case Scope => "scope-leakage" in f.drivers
  }

  datatype View = View(
    dims: map<nat, string>, quick: Option<Quick>, driver: Option<string>, pop: Option<seq<string>>,
    popLabel: Option<string>)

  const EVERYTHING := View(map[], None, None, None, None)

  /** A dimension wants a value unless it is unset or empty. */
  predicate Wants(v: View, i: nat) {
    i in v.dims && v.dims[i] != ""
  }

  predicate Matches(v: View, f: Fact) {
    && (forall i: nat :: i < DIMS && Wants(v, i) ==> Dim(f, i) == v.dims[i])
    && (v.quick.Some? ==> Lens(v.quick.value, f))
    && (v.driver.Some? && v.driver.value != "" ==> v.driver.value in f.drivers)
    && (v.pop.Some? ==> f.id in v.pop.value)
  }

  /** `matches`, dimension by dimension. */
  method Match(v: View, f: Fact) returns (r: bool)
    ensures r == Matches(v, f)
  {
    for i := 0 to DIMS
      invariant forall j: nat :: j < i && Wants(v, j) ==> Dim(f, j) == v.dims[j]
    {
      if i in v.dims && v.dims[i] != "" && Dim(f, i) != v.dims[i] { return false; }
    }
    if v.quick.Some? && !Lens(v.quick.value, f) { return false; }
    if v.driver.Some? && v.driver.value != "" && v.driver.value !in f.drivers { return false; }
    if v.pop.Some? && f.id !in v.pop.value { return false; }
    return true;
  }

  /** `FACTS.filter(matches)` */
  function Selected(v: View, facts: seq<Fact>): seq<Fact> {
    if facts == [] then [] else
    Selected(v, facts[..|facts| - 1]) + if Matches(v, facts[|facts| - 1]) then [facts[|facts| - 1]] else []
  }

  function WithIds(facts: seq<Fact>, ids: seq<string>): seq<Fact> {
    if facts == [] then [] else
    WithIds(facts[..|facts| - 1], ids) + if facts[|facts| - 1].id in ids then [facts[|facts| - 1]] else []
  }

  lemma {:induction false} SelectedMatch(v: View, facts: seq<Fact>, f: Fact)
    ensures f in Selected(v, facts) <==> f in facts && Matches(v, f)
  {
    hide Matches;
    if facts != [] {
      SelectedMatch(v, facts[..|facts| - 1], f);
      assert facts == facts[..|facts| - 1] + [facts[|facts| - 1]];
    }
  }

  predicate DistinctIds(facts: seq<Fact>) {
    forall i, j :: 0 <= i < j < |facts| ==> facts[i].id != facts[j].id
  }

  predicate HasId(facts: seq<Fact>, id: string) {
    exists i :: 0 <= i < |facts| && facts[i].id == id
  }

  lemma {:induction false} SameChoice(v: View, facts: seq<Fact>, ids: seq<string>)
    requires forall i :: 0 <= i < |facts| ==> (Matches(v, facts[i]) <==> facts[i].id in ids)
    ensures Selected(v, facts) == WithIds(facts, ids)
  {
    hide Matches;
    if facts != [] { SameChoice(v, facts[..|facts| - 1], ids); }
  }

  lemma ChosenMatches(v: View, facts: seq<Fact>, ids: seq<string>, f: Fact)
    requires DistinctIds(facts) && f in facts
    requires forall k :: 0 <= k < |ids| ==> HasId(Selected(v, facts), ids[k])
    ensures f.id in ids ==> Matches(v, f)
  {
    hide Matches, Selected;
    if f.id in ids {
      var k :| 0 <= k < |ids| && ids[k] == f.id;
      assert HasId(Selected(v, facts), ids[k]);
      var i :| 0 <= i < |Selected(v, facts)| && Selected(v, facts)[i].id == f.id;
      SelectedMatch(v, facts, Selected(v, facts)[i]);
    }
  }

  /** Narrowing a view to ids it already selects gives exactly the facts with those ids. */
  lemma NarrowingIsExact(v: View, facts: seq<Fact>, ids: seq<string>, title: Option<string>)
    requires DistinctIds(facts)
    requires forall k :: 0 <= k < |ids| ==> HasId(Selected(v, facts), ids[k])
    ensures Selected(v.(pop := Some(ids), popLabel := title), facts) == WithIds(facts, ids)
  {
    hide Selected, HasId, Lens;
    forall i | 0 <= i < |facts|
      ensures Matches(v.(pop := Some(ids), popLabel := title), facts[i]) <==> facts[i].id in ids
    {
      ChosenMatches(v, facts, ids, facts[i]);
    }
    SameChoice(v.(pop := Some(ids), popLabel := title), facts, ids);
  }

  // ---------------------------------------------------------------------------------------------
  // What each filter does
  // ---------------------------------------------------------------------------------------------

  /** Without filters everything is selected, as it stands. */
  lemma {:induction false} EverythingIsSelected(facts: seq<Fact>)
    ensures Selected(EVERYTHING, facts) == facts
  {
    if facts != [] {
      EverythingIsSelected(facts[..|facts| - 1]);
      assert facts == facts[..|facts| - 1] + [facts[|facts| - 1]];
    }
  }

  /** Each fact is selected as often as it occurs, or not at all. */
  lemma {:induction false} SelectedOnce(v: View, facts: seq<Fact>, f: Fact)
    ensures multiset(Selected(v, facts))[f] == if Matches(v, f) then multiset(facts)[f] else 0
  {
    hide Matches;
    if facts != [] {
      SelectedOnce(v, facts[..|facts| - 1], f);
      assert facts == facts[..|facts| - 1] + [facts[|facts| - 1]];
    }
  }

  /** Every filter is a condition of its own: a view selects what it selected without the filter, of which it
      keeps what has the dimension's value, is in the lens, has the driver, or is of the population. */
  lemma EachFilterNarrows(v: View, f: Fact, i: nat, x: string, q: Quick, driver: string, ids: seq<string>)
    requires i < DIMS && !Wants(v, i) && x != "" && driver != ""
    ensures Matches(v.(dims := v.dims[i := x]), f) <==> Matches(v, f) && Dim(f, i) == x
    ensures v.quick.None? ==> (Matches(v.(quick := Some(q)), f) <==> Matches(v, f) && Lens(q, f))
    ensures v.driver.None? ==> (Matches(v.(driver := Some(driver)), f) <==> Matches(v, f) && driver in f.drivers)
    ensures v.pop.None? ==> (Matches(v.(pop := Some(ids)), f) <==> Matches(v, f) && f.id in ids)
  {
    hide Lens;
    var w := v.(dims := v.dims[i := x]);
    assert forall j: nat :: j != i ==> (Wants(w, j) <==> Wants(v, j));
    assert Wants(w, i);
    if Matches(w, f) {
      forall j: nat | j < DIMS && Wants(v, j)
        ensures Dim(f, j) == v.dims[j]
      {
        assert Wants(w, j);
      }
    }
  }

  /** Three lenses are filters by another name. */
  lemma LensesAreFilters(v: View, f: Fact)
    requires v.quick.None? && v.driver.None? && !Wants(v, TRAJECTORY)
    ensures Matches(v.(quick := Some(Erosion)), f) <==> Matches(v.(driver := Some("margin-erosion")), f)
    ensures Matches(v.(quick := Some(Scope)), f) <==> Matches(v.(driver := Some("scope-leakage")), f)
    ensures Matches(v.(quick := Some(Recovering)), f) <==> Matches(v.(dims := v.dims[TRAJECTORY := "IMPROVING"]), f)
  {
    hide Matches;
    EachFilterNarrows(v, f, TRAJECTORY, "IMPROVING", Erosion, "margin-erosion", []);
    EachFilterNarrows(v, f, TRAJECTORY, "IMPROVING", Scope, "scope-leakage", []);
    EachFilterNarrows(v, f, TRAJECTORY, "IMPROVING", Recovering, "margin-erosion", []);
  }

  /** The others read one field: whether the action starts with a word, two marks, and whether the trajectory
      holds a word anywhere. */
  lemma OtherLensesAre(f: Fact)
    ensures Lens(Intervene, f) <==> forall rest: string :: f.action != "Monitor" + rest
    ensures Lens(Disagree, f) <==> f.reportedGreenRisk
    ensures Lens(Emerging, f) <==> f.emergingRisk
    ensures Lens(Declining, f)
      <==> exists a: string, b: string :: Dim(f, TRAJECTORY) == a + ("DETERIORATING" + b)
  {
    StartsWith(f.action, "Monitor");
    ContainsIs(Dim(f, TRAJECTORY), "DETERIORATING");
  }

  lemma StartsWith(s: string, t: string)
    ensures t <= s <==> exists rest: string :: s == t + rest
  {
    if t <= s { assert s == t + s[|t|..]; }
  }

  lemma {:induction false} ContainsIs(s: string, t: string)
    ensures Contains(s, t) <==> exists a: string, b: string :: s == a + (t + b)
  {
    if t <= s {
      assert s == "" + (t + s[|t|..]);
    } else if s != "" {
      ContainsIs(s[1..], t);
      if Contains(s[1..], t) {
        var a: string, b: string :| s[1..] == a + (t + b);
        assert s == ([s[0]] + a) + (t + b);
      }
      forall a: string, b: string | s == a + (t + b)
        ensures Contains(s[1..], t)
      {
        assert a != "";
        assert s[1..] == a[1..] + (t + b);
      }
    } else {
      assert |t| > 0;
      forall a: string, b: string
        ensures s != a + (t + b)
      {
        assert |a + (t + b)| >= |t|;
      }
    }
  }

  // ---------------------------------------------------------------------------------------------
  // A dimension parts the selection
  // ---------------------------------------------------------------------------------------------

  /** How many facts each value of a dimension selects, over a list of values. */
  function CountOver(v: View, i: nat, values: seq<string>, facts: seq<Fact>): nat {
    if values == [] then 0 else
    CountOver(v, i, values[..|values| - 1], facts) + |Selected(v.(dims := v.dims[i := values[|values| - 1]]), facts)|
  }

  predicate Distinct(values: seq<string>) {
    forall j, k :: 0 <= j < k < |values| ==> values[j] != values[k]
  }

  lemma {:induction false} CountOfNone(v: View, i: nat, values: seq<string>)
    ensures CountOver(v, i, values, []) == 0
  {
    if values != [] { CountOfNone(v, i, values[..|values| - 1]); }
  }

  lemma {:induction false} CountOfOneMore(v: View, i: nat, values: seq<string>, facts: seq<Fact>)
    requires facts != [] && i < DIMS && !Wants(v, i) && Distinct(values) && "" !in values
    ensures var f := facts[|facts| - 1];
      CountOver(v, i, values, facts) == CountOver(v, i, values, facts[..|facts| - 1])
        + if Matches(v, f) && Dim(f, i) in values then 1 else 0
    decreases |values|
  {
    hide Matches, Lens;
    if values != [] {
      var front, x, f := values[..|values| - 1], values[|values| - 1], facts[|facts| - 1];
      CountOfOneMore(v, i, front, facts);
      EachFilterNarrows(v, f, i, x, Erosion, x, []);
      assert values == front + [x];
    }
  }

  /** Over all the values a dimension takes, the counts of a view with that value add up to the count of the
      view without it: every selected fact is counted once. */
  lemma {:induction false} DimensionsPart(v: View, i: nat, values: seq<string>, facts: seq<Fact>)
    requires i < DIMS && !Wants(v, i) && Distinct(values) && "" !in values
    requires forall f :: f in facts && Matches(v, f) ==> Dim(f, i) in values
    ensures CountOver(v, i, values, facts) == |Selected(v, facts)|
    decreases |facts|
  {
    hide Matches, Dim;
    if facts == [] {
      CountOfNone(v, i, values);
    } else {
      DimensionsPart(v, i, values, facts[..|facts| - 1]);
      CountOfOneMore(v, i, values, facts);
    }
  }
}
