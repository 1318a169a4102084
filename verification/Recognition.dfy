/** Recognised revenue: the ORIGINAL postings of the weekly loop (scripts/generator/simulate.ts) and the
    append-only corrections (scripts/generator/recognition.ts).  Emitted amounts are whole cents, an
    accounting period is the number of its month. */
module Recognition {
  import opened Wrappers
  import Delivery
  import Money
  import Rng
  import SCurve

  /** `rrf-…-1` and the suffixes the corrections add to it. */
  datatype Id = First(period: int) | Adj(of: Id) | Rev(of: Id) | Res(of: Id)

  datatype Kind = ORIGINAL | ADJUSTMENT | REVERSAL | RESTATEMENT

  datatype Posting = Posting(
    id: Id, period: int, kind: Kind, amount: int, cumulative: int, supersedes: Option<Id>, originalFact: Option<Id>,
    version: nat, day: int)

  function OriginalPosting(period: int, date: int, amount: real, cumulative: real): Posting {
    Posting(First(period), period, ORIGINAL, Money.Cents(amount), Money.Cents(cumulative), None, None, 1, date + 3)
  }

  // ---------------------------------------------------------------------------------------------
  // The original postings
  // ---------------------------------------------------------------------------------------------

  /** The cumulative amount, the period last posted, and the postings. */
  datatype Books = Books(cumulative: real, last: Option<int>, postings: seq<Posting>)

  const CLOSED := Books(0.0, None, [])

  /** Cost to cost: the share of the contract that the cost so far is of the cost in all. */
  function Target(contractual: real, costToDate: real, etc: real, committed: real): real {
    var all := costToDate + etc + committed;
    var eac := if all > 1.0 then all else 1.0;
    Money.Portion(contractual, Delivery.AtMostOne(costToDate / eac))
  }

  function Post(b: Books, period: int, date: int, target: real): Books {
    if b.last == Some(period) then b else
    var cumulative := if target > b.cumulative then target else b.cumulative;
    Books(cumulative, Some(period),
          b.postings + [OriginalPosting(period, date, Money.NotNegative(target - b.cumulative), cumulative)])
  }

  class Ledger {
    var cumulativeRecognised: real
    var lastRecognisedPeriod: Option<int>
    var recognisedRevenue: seq<Posting>

    function Value(): Books
      reads this
    {
      Books(cumulativeRecognised, lastRecognisedPeriod, recognisedRevenue)
    }

    constructor ()
      ensures Value() == CLOSED
    {
      cumulativeRecognised, lastRecognisedPeriod, recognisedRevenue := 0.0, None, [];
    }

    method Recognise(period: int, date: int, target: real)
      modifies this
      ensures Value() == Post(old(Value()), period, date, target)
    {
      if Some(period) != lastRecognisedPeriod {
        var periodAmount := Money.NotNegative(target - cumulativeRecognised);
        if target > cumulativeRecognised { cumulativeRecognised := target; }
        lastRecognisedPeriod := Some(period);
        recognisedRevenue := recognisedRevenue + [OriginalPosting(period, date, periodAmount, cumulativeRecognised)];
      }
    }
  }

  function AmountTotal(ps: seq<Posting>): int {
    if ps == [] then 0 else AmountTotal(ps[..|ps| - 1]) + ps[|ps| - 1].amount
  }

  /** Originals only, one a period and none skipped, with amounts that are not negative. */
  predicate OneAPeriod(b: Books) {
    && b.last == (if b.postings == [] then None else Some(b.postings[|b.postings| - 1].period))
    && (forall i :: 0 <= i < |b.postings| ==> IsOriginal(b.postings[i]) && b.postings[i].amount >= 0)
    && (forall i, j :: 0 <= i < j < |b.postings| ==> b.postings[j].period == b.postings[i].period + (j - i))
  }

  predicate IsOriginal(p: Posting) {
    p.kind == ORIGINAL && p.id == First(p.period) && p.version == 1 && p.supersedes == None
  }

  /** The emitted cumulative never falls and ends at the running one. */
  predicate CumulativeRises(b: Books) {
    && b.cumulative >= 0.0
    && (forall i, j :: 0 <= i < j < |b.postings| ==> b.postings[i].cumulative <= b.postings[j].cumulative)
    && (forall i :: 0 <= i < |b.postings| ==> 0 <= b.postings[i].cumulative <= Money.Cents(b.cumulative))
    && (b.postings != [] ==> b.postings[|b.postings| - 1].cumulative == Money.Cents(b.cumulative))
  }

  /** The amounts sum to the cumulative within half a cent a posting. */
  predicate SumsUp(b: Books) {
    && b.cumulative >= 0.0
    && Money.Near(AmountTotal(b.postings), b.cumulative, |b.postings|)
  }

  predicate Sound(b: Books) {
    OneAPeriod(b) && CumulativeRises(b) && SumsUp(b)
  }

  lemma TargetBounds(contractual: real, costToDate: real, etc: real, committed: real)
    requires contractual >= 0.0 && costToDate >= 0.0 && etc >= 0.0 && committed >= 0.0
    ensures 0.0 <= Target(contractual, costToDate, etc, committed) <= contractual
  {
    var all := costToDate + etc + committed;
    var eac := if all > 1.0 then all else 1.0;
    Delivery.Ratio(0.0, costToDate, eac);
    hide Money.Portion;
    Money.Share(contractual, Delivery.AtMostOne(costToDate / eac));
  }

  /** Cost to cost: what is earned is to the contract as the cost so far is to the cost in all, the estimate
      and the commitments included, and all of it when nothing is left to spend. */
  lemma CostToCost(contractual: real, costToDate: real, etc: real, committed: real)
    requires costToDate >= 0.0 && etc >= 0.0 && committed >= 0.0 && costToDate + etc + committed >= 1.0
    ensures Money.Portion(Target(contractual, costToDate, etc, committed), costToDate + etc + committed)
         == Money.Portion(contractual, costToDate)
    ensures etc + committed == 0.0 ==> Target(contractual, costToDate, etc, committed) == contractual
  {
    var all := costToDate + etc + committed;
    var share := costToDate / all;
    Delivery.Ratio(costToDate, all, all);
    assert all / all == 1.0;
    assert share * all == costToDate;
    TimesInTurn(contractual, share, all);
    Money.PortionSplits(contractual, 0.0, 1.0);
  }

  lemma TimesInTurn(a: real, b: real, c: real)
    ensures Money.Portion(Money.Portion(a, b), c) == Money.Portion(a, b * c)
  {
  }

  lemma AmountAppends(ps: seq<Posting>, p: Posting)
    ensures AmountTotal(ps + [p]) == AmountTotal(ps) + p.amount
  {
    assert (ps + [p])[..|ps|] == ps;
  }

  lemma PostSums(b: Books, period: int, date: int, target: real)
    requires SumsUp(b)
    ensures SumsUp(Post(b, period, date, target))
  {
    hide AmountTotal, Money.Cents, Money.Near;
    if b.last != Some(period) {
      var amount := Money.NotNegative(target - b.cumulative);
      var c := Post(b, period, date, target);
      AmountAppends(b.postings, c.postings[|b.postings|]);
      Money.NearAdds(AmountTotal(b.postings), b.cumulative, |b.postings|, amount);
      assert c.cumulative == b.cumulative + amount;
    }
  }

  lemma PostRises(b: Books, period: int, date: int, target: real)
    requires CumulativeRises(b)
    ensures CumulativeRises(Post(b, period, date, target))
  {
    hide Money.Cents;
    Money.CentsAreClose(Post(b, period, date, target).cumulative);
    Money.CentsKeepOrder(b.cumulative, Post(b, period, date, target).cumulative);
  }

  lemma PostOneAPeriod(b: Books, period: int, date: int, target: real)
    requires OneAPeriod(b) && (b.last.Some? ==> b.last.value <= period <= b.last.value + 1)
    ensures OneAPeriod(Post(b, period, date, target))
  {
    hide Money.Cents;
    Money.CentsAreClose(Money.NotNegative(target - b.cumulative));
  }

  /** A month that is the last posted or the next one keeps the postings sound, and the cumulative within
      any bound that the target is within too. */
  lemma PostKeepsSound(b: Books, period: int, date: int, target: real, bound: real)
    requires Sound(b) && b.cumulative <= bound && target <= bound
    requires b.last.Some? ==> b.last.value <= period <= b.last.value + 1
    ensures Sound(Post(b, period, date, target))
    ensures b.cumulative <= Post(b, period, date, target).cumulative <= bound
    ensures b.postings <= Post(b, period, date, target).postings
  {
    hide OneAPeriod, CumulativeRises, SumsUp;
    PostSums(b, period, date, target);
    PostRises(b, period, date, target);
    PostOneAPeriod(b, period, date, target);
  }

  // ---------------------------------------------------------------------------------------------
  // Corrections
  // ---------------------------------------------------------------------------------------------

  datatype CorrectionDraws = CorrectionDraws(target: real, kind: real, days: real, share: real) {
    predicate Valid() {
      Delivery.Uniform(target) && Delivery.Uniform(kind) && Delivery.Uniform(days) && Delivery.Uniform(share)
    }
  }

  lemma TargetInRange(n: nat, u: real)
    requires n >= 1 && Delivery.Uniform(u)
    ensures 0 <= Money.Portion(n as real, Rng.Range(u, 0.25, 0.55)).Floor < n
  {
    hide Rng.Range, Money.Portion;
    Rng.RangeBounds(u, 0.25, 0.55);
    Money.Share(n as real, Rng.Range(u, 0.25, 0.55));
    Rng.FloorBelow(Money.Portion(n as real, Rng.Range(u, 0.25, 0.55)), n);
  }

  /** The posting corrected: one from the middle of the history. */
  function TargetIndex(n: nat, u: real): (i: nat)
    requires n >= 1 && Delivery.Uniform(u)
    ensures i < n
  {
    TargetInRange(n, u);
    Money.Portion(n as real, Rng.Range(u, 0.25, 0.55)).Floor
  }

  function CumulativeAfter(target: Posting, change: real): int {
    Money.Cents(Money.NotNegative(Money.Amount(target.cumulative) + change))
  }

  function Reduction(target: Posting, u: real): int {
    Delivery.Round(Money.Portion(Money.Amount(target.amount), Rng.Range(u, 0.05, 0.18)))
  }

  function RestatedFigure(target: Posting, u: real): int {
    Delivery.Round(Money.Portion(Money.Amount(target.amount), Rng.Range(u, 0.82, 0.96)))
  }

  function Adjustment(target: Posting, correctedOn: int, u: real): Posting {
    var delta := -(Reduction(target, u) as real);
    target.(id := Adj(target.id), kind := ADJUSTMENT, amount := Money.Cents(delta),
      cumulative := CumulativeAfter(target, delta),
            supersedes := Some(target.id), originalFact := Some(target.id), version := 2, day := correctedOn)
  }

  function Reversal(target: Posting, correctedOn: int): Posting {
    var original := Money.Amount(target.amount);
    target.(id := Rev(target.id), kind := REVERSAL, amount := Money.Cents(-original),
            cumulative := CumulativeAfter(target, -original),
            supersedes := Some(target.id), originalFact := Some(target.id), version := 2, day := correctedOn)
  }

  function Restatement(target: Posting, correctedOn: int, u: real): Posting {
    var restated := RestatedFigure(target, u) as real;
    target.(id := Res(target.id), kind := RESTATEMENT, amount := Money.Cents(restated),
            cumulative := CumulativeAfter(target, -Money.Amount(target.amount) + restated),
            supersedes := Some(Rev(target.id)), originalFact := Some(target.id), version := 3, day := correctedOn + 1)
  }

  /** The postings a correction appends. */
  function Corrections(postings: seq<Posting>, d: CorrectionDraws): seq<Posting>
    requires d.Valid()
  {
    if |postings| < 6 then [] else
    var target := postings[TargetIndex(|postings|, d.target)];
    var correctedOn := target.day + Rng.Int(d.days, 60, 130);
    if Money.Amount(target.amount) <= 1000.0 then []
    else if d.kind < 0.5 then [Adjustment(target, correctedOn, d.share)]
    else if d.kind < 0.8 then [Reversal(target, correctedOn), Restatement(target, correctedOn, d.share)]
    else []
  }

  /** `applyCorrections`: a copy of the list with the corrections pushed on. */
  method ApplyCorrections(postings: seq<Posting>, d: CorrectionDraws) returns (out: seq<Posting>)
    requires d.Valid()
    ensures out == postings + Corrections(postings, d)
  {
    hide Rng.Int, Reduction, RestatedFigure, CumulativeAfter, Money.Cents, Money.Amount, TargetIndex;
    out := postings;
    if |postings| < 6 { return; }
    var target := postings[TargetIndex(|postings|, d.target)];
    var original := Money.Amount(target.amount);
    if original <= 1000.0 { return; }
    var correctedOn := target.day + Rng.Int(d.days, 60, 130);
    if d.kind < 0.5 {
      var delta := -(Reduction(target, d.share) as real);
      out := out + [Posting(Adj(target.id), target.period, ADJUSTMENT, Money.Cents(delta),
        CumulativeAfter(target, delta), Some(target.id), Some(target.id), 2, correctedOn)];
    } else if d.kind < 0.8 {
      out := out + [Posting(Rev(target.id), target.period, REVERSAL, Money.Cents(-original),
        CumulativeAfter(target, -original), Some(target.id), Some(target.id), 2, correctedOn)];
      var restated := RestatedFigure(target, d.share) as real;
      out := out + [Posting(Res(target.id), target.period, RESTATEMENT, Money.Cents(restated),
                            CumulativeAfter(target, -original + restated), Some(Rev(target.id)), Some(target.id), 3,
                            correctedOn + 1)];
    }
  }

  /** `effectiveForPeriod(…).amount`, in cents. */
  function Effective(postings: seq<Posting>, period: int): int {
    if postings == [] then 0 else
    Effective(postings[..|postings| - 1], period)
    + if postings[|postings| - 1].period == period then postings[|postings| - 1].amount else 0
  }

  lemma {:induction false} EffectiveAdds(a: seq<Posting>, b: seq<Posting>, period: int)
    ensures Effective(a + b, period) == Effective(a, period) + Effective(b, period)
    decreases |b|
  {
    if b == [] {
      assert a + b == a;
    } else {
      EffectiveAdds(a, b[..|b| - 1], period);
      assert (a + b)[..|a + b| - 1] == a + b[..|b| - 1];
    }
  }

  lemma EffectiveOfOne(p: Posting, period: int)
    ensures Effective([p], period) == if p.period == period then p.amount else 0
  {
    assert [p][..0] == [];
  }

  lemma EffectiveOfTwo(p: Posting, q: Posting, period: int)
    ensures Effective([p, q], period) == Effective([p], period) + Effective([q], period)
  {
    EffectiveAdds([p], [q], period);
    assert [p] + [q] == [p, q];
  }

  /** A share of an amount above 1000, rounded to whole units, lies between nothing and the amount. */
  lemma RoundedShare(amount: int, share: real)
    requires Money.Amount(amount) > 1000.0 && 0.05 <= share <= 0.96
    ensures 0 < Delivery.Round(Money.Portion(Money.Amount(amount), share)) * 100 < amount
  {
    var a := Money.Amount(amount);
    var x := Money.Portion(a, share);
    SCurve.Product(a, share - 0.05);
    SCurve.Product(a, 0.96 - share);
    assert a * (share - 0.05) == x - 0.05 * a;
    assert a * (0.96 - share) == 0.96 * a - x;
    WholeBelow(amount, x);
  }

  lemma WholeBelow(amount: int, x: real)
    requires 1000.0 < Money.Amount(amount) && 50.0 <= x <= 0.96 * Money.Amount(amount)
    ensures 0 < Delivery.Round(x) * 100 < amount
  {
    assert (x + 0.5).Floor as real <= x + 0.5;
  }

  /** What a correction changes in its period: a reduction of the original figure to one still above
      nothing. */
  lemma CorrectionEffect(target: Posting, correctedOn: int, u: real)
    requires Money.Amount(target.amount) > 1000.0 && Delivery.Uniform(u)
    ensures 0 < target.amount + Adjustment(target, correctedOn, u).amount < target.amount
    ensures 0
      < target.amount + Reversal(target, correctedOn).amount + Restatement(target, correctedOn, u).amount
      < target.amount
  {
    hide Rng.Range, Money.Portion, Money.Amount, Money.Cents, Delivery.Round, CumulativeAfter;
    Rng.RangeBounds(u, 0.05, 0.18);
    Rng.RangeBounds(u, 0.82, 0.96);
    RoundedShare(target.amount, Rng.Range(u, 0.05, 0.18));
    RoundedShare(target.amount, Rng.Range(u, 0.82, 0.96));
    WholeUnits(Reduction(target, u));
    WholeUnits(RestatedFigure(target, u));
    Negated(target.amount);
  }

  lemma Negated(c: int)
    ensures Money.Cents(-Money.Amount(c)) == -c
  {
    Money.CentsAreExact(-c);
  }

  lemma WholeUnits(n: int)
    ensures Money.Cents(n as real) == 100 * n && Money.Cents(-(n as real)) == -100 * n
  {
    Money.CentsAreExact(100 * n);
    Money.CentsAreExact(-100 * n);
  }

  /** When a history is corrected: at least six postings, the one drawn above 1000, and eight tenths of the
      draws of the kind: five for an adjustment, three for a reversal with its restatement. */
  lemma CorrectedIff(postings: seq<Posting>, d: CorrectionDraws)
    requires d.Valid()
    ensures var more := Corrections(postings, d);
      && (more != [] <==> |postings| >= 6 && d.kind < 0.8
                          && Money.Amount(postings[TargetIndex(|postings|, d.target)].amount) > 1000.0)
      && (|more| == 1 ==> d.kind < 0.5 && more[0].kind == ADJUSTMENT)
      && (|more| != 1 && more != [] ==>
            |more| == 2 && d.kind >= 0.5 && more[0].kind == REVERSAL && more[1].kind == RESTATEMENT)
  {
    hide TargetIndex, Money.Amount, Rng.Int, Reduction, RestatedFigure, CumulativeAfter, Money.Cents;
  }

  /** The posting corrected is from the second or third fifth of the history, and never the latest one. */
  lemma CorrectedInTheMiddle(n: nat, u: real)
    requires n >= 6 && Delivery.Uniform(u)
    ensures 0.25 * n as real - 1.0 < TargetIndex(n, u) as real < 0.55 * n as real
    ensures TargetIndex(n, u) < n - 1
  {
    hide Rng.Range, Money.Portion;
    var share := Rng.Range(u, 0.25, 0.55);
    Rng.RangeBounds(u, 0.25, 0.55);
    ShareBetween(n as real, share, 0.25, 0.55);
    FloorIsNear(Money.Portion(n as real, share));
  }

  lemma ShareBetween(whole: real, share: real, low: real, high: real)
    requires whole > 0.0 && low <= share < high
    ensures low * whole <= Money.Portion(whole, share) < high * whole
  {
    hide Money.Portion;
    Money.PortionSign(whole, share - low);
    Money.PortionSign(whole, high - share);
    Money.PortionSplits(whole, share - low, low);
    Money.PortionSplits(whole, high - share, share);
    InTurn(whole, low);
    InTurn(whole, high);
  }

  lemma InTurn(whole: real, share: real)
    ensures Money.Portion(whole, share) == share * whole
  {
  }

  lemma FloorIsNear(x: real)
    ensures x - 1.0 < x.Floor as real <= x
  {
  }

  /** An adjustment takes off 5% to 18% of the figure, and a restatement leaves 82% to 96% of it, to the
      nearest whole unit. */
  lemma CorrectionShares(target: Posting, u: real)
    requires target.amount > 0 && Delivery.Uniform(u)
    ensures var a := Money.Amount(target.amount);
      && 0.05 * a - 0.5 <= Reduction(target, u) as real <= 0.18 * a + 0.5
      && 0.82 * a - 0.5 <= RestatedFigure(target, u) as real <= 0.96 * a + 0.5
  {
    hide Rng.Range, Money.Portion;
    var a := Money.Amount(target.amount);
    Rng.RangeBounds(u, 0.05, 0.18);
    Rng.RangeBounds(u, 0.82, 0.96);
    ShareBetween(a, Rng.Range(u, 0.05, 0.18), 0.05, 0.18);
    ShareBetween(a, Rng.Range(u, 0.82, 0.96), 0.82, 0.96);
    FloorIsNear(Money.Portion(a, Rng.Range(u, 0.05, 0.18)) + 0.5);
    FloorIsNear(Money.Portion(a, Rng.Range(u, 0.82, 0.96)) + 0.5);
  }

  /** What the corrections so far change. */
  function Changed(more: seq<Posting>, k: nat): int
    requires k <= |more|
  {
    if k == 0 then 0 else Changed(more, k - 1) + more[k - 1].amount
  }

  /** Each correction carries the cumulative amount on: what the posting it corrects had, with all that the
      corrections so far change, or nothing if that is less.  It is dated two to four months after it. */
  lemma CorrectionsCarryOn(postings: seq<Posting>, d: CorrectionDraws, k: nat)
    requires d.Valid() && k < |Corrections(postings, d)|
    ensures var more, target := Corrections(postings, d), postings[TargetIndex(|postings|, d.target)];
      var carried := target.cumulative + Changed(more, k + 1);
      && more[k].cumulative == (if carried < 0 then 0 else carried)
      && target.day + 60 <= more[0].day <= target.day + 130 && more[k].day == more[0].day + k
  {
    hide TargetIndex, Rng.Int, Reduction, RestatedFigure, CumulativeAfter, Money.Cents, Money.Amount;
    var more, target := Corrections(postings, d), postings[TargetIndex(|postings|, d.target)];
    Rng.IntBounds(d.days, 60, 130);
    assert Changed(more, 0) == 0 && Changed(more, 1) == more[0].amount;
    if |more| == 1 {
      var n := -Reduction(target, d.share);
      WholeUnits(Reduction(target, d.share));
      AmountsOf(target.amount, n);
      CarriedOn(target, n as real, 100 * n);
    } else {
      assert Changed(more, 2) == more[0].amount + more[1].amount;
      var n := RestatedFigure(target, d.share);
      WholeUnits(n);
      Negated(target.amount);
      AmountsOf(target.amount, n);
      CarriedOn(target, -Money.Amount(target.amount), -target.amount);
      CarriedOn(target, -Money.Amount(target.amount) + n as real, 100 * n - target.amount);
    }
  }

  lemma CarriedOn(target: Posting, change: real, cents: int)
    requires change == Money.Amount(cents)
    ensures CumulativeAfter(target, change)
         == if target.cumulative + cents < 0 then 0 else target.cumulative + cents
  {
    hide Money.Cents;
    Money.AmountsAdd(target.cumulative, cents);
    Money.CentsAreExact(target.cumulative + cents);
    Money.CentsAreExact(0);
  }

  lemma AmountsOf(amount: int, n: int)
    ensures -Money.Amount(amount) == Money.Amount(-amount) && n as real == Money.Amount(100 * n)
    ensures -Money.Amount(amount) + n as real == Money.Amount(100 * n - amount)
  {
  }

  predicate OnePostingAPeriod(postings: seq<Posting>) {
    forall i, j :: 0 <= i < j < |postings| ==> postings[i].period != postings[j].period
  }

  lemma {:induction false} EffectiveIsThePosting(postings: seq<Posting>, i: nat)
    requires OnePostingAPeriod(postings) && i < |postings|
    ensures Effective(postings, postings[i].period) == postings[i].amount
    decreases |postings|
  {
    var last := |postings| - 1;
    if i < last {
      EffectiveIsThePosting(postings[..last], i);
    } else {
      NothingEffective(postings[..last], postings[last].period);
    }
  }

  lemma {:induction false} NothingEffective(postings: seq<Posting>, period: int)
    requires forall i :: 0 <= i < |postings| ==> postings[i].period != period
    ensures Effective(postings, period) == 0
  {
    if postings != [] { NothingEffective(postings[..|postings| - 1], period); }
  }

  /** Every period keeps its effective amount but the corrected one, which falls, and stays above zero. */
  lemma CorrectionsAreLocal(postings: seq<Posting>, d: CorrectionDraws, period: int)
    requires d.Valid() && OnePostingAPeriod(postings)
    ensures var more := Corrections(postings, d);
      && Effective(postings + more, period) == Effective(postings, period) + Effective(more, period)
      && (more == [] || period != more[0].period ==> Effective(postings + more, period) == Effective(postings, period))
      && (more != [] && period == more[0].period ==>
            0 < Effective(postings + more, period) < Effective(postings, period))
  {
    hide TargetIndex, Adjustment, Reversal, Restatement, Money.Amount, Rng.Int;
    var more := Corrections(postings, d);
    EffectiveAdds(postings, more, period);
    if more == [] {
      NothingEffective(more, period);
    } else {
      var at := TargetIndex(|postings|, d.target);
      var target := postings[at];
      EffectiveIsThePosting(postings, at);
      var on := target.day + Rng.Int(d.days, 60, 130);
      CorrectionEffect(target, on, d.share);
      CorrectedPeriods(target, on, d.share);
      EffectiveOfOne(more[0], period);
      if |more| == 2 {
        EffectiveOfTwo(more[0], more[1], period);
        EffectiveOfOne(more[1], period);
      }
    }
  }

  lemma CorrectedPeriods(target: Posting, on: int, u: real)
    ensures Adjustment(target, on, u).period == Reversal(target, on).period == Restatement(target, on, u).period
      == target.period
  {
  }

  /** A correction names the posting it supersedes, one version older, of the same period and earlier in
      the list; and it carries the id of the ORIGINAL the chain started from. */
  predicate Supersedes(list: seq<Posting>, i: nat, j: nat)
    requires i < |list| && j < |list|
  {
    && j < i && list[i].supersedes == Some(list[j].id) && list[i].version == list[j].version + 1
    && list[i].period == list[j].period && list[i].kind != ORIGINAL
    && list[i].originalFact == (if list[j].kind == ORIGINAL then Some(list[j].id) else list[j].originalFact)
  }

  predicate Originals(postings: seq<Posting>) {
    forall i :: 0 <= i < |postings| ==> IsOriginal(postings[i])
  }

  /** Follows the chain of superseded postings down to its end. */
  ghost predicate Rooted(list: seq<Posting>, i: nat)
    decreases i
  {
    i < |list| && (list[i].kind == ORIGINAL || exists j: nat :: j < i && Supersedes(list, i, j) && Rooted(list, j))
  }

  /** Every posting's chain of supersessions ends at an ORIGINAL, and ids stay distinct. */
  lemma CorrectionsAreChained(postings: seq<Posting>, d: CorrectionDraws)
    requires d.Valid() && Originals(postings) && OnePostingAPeriod(postings)
    ensures var list := postings + Corrections(postings, d);
      && (forall i :: 0 <= i < |list| ==> Rooted(list, i))
      && (forall i, j :: 0 <= i < j < |list| ==> list[i].id != list[j].id)
  {
    hide TargetIndex, Money.Amount, Rng.Int, Money.Cents, CumulativeAfter, Reduction, RestatedFigure;
    var list, n := postings + Corrections(postings, d), |postings|;
    assert forall i :: 0 <= i < n ==> list[i] == postings[i] && Rooted(list, i);
    if Corrections(postings, d) != [] {
      var at := TargetIndex(n, d.target);
      assert Supersedes(list, n, at) && Rooted(list, n);
      if |list| == n + 2 {
        assert Supersedes(list, n + 1, n) && Rooted(list, n + 1);
      }
    }
  }

  /** The original postings, in order. */
  function OnlyOriginals(postings: seq<Posting>): seq<Posting> {
    if postings == [] then [] else
    OnlyOriginals(postings[..|postings| - 1])
    + if postings[|postings| - 1].kind == ORIGINAL then [postings[|postings| - 1]] else []
  }

  lemma {:induction false} OriginalsOnly(postings: seq<Posting>, more: seq<Posting>)
    requires forall i :: 0 <= i < |more| ==> more[i].kind != ORIGINAL
    ensures OnlyOriginals(postings + more) == OnlyOriginals(postings)
    decreases |more|
  {
    if more == [] {
      assert postings + more == postings;
    } else {
      assert (postings + more)[..|postings + more| - 1] == postings + more[..|more| - 1];
      OriginalsOnly(postings, more[..|more| - 1]);
    }
  }

  /** Corrections are never ORIGINAL, so whatever reads only the originals reads what it read before. */
  lemma CorrectionsAreNotOriginal(postings: seq<Posting>, d: CorrectionDraws)
    requires d.Valid()
    ensures OnlyOriginals(postings + Corrections(postings, d)) == OnlyOriginals(postings)
  {
    hide TargetIndex, Money.Amount, Rng.Int, Money.Cents, CumulativeAfter, Reduction, RestatedFigure;
    OriginalsOnly(postings, Corrections(postings, d));
  }
}
