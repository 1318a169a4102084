/** Invoices and payments (scripts/generator/billing.ts), in cents, from the ORIGINAL postings. */
module Billing {
  import Delivery
  import Money
  import Recognition
  import Rng

  datatype Invoice = Invoice(id: nat, issuedOn: int, dueOn: int, amount: int)

  datatype Payment = Payment(invoice: nat, receivedOn: int, amount: int)

  /** What the loop carries: the target billed so far, how many draws it has used, and the rows. */
  datatype Bills = Bills(billedToDate: real, drawn: nat, invoices: seq<Invoice>, payments: seq<Payment>)

  function Fraction(draws: nat -> real): real {
    Rng.Range(draws(0), 0.82, 0.95)
  }

  function TargetBilled(p: Recognition.Posting, draws: nat -> real): real {
    Money.Portion(Money.Amount(p.cumulative), Fraction(draws))
  }

  /** What one original posting adds; `i` is its place among the originals. */
  function Bill(b: Bills, p: Recognition.Posting, i: nat, draws: nat -> real, asOf: int): Bills {
    var target := TargetBilled(p, draws);
    var amount := target - b.billedToDate;
    if amount <= 1000.0 then b else
    var issuedOn := p.day + Rng.Int(draws(b.drawn), 2, 9);
    if issuedOn > asOf then Bills(target, b.drawn + 1, b.invoices, b.payments) else
    var invoices := b.invoices + [Invoice(i, issuedOn, issuedOn + 30, Money.Cents(amount))];
    if !Rng.Chance(draws(b.drawn + 1), 0.86) then Bills(target, b.drawn + 2, invoices, b.payments) else
    var receivedOn := issuedOn + Rng.Int(draws(b.drawn + 2), 24, 88);
    Bills(target, b.drawn + 3, invoices,
          if receivedOn > asOf then b.payments else b.payments + [Payment(i, receivedOn, Money.Cents(amount))])
  }

  /** The bills after the first `n` originals. */
  function BillsAfter(originals: seq<Recognition.Posting>, n: nat, draws: nat -> real, asOf: int): Bills
    requires n <= |originals|
    decreases n, |originals|
  {
    if n == 0 then Bills(0.0, 1, [], [])
    else Bill(BillsAfter(originals, n - 1, draws, asOf), originals[n - 1], n - 1, draws, asOf)
  }

  method BuildBilling(recognised: seq<Recognition.Posting>, draws: nat -> real, asOf: int)
    returns (invoices: seq<Invoice>, payments: seq<Payment>)
    ensures var originals := Recognition.OnlyOriginals(recognised);
      var b := BillsAfter(originals, |originals|, draws, asOf);
      invoices == b.invoices && payments == b.payments
  {
    hide Money.Cents, Rng.Int, Rng.Chance, TargetBilled, Recognition.OnlyOriginals;
    invoices, payments := [], [];
    var originals := Recognition.OnlyOriginals(recognised);
    var billedToDate: real, drawn: nat := 0.0, 1;
    for i := 0 to |originals|
      invariant Bills(billedToDate, drawn, invoices, payments) == BillsAfter(originals, i, draws, asOf)
    {
      var r := originals[i];
      var targetBilled := TargetBilled(r, draws);
      var amount := targetBilled - billedToDate;
      if amount <= 1000.0 { continue; }
      billedToDate := targetBilled;
      var issuedOn := r.day + Rng.Int(draws(drawn), 2, 9);
      drawn := drawn + 1;
      if issuedOn > asOf { continue; }
      invoices := invoices + [Invoice(i, issuedOn, issuedOn + 30, Money.Cents(amount))];
      var paid := Rng.Chance(draws(drawn), 0.86);
      drawn := drawn + 1;
      if paid {
        var receivedOn := issuedOn + Rng.Int(draws(drawn), 24, 88);
        drawn := drawn + 1;
        if receivedOn <= asOf {
          payments := payments + [Payment(i, receivedOn, Money.Cents(amount))];
        }
      }
    }
  }

  // ---------------------------------------------------------------------------------------------
  // Payments, invoices, recognised revenue
  // ---------------------------------------------------------------------------------------------

  function Invoiced(invoices: seq<Invoice>): int {
    if invoices == [] then 0 else Invoiced(invoices[..|invoices| - 1]) + invoices[|invoices| - 1].amount
  }

  function Paid(payments: seq<Payment>): int {
    if payments == [] then 0 else Paid(payments[..|payments| - 1]) + payments[|payments| - 1].amount
  }

  predicate Pays(p: Payment, i: Invoice) {
    p.invoice == i.id && p.amount == i.amount && p.receivedOn > i.issuedOn
  }

  predicate HasInvoice(p: Payment, invoices: seq<Invoice>) {
    exists i :: 0 <= i < |invoices| && Pays(p, invoices[i])
  }

  /** Every payment is of one invoice, in full, and later; no invoice is paid twice. */
  predicate PaidOnce(b: Bills, n: nat) {
    && (forall i :: 0 <= i < |b.invoices| ==> b.invoices[i].amount >= 0 && b.invoices[i].id < n)
    && (forall i, j :: 0 <= i < j < |b.invoices| ==> b.invoices[i].id < b.invoices[j].id)
    && (forall i :: 0 <= i < |b.payments| ==> HasInvoice(b.payments[i], b.invoices))
    && (forall i, j :: 0 <= i < j < |b.payments| ==> b.payments[i].invoice < b.payments[j].invoice)
  }

  /** Paid at most what is invoiced, and that at most what is billed, to half a cent an invoice. */
  predicate Bounded(b: Bills) {
    && Paid(b.payments) <= Invoiced(b.invoices)
    && Money.Amount(Invoiced(b.invoices)) <= b.billedToDate + 0.005 * |b.invoices| as real
    && b.billedToDate >= 0.0
  }

  lemma InvoicedAppends(invoices: seq<Invoice>, i: Invoice)
    ensures Invoiced(invoices + [i]) == Invoiced(invoices) + i.amount
  {
    assert (invoices + [i])[..|invoices|] == invoices;
  }

  lemma PaidAppends(payments: seq<Payment>, p: Payment)
    ensures Paid(payments + [p]) == Paid(payments) + p.amount
  {
    assert (payments + [p])[..|payments|] == payments;
  }

  lemma BillKeepsBounds(b: Bills, p: Recognition.Posting, i: nat, draws: nat -> real, asOf: int)
    requires Bounded(b)
    ensures Bounded(Bill(b, p, i, draws, asOf))
    ensures b.billedToDate <= Bill(b, p, i, draws, asOf).billedToDate
    ensures Bill(b, p, i, draws, asOf).billedToDate == b.billedToDate
         || Bill(b, p, i, draws, asOf).billedToDate == TargetBilled(p, draws)
  {
    hide Invoiced, Paid, Money.Cents, Money.Amount, TargetBilled, Rng.Int, Rng.Chance;
    var amount := TargetBilled(p, draws) - b.billedToDate;
    if amount > 1000.0 {
      var issuedOn := p.day + Rng.Int(draws(b.drawn), 2, 9);
      Money.CentsAreClose(amount);
      InvoicedAppends(b.invoices, Invoice(i, issuedOn, issuedOn + 30, Money.Cents(amount)));
      Money.AmountsAdd(Invoiced(b.invoices), Money.Cents(amount));
      PaidAppends(b.payments, Payment(i, issuedOn + Rng.Int(draws(b.drawn + 2), 24, 88), Money.Cents(amount)));
    }
  }

  lemma StillHasInvoice(p: Payment, invoices: seq<Invoice>, more: Invoice)
    requires HasInvoice(p, invoices) || Pays(p, more)
    ensures HasInvoice(p, invoices + [more])
  {
    if Pays(p, more) {
      assert (invoices + [more])[|invoices|] == more;
    } else {
      var i :| 0 <= i < |invoices| && Pays(p, invoices[i]);
      assert (invoices + [more])[i] == invoices[i];
    }
  }

  predicate InUnit(draws: nat -> real, n: nat) {
    Delivery.Uniform(draws(n))
  }

  lemma BillKeepsPaidOnce(b: Bills, p: Recognition.Posting, n: nat, draws: nat -> real, asOf: int)
    requires PaidOnce(b, n) && (forall i :: 0 <= i < |b.payments| ==> b.payments[i].invoice < n)
    requires forall k :: InUnit(draws, k)
    ensures PaidOnce(Bill(b, p, n, draws, asOf), n + 1)
    ensures var c := Bill(b, p, n, draws, asOf); forall i :: 0 <= i < |c.payments| ==> c.payments[i].invoice < n + 1
  {
    hide Money.Cents, TargetBilled, Rng.Int, Rng.Chance, HasInvoice;
    var amount := TargetBilled(p, draws) - b.billedToDate;
    var c := Bill(b, p, n, draws, asOf);
    if amount > 1000.0 {
      var issuedOn := p.day + Rng.Int(draws(b.drawn), 2, 9);
      var invoice := Invoice(n, issuedOn, issuedOn + 30, Money.Cents(amount));
      Money.CentsAreClose(amount);
      assert InUnit(draws, b.drawn + 2);
      Rng.IntBounds(draws(b.drawn + 2), 24, 88);
      if issuedOn <= asOf {
        assert c.invoices == b.invoices + [invoice];
        forall i | 0 <= i < |c.payments| ensures HasInvoice(c.payments[i], c.invoices) {
          StillHasInvoice(c.payments[i], b.invoices, invoice);
        }
      }
    }
  }

  /** In every prefix of the originals: payments are of invoices, once each and in full. */
  lemma {:induction false} EveryPaymentHasItsInvoice(originals: seq<Recognition.Posting>, n: nat, draws: nat -> real,
      asOf: int)
    requires n <= |originals| && forall k :: InUnit(draws, k)
    ensures var b := BillsAfter(originals, n, draws, asOf);
      PaidOnce(b, n) && forall i :: 0 <= i < |b.payments| ==> b.payments[i].invoice < n
  {
    hide Bill;
    if n > 0 {
      EveryPaymentHasItsInvoice(originals, n - 1, draws, asOf);
      BillKeepsPaidOnce(BillsAfter(originals, n - 1, draws, asOf), originals[n - 1], n - 1, draws, asOf);
    }
  }

  lemma FractionBounds(draws: nat -> real)
    requires InUnit(draws, 0)
    ensures 0.82 <= Fraction(draws) < 0.95
  {
    hide Rng.Range;
    Rng.RangeBounds(draws(0), 0.82, 0.95);
  }

  predicate CumulativeNeverFalls(originals: seq<Recognition.Posting>) {
    && (forall i, j :: 0 <= i < j < |originals| ==> originals[i].cumulative <= originals[j].cumulative)
    && (forall i :: 0 <= i < |originals| ==> originals[i].cumulative >= 0)
  }

  lemma PortionGrows(x: real, y: real, share: real)
    requires x <= y && share >= 0.0
    ensures Money.Portion(x, share) <= Money.Portion(y, share)
  {
    assert (y - x) * share >= 0.0;
    assert (y - x) * share == y * share - x * share;
  }

  lemma AmountGrows(x: int, y: int)
    requires x <= y
    ensures Money.Amount(x) <= Money.Amount(y)
  {
  }

  /** In every prefix: paid ≤ invoiced ≤ the billed fraction of the cumulative recognised so far, the
      last to half a cent an invoice. */
  lemma {:induction false} PaidWithinInvoicedWithinRecognised(
      originals: seq<Recognition.Posting>, n: nat, draws: nat -> real, asOf: int)
    requires 0 < n <= |originals| && CumulativeNeverFalls(originals) && InUnit(draws, 0)
    ensures var b := BillsAfter(originals, n, draws, asOf);
      && Bounded(b)
      && b.billedToDate <= TargetBilled(originals[n - 1], draws)
      && Money.Amount(Invoiced(b.invoices)) <= TargetBilled(originals[n - 1], draws) + 0.005 * |b.invoices| as real
    decreases n
  {
    hide Bill, Bounded, Money.Amount, Fraction, Money.Portion;
    var before, last := BillsAfter(originals, n - 1, draws, asOf), originals[n - 1];
    FractionBounds(draws);
    if n == 1 {
      NothingBilled();
      AmountGrows(0, last.cumulative);
      PortionGrows(Money.Amount(0), Money.Amount(last.cumulative), Fraction(draws));
      NothingTimes(Fraction(draws));
    } else {
      PaidWithinInvoicedWithinRecognised(originals, n - 1, draws, asOf);
      AmountGrows(originals[n - 2].cumulative, last.cumulative);
      PortionGrows(Money.Amount(originals[n - 2].cumulative), Money.Amount(last.cumulative), Fraction(draws));
    }
    BillKeepsBounds(before, last, n - 1, draws, asOf);
    BoundsMean(BillsAfter(originals, n, draws, asOf));
  }

  lemma NothingBilled()
    ensures Bounded(Bills(0.0, 1, [], []))
  {
  }

  lemma NothingTimes(share: real)
    ensures Money.Portion(Money.Amount(0), share) == 0.0
  {
  }

  lemma BoundsMean(b: Bills)
    requires Bounded(b)
    ensures Money.Amount(Invoiced(b.invoices)) <= b.billedToDate + 0.005 * |b.invoices| as real
  {
  }

  /** What is billed, before it is rounded to invoices, is below 95% of what is recognised. */
  lemma BilledBelowNinetyFivePercent(originals: seq<Recognition.Posting>, n: nat, draws: nat -> real, asOf: int)
    requires 0 < n <= |originals| && CumulativeNeverFalls(originals) && InUnit(draws, 0)
    requires originals[n - 1].cumulative > 0
    ensures BillsAfter(originals, n, draws, asOf).billedToDate
      < Money.Portion(Money.Amount(originals[n - 1].cumulative), 0.95)
  {
    hide Bill, Fraction, BillsAfter, Money.Portion, Invoiced, Money.Amount;
    PaidWithinInvoicedWithinRecognised(originals, n, draws, asOf);
    FractionBounds(draws);
    var share, recognised := Fraction(draws), Money.Amount(originals[n - 1].cumulative);
    PositiveAmount(originals[n - 1].cumulative);
    Money.PortionSign(recognised, 0.95 - share);
    Money.PortionSplits(recognised, share, 0.95 - share);
  }

  lemma PositiveAmount(cents: int)
    requires cents > 0
    ensures Money.Amount(cents) > 0.0
  {
  }

  // ---------------------------------------------------------------------------------------------
  // When the invoices themselves are within 95%
  // ---------------------------------------------------------------------------------------------

  /** The billed fraction from which rounding can carry invoices past 95%: 1000.165 of 1052.81. */
  const THRESHOLD := 100016.5 / 105281.0

  /** One invoice is within 95% of the cents it bills, whatever they are, below the threshold.  From
      105281 cents on there is room for the half cent; below, no product ends where it would be needed. */
  lemma InvoiceWithin(delta: int, share: real)
    requires 0.82 <= share < THRESHOLD && Money.Portion(Money.Amount(delta), share) > 1000.0
    ensures 20 * Money.Cents(Money.Portion(Money.Amount(delta), share)) <= 19 * delta
  {
    var cents, room := delta as real * share, delta as real * (0.95 - share);
    var amount := Money.Portion(Money.Amount(delta), share);
    InCents(delta, share);
    assert room == 0.95 * delta as real - cents;
    CentsNeeded(delta, share);
    RoomLeft(delta, share);
    hide Money.Portion, Money.Amount;
    var over := 20 * Money.Cents(amount) - 19 * delta;
    assert over as real <= 20.0 * (cents + 0.5) - 19.0 * delta as real;
    assert over as real <= 10.0 - 20.0 * room;
    if delta < 105281 {
      assert over <= 1;
      Residue(delta, Money.Cents(amount));
    }
  }

  lemma InCents(delta: int, share: real)
    ensures 100.0 * Money.Portion(Money.Amount(delta), share) == delta as real * share
  {
    assert Money.Amount(delta) == delta as real / 100.0;
  }

  lemma CentsNeeded(delta: int, share: real)
    requires 0.82 <= share < 0.95 && delta as real * share > 100000.0
    ensures delta >= 105264
  {
    var x := delta as real;
    if x > 0.0 {
      AtMostShare(x, share);
    } else {
      NothingOfNothing(x, share);
    }
  }

  lemma AtMostShare(x: real, share: real)
    requires x > 0.0 && share < 0.95
    ensures x * share < 0.95 * x
  {
    assert x * (0.95 - share) == 0.95 * x - x * share;
    assert x * (0.95 - share) > 0.0;
  }

  lemma NothingOfNothing(x: real, share: real)
    requires x <= 0.0 && share > 0.0
    ensures x * share <= 0.0
  {
  }

  lemma RoomLeft(delta: int, share: real)
    requires 0.82 <= share < THRESHOLD && delta >= 105264
    ensures delta as real * (0.95 - share) > 0.4499
    ensures delta >= 105281 ==> delta as real * (0.95 - share) > 0.45
  {
    var least := 0.95 - THRESHOLD;
    assert least == 0.45 / 105281.0;
    var x, room := delta as real, 0.95 - share;
    assert room > least;
    Money.PortionSign(x, room - least);
    assert x * (room - least) == x * room - x * least;
    assert x * least >= 105264.0 * least;
  }

  /** Twenty times a whole number and nineteen times this one never differ by one. */
  lemma Residue(delta: int, n: int)
    requires 105264 <= delta < 105281
    ensures 20 * n - 19 * delta != 1
  {
    assert (20 * n - 19 * delta) % 20 == delta % 20;
  }

  /** The cumulative of the last posting that was billed. */
  function BilledCents(originals: seq<Recognition.Posting>, n: nat, draws: nat -> real, asOf: int): int
    requires n <= |originals|
    decreases n, |originals|
  {
    if n == 0 then 0
    else if TargetBilled(originals[n - 1], draws) - BillsAfter(originals, n - 1, draws, asOf).billedToDate <= 1000.0
    then BilledCents(originals, n - 1, draws, asOf)
    else originals[n - 1].cumulative
  }

  /** The invoices of the first `n` postings are within 95% of what the last has recognised, in cents. */
  predicate WithinNinetyFive(originals: seq<Recognition.Posting>, n: nat, draws: nat -> real, asOf: int) {
    0 < n <= |originals| && CumulativeNeverFalls(originals) ==>
      20 * Invoiced(BillsAfter(originals, n, draws, asOf).invoices) <= 19 * originals[n - 1].cumulative
  }

  lemma DifferenceIsPortion(x: int, y: int, share: real)
    ensures Money.Portion(Money.Amount(y), share) - Money.Portion(Money.Amount(x), share)
         == Money.Portion(Money.Amount(y - x), share)
  {
    hide Money.Portion;
    assert Money.Amount(x) + Money.Amount(y - x) == Money.Amount(y);
    Money.PortionAdds(Money.Amount(x), Money.Amount(y - x), share);
  }

  /** What one posting adds to the invoices is within 95% of the cents it bills. */
  lemma BillStaysWithin(b: Bills, billed: int, p: Recognition.Posting, i: nat, draws: nat -> real, asOf: int)
    requires InUnit(draws, 0) && Fraction(draws) < THRESHOLD
    requires b.billedToDate == Money.Portion(Money.Amount(billed), Fraction(draws))
    requires 20 * Invoiced(b.invoices) <= 19 * billed
    ensures var c := Bill(b, p, i, draws, asOf);
      var now := if TargetBilled(p, draws) - b.billedToDate <= 1000.0 then billed else p.cumulative;
      && c.billedToDate == Money.Portion(Money.Amount(now), Fraction(draws))
      && 20 * Invoiced(c.invoices) <= 19 * now && now >= billed
  {
    hide Fraction, Money.Portion, Money.Amount, Money.Cents, Invoiced, Rng.Int, Rng.Chance;
    FractionBounds(draws);
    DifferenceIsPortion(billed, p.cumulative, Fraction(draws));
    var delta, amount := p.cumulative - billed, TargetBilled(p, draws) - b.billedToDate;
    if amount > 1000.0 {
      InvoiceWithin(delta, Fraction(draws));
      Money.CentsAreClose(amount);
      var issuedOn := p.day + Rng.Int(draws(b.drawn), 2, 9);
      InvoicedAppends(b.invoices, Invoice(i, issuedOn, issuedOn + 30, Money.Cents(amount)));
    }
  }

  lemma {:induction false} InvoicedWithinBilled(originals: seq<Recognition.Posting>, n: nat, draws: nat -> real,
      asOf: int)
    requires n <= |originals| && CumulativeNeverFalls(originals) && InUnit(draws, 0) && Fraction(draws) < THRESHOLD
    ensures var b, billed := BillsAfter(originals, n, draws, asOf), BilledCents(originals, n, draws, asOf);
      && b.billedToDate == Money.Portion(Money.Amount(billed), Fraction(draws))
      && 20 * Invoiced(b.invoices) <= 19 * billed
      && billed <= if n == 0 then 0 else originals[n - 1].cumulative
    decreases n
  {
    hide Fraction, Bill, TargetBilled, Invoiced;
    if n == 0 {
      NothingTimes(Fraction(draws));
      NoInvoices();
    } else {
      InvoicedWithinBilled(originals, n - 1, draws, asOf);
      BillStaysWithin(BillsAfter(originals, n - 1, draws, asOf), BilledCents(originals, n - 1, draws, asOf),
                      originals[n - 1], n - 1, draws, asOf);
    }
  }

  lemma NoInvoices()
    ensures Invoiced([]) == 0
  {
  }

  /** At and above the threshold one posting of 1052.81 is invoiced at 1000.17, which is more than 95%. */
  lemma InvoicesCanPassNinetyFivePercent(p: Recognition.Posting, draws: nat -> real, asOf: int)
    requires InUnit(draws, 0) && InUnit(draws, 1) && Fraction(draws) >= THRESHOLD
    requires p.cumulative == 105281 && asOf >= p.day + 9
    ensures Invoiced(BillsAfter([p], 1, draws, asOf).invoices) == 100017
    ensures !WithinNinetyFive([p], 1, draws, asOf)
  {
    hide Fraction, Bill, TargetBilled, Invoiced, BillsAfter, Money.Portion, Money.Amount, Money.Cents;
    FractionBounds(draws);
    var share, amount := Fraction(draws), TargetBilled(p, draws);
    TargetIsPortion(p, draws);
    InCents(105281, share);
    PassingCents(amount, share);
    OneInvoice(p, draws, asOf);
  }

  lemma TargetIsPortion(p: Recognition.Posting, draws: nat -> real)
    ensures TargetBilled(p, draws) == Money.Portion(Money.Amount(p.cumulative), Fraction(draws))
  {
  }

  lemma OneInvoice(p: Recognition.Posting, draws: nat -> real, asOf: int)
    requires InUnit(draws, 1) && asOf >= p.day + 9 && TargetBilled(p, draws) > 1000.0
    ensures Invoiced(BillsAfter([p], 1, draws, asOf).invoices) == Money.Cents(TargetBilled(p, draws))
  {
    hide TargetBilled, Invoiced, Money.Cents, Rng.Int;
    Rng.IntBounds(draws(1), 2, 9);
    var start, amount := Bills(0.0, 1, [], []), TargetBilled(p, draws);
    assert BillsAfter([p], 0, draws, asOf) == start;
    var b := Bill(start, p, 0, draws, asOf);
    assert BillsAfter([p], 1, draws, asOf) == b;
    var invoice := Invoice(0, p.day + Rng.Int(draws(1), 2, 9), p.day + Rng.Int(draws(1), 2, 9) + 30,
      Money.Cents(amount));
    assert b.invoices == [] + [invoice];
    InvoicedAppends([], invoice);
    NoInvoices();
  }

  lemma PassingCents(amount: real, share: real)
    requires THRESHOLD <= share < 0.95 && 100.0 * amount == 105281.0 * share
    ensures Money.Cents(amount) == 100017 && amount > 1000.0
  {
  }

  /** The 95% bound holds of every list of postings and every prefix of it exactly for the billed
      fractions below the threshold. */
  lemma NinetyFivePercentIff(draws: nat -> real)
    requires forall k :: InUnit(draws, k)
    ensures Fraction(draws) < THRESHOLD <==>
      forall originals: seq<Recognition.Posting>, n: nat, asOf: int :: WithinNinetyFive(originals, n, draws, asOf)
  {
    hide Fraction, BillsAfter, Invoiced;
    assert InUnit(draws, 0) && InUnit(draws, 1);
    if Fraction(draws) < THRESHOLD {
      forall originals: seq<Recognition.Posting>, n: nat, asOf: int
        ensures WithinNinetyFive(originals, n, draws, asOf)
      {
        if 0 < n <= |originals| && CumulativeNeverFalls(originals) {
          InvoicedWithinBilled(originals, n, draws, asOf);
        }
      }
    } else {
      var p := Recognition.OriginalPosting(0, 0, 0.0, 1052.81);
      assert p.cumulative == 105281;
      InvoicesCanPassNinetyFivePercent(p, draws, 12);
    }
  }

  /** Of the 2^32 draws of the generator, those from here on, about one in thirty thousand, bill a
      fraction at or above the threshold. */
  const FIRST_PASSING_DRAW := 4294826082

  lemma PassingDraws(x: Rng.Bytes.word)
    ensures Rng.Range(Rng.Fraction(x), 0.82, 0.95) < THRESHOLD <==> x < FIRST_PASSING_DRAW
  {
    var u := Rng.Fraction(x);
    assert u == x as real / 4294967296.0;
    assert Rng.Range(u, 0.82, 0.95) == 0.82 + u * 0.13;
  }

  /** Corrections to revenue re-issue no invoice: billing is the same with them as without. */
  lemma CorrectionsDoNotRebill(postings: seq<Recognition.Posting>, d: Recognition.CorrectionDraws, draws: nat -> real,
      asOf: int)
    requires d.Valid()
    ensures var originals := Recognition.OnlyOriginals(postings);
      var corrected := Recognition.OnlyOriginals(postings + Recognition.Corrections(postings, d));
      BillsAfter(corrected, |corrected|, draws, asOf) == BillsAfter(originals, |originals|, draws, asOf)
  {
    Recognition.CorrectionsAreNotOriginal(postings, d);
  }

  // ---------------------------------------------------------------------------------------------
  // What is billed, and when
  // ---------------------------------------------------------------------------------------------

  /** An invoice goes out two to nine days after its posting, on or before the as-of date, is due thirty days
      later and is of more than 1000, to half a cent. */
  predicate InvoiceDated(i: Invoice, originals: seq<Recognition.Posting>, asOf: int) {
    && i.id < |originals| && originals[i.id].day + 2 <= i.issuedOn <= originals[i.id].day + 9 && i.issuedOn <= asOf
    && i.dueOn == i.issuedOn + 30 && i.amount >= 100000
  }

  /** A payment comes 24 to 88 days after the invoice it pays, and not after the as-of date. */
  predicate PaymentDated(p: Payment, invoices: seq<Invoice>, asOf: int) {
    && p.receivedOn <= asOf
    && exists i :: 0 <= i < |invoices| && Pays(p, invoices[i]) && PaidInTime(p, invoices[i])
  }

  predicate PaidInTime(p: Payment, i: Invoice) {
    i.issuedOn + 24 <= p.receivedOn <= i.issuedOn + 88
  }

  lemma AboveAThousand(amount: real)
    requires amount > 1000.0
    ensures Money.Cents(amount) >= 100000
  {
  }

  predicate AllDated(b: Bills, originals: seq<Recognition.Posting>, asOf: int) {
    && (forall i :: 0 <= i < |b.invoices| ==> InvoiceDated(b.invoices[i], originals, asOf))
    && (forall i :: 0 <= i < |b.payments| ==> PaymentDated(b.payments[i], b.invoices, asOf))
  }

  lemma {:induction false} RowsAreDated(originals: seq<Recognition.Posting>, n: nat, draws: nat -> real, asOf: int)
    requires n <= |originals| && forall k :: InUnit(draws, k)
    ensures AllDated(BillsAfter(originals, n, draws, asOf), originals, asOf)
    decreases n
  {
    hide TargetBilled, Money.Cents, Rng.Int, Rng.Chance, Pays, InvoiceDated, PaymentDated, AllDated;
    if n == 0 {
      NoRowsYet(originals, asOf);
    } else {
      RowsAreDated(originals, n - 1, draws, asOf);
      var b, p := BillsAfter(originals, n - 1, draws, asOf), originals[n - 1];
      assert InUnit(draws, b.drawn) && InUnit(draws, b.drawn + 2);
      BillIsDated(b, originals, n - 1, draws, asOf);
    }
  }

  lemma BillIsDated(b: Bills, originals: seq<Recognition.Posting>, i: nat, draws: nat -> real, asOf: int)
    requires i < |originals| && AllDated(b, originals, asOf) && InUnit(draws, b.drawn) && InUnit(draws, b.drawn + 2)
    ensures AllDated(Bill(b, originals[i], i, draws, asOf), originals, asOf)
  {
    hide TargetBilled, Money.Cents, Rng.Int, Rng.Chance, InvoiceDated, AllDated;
    var p, c := originals[i], Bill(b, originals[i], i, draws, asOf);
    var amount := TargetBilled(p, draws) - b.billedToDate;
    Rng.IntBounds(draws(b.drawn), 2, 9);
    Rng.IntBounds(draws(b.drawn + 2), 24, 88);
    var issuedOn := p.day + Rng.Int(draws(b.drawn), 2, 9);
    if amount <= 1000.0 || issuedOn > asOf {
      SameRows(b, c, originals, asOf);
    } else {
      AboveAThousand(amount);
      var invoice := Invoice(i, issuedOn, issuedOn + 30, Money.Cents(amount));
      IsDated(invoice, originals, asOf);
      OneMoreInvoice(b, originals, invoice, asOf);
      var d := b.(invoices := b.invoices + [invoice]);
      var payment := Payment(i, issuedOn + Rng.Int(draws(b.drawn + 2), 24, 88), invoice.amount);
      if c.payments == b.payments {
        SameRows(d, c, originals, asOf);
      } else {
        OneMorePayment(d, originals, payment, asOf);
        SameRows(d.(payments := b.payments + [payment]), c, originals, asOf);
      }
    }
  }

  lemma NoRowsYet(originals: seq<Recognition.Posting>, asOf: int)
    ensures AllDated(Bills(0.0, 1, [], []), originals, asOf)
  {
  }

  lemma SameRows(b: Bills, c: Bills, originals: seq<Recognition.Posting>, asOf: int)
    requires AllDated(b, originals, asOf) && c.invoices == b.invoices && c.payments == b.payments
    ensures AllDated(c, originals, asOf)
  {
    hide InvoiceDated, PaymentDated;
  }

  lemma IsDated(i: Invoice, originals: seq<Recognition.Posting>, asOf: int)
    requires i.id < |originals| && originals[i.id].day + 2 <= i.issuedOn <= originals[i.id].day + 9
    requires i.issuedOn <= asOf && i.dueOn == i.issuedOn + 30 && i.amount >= 100000
    ensures InvoiceDated(i, originals, asOf)
  {
  }

  lemma OneMoreInvoice(b: Bills, originals: seq<Recognition.Posting>, invoice: Invoice, asOf: int)
    requires AllDated(b, originals, asOf) && InvoiceDated(invoice, originals, asOf)
    ensures AllDated(b.(invoices := b.invoices + [invoice]), originals, asOf)
  {
    hide InvoiceDated, Pays;
    var more := b.invoices + [invoice];
    forall i | 0 <= i < |b.payments|
      ensures PaymentDated(b.payments[i], more, asOf)
    {
      var j :| 0 <= j < |b.invoices| && Pays(b.payments[i], b.invoices[j]) && PaidInTime(b.payments[i], b.invoices[j]);
      assert more[j] == b.invoices[j];
    }
  }

  lemma OneMorePayment(b: Bills, originals: seq<Recognition.Posting>, p: Payment, asOf: int)
    requires AllDated(b, originals, asOf) && b.invoices != [] && p.receivedOn <= asOf
    requires var last := b.invoices[|b.invoices| - 1];
      p.invoice == last.id && p.amount == last.amount && PaidInTime(p, last)
    ensures AllDated(b.(payments := b.payments + [p]), originals, asOf)
  {
    hide InvoiceDated;
    PaysItself(p, b.invoices[|b.invoices| - 1]);
    hide Pays;
    assert PaymentDated(p, b.invoices, asOf);
  }

  lemma PaysItself(p: Payment, i: Invoice)
    requires p.invoice == i.id && p.amount == i.amount && p.receivedOn >= i.issuedOn + 24
    ensures Pays(p, i)
  {
  }

  /** After every posting at most 1000 of what is to be billed is not billed. */
  lemma UnbilledIsSmall(originals: seq<Recognition.Posting>, n: nat, draws: nat -> real, asOf: int)
    requires 0 < n <= |originals|
    ensures TargetBilled(originals[n - 1], draws) - BillsAfter(originals, n, draws, asOf).billedToDate <= 1000.0
  {
    hide TargetBilled, Money.Cents, Rng.Int, Rng.Chance;
  }

  /** What posting `k` adds to be billed. */
  function Increment(originals: seq<Recognition.Posting>, k: nat, draws: nat -> real, asOf: int): real
    requires k < |originals|
  {
    TargetBilled(originals[k], draws) - BillsAfter(originals, k, draws, asOf).billedToDate
  }

  predicate IsInvoiced(invoices: seq<Invoice>, id: nat, amount: int) {
    exists i :: 0 <= i < |invoices| && invoices[i].id == id && invoices[i].amount == amount
  }

  /** Every increment above 1000 that is due to go out by the as-of date is invoiced, and stays so. */
  lemma {:induction false} EveryIncrementIsInvoiced(
      originals: seq<Recognition.Posting>, k: nat, n: nat, draws: nat -> real, asOf: int)
    requires k < n <= |originals| && (forall j :: InUnit(draws, j)) && originals[k].day + 9 <= asOf
    requires Increment(originals, k, draws, asOf) > 1000.0
    ensures IsInvoiced(BillsAfter(originals, n, draws, asOf).invoices, k,
      Money.Cents(Increment(originals, k, draws, asOf)))
    decreases n
  {
    hide TargetBilled, Money.Cents, Rng.Int, Rng.Chance;
    var b := BillsAfter(originals, n - 1, draws, asOf);
    var c := Bill(b, originals[n - 1], n - 1, draws, asOf);
    if k < n - 1 {
      EveryIncrementIsInvoiced(originals, k, n - 1, draws, asOf);
      var cents := Money.Cents(Increment(originals, k, draws, asOf));
      var i :| 0 <= i < |b.invoices| && b.invoices[i].id == k && b.invoices[i].amount == cents;
      assert c.invoices == b.invoices || c.invoices[i] == b.invoices[i];
    } else {
      assert InUnit(draws, b.drawn);
      Rng.IntBounds(draws(b.drawn), 2, 9);
      assert c.invoices[|b.invoices|].id == k;
    }
  }

  /** An invoice is paid if and only if its draw is below 0.86 and the payment comes by the as-of date. */
  lemma PaidIff(originals: seq<Recognition.Posting>, k: nat, draws: nat -> real, asOf: int)
    requires k < |originals|
    ensures var b, c := BillsAfter(originals, k, draws, asOf), BillsAfter(originals, k + 1, draws, asOf);
      |c.invoices| > |b.invoices| ==>
        && |c.invoices| == |b.invoices| + 1
        && (|c.payments| > |b.payments| <==>
              && draws(b.drawn + 1) < 0.86
              && c.invoices[|b.invoices|].issuedOn + Rng.Int(draws(b.drawn + 2), 24, 88) <= asOf)
  {
    hide TargetBilled, Money.Cents, Rng.Int;
  }

  /** Draws are used in turn, none twice and none passed over: the first for the fraction, and then one for
      each increment above 1000, one for each invoice, and one for each that its draw lets be paid. */
  lemma DrawsAreUsedInTurn(originals: seq<Recognition.Posting>, k: nat, draws: nat -> real, asOf: int)
    requires k < |originals|
    ensures var b, c := BillsAfter(originals, k, draws, asOf), BillsAfter(originals, k + 1, draws, asOf);
      var issued := |c.invoices| - |b.invoices|;
      && (c.drawn == b.drawn <==> Increment(originals, k, draws, asOf) <= 1000.0)
      && (c.drawn > b.drawn ==>
            c.drawn == b.drawn + 1 + issued + if issued == 1 && draws(b.drawn + 1) < 0.86 then 1 else 0)
    ensures BillsAfter(originals, 0, draws, asOf).drawn == 1
  {
    hide TargetBilled, Money.Cents, Rng.Int;
  }

  /** When every invoice is due to go out by the as-of date, what is invoiced is what is billed, to half a
      cent an invoice. */
  lemma {:induction false} AllIsInvoiced(originals: seq<Recognition.Posting>, n: nat, draws: nat -> real, asOf: int)
    requires n <= |originals| && (forall j :: InUnit(draws, j))
    requires forall k :: 0 <= k < n ==> originals[k].day + 9 <= asOf
    ensures var b := BillsAfter(originals, n, draws, asOf);
      Money.Near(Invoiced(b.invoices), b.billedToDate, |b.invoices|)
    decreases n
  {
    hide TargetBilled, Money.Cents, Money.Near, Invoiced, Rng.Int, Rng.Chance;
    if n == 0 {
      NothingNear();
    } else {
      AllIsInvoiced(originals, n - 1, draws, asOf);
      var b := BillsAfter(originals, n - 1, draws, asOf);
      assert InUnit(draws, b.drawn);
      Rng.IntBounds(draws(b.drawn), 2, 9);
      var amount := Increment(originals, n - 1, draws, asOf);
      if amount > 1000.0 {
        var issuedOn := originals[n - 1].day + Rng.Int(draws(b.drawn), 2, 9);
        InvoicedAppends(b.invoices, Invoice(n - 1, issuedOn, issuedOn + 30, Money.Cents(amount)));
        Money.NearAdds(Invoiced(b.invoices), b.billedToDate, |b.invoices|, amount);
        assert b.billedToDate + amount == TargetBilled(originals[n - 1], draws);
      }
    }
  }

  lemma NothingNear()
    ensures Money.Near(Invoiced([]), 0.0, 0)
  {
  }
}
