/** Amounts as they are emitted: `dec(value, 2)` of scripts/generator/rng.ts, in whole cents. */
module Money {

  /** `value.toFixed(2)`: the nearest cent, and away from zero from the middle. */
  function Cents(x: real): int {
    if x >= 0.0 then (100.0 * x + 0.5).Floor else -((-100.0 * x + 0.5).Floor)
  }

  function Amount(cents: int): real {
    cents as real / 100.0
  }

  function NotNegative(x: real): real {
    if x < 0.0 then 0.0 else x
  }

  function Portion(whole: real, share: real): real {
    whole * share
  }

  lemma PortionSign(whole: real, share: real)
    requires whole >= 0.0 && share >= 0.0
    ensures Portion(whole, share) >= 0.0
    ensures whole > 0.0 && share > 0.0 ==> Portion(whole, share) > 0.0
  {
  }

  lemma PortionSplits(whole: real, share: real, other: real)
    ensures Portion(whole, share + other) == Portion(whole, share) + Portion(whole, other)
    ensures Portion(whole, 1.0) == whole
  {
  }

  lemma PortionAdds(whole: real, more: real, share: real)
    ensures Portion(whole + more, share) == Portion(whole, share) + Portion(more, share)
  {
  }

  /** A share of an amount is between nothing and the amount. */
  lemma Share(whole: real, share: real)
    requires whole >= 0.0 && 0.0 <= share <= 1.0
    ensures 0.0 <= Portion(whole, share) <= whole
    ensures whole > 0.0 && share < 1.0 ==> Portion(whole, share) < whole
  {
    hide Portion;
    PortionSign(whole, share);
    PortionSign(whole, 1.0 - share);
    PortionSplits(whole, share, 1.0 - share);
  }

  /** An emitted amount is within half a cent, of the same sign, and rounding keeps order. */
  lemma CentsAreClose(x: real)
    ensures -0.005 <= Amount(Cents(x)) - x <= 0.005
    ensures x >= 0.0 ==> Cents(x) >= 0
    ensures x <= 0.0 ==> Cents(x) <= 0
  {
  }

  lemma CentsKeepOrder(x: real, y: real)
    requires x <= y
    ensures Cents(x) <= Cents(y)
  {
  }

  /** Whole cents are emitted as they are. */
  lemma CentsAreExact(c: int)
    ensures Cents(Amount(c)) == c
  {
  }

  lemma AmountsAdd(x: int, y: int)
    ensures Amount(x + y) == Amount(x) + Amount(y)
  {
  }

  /** A total of so many emitted amounts is an amount, to half a cent each. */
  predicate Near(total: int, x: real, rows: nat) {
    -0.005 * rows as real <= Amount(total) - x <= 0.005 * rows as real
  }

  /** One more rounded amount is one more half cent. */
  lemma NearAdds(total: int, x: real, rows: nat, amount: real)
    requires Near(total, x, rows)
    ensures Near(total + Cents(amount), x + amount, rows + 1)
  {
    CentsAreClose(amount);
    AmountsAdd(total, Cents(amount));
    hide Cents, Amount;
    assert 0.005 * (rows + 1) as real == 0.005 * rows as real + 0.005;
  }
}
