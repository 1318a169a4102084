/** The planned progress curve (scripts/generator/simulate.ts). */
module SCurve {
  import Money

  function Clamp(x: real): (f: real)
    ensures 0.0 <= f <= 1.0
  {
    if x < 0.0 then 0.0 else if x > 1.0 then 1.0 else x
  }

  function Cubic(f: real): real {
    3.0 * f * f - 2.0 * f * f * f
  }

  function PlannedProgressAt(fraction: real): real {
    var y := Cubic(Clamp(fraction));
    if y > 1.0 then 1.0 else y
  }

  lemma Product(x: real, y: real)
    requires x >= 0.0 && y >= 0.0
    ensures x * y >= 0.0
    ensures x > 0.0 && y > 0.0 ==> x * y > 0.0
  {
  }

  /** The second factor of a difference of the cubic. */
  function Slope(f: real, g: real): real {
    2.0 * (g * (1.0 - g)) + 2.0 * (f * (1.0 - f)) + g * (1.0 - f) + f * (1.0 - g)
  }

  lemma SlopeIsPositive(f: real, g: real)
    requires 0.0 <= f <= g <= 1.0
    ensures Slope(f, g) >= 0.0 && (f < g ==> Slope(f, g) > 0.0)
  {
    Product(g, 1.0 - g);
    Product(f, 1.0 - f);
    Product(g, 1.0 - f);
    Product(f, 1.0 - g);
  }

  lemma Factored(f: real, g: real)
    ensures Cubic(g) - Cubic(f) == Money.Portion(g - f, Slope(f, g))
  {
    var s := Slope(f, g);
    assert s == 3.0 * g + 3.0 * f - 2.0 * (g * g) - 2.0 * (f * g) - 2.0 * (f * f);
    assert g * s == 3.0 * (g * g) + 3.0 * (f * g) - 2.0 * (g * g * g) - 2.0 * (f * g * g) - 2.0 * (f * f * g);
    assert f * s == 3.0 * (f * g) + 3.0 * (f * f) - 2.0 * (f * g * g) - 2.0 * (f * f * g) - 2.0 * (f * f * f);
    assert (g - f) * s == g * s - f * s;
  }

  lemma CubicGrows(f: real, g: real)
    requires 0.0 <= f <= g <= 1.0
    ensures Cubic(f) <= Cubic(g)
    ensures f < g ==> Cubic(f) < Cubic(g)
  {
    hide Cubic, Slope, Money.Portion;
    Factored(f, g);
    SlopeIsPositive(f, g);
    Money.PortionSign(g - f, Slope(f, g));
  }

  lemma CubicEnds()
    ensures Cubic(0.0) == 0.0 && Cubic(1.0) == 1.0
  {
  }

  /** The curve runs from 0 to 1, never falls, and rises strictly until the plan has elapsed. */
  lemma PlanRises(x: real, y: real)
    requires x <= y
    ensures 0.0 <= PlannedProgressAt(x) <= PlannedProgressAt(y) <= 1.0
    ensures 0.0 <= x < y && x < 1.0 ==> PlannedProgressAt(x) < PlannedProgressAt(y)
    ensures x <= 0.0 ==> PlannedProgressAt(x) == 0.0
    ensures x > 0.0 ==> PlannedProgressAt(x) > 0.0
    ensures x >= 1.0 <==> PlannedProgressAt(x) == 1.0
  {
    hide Cubic;
    CubicEnds();
    CubicGrows(0.0, Clamp(x));
    CubicGrows(Clamp(x), Clamp(y));
    CubicGrows(Clamp(x), 1.0);
    CubicGrows(Clamp(y), 1.0);
  }

  lemma WithinIsCubic(f: real)
    requires 0.0 <= f <= 1.0
    ensures PlannedProgressAt(f) == Cubic(f)
  {
    CubicEnds();
    CubicGrows(f, 1.0);
  }

  /** Slow start, fast middle, long tail.  The second half mirrors the first; in the first half progress is
      behind the straight line and in the second ahead of it; and over any two equal spans the pace changes
      by six times the span's square, up to the middle as much as down from it. */
  lemma PlanIsAnS(f: real, h: real)
    requires 0.0 <= h && 0.0 <= f - h && f + h <= 1.0
    ensures PlannedProgressAt(f) + PlannedProgressAt(1.0 - f) == 1.0
    ensures 0.0 < f < 0.5 ==> PlannedProgressAt(f) < f
    ensures 0.5 < f < 1.0 ==> PlannedProgressAt(f) > f
    ensures (PlannedProgressAt(f + h) - PlannedProgressAt(f)) - (PlannedProgressAt(f) - PlannedProgressAt(f - h))
         == 6.0 * (h * h) * (1.0 - 2.0 * f)
  {
    WithinIsCubic(f);
    WithinIsCubic(1.0 - f);
    WithinIsCubic(f + h);
    WithinIsCubic(f - h);
    Mirrored(f);
    AgainstTheLine(f);
    PaceChanges(f, h);
  }

  lemma Mirrored(f: real)
    ensures Cubic(f) + Cubic(1.0 - f) == 1.0
  {
    var g := 1.0 - f;
    assert g * g == 1.0 - 2.0 * f + f * f;
    assert f * g == f - f * f;
    assert g * g * g == g * g - f * (g * g);
    assert f * (g * g) == f - 2.0 * (f * f) + f * f * f;
  }

  lemma AgainstTheLine(f: real)
    requires 0.0 <= f <= 1.0
    ensures 0.0 < f < 0.5 ==> Cubic(f) < f
    ensures 0.5 < f < 1.0 ==> Cubic(f) > f
  {
    hide Cubic, Money.Portion;
    var x := Money.Portion(f, 1.0 - f);
    FromTheLine(f);
    Money.PortionSign(f, 1.0 - f);
    if f < 0.5 {
      Money.PortionSign(x, 1.0 - 2.0 * f);
    } else {
      Money.PortionSign(x, 2.0 * f - 1.0);
    }
  }

  lemma FromTheLine(f: real)
    ensures f - Cubic(f) == Money.Portion(Money.Portion(f, 1.0 - f), 1.0 - 2.0 * f)
    ensures Cubic(f) - f == Money.Portion(Money.Portion(f, 1.0 - f), 2.0 * f - 1.0)
  {
  }

  lemma PaceChanges(f: real, h: real)
    ensures (Cubic(f + h) - Cubic(f)) - (Cubic(f) - Cubic(f - h)) == 6.0 * (h * h) * (1.0 - 2.0 * f)
  {
    var a, b := f * f, h * h;
    assert (f + h) * (f + h) == a + 2.0 * (f * h) + b && (f - h) * (f - h) == a - 2.0 * (f * h) + b;
    assert (f + h) * (f + h) * (f + h) == a * f + 3.0 * (a * h) + 3.0 * (f * b) + b * h;
    assert (f - h) * (f - h) * (f - h) == a * f - 3.0 * (a * h) + 3.0 * (f * b) - b * h;
  }
}
