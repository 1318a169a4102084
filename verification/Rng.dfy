/** The seeded generator (scripts/generator/rng.ts): the state of mulberry32, the draws made from it and
    the in-place shuffle.  Draws are exact reals; hashing the seed text into the first state is not
    modelled, so every result is for all first states. */
module Rng {
  import opened Bytes

  // ---------------------------------------------------------------------------------------------
  // The state
  // ---------------------------------------------------------------------------------------------

  /** The odd number added to the state on every draw. */
  const INCREMENT := 1831565813

  /** Its inverse modulo 2^32, and how often 2^32 goes into the product. */
  const INVERSE := 3696798301
  const QUOTIENT := 1576479847

  function Advance(a: word): word {
    (a + INCREMENT) % WORD
  }

  function State(a: word, n: nat): word {
    if n == 0 then a else Advance(State(a, n - 1))
  }

  lemma StateZero(a: word)
    ensures State(a, 0) == a
  {
  }

  lemma {:induction false} StateIsLinear(a: word, n: nat)
    ensures State(a, n) == (a + n * INCREMENT) % WORD
  {
    if n > 0 {
      StateIsLinear(a, n - 1);
      var m := a + (n - 1) * INCREMENT;
      assert (m % WORD + INCREMENT) % WORD == (m + INCREMENT) % WORD by { ModAdds(m, INCREMENT); }
      assert m + INCREMENT == a + n * INCREMENT;
    }
  }

  lemma ModAdds(m: nat, k: nat)
    ensures (m % WORD + k) % WORD == (m + k) % WORD
  {
    assert m == WORD * (m / WORD) + m % WORD;
    ModShift(m % WORD + k, m / WORD);
  }

  lemma ModShift(r: int, q: int)
    ensures (WORD * q + r) % WORD == r % WORD
  {
    assert r == WORD * (r / WORD) + r % WORD;
    assert WORD * q + r == WORD * (q + r / WORD) + r % WORD;
    ModUnique(WORD * q + r, q + r / WORD, r % WORD);
  }

  lemma ModUnique(x: int, q: int, r: int)
    requires x == WORD * q + r && 0 <= r < WORD
    ensures x % WORD == r && x / WORD == q
  {
  }

  /** `n` draws come back to the state they started from exactly when `n` is a multiple of 2^32. */
  lemma Period(a: word, n: nat)
    ensures State(a, n) == a <==> n % WORD == 0
  {
    StateIsLinear(a, n);
    var x := n * INCREMENT;
    if n % WORD == 0 {
      var q := n / WORD;
      assert n == WORD * q;
      assert a + x == WORD * (q * INCREMENT) + a;
      ModShift(a, q * INCREMENT);
    }
    if State(a, n) == a {
      var q := (a + x) / WORD;
      assert x == WORD * q;
      InverseCancels(n, q);
    }
  }

  /** Multiplying by the inverse brings `n` back, up to multiples of 2^32. */
  lemma InverseCancels(n: nat, q: nat)
    requires n * INCREMENT == WORD * q
    ensures n % WORD == 0
  {
    var k := q * INVERSE - n * QUOTIENT;
    assert INCREMENT * INVERSE == 1 + WORD * QUOTIENT;
    calc {
      WORD * k;
      (WORD * q) * INVERSE - WORD * (n * QUOTIENT);
      (n * INCREMENT) * INVERSE - WORD * (n * QUOTIENT);
      n * (INCREMENT * INVERSE) - n * (WORD * QUOTIENT);
      n;
    }
    ModUnique(n, k, 0);
  }

  /** The states before the first return are all different. */
  lemma StatesAreDistinct(a: word, m: nat, n: nat)
    requires m < n < WORD
    ensures State(a, m) != State(a, n)
  {
    hide State;
    StateRuns(a, m, n - m);
    Period(State(a, m), n - m);
  }

  lemma {:induction false} StateRuns(a: word, m: nat, n: nat)
    ensures State(State(a, m), n) == State(a, m + n)
  {
    if n > 0 { StateRuns(a, m, n - 1); }
  }

  lemma Solves(gap: nat, n: nat, q: nat, increment: nat, inverse: nat, quotient: nat, modulus: nat)
    requires gap * inverse == modulus * q + n
    requires inverse * increment == 1 + modulus * quotient
    ensures n * increment == gap + modulus * (gap * quotient - q * increment)
  {
    calc {
      n * increment;
      (gap * inverse - modulus * q) * increment;
      (gap * inverse) * increment - (modulus * q) * increment;
      gap * (inverse * increment) - modulus * (q * increment);
      gap * (1 + modulus * quotient) - modulus * (q * increment);
      gap + gap * (modulus * quotient) - modulus * (q * increment);
      gap + modulus * (gap * quotient) - modulus * (q * increment);
      gap + modulus * (gap * quotient - q * increment);
    }
  }

  /** From every state every other is reached, within one period. */
  lemma EveryStateIsReached(a: word, b: word) returns (n: nat)
    ensures n < WORD && State(a, n) == b
  {
    var gap: nat := if b >= a then b - a else b - a + WORD;
    var product := gap * INVERSE;
    n := product % WORD;
    var q := product / WORD;
    assert product == WORD * q + n;
    StateIsLinear(a, n);
    Solves(gap, n, q, INCREMENT, INVERSE, QUOTIENT, WORD);
    Wraps(a, n * INCREMENT, b, gap * QUOTIENT - q * INCREMENT);
  }

  lemma Wraps(a: word, step: nat, b: word, turns: int)
    requires step == (if b >= a then b - a else b - a + WORD) + WORD * turns
    ensures (a + step) % WORD == b
  {
    ModUnique(a + step, if b >= a then turns else turns + 1, b);
  }

  // ---------------------------------------------------------------------------------------------
  // The draws
  // ---------------------------------------------------------------------------------------------

  /** `Math.imul`, read as an unsigned word. */
  function Imul(a: word, b: word): word {
    (a * b) % WORD
  }

  /** `1 | a` and `61 | t`. */
  function OrOne(a: word): word {
    if a % 2 == 1 then a else a + 1
  }

  function OrSixtyOne(t: word): (r: word)
    ensures r / 64 == t / 64 && r % 2 == 1 && (r % 64 == 61 || r % 64 == 63) && (r / 2) % 2 == (t / 2) % 2
  {
    t - t % 64 + if (t / 2) % 2 == 1 then 63 else 61
  }

  function XorWord(a: word, b: word): word {
    Pow2OfWord();
    XorBelow(a, b, 32);
    Xor(a, b)
  }

  /** What one draw makes of the state. */
  function Output(a: word): word {
    var t := Imul(XorWord(a, a / 0x8000), OrOne(a));
    var u := XorWord((t + Imul(XorWord(t, t / 0x80), OrSixtyOne(t))) % WORD, t);
    XorWord(u, u / 0x4000)
  }

  /** `x / 4294967296` */
  function Fraction(x: word): (u: real)
    ensures 0.0 <= u < 1.0
  {
    x as real / 4294967296.0
  }

  /** The `n`th draw after state `a`, a real in [0, 1). */
  function Draw(a: word, n: nat): (u: real)
    ensures 0.0 <= u < 1.0
  {
    Fraction(Output(State(a, n + 1)))
  }

  function Range(u: real, min: real, max: real): real {
    min + u * (max - min)
  }

  function Int(u: real, min: int, max: int): int {
    Range(u, min as real, max as real + 1.0).Floor
  }

  predicate Chance(u: real, p: real) {
    u < p
  }

  lemma Scaled(u: real, width: real)
    requires 0.0 <= u < 1.0 && width >= 0.0
    ensures 0.0 <= u * width <= width
    ensures width > 0.0 ==> u * width < width
  {
    assert (1.0 - u) * width == width - u * width;
  }

  /** A draw scaled to a range stays in it, below its top unless the range is one point. */
  lemma RangeBounds(u: real, min: real, max: real)
    requires 0.0 <= u < 1.0 && min <= max
    ensures min <= Range(u, min, max) <= max
    ensures min < max ==> Range(u, min, max) < max
  {
    hide Range;
    var width := max - min;
    RangeIs(u, min, width, max);
    Scaled(u, width);
  }

  lemma RangeIs(u: real, min: real, width: real, max: real)
    requires max == min + width
    ensures Range(u, min, max) == min + u * width
  {
    assert max - min == width;
  }

  /** `int` reaches both ends of its range and nothing outside. */
  lemma IntBounds(u: real, min: int, max: int)
    requires 0.0 <= u < 1.0 && min <= max
    ensures min <= Int(u, min, max) <= max
  {
    RangeBounds(u, min as real, max as real + 1.0);
  }

  /** Each value of the range is drawn on an interval of the same length. */
  lemma IntIsEven(u: real, min: int, max: int, k: int)
    requires 0.0 <= u < 1.0 && min <= k <= max
    ensures var n := (max - min + 1) as real;
      Int(u, min, max) == k <==> (k - min) as real / n <= u < (k - min + 1) as real / n
  {
    var n := (max - min + 1) as real;
    var x := u * n;
    assert Range(u, min as real, max as real + 1.0) == min as real + x;
    DividedBelow(u, (k - min) as real, n);
    DividedBelow(u, (k - min + 1) as real, n);
  }

  lemma DividedBelow(u: real, x: real, n: real)
    requires n > 0.0
    ensures x / n <= u <==> x <= u * n
  {
    var y := x / n;
    assert y * n == x;
    if y <= u {
      assert (u - y) * n >= 0.0;
    } else {
      assert (y - u) * n > 0.0;
    }
  }

  /** `jitter`: the mean of three draws, moved to [-1, 1]. */
  function Jitter(u: real, v: real, w: real): (j: real)
    requires 0.0 <= u < 1.0 && 0.0 <= v < 1.0 && 0.0 <= w < 1.0
    ensures -1.0 <= j < 1.0
  {
    (u + v + w) / 1.5 - 1.0
  }

  /** It is as often as far on one side of zero as on the other, and reaches the lower end. */
  lemma JitterIsCentred(u: real, v: real, w: real)
    requires 0.0 < u < 1.0 && 0.0 < v < 1.0 && 0.0 < w < 1.0
    ensures Jitter(1.0 - u, 1.0 - v, 1.0 - w) == -Jitter(u, v, w)
    ensures Jitter(0.0, 0.0, 0.0) == -1.0
  {
  }

  // ---------------------------------------------------------------------------------------------
  // The shuffle
  // ---------------------------------------------------------------------------------------------

  function Swapped<T>(s: seq<T>, i: nat, j: nat): seq<T>
    requires i < |s| && j < |s|
  {
    s[i := s[j]][j := s[i]]
  }

  /** The exchanges from position `i` down, with the position drawn for each. */
  function Shuffled<T>(s: seq<T>, picks: seq<nat>, i: nat): seq<T>
    requires i < |s| && |picks| == |s|
    requires forall k :: 0 <= k < |picks| ==> picks[k] <= k
    decreases i
  {
    if i == 0 then s else Shuffled(Swapped(s, i, picks[i]), picks, i - 1)
  }

  lemma SwapKeeps<T>(s: seq<T>, i: nat, j: nat)
    requires i < |s| && j < |s|
    ensures multiset(Swapped(s, i, j)) == multiset(s)
  {
  }

  /** Whatever is drawn, the result is a permutation. */
  lemma {:induction false} ShuffleKeeps<T>(s: seq<T>, picks: seq<nat>, i: nat)
    requires i < |s| && |picks| == |s|
    requires forall k :: 0 <= k < |picks| ==> picks[k] <= k
    ensures |Shuffled(s, picks, i)| == |s| && multiset(Shuffled(s, picks, i)) == multiset(s)
    ensures forall k :: i < k < |s| ==> Shuffled(s, picks, i)[k] == s[k]
    decreases i
  {
    if i > 0 {
      SwapKeeps(s, i, picks[i]);
      ShuffleKeeps(Swapped(s, i, picks[i]), picks, i - 1);
    }
  }

  lemma PicksBelow<T>(s: seq<T>, picks: seq<nat>, others: seq<nat>, i: nat)
    requires i < |s| && |picks| == |s| && |others| == |s|
    requires forall k :: 0 <= k < |picks| ==> picks[k] <= k && others[k] <= k
    requires forall k :: 0 <= k <= i ==> picks[k] == others[k]
    ensures Shuffled(s, picks, i) == Shuffled(s, others, i)
    decreases i
  {
    if i > 0 { PicksBelow(Swapped(s, i, picks[i]), picks, others, i - 1); }
  }

  /** For every permutation there are positions that give it. */
  lemma {:induction false} EveryOrderHasPicks<T>(s: seq<T>, t: seq<T>, i: nat) returns (picks: seq<nat>)
    requires i < |s| && multiset(s) == multiset(t) && |t| == |s|
    requires forall k :: i < k < |s| ==> s[k] == t[k]
    ensures |picks| == |s| && forall k :: 0 <= k < |picks| ==> picks[k] <= k
    ensures Shuffled(s, picks, i) == t
    decreases i
  {
    if i == 0 {
      picks := seq(|s|, _ => 0);
      LastAgrees(s, t);
    } else {
      var j := FindIn(s, t, i);
      SwapKeeps(s, i, j);
      var rest := EveryOrderHasPicks(Swapped(s, i, j), t, i - 1);
      picks := rest[i := j];
      PicksBelow(Swapped(s, i, j), rest, picks, i - 1);
    }
  }

  lemma SplitAt<T>(s: seq<T>, i: nat)
    requires i <= |s|
    ensures multiset(s) == multiset(s[..i]) + multiset(s[i..])
  {
    assert s == s[..i] + s[i..];
  }

  /** Two rearrangements that agree after a position hold the same elements up to it. */
  lemma SameFront<T>(s: seq<T>, t: seq<T>, i: nat)
    requires i < |s| == |t| && multiset(s) == multiset(t)
    requires forall k :: i < k < |s| ==> s[k] == t[k]
    ensures multiset(s[..i + 1]) == multiset(t[..i + 1])
  {
    SplitAt(s, i + 1);
    SplitAt(t, i + 1);
    assert s[i + 1..] == t[i + 1..];
    Cancel(multiset(s[..i + 1]), multiset(t[..i + 1]), multiset(s[i + 1..]));
  }

  lemma Cancel<T>(a: multiset<T>, b: multiset<T>, c: multiset<T>)
    requires a + c == b + c
    ensures a == b
  {
    assert forall x :: a[x] == (a + c)[x] - c[x];
    assert forall x :: b[x] == (b + c)[x] - c[x];
  }

  lemma Singletons<T>(x: T, y: T)
    requires multiset([x]) == multiset([y])
    ensures x == y
  {
    assert x in multiset([x]);
  }

  lemma LastAgrees<T>(s: seq<T>, t: seq<T>)
    requires 0 < |s| == |t| && multiset(s) == multiset(t)
    requires forall k :: 0 < k < |s| ==> s[k] == t[k]
    ensures s == t
  {
    SameFront(s, t, 0);
    assert s[..0 + 1] == [s[0]] && t[..0 + 1] == [t[0]];
    Singletons(s[0], t[0]);
    assert forall k :: 0 <= k < |s| ==> s[k] == t[k];
  }

  lemma FindIn<T>(s: seq<T>, t: seq<T>, i: nat) returns (j: nat)
    requires i < |s| == |t| && multiset(s) == multiset(t)
    requires forall k :: i < k < |s| ==> s[k] == t[k]
    ensures j <= i && s[j] == t[i]
  {
    SameFront(s, t, i);
    assert t[..i + 1][i] == t[i];
    assert t[i] in multiset(t[..i + 1]);
    assert t[i] in s[..i + 1];
    j :| 0 <= j < i + 1 && s[..i + 1][j] == t[i];
  }

  // ---------------------------------------------------------------------------------------------
  // The generator
  // ---------------------------------------------------------------------------------------------

  lemma FloorBelow(x: real, k: nat)
    requires 0.0 <= x < k as real
    ensures 0 <= x.Floor < k
  {
  }

  /** `Math.floor(u * k)` */
  function Below(u: real, k: nat): (j: nat)
    requires 0.0 <= u < 1.0 && k > 0
    ensures j < k
  {
    Scaled(u, k as real);
    FloorBelow(u * k as real, k);
    (u * k as real).Floor
  }

  /** The position drawn for index `i` of a shuffle of `n` elements started in state `a`. */
  function Pick(a: word, n: nat, i: nat): (j: nat)
    requires i < n
    ensures j <= i
  {
    Below(Draw(a, n - 1 - i), i + 1)
  }

  function Picks(a: word, n: nat): (picks: seq<nat>)
    ensures |picks| == n && forall k :: 0 <= k < n ==> picks[k] <= k
  {
    seq(n, i requires 0 <= i < n => Pick(a, n, i))
  }

  predicate AllDraws(us: seq<real>) {
    forall i :: 0 <= i < |us| ==> 0.0 <= us[i] < 1.0
  }

  /** The positions that draws give, the draw for position `i` standing at `i`. */
  function PicksOf(us: seq<real>): (picks: seq<nat>)
    requires AllDraws(us)
    ensures |picks| == |us| && forall k :: 0 <= k < |us| ==> picks[k] <= k
  {
    seq(|us|, i requires 0 <= i < |us| => Below(us[i], i + 1))
  }

  /** The middle of the interval of draws that give position `j` of `k`. */
  function DrawFor(j: nat, k: nat): real
    requires j < k
  {
    (j as real + 0.5) / k as real
  }

  /** Every position can be drawn. */
  lemma DrawForGives(j: nat, k: nat)
    requires j < k
    ensures 0.0 <= DrawFor(j, k) < 1.0 && Below(DrawFor(j, k), k) == j
  {
    QuotientOf(j as real + 0.5, k as real);
  }

  lemma QuotientOf(x: real, n: real)
    requires 0.0 <= x < n
    ensures 0.0 <= x / n < 1.0 && x / n * n == x
  {
    var u := x / n;
    assert u * n == x;
    SignOf(u, n);
    SignOf(u - 1.0, n);
    assert (u - 1.0) * n == x - n;
  }

  lemma SignOf(u: real, n: real)
    requires n > 0.0
    ensures u * n >= 0.0 <==> u >= 0.0
  {
    if u < 0.0 {
      assert (-u) * n > 0.0;
    }
  }

  /** With arbitrary draws of [0, 1) every permutation comes about.  (The generator's own draws come from
      2^32 states, so for thirteen or more different items it cannot give them all.) */
  lemma EveryOrderCanBeDrawn<T>(s: seq<T>, t: seq<T>) returns (us: seq<real>)
    requires s != [] && |t| == |s| && multiset(s) == multiset(t)
    ensures |us| == |s| && AllDraws(us) && Shuffled(s, PicksOf(us), |s| - 1) == t
  {
    var picks := EveryOrderHasPicks(s, t, |s| - 1);
    us := seq(|s|, i requires 0 <= i < |s| => DrawFor(picks[i], i + 1));
    forall i | 0 <= i < |s| ensures 0.0 <= us[i] < 1.0 && Below(us[i], i + 1) == picks[i] {
      DrawForGives(picks[i], i + 1);
    }
    assert PicksOf(us) == picks;
  }

  class Rng {
    var a: word

    constructor (seed: word)
      ensures a == seed
    {
      a := seed;
    }

    method Next() returns (u: real)
      modifies this
      ensures u == Draw(old(a), 0) && a == State(old(a), 1)
    {
      hide Output;
      a := Advance(a);
      u := Fraction(Output(a));
      assert State(old(a), 1) == Advance(State(old(a), 0));
    }

    /** `shuffle`: a copy, exchanged in place from the end, with one draw an element but the last. */
    method Shuffle<T>(items: seq<T>) returns (result: seq<T>)
      modifies this
      ensures result == if items == [] then [] else Shuffled(items, Picks(old(a), |items|), |items| - 1)
      ensures multiset(result) == multiset(items)
      ensures a == State(old(a), if items == [] then 0 else |items| - 1)
    {
      hide Draw, State, Advance, Pick, Picks, Shuffled;
      StateZero(a);
      if items == [] {
        return [];
      }
      var n := |items|;
      ghost var picks := Picks(a, n);
      var out := new T[n](k requires 0 <= k < n => items[k]);
      assert out[..] == items;
      var i := n - 1;
      while i > 0
        invariant 0 <= i < n
        invariant Shuffled(out[..], picks, i) == Shuffled(items, picks, n - 1)
        invariant a == State(old(a), n - 1 - i)
      {
        DrawMoves(old(a), n - 1 - i);
        var u := Next();
        var j := Below(u, i + 1);
        PickIs(old(a), n, i);
        ghost var before := out[..];
        out[i], out[j] := out[j], out[i];
        assert out[..] == Swapped(before, i, j);
        ShuffleStep(before, picks, i);
        i := i - 1;
      }
      result := out[..];
      ShuffleStep(result, picks, 0);
      ShuffleKeeps(items, picks, n - 1);
    }
  }

  lemma ShuffleStep<T>(s: seq<T>, picks: seq<nat>, i: nat)
    requires i < |s| && |picks| == |s|
    requires forall k :: 0 <= k < |picks| ==> picks[k] <= k
    ensures Shuffled(s, picks, i) == if i == 0 then s else Shuffled(Swapped(s, i, picks[i]), picks, i - 1)
  {
  }

  lemma PickIs(a: word, n: nat, i: nat)
    requires i < n
    ensures Picks(a, n)[i] == Below(Draw(a, n - 1 - i), i + 1)
  {
  }

  lemma DrawMoves(a: word, n: nat)
    ensures Draw(State(a, n), 0) == Draw(a, n)
    ensures State(State(a, n), 1) == State(a, n + 1)
  {
    hide Output;
    StateRuns(a, n, 1);
  }
}
