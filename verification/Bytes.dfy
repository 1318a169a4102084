/** Bytes, 32-bit words and their bitwise operations, on plain numbers.

    JavaScript's `^`, `>>>` and `& mask` are used by the program on unsigned words only, so they are
    exclusive-or, division by a power of two and remainder here. */
module Bytes {

  const WORD: nat := 0x1_0000_0000
  const BYTE_BITS: nat := 8

  type byte = b: nat | b < 256
  type word = w: nat | w < 0x1_0000_0000
  type Bytes = seq<byte>

  function Pow2(n: nat): (p: nat)
    ensures p > 0
  {
    if n == 0 then 1 else 2 * Pow2(n - 1)
  }

  lemma Pow2OfWord()
    ensures Pow2(31) == WORD / 2 && Pow2(32) == WORD
  {
    Pow2Four(0);
    Pow2Four(4);
    Pow2Four(8);
    Pow2Four(12);
    Pow2Four(16);
    Pow2Four(20);
    Pow2Four(24);
    Pow2Four(28);
  }

  lemma Pow2Four(n: nat)
    ensures Pow2(n + 4) == 16 * Pow2(n)
  {
    assert Pow2(n + 4) == 2 * Pow2(n + 3);
    assert Pow2(n + 3) == 2 * Pow2(n + 2);
    assert Pow2(n + 2) == 2 * Pow2(n + 1);
  }

  function XorBit(a: nat, b: nat): nat {
    if a % 2 == b % 2 then 0 else 1
  }

  /** Bitwise exclusive or. */
  function Xor(a: nat, b: nat): nat {
    if a == 0 then b else if b == 0 then a else XorBit(a, b) + 2 * Xor(a / 2, b / 2)
  }

  /** The recursion holds at zero too. */
  lemma XorStep(a: nat, b: nat)
    ensures Xor(a, b) % 2 == XorBit(a, b)
    ensures Xor(a, b) / 2 == Xor(a / 2, b / 2)
  {
  }

  lemma {:induction false} XorCommutes(a: nat, b: nat)
    ensures Xor(a, b) == Xor(b, a)
  {
    if a > 0 && b > 0 {
      XorCommutes(a / 2, b / 2);
    }
  }

  lemma {:induction false} XorAssociates(a: nat, b: nat, c: nat)
    ensures Xor(Xor(a, b), c) == Xor(a, Xor(b, c))
    decreases a + b + c
  {
    XorStep(a, b);
    XorStep(b, c);
    XorStep(Xor(a, b), c);
    XorStep(a, Xor(b, c));
    if a > 0 && b > 0 && c > 0 {
      XorAssociates(a / 2, b / 2, c / 2);
    }
  }

  lemma {:induction false} XorSelf(a: nat)
    ensures Xor(a, a) == 0
  {
    if a > 0 {
      XorSelf(a / 2);
    }
  }

  lemma XorCancels(a: nat, b: nat)
    ensures Xor(a, Xor(a, b)) == b
  {
    XorAssociates(a, a, b);
    XorSelf(a);
  }

  lemma {:induction false} XorBelow(a: nat, b: nat, n: nat)
    requires a < Pow2(n) && b < Pow2(n)
    ensures Xor(a, b) < Pow2(n)
  {
    if a > 0 && b > 0 {
      XorBelow(a / 2, b / 2, n - 1);
    }
  }

  /** A bit above everything in `b` survives. */
  lemma {:induction false} XorKeepsTop(a: nat, b: nat, n: nat)
    requires Pow2(n) <= a && b < Pow2(n)
    ensures Pow2(n) <= Xor(a, b)
  {
    if n > 0 && b > 0 {
      XorKeepsTop(a / 2, b / 2, n - 1);
    }
  }

  /** `a >>> n`. */
  function Halved(a: nat, n: nat): nat
    decreases n
  {
    if n == 0 then a else Halved(a / 2, n - 1)
  }

  /** `a << n`. */
  function Doubled(a: nat, n: nat): nat
    decreases n
  {
    if n == 0 then a else 2 * Doubled(a, n - 1)
  }

  lemma ByteShifts(a: nat)
    ensures Halved(a, BYTE_BITS) == a / 256
    ensures Doubled(a, BYTE_BITS) == 256 * a
  {
    assert Halved(a, 8) == Halved(a / 4, 6) == Halved(a / 16, 4) == Halved(a / 64, 2);
    assert Doubled(a, 8) == 4 * Doubled(a, 6) == 16 * Doubled(a, 4) == 64 * Doubled(a, 2);
  }

  lemma {:induction false} XorHalved(a: nat, b: nat, n: nat)
    ensures Halved(Xor(a, b), n) == Xor(Halved(a, n), Halved(b, n))
    decreases n
  {
    if n > 0 {
      XorStep(a, b);
      XorHalved(a / 2, b / 2, n - 1);
    }
  }

  /** Numbers that share no bit: exclusive or is addition. */
  lemma {:induction false} XorDisjoint(low: nat, high: nat, n: nat)
    requires low < Pow2(n)
    ensures Xor(low, Doubled(high, n)) == low + Doubled(high, n)
    decreases n
  {
    if n > 0 {
      XorDisjoint(low / 2, high, n - 1);
      var h := Doubled(high, n - 1);
      XorStep(low, 2 * h);
      assert (2 * h) / 2 == h && (2 * h) % 2 == 0;
    }
  }

  /** A word splits into its low byte and the rest, and a byte reaches only the low one. */
  lemma XorByte(c: nat, b: byte)
    ensures Xor(c % 256, 256 * (c / 256)) == c
    ensures Xor(c, b) / 256 == c / 256
  {
    ByteShifts(c / 256);
    XorDisjoint(c % 256, c / 256, BYTE_BITS);
    ByteShifts(c);
    ByteShifts(b);
    ByteShifts(Xor(c, b));
    XorHalved(c, b, BYTE_BITS);
  }

  // ---------------------------------------------------------------------------------------------
  // Little-endian numbers
  // ---------------------------------------------------------------------------------------------

  /** The number that `width` bytes stand for, least significant first. */
  function Number(b: Bytes, at: nat, width: nat): nat
    requires at + width <= |b|
    decreases width, at
  {
    if width == 0 then 0 else b[at] + 256 * Number(b, at + 1, width - 1)
  }

  lemma {:induction false} NumberMoves(a: Bytes, i: nat, b: Bytes, j: nat, width: nat)
    requires i + width <= |a| && j + width <= |b| && a[i..i + width] == b[j..j + width]
    ensures Number(a, i, width) == Number(b, j, width)
    decreases width
  {
    if width > 0 {
      var x, y := a[i..i + width], b[j..j + width];
      assert a[i] == x[0] == y[0] == b[j];
      assert a[i + 1..i + width] == x[1..] == y[1..] == b[j + 1..j + width];
      NumberMoves(a, i + 1, b, j + 1, width - 1);
    }
  }

  /** The low `width` bytes of a number. */
  function Le(n: nat, width: nat): (b: Bytes)
    ensures |b| == width
    decreases width, n
  {
    if width == 0 then [] else [n % 256] + Le(n / 256, width - 1)
  }

  /** One more than the largest number of `width` bytes. */
  function Limit(width: nat): nat {
    if width == 0 then 1 else 256 * Limit(width - 1)
  }

  lemma Limits()
    ensures Limit(1) == 0x100 && Limit(2) == 0x1_0000 && Limit(3) == 0x100_0000 && Limit(4) == WORD
  {
    assert Limit(1) == 256 * Limit(0);
    assert Limit(2) == 256 * Limit(1);
    assert Limit(3) == 256 * Limit(2);
  }

  lemma {:induction false} NumberOfLe(n: nat, width: nat)
    requires n < Limit(width)
    ensures Number(Le(n, width), 0, width) == n
    decreases width
  {
    if width > 0 {
      NumberOfLe(n / 256, width - 1);
      assert Le(n, width)[1..1 + (width - 1)] == Le(n / 256, width - 1) == Le(n / 256, width - 1)[0..width - 1];
      NumberMoves(Le(n, width), 1, Le(n / 256, width - 1), 0, width - 1);
    }
  }

  lemma {:induction false} NumberInjective(a: Bytes, b: Bytes, at: nat, width: nat)
    requires at + width <= |a| && at + width <= |b| && Number(a, at, width) == Number(b, at, width)
    ensures a[at..at + width] == b[at..at + width]
    decreases width
  {
    if width > 0 {
      assert a[at] == Number(a, at, width) % 256 == b[at];
      NumberInjective(a, b, at + 1, width - 1);
      assert a[at..at + width] == [a[at]] + a[at + 1..at + width];
      assert b[at..at + width] == [b[at]] + b[at + 1..at + width];
    }
  }

  lemma {:induction false} NumberBelowLimit(a: Bytes, at: nat, width: nat)
    requires at + width <= |a|
    ensures Number(a, at, width) < Limit(width)
    decreases width
  {
    if width > 0 {
      NumberBelowLimit(a, at + 1, width - 1);
    }
  }
}
