/** The CRC-32 that every ZIP member carries (scripts/fixtures/office.ts).

    The reference is bit-serial, as the definition behind section 8 of RFC 1952: a shift register
    takes in single message bits, least significant first.  The program takes in whole bytes through
    a table.  What a CRC is for is proved of the reference, and the program is proved to compute the
    reference. */
module Crc32 {
  import opened Bytes

  const POLYNOMIAL: word := 0xedb88320
  const ONES: word := 0xffff_ffff

  /** One turn of the register on a zero message bit. */
  function Turn(c: nat): nat {
    if c % 2 == 1 then Xor(POLYNOMIAL, c / 2) else c / 2
  }

  function Turns(c: nat, n: nat): nat
    decreases n, c
  {
    if n == 0 then c else Turns(Turn(c), n - 1)
  }

  /** The register takes in one message bit: the feedback is that bit against the low bit. */
  function FeedBit(c: nat, bit: bool): nat {
    if (c % 2 == 1) != bit then Xor(POLYNOMIAL, c / 2) else c / 2
  }

  /** Takes in the low `n` bits of `b`, least significant first. */
  function FeedBits(c: nat, b: nat, n: nat): nat
    decreases n, c, b
  {
    if n == 0 then c else FeedBits(FeedBit(c, b % 2 == 1), b / 2, n - 1)
  }

  function Feed(c: nat, message: Bytes): nat
    decreases |message|
  {
    if message == [] then c else Feed(FeedBits(c, message[0], BYTE_BITS), message[1..])
  }

  /** The check value of a message: the register preset to ones, and complemented at the end. */
  function Crc(message: Bytes): word {
    FeedStaysWord(ONES, message);
    XorStaysWord(Feed(ONES, message), ONES);
    Xor(Feed(ONES, message), ONES)
  }

  // ---------------------------------------------------------------------------------------------
  // The register stays a word, is linear, and loses nothing
  // ---------------------------------------------------------------------------------------------

  lemma XorStaysWord(a: nat, b: nat)
    requires a < WORD && b < WORD
    ensures Xor(a, b) < WORD
  {
    Pow2OfWord();
    XorBelow(a, b, 32);
  }

  lemma {:induction false} FeedBitsStaysWord(c: nat, b: nat, n: nat)
    requires c < WORD
    ensures FeedBits(c, b, n) < WORD
    decreases n
  {
    if n > 0 {
      XorStaysWord(POLYNOMIAL, c / 2);
      FeedBitsStaysWord(FeedBit(c, b % 2 == 1), b / 2, n - 1);
    }
  }

  lemma {:induction false} FeedStaysWord(c: nat, message: Bytes)
    requires c < WORD
    ensures Feed(c, message) < WORD
    decreases |message|
  {
    if message != [] {
      FeedBitsStaysWord(c, message[0], BYTE_BITS);
      FeedStaysWord(FeedBits(c, message[0], BYTE_BITS), message[1..]);
    }
  }

  lemma TurnLinear(x: nat, y: nat)
    ensures Turn(Xor(x, y)) == Xor(Turn(x), Turn(y))
  {
    XorStep(x, y);
    var a, b := x / 2, y / 2;
    XorAssociates(POLYNOMIAL, a, b);
    if y % 2 == 1 {
      XorCommutes(a, Xor(POLYNOMIAL, b));
      XorAssociates(POLYNOMIAL, b, a);
      XorCommutes(b, a);
      XorAssociates(POLYNOMIAL, a, Xor(POLYNOMIAL, b));
      XorCancels(POLYNOMIAL, Xor(a, b));
    }
  }

  lemma {:induction false} TurnsLinear(x: nat, y: nat, n: nat)
    ensures Turns(Xor(x, y), n) == Xor(Turns(x, n), Turns(y, n))
    decreases n
  {
    if n > 0 {
      TurnLinear(x, y);
      TurnsLinear(Turn(x), Turn(y), n - 1);
    }
  }

  /** The polynomial's top bit betrays the feedback, so a turn can be undone. */
  lemma TurnInjective(x: nat, y: nat)
    requires x < WORD && y < WORD && Turn(x) == Turn(y)
    ensures x == y
  {
    Pow2OfWord();
    XorKeepsTop(POLYNOMIAL, x / 2, 31);
    XorKeepsTop(POLYNOMIAL, y / 2, 31);
    XorCancels(POLYNOMIAL, x / 2);
    XorCancels(POLYNOMIAL, y / 2);
  }

  lemma {:induction false} TurnsInjective(x: nat, y: nat, n: nat)
    requires x < WORD && y < WORD && Turns(x, n) == Turns(y, n)
    ensures x == y
    decreases n
  {
    if n > 0 {
      XorStaysWord(POLYNOMIAL, x / 2);
      XorStaysWord(POLYNOMIAL, y / 2);
      TurnsInjective(Turn(x), Turn(y), n - 1);
      TurnInjective(x, y);
    }
  }

  lemma {:induction false} TurnsAdd(c: nat, m: nat, n: nat)
    ensures Turns(Turns(c, m), n) == Turns(c, m + n)
    decreases m
  {
    if m > 0 {
      TurnsAdd(Turn(c), m - 1, n);
    }
  }

  // ---------------------------------------------------------------------------------------------
  // Bytes at once
  // ---------------------------------------------------------------------------------------------

  /** Message bits at once: fold them into the register, then turn it. */
  lemma {:induction false} BitsAtOnce(c: nat, b: nat, n: nat)
    ensures Xor(FeedBits(c, b, n), Halved(b, n)) == Turns(Xor(c, b), n)
    decreases n
  {
    if n > 0 {
      XorStep(c, b);
      XorAssociates(POLYNOMIAL, c / 2, b / 2);
      BitsAtOnce(FeedBit(c, b % 2 == 1), b / 2, n - 1);
    }
  }

  lemma ByteAtOnce(c: nat, b: byte)
    ensures FeedBits(c, b, BYTE_BITS) == Turns(Xor(c, b), BYTE_BITS)
  {
    ByteShifts(b);
    BitsAtOnce(c, b, BYTE_BITS);
    XorCommutes(FeedBits(c, b, BYTE_BITS), 0);
  }

  /** A register whose low bits are empty just moves down. */
  lemma {:induction false} EmptyBitsMoveDown(high: nat, n: nat)
    ensures Turns(Doubled(high, n), n) == high
    decreases n
  {
    if n > 0 {
      assert Turn(Doubled(high, n)) == Doubled(high, n - 1);
      EmptyBitsMoveDown(high, n - 1);
    }
  }

  lemma EmptyByteMovesDown(high: nat)
    ensures Turns(256 * high, BYTE_BITS) == high
  {
    ByteShifts(high);
    EmptyBitsMoveDown(high, BYTE_BITS);
  }

  /** What the table is for: eight turns need only the low byte's eight turns. */
  lemma TableStep(c: nat, b: byte)
    ensures FeedBits(c, b, BYTE_BITS) == Xor(Turns(Xor(c, b) % 256, BYTE_BITS), c / 256)
  {
    hide Turns, Xor, FeedBits, Doubled, Halved;
    var x := Xor(c, b);
    ByteAtOnce(c, b);
    XorByte(x, 0);
    XorByte(c, b);
    TurnsLinear(x % 256, 256 * (x / 256), BYTE_BITS);
    EmptyByteMovesDown(x / 256);
  }

  // ---------------------------------------------------------------------------------------------
  // The program
  // ---------------------------------------------------------------------------------------------

  ghost predicate IsTable(table: array<word>)
    reads table
  {
    table.Length == 256 && forall n: nat :: n < 256 ==> table[n] == Turns(n, BYTE_BITS)
  }

  method MakeTableEntry(n: byte) returns (c: word)
    ensures c == Turns(n, BYTE_BITS)
  {
    c := n;
    for k := 0 to BYTE_BITS
      invariant Turns(c, BYTE_BITS - k) == Turns(n, BYTE_BITS)
    {
      XorStaysWord(POLYNOMIAL, c / 2);
      c := if c % 2 != 0 then Xor(POLYNOMIAL, c / 2) else c / 2;
    }
  }

  method MakeTable() returns (table: array<word>)
    ensures fresh(table) && IsTable(table)
  {
    table := new word[256](_ => 0);
    for n := 0 to 256
      invariant forall i: nat :: i < n ==> table[i] == Turns(i, BYTE_BITS)
    {
      var entry := MakeTableEntry(n);
      table[n] := entry;
    }
  }

  /** The table-driven loop computes the bit-serial check value. */
  method Compute(table: array<word>, bytes: Bytes) returns (crc: word)
    requires IsTable(table)
    ensures crc == Crc(bytes)
  {
    var c: word := ONES;
    for i := 0 to |bytes|
      invariant Feed(c, bytes[i..]) == Feed(ONES, bytes)
    {
      var b := bytes[i];
      TableStep(c, b);
      FeedBitsStaysWord(c, b, BYTE_BITS);
      FeedFirst(c, bytes[i..]);
      c := Xor(table[Xor(c, b) % 256], c / 256);
      assert bytes[i..][1..] == bytes[i + 1..];
    }
    XorStaysWord(c, ONES);
    crc := Xor(c, ONES);
  }

  lemma FeedFirst(c: nat, message: Bytes)
    requires message != []
    ensures Feed(c, message) == Feed(FeedBits(c, message[0], BYTE_BITS), message[1..])
  {
  }

  // ---------------------------------------------------------------------------------------------
  // What the check value detects
  // ---------------------------------------------------------------------------------------------

  lemma {:induction false} FeedAppend(c: nat, a: Bytes, b: Bytes)
    ensures Feed(c, a + b) == Feed(Feed(c, a), b)
    decreases |a|
  {
    if a == [] {
      assert a + b == b;
    } else {
      assert (a + b)[1..] == a[1..] + b;
      FeedAppend(FeedBits(c, a[0], BYTE_BITS), a[1..], b);
    }
  }

  /** Each byte step, and so each run of them, is injective on registers. */
  lemma {:induction false} FeedInjective(x: nat, y: nat, message: Bytes)
    requires x < WORD && y < WORD && Feed(x, message) == Feed(y, message)
    ensures x == y
    decreases |message|
  {
    if message != [] {
      var b := message[0];
      FeedBitsStaysWord(x, b, BYTE_BITS);
      FeedBitsStaysWord(y, b, BYTE_BITS);
      FeedInjective(FeedBits(x, b, BYTE_BITS), FeedBits(y, b, BYTE_BITS), message[1..]);
      ByteAtOnce(x, b);
      ByteAtOnce(y, b);
      XorStaysWord(x, b);
      XorStaysWord(y, b);
      TurnsInjective(Xor(x, b), Xor(y, b), BYTE_BITS);
      XorUndo(x, y, b);
    }
  }

  lemma XorUndo(x: nat, y: nat, b: nat)
    requires Xor(x, b) == Xor(y, b)
    ensures x == y
  {
    XorCommutes(x, b);
    XorCommutes(y, b);
    XorCancels(b, x);
    XorCancels(b, y);
  }

  lemma ShortIsWord(a: Bytes)
    requires |a| <= 4
    ensures Number(a, 0, |a|) < WORD
  {
    NumberBelowLimit(a, 0, |a|);
    Limits();
  }

  lemma BurstStep(c: nat, b: byte, rest: nat, turns: nat)
    ensures Turns(Xor(FeedBits(c, b, BYTE_BITS), rest), turns) == Turns(Xor(c, b + 256 * rest), BYTE_BITS + turns)
  {
    hide Turns, Xor, FeedBits;
    var x := Xor(c, b);
    ByteAtOnce(c, b);
    EmptyByteMovesDown(rest);
    TurnsLinear(x, 256 * rest, BYTE_BITS);
    TurnsAdd(Xor(x, 256 * rest), BYTE_BITS, turns);
    XorAssociates(c, b, 256 * rest);
    ByteShifts(rest);
    XorDisjoint(b, rest, BYTE_BITS);
  }

  lemma EmptyBurst(c: nat)
    ensures Turns(Xor(c, 0), 0) == c
  {
    XorCommutes(c, 0);
  }

  /** A whole burst at once: fold its little-endian number into the register, then turn it. */
  lemma {:induction false} BurstAtOnce(c: nat, burst: Bytes, turns: nat)
    requires turns == 8 * |burst|
    ensures Feed(c, burst) == Turns(Xor(c, Number(burst, 0, |burst|)), turns)
    decreases |burst|
  {
    hide FeedBits, Xor, Turns;
    if burst == [] {
      EmptyBurst(c);
    } else {
      var rest := burst[1..];
      FeedFirst(c, burst);
      BurstAtOnce(FeedBits(c, burst[0], BYTE_BITS), rest, turns - 8);
      BurstStep(c, burst[0], Number(rest, 0, |rest|), turns - 8);
      assert burst[1..1 + |rest|] == rest == rest[0..0 + |rest|];
      NumberMoves(burst, 1, rest, 0, |rest|);
    }
  }

  lemma SameCrcSameBurst(before: Bytes, a: Bytes, b: Bytes, after: Bytes)
    requires |a| == |b| <= 4 && Crc(before + a + after) == Crc(before + b + after)
    ensures a == b
  {
    var c := Feed(ONES, before);
    FeedStaysWord(ONES, before);
    FeedThrough(before, a, after);
    FeedThrough(before, b, after);
    FeedStaysWord(c, a);
    FeedStaysWord(c, b);
    XorUndo(Feed(ONES, before + a + after), Feed(ONES, before + b + after), ONES);
    FeedInjective(Feed(c, a), Feed(c, b), after);
    SameRegisterSameBurst(c, a, b);
  }

  lemma FeedThrough(before: Bytes, a: Bytes, after: Bytes)
    ensures Feed(ONES, before + a + after) == Feed(Feed(Feed(ONES, before), a), after)
  {
    FeedAppend(ONES, before + a, after);
    FeedAppend(ONES, before, a);
  }

  lemma SameRegisterSameBurst(c: nat, a: Bytes, b: Bytes)
    requires c < WORD && |a| == |b| <= 4 && Feed(c, a) == Feed(c, b)
    ensures a == b
  {
    var x, y := Number(a, 0, |a|), Number(b, 0, |b|);
    BurstAtOnce(c, a, 8 * |a|);
    BurstAtOnce(c, b, 8 * |a|);
    ShortIsWord(a);
    ShortIsWord(b);
    XorStaysWord(c, x);
    XorStaysWord(c, y);
    TurnsInjective(Xor(c, x), Xor(c, y), 8 * |a|);
    XorCancels(c, x);
    XorCancels(c, y);
    NumberInjective(a, b, 0, |a|);
    assert a[0..|a|] == a && b[0..|a|] == b;
  }

  /** Two messages that differ only inside one window of at most four bytes have different CRCs.
      A single changed byte is the window of length one. */
  lemma BurstsAreDetected(before: Bytes, a: Bytes, b: Bytes, after: Bytes)
    requires |a| == |b| <= 4 && a != b
    ensures Crc(before + a + after) != Crc(before + b + after)
  {
    if Crc(before + a + after) == Crc(before + b + after) {
      SameCrcSameBurst(before, a, b, after);
    }
  }
}
