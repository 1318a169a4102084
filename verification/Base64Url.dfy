/** base64url without padding (RFC 4648, section 5), as Node writes and reads it. */
module Base64Url {
  import opened Bytes

  type sextet = v: nat | v < 64

  function CharOf(v: sextet): char {
    if v < 26 then (v + 'A' as int) as char
    else if v < 52 then (v - 26 + 'a' as int) as char
    else if v < 62 then (v - 52 + '0' as int) as char
    else if v == 62 then '-' else '_'
  }

  predicate InAlphabet(c: char) {
    'A' <= c <= 'Z' || 'a' <= c <= 'z' || '0' <= c <= '9' || c == '-' || c == '_'
  }

  /** The reader takes either alphabet of RFC 4648 and skips what is in neither. */
  predicate IsRead(c: char) {
    InAlphabet(c) || c == '+' || c == '/'
  }

  function ValueOf(c: char): sextet
    requires IsRead(c)
  {
    if 'A' <= c <= 'Z' then c as int - 'A' as int
    else if 'a' <= c <= 'z' then c as int - 'a' as int + 26
    else if '0' <= c <= '9' then c as int - '0' as int + 52
    else if c == '-' || c == '+' then 62 else 63
  }

  /** The sextets of a group of one to three bytes. */
  function Split(b: Bytes): seq<sextet>
    requires 1 <= |b| <= 3
  {
    if |b| == 1 then [b[0] / 4, b[0] % 4 * 16]
    else if |b| == 2 then [b[0] / 4, b[0] % 4 * 16 + b[1] / 16, b[1] % 16 * 4]
    else [b[0] / 4, b[0] % 4 * 16 + b[1] / 16, b[1] % 16 * 4 + b[2] / 64, b[2] % 64]
  }

  function Sextets(b: Bytes): seq<sextet> {
    if b == [] then [] else if |b| <= 3 then Split(b) else Split(b[..3]) + Sextets(b[3..])
  }

  function Chars(vs: seq<sextet>): string {
    if vs == [] then "" else [CharOf(vs[0])] + Chars(vs[1..])
  }

  function Encode(b: Bytes): string {
    Chars(Sextets(b))
  }

  function Read(s: string): seq<sextet> {
    if s == "" then [] else (if IsRead(s[0]) then [ValueOf(s[0])] else []) + Read(s[1..])
  }

  function FirstByte(v: nat, w: nat): byte
    requires v < 64 && w < 64
  {
    v * 4 + w / 16
  }

  function SecondByte(v: nat, w: nat): byte
    requires v < 64 && w < 64
  {
    v % 16 * 16 + w / 4
  }

  function ThirdByte(v: nat, w: nat): byte
    requires v < 64 && w < 64
  {
    v % 4 * 64 + w
  }

  /** The bytes of a group of up to four sextets; bits left over are dropped. */
  function Join(vs: seq<sextet>): Bytes
    requires |vs| <= 4
  {
    if |vs| < 2 then []
    else if |vs| == 2 then [FirstByte(vs[0], vs[1])]
    else if |vs| == 3 then [FirstByte(vs[0], vs[1]), SecondByte(vs[1], vs[2])]
    else [FirstByte(vs[0], vs[1]), SecondByte(vs[1], vs[2]), ThirdByte(vs[2], vs[3])]
  }

  function Unsextets(vs: seq<sextet>): Bytes {
    if |vs| <= 4 then Join(vs) else Join(vs[..4]) + Unsextets(vs[4..])
  }

  function Decode(s: string): Bytes {
    Unsextets(Read(s))
  }

  lemma CharIsRead(v: sextet)
    ensures InAlphabet(CharOf(v)) && IsRead(CharOf(v)) && ValueOf(CharOf(v)) == v
  {
  }

  predicate Written(s: string) {
    forall i :: 0 <= i < |s| ==> InAlphabet(s[i])
  }

  lemma ReadOne(v: sextet, rest: string)
    ensures Read([CharOf(v)] + rest) == [v] + Read(rest)
    ensures Written(rest) ==> Written([CharOf(v)] + rest)
  {
    hide CharOf, ValueOf, InAlphabet;
    CharIsRead(v);
    assert ([CharOf(v)] + rest)[1..] == rest;
  }

  lemma {:induction false} CharsAreRead(vs: seq<sextet>)
    ensures Read(Chars(vs)) == vs && |Chars(vs)| == |vs| && Written(Chars(vs))
  {
    hide CharOf, Read, Written;
    if vs == [] {
      NothingRead();
    } else {
      CharsAreRead(vs[1..]);
      ReadOne(vs[0], Chars(vs[1..]));
    }
  }

  lemma NothingRead()
    ensures Read("") == [] && Written("")
  {
  }

  lemma FirstComesBack(x: byte, y: nat)
    requires y < 16
    ensures FirstByte(x / 4, x % 4 * 16 + y) == x
  {
    assert (x % 4 * 16 + y) / 16 == x % 4;
  }

  lemma SecondComesBack(x: nat, y: byte, z: nat)
    requires x < 4 && z < 4
    ensures SecondByte(x * 16 + y / 16, y % 16 * 4 + z) == y
  {
    assert (x * 16 + y / 16) % 16 == y / 16;
    assert (y % 16 * 4 + z) / 4 == y % 16;
  }

  lemma ThirdComesBack(x: nat, y: byte)
    requires x < 16
    ensures ThirdByte(x * 4 + y / 64, y % 64) == y
  {
    assert (x * 4 + y / 64) % 4 == y / 64;
  }

  lemma GroupJoins(b: Bytes)
    requires 1 <= |b| <= 3
    ensures |Split(b)| == |b| + 1 && Join(Split(b)) == b
  {
    hide FirstByte, SecondByte, ThirdByte;
    if |b| == 1 {
      FirstComesBack(b[0], 0);
    } else if |b| == 2 {
      FirstComesBack(b[0], b[1] / 16);
      SecondComesBack(b[0] % 4, b[1], 0);
    } else {
      FirstComesBack(b[0], b[1] / 16);
      SecondComesBack(b[0] % 4, b[1], b[2] / 64);
      ThirdComesBack(b[1] % 16, b[2]);
    }
  }

  lemma {:induction false} SextetsJoin(b: Bytes)
    ensures Unsextets(Sextets(b)) == b
    ensures |Sextets(b)| == (4 * |b| + 2) / 3
  {
    hide Split, Join;
    if b == [] {
      assert Join([]) == [] by { NoGroup(); }
    } else if |b| <= 3 {
      GroupJoins(b);
    } else {
      GroupJoins(b[..3]);
      SextetsJoin(b[3..]);
      var vs := Sextets(b);
      assert vs[..4] == Split(b[..3]) && vs[4..] == Sextets(b[3..]);
      assert b == b[..3] + b[3..];
    }
  }

  lemma NoGroup()
    ensures Join([]) == []
  {
  }

  /** Decoding undoes encoding; what is written is all in the alphabet, four characters for three
      bytes. */
  lemma DecodeUndoesEncode(b: Bytes)
    ensures Decode(Encode(b)) == b
    ensures Written(Encode(b))
    ensures |Encode(b)| == (4 * |b| + 2) / 3
  {
    hide Sextets, Unsextets, Chars, Read, Written;
    SextetsJoin(b);
    CharsAreRead(Sextets(b));
  }
}
