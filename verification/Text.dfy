/** Text operations the writers and readers share. */
module Text {

  lemma Associates<T>(a: seq<T>, b: seq<T>, c: seq<T>)
    ensures a + b + c == a + (b + c)
  {
  }

  predicate IsDigit(c: char) {
    '0' <= c <= '9'
  }

  predicate AllDigits(s: string) {
    forall i :: 0 <= i < |s| ==> IsDigit(s[i])
  }

  predicate IsHexDigit(c: char) {
    IsDigit(c) || 'a' <= c <= 'f' || 'A' <= c <= 'F'
  }

  function HexValue(c: char): (d: nat)
    requires IsHexDigit(c)
    ensures d < 16
  {
    if IsDigit(c) then c as int - '0' as int
    else if 'a' <= c <= 'f' then c as int - 'a' as int + 10
    else c as int - 'A' as int + 10
  }

  /** What `trim` removes. */
  predicate IsSpace(c: char) {
    || '\U{9}' <= c <= '\U{d}' || c == ' ' || c == '\U{a0}' || c == '\U{1680}' || '\U{2000}' <= c <= '\U{200a}'
    || c == '\U{2028}' || c == '\U{2029}' || c == '\U{202f}' || c == '\U{205f}' || c == '\U{3000}' || c == '\U{feff}'
  }

  function DigitChar(d: nat): (c: char)
    requires d < 10
    ensures IsDigit(c) && (c as int) == d + '0' as int
  {
    (d + '0' as int) as char
  }

  /** `String(n)`. */
  function Decimal(n: nat): (s: string)
    ensures |s| > 0 && AllDigits(s)
  {
    if n < 10 then [DigitChar(n)] else Decimal(n / 10) + [DigitChar(n % 10)]
  }

  /** `Number.parseInt(s, 10)` on digits. */
  function ParseDecimal(s: string): nat
    requires AllDigits(s)
  {
    if s == "" then 0 else 10 * ParseDecimal(s[..|s| - 1]) + (s[|s| - 1] as int - '0' as int)
  }

  lemma {:induction false} DecimalParses(n: nat)
    ensures ParseDecimal(Decimal(n)) == n
  {
    if n < 10 {
      assert Decimal(n)[..0] == "";
    } else {
      assert Decimal(n)[..|Decimal(n)| - 1] == Decimal(n / 10);
      DecimalParses(n / 10);
    }
  }

  function Pow10(k: nat): nat {
    if k == 0 then 1 else 10 * Pow10(k - 1)
  }

  lemma {:induction false} DecimalWidth(n: nat, k: nat)
    requires k >= 1
    ensures |Decimal(n)| <= k <==> n < Pow10(k)
  {
    if n >= 10 && k > 1 {
      DecimalWidth(n / 10, k - 1);
    } else if k > 1 {
      PowGrows(k - 1);
    }
  }

  lemma {:induction false} PowGrows(k: nat)
    ensures Pow10(k) >= 1
  {
    if k > 0 { PowGrows(k - 1); }
  }

  function TrimStart(s: string): string {
    if s != "" && IsSpace(s[0]) then TrimStart(s[1..]) else s
  }

  function TrimEnd(s: string): string {
    if s != "" && IsSpace(s[|s| - 1]) then TrimEnd(s[..|s| - 1]) else s
  }

  /** The longest prefix of characters that satisfy `p`. */
  function Span(s: string, p: char -> bool): (n: nat)
    ensures n <= |s|
    ensures forall i :: 0 <= i < n ==> p(s[i])
    ensures n < |s| ==> !p(s[n])
  {
    if s == "" || !p(s[0]) then 0 else 1 + Span(s[1..], p)
  }

  /** A run of matching characters followed by one that does not match, or by nothing. */
  lemma {:induction false} SpanStops(a: string, b: string, p: char -> bool)
    requires forall i :: 0 <= i < |a| ==> p(a[i])
    requires b == "" || !p(b[0])
    ensures Span(a + b, p) == |a|
    decreases |a|
  {
    if a == "" {
      assert a + b == b;
    } else {
      assert (a + b)[1..] == a[1..] + b;
      SpanStops(a[1..], b, p);
    }
  }

  /** `s.replaceAll(pattern, image)`: leftmost matches, left to right, not looked at again. */
  function ReplaceAll(s: string, pattern: string, image: string): string
    requires pattern != ""
    decreases |s|
  {
    if pattern <= s then image + ReplaceAll(s[|pattern|..], pattern, image)
    else if s == "" then ""
    else [s[0]] + ReplaceAll(s[1..], pattern, image)
  }

  // ---------------------------------------------------------------------------------------------
  // One character a byte
  // ---------------------------------------------------------------------------------------------

  predicate Latin1(s: string) {
    forall i :: 0 <= i < |s| ==> s[i] <= '\U{ff}'
  }

  lemma Latin1Joins(a: string, b: string)
    requires Latin1(a) && Latin1(b)
    ensures Latin1(a + b)
  {
  }

  lemma DigitsAreLatin1(s: string)
    requires AllDigits(s)
    ensures Latin1(s)
  {
  }

  /** `Buffer.from(c, 'latin1')`: the low byte of every code unit. */
  function LowBytes(c: char): seq<int> {
    var n := c as int;
    if n < 0x10000 then [n % 256] else [(n - 0x10000) / 1024 % 256, (n - 0x10000) % 256]
  }

  function ToLatin1(s: string): seq<int> {
    if s == "" then [] else LowBytes(s[0]) + ToLatin1(s[1..])
  }

  function FromLatin1(bytes: seq<int>): (s: string)
    requires forall i :: 0 <= i < |bytes| ==> 0 <= bytes[i] < 256
    ensures Latin1(s) && |s| == |bytes|
  {
    if bytes == [] then "" else [bytes[0] as char] + FromLatin1(bytes[1..])
  }

  lemma {:induction false} ToLatin1IsBytes(s: string)
    ensures forall i :: 0 <= i < |ToLatin1(s)| ==> 0 <= ToLatin1(s)[i] < 256
  {
    if s != "" { ToLatin1IsBytes(s[1..]); }
  }

  /** Text survives being written as latin1 if and only if none of it is beyond that. */
  lemma {:induction false} Latin1ComesBackIff(s: string)
    ensures forall i :: 0 <= i < |ToLatin1(s)| ==> 0 <= ToLatin1(s)[i] < 256
    ensures FromLatin1(ToLatin1(s)) == s <==> Latin1(s)
  {
    ToLatin1IsBytes(s);
    if Latin1(s) && s != "" {
      Latin1ComesBackIff(s[1..]);
      assert s[0] as int % 256 == s[0] as int;
      assert ToLatin1(s) == [s[0] as int] + ToLatin1(s[1..]);
      assert s == [s[0]] + s[1..];
    }
  }
}
