/** Query strings as scripts/design/gl-runtime.ts writes them, cuts them and reads them back.  The UTF-8
    conversions are parameters. */
module Query {
  import opened Bytes
  import opened Text
  import opened Wrappers

  datatype Codec = Codec(utf8: string -> Bytes, text: Bytes -> string)

  predicate Ascii(s: string) {
    forall i :: 0 <= i < |s| ==> s[i] < '\U{80}'
  }

  function AsciiBytes(s: string): Bytes
    requires Ascii(s)
  {
    seq(|s|, i requires 0 <= i < |s| => s[i] as int)
  }

  /** ASCII text is its own bytes. */
  ghost predicate PlainAscii(codec: Codec) {
    forall s: string :: Ascii(s) ==> codec.utf8(s) == AsciiBytes(s) && codec.text(AsciiBytes(s)) == s
  }

  // ---------------------------------------------------------------------------------------------
  // Components
  // ---------------------------------------------------------------------------------------------

  /** What `encodeURIComponent` leaves alone. */
  predicate IsKept(c: char) {
    'A' <= c <= 'Z' || 'a' <= c <= 'z' || IsDigit(c) || c == '-' || c == '_' || c == '.' || c == '!' || c == '~'
    || c == '*' || c == '\'' || c == '(' || c == ')'
  }

  predicate Kept(s: string) {
    forall i :: 0 <= i < |s| ==> IsKept(s[i])
  }

  function HexChar(d: nat): char
    requires d < 16
  {
    if d < 10 then (d + '0' as int) as char else (d - 10 + 'A' as int) as char
  }

  function EncodeByte(b: byte): string {
    if b < 128 && IsKept(b as char) then [b as char] else ['%', HexChar(b / 16), HexChar(b % 16)]
  }

  function EncodeBytes(b: Bytes): string {
    if b == [] then "" else EncodeByte(b[0]) + EncodeBytes(b[1..])
  }

  /** `encodeURIComponent` */
  function Encode(codec: Codec, s: string): string {
    EncodeBytes(codec.utf8(s))
  }

  /** The bytes of a component of a query: `+` is a space, `%hh` a byte, any other character itself. */
  function PercentDecode(codec: Codec, s: string): Bytes
    decreases |s|
  {
    if s == "" then []
    else if s[0] == '%' && |s| >= 3 && IsHexDigit(s[1]) && IsHexDigit(s[2]) then
      [(16 * HexValue(s[1]) + HexValue(s[2])) as byte] + PercentDecode(codec, s[3..])
    else if s[0] == '+' then [32] + PercentDecode(codec, s[1..])
    else codec.utf8([s[0]]) + PercentDecode(codec, s[1..])
  }

  function Decode(codec: Codec, s: string): string {
    codec.text(PercentDecode(codec, s))
  }

  // ---------------------------------------------------------------------------------------------
  // Queries
  // ---------------------------------------------------------------------------------------------

  /** A name and its value as it stands in the query. */
  datatype Param = Param(name: string, raw: string)

  function Pair(p: Param): string {
    p.name + ("=" + p.raw)
  }

  /** Each parameter after the first, with its `&`. */
  function Rest(ps: seq<Param>): string {
    if ps == [] then "" else "&" + (Pair(ps[0]) + Rest(ps[1..]))
  }

  /** `q.length ? '?' + q.join('&') : ''` */
  function Print(ps: seq<Param>): string {
    if ps == [] then "" else "?" + (Pair(ps[0]) + Rest(ps[1..]))
  }

  predicate IsSeparator(c: char) {
    c == '?' || c == '&'
  }

  predicate InPiece(c: char) {
    c != '&'
  }

  predicate InName(c: char) {
    c != '='
  }

  /** A text from its next `&` on. */
  function FromNext(s: string): (rest: string)
    ensures |rest| <= |s|
  {
    s[Span(s, InPiece)..]
  }

  /** Deletes, wherever a separator and `name=` stand, from there to the next `&`. */
  function Remove(s: string, name: string): string
    decreases |s|
  {
    if s == "" then ""
    else if IsSeparator(s[0]) && name + "=" <= s[1..] then Remove(FromNext(s[1..][|name| + 1..]), name)
    else [s[0]] + Remove(s[1..], name)
  }

  /** `s.split('&')` without the empty pieces, each cut at its first `=`. */
  function Pieces(s: string): seq<Param>
    decreases |s|
  {
    var n := Span(s, InPiece);
    var rest := if n == |s| then [] else Pieces(s[n + 1..]);
    if n == 0 then rest else [Cut(s[..n])] + rest
  }

  function Cut(piece: string): Param {
    var n := Span(piece, InName);
    if n == |piece| then Param(piece, "") else Param(piece[..n], piece[n + 1..])
  }

  function DecodeAll(codec: Codec, ps: seq<Param>): seq<Param> {
    if ps == [] then [] else [Param(Decode(codec, ps[0].name), Decode(codec, ps[0].raw))] + DecodeAll(codec, ps[1..])
  }

  /** `new URLSearchParams(query)` */
  function Parse(codec: Codec, query: string): seq<Param> {
    DecodeAll(codec, Pieces(if query != "" && query[0] == '?' then query[1..] else query))
  }

  /** `params.get(name)` */
  function Get(ps: seq<Param>, name: string): Option<string> {
    if ps == [] then None else if ps[0].name == name then Some(ps[0].raw) else Get(ps[1..], name)
  }

  // ---------------------------------------------------------------------------------------------
  // Components come back
  // ---------------------------------------------------------------------------------------------

  /** A written parameter holds no separator, and no `=` in its name. */
  predicate Clean(p: Param) {
    && p.name != ""
    && (forall i :: 0 <= i < |p.name| ==> !IsSeparator(p.name[i]) && p.name[i] != '=')
    && (forall i :: 0 <= i < |p.raw| ==> !IsSeparator(p.raw[i]))
  }

  predicate AllClean(ps: seq<Param>) {
    forall i :: 0 <= i < |ps| ==> Clean(ps[i])
  }

  lemma OneByte(codec: Codec, b: byte, rest: string)
    requires PlainAscii(codec)
    ensures PercentDecode(codec, EncodeByte(b) + rest) == [b] + PercentDecode(codec, rest)
    ensures forall i :: 0 <= i < |EncodeByte(b)| ==> !IsSeparator(EncodeByte(b)[i])
  {
    var s := EncodeByte(b) + rest;
    if b < 128 && IsKept(b as char) {
      assert s[1..] == rest && s[0] == b as char;
      assert Ascii([b as char]) && codec.utf8([b as char]) == AsciiBytes([b as char]) == [b];
    } else {
      assert s[3..] == rest;
      assert HexValue(HexChar(b / 16)) == b / 16 && HexValue(HexChar(b % 16)) == b % 16;
    }
  }

  lemma {:induction false} BytesComeBack(codec: Codec, b: Bytes)
    requires PlainAscii(codec)
    ensures PercentDecode(codec, EncodeBytes(b)) == b
    ensures forall i :: 0 <= i < |EncodeBytes(b)| ==> !IsSeparator(EncodeBytes(b)[i])
  {
    hide EncodeByte, PlainAscii, PercentDecode;
    if b == [] {
      NothingDecodes(codec);
    } else {
      BytesComeBack(codec, b[1..]);
      OneByte(codec, b[0], EncodeBytes(b[1..]));
    }
  }

  lemma NothingDecodes(codec: Codec)
    ensures PercentDecode(codec, "") == []
  {
  }

  /** Decoding undoes encoding, for text that UTF-8 gives back. */
  lemma ComponentComesBack(codec: Codec, s: string)
    requires PlainAscii(codec) && codec.text(codec.utf8(s)) == s
    ensures Decode(codec, Encode(codec, s)) == s
    ensures forall i :: 0 <= i < |Encode(codec, s)| ==> !IsSeparator(Encode(codec, s)[i])
  {
    hide PlainAscii;
    BytesComeBack(codec, codec.utf8(s));
  }

  lemma {:induction false} KeptBytes(codec: Codec, s: string)
    requires PlainAscii(codec) && Kept(s)
    ensures Ascii(s) && PercentDecode(codec, s) == AsciiBytes(s)
  {
    if s != "" {
      KeptBytes(codec, s[1..]);
      assert Ascii([s[0]]) && codec.utf8([s[0]]) == AsciiBytes([s[0]]);
      assert AsciiBytes(s) == AsciiBytes([s[0]]) + AsciiBytes(s[1..]);
    }
  }

  /** Plain names and values are read as they stand. */
  lemma KeptComesBack(codec: Codec, s: string)
    requires PlainAscii(codec) && Kept(s)
    ensures Decode(codec, s) == s
    ensures forall i :: 0 <= i < |s| ==> !IsSeparator(s[i]) && s[i] != '='
  {
    KeptBytes(codec, s);
  }

  // ---------------------------------------------------------------------------------------------
  // Printed parameters are parsed
  // ---------------------------------------------------------------------------------------------

  lemma CutPair(p: Param)
    requires Clean(p)
    ensures Cut(Pair(p)) == p
  {
    SpanStops(p.name, "=" + p.raw, InName);
    assert Pair(p)[|p.name| + 1..] == p.raw;
  }

  lemma LastPiece(piece: string)
    requires piece != "" && forall i :: 0 <= i < |piece| ==> piece[i] != '&'
    ensures Pieces(piece) == [Cut(piece)]
  {
    hide Cut;
    assert piece + "" == piece && piece[..|piece|] == piece;
    SpanStops(piece, "", InPiece);
  }

  lemma Slices(a: string, c: char, b: string)
    ensures (a + ([c] + b))[..|a|] == a && (a + ([c] + b))[|a|..] == [c] + b && (a + ([c] + b))[|a| + 1..] == b
  {
  }

  lemma FirstPiece(piece: string, rest: string)
    requires piece != "" && forall i :: 0 <= i < |piece| ==> piece[i] != '&'
    ensures Pieces(piece + ("&" + rest)) == [Cut(piece)] + Pieces(rest)
  {
    hide Cut;
    Slices(piece, '&', rest);
    SpanStops(piece, ['&'] + rest, InPiece);
  }

  lemma PairIsPiece(p: Param)
    requires Clean(p)
    ensures Pair(p) != "" && forall i :: 0 <= i < |Pair(p)| ==> !IsSeparator(Pair(p)[i])
  {
  }

  lemma {:induction false} PiecesOfPrinted(p: Param, ps: seq<Param>)
    requires Clean(p) && AllClean(ps)
    ensures Pieces(Pair(p) + Rest(ps)) == [p] + ps
    decreases |ps|
  {
    hide Cut, Pieces, Pair, Clean;
    CutPair(p);
    PairIsPiece(p);
    if ps == [] {
      assert Pair(p) + Rest(ps) == Pair(p);
      LastPiece(Pair(p));
    } else {
      PiecesOfPrinted(ps[0], ps[1..]);
      FirstPiece(Pair(p), Pair(ps[0]) + Rest(ps[1..]));
      assert [ps[0]] + ps[1..] == ps;
    }
  }

  /** Parsing undoes printing, up to decoding. */
  lemma PrintedIsParsed(codec: Codec, ps: seq<Param>)
    requires AllClean(ps)
    ensures Parse(codec, Print(ps)) == DecodeAll(codec, ps)
  {
    hide Pieces, Decode, Pair, Rest;
    if ps == [] {
      NoPieces();
    } else {
      var s := Pair(ps[0]) + Rest(ps[1..]);
      assert ("?" + s)[1..] == s;
      PiecesOfPrinted(ps[0], ps[1..]);
      assert [ps[0]] + ps[1..] == ps;
    }
  }

  lemma NoPieces()
    ensures Pieces("") == []
  {
  }

  // ---------------------------------------------------------------------------------------------
  // Deleting by text deletes the parameter
  // ---------------------------------------------------------------------------------------------

  function Without(ps: seq<Param>, name: string): seq<Param> {
    if ps == [] then [] else (if ps[0].name == name then [] else [ps[0]]) + Without(ps[1..], name)
  }

  lemma {:induction false} RemoveSkips(a: string, rest: string, name: string)
    requires forall i :: 0 <= i < |a| ==> !IsSeparator(a[i])
    ensures Remove(a + rest, name) == a + Remove(rest, name)
    decreases |a|
  {
    if a == "" {
      assert a + rest == rest;
    } else {
      assert (a + rest)[1..] == a[1..] + rest;
      RemoveSkips(a[1..], rest, name);
    }
  }

  predicate StartsParam(rest: string) {
    rest == "" || rest[0] == '&'
  }

  lemma NameDecides(p: Param, rest: string, name: string)
    requires Clean(p) && name != "" && forall i :: 0 <= i < |name| ==> name[i] != '='
    ensures name + "=" <= Pair(p) + rest <==> p.name == name
  {
    var s := Pair(p) + rest;
    assert s[|p.name|] == '=' && s[..|p.name|] == p.name;
    if name + "=" <= s {
      assert s[|name|] == '=' && s[..|name|] == name;
      assert forall i :: 0 <= i < |name| ==> s[i] == name[i] != '=';
      assert forall i :: 0 <= i < |p.name| ==> s[i] == p.name[i] != '=';
      assert |name| == |p.name|;
    }
  }

  lemma RemoveMatch(sep: char, name: string, raw: string, rest: string)
    requires IsSeparator(sep) && StartsParam(rest) && forall i :: 0 <= i < |raw| ==> raw[i] != '&'
    ensures Remove([sep] + (name + (['='] + (raw + rest))), name) == Remove(rest, name)
  {
    hide FromNext;
    var tail := name + (['='] + (raw + rest));
    assert ([sep] + tail)[1..] == tail;
    assert name + "=" <= tail;
    Slices(name, '=', raw + rest);
    NextAfter(raw, rest);
  }

  lemma NextAfter(raw: string, rest: string)
    requires StartsParam(rest) && forall i :: 0 <= i < |raw| ==> raw[i] != '&'
    ensures FromNext(raw + rest) == rest
  {
    SpanStops(raw, rest, InPiece);
    assert (raw + rest)[|raw|..] == rest;
  }

  lemma RemoveMiss(sep: char, body: string, name: string)
    requires !(name + "=" <= body)
    ensures Remove([sep] + body, name) == [sep] + Remove(body, name)
  {
    assert ([sep] + body)[1..] == body;
  }

  lemma RawIsInPiece(p: Param)
    requires Clean(p)
    ensures forall i :: 0 <= i < |p.raw| ==> p.raw[i] != '&'
  {
  }

  lemma RemoveOne(sep: char, p: Param, rest: string, name: string)
    requires IsSeparator(sep) && Clean(p) && StartsParam(rest) && name != ""
    requires forall i :: 0 <= i < |name| ==> name[i] != '='
    ensures Remove([sep] + (Pair(p) + rest), name) == (if p.name == name then "" else [sep] + Pair(p))
      + Remove(rest, name)
  {
    hide Remove, Clean, StartsParam;
    NameDecides(p, rest, name);
    RawIsInPiece(p);
    if p.name == name {
      RemoveMatch(sep, name, p.raw, rest);
      Associates(p.name, "=" + p.raw, rest);
      Associates("=", p.raw, rest);
    } else {
      RemoveMiss(sep, Pair(p) + rest, name);
      PairIsPiece(p);
      RemoveSkips(Pair(p), rest, name);
      Associates([sep], Pair(p), Remove(rest, name));
    }
  }

  lemma MoreStarts(ps: seq<Param>)
    ensures StartsParam(Rest(ps))
  {
  }

  lemma {:induction false} RemoveFromMore(ps: seq<Param>, name: string)
    requires AllClean(ps) && name != "" && forall i :: 0 <= i < |name| ==> name[i] != '='
    ensures Remove(Rest(ps), name) == Rest(Without(ps, name))
  {
    hide Remove, Pair, Clean;
    if ps == [] {
      NothingRemoved(name);
    } else {
      RemoveFromMore(ps[1..], name);
      MoreStarts(ps[1..]);
      RemoveOne('&', ps[0], Rest(ps[1..]), name);
      var kept := Without(ps[1..], name);
      if ps[0].name != name {
        assert ([ps[0]] + kept)[1..] == kept;
        Associates("&", Pair(ps[0]), Rest(kept));
        assert Rest([ps[0]] + kept) == "&" + (Pair(ps[0]) + Rest(kept));
      } else {
        assert [] + kept == kept;
      }
    }
  }

  lemma NothingRemoved(name: string)
    ensures Remove("", name) == ""
  {
  }

  /** Where the first parameter stays, deleting a name by text leaves what would be printed without it. */
  lemma RemoveKeepsFirst(ps: seq<Param>, name: string)
    requires ps != [] && AllClean(ps) && ps[0].name != name
    requires name != "" && forall i :: 0 <= i < |name| ==> name[i] != '='
    ensures Remove(Print(ps), name) == Print([ps[0]] + Without(ps[1..], name))
  {
    hide Remove, Pair, Rest;
    RemoveFromMore(ps[1..], name);
    MoreStarts(ps[1..]);
    RemoveOne('?', ps[0], Rest(ps[1..]), name);
    Associates("?", Pair(ps[0]), Rest(Without(ps[1..], name)));
  }

  /** Where the first goes, its `?` goes with it: the rest is left with an `&` in front. */
  lemma RemoveFirst(ps: seq<Param>, name: string)
    requires ps != [] && AllClean(ps) && ps[0].name == name
    requires name != "" && forall i :: 0 <= i < |name| ==> name[i] != '='
    ensures Remove(Print(ps), name) == Rest(Without(ps[1..], name))
  {
    hide Remove, Pair, Rest;
    RemoveFromMore(ps[1..], name);
    MoreStarts(ps[1..]);
    RemoveOne('?', ps[0], Rest(ps[1..]), name);
  }
}
