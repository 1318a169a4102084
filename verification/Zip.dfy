/** The ZIP container: the fixture writer (scripts/fixtures/office.ts) and the product's own bounded
    reader (src/platform/parse/zip.ts), proved to be inverse to each other.

    Compression and text encoding are parameters of the model.  What is asked of them is only that
    inflating undoes deflating and that decoding undoes encoding.  Which error an output over the limit
    is reported as hangs on the decompressor's message, so that is a parameter too. */
module Zip {
  import opened Wrappers
  import opened Bytes
  import Crc32

  datatype Codec = Codec(encode: string -> Bytes, decode: Bytes -> string,
                         deflate: Bytes -> Bytes, inflate: Bytes -> Option<Bytes>, tooLong: Error)
  {
    ghost predicate Sound() {
      && (forall s: string :: decode(encode(s)) == s)
      && (forall b: Bytes :: inflate(deflate(b)) == Some(b))
    }
  }

  datatype Member = Member(name: string, bytes: Bytes)

  datatype Error = RangeError | LimitExceeded | Malformed

  const STORED := 0
  const DEFLATED := 8

  // ---------------------------------------------------------------------------------------------
  // What is written for one member
  // ---------------------------------------------------------------------------------------------

  datatype Packed = Packed(name: Bytes, raw: Bytes, data: Bytes, scheme: nat, crc: word)

  /** The shorter of the two payloads is kept, and the scheme says which. */
  function Pack(codec: Codec, member: Member): (p: Packed)
    ensures |p.data| <= |p.raw| && p.raw == member.bytes
    ensures p.name == codec.encode(member.name) && p.crc == Crc32.Crc(member.bytes)
    ensures p.scheme == STORED || p.scheme == DEFLATED
    ensures p.scheme == DEFLATED <==> |codec.deflate(member.bytes)| < |member.bytes|
  {
    var deflated := codec.deflate(member.bytes);
    var crc := Crc32.Crc(member.bytes);
    if |deflated| < |member.bytes| then
      Packed(codec.encode(member.name), member.bytes, deflated, DEFLATED, crc)
    else
      Packed(codec.encode(member.name), member.bytes, member.bytes, STORED, crc)
  }

  function PackAll(codec: Codec, members: seq<Member>): (ps: seq<Packed>)
    ensures |ps| == |members|
    ensures forall i :: 0 <= i < |members| ==> ps[i] == Pack(codec, members[i])
  {
    seq(|members|, i requires 0 <= i < |members| => Pack(codec, members[i]))
  }

  const LIMIT16: nat := 0x1_0000
  const LIMIT32: nat := 0x1_0000_0000

  predicate PackedFits(p: Packed) {
    |p.name| < LIMIT16 && |p.raw| < LIMIT32 && |p.data| < LIMIT32
  }

  /** A fixed-layout record of little-endian fields. */
  datatype Record = Blank | Field(before: Record, value: nat, width: nat) {
    function U16(n: nat): Record {
      Field(this, n, 2)
    }

    function U32(n: nat): Record {
      Field(this, n, 4)
    }

    function Width(): nat {
      match this
      case Blank => 0
      case Field(r, _, w) => r.Width() + w
    }

    function Render(): (b: Bytes)
      ensures |b| == Width()
    {
      match this
      case Blank => []
      case Field(r, n, w) => r.Render() + Le(n, w)
    }
  }

  const LOCAL_SIGNATURE := 0x04034b50
  const CENTRAL_SIGNATURE := 0x02014b50
  const END_SIGNATURE := 0x06054b50

  /** APPNOTE section 4.3.7. */
  function LocalRecord(p: Packed): Record {
    Blank.U32(LOCAL_SIGNATURE).U16(20).U16(0).U16(p.scheme).U16(0).U16(0)
    .U32(p.crc).U32(|p.data|).U32(|p.raw|).U16(|p.name|).U16(0)
  }

  function CentralStart(p: Packed): Record {
    Blank.U32(CENTRAL_SIGNATURE).U16(20).U16(20).U16(0).U16(p.scheme).U16(0).U16(0).U32(p.crc)
  }

  /** APPNOTE section 4.3.12. */
  function CentralRecord(p: Packed, offset: nat): Record {
    CentralStart(p).U32(|p.data|).U32(|p.raw|).U16(|p.name|)
    .U16(0).U16(0).U16(0).U16(0).U32(0).U32(offset)
  }

  /** APPNOTE section 4.3.16. */
  function EndRecord(count: nat, size: nat, offset: nat): Record {
    Blank.U32(END_SIGNATURE).U16(0).U16(0).U16(count).U16(count).U32(size).U32(offset).U16(0)
  }

  function Local(p: Packed): Bytes {
    LocalRecord(p).Render() + p.name + p.data
  }

  function Central(p: Packed, offset: nat): Bytes {
    CentralRecord(p, offset).Render() + p.name
  }

  /** The local blocks of the first `n` members. */
  function Locals(ps: seq<Packed>, n: nat): Bytes
    requires n <= |ps|
  {
    if n == 0 then [] else Locals(ps, n - 1) + Local(ps[n - 1])
  }

  /** Where member `i` starts. */
  function Offset(ps: seq<Packed>, i: nat): nat
    requires i <= |ps|
  {
    if i == 0 then 0 else Offset(ps, i - 1) + 30 + |ps[i - 1].name| + |ps[i - 1].data|
  }

  /** The directory records of the first `n` members. */
  function Centrals(ps: seq<Packed>, n: nat): Bytes
    requires n <= |ps|
  {
    if n == 0 then [] else Centrals(ps, n - 1) + Central(ps[n - 1], Offset(ps, n - 1))
  }

  function Archive(ps: seq<Packed>): Bytes {
    var locals, centrals := Locals(ps, |ps|), Centrals(ps, |ps|);
    locals + centrals + EndRecord(|ps|, |centrals|, |locals|).Render()
  }

  /** Every number fits the field it is written to. */
  predicate Fits(ps: seq<Packed>) {
    && (forall p :: p in ps ==> PackedFits(p))
    && |ps| < LIMIT16 && |Centrals(ps, |ps|)| < LIMIT32 && |Locals(ps, |ps|)| < LIMIT32
  }

  lemma WidthOfU16(r: Record, n: nat)
    ensures r.U16(n).Width() == r.Width() + 2
  {
  }

  lemma WidthOfU32(r: Record, n: nat)
    ensures r.U32(n).Width() == r.Width() + 4
  {
  }

  lemma LocalWidth(p: Packed)
    ensures |LocalRecord(p).Render()| == 30
  {
    hide Record.Width, Record.Render;
    var r4 := Blank.U32(LOCAL_SIGNATURE);
    WidthOfBlank();
    WidthOfU32(Blank, LOCAL_SIGNATURE);
    WidthOfU16(r4, 20);
    WidthOfU16(r4.U16(20), 0);
    var r8 := r4.U16(20).U16(0);
    WidthOfU16(r8, p.scheme);
    WidthOfU16(r8.U16(p.scheme), 0);
    WidthOfU16(r8.U16(p.scheme).U16(0), 0);
    var r14 := r8.U16(p.scheme).U16(0).U16(0);
    WidthOfU32(r14, p.crc);
    WidthOfU32(r14.U32(p.crc), |p.data|);
    var r22 := r14.U32(p.crc).U32(|p.data|);
    WidthOfU32(r22, |p.raw|);
    WidthOfU16(r22.U32(|p.raw|), |p.name|);
    WidthOfU16(r22.U32(|p.raw|).U16(|p.name|), 0);
  }

  lemma StartWidth(p: Packed)
    ensures CentralStart(p).Width() == 20
  {
    hide Record.Width, Record.Render;
    WidthOfBlank();
    var r4 := Blank.U32(CENTRAL_SIGNATURE);
    WidthOfU32(Blank, CENTRAL_SIGNATURE);
    WidthOfU16(r4, 20);
    WidthOfU16(r4.U16(20), 20);
    var r8 := r4.U16(20).U16(20);
    WidthOfU16(r8, 0);
    WidthOfU16(r8.U16(0), p.scheme);
    var r12 := r8.U16(0).U16(p.scheme);
    WidthOfU16(r12, 0);
    WidthOfU16(r12.U16(0), 0);
    WidthOfU32(r12.U16(0).U16(0), p.crc);
  }

  lemma CentralWidth(p: Packed, offset: nat)
    ensures |CentralRecord(p, offset).Render()| == 46
    ensures |Central(p, offset)| == 46 + |p.name|
  {
    hide Record.Width, Record.Render, CentralStart;
    StartWidth(p);
    var r20 := CentralStart(p);
    WidthOfU32(r20, |p.data|);
    WidthOfU32(r20.U32(|p.data|), |p.raw|);
    var r28 := r20.U32(|p.data|).U32(|p.raw|);
    WidthOfU16(r28, |p.name|);
    WidthOfU16(r28.U16(|p.name|), 0);
    var r32 := r28.U16(|p.name|).U16(0);
    WidthOfU16(r32, 0);
    WidthOfU16(r32.U16(0), 0);
    WidthOfU16(r32.U16(0).U16(0), 0);
    var r38 := r32.U16(0).U16(0).U16(0);
    WidthOfU32(r38, 0);
    WidthOfU32(r38.U32(0), offset);
  }

  lemma WidthOfBlank()
    ensures Blank.Width() == 0
  {
  }

  /** Offsets are where the local blocks really are. */
  lemma {:induction false} OffsetsAreExact(ps: seq<Packed>, i: nat)
    requires i <= |ps|
    ensures Offset(ps, i) == |Locals(ps, i)|
    decreases i
  {
    if i > 0 {
      OffsetsAreExact(ps, i - 1);
      LocalWidth(ps[i - 1]);
    }
  }

  lemma {:induction false} LocalsPrefix(ps: seq<Packed>, i: nat, n: nat)
    requires i <= n <= |ps|
    ensures Locals(ps, i) <= Locals(ps, n)
    decreases n
  {
    if i < n {
      LocalsPrefix(ps, i, n - 1);
    }
  }

  lemma {:induction false} CentralsPrefix(ps: seq<Packed>, i: nat, n: nat)
    requires i <= n <= |ps|
    ensures Centrals(ps, i) <= Centrals(ps, n)
    decreases n
  {
    if i < n {
      CentralsPrefix(ps, i, n - 1);
    }
  }

  // ---------------------------------------------------------------------------------------------
  // The writer
  // ---------------------------------------------------------------------------------------------

  lemma LeHalf(n: nat)
    ensures Le(n, 2) == [n % 256, n / 0x100 % 256]
  {
    assert Le(n, 2) == [n % 256] + Le(n / 256, 1);
    assert Le(n / 256, 1) == [n / 256 % 256] + Le(n / 256 / 256, 0);
  }

  lemma LeWhole(n: nat)
    ensures Le(n, 4) == [n % 256, n / 0x100 % 256, n / 0x1_0000 % 256, n / 0x100_0000 % 256]
  {
    var n1, n2, n3 := n / 0x100, n / 0x1_0000, n / 0x100_0000;
    assert n1 / 256 == n2 && n2 / 256 == n3;
    LeHalf(n2);
    assert Le(n, 4) == [n % 256] + Le(n1, 3);
    assert Le(n1, 3) == [n1 % 256] + Le(n2, 2);
  }

  /** Writes are sequential: each extends the record that is already laid down. */
  method WriteUInt16LE(buffer: array<byte>, value: nat, at: nat, ghost laid: Record) returns (r: Outcome<Error>)
    requires at + 2 <= buffer.Length && buffer[..at] == laid.Render()
    modifies buffer
    ensures r == if value < LIMIT16 then Pass else Fail(RangeError)
    ensures r.Pass? ==> buffer[..at + 2] == laid.U16(value).Render()
  {
    if value >= LIMIT16 {
      return Fail(RangeError);
    }
    buffer[at], buffer[at + 1] := value % 256, value / 0x100 % 256;
    LeHalf(value);
    assert buffer[..at + 2] == buffer[..at] + Le(value, 2);
    return Pass;
  }

  method WriteUInt32LE(buffer: array<byte>, value: nat, at: nat, ghost laid: Record) returns (r: Outcome<Error>)
    requires at + 4 <= buffer.Length && buffer[..at] == laid.Render()
    modifies buffer
    ensures r == if value < LIMIT32 then Pass else Fail(RangeError)
    ensures r.Pass? ==> buffer[..at + 4] == laid.U32(value).Render()
  {
    if value >= LIMIT32 {
      return Fail(RangeError);
    }
    buffer[at], buffer[at + 1] := value % 256, value / 0x100 % 256;
    buffer[at + 2], buffer[at + 3] := value / 0x1_0000 % 256, value / 0x100_0000 % 256;
    LeWhole(value);
    assert buffer[..at + 4] == buffer[..at] + Le(value, 4);
    return Pass;
  }

  method WriteLocalRecord(p: Packed, crc: word) returns (r: Result<Bytes, Error>)
    requires crc == p.crc && p.scheme < LIMIT16
    ensures r == if PackedFits(p) then Ok(LocalRecord(p).Render()) else Err(RangeError)
  {
    hide Record.Render, Le;
    NothingRendered();
    var buffer := new byte[30](_ => 0);
    ghost var laid := Blank;
    assert buffer[..0] == [];
    var _ := WriteUInt32LE(buffer, LOCAL_SIGNATURE, 0, laid);
    laid := laid.U32(LOCAL_SIGNATURE);
    var _ := WriteUInt16LE(buffer, 20, 4, laid);
    laid := laid.U16(20);
    var _ := WriteUInt16LE(buffer, 0, 6, laid);
    laid := laid.U16(0);
    var _ := WriteUInt16LE(buffer, p.scheme, 8, laid);
    laid := laid.U16(p.scheme);
    var _ := WriteUInt16LE(buffer, 0, 10, laid);
    laid := laid.U16(0);
    var _ := WriteUInt16LE(buffer, 0, 12, laid);
    laid := laid.U16(0);
    var _ := WriteUInt32LE(buffer, crc, 14, laid);
    laid := laid.U32(crc);
    :- WriteUInt32LE(buffer, |p.data|, 18, laid);
    laid := laid.U32(|p.data|);
    :- WriteUInt32LE(buffer, |p.raw|, 22, laid);
    laid := laid.U32(|p.raw|);
    :- WriteUInt16LE(buffer, |p.name|, 26, laid);
    laid := laid.U16(|p.name|);
    var _ := WriteUInt16LE(buffer, 0, 28, laid);
    laid := laid.U16(0);
    assert buffer[..] == buffer[..30];
    return Ok(buffer[..]);
  }

  /** The first half of a directory record, up to the CRC. */
  method WriteCentralStart(buffer: array<byte>, p: Packed, crc: word)
    requires buffer.Length == 46 && crc == p.crc && p.scheme < LIMIT16
    modifies buffer
    ensures buffer[..20] == CentralStart(p).Render()
  {
    hide Record.Render, Le;
    NothingRendered();
    ghost var laid := Blank;
    assert buffer[..0] == [];
    var _ := WriteUInt32LE(buffer, CENTRAL_SIGNATURE, 0, laid);
    laid := laid.U32(CENTRAL_SIGNATURE);
    var _ := WriteUInt16LE(buffer, 20, 4, laid);
    laid := laid.U16(20);
    var _ := WriteUInt16LE(buffer, 20, 6, laid);
    laid := laid.U16(20);
    var _ := WriteUInt16LE(buffer, 0, 8, laid);
    laid := laid.U16(0);
    var _ := WriteUInt16LE(buffer, p.scheme, 10, laid);
    laid := laid.U16(p.scheme);
    var _ := WriteUInt16LE(buffer, 0, 12, laid);
    laid := laid.U16(0);
    var _ := WriteUInt16LE(buffer, 0, 14, laid);
    laid := laid.U16(0);
    var _ := WriteUInt32LE(buffer, crc, 16, laid);
  }

  lemma NothingRendered()
    ensures Blank.Render() == []
  {
  }

  method WriteCentralRecord(p: Packed, crc: word, offset: nat) returns (r: Result<Bytes, Error>)
    requires crc == p.crc && p.scheme < LIMIT16
    ensures r == if PackedFits(p) && offset < LIMIT32 then Ok(CentralRecord(p, offset).Render()) else Err(RangeError)
  {
    hide Record.Render, Le;
    var buffer := new byte[46](_ => 0);
    WriteCentralStart(buffer, p, crc);
    ghost var laid := CentralStart(p);
    :- WriteUInt32LE(buffer, |p.data|, 20, laid);
    laid := laid.U32(|p.data|);
    :- WriteUInt32LE(buffer, |p.raw|, 24, laid);
    laid := laid.U32(|p.raw|);
    :- WriteUInt16LE(buffer, |p.name|, 28, laid);
    laid := laid.U16(|p.name|);
    var _ := WriteUInt16LE(buffer, 0, 30, laid);
    laid := laid.U16(0);
    var _ := WriteUInt16LE(buffer, 0, 32, laid);
    laid := laid.U16(0);
    var _ := WriteUInt16LE(buffer, 0, 34, laid);
    laid := laid.U16(0);
    var _ := WriteUInt16LE(buffer, 0, 36, laid);
    laid := laid.U16(0);
    var _ := WriteUInt32LE(buffer, 0, 38, laid);
    laid := laid.U32(0);
    :- WriteUInt32LE(buffer, offset, 42, laid);
    laid := laid.U32(offset);
    assert buffer[..] == buffer[..46];
    return Ok(buffer[..]);
  }

  method WriteEndRecord(count: nat, size: nat, offset: nat) returns (r: Result<Bytes, Error>)
    ensures r == if count < LIMIT16 && size < LIMIT32 && offset < LIMIT32
                 then Ok(EndRecord(count, size, offset).Render()) else Err(RangeError)
  {
    hide Record.Render, Le;
    NothingRendered();
    var buffer := new byte[22](_ => 0);
    ghost var laid := Blank;
    assert buffer[..0] == [];
    var _ := WriteUInt32LE(buffer, END_SIGNATURE, 0, laid);
    laid := laid.U32(END_SIGNATURE);
    var _ := WriteUInt16LE(buffer, 0, 4, laid);
    laid := laid.U16(0);
    var _ := WriteUInt16LE(buffer, 0, 6, laid);
    laid := laid.U16(0);
    :- WriteUInt16LE(buffer, count, 8, laid);
    laid := laid.U16(count);
    var _ := WriteUInt16LE(buffer, count, 10, laid);
    laid := laid.U16(count);
    :- WriteUInt32LE(buffer, size, 12, laid);
    laid := laid.U32(size);
    :- WriteUInt32LE(buffer, offset, 16, laid);
    laid := laid.U32(offset);
    var _ := WriteUInt16LE(buffer, 0, 20, laid);
    laid := laid.U16(0);
    assert buffer[..] == buffer[..22];
    return Ok(buffer[..]);
  }

  /** One turn of the writer's loop: the member's local block and its directory record. */
  method WriteMember(table: array<word>, p: Packed, offset: nat) returns (r: Result<(Bytes, Bytes), Error>)
    requires Crc32.IsTable(table) && p.crc == Crc32.Crc(p.raw) && p.scheme < LIMIT16
    ensures r == if PackedFits(p) && offset < LIMIT32 then Ok((Local(p), Central(p, offset))) else Err(RangeError)
  {
    var crc := Crc32.Compute(table, p.raw);
    var local :- WriteLocalRecord(p, crc);
    var central :- WriteCentralRecord(p, crc, offset);
    return Ok((local + p.name + p.data, central + p.name));
  }

  /** Writes the archive, or refuses it exactly when some number does not fit its field. */
  method Write(codec: Codec, table: array<word>, members: seq<Member>) returns (r: Result<Bytes, Error>)
    requires Crc32.IsTable(table)
    ensures var ps := PackAll(codec, members); r == if Fits(ps) then Ok(Archive(ps)) else Err(RangeError)
  {
    hide Local, Central, Pack, Crc32.Crc, Offset, EndRecord;
    ghost var ps := PackAll(codec, members);
    var locals: Bytes, centrals: Bytes, offset := [], [], 0;
    for i := 0 to |members|
      invariant locals == Locals(ps, i) && centrals == Centrals(ps, i) && offset == |locals|
      invariant forall p :: p in ps[..i] ==> PackedFits(p)
    {
      Refused(ps, i);
      OffsetsAreExact(ps, i);
      var p := Pack(codec, members[i]);
      var written :- WriteMember(table, p, offset);
      assert ps[..i + 1] == ps[..i] + [p];
      locals := locals + written.0;
      centrals := centrals + written.1;
      offset := offset + |written.0|;
    }
    assert ps[..|members|] == ps;
    var eocd :- WriteEndRecord(|members|, |centrals|, offset);
    return Ok(locals + centrals + eocd);
  }

  lemma Refused(ps: seq<Packed>, i: nat)
    requires i < |ps|
    ensures !PackedFits(ps[i]) || Offset(ps, i) >= LIMIT32 ==> !Fits(ps)
  {
    assert ps[i] in ps;
    OffsetsAreExact(ps, i);
    LocalsPrefix(ps, i, |ps|);
  }
}
