/** The product's bounded ZIP reader (src/platform/parse/zip.ts). */
module ZipReader {
  import opened Wrappers
  import opened Bytes
  import opened Zip

  datatype Budget = Budget(maxInputBytes: nat, maxOutputBytes: nat, maxEntries: nat, maxEntryBytes: nat)

  datatype Entry = Entry(name: string, size: nat, rawSize: nat, scheme: nat, offset: nat)

  function U16(b: Bytes, at: nat): Result<nat, Error> {
    if at + 2 <= |b| then Ok(Number(b, at, 2)) else Err(Malformed)
  }

  function U32(b: Bytes, at: nat): Result<nat, Error> {
    if at + 4 <= |b| then Ok(Number(b, at, 4)) else Err(Malformed)
  }

  /** `subarray`, which clamps both ends. */
  function Subarray(b: Bytes, from: nat, to: nat): Bytes {
    var end := if to <= |b| then to else |b|;
    if from <= end then b[from..end] else []
  }

  predicate IsLetter(c: char) {
    'a' <= c <= 'z' || 'A' <= c <= 'Z'
  }

  /** No `..`, no leading separator, no drive letter. */
  predicate SafeName(name: string) {
    && (forall i :: 0 <= i < |name| - 1 ==> !(name[i] == '.' && name[i + 1] == '.'))
    && !(|name| > 0 && (name[0] == '/' || name[0] == '\\'))
    && !(|name| > 1 && IsLetter(name[0]) && name[1] == ':')
  }

  /** The end record is looked for backwards, through the last 65,557 bytes. */
  function FindEnd(b: Bytes): Result<nat, Error> {
    var floor := if |b| < 65557 then 0 else |b| - 65557;
    ScanForEnd(b, |b| - 22, floor)
  }

  function ScanForEnd(b: Bytes, i: int, floor: nat): Result<nat, Error>
    decreases i
  {
    if i < floor then Err(Malformed)
    else if U32(b, i) == Ok(END_SIGNATURE) then Ok(i)
    else ScanForEnd(b, i - 1, floor)
  }

  /** One central directory record, and where the next one starts. */
  function ReadCentral(codec: Codec, b: Bytes, budget: Budget, cursor: nat): Result<(Entry, nat), Error> {
    var signature :- U32(b, cursor);
    if signature != CENTRAL_SIGNATURE then Err(Malformed) else
    var flags :- U16(b, cursor + 8);
    if flags % 2 == 1 then Err(Malformed) else
    var scheme :- U16(b, cursor + 10);
    var size :- U32(b, cursor + 20);
    var rawSize :- U32(b, cursor + 24);
    var nameLength :- U16(b, cursor + 28);
    var extraLength :- U16(b, cursor + 30);
    var commentLength :- U16(b, cursor + 32);
    var offset :- U32(b, cursor + 42);
    var name := codec.decode(Subarray(b, cursor + 46, cursor + 46 + nameLength));
    if !SafeName(name) then Err(Malformed)
    else if rawSize > budget.maxEntryBytes then Err(LimitExceeded)
    else Ok((Entry(name, size, rawSize, scheme, offset), cursor + 46 + nameLength + extraLength + commentLength))
  }

  function Walk(codec: Codec, b: Bytes, budget: Budget, cursor: nat, count: nat): Result<seq<Entry>, Error>
    decreases count
  {
    if count == 0 then Ok([]) else
    var (entry, next) :- ReadCentral(codec, b, budget, cursor);
    var rest :- Walk(codec, b, budget, next, count - 1);
    Ok([entry] + rest)
  }

  function Open(codec: Codec, b: Bytes, budget: Budget): Result<seq<Entry>, Error> {
    if |b| > budget.maxInputBytes then Err(LimitExceeded) else
    var end :- FindEnd(b);
    var count :- U16(b, end + 10);
    if count > budget.maxEntries then Err(Malformed) else
    var cursor :- U32(b, end + 16);
    Walk(codec, b, budget, cursor, count)
  }

  /** Inflation with both limits handed to the decompressor. */
  function Inflate(codec: Codec, data: Bytes, maxInput: nat, maxOutput: nat): Result<Bytes, Error> {
    if |data| > maxInput then Err(LimitExceeded) else
    match codec.inflate(data)
    case None => Err(Malformed)
    case Some(raw) => if |raw| > maxOutput then Err(codec.tooLong) else Ok(raw)
  }

  function ReadEntry(codec: Codec, b: Bytes, budget: Budget, entry: Entry): Result<Bytes, Error> {
    var signature :- U32(b, entry.offset);
    if signature != LOCAL_SIGNATURE then Err(Malformed) else
    var nameLength :- U16(b, entry.offset + 26);
    var extraLength :- U16(b, entry.offset + 28);
    var start := entry.offset + 30 + nameLength + extraLength;
    var data := Subarray(b, start, start + entry.size);
    if entry.scheme == STORED then Ok(data)
    else if entry.scheme != DEFLATED then Err(Malformed)
    else Inflate(codec, data, budget.maxInputBytes,
                 if budget.maxEntryBytes < budget.maxOutputBytes then budget.maxEntryBytes else budget.maxOutputBytes)
  }

  /** The first entry of that name; nothing when there is none. */
  function Read(codec: Codec, b: Bytes, budget: Budget, entries: seq<Entry>, name: string)
      : Result<Option<Bytes>, Error> {
    if entries == [] then Ok(None)
    else if entries[0].name == name then
      var data :- ReadEntry(codec, b, budget, entries[0]);
      Ok(Some(data))
    else Read(codec, b, budget, entries[1..], name)
  }

  // ---------------------------------------------------------------------------------------------
  // Reading back what the writer laid down
  // ---------------------------------------------------------------------------------------------

  /** What the reader makes of each written member. */
  function EntryOf(codec: Codec, ps: seq<Packed>, i: nat): Entry
    requires i < |ps|
  {
    Entry(codec.decode(ps[i].name), |ps[i].data|, |ps[i].raw|, ps[i].scheme, Offset(ps, i))
  }

  function EntriesOf(codec: Codec, ps: seq<Packed>, from: nat): (es: seq<Entry>)
    requires from <= |ps|
    ensures |es| == |ps| - from
    decreases |ps| - from
  {
    if from == |ps| then [] else [EntryOf(codec, ps, from)] + EntriesOf(codec, ps, from + 1)
  }

  lemma {:induction false} EntriesInOrder(codec: Codec, ps: seq<Packed>, from: nat, i: nat)
    requires from <= i < |ps|
    ensures EntriesOf(codec, ps, from)[i - from] == EntryOf(codec, ps, i)
    decreases |ps| - from
  {
    if from < i {
      EntriesInOrder(codec, ps, from + 1, i);
    }
  }

  /** What the reader demands of a member, beyond the archive being well formed. */
  predicate Admissible(codec: Codec, budget: Budget, p: Packed) {
    SafeName(codec.decode(p.name)) && |p.raw| <= budget.maxEntryBytes
  }

  predicate Holds(b: Bytes, at: nat, part: Bytes) {
    at + |part| <= |b| && b[at..at + |part|] == part
  }

  lemma HoldsParts(b: Bytes, at: nat, x: Bytes, y: Bytes)
    requires Holds(b, at, x + y)
    ensures Holds(b, at, x) && Holds(b, at + |x|, y)
  {
    var z := b[at..at + |x + y|];
    assert z[..|x|] == x && z[|x|..] == y;
    assert b[at..at + |x|] == z[..|x|] && b[at + |x|..at + |x| + |y|] == z[|x|..];
  }

  lemma HoldsNumber(b: Bytes, at: nat, part: Bytes)
    requires Holds(b, at, part)
    ensures Number(b, at, |part|) == Number(part, 0, |part|)
  {
    assert part[0..|part|] == part;
    NumberMoves(b, at, part, 0, |part|);
  }

  predicate Reads(b: Bytes, at: nat, n: nat, width: nat) {
    at + width <= |b| && Number(b, at, width) == n
  }

  /** A record of `end` bytes whose every number fits its field. */
  predicate Spans(r: Record, end: nat)
    decreases r
  {
    match r
    case Blank => end == 0
    case Field(before, n, width) => width <= end && n < Limit(width) && Spans(before, end - width)
  }

  /** Every field of a record of `end` bytes stands at its position. */
  predicate Stands(b: Bytes, at: nat, r: Record, end: nat)
    decreases r
  {
    match r
    case Blank => true
    case Field(before, n, width) =>
      width <= end && Reads(b, at + (end - width), n, width) && Stands(b, at, before, end - width)
  }

  /** A record that is in place reads back, every field of it. */
  lemma {:induction false} RecordReadsBack(b: Bytes, at: nat, r: Record, end: nat)
    requires Spans(r, end) && Holds(b, at, r.Render())
    ensures r.Width() == end && Stands(b, at, r, end)
    decreases r
  {
    if r.Field? {
      HoldsParts(b, at, r.before.Render(), Le(r.value, r.width));
      NumberOfLe(r.value, r.width);
      HoldsNumber(b, at + r.before.Width(), Le(r.value, r.width));
      RecordReadsBack(b, at, r.before, end - r.width);
    }
  }

  /** Every field of a directory record, at the positions of APPNOTE section 4.3.12. */
  predicate CentralStands(b: Bytes, at: nat, p: Packed, offset: nat) {
    && U32(b, at) == Ok(CENTRAL_SIGNATURE) && U16(b, at + 4) == Ok(20) && U16(b, at + 6) == Ok(20)
    && U16(b, at + 8) == Ok(0) && U16(b, at + 10) == Ok(p.scheme) && U16(b, at + 12) == Ok(0)
      && U16(b, at + 14) == Ok(0)
    && U32(b, at + 16) == Ok(p.crc) && U32(b, at + 20) == Ok(|p.data|) && U32(b, at + 24) == Ok(|p.raw|)
    && U16(b, at + 28) == Ok(|p.name|) && U16(b, at + 30) == Ok(0) && U16(b, at + 32) == Ok(0)
      && U16(b, at + 34) == Ok(0)
    && U16(b, at + 36) == Ok(0) && U32(b, at + 38) == Ok(0) && U32(b, at + 42) == Ok(offset)
  }

  /** Every field of a local header, at the positions of APPNOTE section 4.3.7. */
  predicate LocalStands(b: Bytes, at: nat, p: Packed) {
    && U32(b, at) == Ok(LOCAL_SIGNATURE) && U16(b, at + 4) == Ok(20) && U16(b, at + 6) == Ok(0)
    && U16(b, at + 8) == Ok(p.scheme) && U16(b, at + 10) == Ok(0) && U16(b, at + 12) == Ok(0)
    && U32(b, at + 14) == Ok(p.crc) && U32(b, at + 18) == Ok(|p.data|) && U32(b, at + 22) == Ok(|p.raw|)
    && U16(b, at + 26) == Ok(|p.name|) && U16(b, at + 28) == Ok(0)
  }

  /** Every field of the end record, at the positions of APPNOTE section 4.3.16. */
  predicate EndStands(b: Bytes, at: nat, count: nat, size: nat, offset: nat) {
    && U32(b, at) == Ok(END_SIGNATURE) && U16(b, at + 4) == Ok(0) && U16(b, at + 6) == Ok(0)
    && U16(b, at + 8) == Ok(count) && U16(b, at + 10) == Ok(count)
    && U32(b, at + 12) == Ok(size) && U32(b, at + 16) == Ok(offset) && U16(b, at + 20) == Ok(0)
  }

  /** The directory record's fields, at the positions of APPNOTE section 4.3.12. */
  lemma CentralFields(b: Bytes, at: nat, p: Packed, offset: nat)
    requires PackedFits(p) && p.scheme < LIMIT16 && offset < LIMIT32
    requires Holds(b, at, CentralRecord(p, offset).Render())
    ensures CentralStands(b, at, p, offset)
    ensures |CentralRecord(p, offset).Render()| == 46
  {
    Limits();
    var r4 := Blank.U32(CENTRAL_SIGNATURE);
    var r6 := r4.U16(20);
    var r8 := r6.U16(20);
    var r10 := r8.U16(0);
    var r12 := r10.U16(p.scheme);
    var r14 := r12.U16(0);
    var r16 := r14.U16(0);
    var r20 := r16.U32(p.crc);
    var r24 := r20.U32(|p.data|);
    var r28 := r24.U32(|p.raw|);
    var r30 := r28.U16(|p.name|);
    var r32 := r30.U16(0);
    var r34 := r32.U16(0);
    var r36 := r34.U16(0);
    var r38 := r36.U16(0);
    var r42 := r38.U32(0);
    var r46 := r42.U32(offset);
    assert Spans(r4, 4) && Spans(r6, 6) && Spans(r8, 8) && Spans(r10, 10) && Spans(r12, 12) && Spans(r14, 14)
        && Spans(r16, 16) && Spans(r20, 20) && Spans(r24, 24) && Spans(r28, 28) && Spans(r30, 30)
        && Spans(r32, 32) && Spans(r34, 34) && Spans(r36, 36) && Spans(r38, 38) && Spans(r42, 42)
        && Spans(r46, 46);
    RecordReadsBack(b, at, r46, 46);
    assert Stands(b, at, r42, 42);
    assert Stands(b, at, r38, 38);
    assert Stands(b, at, r36, 36);
    assert Stands(b, at, r34, 34);
    assert Stands(b, at, r32, 32);
    assert Stands(b, at, r30, 30);
    assert Stands(b, at, r28, 28);
    assert Stands(b, at, r24, 24);
    assert Stands(b, at, r20, 20);
    assert Stands(b, at, r16, 16);
    assert Stands(b, at, r14, 14);
    assert Stands(b, at, r12, 12);
    assert Stands(b, at, r10, 10);
    assert Stands(b, at, r8, 8);
    assert Stands(b, at, r6, 6);
    assert Stands(b, at, r4, 4);
  }

  /** The local header's fields, at the positions of APPNOTE section 4.3.7. */
  lemma LocalFields(b: Bytes, at: nat, p: Packed)
    requires PackedFits(p) && p.scheme < LIMIT16
    requires Holds(b, at, LocalRecord(p).Render())
    ensures LocalStands(b, at, p)
    ensures |LocalRecord(p).Render()| == 30
  {
    Limits();
    var r4 := Blank.U32(LOCAL_SIGNATURE);
    var r6 := r4.U16(20);
    var r8 := r6.U16(0);
    var r10 := r8.U16(p.scheme);
    var r12 := r10.U16(0);
    var r14 := r12.U16(0);
    var r18 := r14.U32(p.crc);
    var r22 := r18.U32(|p.data|);
    var r26 := r22.U32(|p.raw|);
    var r28 := r26.U16(|p.name|);
    var r30 := r28.U16(0);
    assert Spans(r4, 4) && Spans(r6, 6) && Spans(r8, 8) && Spans(r10, 10) && Spans(r12, 12) && Spans(r14, 14)
        && Spans(r18, 18) && Spans(r22, 22) && Spans(r26, 26) && Spans(r28, 28) && Spans(r30, 30);
    RecordReadsBack(b, at, r30, 30);
    assert Stands(b, at, r28, 28);
    assert Stands(b, at, r26, 26);
    assert Stands(b, at, r22, 22);
    assert Stands(b, at, r18, 18);
    assert Stands(b, at, r14, 14);
    assert Stands(b, at, r12, 12);
    assert Stands(b, at, r10, 10);
    assert Stands(b, at, r8, 8);
    assert Stands(b, at, r6, 6);
    assert Stands(b, at, r4, 4);
  }

  /** The end record's fields, at the positions of APPNOTE section 4.3.16. */
  lemma EndFields(b: Bytes, at: nat, count: nat, size: nat, offset: nat)
    requires count < LIMIT16 && size < LIMIT32 && offset < LIMIT32
    requires Holds(b, at, EndRecord(count, size, offset).Render())
    ensures EndStands(b, at, count, size, offset)
    ensures |EndRecord(count, size, offset).Render()| == 22
  {
    Limits();
    var r4 := Blank.U32(END_SIGNATURE);
    var r6 := r4.U16(0);
    var r8 := r6.U16(0);
    var r10 := r8.U16(count);
    var r12 := r10.U16(count);
    var r16 := r12.U32(size);
    var r20 := r16.U32(offset);
    var r22 := r20.U16(0);
    assert Spans(r4, 4) && Spans(r6, 6) && Spans(r8, 8) && Spans(r10, 10) && Spans(r12, 12) && Spans(r16, 16)
        && Spans(r20, 20) && Spans(r22, 22);
    RecordReadsBack(b, at, r22, 22);
    assert Stands(b, at, r20, 20);
    assert Stands(b, at, r16, 16);
    assert Stands(b, at, r12, 12);
    assert Stands(b, at, r10, 10);
    assert Stands(b, at, r8, 8);
    assert Stands(b, at, r6, 6);
    assert Stands(b, at, r4, 4);
  }

  /** A directory record gives back its member, and the length that leads to the next record. */
  lemma DirectoryEntryReadsBack(codec: Codec, b: Bytes, budget: Budget, at: nat, p: Packed, offset: nat)
    requires PackedFits(p) && p.scheme < LIMIT16 && offset < LIMIT32
    requires Holds(b, at, CentralRecord(p, offset).Render()) && Holds(b, at + 46, p.name)
    ensures var r := ReadCentral(codec, b, budget, at);
      && (r.Ok? <==> Admissible(codec, budget, p))
      && (r.Ok? ==> r.value.0 == Entry(codec.decode(p.name), |p.data|, |p.raw|, p.scheme, offset))
      && (r.Ok? ==> r.value.1 == at + 46 + |p.name|)
  {
    CentralFields(b, at, p, offset);
    assert Subarray(b, at + 46, at + 46 + |p.name|) == p.name;
  }

  lemma CentralsGrow(ps: seq<Packed>, i: nat)
    requires i < |ps|
    ensures Centrals(ps, i + 1) == Centrals(ps, i) + Central(ps[i], Offset(ps, i))
  {
    hide Central, Offset;
  }

  /** Directory record `i` is where the records before it end. */
  lemma RecordPlaced(b: Bytes, pre: Bytes, ps: seq<Packed>, post: Bytes, i: nat)
    requires Fits(ps) && b == pre + Centrals(ps, |ps|) + post && i < |ps|
    ensures PackedFits(ps[i]) && Offset(ps, i) < LIMIT32
    ensures Holds(b, |pre| + |Centrals(ps, i)|, Central(ps[i], Offset(ps, i)))
  {
    hide Central, Centrals, Fits, Holds, Offset, PackedFits;
    OffsetInRange(ps, i);
    CentralsPrefix(ps, i + 1, |ps|);
    CentralsGrow(ps, i);
    HoldsNext(b, pre, Centrals(ps, i), Central(ps[i], Offset(ps, i)), Centrals(ps, |ps|), post);
  }

  lemma OffsetInRange(ps: seq<Packed>, i: nat)
    requires Fits(ps) && i < |ps|
    ensures PackedFits(ps[i]) && Offset(ps, i) < LIMIT32
  {
    hide Local, Central;
    assert ps[i] in ps;
    OffsetsAreExact(ps, i);
    LocalsPrefix(ps, i, |ps|);
  }

  lemma HoldsNext(b: Bytes, pre: Bytes, before: Bytes, part: Bytes, all: Bytes, post: Bytes)
    requires b == pre + all + post && before + part <= all
    ensures Holds(b, |pre| + |before|, part)
  {
    var rest := all[|before + part|..];
    assert all == before + part + rest;
    assert b == (pre + before) + part + (rest + post);
  }

  /** The directory is contiguous from its start, and each record tells where the next one is. */
  lemma CentralReadsBack(codec: Codec, b: Bytes, budget: Budget, pre: Bytes, ps: seq<Packed>, post: Bytes, i: nat)
    requires Fits(ps) && i < |ps| && ps[i].scheme < LIMIT16
    requires b == pre + Centrals(ps, |ps|) + post
    ensures var r := ReadCentral(codec, b, budget, |pre| + |Centrals(ps, i)|);
      && (r.Ok? <==> Admissible(codec, budget, ps[i]))
      && (r.Ok? ==> r.value.0 == EntryOf(codec, ps, i))
      && (r.Ok? ==> r.value.1 == |pre| + |Centrals(ps, i + 1)|)
  {
    hide ReadCentral, Admissible, CentralRecord, Holds, Fits, Offset, PackedFits, Record.Render, Record.Width;
    var at, offset := |pre| + |Centrals(ps, i)|, Offset(ps, i);
    RecordPlaced(b, pre, ps, post, i);
    HoldsParts(b, at, CentralRecord(ps[i], offset).Render(), ps[i].name);
    CentralWidth(ps[i], offset);
    DirectoryEntryReadsBack(codec, b, budget, at, ps[i], offset);
  }

  predicate AllAdmissible(codec: Codec, budget: Budget, ps: seq<Packed>, from: nat)
    requires from <= |ps|
  {
    forall j :: from <= j < |ps| ==> Admissible(codec, budget, ps[j])
  }

  lemma {:induction false} WalkReadsBack(codec: Codec, b: Bytes, budget: Budget, pre: Bytes, ps: seq<Packed>,
      post: Bytes, i: nat)
    requires Fits(ps) && (forall p :: p in ps ==> p.scheme < LIMIT16)
    requires b == pre + Centrals(ps, |ps|) + post && i <= |ps|
    ensures var r := Walk(codec, b, budget, |pre| + |Centrals(ps, i)|, |ps| - i);
      && (r.Ok? <==> AllAdmissible(codec, budget, ps, i))
      && (r.Ok? ==> r.value == EntriesOf(codec, ps, i))
    decreases |ps| - i
  {
    hide ReadCentral, Fits, Centrals, Admissible, EntryOf;
    if i < |ps| {
      assert ps[i] in ps;
      CentralReadsBack(codec, b, budget, pre, ps, post, i);
      WalkReadsBack(codec, b, budget, pre, ps, post, i + 1);
    }
  }

  // ---------------------------------------------------------------------------------------------
  // The whole archive
  // ---------------------------------------------------------------------------------------------

  /** The archive ends with the end record, so the backward scan stops at once. */
  lemma EndReadsBack(b: Bytes, front: Bytes, count: nat, size: nat, offset: nat)
    requires count < LIMIT16 && size < LIMIT32 && offset < LIMIT32
    requires b == front + EndRecord(count, size, offset).Render()
    ensures |b| == |front| + 22
    ensures FindEnd(b) == Ok(|b| - 22) && EndStands(b, |b| - 22, count, size, offset)
    ensures U16(b, |b| - 12) == Ok(count) && U32(b, |b| - 6) == Ok(offset)
  {
    assert Holds(b, |front|, EndRecord(count, size, offset).Render());
    EndFields(b, |front|, count, size, offset);
  }

  /** From the end record to the directory. */
  lemma OpenWalks(codec: Codec, b: Bytes, budget: Budget, count: nat, cursor: nat)
    requires |b| >= 22 && FindEnd(b) == Ok(|b| - 22)
    requires U16(b, |b| - 12) == Ok(count) && U32(b, |b| - 6) == Ok(cursor)
    ensures Open(codec, b, budget) ==
      if |b| > budget.maxInputBytes then Err(LimitExceeded)
      else if count > budget.maxEntries then Err(Malformed)
      else Walk(codec, b, budget, cursor, count)
  {
  }

  /** Opening a written archive recovers every member's directory entry, in order; it refuses exactly
      the archives that exceed a budget or hold a name that is not safe. */
  lemma OpenReadsBack(codec: Codec, ps: seq<Packed>, budget: Budget)
    requires Fits(ps) && (forall p :: p in ps ==> p.scheme < LIMIT16)
    ensures var r := Open(codec, Archive(ps), budget);
      && (r.Ok? <==>
            && |Archive(ps)| <= budget.maxInputBytes
            && |ps| <= budget.maxEntries
            && AllAdmissible(codec, budget, ps, 0))
      && (r.Ok? ==> r.value == EntriesOf(codec, ps, 0))
  {
    hide FindEnd, Walk, Locals, Offset, AllAdmissible, EntriesOf, EndRecord;
    var b, locals, centrals := Archive(ps), Locals(ps, |ps|), Centrals(ps, |ps|);
    EndReadsBack(b, locals + centrals, |ps|, |centrals|, |locals|);
    OpenWalks(codec, b, budget, |ps|, |locals|);
    WalkReadsBack(codec, b, budget, locals, ps, EndRecord(|ps|, |centrals|, |locals|).Render(), 0);
  }

  /** The stored offset leads to the member's local header and from there to its payload. */
  lemma PayloadPlaced(b: Bytes, ps: seq<Packed>, post: Bytes, i: nat)
    requires Fits(ps) && i < |ps| && ps[i].scheme < LIMIT16 && b == Locals(ps, |ps|) + post
    ensures var at, p := Offset(ps, i), ps[i];
      && LocalStands(b, at, p)
      && Holds(b, at + 30, p.name) && Holds(b, at + 30 + |p.name|, p.data)
  {
    hide Local, Holds, U16, U32, Offset, PackedFits;
    assert ps[i] in ps;
    OffsetsAreExact(ps, i);
    LocalsPrefix(ps, i + 1, |ps|);
    assert b == [] + Locals(ps, |ps|) + post;
    HoldsNext(b, [], Locals(ps, i), Local(ps[i]), Locals(ps, |ps|), post);
    BlockReadsBack(b, Offset(ps, i), ps[i]);
  }

  lemma BlockReadsBack(b: Bytes, at: nat, p: Packed)
    requires PackedFits(p) && p.scheme < LIMIT16
    requires Holds(b, at, Local(p))
    ensures LocalStands(b, at, p)
    ensures Holds(b, at + 30, p.name) && Holds(b, at + 30 + |p.name|, p.data)
  {
    HoldsParts(b, at, LocalRecord(p).Render() + p.name, p.data);
    HoldsParts(b, at, LocalRecord(p).Render(), p.name);
    LocalFields(b, at, p);
  }

  /** What the reader makes of a payload in place. */
  lemma PayloadReadsBack(codec: Codec, b: Bytes, budget: Budget, entry: Entry, nameSize: nat, data: Bytes)
    requires U32(b, entry.offset) == Ok(LOCAL_SIGNATURE) && entry.size == |data|
    requires U16(b, entry.offset + 26) == Ok(nameSize) && U16(b, entry.offset + 28) == Ok(0)
    requires Holds(b, entry.offset + 30 + nameSize, data)
    requires entry.scheme == STORED || entry.scheme == DEFLATED
    ensures ReadEntry(codec, b, budget, entry) ==
      if entry.scheme == STORED then Ok(data)
      else Inflate(codec, data, budget.maxInputBytes,
                   if budget.maxEntryBytes < budget.maxOutputBytes then budget.maxEntryBytes else budget.maxOutputBytes)
  {
    var start := entry.offset + 30 + nameSize;
    assert Subarray(b, start, start + |data|) == data;
  }

  /** From a directory entry to the payload it points at. */
  lemma EntryLeadsToPayload(codec: Codec, ps: seq<Packed>, budget: Budget, i: nat)
    requires Fits(ps) && i < |ps| && (ps[i].scheme == STORED || ps[i].scheme == DEFLATED)
    ensures ReadEntry(codec, Archive(ps), budget, EntryOf(codec, ps, i)) == Unpacked(codec, budget, ps[i])
  {
    hide ReadEntry, Inflate, Archive, Tail, Locals, Offset, Holds, U16, U32, Fits;
    ArchiveTail(ps);
    PayloadPlaced(Archive(ps), ps, Tail(ps), i);
    PayloadReadsBack(codec, Archive(ps), budget, EntryOf(codec, ps, i), |ps[i].name|, ps[i].data);
  }

  function Unpacked(codec: Codec, budget: Budget, p: Packed): Result<Bytes, Error> {
    if p.scheme == STORED then Ok(p.data)
    else Inflate(codec, p.data, budget.maxInputBytes,
                 if budget.maxEntryBytes < budget.maxOutputBytes then budget.maxEntryBytes else budget.maxOutputBytes)
  }

  /** Unpacking undoes packing, within the limits. */
  lemma PackUndone(codec: Codec, member: Member, budget: Budget)
    requires codec.Sound() && |member.bytes| <= budget.maxEntryBytes
    requires |Pack(codec, member).data| <= budget.maxInputBytes
    ensures Unpacked(codec, budget, Pack(codec, member)) ==
      if Pack(codec, member).scheme == STORED || |member.bytes| <= budget.maxOutputBytes
      then Ok(member.bytes) else Err(codec.tooLong)
  {
  }

  lemma PayloadShorterThanArchive(ps: seq<Packed>, i: nat)
    requires i < |ps|
    ensures |ps[i].data| <= |Archive(ps)|
  {
    LocalsPrefix(ps, i + 1, |ps|);
  }

  /** Reading one entry gives the member's bytes back; a deflated one must also fit the output limit. */
  lemma EntryReadsBack(codec: Codec, members: seq<Member>, budget: Budget, i: nat)
    requires codec.Sound() && i < |members|
    requires var ps := PackAll(codec, members); Fits(ps) && |Archive(ps)| <= budget.maxInputBytes
    requires |members[i].bytes| <= budget.maxEntryBytes
    ensures var ps := PackAll(codec, members);
      ReadEntry(codec, Archive(ps), budget, EntryOf(codec, ps, i)) ==
        if ps[i].scheme == STORED || |members[i].bytes| <= budget.maxOutputBytes
        then Ok(members[i].bytes) else Err(codec.tooLong)
  {
    var ps := PackAll(codec, members);
    EntryLeadsToPayload(codec, ps, budget, i);
    PayloadShorterThanArchive(ps, i);
    PackUndone(codec, members[i], budget);
  }

  function Tail(ps: seq<Packed>): Bytes {
    var locals, centrals := Locals(ps, |ps|), Centrals(ps, |ps|);
    centrals + EndRecord(|ps|, |centrals|, |locals|).Render()
  }

  lemma ArchiveTail(ps: seq<Packed>)
    ensures Archive(ps) == Locals(ps, |ps|) + Tail(ps)
  {
  }

  /** The first entry of a name is the one that is read. */
  lemma {:induction false} ReadFindsFirst(codec: Codec, b: Bytes, budget: Budget, entries: seq<Entry>, i: nat)
    requires i < |entries| && forall j :: 0 <= j < i ==> entries[j].name != entries[i].name
    ensures Read(codec, b, budget, entries, entries[i].name) ==
      match ReadEntry(codec, b, budget, entries[i])
      case Ok(data) => Ok(Some(data))
      case Err(e) => Err(e)
  {
    if i > 0 {
      assert entries[1..][i - 1] == entries[i];
      forall j | 0 <= j < i - 1
        ensures entries[1..][j].name != entries[i].name
      {
        assert entries[1..][j] == entries[j + 1];
      }
      ReadFindsFirst(codec, b, budget, entries[1..], i - 1);
    }
  }

  /** Write, open, read: every member comes back by its name, byte for byte.  Where a name is used
      twice, the first member of that name does. */
  lemma RoundTrip(codec: Codec, members: seq<Member>, budget: Budget, i: nat)
    requires codec.Sound() && i < |members| && Fits(PackAll(codec, members))
    requires Open(codec, Archive(PackAll(codec, members)), budget).Ok?
    requires forall j :: 0 <= j < i ==> members[j].name != members[i].name
    ensures var b := Archive(PackAll(codec, members)); var entries := Open(codec, b, budget).value;
      Read(codec, b, budget, entries, members[i].name) ==
        if PackAll(codec, members)[i].scheme == STORED || |members[i].bytes| <= budget.maxOutputBytes
        then Ok(Some(members[i].bytes)) else Err(codec.tooLong)
  {
    hide Open, Archive, Fits, EntriesOf, Pack, ReadEntry, Read;
    var ps := PackAll(codec, members);
    OpenReadsBack(codec, ps, budget);
    assert Admissible(codec, budget, ps[i]);
    EntryReadsBack(codec, members, budget, i);
    EntriesInOrder(codec, ps, 0, i);
    forall j | 0 <= j < i
      ensures EntriesOf(codec, ps, 0)[j].name != EntriesOf(codec, ps, 0)[i].name
    {
      EntriesInOrder(codec, ps, 0, j);
    }
    ReadFindsFirst(codec, Archive(ps), budget, EntriesOf(codec, ps, 0), i);
  }
}
