/** A written container read by others: forward through its local headers alone, as APPNOTE section 4.3.7
    allows of a file without data descriptors, checking sizes and CRC; and the directory and end record
    against what that finds.  The writer is in scripts/fixtures/office.ts. */
module ZipStream {
  import opened Wrappers
  import opened Bytes
  import opened Zip
  import opened ZipReader
  import Crc32

  /** What a local header says of a member, and the member. */
  datatype Item = Item(name: string, scheme: nat, crc: nat, size: nat, rawSize: nat, bytes: Bytes)

  function Unpack(codec: Codec, scheme: nat, data: Bytes): Option<Bytes> {
    if scheme == STORED then Some(data) else if scheme == DEFLATED then codec.inflate(data) else None
  }

  /** One member, and where the next one starts.  A file that needs more than version 2.0, or flags of any
      kind, is refused, and so is a member whose size or check value is not what its header says. */
  function ReadLocal(codec: Codec, b: Bytes, at: nat): (r: Result<(Item, nat), Error>)
    ensures r.Ok? ==> at < r.value.1 <= |b|
  {
    var signature :- U32(b, at);
    var version :- U16(b, at + 4);
    var flags :- U16(b, at + 6);
    var scheme :- U16(b, at + 8);
    var crc :- U32(b, at + 14);
    var size :- U32(b, at + 18);
    var rawSize :- U32(b, at + 22);
    var nameLength :- U16(b, at + 26);
    var extraLength :- U16(b, at + 28);
    var start := at + 30 + nameLength + extraLength;
    if signature != LOCAL_SIGNATURE || version > 20 || flags != 0 || start + size > |b| then Err(Malformed) else
    match Unpack(codec, scheme, b[start..start + size])
    case None => Err(Malformed)
    case Some(bytes) =>
      if |bytes| != rawSize || Crc32.Crc(bytes) != crc then Err(Malformed)
      else Ok((Item(codec.decode(b[at + 30..at + 30 + nameLength]), scheme, crc, size, rawSize, bytes), start + size))
  }

  /** Every member up to the directory, and where that starts. */
  function Forward(codec: Codec, b: Bytes, at: nat): Result<(seq<Item>, nat), Error>
    decreases |b| - at
  {
    var signature :- U32(b, at);
    if signature == CENTRAL_SIGNATURE || signature == END_SIGNATURE then Ok(([], at)) else
    var (item, next) :- ReadLocal(codec, b, at);
    var (rest, end) :- Forward(codec, b, next);
    Ok(([item] + rest, end))
  }

  function ItemOf(codec: Codec, member: Member): Item {
    var p := Pack(codec, member);
    Item(member.name, p.scheme, Crc32.Crc(member.bytes), |p.data|, |member.bytes|, member.bytes)
  }

  function ItemsFrom(codec: Codec, members: seq<Member>, i: nat): (items: seq<Item>)
    requires i <= |members|
    ensures |items| == |members| - i
    decreases |members| - i
  {
    if i == |members| then [] else [ItemOf(codec, members[i])] + ItemsFrom(codec, members, i + 1)
  }

  lemma ItemIsRead(codec: Codec, b: Bytes, at: nat, member: Member)
    requires codec.Sound() && LocalStands(b, at, Pack(codec, member))
    requires var p := Pack(codec, member); Holds(b, at + 30, p.name) && Holds(b, at + 30 + |p.name|, p.data)
    ensures var p := Pack(codec, member);
      ReadLocal(codec, b, at) == Ok((ItemOf(codec, member), at + 30 + |p.name| + |p.data|))
  {
    hide U16, U32, Crc32.Crc;
    UnpackUndoes(codec, member);
  }

  lemma UnpackUndoes(codec: Codec, member: Member)
    requires codec.Sound()
    ensures var p := Pack(codec, member);
      Unpack(codec, p.scheme, p.data) == Some(member.bytes) && codec.decode(p.name) == member.name
  {
    hide Crc32.Crc;
  }

  /** Where the local blocks end the directory starts, or the end record if there are no members. */
  lemma DirectoryFollows(codec: Codec, ps: seq<Packed>)
    requires Fits(ps) && (forall p :: p in ps ==> p.scheme < LIMIT16)
    ensures var signature := U32(Archive(ps), |Locals(ps, |ps|)|);
      signature == Ok(CENTRAL_SIGNATURE) || signature == Ok(END_SIGNATURE)
  {
    hide Locals, Centrals, Offset, PackedFits, EndRecord, U16, U32, Holds, CentralRecord;
    var b, locals, centrals := Archive(ps), Locals(ps, |ps|), Centrals(ps, |ps|);
    if ps == [] {
      NoRecords(ps);
      EndReadsBack(b, locals + centrals, |ps|, |centrals|, |locals|);
    } else {
      var post := EndRecord(|ps|, |centrals|, |locals|).Render();
      NoneYet(ps);
      assert ps[0] in ps;
      RecordPlaced(b, locals, ps, post, 0);
      HoldsParts(b, |locals|, CentralRecord(ps[0], Offset(ps, 0)).Render(), ps[0].name);
      CentralFields(b, |locals|, ps[0], Offset(ps, 0));
    }
  }

  lemma NoRecords(ps: seq<Packed>)
    requires ps == []
    ensures Locals(ps, |ps|) == [] && Centrals(ps, |ps|) == []
  {
  }

  lemma NoneYet(ps: seq<Packed>)
    ensures Centrals(ps, 0) == []
  {
  }

  lemma OneMoreOffset(ps: seq<Packed>, i: nat)
    requires i < |ps|
    ensures Offset(ps, i + 1) == Offset(ps, i) + 30 + |ps[i].name| + |ps[i].data|
  {
  }

  lemma LocalIsNoDirectory(b: Bytes, at: nat, p: Packed)
    requires LocalStands(b, at, p)
    ensures U32(b, at) == Ok(LOCAL_SIGNATURE)
  {
  }

  lemma {:induction false} ForwardFrom(codec: Codec, members: seq<Member>, i: nat)
    requires codec.Sound() && Fits(PackAll(codec, members)) && i <= |members|
    ensures var ps := PackAll(codec, members);
      Forward(codec, Archive(ps), Offset(ps, i)) == Ok((ItemsFrom(codec, members, i), |Locals(ps, |ps|)|))
    decreases |members| - i
  {
    hide ReadLocal, Forward, Fits, Offset, Locals, Archive, Pack, ItemOf, U16, U32, LocalStands, Holds, Tail;
    var ps := PackAll(codec, members);
    OffsetsAreExact(ps, i);
    if i == |members| {
      DirectoryFollows(codec, ps);
      ForwardStops(codec, Archive(ps), Offset(ps, i));
    } else {
      ArchiveTail(ps);
      PayloadPlaced(Archive(ps), ps, Tail(ps), i);
      LocalIsNoDirectory(Archive(ps), Offset(ps, i), ps[i]);
      ItemIsRead(codec, Archive(ps), Offset(ps, i), members[i]);
      OneMoreOffset(ps, i);
      ForwardFrom(codec, members, i + 1);
      ForwardGoesOn(codec, Archive(ps), Offset(ps, i));
    }
  }

  lemma ForwardStops(codec: Codec, b: Bytes, at: nat)
    requires U32(b, at) == Ok(CENTRAL_SIGNATURE) || U32(b, at) == Ok(END_SIGNATURE)
    ensures Forward(codec, b, at) == Ok(([], at))
  {
    hide U32;
  }

  lemma ForwardGoesOn(codec: Codec, b: Bytes, at: nat)
    requires U32(b, at) == Ok(LOCAL_SIGNATURE) && ReadLocal(codec, b, at).Ok?
    requires Forward(codec, b, ReadLocal(codec, b, at).value.1).Ok?
    ensures var (item, next) := ReadLocal(codec, b, at).value;
      var (rest, end) := Forward(codec, b, next).value;
      Forward(codec, b, at) == Ok(([item] + rest, end))
  {
    hide U32, ReadLocal;
  }

  /** Read forward from its first byte, a written archive gives each member in order, with its name, its
      scheme, its check value, both its sizes and its bytes, and ends where the directory starts. */
  lemma ForwardReadsBack(codec: Codec, members: seq<Member>)
    requires codec.Sound() && Fits(PackAll(codec, members))
    ensures var ps := PackAll(codec, members);
      Forward(codec, Archive(ps), 0) == Ok((ItemsFrom(codec, members, 0), |Locals(ps, |ps|)|))
  {
    ForwardFrom(codec, members, 0);
  }

  // ---------------------------------------------------------------------------------------------
  // The directory and the end record against it
  // ---------------------------------------------------------------------------------------------

  /** A directory entry, and a member found at its offset by the forward reader, say the same. */
  predicate Agree(e: Entry, item: Item) {
    e.name == item.name && e.size == item.size && e.rawSize == item.rawSize && e.scheme == item.scheme
  }

  lemma ItemAt(codec: Codec, members: seq<Member>, i: nat, k: nat)
    requires i <= k < |members|
    ensures ItemsFrom(codec, members, i)[k - i] == ItemOf(codec, members[k])
    decreases k - i
  {
    if i < k { ItemAt(codec, members, i + 1, k); }
  }

  /** Wherever the directory can be opened, its entries are the members read forward, one for one, and each
      one's offset is where that member's local header stands. */
  lemma DirectoryAgrees(codec: Codec, members: seq<Member>, budget: Budget, k: nat)
    requires codec.Sound() && Fits(PackAll(codec, members)) && k < |members|
    requires Open(codec, Archive(PackAll(codec, members)), budget).Ok?
    ensures var b := Archive(PackAll(codec, members));
      var entries, forward := Open(codec, b, budget).value, Forward(codec, b, 0);
      && forward.Ok? && |entries| == |forward.value.0| == |members| && Agree(entries[k], forward.value.0[k])
      && ReadLocal(codec, b, entries[k].offset).Ok?
      && ReadLocal(codec, b, entries[k].offset).value.0 == forward.value.0[k]
  {
    hide Open, Forward, ReadLocal, Fits, Offset, Locals, Archive, Pack, U16, U32, LocalStands, Holds, Tail;
    var ps := PackAll(codec, members);
    ForwardReadsBack(codec, members);
    OpenReadsBack(codec, ps, budget);
    EntriesInOrder(codec, ps, 0, k);
    ItemAt(codec, members, 0, k);
    ArchiveTail(ps);
    PayloadPlaced(Archive(ps), ps, Tail(ps), k);
    ItemIsRead(codec, Archive(ps), Offset(ps, k), members[k]);
    UnpackUndoes(codec, members[k]);
  }

  /** The end record is the last 22 bytes.  Its two counts are the number of members, the directory starts
      where the forward reader stopped, and its offset and size lead to the end record itself. */
  lemma EndAgrees(codec: Codec, members: seq<Member>)
    requires codec.Sound() && Fits(PackAll(codec, members))
    ensures var b := Archive(PackAll(codec, members));
      && |b| >= 22 && FindEnd(b) == Ok(|b| - 22) && Forward(codec, b, 0).Ok?
      && var end, start := |b| - 22, Forward(codec, b, 0).value.1;
         && U16(b, end + 8) == Ok(|members|) && U16(b, end + 10) == Ok(|members|)
         && U32(b, end + 16) == Ok(start) && start <= end && U32(b, end + 12) == Ok(end - start)
         && U16(b, end + 4) == Ok(0) && U16(b, end + 6) == Ok(0) && U16(b, end + 20) == Ok(0)
  {
    hide FindEnd, Forward, Locals, Centrals, PackedFits, EndRecord, U16, U32;
    var ps := PackAll(codec, members);
    var locals, centrals := Locals(ps, |ps|), Centrals(ps, |ps|);
    ForwardReadsBack(codec, members);
    EndReadsBack(Archive(ps), locals + centrals, |ps|, |centrals|, |locals|);
  }
}
