/** The whole workbook (scripts/fixtures/office.ts): the texts of its parts, as bytes, in the container,
    and what the product's reader (src/platform/parse) finds in that file. */
module WorkbookFile {
  import opened Bytes
  import opened Workbook
  import opened WorkbookParts
  import opened WorkbookSheets
  import opened WorkbookXml
  import opened Wrappers
  import opened Zip
  import opened ZipReader
  import Crc32

  /** `readText` */
  function ReadText(codec: Codec, b: Bytes, budget: Budget, entries: seq<Entry>, name: string)
      : Result<Option<string>, Error> {
    var part :- Read(codec, b, budget, entries, name);
    Ok(match part case None => None case Some(bytes) => Some(codec.decode(bytes)))
  }

  /** Of a part that the archive holds. */
  function TextIn(codec: Codec, b: Bytes, budget: Budget, name: string): Result<string, Error> {
    var entries :- Open(codec, b, budget);
    var text :- ReadText(codec, b, budget, entries, name);
    match text case None => Err(Malformed) case Some(t) => Ok(t)
  }

  /** The shared strings and the part of every sheet are read, and every sheet is found in its part. */
  ghost predicate FileComesBack(codec: Codec, b: Bytes, budget: Budget, sheets: seq<Sheet>) {
    var shared := TextIn(codec, b, budget, "xl/sharedStrings.xml");
    && shared.Ok?
    && forall k :: 0 <= k < |sheets| ==> SheetPartComesBack(codec, b, budget, ReadStrings(shared.value), sheets[k], k)
  }

  ghost predicate SheetPartComesBack(
    codec: Codec, b: Bytes, budget: Budget, strings: seq<string>, sheet: Sheet, k: nat)
  {
    var text := TextIn(codec, b, budget, SheetPart(k + 1));
    text.Ok? && TextComesBack(text.value, strings, sheet)
  }

  function MembersOf(codec: Codec, texts: seq<string>): (members: seq<Member>)
    ensures |members| == |texts|
    ensures forall k :: 0 <= k < |texts| ==> members[k] == Member(PartName(k), codec.encode(texts[k]))
  {
    seq(|texts|, k requires 0 <= k < |texts| => Member(PartName(k), codec.encode(texts[k])))
  }

  lemma TextIsFound(codec: Codec, texts: seq<string>, budget: Budget, k: nat)
    requires codec.Sound() && Fits(PackAll(codec, MembersOf(codec, texts))) && k < |texts|
    requires budget.maxEntryBytes <= budget.maxOutputBytes
    requires Open(codec, Archive(PackAll(codec, MembersOf(codec, texts))), budget).Ok?
    ensures TextIn(codec, Archive(PackAll(codec, MembersOf(codec, texts))), budget, PartName(k)) == Ok(texts[k])
  {
    hide Open, Archive, Fits, Read, PartName;
    EveryPartComesBack(codec, MembersOf(codec, texts), budget, k);
  }

  lemma SheetNames(k: nat)
    ensures PartName(4) == "xl/sharedStrings.xml" && PartName(k + 5) == SheetPart(k + 1)
  {
  }

  /** From the bytes of a workbook, wherever the reader's ceilings let it open, every sheet comes back from
      its own part, each value in its row and column.  The texts of the other four parts are given. */
  method BuildXlsx(codec: Codec, table: array<word>, fixed: seq<string>, sheets: seq<Sheet>)
    returns (file: Result<Bytes, Error>)
    requires codec.Sound() && Crc32.IsTable(table) && |fixed| == 4
    ensures file.Err? ==> file.error == RangeError
    ensures file.Ok? ==> forall budget: Budget ::
      Open(codec, file.value, budget).Ok? && budget.maxEntryBytes <= budget.maxOutputBytes
      ==> FileComesBack(codec, file.value, budget, sheets)
  {
    hide Open, Archive, Fits, TextIn, PartName, SheetPart, TextComesBack, ReadStrings;
    var parts, shared := BuildTexts(sheets);
    var texts := fixed + [shared] + parts;
    file := Write(codec, table, MembersOf(codec, texts));
    if file.Ok? {
      forall budget: Budget | Open(codec, file.value, budget).Ok? && budget.maxEntryBytes <= budget.maxOutputBytes
        ensures FileComesBack(codec, file.value, budget, sheets)
      {
        TextIsFound(codec, texts, budget, 4);
        SheetNames(0);
        forall k | 0 <= k < |sheets|
          ensures SheetPartComesBack(codec, file.value, budget, ReadStrings(shared), sheets[k], k)
        {
          TextIsFound(codec, texts, budget, k + 5);
          SheetNames(k);
        }
      }
    }
  }
}
