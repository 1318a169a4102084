/** The PDF container of scripts/fixtures/office.ts: numbered objects, the cross-reference table and
    the trailer, and a reader that finds its way in as sections 7.5.4 and 7.5.5 of ISO 32000-1 say.

    The file is written as latin1, one character a byte, and so is the model's (FileIsLatin1): a byte is
    the character of its value, and a position in the text is a position in the file. */
module PdfFile {
  import opened Wrappers
  import opened Text
  import PdfText
  import PdfExtract

  datatype Object = Object(dict: string, stream: Option<string>)

  // ---------------------------------------------------------------------------------------------
  // The objects
  // ---------------------------------------------------------------------------------------------

  function InfoId(pages: nat): nat {
    4 + pages * 2
  }

  function Ref(id: nat): string {
    Decimal(id) + " 0 R"
  }

  /** A key of a dictionary, its value, and what follows. */
  function Pair(key: string, value: string, rest: string): string {
    key + (value + rest)
  }

  function Kids(pages: nat): string {
    if pages == 0 then "" else if pages == 1 then Ref(4) else Kids(pages - 1) + (" " + Ref(4 + (pages - 1) * 2))
  }

  function Catalog(): Object {
    Object("<< " + Pair("/Type ", "/Catalog ", Pair("/Pages ", Ref(2) + " ", ">>")), None)
  }

  function PagesNode(pages: nat): Object {
    Object("<< " + Pair("/Type ", "/Pages ",
      Pair("/Kids ", "[" + (Kids(pages) + "] "), Pair("/Count ", Decimal(pages) + " ", ">>"))),
           None)
  }

  function Font(): Object {
    Object("<< " + Pair("/Type ", "/Font ", Pair("/Subtype ", "/Type1 ", Pair("/BaseFont ", "/Helvetica ",
             Pair("/Encoding ", "/WinAnsiEncoding ", ">>")))), None)
  }

  function PageObject(i: nat): Object {
    Object("<< " + Pair("/Type ", "/Page ", Pair("/Parent ", Ref(2) + " ", Pair("/MediaBox ", "[0 0 612 792] ",
             PageResources(Pair("/Contents ", Ref(5 + i * 2) + " ", ">>"))))), None)
  }

  function PageResources(rest: string): string {
    Pair("/Resources ", "<< ", Pair("/Font ", "<< ", Pair("/F1 ", Ref(3) + " ", ">> >> " + rest)))
  }

  function ContentObject(lines: seq<string>, deflate: string -> string): Object {
    var stream := deflate(PdfExtract.Content(lines));
    Object("<< " + Pair("/Length ", Decimal(|stream|) + " ", Pair("/Filter ", "/FlateDecode ", ">>")), Some(stream))
  }

  function Info(title: string): Object {
    Object("<< " + Pair("/Title ", "(" + (PdfText.PdfEscape(title) + ") "),
             Pair("/Producer ", "(GLDI synthetic" + " fixture builder) ", ">>")), None)
  }

  /** What object `id` has to be. */
  function Planned(pages: seq<seq<string>>, title: string, deflate: string -> string, id: nat): Object
    requires 1 <= id <= InfoId(|pages|)
  {
    if id == 1 then Catalog()
    else if id == 2 then PagesNode(|pages|)
    else if id == 3 then Font()
    else if id == InfoId(|pages|) then Info(title)
    else if id % 2 == 0 then PageObject((id - 4) / 2)
    else ContentObject(pages[(id - 5) / 2], deflate)
  }

  /** The program fills a sparse table, two entries a page.  Every id from 1 to the last is filled, and
      with the object that belongs there, so no assignment lands on another's id. */
  method Objects(pages: seq<seq<string>>, title: string, deflate: string -> string) returns (objects: map<nat, Object>)
    ensures forall id: nat :: id in objects <==> 1 <= id <= InfoId(|pages|)
    ensures forall id: nat :: id in objects ==> objects[id] == Planned(pages, title, deflate, id)
  {
    hide Catalog, PagesNode, Font, PageObject, ContentObject, Info;
    objects := map[1 := Catalog(), 2 := PagesNode(|pages|), 3 := Font()];
    for i := 0 to |pages|
      invariant forall id: nat :: id in objects <==> 1 <= id < 4 + i * 2
      invariant forall id: nat :: id in objects ==> objects[id] == Planned(pages, title, deflate, id)
    {
      assert (5 + i * 2 - 5) / 2 == i && (4 + i * 2 - 4) / 2 == i;
      objects := objects[4 + i * 2 := PageObject(i)];
      objects := objects[5 + i * 2 := ContentObject(pages[i], deflate)];
    }
    objects := objects[InfoId(|pages|) := Info(title)];
  }

  // ---------------------------------------------------------------------------------------------
  // The file
  // ---------------------------------------------------------------------------------------------

  const HEADER := "%PDF-1.7\n%\U{e2}\U{e3}\U{cf}\U{d3}\n"

  function ObjectHead(id: nat): string {
    Decimal(id) + " 0 obj\n"
  }

  function ObjectBytes(id: nat, o: Object): string {
    var head := ObjectHead(id) + (o.dict + "\n");
    match o.stream
    case None => head + "endobj\n"
    case Some(stream) => head + "stream\n" + stream + "\nendstream\nendobj\n"
  }

  /** The file up to and with object `n`. */
  function Front(objects: seq<Object>, n: nat): string
    requires n <= |objects|
  {
    if n == 0 then HEADER else Front(objects, n - 1) + ObjectBytes(n, objects[n - 1])
  }

  /** Where object `id` starts. */
  function Position(objects: seq<Object>, id: nat): nat
    requires 1 <= id <= |objects|
  {
    |Front(objects, id - 1)|
  }

  /** `String(n).padStart(10, '0')` */
  function Padded(n: nat): (s: string)
    ensures AllDigits(s)
  {
    PadZeros(Decimal(n), 10)
  }

  function PadZeros(s: string, width: nat): (t: string)
    requires AllDigits(s)
    ensures AllDigits(t) && |t| == if |s| < width then width else |s|
    decreases width - |s|
  {
    if |s| < width then PadZeros("0" + s, width) else s
  }

  /** One entry of the table with the line end that joins it to the next: twenty bytes. */
  function Entry(position: nat): string {
    Padded(position) + " 00000 n \n"
  }

  /** The entries of objects 1 to `n`. */
  function Entries(objects: seq<Object>, n: nat): string
    requires n <= |objects|
  {
    if n == 0 then "" else Entries(objects, n - 1) + Entry(Position(objects, n))
  }

  const FREE_ENTRY := "0000000000 65535 f \n"

  function TableHead(count: nat): string {
    "xref\n" + ("0 " + Decimal(count + 1) + "\n") + FREE_ENTRY
  }

  function Table(objects: seq<Object>): string {
    TableHead(|objects|) + Entries(objects, |objects|)
  }

  function Trailer(count: nat, xrefAt: nat): string {
    "trailer\n" + TrailerDict(count) + "startxref\n" + Decimal(xrefAt) + "\n%%EOF\n"
  }

  function TrailerDict(count: nat): string {
    "<< " + Pair("/Size ", Decimal(count + 1) + " ",
                 Pair("/Root ", Ref(1) + " ", Pair("/Info ", Ref(count) + " ", ">>\n")))
  }

  function File(objects: seq<Object>): string {
    var front := Front(objects, |objects|);
    front + Table(objects) + Trailer(|objects|, |front|)
  }

  /** The objects of a document, in the order of their ids. */
  function PlannedObjects(pages: seq<seq<string>>, title: string, deflate: string -> string): (os: seq<Object>)
    ensures |os| == InfoId(|pages|)
  {
    seq(InfoId(|pages|), i requires 0 <= i < InfoId(|pages|) => Planned(pages, title, deflate, i + 1))
  }

  /** The writer's two passes over the ids: the bodies with their positions, then the table. */
  method BuildPdf(pages: seq<seq<string>>, title: string, deflate: string -> string) returns (file: string)
    ensures file == File(PlannedObjects(pages, title, deflate))
  {
    hide Planned, ObjectBytes, Entry, Trailer, TableHead;
    ghost var planned := PlannedObjects(pages, title, deflate);
    var objects := Objects(pages, title, deflate);
    var infoId := InfoId(|pages|);
    file := HEADER;
    var position := |file|;
    var offsets: seq<nat> := [0];
    for id := 1 to infoId + 1
      invariant file == Front(planned, id - 1) && position == |file|
      invariant |offsets| == id && forall j :: 1 <= j < id ==> offsets[j] == Position(planned, j)
    {
      offsets := offsets + [position];
      var body := ObjectBytes(id, objects[id]);
      file := file + body;
      position := position + |body|;
    }
    var xrefAt := position;
    var table := TableHead(infoId);
    for id := 1 to infoId + 1
      invariant table == TableHead(infoId) + Entries(planned, id - 1)
    {
      table := table + Entry(offsets[id]);
      Associates(TableHead(infoId), Entries(planned, id - 1), Entry(offsets[id]));
    }
    file := file + table + Trailer(infoId, xrefAt);
  }

  // ---------------------------------------------------------------------------------------------
  // A reader's way in
  // ---------------------------------------------------------------------------------------------

  predicate At(file: string, at: nat, text: string) {
    at + |text| <= |file| && file[at..at + |text|] == text
  }

  predicate Ends(s: string, suffix: string) {
    |suffix| <= |s| && s[|s| - |suffix|..] == suffix
  }

  function DigitsBefore(s: string): (n: nat)
    ensures n <= |s| && AllDigits(s[|s| - n..])
  {
    if s == "" || !IsDigit(s[|s| - 1]) then 0 else 1 + DigitsBefore(s[..|s| - 1])
  }

  /** Section 7.5.5: the last line is `%%EOF`, and the two before it are the keyword and the byte
      offset of the table. */
  function FindXref(file: string): Option<nat> {
    if !Ends(file, "\n%%EOF\n") then None else
    var body := file[..|file| - 7];
    var n := DigitsBefore(body);
    if n == 0 || !Ends(body[..|body| - n], "startxref\n") then None else
    Some(ParseDecimal(body[|body| - n..]))
  }

  /** Section 7.5.4: the keyword, a subsection that starts at object 0, and entries of exactly twenty
      bytes, in which the position takes ten. */
  function EntryPosition(file: string, xref: nat, id: nat): Option<nat> {
    if !At(file, xref, "xref\n0 ") then None else
    var section := file[xref + 7..];
    var digits := Span(section, c => IsDigit(c));
    if digits == 0 || digits == |section| || section[digits] != '\n' || id >= ParseDecimal(section[..digits]) then None
    else EntryIn(section[digits + 1..], id)
  }

  function EntryIn(entries: string, id: nat): Option<nat> {
    var at := 20 * id;
    if at + 20 > |entries| || !AllDigits(entries[at..at + 10]) || entries[at + 17] != 'n' then None else
    Some(ParseDecimal(entries[at..at + 10]))
  }

  // ---------------------------------------------------------------------------------------------
  // The trailer leads to the table
  // ---------------------------------------------------------------------------------------------

  lemma {:induction false} DigitsBeforeStops(a: string, b: string)
    requires AllDigits(b) && a != "" && !IsDigit(a[|a| - 1])
    ensures DigitsBefore(a + b) == |b|
  {
    if b == "" {
      assert a + b == a;
    } else {
      assert (a + b)[..|a + b| - 1] == a + b[..|b| - 1];
      DigitsBeforeStops(a, b[..|b| - 1]);
    }
  }

  lemma TrailerLeads(file: string, front: string, number: nat)
    requires file == front + "startxref\n" + Decimal(number) + "\n%%EOF\n"
    ensures FindXref(file) == Some(number)
  {
    hide Decimal, ParseDecimal;
    var head := front + "startxref\n";
    var body := head + Decimal(number);
    assert file[..|file| - 7] == body;
    DigitsBeforeStops(head, Decimal(number));
    assert body[|body| - |Decimal(number)|..] == Decimal(number);
    assert body[..|body| - |Decimal(number)|] == head;
    DecimalParses(number);
  }

  /** `startxref` holds the position of the table, and the keyword `xref` is there. */
  lemma XrefFound(objects: seq<Object>)
    ensures FindXref(File(objects)) == Some(|Front(objects, |objects|)|)
    ensures At(File(objects), |Front(objects, |objects|)|, "xref\n")
  {
    hide Front, Entries, FindXref, Decimal, TrailerDict;
    var front := Front(objects, |objects|);
    var middle := "trailer\n" + TrailerDict(|objects|);
    var before := front + Table(objects) + middle;
    assert File(objects) == before + "startxref\n" + Decimal(|front|) + "\n%%EOF\n";
    TrailerLeads(File(objects), before, |front|);
  }

  // ---------------------------------------------------------------------------------------------
  // The table leads to the objects
  // ---------------------------------------------------------------------------------------------

  const TEN_DIGITS := 10_000_000_000

  lemma {:induction false} PadParses(s: string, width: nat)
    requires AllDigits(s)
    ensures ParseDecimal(PadZeros(s, width)) == ParseDecimal(s)
    decreases width - |s|
  {
    if |s| < width {
      ZeroParses(s);
      PadParses("0" + s, width);
    }
  }

  lemma {:induction false} ZeroParses(s: string)
    requires AllDigits(s)
    ensures ParseDecimal("0" + s) == ParseDecimal(s)
  {
    if s == "" {
      assert ("0" + s)[..0] == "";
    } else {
      assert ("0" + s)[..|s|] == "0" + s[..|s| - 1];
      ZeroParses(s[..|s| - 1]);
    }
  }

  /** The padded position is the position, and takes ten characters exactly when ten can hold it. */
  lemma PaddedWidth(n: nat)
    ensures |Padded(n)| == 10 <==> n < TEN_DIGITS
    ensures |Padded(n)| >= 10
    ensures ParseDecimal(Padded(n)) == n
  {
    hide Decimal, ParseDecimal, PadZeros;
    DecimalWidth(n, 10);
    assert Pow10(10) == TEN_DIGITS;
    PadParses(Decimal(n), 10);
    DecimalParses(n);
  }

  lemma {:induction false} PositionsGrow(objects: seq<Object>, i: nat, j: nat)
    requires 1 <= i <= j <= |objects|
    ensures Position(objects, i) <= Position(objects, j)
  {
    hide ObjectBytes;
    if i < j { PositionsGrow(objects, i, j - 1); }
  }

  lemma {:induction false} EntriesWidth(objects: seq<Object>, n: nat)
    requires n <= |objects| && (n == 0 || Position(objects, n) < TEN_DIGITS)
    ensures |Entries(objects, n)| == 20 * n
  {
    hide Padded, Front;
    if n > 0 {
      if n > 1 { PositionsGrow(objects, n - 1, n); }
      EntriesWidth(objects, n - 1);
      PaddedWidth(Position(objects, n));
    }
  }

  /** The entries from object `id` on start with its own. */
  lemma {:induction false} EntriesSplit(objects: seq<Object>, id: nat, n: nat) returns (rest: string)
    requires 1 <= id <= n <= |objects|
    ensures Entries(objects, n) == Entries(objects, id - 1) + (Entry(Position(objects, id)) + rest)
  {
    hide Entry, Front;
    if id == n {
      rest := "";
      assert Entry(Position(objects, id)) + "" == Entry(Position(objects, id));
    } else {
      var shorter := EntriesSplit(objects, id, n - 1);
      rest := shorter + Entry(Position(objects, n));
      var own := Entry(Position(objects, id));
      Associates(Entries(objects, id - 1), own + shorter, Entry(Position(objects, n)));
      Associates(own, shorter, Entry(Position(objects, n)));
    }
  }

  /** One entry, read where the reader looks for it. */
  lemma EntryReads(before: string, position: nat, after: string, id: nat)
    requires |before| == 20 * id
    ensures position < TEN_DIGITS ==> EntryIn(before + (Entry(position) + after), id) == Some(position)
    ensures position >= TEN_DIGITS ==> EntryIn(before + (Entry(position) + after), id) != Some(position)
  {
    hide Padded, ParseDecimal;
    PaddedWidth(position);
    var digits := Padded(position);
    var entries := before + (Entry(position) + after);
    var at := 20 * id;
    if position < TEN_DIGITS {
      assert Entry(position) == digits + " 00000 n \n";
      assert entries[at..at + 10] == digits;
      assert entries[at + 17] == " 00000 n \n"[7];
    } else {
      assert forall i :: 0 <= i < 10 ==> entries[at..at + 10][i] == digits[i];
      assert |digits| > 10;
      TooWide(digits);
      if at + 20 <= |entries| {
        assert entries[at..at + 10] == digits[..10];
      }
    }
  }

  /** Ten of eleven digits or more are another number. */
  lemma TooWide(digits: string)
    requires AllDigits(digits) && |digits| > 10 && ParseDecimal(digits) >= TEN_DIGITS
    ensures ParseDecimal(digits[..10]) != ParseDecimal(digits)
  {
    hide ParseDecimal;
    PrefixBelow(digits[..10]);
  }

  lemma {:induction false} PrefixBelow(s: string)
    requires AllDigits(s)
    ensures ParseDecimal(s) < Pow10(|s|)
  {
    if s != "" { PrefixBelow(s[..|s| - 1]); }
  }

  lemma SectionRead(front: string, count: nat, rest: string, id: nat)
    requires id < count
    ensures EntryPosition(front + ("xref\n0 " + (Decimal(count) + ("\n" + rest))), |front|, id) == EntryIn(rest, id)
  {
    hide Decimal, ParseDecimal, EntryIn;
    var digits := Decimal(count);
    var section := digits + ("\n" + rest);
    var file := front + ("xref\n0 " + section);
    assert file[|front| + 7..] == section;
    assert file[|front|..|front| + 7] == "xref\n0 ";
    SpanStops(digits, "\n" + rest, c => IsDigit(c));
    assert section[..|digits|] == digits && section[|digits| + 1..] == rest;
    DecimalParses(count);
  }

  lemma TableShape(front: string, count: nat, entries: string, trailer: string)
    ensures front + (TableHead(count) + entries) + trailer
         == front + ("xref\n0 " + (Decimal(count + 1) + ("\n" + (FREE_ENTRY + (entries + trailer)))))
  {
    hide Decimal;
    var digits := Decimal(count + 1);
    assert TableHead(count) + entries + trailer == TableHead(count) + (entries + trailer);
    assert TableHead(count) == "xref\n0 " + (digits + ("\n" + FREE_ENTRY));
  }

  /** The file as the reader of the table sees it. */
  lemma TableRead(objects: seq<Object>, id: nat)
    requires 1 <= id <= |objects|
    ensures EntryPosition(File(objects), |Front(objects, |objects|)|, id)
         == EntryIn(FREE_ENTRY + (Entries(objects, |objects|) + Trailer(|objects|, |Front(objects, |objects|)|)), id)
  {
    hide Front, Entries, Decimal, EntryPosition, EntryIn, Trailer, TableHead;
    var front, n := Front(objects, |objects|), |objects|;
    var trailer := Trailer(n, |front|);
    TableShape(front, n, Entries(objects, n), trailer);
    SectionRead(front, n + 1, FREE_ENTRY + (Entries(objects, n) + trailer), id);
  }

  lemma EntryFound(objects: seq<Object>, id: nat)
    requires 1 <= id <= |objects|
    requires id == 1 || Position(objects, id - 1) < TEN_DIGITS
    ensures EntryPosition(File(objects), |Front(objects, |objects|)|, id) == Some(Position(objects, id))
      <==> Position(objects, id) < TEN_DIGITS
  {
    hide Front, Entries, Entry, EntryIn, Trailer, File;
    var n := |objects|;
    TableRead(objects, id);
    EntriesWidth(objects, id - 1);
    var rest := EntriesSplit(objects, id, n);
    var trailer := Trailer(n, |Front(objects, n)|);
    var own, before := Entry(Position(objects, id)), FREE_ENTRY + Entries(objects, id - 1);
    Associates(Entries(objects, id - 1), own + rest, trailer);
    Associates(own, rest, trailer);
    Associates(FREE_ENTRY, Entries(objects, id - 1), own + (rest + trailer));
    EntryReads(before, Position(objects, id), rest + trailer, id);
  }

  /** The first object whose position does not fit ten digits. */
  lemma {:induction false} FirstTooFar(objects: seq<Object>, n: nat) returns (id: nat)
    requires 1 <= n <= |objects| && Position(objects, n) >= TEN_DIGITS
    ensures 1 <= id <= n && Position(objects, id) >= TEN_DIGITS
    ensures id == 1 || Position(objects, id - 1) < TEN_DIGITS
  {
    if n == 1 || Position(objects, n - 1) < TEN_DIGITS {
      id := n;
    } else {
      id := FirstTooFar(objects, n - 1);
    }
  }

  /** The reader of the table finds every object at its position exactly when the last one starts
      below ten thousand million: the entries are then all twenty bytes. */
  lemma EveryEntryFound(objects: seq<Object>)
    requires objects != []
    ensures Position(objects, |objects|) < TEN_DIGITS <==>
      forall id :: 1 <= id <= |objects| ==>
        EntryPosition(File(objects), |Front(objects, |objects|)|, id) == Some(Position(objects, id))
  {
    hide EntryPosition, File, Position;
    if Position(objects, |objects|) < TEN_DIGITS {
      forall id | 1 <= id <= |objects|
        ensures EntryPosition(File(objects), |Front(objects, |objects|)|, id) == Some(Position(objects, id))
      {
        PositionsGrow(objects, id, |objects|);
        if id > 1 { PositionsGrow(objects, id - 1, |objects|); }
        EntryFound(objects, id);
      }
    } else {
      var id := FirstTooFar(objects, |objects|);
      EntryFound(objects, id);
    }
  }

  /** What stands at a position is the object, its own number first. */
  lemma {:induction false} FrontSplit(objects: seq<Object>, id: nat, n: nat) returns (rest: string)
    requires 1 <= id <= n <= |objects|
    ensures Front(objects, n) == Front(objects, id - 1) + (ObjectBytes(id, objects[id - 1]) + rest)
  {
    hide ObjectBytes;
    var own := ObjectBytes(id, objects[id - 1]);
    if id == n {
      rest := "";
      assert own + "" == own;
    } else {
      var shorter := FrontSplit(objects, id, n - 1);
      rest := shorter + ObjectBytes(n, objects[n - 1]);
      Associates(Front(objects, id - 1), own + shorter, ObjectBytes(n, objects[n - 1]));
      Associates(own, shorter, ObjectBytes(n, objects[n - 1]));
    }
  }

  lemma ObjectStands(objects: seq<Object>, id: nat)
    requires 1 <= id <= |objects|
    ensures At(File(objects), Position(objects, id), ObjectBytes(id, objects[id - 1]))
    ensures At(File(objects), Position(objects, id), Decimal(id) + " 0 obj\n" + objects[id - 1].dict + "\n")
  {
    hide Front, ObjectBytes, Table, Trailer, Decimal;
    var n := |objects|;
    var rest := FrontSplit(objects, id, n);
    var own, before := ObjectBytes(id, objects[id - 1]), Front(objects, id - 1);
    var tail := Table(objects) + Trailer(n, |Front(objects, n)|);
    assert File(objects) == before + (own + (rest + tail));
    ObjectStarts(id, objects[id - 1]);
  }

  lemma ObjectStarts(id: nat, o: Object)
    ensures Decimal(id) + " 0 obj\n" + o.dict + "\n" <= ObjectBytes(id, o)
  {
    hide Decimal;
    assert Decimal(id) + " 0 obj\n" + o.dict + "\n" == ObjectHead(id) + (o.dict + "\n");
  }

  /** Read back from its end, the file of a document leads to every object of its plan, under that
      object's own number: the trailer to the table, the table to the position, the position to the
      object. */
  lemma DocumentReadsBack(pages: seq<seq<string>>, title: string, deflate: string -> string, id: nat)
    requires 1 <= id <= InfoId(|pages|)
    requires Position(PlannedObjects(pages, title, deflate), InfoId(|pages|)) < TEN_DIGITS
    ensures var file := File(PlannedObjects(pages, title, deflate));
      && FindXref(file).Some?
      && EntryPosition(file, FindXref(file).value, id).Some?
      && At(file, EntryPosition(file, FindXref(file).value, id).value,
            ObjectBytes(id, Planned(pages, title, deflate, id)))
  {
    hide Planned, ObjectBytes, Front, File, FindXref, EntryPosition;
    var objects := PlannedObjects(pages, title, deflate);
    XrefFound(objects);
    EveryEntryFound(objects);
    ObjectStands(objects, id);
    assert objects[id - 1] == Planned(pages, title, deflate, id);
  }

  lemma ContentPlanned(pages: seq<seq<string>>, title: string, deflate: string -> string, i: nat)
    requires i < |pages|
    ensures Planned(pages, title, deflate, 5 + i * 2) == ContentObject(pages[i], deflate)
  {
    hide Catalog, PagesNode, Font, PageObject, ContentObject, Info;
    assert (5 + i * 2 - 5) / 2 == i;
  }

  /** The content object of page `i`, decompressed and scanned, gives the page's lines. */
  lemma PageReadsBack(pages: seq<seq<string>>, title: string, deflate: string -> string, inflate: string -> string,
      i: nat)
    requires i < |pages|
    requires forall s :: Latin1(s) ==> inflate(deflate(s)) == s
    ensures var stream := Planned(pages, title, deflate, 5 + i * 2).stream;
      && stream.Some?
      && PdfExtract.Scan(inflate(stream.value), [], "") == "\n" + PdfExtract.Gathered(pages[i]) + "\n\n"
  {
    hide PdfExtract.Scan, PdfExtract.Content, PdfExtract.Gathered, Decimal, Planned;
    ContentPlanned(pages, title, deflate, i);
    PdfExtract.ContentIsLatin1(pages[i]);
    PdfExtract.ContentReadsBack(pages[i]);
  }

  // ---------------------------------------------------------------------------------------------
  // One character a byte
  // ---------------------------------------------------------------------------------------------

  predicate ObjectIsLatin1(o: Object) {
    Latin1(o.dict) && (o.stream.Some? ==> Latin1(o.stream.value))
  }

  lemma Latin1Parts(a: string, b: string, c: string)
    requires Latin1(a) && Latin1(b) && Latin1(c)
    ensures Latin1(a + b + c)
  {
    hide Latin1;
    Latin1Joins(a, b);
    Latin1Joins(a + b, c);
  }

  /** Text of one line in plain ASCII. */
  predicate Printable(s: string) {
    forall i :: 0 <= i < |s| ==> ' ' <= s[i] <= '~'
  }

  lemma PrintableJoins(a: string, b: string)
    requires Printable(a) && Printable(b)
    ensures Printable(a + b)
  {
  }

  lemma PairIsPrintable(key: string, value: string, rest: string)
    requires Printable(key) && Printable(value) && Printable(rest)
    ensures Printable(Pair(key, value, rest))
  {
    hide Printable;
    PrintableJoins(value, rest);
    PrintableJoins(key, value + rest);
  }

  lemma NumberIsPrintable(n: nat)
    ensures Printable(Decimal(n)) && Printable(Decimal(n) + " ") && Printable(Ref(n)) && Printable(Ref(n) + " ")
  {
    hide Decimal;
  }

  lemma {:induction false} KidsArePrintable(pages: nat)
    ensures Printable(Kids(pages))
  {
    hide Ref;
    NumberIsPrintable(4);
    if pages > 1 {
      KidsArePrintable(pages - 1);
      NumberIsPrintable(4 + (pages - 1) * 2);
    }
  }

  lemma Brackets()
    ensures Printable("<< ") && Printable(">>") && Printable(">> >> ") && Printable("[") && Printable("] ")
  {
  }

  lemma CatalogIsPrintable()
    ensures Printable(Catalog().dict)
  {
    hide Printable, Ref, Pair;
    Brackets();
    NumberIsPrintable(2);
    CatalogTexts();
    PairIsPrintable("/Pages ", Ref(2) + " ", ">>");
    PairIsPrintable("/Type ", "/Catalog ", Pair("/Pages ", Ref(2) + " ", ">>"));
    PrintableJoins("<< ", Pair("/Type ", "/Catalog ", Pair("/Pages ", Ref(2) + " ", ">>")));
  }

  lemma CatalogTexts()
    ensures Printable("/Type ") && Printable("/Catalog ") && Printable("/Pages ") && Printable("/Page ")
    ensures Printable("/Kids ") && Printable("/Count ")
  {
  }

  lemma PagesNodeIsPrintable(pages: nat)
    ensures Printable(PagesNode(pages).dict)
  {
    hide Printable, Ref, Pair, Kids, Decimal;
    Brackets();
    NumberIsPrintable(pages);
    KidsArePrintable(pages);
    CatalogTexts();
    PrintableJoins(Kids(pages), "] ");
    PrintableJoins("[", Kids(pages) + "] ");
    var count := Pair("/Count ", Decimal(pages) + " ", ">>");
    PairIsPrintable("/Count ", Decimal(pages) + " ", ">>");
    PairIsPrintable("/Kids ", "[" + (Kids(pages) + "] "), count);
    PairIsPrintable("/Type ", "/Pages ", Pair("/Kids ", "[" + (Kids(pages) + "] "), count));
    PrintableJoins("<< ", Pair("/Type ", "/Pages ", Pair("/Kids ", "[" + (Kids(pages) + "] "), count)));
  }

  lemma FontIsPrintable()
    ensures Printable(Font().dict)
  {
    hide Printable, Pair;
    Brackets();
    CatalogTexts();
    FontTexts();
    var encoding := Pair("/Encoding ", "/WinAnsiEncoding ", ">>");
    var base := Pair("/BaseFont ", "/Helvetica ", encoding);
    PairIsPrintable("/Encoding ", "/WinAnsiEncoding ", ">>");
    PairIsPrintable("/BaseFont ", "/Helvetica ", encoding);
    PairIsPrintable("/Subtype ", "/Type1 ", base);
    PairIsPrintable("/Type ", "/Font ", Pair("/Subtype ", "/Type1 ", base));
    PrintableJoins("<< ", Pair("/Type ", "/Font ", Pair("/Subtype ", "/Type1 ", base)));
  }

  lemma FontTexts()
    ensures Printable("/Font ") && Printable("/Subtype ") && Printable("/Type1 ") && Printable("/BaseFont ")
    ensures Printable("/Helvetica ") && Printable("/Encoding ") && Printable("/WinAnsiEncoding ")
  {
  }

  lemma PageTexts()
    ensures Printable("/Parent ") && Printable("/MediaBox ") && Printable("[0 0 612 792] ") && Printable("/Resources ")
    ensures Printable("/F1 ") && Printable("/Contents ")
  {
  }

  lemma ResourcesArePrintable(rest: string)
    requires Printable(rest)
    ensures Printable(PageResources(rest))
  {
    hide Printable, Pair, Ref;
    Brackets();
    NumberIsPrintable(3);
    FontTexts();
    PageTexts();
    var f1 := Pair("/F1 ", Ref(3) + " ", ">> >> " + rest);
    PrintableJoins(">> >> ", rest);
    PairIsPrintable("/F1 ", Ref(3) + " ", ">> >> " + rest);
    PairIsPrintable("/Font ", "<< ", f1);
    PairIsPrintable("/Resources ", "<< ", Pair("/Font ", "<< ", f1));
  }

  lemma PageObjectIsPrintable(i: nat)
    ensures Printable(PageObject(i).dict)
  {
    hide Printable, Pair, Ref, PageResources;
    Brackets();
    NumberIsPrintable(2);
    NumberIsPrintable(5 + i * 2);
    CatalogTexts();
    PageTexts();
    var contents := Pair("/Contents ", Ref(5 + i * 2) + " ", ">>");
    var box := Pair("/MediaBox ", "[0 0 612 792] ", PageResources(contents));
    PairIsPrintable("/Contents ", Ref(5 + i * 2) + " ", ">>");
    ResourcesArePrintable(contents);
    PairIsPrintable("/MediaBox ", "[0 0 612 792] ", PageResources(contents));
    PairIsPrintable("/Parent ", Ref(2) + " ", box);
    PairIsPrintable("/Type ", "/Page ", Pair("/Parent ", Ref(2) + " ", box));
    PrintableJoins("<< ", Pair("/Type ", "/Page ", Pair("/Parent ", Ref(2) + " ", box)));
  }

  lemma ContentDictIsPrintable(length: nat)
    ensures Printable("<< " + Pair("/Length ", Decimal(length) + " ", Pair("/Filter ", "/FlateDecode ", ">>")))
  {
    hide Printable, Pair, Decimal;
    Brackets();
    NumberIsPrintable(length);
    ContentTexts();
    PairIsPrintable("/Filter ", "/FlateDecode ", ">>");
    PairIsPrintable("/Length ", Decimal(length) + " ", Pair("/Filter ", "/FlateDecode ", ">>"));
    PrintableJoins("<< ", Pair("/Length ", Decimal(length) + " ", Pair("/Filter ", "/FlateDecode ", ">>")));
  }

  lemma ContentTexts()
    ensures Printable("/Length ") && Printable("/Filter ") && Printable("/FlateDecode ")
  {
  }

  lemma PrintableIsLatin1(s: string)
    requires Printable(s)
    ensures Latin1(s)
  {
  }

  lemma ContentObjectIsLatin1(lines: seq<string>, deflate: string -> string)
    requires forall s :: Latin1(s) ==> Latin1(deflate(s))
    ensures ObjectIsLatin1(ContentObject(lines, deflate))
  {
    hide Decimal, PdfExtract.Content, Latin1, Pair;
    PdfExtract.ContentIsLatin1(lines);
    var o := ContentObject(lines, deflate);
    ContentDictIsPrintable(|o.stream.value|);
    PrintableIsLatin1(o.dict);
  }

  lemma InfoIsLatin1(title: string)
    ensures ObjectIsLatin1(Info(title))
  {
    hide PdfText.PdfEscape, Latin1;
    PdfText.EscapedIsLatin1(title);
    InfoTexts();
    var producer := Pair("/Producer ", "(GLDI synthetic" + " fixture builder) ", ">>");
    Latin1Joins("(GLDI synthetic", " fixture builder) ");
    Latin1Joins("(GLDI synthetic" + " fixture builder) ", ">>");
    Latin1Joins("/Producer ", "(GLDI synthetic" + " fixture builder) " + ">>");
    Latin1Joins(PdfText.PdfEscape(title), ") ");
    Latin1Joins("(", PdfText.PdfEscape(title) + ") ");
    Latin1Joins("(" + (PdfText.PdfEscape(title) + ") "), producer);
    Latin1Joins("/Title ", "(" + (PdfText.PdfEscape(title) + ") ") + producer);
    Latin1Joins("<< ", "/Title " + ("(" + (PdfText.PdfEscape(title) + ") ") + producer));
  }

  lemma InfoTexts()
    ensures Latin1("<< ") && Latin1(">>") && Latin1("/Title ") && Latin1("(") && Latin1(") ") && Latin1("/Producer ")
    ensures Latin1("(GLDI synthetic") && Latin1(" fixture builder) ")
  {
  }

  lemma PlannedIsLatin1(pages: seq<seq<string>>, title: string, deflate: string -> string, id: nat)
    requires 1 <= id <= InfoId(|pages|) && forall s :: Latin1(s) ==> Latin1(deflate(s))
    ensures ObjectIsLatin1(Planned(pages, title, deflate, id))
  {
    hide ObjectIsLatin1, Catalog, PagesNode, Font, PageObject, ContentObject, Info;
    FixedAreLatin1(|pages|);
    InfoIsLatin1(title);
    if id >= 4 {
      PageIsLatin1((id - 4) / 2);
      if id % 2 == 1 { ContentObjectIsLatin1(pages[(id - 5) / 2], deflate); }
    }
  }

  lemma FixedAreLatin1(pages: nat)
    ensures ObjectIsLatin1(Catalog()) && ObjectIsLatin1(PagesNode(pages)) && ObjectIsLatin1(Font())
  {
    hide Printable, Latin1, Pair;
    CatalogIsPrintable();
    PrintableIsLatin1(Catalog().dict);
    PagesNodeIsPrintable(pages);
    PrintableIsLatin1(PagesNode(pages).dict);
    FontIsPrintable();
    PrintableIsLatin1(Font().dict);
  }

  lemma PageIsLatin1(i: nat)
    ensures ObjectIsLatin1(PageObject(i))
  {
    hide Printable, Latin1, Pair;
    PageObjectIsPrintable(i);
    PrintableIsLatin1(PageObject(i).dict);
  }

  lemma ObjectBytesAreLatin1(id: nat, o: Object)
    requires ObjectIsLatin1(o)
    ensures Latin1(ObjectBytes(id, o))
  {
    hide Decimal;
    DigitsAreLatin1(Decimal(id));
  }

  lemma HeaderIsLatin1()
    ensures Latin1(HEADER)
  {
  }

  lemma {:induction false} FrontIsLatin1(objects: seq<Object>, n: nat)
    requires n <= |objects| && forall i :: 0 <= i < |objects| ==> ObjectIsLatin1(objects[i])
    ensures Latin1(Front(objects, n))
  {
    hide Latin1, ObjectIsLatin1, ObjectBytes;
    if n == 0 {
      HeaderIsLatin1();
    } else {
      FrontIsLatin1(objects, n - 1);
      ObjectBytesAreLatin1(n, objects[n - 1]);
      Latin1Joins(Front(objects, n - 1), ObjectBytes(n, objects[n - 1]));
    }
  }

  lemma EntryIsLatin1(position: nat)
    ensures Latin1(Entry(position))
  {
    hide Padded;
    DigitsAreLatin1(Padded(position));
  }

  lemma {:induction false} EntriesAreLatin1(objects: seq<Object>, n: nat)
    requires n <= |objects|
    ensures Latin1(Entries(objects, n))
  {
    hide Entry, Position;
    if n > 0 {
      EntriesAreLatin1(objects, n - 1);
      EntryIsLatin1(Position(objects, n));
    }
  }

  lemma TableHeadIsLatin1(count: nat)
    ensures Latin1(TableHead(count))
  {
    hide Decimal;
    DigitsAreLatin1(Decimal(count + 1));
  }

  lemma TrailerIsLatin1(count: nat, xrefAt: nat)
    ensures Latin1(Trailer(count, xrefAt))
  {
    hide Decimal, Latin1, TrailerDict;
    DigitsAreLatin1(Decimal(xrefAt));
    TrailerTexts();
    TrailerDictIsLatin1(count);
    Latin1Parts("trailer\n", TrailerDict(count), "startxref\n");
    Latin1Parts("trailer\n" + TrailerDict(count) + "startxref\n", Decimal(xrefAt), "\n%%EOF\n");
  }

  lemma TrailerDictIsLatin1(count: nat)
    ensures Latin1(TrailerDict(count))
  {
    hide Decimal, Ref;
    NumberIsPrintable(count + 1);
    NumberIsPrintable(1);
    NumberIsPrintable(count);
    TrailerTexts();
    hide Latin1;
    PrintableIsLatin1(Decimal(count + 1) + " ");
    PrintableIsLatin1(Ref(1) + " ");
    PrintableIsLatin1(Ref(count) + " ");
    Latin1Joins(Ref(count) + " ", ">>\n");
    Latin1Joins("/Info ", Ref(count) + " " + ">>\n");
    var info := "/Info " + (Ref(count) + " " + ">>\n");
    Latin1Joins(Ref(1) + " ", info);
    Latin1Joins("/Root ", Ref(1) + " " + info);
    var root := "/Root " + (Ref(1) + " " + info);
    Latin1Joins(Decimal(count + 1) + " ", root);
    Latin1Joins("/Size ", Decimal(count + 1) + " " + root);
    Latin1Joins("<< ", "/Size " + (Decimal(count + 1) + " " + root));
  }

  lemma TrailerTexts()
    ensures Latin1("trailer\n") && Latin1("startxref\n") && Latin1("\n%%EOF\n") && Latin1("<< ")
    ensures Latin1("/Size ") && Latin1("/Root ") && Latin1("/Info ") && Latin1(">>\n")
  {
  }

  /** Whatever the lines and the title, the file holds nothing that latin1 cannot write: its bytes are its
      characters, so that a position counted in characters is one counted in bytes. */
  lemma FileIsLatin1(pages: seq<seq<string>>, title: string, deflate: string -> string)
    requires forall s :: Latin1(s) ==> Latin1(deflate(s))
    ensures var file := File(PlannedObjects(pages, title, deflate));
      Latin1(file) && |ToLatin1(file)| == |file|
  {
    hide Latin1, ObjectIsLatin1, Planned, Front, Table, Trailer, ToLatin1, Entries, TableHead;
    var objects := PlannedObjects(pages, title, deflate);
    forall i | 0 <= i < |objects|
      ensures ObjectIsLatin1(objects[i])
    {
      PlannedIsLatin1(pages, title, deflate, i + 1);
    }
    var front := Front(objects, |objects|);
    FrontIsLatin1(objects, |objects|);
    TableIsLatin1(objects);
    TrailerIsLatin1(|objects|, |front|);
    Latin1Parts(front, Table(objects), Trailer(|objects|, |front|));
    Latin1ComesBackIff(File(objects));
  }

  lemma TableIsLatin1(objects: seq<Object>)
    ensures Latin1(Table(objects))
  {
    hide Latin1, Entries, TableHead;
    TableHeadIsLatin1(|objects|);
    EntriesAreLatin1(objects, |objects|);
    Latin1Joins(TableHead(|objects|), Entries(objects, |objects|));
  }
}
