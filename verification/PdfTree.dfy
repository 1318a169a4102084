/** The page tree of a written document (scripts/fixtures/office.ts), followed in the text of the file by its
    references: trailer, catalog, pages node, page, content stream, each through the cross-reference table
    as sections 7.5 and 7.7 of ISO 32000-1 say. */
module PdfTree {
  import opened PdfFile
  import opened Search
  import opened Text
  import opened Wrappers
  import PdfExtract
  import PdfText

  // ---------------------------------------------------------------------------------------------
  // The reader
  // ---------------------------------------------------------------------------------------------

  predicate NotLineEnd(c: char) {
    c != '\n'
  }

  predicate IsLetter(c: char) {
    'a' <= c <= 'z' || 'A' <= c <= 'Z'
  }

  function Number(s: string): Option<nat> {
    var digits := Span(s, IsDigit);
    if digits == 0 then None else Some(ParseDecimal(s[..digits]))
  }

  /** `n 0 R`, and what follows. */
  function Reference(s: string): (r: Option<(nat, string)>)
    ensures r.Some? ==> |r.value.1| < |s|
  {
    var digits := Span(s, IsDigit);
    if digits == 0 || !(" 0 R" <= s[digits..]) then None
    else Some((ParseDecimal(s[..digits]), s[digits + 4..]))
  }

  /** References with a blank between them, up to the closing bracket. */
  function References(s: string): Option<seq<nat>>
    decreases |s|
  {
    if "]" <= s then Some([]) else
    var (n, rest) :- Reference(s);
    var others :- References(if " " <= rest then rest[1..] else rest);
    Some([n] + others)
  }

  function ReferenceOf(dict: string, key: string): Option<nat> {
    var value :- After(dict, key);
    var (n, _) :- Reference(value);
    Some(n)
  }

  function NumberOf(dict: string, key: string): Option<nat> {
    var value :- After(dict, key);
    Number(value)
  }

  /** A name without its slash. */
  function NameOf(dict: string, key: string): Option<string> {
    var value :- After(dict, key);
    if !("/" <= value) then None else Some(value[1..][..Span(value[1..], IsLetter)])
  }

  function ReferencesOf(dict: string, key: string): Option<seq<nat>> {
    var value :- After(dict, key);
    if !("[" <= value) then None else References(value[1..])
  }

  /** Where an object stands, by the table that the end of the file leads to. */
  function Located(file: string, id: nat): Option<nat> {
    var xref :- FindXref(file);
    EntryPosition(file, xref, id)
  }

  /** The line after an object's own number: its dictionary. */
  function DictAt(file: string, at: nat, id: nat): Option<string> {
    if !At(file, at, ObjectHead(id)) then None else
    var from := file[at + |ObjectHead(id)|..];
    Some(from[..Span(from, NotLineEnd)])
  }

  function DictOf(file: string, id: nat): Option<string> {
    var at :- Located(file, id);
    DictAt(file, at, id)
  }

  /** The bytes of a stream, as many as its dictionary says, between the two keywords. */
  function StreamAt(file: string, at: nat, id: nat): Option<string> {
    var dict :- DictAt(file, at, id);
    var length :- NumberOf(dict, "/Length ");
    var start := at + |ObjectHead(id)| + |dict|;
    if !At(file, start, "\nstream\n") || !At(file, start + 8 + length, "\nendstream\n") then None
    else Some(file[start + 8..start + 8 + length])
  }

  function TrailerOf(file: string): Option<string> {
    var xref :- FindXref(file);
    if xref > |file| then None else After(file[xref..], "trailer\n")
  }

  /** The object of the pages node, by way of the catalog. */
  function PagesRoot(file: string): Option<nat> {
    var trailer :- TrailerOf(file);
    var root :- ReferenceOf(trailer, "/Root ");
    var catalog :- DictOf(file, root);
    var kind :- NameOf(catalog, "/Type ");
    if kind != "Catalog" then None else ReferenceOf(catalog, "/Pages ")
  }

  /** The pages in order, if the node is one and counts as many. */
  function PageIds(file: string): Option<seq<nat>> {
    var node :- PagesRoot(file);
    var dict :- DictOf(file, node);
    var kind :- NameOf(dict, "/Type ");
    var count :- NumberOf(dict, "/Count ");
    var ids :- ReferencesOf(dict, "/Kids ");
    if kind != "Pages" || count != |ids| then None else Some(ids)
  }

  /** The stream of a page, if the page is one, names the node as its parent, and uses a font that is one. */
  function PageStream(file: string, page: nat): Option<string> {
    var node :- PagesRoot(file);
    var dict :- DictOf(file, page);
    var kind :- NameOf(dict, "/Type ");
    var parent :- ReferenceOf(dict, "/Parent ");
    var font :- ReferenceOf(dict, "/F1 ");
    var fontDict :- DictOf(file, font);
    var fontKind :- NameOf(fontDict, "/Type ");
    var contents :- ReferenceOf(dict, "/Contents ");
    var at :- Located(file, contents);
    var contentDict :- DictAt(file, at, contents);
    var filter :- NameOf(contentDict, "/Filter ");
    if kind != "Page" || parent != node || fontKind != "Font" || filter != "FlateDecode" then None
    else StreamAt(file, at, contents)
  }

  /** The text of page `i`, counted from zero, as the product's scan of its content gathers it. */
  function PageText(file: string, inflate: string -> string, i: nat): Option<string> {
    var ids :- PageIds(file);
    if i >= |ids| then None else
    var stream :- PageStream(file, ids[i]);
    Some(PdfExtract.Scan(inflate(stream), [], ""))
  }

  /** The title, as a literal string of the information dictionary. */
  function TitleOf(file: string): Option<string> {
    var trailer :- TrailerOf(file);
    var info :- ReferenceOf(trailer, "/Info ");
    var at :- Located(file, info);
    if !At(file, at, ObjectHead(info)) then None else
    var value :- After(file[at + |ObjectHead(info)|..], "/Title ");
    Some(PdfText.ReadLiteral(value, 0, "").0)
  }

  // ---------------------------------------------------------------------------------------------
  // Numbers, references and keys
  // ---------------------------------------------------------------------------------------------

  lemma NumberRead(n: nat, rest: string)
    requires rest == "" || !IsDigit(rest[0])
    ensures Number(Decimal(n) + rest) == Some(n)
  {
    hide Decimal, ParseDecimal;
    SpanStops(Decimal(n), rest, IsDigit);
    assert (Decimal(n) + rest)[..|Decimal(n)|] == Decimal(n);
    DecimalParses(n);
  }

  lemma ReferenceRead(n: nat, rest: string)
    ensures Reference(Decimal(n) + (" 0 R" + rest)) == Some((n, rest))
  {
    hide Decimal, ParseDecimal;
    var digits, tail := Decimal(n), " 0 R" + rest;
    SpanStops(digits, tail, IsDigit);
    assert (digits + tail)[..|digits|] == digits && (digits + tail)[|digits|..] == tail;
    assert (digits + tail)[|digits| + 4..] == rest;
    DecimalParses(n);
  }

  /** The key of a pair is found where the pair is. */
  lemma PairHere(key: string, value: string, rest: string)
    ensures After(Pair(key, value, rest), key) == Some(value + rest)
  {
    hide After;
    AfterHere(key, value + rest);
  }

  /** A pair of another key is passed over. */
  lemma PairPassed(other: string, value: string, rest: string, key: string)
    requires Quiet(other, key) && Quiet(value, key)
    ensures After(Pair(other, value, rest), key) == After(rest, key)
  {
    hide After, Quiet;
    AfterSkips(other, value + rest, key);
    AfterSkips(value, rest, key);
  }

  lemma ReferenceIs(dict: string, key: string, n: nat, rest: string)
    requires After(dict, key) == Some(Ref(n) + " " + rest)
    ensures ReferenceOf(dict, key) == Some(n)
  {
    hide Decimal, Reference, After;
    assert Ref(n) + " " + rest == Decimal(n) + (" 0 R" + (" " + rest));
    ReferenceRead(n, " " + rest);
  }

  lemma NumberIs(dict: string, key: string, n: nat, rest: string)
    requires After(dict, key) == Some(Decimal(n) + " " + rest)
    ensures NumberOf(dict, key) == Some(n)
  {
    hide Decimal, Number, After;
    Associates(Decimal(n), " ", rest);
    NumberRead(n, " " + rest);
  }

  /** `name` comes with its slash and a blank. */
  lemma NameIs(dict: string, key: string, name: string, rest: string)
    requires After(dict, key) == Some("/" + (name + " ") + rest)
    requires forall i :: 0 <= i < |name| ==> IsLetter(name[i])
    ensures NameOf(dict, key) == Some(name)
  {
    hide After;
    var value := "/" + (name + " ") + rest;
    assert value[1..] == name + (" " + rest);
    SpanStops(name, " " + rest, IsLetter);
    assert (name + (" " + rest))[..|name|] == name;
  }

  lemma NumberIsQuiet(n: nat, key: string)
    requires key != "" && key[0] == '/'
    ensures Quiet(Decimal(n) + " ", key) && Quiet(Ref(n) + " ", key)
  {
    hide Decimal;
    NoStartIsQuiet(Decimal(n) + " ", key);
    NoStartIsQuiet(Ref(n) + " ", key);
  }

  lemma {:induction false} KidsAreQuiet(pages: nat, key: string)
    requires key != "" && key[0] == '/'
    ensures forall i :: 0 <= i < |Kids(pages)| ==> Kids(pages)[i] != '/'
  {
    hide Decimal;
    if pages > 1 { KidsAreQuiet(pages - 1, key); }
  }

  // ---------------------------------------------------------------------------------------------
  // An object in place
  // ---------------------------------------------------------------------------------------------

  predicate OneLine(s: string) {
    forall i :: 0 <= i < |s| ==> NotLineEnd(s[i])
  }

  lemma InPlace(file: string, at: nat, a: string, b: string)
    requires At(file, at, a + b)
    ensures At(file, at, a) && At(file, at + |a|, b) && file[at + |a|..] == b + file[at + |a + b|..]
  {
    assert file[at..at + |a|] == (a + b)[..|a|];
    assert file[at + |a|..at + |a| + |b|] == (a + b)[|a|..];
    assert file[at + |a|..] == file[at + |a|..at + |a| + |b|] + file[at + |a| + |b|..];
  }

  lemma DictRead(file: string, at: nat, id: nat, dict: string, rest: string)
    requires At(file, at, ObjectHead(id) + (dict + ("\n" + rest))) && OneLine(dict)
    ensures DictAt(file, at, id) == Some(dict)
  {
    hide ObjectHead;
    InPlace(file, at, ObjectHead(id), dict + ("\n" + rest));
    var after := file[at + |ObjectHead(id) + (dict + ("\n" + rest))|..];
    Associates(dict, "\n" + rest, after);
    SpanStops(dict, "\n" + rest + after, NotLineEnd);
    assert (dict + ("\n" + rest + after))[..|dict|] == dict;
  }

  /** What an object's bytes are after its dictionary. */
  function Body(o: Object): string {
    match o.stream
    case None => "\nendobj\n"
    case Some(stream) => "\nstream\n" + (stream + ("\nendstream\n" + "endobj\n"))
  }

  lemma BytesShape(id: nat, o: Object)
    ensures ObjectBytes(id, o) == ObjectHead(id) + (o.dict + Body(o))
  {
    hide ObjectHead;
    if o.stream.Some? {
      var head, stream := ObjectHead(id) + (o.dict + "\n"), o.stream.value;
      assert "\nstream\n" == "\n" + "stream\n" && "\nendstream\nendobj\n" == "\nendstream\n" + "endobj\n";
      assert ObjectBytes(id, o) == head + "stream\n" + stream + "\nendstream\nendobj\n";
    } else {
      assert "\nendobj\n" == "\n" + "endobj\n";
    }
  }

  lemma BodyOnNextLine(o: Object) returns (rest: string)
    ensures Body(o) == "\n" + rest
  {
    rest := Body(o)[1..];
  }

  /** The table leads to an object, and there it stands. */
  predicate Leads(file: string, id: nat, o: Object) {
    var at := Located(file, id);
    at.Some? && At(file, at.value, ObjectBytes(id, o))
  }

  lemma DictIs(file: string, id: nat, o: Object)
    requires Leads(file, id, o) && OneLine(o.dict)
    ensures DictAt(file, Located(file, id).value, id) == Some(o.dict) && DictOf(file, id) == Some(o.dict)
  {
    hide ObjectHead, ObjectBytes, Located, DictAt, At, Body;
    BytesShape(id, o);
    var rest := BodyOnNextLine(o);
    DictRead(file, Located(file, id).value, id, o.dict, rest);
  }

  lemma StreamIs(file: string, id: nat, o: Object)
    requires Leads(file, id, o) && OneLine(o.dict) && o.stream.Some?
    requires NumberOf(o.dict, "/Length ") == Some(|o.stream.value|)
    ensures StreamAt(file, Located(file, id).value, id) == o.stream
  {
    hide ObjectHead, ObjectBytes, Located, DictAt, NumberOf, At, Body, OneLine;
    DictIs(file, id, o);
    BytesShape(id, o);
    StreamParts(file, Located(file, id).value, ObjectHead(id), o);
  }

  lemma StreamParts(file: string, at: nat, head: string, o: Object)
    requires o.stream.Some? && At(file, at, head + (o.dict + Body(o)))
    ensures var start, stream := at + |head| + |o.dict|, o.stream.value;
      && At(file, start, "\nstream\n") && At(file, start + 8 + |stream|, "\nendstream\n")
      && start + 8 + |stream| <= |file| && file[start + 8..start + 8 + |stream|] == stream
  {
    hide At;
    SixParts(file, at, head, o.dict, "\nstream\n", o.stream.value, "\nendstream\n", "endobj\n");
    Cut(file, at + |head| + |o.dict| + 8, o.stream.value);
  }

  lemma SixParts(file: string, at: nat, a: string, b: string, c: string, d: string, e: string, f: string)
    requires At(file, at, a + (b + (c + (d + (e + f)))))
    ensures var start := at + |a| + |b|;
      && At(file, start, c) && At(file, start + |c|, d) && At(file, start + |c| + |d|, e)
  {
    hide At;
    InParts(file, at, a, b + (c + (d + (e + f))));
    InParts(file, at + |a|, b, c + (d + (e + f)));
    InParts(file, at + |a| + |b|, c, d + (e + f));
    InParts(file, at + |a| + |b| + |c|, d, e + f);
    InParts(file, at + |a| + |b| + |c| + |d|, e, f);
  }

  lemma InParts(file: string, at: nat, a: string, b: string)
    requires At(file, at, a + b)
    ensures At(file, at, a) && At(file, at + |a|, b)
  {
    InPlace(file, at, a, b);
  }

  lemma Cut(file: string, at: nat, a: string)
    requires At(file, at, a)
    ensures at + |a| <= |file| && file[at..at + |a|] == a
  {
  }

  // ---------------------------------------------------------------------------------------------
  // The dictionaries
  // ---------------------------------------------------------------------------------------------

  lemma PrintableIsOneLine(s: string)
    requires Printable(s)
    ensures OneLine(s)
  {
  }

  lemma QuietStart(key: string)
    requires key != "" && key[0] == '/'
    ensures Quiet("<< ", key)
  {
    NoStartIsQuiet("<< ", key);
  }

  lemma TypeKeys()
    ensures Quiet("/Type ", "/Pages ") && Quiet("/Type ", "/Count ") && Quiet("/Type ", "/Kids ")
    ensures Quiet("/Type ", "/Parent ") && Quiet("/Type ", "/F1 ") && Quiet("/Type ", "/Contents ")
  {
    SlashIsQuiet("/Type ", "/Pages ");
    SlashIsQuiet("/Type ", "/Count ");
    SlashIsQuiet("/Type ", "/Kids ");
    SlashIsQuiet("/Type ", "/Parent ");
    SlashIsQuiet("/Type ", "/F1 ");
    SlashIsQuiet("/Type ", "/Contents ");
  }

  lemma TypeNames()
    ensures Quiet("/Catalog ", "/Pages ") && Quiet("/Pages ", "/Kids ") && Quiet("/Pages ", "/Count ")
    ensures Quiet("/Page ", "/Parent ") && Quiet("/Page ", "/F1 ") && Quiet("/Page ", "/Contents ")
  {
    SlashIsQuiet("/Catalog ", "/Pages ");
    SlashIsQuiet("/Pages ", "/Kids ");
    SlashIsQuiet("/Pages ", "/Count ");
    SlashIsQuiet("/Page ", "/Parent ");
    SlashIsQuiet("/Page ", "/F1 ");
    SlashIsQuiet("/Page ", "/Contents ");
  }

  /** The type is the first pair of a dictionary. */
  lemma TypeIs(name: string, rest: string)
    requires forall i :: 0 <= i < |name| ==> IsLetter(name[i])
    ensures NameOf("<< " + Pair("/Type ", "/" + (name + " "), rest), "/Type ") == Some(name)
  {
    hide After, NameOf, Pair, Quiet;
    QuietStart("/Type ");
    AfterSkips("<< ", Pair("/Type ", "/" + (name + " "), rest), "/Type ");
    PairHere("/Type ", "/" + (name + " "), rest);
    NameIs("<< " + Pair("/Type ", "/" + (name + " "), rest), "/Type ", name, rest);
  }

  lemma Names()
    ensures "/Catalog " == "/" + ("Catalog" + " ") && "/Pages " == "/" + ("Pages" + " ")
    ensures "/Page " == "/" + ("Page" + " ") && "/Font " == "/" + ("Font" + " ")
    ensures "/FlateDecode " == "/" + ("FlateDecode" + " ")
  {
  }

  lemma CatalogSays()
    ensures var dict := Catalog().dict;
      OneLine(dict) && NameOf(dict, "/Type ") == Some("Catalog") && ReferenceOf(dict, "/Pages ") == Some(2)
  {
    hide After, Pair, Quiet, NameOf, Printable, OneLine, ReferenceOf, Ref;
    CatalogIsPrintable();
    PrintableIsOneLine(Catalog().dict);
    var node := Pair("/Pages ", Ref(2) + " ", ">>");
    Names();
    TypeIs("Catalog", node);
    TypeKeys();
    TypeNames();
    QuietStart("/Pages ");
    AfterSkips("<< ", Pair("/Type ", "/Catalog ", node), "/Pages ");
    PairPassed("/Type ", "/Catalog ", node, "/Pages ");
    PairHere("/Pages ", Ref(2) + " ", ">>");
    ReferenceIs(Catalog().dict, "/Pages ", 2, ">>");
  }

  // ---------------------------------------------------------------------------------------------
  // The kids
  // ---------------------------------------------------------------------------------------------

  /** The references of pages `i` to `n`, from the front. */
  function KidsFrom(i: nat, n: nat): string
    requires i < n
    decreases n - i
  {
    if i + 1 == n then Ref(4 + i * 2) else Ref(4 + i * 2) + (" " + KidsFrom(i + 1, n))
  }

  lemma {:induction false} KidsGrow(i: nat, n: nat)
    requires i + 1 < n
    ensures KidsFrom(i, n) == KidsFrom(i, n - 1) + (" " + Ref(4 + (n - 1) * 2))
    decreases n - i
  {
    hide Ref;
    if i + 2 < n {
      KidsGrow(i + 1, n);
      Associates(" ", KidsFrom(i + 1, n - 1), " " + Ref(4 + (n - 1) * 2));
      Associates(Ref(4 + i * 2), " " + KidsFrom(i + 1, n - 1), " " + Ref(4 + (n - 1) * 2));
    }
  }

  lemma {:induction false} KidsAreFrom(n: nat)
    requires n > 0
    ensures Kids(n) == KidsFrom(0, n)
  {
    hide Ref;
    if n > 1 {
      KidsAreFrom(n - 1);
      KidsGrow(0, n);
    }
  }

  function Ids(i: nat, n: nat): (ids: seq<nat>)
    requires i <= n
    ensures |ids| == n - i && forall k :: 0 <= k < n - i ==> ids[k] == 4 + (i + k) * 2
    decreases n - i
  {
    if i == n then [] else [4 + i * 2] + Ids(i + 1, n)
  }

  lemma ReferenceAndMore(n: nat, rest: string)
    ensures Reference(Ref(n) + rest) == Some((n, rest)) && !("]" <= Ref(n) + rest)
  {
    hide Reference, Decimal;
    Associates(Decimal(n), " 0 R", rest);
    ReferenceRead(n, rest);
    assert (Ref(n) + rest)[0] == Decimal(n)[0];
  }

  lemma LastReference(rest: string)
    ensures References("]" + rest) == Some([]) && !(" " <= "]" + rest)
  {
    assert ("]" + rest)[0] == ']';
    assert "]" <= "]" + rest;
  }

  lemma {:induction false} ReferencesRead(i: nat, n: nat, rest: string)
    requires i < n
    ensures References(KidsFrom(i, n) + ("]" + rest)) == Some(Ids(i, n))
    decreases n - i
  {
    hide Ref, Reference;
    if i + 1 == n {
      ReferenceAndMore(4 + i * 2, "]" + rest);
      LastReference(rest);
    } else {
      var more := KidsFrom(i + 1, n) + ("]" + rest);
      Associates(Ref(4 + i * 2), " " + KidsFrom(i + 1, n), "]" + rest);
      Associates(" ", KidsFrom(i + 1, n), "]" + rest);
      ReferenceAndMore(4 + i * 2, " " + more);
      assert (" " + more)[1..] == more;
      ReferencesRead(i + 1, n, rest);
    }
  }

  lemma AllReferencesRead(n: nat, rest: string)
    ensures References(Kids(n) + ("]" + rest)) == Some(Ids(0, n))
  {
    if n == 0 {
      LastReference(rest);
      assert Kids(0) + ("]" + rest) == "]" + rest;
    } else {
      KidsAreFrom(n);
      ReferencesRead(0, n, rest);
    }
  }

  lemma PagesNodeSays(pages: nat)
    ensures var dict := PagesNode(pages).dict;
      && OneLine(dict) && NameOf(dict, "/Type ") == Some("Pages")
      && NumberOf(dict, "/Count ") == Some(pages) && ReferencesOf(dict, "/Kids ") == Some(Ids(0, pages))
  {
    hide After, Pair, Quiet, NameOf, Printable, OneLine, NumberOf, References, Kids, Decimal;
    PagesNodeIsPrintable(pages);
    PrintableIsOneLine(PagesNode(pages).dict);
    var list, count := "[" + (Kids(pages) + "] "), Pair("/Count ", Decimal(pages) + " ", ">>");
    var kids := Pair("/Kids ", list, count);
    Names();
    TypeIs("Pages", kids);
    TypeKeys();
    TypeNames();
    QuietStart("/Kids ");
    AfterSkips("<< ", Pair("/Type ", "/Pages ", kids), "/Kids ");
    PairPassed("/Type ", "/Pages ", kids, "/Kids ");
    PairHere("/Kids ", list, count);
    KidsList(pages, count);
    AllReferencesRead(pages, " " + count);
    QuietStart("/Count ");
    AfterSkips("<< ", Pair("/Type ", "/Pages ", kids), "/Count ");
    PairPassed("/Type ", "/Pages ", kids, "/Count ");
    KidsListIsQuiet(pages);
    PairPassed("/Kids ", list, count, "/Count ");
    PairHere("/Count ", Decimal(pages) + " ", ">>");
    NumberIs(PagesNode(pages).dict, "/Count ", pages, ">>");
  }

  lemma KidsList(pages: nat, count: string)
    ensures "[" <= "[" + (Kids(pages) + "] ") + count
    ensures ("[" + (Kids(pages) + "] ") + count)[1..] == Kids(pages) + ("]" + (" " + count))
  {
    hide Kids;
    assert "] " == "]" + " ";
  }

  lemma KidsListIsQuiet(pages: nat)
    ensures Quiet("/Kids ", "/Count ") && Quiet("[" + (Kids(pages) + "] "), "/Count ")
  {
    SlashIsQuiet("/Kids ", "/Count ");
    KidsAreQuiet(pages, "/Count ");
    NoStartIsQuiet("[" + (Kids(pages) + "] "), "/Count ");
  }

  // ---------------------------------------------------------------------------------------------
  // A page, its font and its content
  // ---------------------------------------------------------------------------------------------

  lemma BoxKeys(key: string)
    requires key == "/F1 " || key == "/Contents "
    ensures Quiet("/Parent ", key) && Quiet("/MediaBox ", key) && Quiet("[0 0 612 792] ", key)
  {
    SlashIsQuiet("/Parent ", key);
    SlashIsQuiet("/MediaBox ", key);
    NoStartIsQuiet("[0 0 612 792] ", key);
  }

  lemma ResourceKeys(key: string)
    requires key == "/F1 " || key == "/Contents "
    ensures Quiet("/Resources ", key) && Quiet("/Font ", key) && Quiet("<< ", key) && Quiet(">> >> ", key)
  {
    SlashIsQuiet("/Resources ", key);
    SlashIsQuiet("/Font ", key);
    NoStartIsQuiet("<< ", key);
    NoStartIsQuiet(">> >> ", key);
  }

  /** The resources name the font object, and what follows them is found past them. */
  lemma ResourcesSay(rest: string)
    ensures After(PageResources(rest), "/F1 ") == Some(Ref(3) + " " + (">> >> " + rest))
    ensures After(PageResources(rest), "/Contents ") == After(rest, "/Contents ")
  {
    hide After, Pair, Quiet, Ref;
    var f1 := Pair("/F1 ", Ref(3) + " ", ">> >> " + rest);
    var font := Pair("/Font ", "<< ", f1);
    ResourceKeys("/F1 ");
    PairPassed("/Resources ", "<< ", font, "/F1 ");
    PairPassed("/Font ", "<< ", f1, "/F1 ");
    PairHere("/F1 ", Ref(3) + " ", ">> >> " + rest);
    ResourceKeys("/Contents ");
    PairPassed("/Resources ", "<< ", font, "/Contents ");
    PairPassed("/Font ", "<< ", f1, "/Contents ");
    FontKey();
    NumberIsQuiet(3, "/Contents ");
    PairPassed("/F1 ", Ref(3) + " ", ">> >> " + rest, "/Contents ");
    AfterSkips(">> >> ", rest, "/Contents ");
  }

  lemma FontKey()
    ensures Quiet("/F1 ", "/Contents ")
  {
    SlashIsQuiet("/F1 ", "/Contents ");
  }

  /** Up to its resources a page's dictionary holds neither of these keys. */
  lemma PageFront(key: string, rest: string)
    requires key == "/F1 " || key == "/Contents "
    ensures After("<< " + Pair("/Type ", "/Page ",
      Pair("/Parent ", Ref(2) + " ", Pair("/MediaBox ", "[0 0 612 792] ", rest))), key)
         == After(rest, key)
  {
    hide After, Pair, Quiet, Ref;
    var box := Pair("/MediaBox ", "[0 0 612 792] ", rest);
    var parent := Pair("/Parent ", Ref(2) + " ", box);
    QuietStart(key);
    AfterSkips("<< ", Pair("/Type ", "/Page ", parent), key);
    TypeKeys();
    TypeNames();
    PairPassed("/Type ", "/Page ", parent, key);
    BoxKeys(key);
    NumberIsQuiet(2, key);
    PairPassed("/Parent ", Ref(2) + " ", box, key);
    PairPassed("/MediaBox ", "[0 0 612 792] ", rest, key);
  }

  lemma PageSays(i: nat)
    ensures var dict := PageObject(i).dict;
      && OneLine(dict) && NameOf(dict, "/Type ") == Some("Page") && ReferenceOf(dict, "/Parent ") == Some(2)
      && ReferenceOf(dict, "/F1 ") == Some(3) && ReferenceOf(dict, "/Contents ") == Some(5 + i * 2)
  {
    hide After, Pair, Quiet, NameOf, Printable, OneLine, ReferenceOf, Ref, PageResources;
    PageObjectIsPrintable(i);
    PrintableIsOneLine(PageObject(i).dict);
    var contents := Pair("/Contents ", Ref(5 + i * 2) + " ", ">>");
    var box := Pair("/MediaBox ", "[0 0 612 792] ", PageResources(contents));
    var parent := Pair("/Parent ", Ref(2) + " ", box);
    Names();
    TypeIs("Page", parent);
    TypeKeys();
    TypeNames();
    QuietStart("/Parent ");
    AfterSkips("<< ", Pair("/Type ", "/Page ", parent), "/Parent ");
    PairPassed("/Type ", "/Page ", parent, "/Parent ");
    PairHere("/Parent ", Ref(2) + " ", box);
    ReferenceIs(PageObject(i).dict, "/Parent ", 2, box);
    ResourcesSay(contents);
    PageFront("/F1 ", PageResources(contents));
    ReferenceIs(PageObject(i).dict, "/F1 ", 3, ">> >> " + contents);
    PageFront("/Contents ", PageResources(contents));
    PairHere("/Contents ", Ref(5 + i * 2) + " ", ">>");
    ReferenceIs(PageObject(i).dict, "/Contents ", 5 + i * 2, ">>");
  }

  lemma FontSays()
    ensures OneLine(Font().dict) && NameOf(Font().dict, "/Type ") == Some("Font")
  {
    hide Pair, NameOf, Printable, OneLine;
    FontIsPrintable();
    PrintableIsOneLine(Font().dict);
    Names();
    TypeIs("Font", Pair("/Subtype ", "/Type1 ",
      Pair("/BaseFont ", "/Helvetica ", Pair("/Encoding ", "/WinAnsiEncoding ", ">>"))));
  }

  lemma ContentSays(lines: seq<string>, deflate: string -> string)
    ensures var o := ContentObject(lines, deflate);
      && OneLine(o.dict) && NameOf(o.dict, "/Filter ") == Some("FlateDecode")
      && o.stream == Some(deflate(PdfExtract.Content(lines)))
      && NumberOf(o.dict, "/Length ") == Some(|o.stream.value|)
  {
    hide After, Pair, Quiet, NameOf, NumberOf, Printable, OneLine, Decimal, PdfExtract.Content;
    var o := ContentObject(lines, deflate);
    var n, filter := |o.stream.value|, Pair("/Filter ", "/FlateDecode ", ">>");
    ContentDictIsPrintable(n);
    PrintableIsOneLine(o.dict);
    QuietStart("/Length ");
    AfterSkips("<< ", Pair("/Length ", Decimal(n) + " ", filter), "/Length ");
    PairHere("/Length ", Decimal(n) + " ", filter);
    NumberIs(o.dict, "/Length ", n, filter);
    QuietStart("/Filter ");
    AfterSkips("<< ", Pair("/Length ", Decimal(n) + " ", filter), "/Filter ");
    SlashIsQuiet("/Length ", "/Filter ");
    NumberIsQuiet(n, "/Filter ");
    PairPassed("/Length ", Decimal(n) + " ", filter, "/Filter ");
    PairHere("/Filter ", "/FlateDecode ", ">>");
    Names();
    NameIs(o.dict, "/Filter ", "FlateDecode", ">>");
  }

  // ---------------------------------------------------------------------------------------------
  // The trailer
  // ---------------------------------------------------------------------------------------------

  predicate NoT(s: string) {
    forall i :: 0 <= i < |s| ==> s[i] != 't'
  }

  lemma {:induction false} EntriesHaveNoT(objects: seq<Object>, n: nat)
    requires n <= |objects|
    ensures NoT(Entries(objects, n))
  {
    hide Padded, Position;
    if n > 0 { EntriesHaveNoT(objects, n - 1); }
  }

  lemma TableHasNoT(objects: seq<Object>)
    ensures NoT(Table(objects))
  {
    hide Decimal, Entries;
    EntriesHaveNoT(objects, |objects|);
  }

  lemma TrailerIs(objects: seq<Object>)
    ensures TrailerOf(File(objects)).Some?
    ensures TrailerDict(|objects|) <= TrailerOf(File(objects)).value
  {
    hide Front, Table, FindXref, Decimal, TrailerDict, After, NoT, Quiet;
    var front, file := Front(objects, |objects|), File(objects);
    XrefFound(objects);
    TableHasNoT(objects);
    TableIsQuiet(Table(objects));
    var end := "startxref\n" + Decimal(|front|) + "\n%%EOF\n";
    var after := TrailerDict(|objects|) + end;
    TrailerShape(|objects|, |front|);
    assert file[|front|..] == Table(objects) + ("trailer\n" + after);
    AfterSkips(Table(objects), "trailer\n" + after, "trailer\n");
    AfterHere("trailer\n", after);
  }

  lemma TableIsQuiet(table: string)
    requires NoT(table)
    ensures Quiet(table, "trailer\n")
  {
    NoStartIsQuiet(table, "trailer\n");
  }

  lemma TrailerShape(count: nat, xrefAt: nat)
    ensures Trailer(count, xrefAt)
         == "trailer\n" + (TrailerDict(count) + ("startxref\n" + Decimal(xrefAt) + "\n%%EOF\n"))
  {
    hide Decimal, TrailerDict;
  }

  lemma TrailerSays(count: nat, rest: string)
    ensures ReferenceOf(TrailerDict(count) + rest, "/Root ") == Some(1)
    ensures ReferenceOf(TrailerDict(count) + rest, "/Info ") == Some(count)
    ensures NumberOf(TrailerDict(count) + rest, "/Size ") == Some(count + 1)
  {
    hide After, Quiet, NumberOf, ReferenceOf, Ref, Decimal;
    var tail := ">>\n" + rest;
    var info := Pair("/Info ", Ref(count) + " ", tail);
    var root := Pair("/Root ", Ref(1) + " ", info);
    var size := Pair("/Size ", Decimal(count + 1) + " ", root);
    var dict := TrailerDict(count) + rest;
    assert dict == "<< " + size;
    hide Pair;
    QuietStart("/Size ");
    AfterSkips("<< ", size, "/Size ");
    PairHere("/Size ", Decimal(count + 1) + " ", root);
    NumberIs(dict, "/Size ", count + 1, root);
    TrailerKeys();
    QuietStart("/Root ");
    AfterSkips("<< ", size, "/Root ");
    NumberIsQuiet(count + 1, "/Root ");
    PairPassed("/Size ", Decimal(count + 1) + " ", root, "/Root ");
    PairHere("/Root ", Ref(1) + " ", info);
    ReferenceIs(dict, "/Root ", 1, info);
    QuietStart("/Info ");
    AfterSkips("<< ", size, "/Info ");
    NumberIsQuiet(count + 1, "/Info ");
    PairPassed("/Size ", Decimal(count + 1) + " ", root, "/Info ");
    NumberIsQuiet(1, "/Info ");
    PairPassed("/Root ", Ref(1) + " ", info, "/Info ");
    PairHere("/Info ", Ref(count) + " ", tail);
    ReferenceIs(dict, "/Info ", count, tail);
  }

  lemma TrailerKeys()
    ensures Quiet("/Size ", "/Root ") && Quiet("/Size ", "/Info ") && Quiet("/Root ", "/Info ")
  {
    SlashIsQuiet("/Size ", "/Root ");
    SlashIsQuiet("/Size ", "/Info ");
    SlashIsQuiet("/Root ", "/Info ");
  }

  // ---------------------------------------------------------------------------------------------
  // The document
  // ---------------------------------------------------------------------------------------------

  /** What the reader starts from: the trailer, and every object where the table says. */
  ghost predicate Document(file: string, pages: seq<seq<string>>, title: string, deflate: string -> string) {
    && TrailerOf(file).Some? && TrailerDict(InfoId(|pages|)) <= TrailerOf(file).value
    && forall id :: 1 <= id <= InfoId(|pages|) ==> Leads(file, id, Planned(pages, title, deflate, id))
  }

  lemma FileIsDocument(pages: seq<seq<string>>, title: string, deflate: string -> string)
    requires Position(PlannedObjects(pages, title, deflate), InfoId(|pages|)) < TEN_DIGITS
    ensures Document(File(PlannedObjects(pages, title, deflate)), pages, title, deflate)
  {
    hide Planned, File, FindXref, EntryPosition, At, ObjectBytes, TrailerOf, TrailerDict;
    TrailerIs(PlannedObjects(pages, title, deflate));
    forall id | 1 <= id <= InfoId(|pages|)
      ensures Leads(File(PlannedObjects(pages, title, deflate)), id, Planned(pages, title, deflate, id))
    {
      DocumentReadsBack(pages, title, deflate, id);
    }
  }

  lemma RootIs(file: string, pages: seq<seq<string>>, title: string, deflate: string -> string)
    requires Document(file, pages, title, deflate)
    ensures PagesRoot(file) == Some(2)
  {
    hide TrailerOf, TrailerDict, ReferenceOf, NumberOf, NameOf, DictOf, Leads, Catalog, PagesNode, Font, PageObject,
      ContentObject, Info, OneLine;
    var trailer, dict := TrailerOf(file).value, TrailerDict(InfoId(|pages|));
    assert trailer == dict + trailer[|dict|..];
    TrailerSays(InfoId(|pages|), trailer[|dict|..]);
    assert Leads(file, 1, Planned(pages, title, deflate, 1));
    CatalogSays();
    DictIs(file, 1, Catalog());
  }

  /** Through catalog and pages node, the kids are as many as are counted, and as many as there are pages. */
  lemma PageIdsAre(file: string, pages: seq<seq<string>>, title: string, deflate: string -> string)
    requires Document(file, pages, title, deflate)
    ensures PageIds(file) == Some(Ids(0, |pages|))
  {
    hide PagesRoot, ReferencesOf, NumberOf, NameOf, DictOf, Leads, Catalog, PagesNode, Font, PageObject,
      ContentObject, Info, OneLine, TrailerOf, TrailerDict;
    RootIs(file, pages, title, deflate);
    assert Leads(file, 2, Planned(pages, title, deflate, 2));
    PagesNodeSays(|pages|);
    DictIs(file, 2, PagesNode(|pages|));
  }

  lemma PlannedPage(pages: seq<seq<string>>, title: string, deflate: string -> string, i: nat)
    requires i < |pages|
    ensures Planned(pages, title, deflate, 4 + i * 2) == PageObject(i)
    ensures Planned(pages, title, deflate, 5 + i * 2) == ContentObject(pages[i], deflate)
    ensures Planned(pages, title, deflate, 3) == Font()
  {
    hide Catalog, PagesNode, Font, PageObject, ContentObject, Info;
    assert (4 + i * 2 - 4) / 2 == i && (5 + i * 2 - 5) / 2 == i;
  }

  /** A page names the node that lists it, the font, and the stream that holds its lines. */
  lemma StreamOfPage(file: string, pages: seq<seq<string>>, title: string, deflate: string -> string, i: nat)
    requires Document(file, pages, title, deflate) && i < |pages|
    ensures PageStream(file, 4 + i * 2) == Some(deflate(PdfExtract.Content(pages[i])))
  {
    hide PagesRoot, ReferenceOf, NumberOf, NameOf, DictAt, StreamAt, Located, Leads, PageObject, Font, ContentObject,
      OneLine, Planned, TrailerOf, TrailerDict, PdfExtract.Content;
    RootIs(file, pages, title, deflate);
    PlannedPage(pages, title, deflate, i);
    assert Leads(file, 4 + i * 2, PageObject(i)) && Leads(file, 5 + i * 2, ContentObject(pages[i], deflate));
    assert Leads(file, 3, Font());
    PageSays(i);
    FontSays();
    ContentSays(pages[i], deflate);
    DictIs(file, 4 + i * 2, PageObject(i));
    DictIs(file, 3, Font());
    DictIs(file, 5 + i * 2, ContentObject(pages[i], deflate));
    StreamIs(file, 5 + i * 2, ContentObject(pages[i], deflate));
    LeadsIsLocated(file, 5 + i * 2, ContentObject(pages[i], deflate));
  }

  lemma LeadsIsLocated(file: string, id: nat, o: Object)
    requires Leads(file, id, o)
    ensures Located(file, id).Some?
  {
  }

  lemma PageIsShown(file: string, pages: seq<seq<string>>, title: string, deflate: string -> string,
                    inflate: string -> string, i: nat)
    requires Document(file, pages, title, deflate) && i < |pages|
    requires forall s :: Latin1(s) ==> inflate(deflate(s)) == s
    ensures PageText(file, inflate, i) == Some("\n" + PdfExtract.Gathered(pages[i]) + "\n\n")
  {
    hide *;
    PageIdsAre(file, pages, title, deflate);
    StreamOfPage(file, pages, title, deflate, i);
    PdfExtract.ContentIsLatin1(pages[i]);
    PdfExtract.ContentReadsBack(pages[i]);
    TextOfStream(file, inflate, Ids(0, |pages|), i);
  }

  lemma TextOfStream(file: string, inflate: string -> string, ids: seq<nat>, i: nat)
    requires PageIds(file) == Some(ids) && i < |ids| && PageStream(file, ids[i]).Some?
    ensures PageText(file, inflate, i) == Some(PdfExtract.Scan(inflate(PageStream(file, ids[i]).value), [], ""))
  {
    hide PageIds, PageStream, PdfExtract.Scan;
  }

  lemma NoFurtherPage(file: string, inflate: string -> string, ids: seq<nat>, i: nat)
    requires PageIds(file) == Some(ids) && i >= |ids|
    ensures PageText(file, inflate, i) == None
  {
    hide PageIds, PageStream, PdfExtract.Scan;
  }

  /** From the end of the file by references alone: trailer, catalog, pages node, page and content stream.
      There are as many pages as were written, and page `i` shows the lines of page `i`. */
  lemma EveryPageIsShown(
      pages: seq<seq<string>>, title: string, deflate: string -> string, inflate: string -> string, i: nat)
    requires Position(PlannedObjects(pages, title, deflate), InfoId(|pages|)) < TEN_DIGITS
    requires forall s :: Latin1(s) ==> inflate(deflate(s)) == s
    ensures var file := File(PlannedObjects(pages, title, deflate));
      && PageIds(file).Some? && |PageIds(file).value| == |pages|
      && PageText(file, inflate, i)
         == if i < |pages| then Some("\n" + PdfExtract.Gathered(pages[i]) + "\n\n") else None
  {
    hide *;
    var file := File(PlannedObjects(pages, title, deflate));
    FileIsDocument(pages, title, deflate);
    PageIdsAre(file, pages, title, deflate);
    if i < |pages| {
      PageIsShown(file, pages, title, deflate, inflate, i);
    } else {
      NoFurtherPage(file, inflate, Ids(0, |pages|), i);
    }
  }

  /** And the title is the title written, folded. */
  lemma TitleIsRead(pages: seq<seq<string>>, title: string, deflate: string -> string)
    requires Position(PlannedObjects(pages, title, deflate), InfoId(|pages|)) < TEN_DIGITS
    ensures TitleOf(File(PlannedObjects(pages, title, deflate))) == Some(PdfText.Folded(title))
  {
    hide File, Planned, TrailerOf, TrailerDict, ReferenceOf, Leads, Located, Info, ObjectHead;
    var file, id := File(PlannedObjects(pages, title, deflate)), InfoId(|pages|);
    FileIsDocument(pages, title, deflate);
    var trailer, dict := TrailerOf(file).value, TrailerDict(id);
    assert trailer == dict + trailer[|dict|..];
    TrailerSays(id, trailer[|dict|..]);
    InfoPlanned(pages, title, deflate);
    LeadsIsLocated(file, id, Info(title));
    TitleInPlace(file, id, title);
  }

  lemma InfoPlanned(pages: seq<seq<string>>, title: string, deflate: string -> string)
    ensures Planned(pages, title, deflate, InfoId(|pages|)) == Info(title)
  {
    hide Catalog, PagesNode, Font, PageObject, ContentObject, Info;
  }

  lemma TitleInPlace(file: string, id: nat, title: string)
    requires Leads(file, id, Info(title))
    ensures var at := Located(file, id).value;
      && At(file, at, ObjectHead(id))
      && var value := After(file[at + |ObjectHead(id)|..], "/Title ");
         value.Some? && PdfText.ReadLiteral(value.value, 0, "").0 == PdfText.Folded(title)
  {
    hide ObjectHead, ObjectBytes, Located, After, At, PdfText.PdfEscape, PdfText.Folded, Body, PdfText.ReadLiteral,
      Info;
    var at, o := Located(file, id).value, Info(title);
    BytesShape(id, o);
    InPlace(file, at, ObjectHead(id), o.dict + Body(o));
    var end := file[at + |ObjectHead(id) + (o.dict + Body(o))|..];
    Associates(o.dict, Body(o), end);
    TitleIn(title, Body(o) + end);
  }

  lemma TitleIn(title: string, rest: string)
    ensures var value := After(Info(title).dict + rest, "/Title ");
      value.Some? && PdfText.ReadLiteral(value.value, 0, "").0 == PdfText.Folded(title)
  {
    hide After, PdfText.PdfEscape, PdfText.Folded, PdfText.ReadLiteral, Quiet, Info, Pair;
    var producer := Pair("/Producer ", "(GLDI synthetic" + " fixture builder) ", ">>") + rest;
    var literal := "(" + PdfText.PdfEscape(title) + ")" + (" " + producer);
    InfoShape(title, rest);
    QuietStart("/Title ");
    AfterSkips("<< ", "/Title " + literal, "/Title ");
    AfterHere("/Title ", literal);
    PdfText.LineReadsBack(title, " " + producer);
  }

  lemma InfoShape(title: string, rest: string)
    ensures var producer := Pair("/Producer ", "(GLDI synthetic" + " fixture builder) ", ">>") + rest;
      Info(title).dict + rest == "<< " + ("/Title " + ("(" + PdfText.PdfEscape(title) + ")" + (" " + producer)))
  {
    hide PdfText.PdfEscape;
    var last := Pair("/Producer ", "(GLDI synthetic" + " fixture builder) ", ">>");
    assert ") " == ")" + " ";
    hide Pair;
    assert "(" + (PdfText.PdfEscape(title) + ") ") == "(" + PdfText.PdfEscape(title) + ")" + " ";
  }
}
