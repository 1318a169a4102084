/** The text of a written workbook's sheets and shared strings (scripts/fixtures/office.ts), and what the
    product's reader finds in it by pattern (src/platform/parse/xlsx.ts). */
module WorkbookXml {
  import opened Elements
  import opened Search
  import opened Text
  import opened Workbook
  import opened Wrappers
  import Columns
  import Xml

  const ROW := Pattern("<row", "</row>", false)
  const CELL := Pattern("<c", "</c>", true)
  const VALUE := Pattern("<v", "</v>", false)
  const ITEM := Pattern("<si", "</si>", false)
  const RUN := Pattern("<t", "</t>", false)

  // ---------------------------------------------------------------------------------------------
  // The writer's text
  // ---------------------------------------------------------------------------------------------

  function Reference(value: string): string {
    " r=\"" + (value + "\"")
  }

  function SharedType(): string {
    " t=\"s\""
  }

  function FormulaText(): string {
    "<f>SUM(A1:A2)</f>"
  }

  function CellElement(cell: Cell): Element {
    match cell
    case Shared(ref, index) => Element(Reference(ref) + SharedType(), Write(VALUE, "", Decimal(index)))
    case Number(ref, text) => Element(Reference(ref), Write(VALUE, "", text))
    case Formula(ref) => Element(Reference(ref), FormulaText())
  }

  function CellElements(cells: seq<Cell>): seq<Element> {
    if cells == [] then [] else [CellElement(cells[0])] + CellElements(cells[1..])
  }

  function RowElement(row: Row): Element {
    Element(Reference(Decimal(row.number)), WriteAll(CELL, CellElements(row.cells)))
  }

  function RowElements(rows: seq<Row>): seq<Element> {
    if rows == [] then [] else [RowElement(rows[0])] + RowElements(rows[1..])
  }

  function Declaration(): string {
    "<?xml version=\"1.0\"" + (" encoding=\"UTF-8\"" + " standalone=\"yes\"?>")
  }

  function Namespace(): string {
    " xmlns=\"http://" + ("schemas.openxmlformats.org" + ("/spreadsheetml" + "/2006/main\""))
  }

  function SheetHead(): string {
    "<worksheet" + (Namespace() + ">")
  }

  /** The part of one sheet. */
  function SheetText(rows: seq<Row>): string {
    Declaration() + (SheetHead() + ("<sheetData>" + (WriteAll(ROW, RowElements(rows)) + "</sheetData></worksheet>")))
  }

  function ItemElements(strings: seq<string>): seq<Element> {
    if strings == [] then [] else [Element("", Write(RUN, "", Xml.Escape(strings[0])))] + ItemElements(strings[1..])
  }

  function StringsHead(count: nat): string {
    "<sst" + (Namespace() + (" count=\"" + (Decimal(count) + ("\" uniqueCount=\"" + (Decimal(count) + "\">")))))
  }

  /** The part of the shared strings. */
  function StringsText(strings: seq<string>): string {
    Declaration() + (StringsHead(|strings|) + (WriteAll(ITEM, ItemElements(strings)) + "</sst>"))
  }

  // ---------------------------------------------------------------------------------------------
  // The reader
  // ---------------------------------------------------------------------------------------------

  /** A cell as it is read; the product keeps its column and its reading. */
  datatype RawCell = RawCell(ref: string, column: string, reading: Reading)

  datatype RawRow = RawRow(number: nat, cells: seq<RawCell>)

  /** `structuralInt`: up to fifteen digits. */
  function StructuralInt(raw: string): Option<nat> {
    var t := TrimEnd(TrimStart(raw));
    if 0 < |t| <= 15 && AllDigits(t) then Some(ParseDecimal(t)) else None
  }

  function Bodies(es: seq<Element>): string {
    if es == [] then "" else es[0].body + Bodies(es[1..])
  }

  predicate HasFormula(s: string) {
    s != "" && (Opens(s, "<f") || HasFormula(s[1..]))
  }

  function OrElse(s: Option<string>, other: string): string {
    if s.Some? then s.value else other
  }

  function TextOf(shared: seq<string>, index: Option<nat>): string {
    if index.Some? && index.value < |shared| then shared[index.value] else ""
  }

  /** One cell: nothing when it has no column, or neither value nor formula.  A plain number is kept; what
      becomes of any other untyped text is a parameter. */
  function ReadElement(e: Element, shared: seq<string>, untyped: string -> string): Option<RawCell> {
    var tag := "<c " + (e.attributes + ">");
    var ref := OrElse(Attribute(' ', tag, 'r'), "");
    var column := Columns.ColumnOf(ref);
    var kind := OrElse(Attribute(' ', tag, 't'), "n");
    var values := All(e.body, VALUE);
    if column == "" then None
    else if kind == "inlineStr" then Some(RawCell(ref, column, Value(Xml.Decode(Bodies(All(e.body, RUN))))))
    else if values == [] then if HasFormula(e.body) then Some(RawCell(ref, column, UncachedFormula)) else None
    else
      var v := values[0].body;
      Some(RawCell(ref, column, Value(
        if kind == "s" then TextOf(shared, StructuralInt(v))
        else if kind == "b" then if v == "1" then "TRUE" else "FALSE"
        else if kind == "e" then Xml.Decode(v)
        else if IsPlainNumber(v) then v else untyped(v))))
  }

  function ReadElements(es: seq<Element>, shared: seq<string>, untyped: string -> string): seq<RawCell> {
    if es == [] then [] else
    (match ReadElement(es[0], shared, untyped) case None => [] case Some(cell) => [cell])
    + ReadElements(es[1..], shared, untyped)
  }

  function RowNumber(e: Element, maxRow: nat): nat {
    match StructuralInt(OrElse(Attribute(' ', "<row " + (e.attributes + ">"), 'r'), ""))
    case Some(n) => n
    case None => maxRow + 1
  }

  function ReadRows(es: seq<Element>, shared: seq<string>, untyped: string -> string, maxRow: nat): seq<RawRow> {
    if es == [] then [] else
    var number := RowNumber(es[0], maxRow);
    [RawRow(number, ReadElements(All(es[0].body, CELL), shared, untyped))]
    + ReadRows(es[1..], shared, untyped, if number > maxRow then number else maxRow)
  }

  function ReadSheet(xml: string, shared: seq<string>, untyped: string -> string): seq<RawRow> {
    ReadRows(All(xml, ROW), shared, untyped, 0)
  }

  function ReadItems(es: seq<Element>): seq<string> {
    if es == [] then [] else [Xml.Decode(Bodies(All(es[0].body, RUN)))] + ReadItems(es[1..])
  }

  function ReadStrings(xml: string): seq<string> {
    ReadItems(All(xml, ITEM))
  }

  // ---------------------------------------------------------------------------------------------
  // What the reader should find
  // ---------------------------------------------------------------------------------------------

  function RawCells(cells: seq<Cell>, shared: seq<string>): seq<RawCell> {
    if cells == [] then []
    else
      [RawCell(cells[0].ref, Columns.ColumnOf(cells[0].ref), ReadCell(cells[0], shared))]
      + RawCells(cells[1..], shared)
  }

  function RawRows(rows: seq<Row>, shared: seq<string>): seq<RawRow> {
    if rows == [] then [] else [RawRow(rows[0].number, RawCells(rows[0].cells, shared))] + RawRows(rows[1..], shared)
  }

  /** The first cell of a column counts. */
  function Find(cells: seq<RawCell>, column: string): Reading {
    if cells == [] then Absent
    else if cells[0].column == column then cells[0].reading
    else Find(cells[1..], column)
  }

  lemma {:induction false} FindIsLookup(cells: seq<Cell>, column: string, shared: seq<string>)
    ensures Find(RawCells(cells, shared), column) == Lookup(cells, column, shared)
  {
    if cells != [] { FindIsLookup(cells[1..], column, shared); }
  }

  const FIFTEEN_DIGITS := 1_000_000_000_000_000

  /** A well-written cell whose index the reader takes for one. */
  predicate PlainCell(cell: Cell) {
    WellWritten(cell) && (cell.Shared? ==> cell.index < FIFTEEN_DIGITS)
  }

  predicate PlainCells(cells: seq<Cell>) {
    forall i :: 0 <= i < |cells| ==> PlainCell(cells[i])
  }

  predicate PlainRow(row: Row) {
    row.number < FIFTEEN_DIGITS && PlainCells(row.cells)
  }

  predicate PlainRows(rows: seq<Row>) {
    forall i :: 0 <= i < |rows| ==> PlainRow(rows[i])
  }

  // ---------------------------------------------------------------------------------------------
  // Texts without markup
  // ---------------------------------------------------------------------------------------------

  predicate NoMarkup(s: string) {
    forall i :: 0 <= i < |s| ==> s[i] != '<' && s[i] != '>' && s[i] != '"'
  }

  lemma NoMarkupIsQuiet(s: string, t: string)
    requires NoMarkup(s) && t != "" && t[0] == '<'
    ensures Quiet(s, t)
  {
    forall k | 0 <= k < |s| ensures Differs(s, k, t) {
      assert s[k] != t[0];
    }
  }

  lemma DigitsAreNoMarkup(s: string)
    requires AllDigits(s)
    ensures NoMarkup(s)
  {
  }

  lemma NumberIsNoMarkup(s: string)
    requires IsPlainNumber(s)
    ensures NoMarkup(s)
  {
    var t := if s != "" && s[0] == '-' then s[1..] else s;
    var whole := Span(t, c => IsDigit(c));
    forall i | 0 <= i < |t| ensures IsDigit(t[i]) || t[i] == '.' {
      if i > whole { assert t[whole + 1..][i - whole - 1] == t[i]; }
    }
    forall i | 0 <= i < |s| ensures IsDigit(s[i]) || s[i] == '.' || s[i] == '-' {
      if s[0] == '-' && i > 0 { assert s[i] == t[i - 1]; }
    }
  }

  lemma EscapedIsNoMarkup(s: string)
    ensures NoMarkup(Xml.Escape(s))
  {
    forall i | 0 <= i < |Xml.Escape(s)|
      ensures Xml.Escape(s)[i] != '<' && Xml.Escape(s)[i] != '>' && Xml.Escape(s)[i] != '"'
    {
      Xml.EscapedHoldsNoMarkup(s, i);
    }
  }

  /** A tag that opens differently is quiet. */
  lemma TagIsQuiet(tag: string, t: string)
    requires t != "" && t[0] == '<' && Differs(tag, 0, t)
    requires forall i :: 0 < i < |tag| ==> tag[i] != '<'
    ensures Quiet(tag, t)
  {
    forall k | 0 <= k < |tag| ensures Differs(tag, k, t) {
      if k > 0 { assert tag[k] != t[0]; }
    }
  }

  /** A written element is quiet for a tag that neither of its own looks like. */
  lemma WrittenIsQuiet(p: Pattern, attributes: string, body: string, t: string)
    requires Quiet(p.open, t) && Quiet(attributes, t) && Quiet(">", t) && Quiet(body, t) && Quiet(p.close, t)
    ensures Quiet(Write(p, attributes, body), t)
  {
    hide Quiet;
    QuietJoins(body, p.close, t);
    QuietJoins(">", body + p.close, t);
    QuietJoins(attributes, ">" + (body + p.close), t);
    QuietJoins(p.open, attributes + (">" + (body + p.close)), t);
  }

  // ---------------------------------------------------------------------------------------------
  // One cell
  // ---------------------------------------------------------------------------------------------

  lemma AttributesAreQuiet(value: string)
    requires IsReference(value)
    ensures AttributesLook(Reference(value)) && AttributesLook(Reference(value) + SharedType())
    ensures NoTag(Reference(value)) && NoTag(Reference(value) + SharedType())
  {
    var a, b := Reference(value), Reference(value) + SharedType();
    assert forall i :: 3 < i < 4 + |value| ==> a[i] == value[i - 4];
  }

  predicate NoTag(s: string) {
    forall i :: 0 <= i < |s| ==> s[i] != '<'
  }

  lemma NoTagIsQuiet(s: string, t: string)
    requires NoTag(s) && t != "" && t[0] == '<'
    ensures Quiet(s, t)
  {
    forall k | 0 <= k < |s| ensures Differs(s, k, t) {
      assert s[k] != t[0];
    }
  }

  /** The reader's `r` of a tag that starts with such a name. */
  lemma ReferenceIsRead(open: string, value: string, more: string)
    requires IsReference(value) && open != "" && forall i :: 0 <= i < |open| ==> open[i] != 'r'
    ensures Attribute(' ', open + (Reference(value) + more), 'r') == Some(value)
  {
    hide Attribute, Reference;
    var rest := ['r'] + ("=\"" + (value + ("\"" + more)));
    ReferenceStarts(value, more);
    Associates(open, " ", rest);
    SpaceLast(open);
    SkipTo(' ', open + " ", rest, 'r');
    AttributeIs(' ', 'r', value, more);
  }

  lemma SpaceLast(open: string)
    ensures (open + " ")[|open + " "| - 1] == ' '
  {
  }

  lemma ReferenceStarts(value: string, more: string)
    ensures Reference(value) + more == " " + (['r'] + ("=\"" + (value + ("\"" + more))))
  {
    var tail := value + ("\"" + more);
    Associates(value, "\"", more);
    Associates(" r=\"", value + "\"", more);
    assert " r=\"" == " " + (['r'] + "=\"");
    Associates(" ", ['r'] + "=\"", tail);
    Associates(['r'], "=\"", tail);
  }

  /** The row's name starts with the letter itself, but no `=` follows it there. */
  lemma RowReferenceIsRead(value: string)
    requires IsReference(value)
    ensures Attribute(' ', "<row " + (Reference(value) + ">"), 'r') == Some(value)
  {
    var rest := Reference(value) + ">";
    var s := "<row " + rest;
    assert s[1..] == "row " + rest;
    assert ("row " + rest)[1..] == "ow " + rest;
    assert QuotedAfter("ow " + rest) == None by { NotQuoted("ow " + rest); }
    ReferenceIsRead("ow ", value, ">");
    FirstDoesNotMatter('r', ' ', "ow " + rest, 'r');
  }

  lemma NotQuoted(s: string)
    requires s != "" && s[0] == 'o'
    ensures QuotedAfter(s) == None
  {
    assert Span(s, IsSpace) == 0;
    assert s[0..] == s;
  }

  lemma FirstDoesNotMatter(a: char, b: char, s: string, name: char)
    requires s != "" && s[0] != name
    ensures Attribute(a, s, name) == Attribute(b, s, name)
  {
  }

  lemma KindIsShared(value: string)
    requires IsReference(value)
    ensures Attribute(' ', "<c " + (Reference(value) + SharedType() + ">"), 't') == Some("s")
  {
    hide Attribute;
    var front := "<c " + (Reference(value) + " ");
    var rest := "t=\"s\">";
    assert "<c " + (Reference(value) + SharedType() + ">") == front + rest;
    ReferenceHasNoT(value);
    SkipTo(' ', front, rest, 't');
    assert rest == ['t'] + ("=\"" + ("s" + ("\"" + ">")));
    AttributeIs(' ', 't', "s", ">");
  }

  lemma ReferenceHasNoT(value: string)
    requires IsReference(value)
    ensures forall i :: 0 <= i < |"<c " + (Reference(value) + " ")| ==> ("<c " + (Reference(value) + " "))[i] != 't'
    ensures forall i :: 0 <= i < |"<c " + (Reference(value) + ">")| ==> ("<c " + (Reference(value) + ">"))[i] != 't'
  {
    assert forall i :: 3 < i < 4 + |value| ==> Reference(value)[i] == value[i - 4];
  }

  lemma KindIsNone(value: string)
    requires IsReference(value)
    ensures Attribute(' ', "<c " + (Reference(value) + ">"), 't') == None
  {
    hide Attribute, Reference;
    ReferenceHasNoT(value);
    NoAttribute(' ', "<c " + (Reference(value) + ">"), 't');
  }

  lemma OneValue(body: string)
    requires NoMarkup(body)
    ensures All(Write(VALUE, "", body), VALUE) == [Element("", body)]
  {
    hide All, Write;
    NoMarkupIsQuiet(body, VALUE.close);
    var e := Element("", body);
    assert Plain(VALUE, e);
    assert WriteAll(VALUE, [e]) == Write(VALUE, "", body) + WriteAll(VALUE, []);
    WrittenAreFound(VALUE, [e], "");
    assert Write(VALUE, "", body) + "" + "" == Write(VALUE, "", body);
  }

  lemma FormulaHasNoValue()
    ensures All(FormulaText(), VALUE) == [] && HasFormula(FormulaText())
  {
    FormulaIsQuiet("<v");
    PassOver(FormulaText(), "", VALUE);
    NothingFound(VALUE);
    assert FormulaText() + "" == FormulaText();
  }

  lemma FormulaIsQuiet(t: string)
    requires |t| > 1 && t[0] == '<' && t[1] != 'f' && (t[1] == '/' ==> |t| > 2 && t[2] != 'f')
    ensures Quiet(FormulaText(), t)
  {
    var open, close := "<f>SUM(A1:A2)", "</f>";
    assert FormulaText() == open + close;
    TagIsQuiet(open, t);
    TagIsQuiet(close, t);
    QuietJoins(open, close, t);
  }

  /** A printed number reads back up to fifteen digits and not beyond. */
  lemma StructuralDecimal(n: nat)
    ensures StructuralInt(Decimal(n)) == if n < FIFTEEN_DIGITS then Some(n) else None
  {
    hide Decimal, ParseDecimal;
    var s := Decimal(n);
    assert !IsSpace(s[0]) && !IsSpace(s[|s| - 1]);
    DecimalWidth(n, 15);
    FifteenDigits();
    DecimalParses(n);
  }

  lemma FifteenDigits()
    ensures Pow10(15) == FIFTEEN_DIGITS
  {
    assert Pow10(5) == 100000;
    assert Pow10(10) == 10000000000;
  }

  lemma LettersFirst(ref: string)
    requires ref != "" && Columns.IsLetter(ref[0])
    ensures Columns.ColumnOf(ref) != ""
  {
  }

  /** A written cell is read as the cell it is. */
  lemma CellIsRead(cell: Cell, shared: seq<string>, untyped: string -> string)
    requires PlainCell(cell)
    ensures ReadElement(CellElement(cell), shared, untyped)
         == Some(RawCell(cell.ref, Columns.ColumnOf(cell.ref), ReadCell(cell, shared)))
  {
    hide Attribute, All, Reference, SharedType, Write, FormulaText, Columns.ColumnOf, StructuralInt, IsPlainNumber,
      HasFormula, Xml.Decode, Decimal;
    assert IsReference(cell.ref);
    LettersFirst(cell.ref);
    match cell
    case Shared(ref, index) =>
      Associates(Reference(ref), SharedType(), ">");
      NoRInOpen();
      ReferenceIsRead("<c ", ref, SharedType() + ">");
      KindIsShared(ref);
      DigitsAreNoMarkup(Decimal(index));
      OneValue(Decimal(index));
      StructuralDecimal(index);
    case Number(ref, text) =>
      NoRInOpen();
      ReferenceIsRead("<c ", ref, ">");
      KindIsNone(ref);
      NumberIsNoMarkup(text);
      OneValue(text);
    case Formula(ref) =>
      NoRInOpen();
      ReferenceIsRead("<c ", ref, ">");
      KindIsNone(ref);
      FormulaHasNoValue();
  }

  lemma NoRInOpen()
    ensures forall i :: 0 <= i < |"<c "| ==> "<c "[i] != 'r'
  {
  }

  // ---------------------------------------------------------------------------------------------
  // Rows and sheets
  // ---------------------------------------------------------------------------------------------

  lemma {:induction false} CellsAreRead(cells: seq<Cell>, shared: seq<string>, untyped: string -> string)
    requires PlainCells(cells)
    ensures ReadElements(CellElements(cells), shared, untyped) == RawCells(cells, shared)
  {
    hide CellElement, ReadElement, ReadCell, PlainCell;
    if cells != [] {
      assert PlainCell(cells[0]);
      CellIsRead(cells[0], shared, untyped);
      CellsAreRead(cells[1..], shared, untyped);
    }
  }

  lemma BodyIsQuiet(cell: Cell, t: string)
    requires PlainCell(cell) && |t| > 2 && t[0] == '<' && t[1] == '/' && t[2] != 'v' && t[2] != 'f'
    ensures Quiet(CellElement(cell).body, t)
  {
    hide Quiet, IsPlainNumber, Decimal;
    FormulaIsQuiet(t);
    TagIsQuiet("<v", t);
    TagIsQuiet(">", t);
    TagIsQuiet("</v>", t);
    NoTagIsQuiet("", t);
    match cell
    case Shared(_, index) =>
      DigitsAreNoMarkup(Decimal(index));
      NoMarkupIsQuiet(Decimal(index), t);
      WrittenIsQuiet(VALUE, "", Decimal(index), t);
    case Number(_, text) =>
      NumberIsNoMarkup(text);
      NoMarkupIsQuiet(text, t);
      WrittenIsQuiet(VALUE, "", text, t);
    case Formula(_) =>
  }

  lemma CellIsPlain(cell: Cell)
    requires PlainCell(cell)
    ensures Plain(CELL, CellElement(cell))
  {
    hide Quiet, AttributesLook, Write, FormulaText, IsPlainNumber, Reference, SharedType, Decimal;
    assert IsReference(cell.ref);
    AttributesAreQuiet(cell.ref);
    BodyIsQuiet(cell, CELL.close);
  }

  lemma {:induction false} CellElementsArePlain(cells: seq<Cell>)
    requires PlainCells(cells)
    ensures forall i :: 0 <= i < |CellElements(cells)| ==> Plain(CELL, CellElements(cells)[i])
  {
    hide Plain, CellElement, PlainCell;
    if cells != [] {
      assert PlainCell(cells[0]);
      CellIsPlain(cells[0]);
      CellElementsArePlain(cells[1..]);
    }
  }

  /** The body of a written row gives its cells. */
  lemma RowBodyIsRead(cells: seq<Cell>, shared: seq<string>, untyped: string -> string)
    requires PlainCells(cells)
    ensures ReadElements(All(WriteAll(CELL, CellElements(cells)), CELL), shared, untyped) == RawCells(cells, shared)
  {
    hide All, WriteAll, ReadElements, RawCells, Plain, PlainCell;
    var body := WriteAll(CELL, CellElements(cells));
    CellElementsArePlain(cells);
    NoTagIsQuiet("", CELL.open);
    WrittenAreFound(CELL, CellElements(cells), "");
    assert body + "" == body;
    CellsAreRead(cells, shared, untyped);
  }

  /** No cell looks like the end of its row. */
  lemma {:induction false} RowBodyIsQuiet(cells: seq<Cell>)
    requires PlainCells(cells)
    ensures Quiet(WriteAll(CELL, CellElements(cells)), ROW.close)
  {
    hide Quiet, CellElement, PlainCell, Write;
    if cells == [] {
      NoTagIsQuiet("", ROW.close);
    } else {
      assert PlainCell(cells[0]);
      CellTextIsQuiet(cells[0]);
      RowBodyIsQuiet(cells[1..]);
      var e := CellElement(cells[0]);
      QuietJoins(Write(CELL, e.attributes, e.body), WriteAll(CELL, CellElements(cells[1..])), ROW.close);
    }
  }

  lemma CellTextIsQuiet(cell: Cell)
    requires PlainCell(cell)
    ensures Quiet(Write(CELL, CellElement(cell).attributes, CellElement(cell).body), ROW.close)
  {
    hide Quiet, Write, FormulaText, IsPlainNumber, Reference, SharedType, Decimal;
    assert IsReference(cell.ref);
    AttributesAreQuiet(cell.ref);
    NoTagIsQuiet(CellElement(cell).attributes, ROW.close);
    BodyIsQuiet(cell, ROW.close);
    TagIsQuiet("<c", ROW.close);
    NoTagIsQuiet(">", ROW.close);
    TagIsQuiet("</c>", ROW.close);
    WrittenIsQuiet(CELL, CellElement(cell).attributes, CellElement(cell).body, ROW.close);
  }

  lemma DigitsAreReference(s: string)
    requires AllDigits(s)
    ensures IsReference(s)
  {
  }

  lemma RowIsPlain(row: Row)
    requires PlainRow(row)
    ensures Plain(ROW, RowElement(row))
  {
    hide Quiet, AttributesLook, Reference, Decimal, WriteAll, CellElements, PlainCells;
    DigitsAreReference(Decimal(row.number));
    AttributesAreQuiet(Decimal(row.number));
    RowBodyIsQuiet(row.cells);
  }

  lemma {:induction false} RowElementsArePlain(rows: seq<Row>)
    requires PlainRows(rows)
    ensures forall i :: 0 <= i < |RowElements(rows)| ==> Plain(ROW, RowElements(rows)[i])
  {
    hide Plain, RowElement, PlainRow;
    if rows != [] {
      assert PlainRow(rows[0]);
      RowIsPlain(rows[0]);
      RowElementsArePlain(rows[1..]);
    }
  }

  lemma RowNumberIsRead(row: Row, maxRow: nat)
    requires PlainRow(row)
    ensures RowNumber(RowElement(row), maxRow) == row.number
  {
    hide Attribute, Reference, Decimal, StructuralInt, WriteAll, CellElements, PlainCells;
    DigitsAreReference(Decimal(row.number));
    RowReferenceIsRead(Decimal(row.number));
    StructuralDecimal(row.number);
  }

  lemma {:induction false} RowsAreRead(rows: seq<Row>, shared: seq<string>, untyped: string -> string, maxRow: nat)
    requires PlainRows(rows)
    ensures ReadRows(RowElements(rows), shared, untyped, maxRow) == RawRows(rows, shared)
    decreases |rows|
  {
    hide PlainCells, RowNumber, ReadElements, RawCells, All, WriteAll, CellElements;
    if rows != [] {
      assert PlainRow(rows[0]);
      RowNumberIsRead(rows[0], maxRow);
      RowBodyIsRead(rows[0].cells, shared, untyped);
      RowsAreRead(rows[1..], shared, untyped, if rows[0].number > maxRow then rows[0].number else maxRow);
    }
  }

  lemma DeclarationIsQuiet(t: string)
    requires |t| > 1 && t[0] == '<' && t[1] != '?'
    ensures Quiet(Declaration(), t)
  {
    hide Quiet;
    var a, b, c := "<?xml version=\"1.0\"", " encoding=\"UTF-8\"", " standalone=\"yes\"?>";
    TagIsQuiet(a, t);
    NoTagIsQuiet(b, t);
    NoTagIsQuiet(c, t);
    QuietJoins(b, c, t);
    QuietJoins(a, b + c, t);
  }

  lemma NamespaceIsQuiet(t: string)
    requires t != "" && t[0] == '<'
    ensures Quiet(Namespace(), t)
  {
    hide Quiet;
    var a, b, c, d := " xmlns=\"http://", "schemas.openxmlformats.org", "/spreadsheetml", "/2006/main\"";
    NoTagIsQuiet(a, t);
    NoTagIsQuiet(b, t);
    NoTagIsQuiet(c, t);
    NoTagIsQuiet(d, t);
    QuietJoins(c, d, t);
    QuietJoins(b, c + d, t);
    QuietJoins(a, b + (c + d), t);
  }

  lemma SheetHeadIsQuiet()
    ensures Quiet(SheetHead(), ROW.open) && Quiet("<sheetData>", ROW.open)
  {
    hide Quiet, Namespace;
    NamespaceIsQuiet(ROW.open);
    TagIsQuiet("<worksheet", ROW.open);
    NoTagIsQuiet(">", ROW.open);
    QuietJoins(Namespace(), ">", ROW.open);
    QuietJoins("<worksheet", Namespace() + ">", ROW.open);
    TagIsQuiet("<sheetData>", ROW.open);
  }

  lemma SheetTailIsQuiet()
    ensures Quiet("</sheetData></worksheet>", ROW.open)
  {
    TagIsQuiet("</sheetData>", ROW.open);
    TagIsQuiet("</worksheet>", ROW.open);
    QuietJoins("</sheetData>", "</worksheet>", ROW.open);
    assert "</sheetData>" + "</worksheet>" == "</sheetData></worksheet>";
  }

  /** From the text of a sheet the reader gets its rows and cells, and nothing else. */
  lemma SheetTextIsRead(rows: seq<Row>, shared: seq<string>, untyped: string -> string)
    requires PlainRows(rows)
    ensures ReadSheet(SheetText(rows), shared, untyped) == RawRows(rows, shared)
  {
    hide All, WriteAll, ReadRows, RawRows, RowElements, Plain, PlainRow, Declaration, SheetHead, Quiet;
    var tail := "</sheetData></worksheet>";
    var body := WriteAll(ROW, RowElements(rows)) + tail;
    DeclarationIsQuiet(ROW.open);
    SheetHeadIsQuiet();
    SheetTailIsQuiet();
    PassOver(Declaration(), SheetHead() + ("<sheetData>" + body), ROW);
    PassOver(SheetHead(), "<sheetData>" + body, ROW);
    PassOver("<sheetData>", body, ROW);
    RowElementsArePlain(rows);
    WrittenAreFound(ROW, RowElements(rows), tail);
    RowsAreRead(rows, shared, untyped, 0);
  }

  // ---------------------------------------------------------------------------------------------
  // Shared strings
  // ---------------------------------------------------------------------------------------------

  lemma OneRun(body: string)
    requires NoMarkup(body)
    ensures All(Write(RUN, "", body), RUN) == [Element("", body)]
    ensures Quiet(Write(RUN, "", body), ITEM.close)
  {
    hide All, Write, Quiet;
    NoMarkupIsQuiet(body, RUN.close);
    NoMarkupIsQuiet(body, ITEM.close);
    NoTagIsQuiet("", RUN.open);
    var e := Element("", body);
    assert Plain(RUN, e);
    assert WriteAll(RUN, [e]) == Write(RUN, "", body) + WriteAll(RUN, []);
    WrittenAreFound(RUN, [e], "");
    assert Write(RUN, "", body) + "" + "" == Write(RUN, "", body);
    TagIsQuiet("<t", ITEM.close);
    NoTagIsQuiet("", ITEM.close);
    NoTagIsQuiet(">", ITEM.close);
    TagIsQuiet("</t>", ITEM.close);
    WrittenIsQuiet(RUN, "", body, ITEM.close);
  }

  lemma {:induction false} ItemsAreRead(strings: seq<string>)
    ensures ReadItems(ItemElements(strings)) == strings
    ensures forall i :: 0 <= i < |ItemElements(strings)| ==> Plain(ITEM, ItemElements(strings)[i])
  {
    hide All, Write, Quiet, Xml.Escape, Xml.Decode;
    if strings != [] {
      var body := Xml.Escape(strings[0]);
      EscapedIsNoMarkup(strings[0]);
      OneRun(body);
      Xml.DecodeUndoesEscape(strings[0]);
      assert Bodies([Element("", body)]) == body + Bodies([]);
      assert body + "" == body;
      ItemsAreRead(strings[1..]);
      assert [strings[0]] + strings[1..] == strings;
    }
  }

  lemma StringsHeadIsQuiet(count: nat)
    ensures Quiet(StringsHead(count), ITEM.open)
  {
    hide Decimal, Quiet, Namespace;
    var t, n := ITEM.open, Decimal(count);
    var a, b, c := " count=\"", "\" uniqueCount=\"", "\">";
    DigitsAreNoMarkup(n);
    NoMarkupIsQuiet(n, t);
    NamespaceIsQuiet(t);
    TagIsQuiet("<sst", t);
    NoTagIsQuiet(a, t);
    NoTagIsQuiet(b, t);
    NoTagIsQuiet(c, t);
    QuietJoins(n, c, t);
    QuietJoins(b, n + c, t);
    QuietJoins(n, b + (n + c), t);
    QuietJoins(a, n + (b + (n + c)), t);
    QuietJoins(Namespace(), a + (n + (b + (n + c))), t);
    QuietJoins("<sst", Namespace() + (a + (n + (b + (n + c)))), t);
  }

  /** From the text of the shared strings the reader gets the strings. */
  lemma StringsTextIsRead(strings: seq<string>)
    ensures ReadStrings(StringsText(strings)) == strings
  {
    hide All, WriteAll, ReadItems, ItemElements, Plain, Declaration, StringsHead, Quiet;
    var body := WriteAll(ITEM, ItemElements(strings)) + "</sst>";
    DeclarationIsQuiet(ITEM.open);
    StringsHeadIsQuiet(|strings|);
    TagIsQuiet("</sst>", ITEM.open);
    PassOver(Declaration(), StringsHead(|strings|) + body, ITEM);
    PassOver(StringsHead(|strings|), body, ITEM);
    ItemsAreRead(strings);
    WrittenAreFound(ITEM, ItemElements(strings), "</sst>");
  }
}
