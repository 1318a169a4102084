/** The sheets of a written workbook (scripts/fixtures/office.ts) as they are found in its text: by row and
    column, as the product's reader does (src/platform/parse/xlsx.ts), and by reference alone, as other
    readers do. */
module WorkbookSheets {
  import opened Text
  import opened Workbook
  import opened WorkbookXml
  import Columns

  // ---------------------------------------------------------------------------------------------
  // By row and column
  // ---------------------------------------------------------------------------------------------

  /** The first `n` columns are found with the readings expected, and nothing is found in any other. */
  ghost predicate RowFound(cells: seq<RawCell>, values: seq<string>, uncached: set<nat>, header: bool) {
    && (forall c: nat :: c < |values| ==> Find(cells, Columns.Name(c)) == Expected(values, uncached, header, c))
    && (forall column ::
          (forall c: nat :: c < |values| ==> Columns.Name(c) != column)
          ==> Find(cells, column) == Absent)
  }

  ghost predicate DataRowFound(row: RawRow, sheet: Sheet, r: nat)
    requires r < |sheet.rows|
  {
    row.number == r + 2 && RowFound(row.cells, sheet.rows[r], UncachedIn(sheet, r), false)
  }

  /** What is found is the header as row 1 and data row `r` as row `r + 2`, and no other row. */
  ghost predicate SheetFound(rows: seq<RawRow>, sheet: Sheet) {
    && |rows| == |sheet.rows| + 1
    && rows[0].number == 1 && RowFound(rows[0].cells, sheet.headers, {}, true)
    && (forall k :: 1 <= k < |rows| ==> DataRowFound(rows[k], sheet, k - 1))
  }

  lemma RowIsFound(cells: seq<Cell>, values: seq<string>, uncached: set<nat>, header: bool, strings: seq<string>)
    requires ReadsBack(cells, values, uncached, header, |values|, strings)
    ensures RowFound(RawCells(cells, strings), values, uncached, header)
    ensures |strings| <= FIFTEEN_DIGITS ==> PlainCells(cells)
  {
    hide Find, Lookup, WellWritten, Columns.Name, Columns.ColumnOf;
    forall column ensures Find(RawCells(cells, strings), column) == Lookup(cells, column, strings) {
      FindIsLookup(cells, column, strings);
    }
    forall i | 0 <= i < |cells| ensures |strings| <= FIFTEEN_DIGITS ==> PlainCell(cells[i]) {
      assert cells[i] in cells;
    }
  }

  lemma {:induction false} RawRowAt(rows: seq<Row>, strings: seq<string>, k: nat)
    requires k < |rows|
    ensures |RawRows(rows, strings)| == |rows|
    ensures RawRows(rows, strings)[k] == RawRow(rows[k].number, RawCells(rows[k].cells, strings))
  {
    hide RawCells;
    if k > 0 {
      RawRowAt(rows[1..], strings, k - 1);
    } else if |rows| > 1 {
      RawRowAt(rows[1..], strings, 0);
    }
  }

  // ---------------------------------------------------------------------------------------------
  // By reference alone
  // ---------------------------------------------------------------------------------------------

  /** All cells of a sheet, whatever row they stand in. */
  function AllCells(rows: seq<RawRow>): seq<RawCell> {
    if rows == [] then [] else AllCells(rows[..|rows| - 1]) + rows[|rows| - 1].cells
  }

  function FindReference(cells: seq<RawCell>, ref: string): Reading {
    if cells == [] then Absent
    else if cells[|cells| - 1].ref == ref then cells[|cells| - 1].reading
    else FindReference(cells[..|cells| - 1], ref)
  }

  /** What a spreadsheet shows at a column and row: the header in row 1, data row `r` in row `r + 2`. */
  function Shows(sheet: Sheet, column: nat, row: nat): Reading {
    if row == 1 then if column < |sheet.headers| then Expected(sheet.headers, {}, true, column) else Absent
    else if 2 <= row < |sheet.rows| + 2 && column < |sheet.rows[row - 2]|
    then Expected(sheet.rows[row - 2], UncachedIn(sheet, row - 2), false, column)
    else Absent
  }

  predicate ReferencesDistinct(cells: seq<RawCell>) {
    forall i, j :: 0 <= i < j < |cells| ==> cells[i].ref != cells[j].ref
  }

  ghost predicate PlacedBelow(ref: string, limit: nat) {
    exists row: nat, n: nat :: row < limit && Placed(ref, row, n)
  }

  /** No two cells have one reference, each is of a column and of a row below the limit, and each reference
      to such a row finds what the sheet shows there. */
  ghost predicate CellsPlaced(cells: seq<RawCell>, sheet: Sheet, limit: nat) {
    && ReferencesDistinct(cells)
    && (forall i :: 0 <= i < |cells| ==> PlacedBelow(cells[i].ref, limit))
    && (forall column: nat, row: nat :: row < limit ==>
          FindReference(cells, CellReference(column, row)) == Shows(sheet, column, row))
  }

  /** Placed by its reference alone every cell is where it belongs, and every reference there is finds what
      the sheet shows. */
  ghost predicate SheetPlaced(rows: seq<RawRow>, sheet: Sheet) {
    var cells := AllCells(rows);
    && CellsPlaced(cells, sheet, |sheet.rows| + 2)
    && (forall column: nat, row: nat :: FindReference(cells, CellReference(column, row)) == Shows(sheet, column, row))
  }

  ghost predicate OfRow(ref: string, row: nat) {
    exists n: nat :: Placed(ref, row, n)
  }

  /** The cells of one row. */
  ghost predicate RowPlaced(cells: seq<RawCell>, sheet: Sheet, number: nat) {
    && ReferencesDistinct(cells)
    && (forall i :: 0 <= i < |cells| ==> OfRow(cells[i].ref, number))
    && (forall column: nat :: FindReference(cells, CellReference(column, number)) == Shows(sheet, column, number))
  }

  lemma {:induction false} RawCellAt(cells: seq<Cell>, strings: seq<string>, i: nat)
    requires i < |cells|
    ensures |RawCells(cells, strings)| == |cells|
    ensures RawCells(cells, strings)[i]
         == RawCell(cells[i].ref, Columns.ColumnOf(cells[i].ref), ReadCell(cells[i], strings))
  {
    hide ReadCell, Columns.ColumnOf;
    if i > 0 {
      RawCellAt(cells[1..], strings, i - 1);
    } else if |cells| > 1 {
      RawCellAt(cells[1..], strings, 0);
    }
  }

  lemma SameReferences(cells: seq<Cell>, strings: seq<string>)
    ensures |RawCells(cells, strings)| == |cells|
    ensures forall i :: 0 <= i < |cells| ==> RawCells(cells, strings)[i].ref == cells[i].ref
  {
    hide ReadCell, Columns.ColumnOf;
    if cells != [] { RawCellAt(cells, strings, 0); }
    forall i | 0 <= i < |cells|
      ensures RawCells(cells, strings)[i].ref == cells[i].ref
    {
      RawCellAt(cells, strings, i);
    }
  }

  /** A reference finds the cell that carries it. */
  lemma {:induction false} FoundByReference(cells: seq<RawCell>, i: nat)
    requires i < |cells| && ReferencesDistinct(cells)
    ensures FindReference(cells, cells[i].ref) == cells[i].reading
  {
    if i < |cells| - 1 { FoundByReference(cells[..|cells| - 1], i); }
  }

  predicate Carries(cells: seq<RawCell>, ref: string) {
    exists i :: 0 <= i < |cells| && cells[i].ref == ref
  }

  lemma {:induction false} NotFoundByReference(cells: seq<RawCell>, ref: string)
    requires !Carries(cells, ref)
    ensures FindReference(cells, ref) == Absent
  {
    if cells != [] {
      assert forall i :: 0 <= i < |cells| - 1 ==> cells[..|cells| - 1][i] == cells[i];
      NotFoundByReference(cells[..|cells| - 1], ref);
    }
  }

  lemma {:induction false} FoundInTwo(a: seq<RawCell>, b: seq<RawCell>, ref: string)
    ensures FindReference(a + b, ref) == if Carries(b, ref) then FindReference(b, ref) else FindReference(a, ref)
    decreases |b|
  {
    if b == [] {
      assert a + b == a;
    } else {
      var front, last := b[..|b| - 1], b[|b| - 1];
      assert (a + b)[..|a + b| - 1] == a + front && (a + b)[|a + b| - 1] == last;
      FoundInTwo(a, front, ref);
      assert Carries(b, ref) <==> Carries(front, ref) || last.ref == ref;
    }
  }

  lemma {:induction false} FirstOfColumn(cells: seq<Cell>, column: string, strings: seq<string>) returns (i: nat)
    requires Lookup(cells, column, strings) != Absent
    ensures i < |cells| && Columns.ColumnOf(cells[i].ref) == column
    ensures ReadCell(cells[i], strings) == Lookup(cells, column, strings)
  {
    hide Columns.ColumnOf;
    if Columns.ColumnOf(cells[0].ref) == column {
      i := 0;
    } else {
      var j := FirstOfColumn(cells[1..], column, strings);
      i := j + 1;
    }
  }

  lemma {:induction false} ColumnIsLookedUp(cells: seq<Cell>, i: nat, strings: seq<string>)
    requires i < |cells|
    ensures Lookup(cells, Columns.ColumnOf(cells[i].ref), strings) != Absent
  {
    hide Columns.ColumnOf;
    if i > 0 { ColumnIsLookedUp(cells[1..], i - 1, strings); }
  }

  lemma PlacedColumn(ref: string, row: nat, n: nat, column: nat)
    requires Placed(ref, row, n)
    ensures Columns.ColumnOf(ref) == Columns.Name(column) <==> ref == CellReference(column, row)
  {
    hide Columns.ColumnOf, Columns.Name, Decimal;
    var c: nat :| c < n && ref == CellReference(c, row);
    Columns.ColumnOfReference(c, row);
    Columns.ColumnOfReference(column, row);
    if Columns.Name(c) == Columns.Name(column) { Columns.NameInjective(c, column); }
  }

  /** In a row whose references are all of that row, a reference finds what its column does. */
  lemma ReferenceFindsColumn(cells: seq<Cell>, number: nat, n: nat, strings: seq<string>, column: nat)
    requires Referenced(cells, number, n)
    ensures FindReference(RawCells(cells, strings), CellReference(column, number))
         == Lookup(cells, Columns.Name(column), strings)
  {
    hide Columns.ColumnOf, Columns.Name, Lookup, FindReference, RawCells, CellReference, ReadCell, Placed;
    var raw, ref := RawCells(cells, strings), CellReference(column, number);
    SameReferences(cells, strings);
    forall i | 0 <= i < |cells|
      ensures Columns.ColumnOf(cells[i].ref) == Columns.Name(column) <==> raw[i].ref == ref
    {
      PlacedColumn(cells[i].ref, number, n, column);
    }
    if Lookup(cells, Columns.Name(column), strings) == Absent {
      forall i | 0 <= i < |raw|
        ensures raw[i].ref != ref
      {
        ColumnIsLookedUp(cells, i, strings);
      }
      NotFoundByReference(raw, ref);
    } else {
      var i := FirstOfColumn(cells, Columns.Name(column), strings);
      RawCellAt(cells, strings, i);
      FoundByReference(raw, i);
    }
  }

  /** What the columns of a row read, by number. */
  lemma ColumnReads(cells: seq<Cell>, values: seq<string>, uncached: set<nat>, header: bool, strings: seq<string>,
      column: nat)
    requires ReadsBack(cells, values, uncached, header, |values|, strings)
    ensures Lookup(cells, Columns.Name(column), strings)
         == if column < |values| then Expected(values, uncached, header, column) else Absent
  {
    hide Columns.Name, Lookup, Expected;
    if column >= |values| {
      forall c: nat | c < |values|
        ensures Columns.Name(c) != Columns.Name(column)
      {
        if Columns.Name(c) == Columns.Name(column) { Columns.NameInjective(c, column); }
      }
    }
  }

  lemma RowIsPlaced(cells: seq<Cell>, values: seq<string>, uncached: set<nat>, header: bool, sheet: Sheet, number: nat,
                    strings: seq<string>)
    requires ReadsBack(cells, values, uncached, header, |values|, strings) && Referenced(cells, number, |values|)
    requires RowShows(sheet, number, values, uncached, header)
    ensures RowPlaced(RawCells(cells, strings), sheet, number)
  {
    hide ReadsBack, RawCells, FindReference, CellReference, Placed, Expected, Shows, Columns.Name, Lookup;
    var raw := RawCells(cells, strings);
    SameReferences(cells, strings);
    forall i | 0 <= i < |raw|
      ensures OfRow(raw[i].ref, number)
    {
      assert Placed(cells[i].ref, number, |values|);
    }
    forall column: nat
      ensures FindReference(raw, CellReference(column, number)) == Shows(sheet, column, number)
    {
      assert ShownAt(sheet, column, number, values, uncached, header);
      ReferenceFindsColumn(cells, number, |values|, strings, column);
      ColumnReads(cells, values, uncached, header, strings, column);
    }
  }

  lemma OtherRow(ref: string, row: nat, n: nat, column: nat, other: nat)
    requires Placed(ref, row, n) && row != other
    ensures ref != CellReference(column, other)
  {
    hide CellReference;
    var c: nat :| c < n && ref == CellReference(c, row);
    ReferencesDiffer(c, row, column, other);
  }

  lemma NotCarried(cells: seq<RawCell>, limit: nat, column: nat, row: nat)
    requires (forall i :: 0 <= i < |cells| ==> PlacedBelow(cells[i].ref, limit)) && row >= limit
    ensures !Carries(cells, CellReference(column, row))
  {
    hide CellReference, Placed;
    forall i | 0 <= i < |cells|
      ensures cells[i].ref != CellReference(column, row)
    {
      var other: nat, n: nat :| other < limit && Placed(cells[i].ref, other, n);
      OtherRow(cells[i].ref, other, n, column, row);
    }
  }

  lemma NotInRow(cells: seq<RawCell>, sheet: Sheet, number: nat, column: nat, row: nat)
    requires RowPlaced(cells, sheet, number) && row != number
    ensures !Carries(cells, CellReference(column, row))
  {
    hide CellReference, Placed, FindReference, Shows;
    forall i | 0 <= i < |cells|
      ensures cells[i].ref != CellReference(column, row)
    {
      assert OfRow(cells[i].ref, number);
      var n: nat :| Placed(cells[i].ref, number, n);
      OtherRow(cells[i].ref, number, n, column, row);
    }
  }

  /** One more row. */
  lemma RowsPlaced(a: seq<RawCell>, b: seq<RawCell>, sheet: Sheet, number: nat)
    requires CellsPlaced(a, sheet, number) && RowPlaced(b, sheet, number)
    ensures CellsPlaced(a + b, sheet, number + 1)
  {
    hide FindReference, CellReference, Placed, Shows, Carries;
    forall i | 0 <= i < |a + b|
      ensures PlacedBelow((a + b)[i].ref, number + 1)
    {
      if i < |a| {
        assert PlacedBelow(a[i].ref, number);
      } else {
        assert OfRow(b[i - |a|].ref, number);
        var n: nat :| Placed(b[i - |a|].ref, number, n);
      }
    }
    forall column: nat, row: nat | row <= number
      ensures FindReference(a + b, CellReference(column, row)) == Shows(sheet, column, row)
    {
      var ref := CellReference(column, row);
      FoundInTwo(a, b, ref);
      if row < number {
        NotInRow(b, sheet, number, column, row);
      } else {
        NotCarried(a, number, column, row);
        NotFoundByReference(a, ref);
        if !Carries(b, ref) { NotFoundByReference(b, ref); }
      }
    }
    ReferencesApart(a, b, sheet, number);
  }

  lemma ReferencesApart(a: seq<RawCell>, b: seq<RawCell>, sheet: Sheet, number: nat)
    requires CellsPlaced(a, sheet, number) && RowPlaced(b, sheet, number)
    ensures ReferencesDistinct(a + b)
  {
    hide FindReference, CellReference, Shows;
    forall i, j | 0 <= i < |a| && 0 <= j < |b|
      ensures a[i].ref != b[j].ref
    {
      assert PlacedBelow(a[i].ref, number);
      var row: nat, n: nat :| row < number && Placed(a[i].ref, row, n);
      assert OfRow(b[j].ref, number);
      var m: nat :| Placed(b[j].ref, number, m);
      var column: nat :| column < m && b[j].ref == CellReference(column, number);
      OtherRow(a[i].ref, row, n, column, number);
    }
  }

  lemma NothingPlaced(sheet: Sheet)
    ensures CellsPlaced([], sheet, 1)
  {
  }

  /** The values, if any, that the sheet shows in a row. */
  ghost predicate RowShows(sheet: Sheet, row: nat, values: seq<string>, uncached: set<nat>, header: bool) {
    forall column: nat :: ShownAt(sheet, column, row, values, uncached, header)
  }

  predicate ShownAt(sheet: Sheet, column: nat, row: nat, values: seq<string>, uncached: set<nat>, header: bool) {
    Shows(sheet, column, row) == if column < |values| then Expected(values, uncached, header, column) else Absent
  }

  lemma HeaderShows(sheet: Sheet)
    ensures RowShows(sheet, 1, sheet.headers, {}, true)
  {
  }

  lemma DataShows(sheet: Sheet, row: nat)
    requires 2 <= row < |sheet.rows| + 2
    ensures RowShows(sheet, row, sheet.rows[row - 2], UncachedIn(sheet, row - 2), false)
  {
    hide UncachedIn;
  }

  lemma {:induction false} FirstRowsPlaced(rows: seq<Row>, sheet: Sheet, strings: seq<string>, n: nat)
    requires SheetReadsBack(rows, sheet, |sheet.rows|, strings) && n <= |rows| == |RawRows(rows, strings)|
    ensures CellsPlaced(AllCells(RawRows(rows, strings)[..n]), sheet, n + 1)
  {
    hide ReadsBack, Referenced, RawCells, RawRows, UncachedIn, CellsPlaced, RowPlaced, Expected, Shows;
    var raw := RawRows(rows, strings);
    if n == 0 {
      NothingPlaced(sheet);
      assert raw[..0] == [];
    } else {
      FirstRowsPlaced(rows, sheet, strings, n - 1);
      RawRowAt(rows, strings, n - 1);
      if n == 1 {
        HeaderShows(sheet);
        RowIsPlaced(rows[0].cells, sheet.headers, {}, true, sheet, 1, strings);
      } else {
        assert RowReadsBack(rows[n - 1], sheet, n - 2, strings);
        DataShows(sheet, n);
        RowIsPlaced(rows[n - 1].cells, sheet.rows[n - 2], UncachedIn(sheet, n - 2), false, sheet, n, strings);
      }
      assert raw[..n][..n - 1] == raw[..n - 1];
      RowsPlaced(AllCells(raw[..n - 1]), raw[n - 1].cells, sheet, n);
    }
  }

  lemma SheetIsPlaced(rows: seq<Row>, sheet: Sheet, strings: seq<string>)
    requires SheetReadsBack(rows, sheet, |sheet.rows|, strings)
    ensures SheetPlaced(RawRows(rows, strings), sheet)
  {
    hide RawRows, FindReference, CellReference, Placed, ReadsBack, RowReadsBack, Referenced, AllCells, Carries;
    RawRowAt(rows, strings, 0);
    var raw := RawRows(rows, strings);
    var cells, limit := AllCells(raw), |sheet.rows| + 2;
    FirstRowsPlaced(rows, sheet, strings, |rows|);
    assert raw[..|rows|] == raw;
    forall column: nat, row: nat | row >= limit
      ensures FindReference(cells, CellReference(column, row)) == Shows(sheet, column, row)
    {
      NotCarried(cells, limit, column, row);
      NotFoundByReference(cells, CellReference(column, row));
    }
  }

  // ---------------------------------------------------------------------------------------------
  // The whole workbook
  // ---------------------------------------------------------------------------------------------

  /** The sizes up to which the reader takes an index or a row number for one. */
  predicate WithinFifteenDigits(sheet: Sheet, strings: seq<string>) {
    |strings| <= FIFTEEN_DIGITS && |sheet.rows| + 1 < FIFTEEN_DIGITS
  }

  /** What is read of a sheet's text: every row and column, by row and column as the product finds them, and
      by reference alone. */
  ghost predicate SheetRead(text: string, strings: seq<string>, untyped: string -> string, sheet: Sheet) {
    var rows := ReadSheet(text, strings, untyped);
    SheetFound(rows, sheet) && SheetPlaced(rows, sheet)
  }

  /** Whatever is done with other untyped text, the sheet is found in its text. */
  ghost predicate TextComesBack(text: string, strings: seq<string>, sheet: Sheet) {
    WithinFifteenDigits(sheet, strings) ==> forall untyped :: SheetRead(text, strings, untyped, sheet)
  }

  lemma SheetComesBack(rows: seq<Row>, sheet: Sheet, strings: seq<string>)
    requires SheetReadsBack(rows, sheet, |sheet.rows|, strings)
    ensures TextComesBack(SheetText(rows), strings, sheet)
  {
    hide SheetRead, SheetText, SheetReadsBack;
    if WithinFifteenDigits(sheet, strings) {
      forall untyped
        ensures SheetRead(SheetText(rows), strings, untyped, sheet)
      {
        SheetIsRead(rows, sheet, strings, untyped);
      }
    }
  }

  lemma RowsArePlain(rows: seq<Row>, sheet: Sheet, strings: seq<string>)
    requires SheetReadsBack(rows, sheet, |sheet.rows|, strings) && WithinFifteenDigits(sheet, strings)
    ensures PlainRows(rows)
  {
    hide ReadsBack, Referenced, RowFound, RawCells, PlainCells, UncachedIn;
    RowIsFound(rows[0].cells, sheet.headers, {}, true, strings);
    forall k | 1 <= k < |rows|
      ensures PlainRow(rows[k])
    {
      assert RowReadsBack(rows[k], sheet, k - 1, strings);
      RowIsFound(rows[k].cells, sheet.rows[k - 1], UncachedIn(sheet, k - 1), false, strings);
    }
  }

  lemma SheetIsFound(rows: seq<Row>, sheet: Sheet, strings: seq<string>)
    requires SheetReadsBack(rows, sheet, |sheet.rows|, strings)
    ensures SheetFound(RawRows(rows, strings), sheet)
  {
    hide ReadsBack, Referenced, RowFound, RawCells, RawRows, PlainCells, UncachedIn;
    var raw := RawRows(rows, strings);
    RawRowAt(rows, strings, 0);
    RowIsFound(rows[0].cells, sheet.headers, {}, true, strings);
    forall k | 1 <= k < |rows|
      ensures DataRowFound(raw[k], sheet, k - 1)
    {
      RawRowAt(rows, strings, k);
      assert RowReadsBack(rows[k], sheet, k - 1, strings);
      RowIsFound(rows[k].cells, sheet.rows[k - 1], UncachedIn(sheet, k - 1), false, strings);
    }
  }

  lemma SheetIsRead(rows: seq<Row>, sheet: Sheet, strings: seq<string>, untyped: string -> string)
    requires SheetReadsBack(rows, sheet, |sheet.rows|, strings) && WithinFifteenDigits(sheet, strings)
    ensures SheetRead(SheetText(rows), strings, untyped, sheet)
  {
    hide SheetFound, SheetPlaced, ReadSheet, SheetText, SheetReadsBack, RawRows, PlainRows, WithinFifteenDigits;
    RowsArePlain(rows, sheet, strings);
    SheetTextIsRead(rows, strings, untyped);
    SheetIsFound(rows, sheet, strings);
    SheetIsPlaced(rows, sheet, strings);
  }

  /** The text of every sheet and of the shared strings.  Read by pattern, each sheet gives its header and
      its rows, each value in its column. */
  method BuildTexts(sheets: seq<Sheet>) returns (parts: seq<string>, shared: string)
    ensures |parts| == |sheets|
    ensures forall k :: 0 <= k < |sheets| ==> TextComesBack(parts[k], ReadStrings(shared), sheets[k])
  {
    hide SheetReadsBack, TextComesBack, SheetText, StringsText, ReadStrings;
    var rows, strings := Build(sheets);
    shared := StringsText(strings);
    StringsTextIsRead(strings);
    parts := seq(|rows|, k requires 0 <= k < |rows| => SheetText(rows[k]));
    forall k | 0 <= k < |sheets|
      ensures TextComesBack(parts[k], strings, sheets[k])
    {
      SheetComesBack(rows[k], sheets[k], strings);
    }
  }
}
