/** The workbook writer of scripts/fixtures/office.ts and the cell rules of the product's workbook
    reader (src/platform/parse/xlsx.ts), between the XML elements: what each `<c>` and `<row>` says. */
module Workbook {
  import opened Text
  import Columns

  datatype Sheet = Sheet(name: string, headers: seq<string>, rows: seq<seq<string>>, uncached: set<(nat, nat)>)

  /** `<c r t="s"><v>index</v></c>`, `<c r><v>text</v></c>`, `<c r><f>…</f></c>`. */
  datatype Cell = Shared(ref: string, index: nat) | Number(ref: string, text: string) | Formula(ref: string)

  datatype Row = Row(number: nat, cells: seq<Cell>)

  /** `/^-?\d+(\.\d+)?$/` */
  predicate IsPlainNumber(s: string) {
    var t := if s != "" && s[0] == '-' then s[1..] else s;
    var whole := Span(t, IsDigit);
    && whole > 0
    && (whole == |t| || (t[whole] == '.' && whole + 1 < |t| && AllDigits(t[whole + 1..])))
  }

  /** Of the three parts that pattern names: a minus or nothing, digits, and a point with digits or nothing. */
  predicate PlainParts(s: string, sign: string, whole: string, tail: string) {
    && s == sign + (whole + tail) && (sign == "" || sign == "-") && whole != "" && AllDigits(whole)
    && (tail == "" || (|tail| > 1 && tail[0] == '.' && AllDigits(tail[1..])))
  }

  /** A text is a plain number if and only if it has three such parts. */
  lemma PlainNumberIff(s: string)
    ensures IsPlainNumber(s) <==>
      exists sign: string, whole: string, tail: string :: PlainParts(s, sign, whole, tail)
  {
    hide IsPlainNumber, PlainParts;
    if IsPlainNumber(s) {
      var sign, whole, tail := PlainHasParts(s);
    }
    forall sign: string, whole: string, tail: string | PlainParts(s, sign, whole, tail) ensures IsPlainNumber(s) {
      PartsArePlain(s, sign, whole, tail);
    }
  }

  lemma PlainHasParts(s: string) returns (sign: string, whole: string, tail: string)
    requires IsPlainNumber(s)
    ensures PlainParts(s, sign, whole, tail)
  {
    var t := if s != "" && s[0] == '-' then s[1..] else s;
    sign := if s != "" && s[0] == '-' then "-" else "";
    var n := Span(t, IsDigit);
    whole, tail := t[..n], t[n..];
    Parted(s, sign, t, n);
    if n < |t| {
      Pointed(t, n);
    }
  }

  lemma Parted(s: string, sign: string, t: string, n: nat)
    requires n <= |t| && if s != "" && s[0] == '-' then sign == "-" && t == s[1..] else sign == "" && t == s
    ensures s == sign + (t[..n] + t[n..])
  {
    assert t[..n] + t[n..] == t;
  }

  lemma Pointed(t: string, n: nat)
    requires n + 1 < |t|
    ensures |t[n..]| > 1 && t[n..][0] == t[n] && t[n..][1..] == t[n + 1..]
  {
  }

  lemma PartsArePlain(s: string, sign: string, whole: string, tail: string)
    requires PlainParts(s, sign, whole, tail)
    ensures IsPlainNumber(s)
  {
    var t := whole + tail;
    SpanStops(whole, tail, IsDigit);
    assert s[0] == (sign + t)[0] && s[|sign|..] == t;
    assert t[|whole|..] == tail;
    assert tail != "" ==> t[|whole| + 1..] == tail[1..];
  }

  predicate IsReferenceChar(c: char) {
    Columns.IsLetter(c) || IsDigit(c)
  }

  predicate IsReference(ref: string) {
    forall i :: 0 <= i < |ref| ==> IsReferenceChar(ref[i])
  }

  /** A reference is capitals and then digits, and a number is plain. */
  predicate WellWritten(cell: Cell) {
    && cell.ref != "" && Columns.IsLetter(cell.ref[0]) && IsReference(cell.ref)
    && (cell.Number? ==> IsPlainNumber(cell.text))
  }

  predicate AllWellWritten(cells: seq<Cell>) {
    forall i :: 0 <= i < |cells| ==> WellWritten(cells[i])
  }

  lemma ReferenceLooks(column: nat, row: nat)
    ensures Columns.Name(column) + Decimal(row) != "" && Columns.IsLetter((Columns.Name(column) + Decimal(row))[0])
    ensures IsReference(Columns.Name(column) + Decimal(row))
  {
    hide Decimal;
  }

  // ---------------------------------------------------------------------------------------------
  // The reader's rules
  // ---------------------------------------------------------------------------------------------

  datatype Reading = Absent | Value(text: string) | UncachedFormula

  function ReadCell(cell: Cell, shared: seq<string>): Reading {
    match cell
    case Shared(_, i) => Value(if i < |shared| then shared[i] else "")
    case Number(_, text) => Value(text)
    case Formula(_) => UncachedFormula
  }

  /** The first cell of that column counts. */
  function Lookup(cells: seq<Cell>, column: string, shared: seq<string>): Reading {
    if cells == [] then Absent
    else if Columns.ColumnOf(cells[0].ref) == column then ReadCell(cells[0], shared)
    else Lookup(cells[1..], column, shared)
  }

  predicate IndicesValid(cells: seq<Cell>, shared: seq<string>) {
    forall cell :: cell in cells && cell.Shared? ==> cell.index < |shared|
  }

  /** Strings are only ever appended, so what is readable stays readable, and reads the same. */
  lemma {:induction false} StaysReadable(cells: seq<Cell>, column: string, shared: seq<string>, more: seq<string>)
    requires IndicesValid(cells, shared) && shared <= more
    ensures Lookup(cells, column, more) == Lookup(cells, column, shared)
  {
    if cells != [] {
      assert cells[0] in cells;
      StaysReadable(cells[1..], column, shared, more);
    }
  }

  lemma {:induction false} LookupAppended(cells: seq<Cell>, cell: Cell, column: string, shared: seq<string>)
    ensures Lookup(cells + [cell], column, shared) ==
      if Lookup(cells, column, shared) != Absent then Lookup(cells, column, shared)
      else if Columns.ColumnOf(cell.ref) == column then ReadCell(cell, shared)
      else Absent
  {
    if cells == [] {
      assert cells + [cell] == [cell];
    } else {
      assert (cells + [cell])[1..] == cells[1..] + [cell];
      LookupAppended(cells[1..], cell, column, shared);
    }
  }

  // ---------------------------------------------------------------------------------------------
  // What a row must read back as
  // ---------------------------------------------------------------------------------------------

  /** Blank cells are not written; an uncached formula hides its value; headers are always written. */
  function Expected(values: seq<string>, uncached: set<nat>, header: bool, c: nat): Reading
    requires c < |values|
  {
    if header then Value(values[c])
    else if c in uncached then UncachedFormula
    else if values[c] == "" then Absent
    else Value(values[c])
  }

  /** The cells of the first `n` columns are well written and read back as those columns, and there are no
      other cells. */
  ghost predicate ReadsBack(cells: seq<Cell>, values: seq<string>, uncached: set<nat>, header: bool, n: nat,
      shared: seq<string>)
    requires n <= |values|
  {
    && IndicesValid(cells, shared) && AllWellWritten(cells)
    && (forall c: nat :: c < n ==> Lookup(cells, Columns.Name(c), shared) == Expected(values, uncached, header, c))
    && (forall column ::
          (forall c: nat :: c < n ==> Columns.Name(c) != column)
          ==> Lookup(cells, column, shared) == Absent)
  }

  lemma NoCellsYet(values: seq<string>, uncached: set<nat>, header: bool, row: nat, shared: seq<string>)
    ensures ReadsBack([], values, uncached, header, 0, shared) && Referenced([], row, 0)
  {
  }

  lemma ReadsBackLater(cells: seq<Cell>, values: seq<string>, uncached: set<nat>, header: bool, n: nat,
                       shared: seq<string>, more: seq<string>)
    requires n <= |values| && shared <= more && ReadsBack(cells, values, uncached, header, n, shared)
    ensures ReadsBack(cells, values, uncached, header, n, more)
  {
    forall column
      ensures Lookup(cells, column, more) == Lookup(cells, column, shared)
    {
      StaysReadable(cells, column, shared, more);
    }
  }

  lemma ReadsBackNext(cells: seq<Cell>, cell: Cell, values: seq<string>, uncached: set<nat>, header: bool, n: nat,
                      row: nat, shared: seq<string>)
    requires n < |values| && ReadsBack(cells, values, uncached, header, n, shared)
    requires cell.ref == Columns.Name(n) + Decimal(row) && (cell.Shared? ==> cell.index < |shared|)
    requires cell.Number? ==> IsPlainNumber(cell.text)
    requires ReadCell(cell, shared) == Expected(values, uncached, header, n)
    ensures ReadsBack(cells + [cell], values, uncached, header, n + 1, shared)
  {
    hide WellWritten;
    Columns.ColumnOfReference(n, row);
    NextWellWritten(cells, cell, n, row);
    forall c: nat | c < n
      ensures Columns.Name(c) != Columns.Name(n)
    {
      if Columns.Name(c) == Columns.Name(n) {
        Columns.NameInjective(c, n);
      }
    }
    forall column
      ensures Lookup(cells + [cell], column, shared) ==
        if Lookup(cells, column, shared) != Absent then Lookup(cells, column, shared)
        else if Columns.Name(n) == column then ReadCell(cell, shared)
        else Absent
    {
      LookupAppended(cells, cell, column, shared);
    }
  }

  lemma NextWellWritten(cells: seq<Cell>, cell: Cell, n: nat, row: nat)
    requires AllWellWritten(cells) && cell.ref == Columns.Name(n) + Decimal(row)
    requires cell.Number? ==> IsPlainNumber(cell.text)
    ensures AllWellWritten(cells + [cell])
  {
    ReferenceLooks(n, row);
  }

  lemma ReadsBackSkipped(cells: seq<Cell>, values: seq<string>, uncached: set<nat>, n: nat, shared: seq<string>)
    requires n < |values| && ReadsBack(cells, values, uncached, false, n, shared)
    requires Expected(values, uncached, false, n) == Absent
    ensures ReadsBack(cells, values, uncached, false, n + 1, shared)
  {
    forall c: nat | c < n
      ensures Columns.Name(c) != Columns.Name(n)
    {
      if Columns.Name(c) == Columns.Name(n) {
        Columns.NameInjective(c, n);
      }
    }
  }

  // ---------------------------------------------------------------------------------------------
  // Where a reference says a cell is
  // ---------------------------------------------------------------------------------------------

  /** The reference of a column, counted from zero, and a row, as in `A1`. */
  function CellReference(column: nat, row: nat): string {
    Columns.Name(column) + Decimal(row)
  }

  /** A reference names one column and one row. */
  lemma ReferencesDiffer(c: nat, row: nat, d: nat, other: nat)
    ensures CellReference(c, row) == CellReference(d, other) <==> c == d && row == other
  {
    hide Decimal, Columns.Name, Columns.ColumnOf;
    if CellReference(c, row) == CellReference(d, other) {
      Columns.ColumnOfReference(c, row);
      Columns.ColumnOfReference(d, other);
      Columns.NameInjective(c, d);
      SameTail(Columns.Name(c), Decimal(row), Decimal(other));
      DecimalParses(row);
      DecimalParses(other);
    }
  }

  lemma SameTail(a: string, b: string, c: string)
    requires a + b == a + c
    ensures b == c
  {
    assert (a + b)[|a|..] == b && (a + c)[|a|..] == c;
  }

  /** The reference is of this row and of one of the first `n` columns. */
  ghost predicate Placed(ref: string, row: nat, n: nat) {
    exists c: nat :: c < n && ref == CellReference(c, row)
  }

  /** The cells of a row all say so in their references, and no two say the same. */
  ghost predicate Referenced(cells: seq<Cell>, row: nat, n: nat) {
    && (forall i :: 0 <= i < |cells| ==> Placed(cells[i].ref, row, n))
    && (forall i, j :: 0 <= i < j < |cells| ==> cells[i].ref != cells[j].ref)
  }

  lemma ReferencedNext(cells: seq<Cell>, cell: Cell, row: nat, n: nat)
    requires Referenced(cells, row, n) && cell.ref == CellReference(n, row)
    ensures Referenced(cells + [cell], row, n + 1)
  {
    hide CellReference;
    var more := cells + [cell];
    assert Placed(cell.ref, row, n + 1);
    forall i | 0 <= i < |cells|
      ensures Placed(more[i].ref, row, n + 1) && more[i].ref != cell.ref
    {
      assert Placed(cells[i].ref, row, n);
      var c: nat :| c < n && cells[i].ref == CellReference(c, row);
      ReferencesDiffer(c, row, n, row);
    }
  }

  lemma ReferencedSkipped(cells: seq<Cell>, row: nat, n: nat)
    requires Referenced(cells, row, n)
    ensures Referenced(cells, row, n + 1)
  {
    hide CellReference;
    forall i | 0 <= i < |cells|
      ensures Placed(cells[i].ref, row, n + 1)
    {
      assert Placed(cells[i].ref, row, n);
    }
  }

  // ---------------------------------------------------------------------------------------------
  // The writer
  // ---------------------------------------------------------------------------------------------

  class StringTable {
    var strings: seq<string>
    var index: map<string, nat>

    ghost predicate Valid()
      reads this
    {
      && (forall i: nat :: i < |strings| ==> strings[i] in index && index[strings[i]] == i)
      && (forall s :: s in index ==> index[s] < |strings| && strings[index[s]] == s)
    }

    constructor ()
      ensures Valid() && strings == []
    {
      strings, index := [], map[];
    }

    /** A text that is new is appended; a known one keeps its place. */
    method Intern(value: string) returns (i: nat)
      requires Valid()
      modifies this
      ensures Valid()
      ensures strings == if value in old(strings) then old(strings) else old(strings) + [value]
      ensures i < |strings| && strings[i] == value
    {
      if value in index {
        i := index[value];
      } else {
        i := |strings|;
        strings := strings + [value];
        index := index[value := i];
      }
    }

    method HeaderCells(headers: seq<string>) returns (cells: seq<Cell>)
      requires Valid()
      modifies this
      ensures Valid() && old(strings) <= strings
      ensures ReadsBack(cells, headers, {}, true, |headers|, strings)
      ensures Referenced(cells, 1, |headers|)
    {
      hide ReadsBack, Referenced;
      cells := [];
      NoCellsYet(headers, {}, true, 1, strings);
      for i := 0 to |headers|
        invariant Valid() && old(strings) <= strings
        invariant ReadsBack(cells, headers, {}, true, i, strings) && Referenced(cells, 1, i)
      {
        ghost var before := strings;
        var name := Columns.ColumnName(i);
        var s := Intern(headers[i]);
        ReadsBackLater(cells, headers, {}, true, i, before, strings);
        var cell := Shared(name + Decimal(1), s);
        ReadsBackNext(cells, cell, headers, {}, true, i, 1, strings);
        ReferencedNext(cells, cell, 1, i);
        cells := cells + [cell];
      }
    }

    method RowCells(row: seq<string>, number: nat, uncached: set<nat>) returns (cells: seq<Cell>)
      requires Valid()
      modifies this
      ensures Valid() && old(strings) <= strings
      ensures ReadsBack(cells, row, uncached, false, |row|, strings)
      ensures Referenced(cells, number, |row|)
    {
      hide ReadsBack, Referenced, IsPlainNumber, Columns.Name, Decimal;
      cells := [];
      NoCellsYet(row, uncached, false, number, strings);
      for i := 0 to |row|
        invariant Valid() && old(strings) <= strings
        invariant ReadsBack(cells, row, uncached, false, i, strings) && Referenced(cells, number, i)
      {
        var name := Columns.ColumnName(i);
        var ref, value := name + Decimal(number), row[i];
        if i in uncached {
          ReadsBackNext(cells, Formula(ref), row, uncached, false, i, number, strings);
          ReferencedNext(cells, Formula(ref), number, i);
          cells := cells + [Formula(ref)];
        } else if value == "" {
          ReadsBackSkipped(cells, row, uncached, i, strings);
          ReferencedSkipped(cells, number, i);
        } else if IsPlainNumber(value) {
          ReadsBackNext(cells, Number(ref, value), row, uncached, false, i, number, strings);
          ReferencedNext(cells, Number(ref, value), number, i);
          cells := cells + [Number(ref, value)];
        } else {
          ghost var before := strings;
          var s := Intern(value);
          ReadsBackLater(cells, row, uncached, false, i, before, strings);
          ReadsBackNext(cells, Shared(ref, s), row, uncached, false, i, number, strings);
          ReferencedNext(cells, Shared(ref, s), number, i);
          cells := cells + [Shared(ref, s)];
        }
      }
    }

    method SheetRows(sheet: Sheet) returns (rows: seq<Row>)
      requires Valid()
      modifies this
      ensures Valid() && old(strings) <= strings
      ensures SheetReadsBack(rows, sheet, |sheet.rows|, strings)
    {
      hide SheetReadsBack, ReadsBack, Referenced, UncachedIn;
      var header := HeaderCells(sheet.headers);
      rows := [Row(1, header)];
      HeaderReadsBack(header, sheet, strings);
      for r := 0 to |sheet.rows|
        invariant Valid() && old(strings) <= strings
        invariant SheetReadsBack(rows, sheet, r, strings)
      {
        ghost var before := strings;
        var cells := RowCells(sheet.rows[r], r + 2, UncachedIn(sheet, r));
        SheetReadsBackLater(rows, sheet, r, before, strings);
        NextRowReadsBack(rows, cells, sheet, r, strings);
        rows := rows + [Row(r + 2, cells)];
      }
    }
  }

  function UncachedIn(sheet: Sheet, r: nat): set<nat> {
    set p | p in sheet.uncached && p.0 == r :: p.1
  }

  /** The header row is row 1 and data row `r` is row `r + 2`; all of the first `n` read back. */
  ghost predicate SheetReadsBack(rows: seq<Row>, sheet: Sheet, n: nat, shared: seq<string>)
    requires n <= |sheet.rows|
  {
    && |rows| == n + 1
    && rows[0].number == 1
    && ReadsBack(rows[0].cells, sheet.headers, {}, true, |sheet.headers|, shared)
    && Referenced(rows[0].cells, 1, |sheet.headers|)
    && (forall k :: 1 <= k <= n ==> RowReadsBack(rows[k], sheet, k - 1, shared))
  }

  ghost predicate RowReadsBack(row: Row, sheet: Sheet, r: nat, shared: seq<string>)
    requires r < |sheet.rows|
  {
    && row.number == r + 2
    && ReadsBack(row.cells, sheet.rows[r], UncachedIn(sheet, r), false, |sheet.rows[r]|, shared)
    && Referenced(row.cells, r + 2, |sheet.rows[r]|)
  }

  lemma SheetReadsBackLater(rows: seq<Row>, sheet: Sheet, n: nat, shared: seq<string>, more: seq<string>)
    requires n <= |sheet.rows| && shared <= more && SheetReadsBack(rows, sheet, n, shared)
    ensures SheetReadsBack(rows, sheet, n, more)
  {
    hide ReadsBack, Referenced, UncachedIn;
    ReadsBackLater(rows[0].cells, sheet.headers, {}, true, |sheet.headers|, shared, more);
    forall k | 1 <= k <= n
      ensures RowReadsBack(rows[k], sheet, k - 1, more)
    {
      var r := k - 1;
      ReadsBackLater(rows[k].cells, sheet.rows[r], UncachedIn(sheet, r), false, |sheet.rows[r]|, shared, more);
    }
  }

  lemma HeaderReadsBack(header: seq<Cell>, sheet: Sheet, shared: seq<string>)
    requires ReadsBack(header, sheet.headers, {}, true, |sheet.headers|, shared)
    requires Referenced(header, 1, |sheet.headers|)
    ensures SheetReadsBack([Row(1, header)], sheet, 0, shared)
  {
  }

  lemma NextRowReadsBack(rows: seq<Row>, cells: seq<Cell>, sheet: Sheet, r: nat, shared: seq<string>)
    requires r < |sheet.rows| && SheetReadsBack(rows, sheet, r, shared)
    requires ReadsBack(cells, sheet.rows[r], UncachedIn(sheet, r), false, |sheet.rows[r]|, shared)
    requires Referenced(cells, r + 2, |sheet.rows[r]|)
    ensures SheetReadsBack(rows + [Row(r + 2, cells)], sheet, r + 1, shared)
  {
    hide ReadsBack, Referenced, UncachedIn;
    var more := rows + [Row(r + 2, cells)];
    forall k | 1 <= k <= r + 1
      ensures RowReadsBack(more[k], sheet, k - 1, shared)
    {
      if k <= r {
        assert RowReadsBack(rows[k], sheet, k - 1, shared);
      }
    }
  }

  /** Every header and every cell of every sheet reads back at its row and column through the final
      shared strings, however far later sheets made them grow. */
  method Build(sheets: seq<Sheet>) returns (parts: seq<seq<Row>>, strings: seq<string>)
    ensures |parts| == |sheets|
    ensures forall k :: 0 <= k < |sheets| ==> SheetReadsBack(parts[k], sheets[k], |sheets[k].rows|, strings)
  {
    var table := new StringTable();
    parts := [];
    for k := 0 to |sheets|
      invariant table.Valid() && |parts| == k && fresh(table)
      invariant forall j :: 0 <= j < k ==> SheetReadsBack(parts[j], sheets[j], |sheets[j].rows|, table.strings)
    {
      ghost var before := table.strings;
      var rows := table.SheetRows(sheets[k]);
      forall j | 0 <= j < k
        ensures SheetReadsBack(parts[j], sheets[j], |sheets[j].rows|, table.strings)
      {
        SheetReadsBackLater(parts[j], sheets[j], |sheets[j].rows|, before, table.strings);
      }
      parts := parts + [rows];
    }
    strings := table.strings;
  }
}
