/** Spreadsheet column names: bijective base 26, written without a zero digit. */
module Columns {
  import opened Text

  predicate IsLetter(c: char) {
    'A' <= c <= 'Z'
  }

  predicate IsColumn(s: string) {
    s != "" && forall i :: 0 <= i < |s| ==> IsLetter(s[i])
  }

  function Letter(d: nat): (c: char)
    requires d < 26
    ensures IsLetter(c)
  {
    (d + 'A' as int) as char
  }

  function Name(index: nat): (s: string)
    ensures IsColumn(s)
    decreases index
  {
    if index < 26 then [Letter(index)] else Name(index / 26 - 1) + [Letter(index % 26)]
  }

  /** The zero-based position of a column name among all of them, shorter names first. */
  function Index(s: string): nat
    requires IsColumn(s)
    decreases |s|
  {
    var last := s[|s| - 1] as int - 'A' as int;
    if |s| == 1 then last else 26 * (Index(s[..|s| - 1]) + 1) + last
  }

  lemma {:induction false} IndexOfName(index: nat)
    ensures Index(Name(index)) == index
    decreases index
  {
    if index >= 26 {
      assert Name(index)[..|Name(index)| - 1] == Name(index / 26 - 1);
      IndexOfName(index / 26 - 1);
    }
  }

  lemma {:induction false} NameOfIndex(s: string)
    requires IsColumn(s)
    ensures Name(Index(s)) == s
    decreases |s|
  {
    if |s| > 1 {
      var front, last := s[..|s| - 1], s[|s| - 1] as int - 'A' as int;
      NameOfIndex(front);
      var index := 26 * (Index(front) + 1) + last;
      assert index / 26 - 1 == Index(front) && index % 26 == last;
      assert s == front + [s[|s| - 1]];
    }
  }

  /** Different columns have different names. */
  lemma NameInjective(a: nat, b: nat)
    requires Name(a) == Name(b)
    ensures a == b
  {
    IndexOfName(a);
    IndexOfName(b);
  }

  /** The program's loop, which builds the name from its last letter. */
  method ColumnName(index: nat) returns (out: string)
    ensures out == Name(index)
  {
    var n: int := index;
    out := [Letter(n % 26)];
    n := n / 26 - 1;
    while n >= 0
      invariant -1 <= n
      invariant if n == -1 then out == Name(index) else Name(n) + out == Name(index)
    {
      NameStep(n, out);
      out := [Letter(n % 26)] + out;
      n := n / 26 - 1;
    }
  }

  lemma NameStep(n: nat, out: string)
    ensures Name(n) + out == (if n < 26 then "" else Name(n / 26 - 1)) + ([Letter(n % 26)] + out)
  {
  }

  /** The reader takes a cell's column to be the letters its reference starts with. */
  function ColumnOf(reference: string): string {
    reference[..Span(reference, c => IsLetter(c))]
  }

  lemma ColumnOfReference(column: nat, row: nat)
    ensures ColumnOf(Name(column) + Decimal(row)) == Name(column)
  {
    SpanStops(Name(column), Decimal(row), c => IsLetter(c));
  }
}
