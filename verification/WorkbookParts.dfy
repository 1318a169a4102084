/** The parts of a written workbook, by name: no two share one and the product's reader refuses none, so
    every part is read back from the container. */
module WorkbookParts {
  import opened Text
  import opened Wrappers
  import opened Zip
  import opened ZipReader

  function SheetPart(ordinal: nat): string {
    "xl/worksheets/sheet" + (Decimal(ordinal) + ".xml")
  }

  /** The five fixed parts, then one a sheet. */
  function PartName(k: nat): string {
    if k == 0 then "[Content_Types].xml" else if k == 1 then "_rels/.rels" else if k == 2 then "xl/workbook.xml"
    else if k == 3 then "xl/_rels/workbook.xml.rels" else if k == 4 then "xl/sharedStrings.xml"
    else SheetPart(k - 4)
  }

  lemma FixedMarks(k: nat)
    requires k < 5
    ensures |PartName(k)| == (if k == 0 then 19 else if k == 1 then 11 else if k == 2 then 15 else if k == 3 then 26
      else 20)
    ensures PartName(k)[3] != 'w' || |PartName(k)| < 23
  {
    hide SheetPart;
  }

  lemma TypesAreSafe()
    ensures SafeName("[Content_Types].xml")
  {
  }

  lemma RelsAreSafe()
    ensures SafeName("_rels/.rels")
  {
  }

  lemma WorkbookIsSafe()
    ensures SafeName("xl/workbook.xml")
  {
  }

  lemma WorkbookRelsAreSafe()
    ensures SafeName("xl/_rels/workbook.xml.rels")
  {
  }

  lemma StringsAreSafe()
    ensures SafeName("xl/sharedStrings.xml")
  {
  }

  lemma FixedIsSafe(k: nat)
    requires k < 5
    ensures SafeName(PartName(k))
  {
    hide SheetPart, SafeName;
    TypesAreSafe();
    RelsAreSafe();
    WorkbookIsSafe();
    WorkbookRelsAreSafe();
    StringsAreSafe();
  }

  lemma SheetMarks(ordinal: nat)
    ensures |SheetPart(ordinal)| >= 24 && SheetPart(ordinal)[3] == 'w'
    ensures SheetPart(ordinal)[19..|SheetPart(ordinal)| - 4] == Decimal(ordinal)
  {
    hide Decimal;
  }

  lemma SheetsDiffer(m: nat, n: nat)
    requires SheetPart(m) == SheetPart(n)
    ensures m == n
  {
    hide Decimal, SheetPart;
    SheetMarks(m);
    SheetMarks(n);
    DecimalParses(m);
    DecimalParses(n);
  }

  /** No two parts share a name. */
  lemma PartsDiffer(j: nat, k: nat)
    ensures PartName(j) == PartName(k) <==> j == k
  {
    hide SheetPart;
    if j < 5 { FixedMarks(j); } else { SheetMarks(j - 4); }
    if k < 5 { FixedMarks(k); } else { SheetMarks(k - 4); }
    if j >= 5 && k >= 5 && PartName(j) == PartName(k) { SheetsDiffer(j - 4, k - 4); }
  }

  lemma SheetIsSafe(ordinal: nat)
    ensures SafeName(SheetPart(ordinal))
  {
    hide Decimal;
    var digits, name := Decimal(ordinal), SheetPart(ordinal);
    assert forall i :: 0 <= i < 19 ==> name[i] == "xl/worksheets/sheet"[i] != '.';
    assert forall i :: 19 <= i < 19 + |digits| ==> name[i] == digits[i - 19] && IsDigit(name[i]);
    assert forall i :: 19 + |digits| < i < |name| ==> name[i] == ".xml"[i - 19 - |digits|] != '.';
  }

  /** The reader refuses none of the names. */
  lemma PartIsSafe(k: nat)
    ensures SafeName(PartName(k))
  {
    hide SheetPart, SafeName;
    if k < 5 { FixedIsSafe(k); } else { SheetIsSafe(k - 4); }
  }

  /** A written workbook opens exactly when it is within the reader's three ceilings, and then every part
      is found by its name and holds what was written. */
  lemma EveryPartComesBack(codec: Codec, members: seq<Member>, budget: Budget, k: nat)
    requires codec.Sound() && Fits(PackAll(codec, members)) && k < |members|
    requires forall j :: 0 <= j < |members| ==> members[j].name == PartName(j)
    ensures var b := Archive(PackAll(codec, members)); var archive := Open(codec, b, budget);
      && (archive.Ok? <==>
            && |b| <= budget.maxInputBytes && |members| <= budget.maxEntries
            && forall j :: 0 <= j < |members| ==> |members[j].bytes| <= budget.maxEntryBytes)
      && (archive.Ok? && budget.maxEntryBytes <= budget.maxOutputBytes ==>
            Read(codec, b, budget, archive.value, PartName(k)) == Ok(Some(members[k].bytes)))
  {
    hide Open, Archive, Fits, Pack, Read, PartName, SafeName, EntriesOf;
    var ps := PackAll(codec, members);
    OpenReadsBack(codec, ps, budget);
    forall j | 0 <= j < |members|
      ensures codec.decode(ps[j].name) == PartName(j) && SafeName(codec.decode(ps[j].name))
        && ps[j].raw == members[j].bytes
    {
      PartIsSafe(j);
    }
    forall j | 0 <= j < k ensures members[j].name != members[k].name {
      PartsDiffer(j, k);
    }
    if Open(codec, Archive(ps), budget).Ok? {
      assert Admissible(codec, budget, ps[k]);
      RoundTrip(codec, members, budget, k);
    }
  }
}
