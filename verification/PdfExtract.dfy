/** From page lines to a content stream (scripts/fixtures/office.ts) and back to text
    (src/platform/parse/pdf.ts). */
module PdfExtract {
  import opened Text
  import opened PdfText

  predicate IsBlank(line: string) {
    forall i :: 0 <= i < |line| ==> IsSpace(line[i])
  }

  // ---------------------------------------------------------------------------------------------
  // The writer's content stream
  // ---------------------------------------------------------------------------------------------

  /** `parts.join('\n')` */
  function Join(parts: seq<string>): string {
    if parts == [] then "" else if |parts| == 1 then parts[0] else parts[0] + ("\n" + Join(parts[1..]))
  }

  const PREAMBLE: seq<string> := ["BT", "/F1 11 Tf", "14 TL", "54 738 Td"]

  function LineParts(line: string): seq<string> {
    [if IsBlank(line) then "T*" else "(" + PdfEscape(line) + ")" + " Tj", "T*"]
  }

  function AllLineParts(lines: seq<string>): seq<string> {
    if lines == [] then [] else LineParts(lines[0]) + AllLineParts(lines[1..])
  }

  /** The body of a page, before it is compressed. */
  function Content(lines: seq<string>): string {
    Join(PREAMBLE + AllLineParts(lines) + ["ET"])
  }

  predicate AllLatin1(parts: seq<string>) {
    forall i :: 0 <= i < |parts| ==> Latin1(parts[i])
  }

  lemma {:induction false} JoinIsLatin1(parts: seq<string>)
    requires AllLatin1(parts)
    ensures Latin1(Join(parts))
  {
    hide Latin1;
    if |parts| == 1 {
      assert Latin1(parts[0]);
    } else if |parts| > 1 {
      JoinIsLatin1(parts[1..]);
      LineEndIsLatin1();
      Latin1Joins("\n", Join(parts[1..]));
      Latin1Joins(parts[0], "\n" + Join(parts[1..]));
    } else {
      NothingIsLatin1();
    }
  }

  lemma LineEndIsLatin1()
    ensures Latin1("\n")
  {
  }

  lemma NothingIsLatin1()
    ensures Latin1("")
  {
  }

  lemma {:induction false} LinePartsAreLatin1(lines: seq<string>)
    ensures AllLatin1(AllLineParts(lines))
  {
    hide IsBlank, PdfEscape;
    if lines != [] {
      LinePartsAreLatin1(lines[1..]);
      EscapedIsLatin1(lines[0]);
    }
  }

  /** The body of a page, whatever its lines, is one character a byte. */
  lemma ContentIsLatin1(lines: seq<string>)
    ensures Latin1(Content(lines))
  {
    hide AllLineParts, Join;
    LinePartsAreLatin1(lines);
    JoinIsLatin1(PREAMBLE + AllLineParts(lines) + ["ET"]);
  }

  // ---------------------------------------------------------------------------------------------
  // The extractor
  // ---------------------------------------------------------------------------------------------

  function Concat(parts: seq<string>): string {
    if parts == [] then "" else parts[0] + Concat(parts[1..])
  }

  function HexDigits(s: string): (t: string)
    ensures |t| <= |s|
    ensures forall i :: 0 <= i < |t| ==> IsHexDigit(t[i])
  {
    if s == "" then "" else if IsHexDigit(s[0]) then [s[0]] + HexDigits(s[1..]) else HexDigits(s[1..])
  }

  function HexPairs(t: string): string
    requires forall i :: 0 <= i < |t| ==> IsHexDigit(t[i])
  {
    if |t| < 2 then "" else [(16 * HexValue(t[0]) + HexValue(t[1])) as char] + HexPairs(t[2..])
  }

  /** The length of `/^-?\d+(\.\d+)?/` at the start of a text, or nothing. */
  function NumberLength(s: string): (n: nat)
    ensures n <= |s|
  {
    var sign := if s != "" && s[0] == '-' then 1 else 0;
    var whole := Span(s[sign..], c => IsDigit(c));
    if whole == 0 then 0 else
    var end := sign + whole;
    if end < |s| && s[end] == '.' then
      var fraction := Span(s[end + 1..], c => IsDigit(c));
      if fraction == 0 then end else end + 1 + fraction
    else end
  }

  /** A kerning adjustment of -120 or less. */
  predicate IsWordGap(s: string) {
    && s != "" && s[0] == '-'
    && var whole := Span(s[1..], c => IsDigit(c));
       ParseDecimal(s[1..][..whole]) >= 120
  }

  /** The extractor's scan, from here to the end. */
  function Scan(s: string, pending: seq<string>, out: string): string
    decreases |s|
  {
    if s == "" then out + Concat(pending)
    else if s[0] == '(' then
      var (value, rest) := ReadLiteral(s, 0, "");
      Scan(rest, pending + [value], out)
    else if s[0] == '<' && !(|s| > 1 && s[1] == '<') then
      var close := Span(s, c => c != '>');
      if close == |s| then out + Concat(pending)
      else Scan(s[close + 1..], pending + [HexPairs(HexDigits(s[1..close]))], out)
    else
      var number := if s[0] == '-' || IsDigit(s[0]) then NumberLength(s[..if |s| < 24 then |s| else 24]) else 0;
      if number > 0 then
        Scan(s[number..], if IsWordGap(s[..number]) && pending != [] then pending + [" "] else pending, out)
      else if s[0] == 'T' && |s| > 1 && (s[1] == 'j' || s[1] == 'J') then Scan(s[2..], [], out + Concat(pending))
      else if s[0] == 'T' && |s| > 1 && (s[1] == 'd' || s[1] == 'D' || s[1] == '*') then
        Scan(s[2..], [], out + Concat(pending) + "\n")
      else if s[0] == 'E' && |s| > 1 && s[1] == 'T' then Scan(s[2..], [], out + Concat(pending) + "\n\n")
      else if s[0] == '\'' || s[0] == '"' then Scan(s[1..], [], out + Concat(pending) + "\n")
      else Scan(s[1..], pending, out)
  }

  // ---------------------------------------------------------------------------------------------
  // The scan over what the writer wrote
  // ---------------------------------------------------------------------------------------------

  /** Characters that no rule of the scan looks at. */
  predicate IsPlain(c: char) {
    c != '(' && c != '<' && c != '-' && !IsDigit(c) && c != 'T' && c != 'E' && c != '\'' && c != '"'
  }

  lemma SkipPlain(c: char, rest: string, pending: seq<string>, out: string)
    requires IsPlain(c)
    ensures Scan([c] + rest, pending, out) == Scan(rest, pending, out)
  {
    hide NumberLength, ReadLiteral, HexDigits, HexPairs, IsWordGap, Concat;
    assert ([c] + rest)[1..] == rest;
  }

  /** A `T` that no operator starts with. */
  lemma SkipT(c: char, rest: string, pending: seq<string>, out: string)
    requires c != 'j' && c != 'J' && c != 'd' && c != 'D' && c != '*' && IsPlain(c)
    ensures Scan(['T', c] + rest, pending, out) == Scan(rest, pending, out)
  {
    hide NumberLength, ReadLiteral, HexDigits, HexPairs, IsWordGap;
    assert (['T', c] + rest)[1..] == [c] + rest;
    SkipPlain(c, rest, pending, out);
  }

  lemma SkipNumber(digits: string, c: char, rest: string, pending: seq<string>, out: string)
    requires 0 < |digits| < 20 && AllDigits(digits) && IsPlain(c) && c != '.'
    ensures Scan(digits + ([c] + rest), pending, out) == Scan(rest, pending, out)
  {
    var s := digits + ([c] + rest);
    var window := s[..if |s| < 24 then |s| else 24];
    var after := window[|digits|..];
    assert window == digits + after && after[0] == c;
    assert window[0] == digits[0] && IsDigit(digits[0]);
    assert window[0..] == window;
    SpanStops(digits, after, c => IsDigit(c));
    assert NumberLength(window) == |digits|;
    assert s[|digits|..] == [c] + rest && s[0] == digits[0];
    SkipPlain(c, rest, pending, out);
  }

  lemma ScanOperator(op: char, sign: char, rest: string, pending: seq<string>, out: string)
    requires op == 'T' && (sign == 'j' || sign == 'd' || sign == '*')
    ensures Scan([op, sign] + rest, pending, out) ==
      Scan(rest, [], out + Concat(pending) + if sign == 'j' then "" else "\n")
  {
    assert ([op, sign] + rest)[2..] == rest;
    assert out + Concat(pending) + "" == out + Concat(pending);
  }

  lemma ScanEnd(pending: seq<string>, out: string)
    ensures Scan("ET", pending, out) == out + Concat(pending) + "\n\n"
  {
    assert "ET"[2..] == "";
  }

  lemma PartBegin(rest: string)
    ensures Scan("BT" + ("\n" + rest), [], "") == Scan(rest, [], "")
  {
    assert "BT" + ("\n" + rest) == ['B'] + (['T', '\n'] + rest);
    hide Scan;
    SkipPlain('B', ['T', '\n'] + rest, [], "");
    SkipT('\n', rest, [], "");
  }

  lemma PartFont(rest: string)
    ensures Scan("/F1 11 Tf" + ("\n" + rest), [], "") == Scan(rest, [], "")
  {
    hide Scan;
    var r1 := ['T', 'f'] + (['\n'] + rest);
    var r2 := "11" + ([' '] + r1);
    var r3 := "1" + ([' '] + r2);
    assert "/F1 11 Tf" + ("\n" + rest) == ['/'] + (['F'] + r3);
    SkipPlain('/', ['F'] + r3, [], "");
    SkipPlain('F', r3, [], "");
    SkipNumber("1", ' ', r2, [], "");
    SkipNumber("11", ' ', r1, [], "");
    SkipT('f', ['\n'] + rest, [], "");
    SkipPlain('\n', rest, [], "");
  }

  lemma PartLeading(rest: string)
    ensures Scan("14 TL" + ("\n" + rest), [], "") == Scan(rest, [], "")
  {
    hide Scan;
    var r1 := ['T', 'L'] + (['\n'] + rest);
    assert "14 TL" + ("\n" + rest) == "14" + ([' '] + r1);
    SkipNumber("14", ' ', r1, [], "");
    SkipT('L', ['\n'] + rest, [], "");
    SkipPlain('\n', rest, [], "");
  }

  lemma PartMove(rest: string)
    ensures Scan("54 738 Td" + ("\n" + rest), [], "") == Scan(rest, [], "\n")
  {
    hide Scan;
    var r1 := ['T', 'd'] + (['\n'] + rest);
    var r2 := "738" + ([' '] + r1);
    assert "54 738 Td" + ("\n" + rest) == "54" + ([' '] + r2);
    SkipNumber("54", ' ', r2, [], "");
    SkipNumber("738", ' ', r1, [], "");
    ScanOperator('T', 'd', ['\n'] + rest, [], "");
    assert "" + Concat([]) + "\n" == "\n";
    SkipPlain('\n', rest, [], "\n");
  }

  lemma PartNextLine(rest: string, out: string)
    ensures Scan("T*" + ("\n" + rest), [], out) == Scan(rest, [], out + "\n")
  {
    hide Scan;
    assert "T*" + ("\n" + rest) == ['T', '*'] + (['\n'] + rest);
    ScanOperator('T', '*', ['\n'] + rest, [], out);
    assert out + Concat([]) + "\n" == out + "\n";
    SkipPlain('\n', rest, [], out + "\n");
  }

  lemma PartShow(line: string, rest: string, out: string)
    ensures Scan("(" + PdfEscape(line) + ")" + " Tj" + ("\n" + rest), [], out) == Scan(rest, [], out + Folded(line))
  {
    hide PdfEscape, Folded, ReadLiteral;
    var r1 := ['T', 'j'] + (['\n'] + rest);
    var r2 := [' '] + r1;
    var s := "(" + PdfEscape(line) + ")" + r2;
    assert "(" + PdfEscape(line) + ")" + " Tj" + ("\n" + rest) == s;
    LineReadsBack(line, r2);
    assert Scan(s, [], out) == Scan(r2, [] + [Folded(line)], out);
    hide Scan;
    assert [] + [Folded(line)] == [Folded(line)];
    SkipPlain(' ', r1, [Folded(line)], out);
    ScanOperator('T', 'j', ['\n'] + rest, [Folded(line)], out);
    assert out + Concat([Folded(line)]) + "" == out + Folded(line);
    SkipPlain('\n', rest, [], out + Folded(line));
  }

  /** What the extractor gathers from the lines: blank ones are paragraph breaks. */
  function Gathered(lines: seq<string>): string {
    if lines == [] then ""
    else (if IsBlank(lines[0]) then "\n\n" else Folded(lines[0]) + "\n") + Gathered(lines[1..])
  }

  lemma JoinTwo(first: string, second: string, rest: seq<string>)
    requires rest != []
    ensures Join([first, second] + rest) == first + ("\n" + (second + ("\n" + Join(rest))))
  {
    var parts := [first, second] + rest;
    assert parts[1..] == [second] + rest && parts[1..][1..] == rest;
  }

  /** One line of the page. */
  lemma LineScans(line: string, rest: string, out: string)
    ensures var parts := LineParts(line);
      Scan(parts[0] + ("\n" + (parts[1] + ("\n" + rest))), [], out)
      == Scan(rest, [], out + if IsBlank(line) then "\n\n" else Folded(line) + "\n")
  {
    hide Scan, Folded, PdfEscape;
    var next := "T*" + ("\n" + rest);
    if IsBlank(line) {
      PartNextLine(next, out);
      PartNextLine(rest, out + "\n");
      assert out + "\n" + "\n" == out + "\n\n";
    } else {
      PartShow(line, next, out);
      PartNextLine(rest, out + Folded(line));
      Associates(out, Folded(line), "\n");
    }
  }

  lemma {:induction false} LinesScan(lines: seq<string>, out: string)
    ensures Scan(Join(AllLineParts(lines) + ["ET"]), [], out) == out + Gathered(lines) + "\n\n"
    decreases |lines|
  {
    hide Scan, Folded, IsBlank;
    if lines == [] {
      assert AllLineParts(lines) + ["ET"] == ["ET"];
      ScanEnd([], out);
      assert out + Concat([]) == out && out + Gathered(lines) == out;
    } else {
      var line, rest := lines[0], AllLineParts(lines[1..]) + ["ET"];
      var parts := LineParts(line);
      assert AllLineParts(lines) + ["ET"] == [parts[0], parts[1]] + rest;
      JoinTwo(parts[0], parts[1], rest);
      LineScans(line, Join(rest), out);
      var gained := if IsBlank(line) then "\n\n" else Folded(line) + "\n";
      LinesScan(lines[1..], out + gained);
      Associates(out, gained, Gathered(lines[1..]));
    }
  }

  /** Every line of the page comes back, folded, in order, and nothing of the page's set-up does. */
  lemma ContentReadsBack(lines: seq<string>)
    ensures Scan(Content(lines), [], "") == "\n" + Gathered(lines) + "\n\n"
  {
    hide Scan, Gathered;
    var rest := AllLineParts(lines) + ["ET"];
    var tail := Join(rest);
    assert PREAMBLE + AllLineParts(lines) + ["ET"] == ["BT", "/F1 11 Tf"] + (["14 TL", "54 738 Td"] + rest);
    JoinTwo("BT", "/F1 11 Tf", ["14 TL", "54 738 Td"] + rest);
    JoinTwo("14 TL", "54 738 Td", rest);
    var r3 := "54 738 Td" + ("\n" + tail);
    var r2 := "14 TL" + ("\n" + r3);
    var r1 := "/F1 11 Tf" + ("\n" + r2);
    PartBegin(r1);
    PartFont(r2);
    PartLeading(r3);
    PartMove(tail);
    LinesScan(lines, "\n");
  }
}
