/** Page text in the fixture PDF writer (scripts/fixtures/office.ts) and in the product's text
    extractor (src/platform/parse/pdf.ts). */
module PdfText {
  import opened Text

  // ---------------------------------------------------------------------------------------------
  // Writing a literal string
  // ---------------------------------------------------------------------------------------------

  /** A pass that rewrites single characters. */
  function EachChar(s: string, f: char -> string): string {
    if s == "" then "" else f(s[0]) + EachChar(s[1..], f)
  }

  function FoldDash(c: char): string { if '\U{2010}' <= c <= '\U{2015}' then "-" else [c] }
  function FoldQuote(c: char): string { if c == '\U{2018}' || c == '\U{2019}' then "'" else [c] }
  function FoldDouble(c: char): string { if c == '\U{201c}' || c == '\U{201d}' then "\"" else [c] }
  function FoldEllipsis(c: char): string { if c == '\U{2026}' then "..." else [c] }
  function FoldNoBreak(c: char): string { if c == '\U{a0}' then " " else [c] }

  /** Anything beyond latin1; a character outside the basic plane is two code units. */
  function FoldOther(c: char): string {
    if c <= '\U{ff}' then [c] else if c <= '\U{ffff}' then "?" else "??"
  }

  function Backslash(c: char): string {
    if c == '\\' || c == '(' || c == ')' then ['\\', c] else [c]
  }

  /** The seven passes of the writer. */
  function PdfEscape(s: string): string {
    var dashes := EachChar(s, FoldDash);
    var quotes := EachChar(dashes, FoldQuote);
    var doubles := EachChar(quotes, FoldDouble);
    var ellipses := EachChar(doubles, FoldEllipsis);
    var spaces := EachChar(ellipses, FoldNoBreak);
    var latin := EachChar(spaces, FoldOther);
    EachChar(latin, Backslash)
  }

  /** What is left of a character after the first `k` passes. */
  function Partial(c: char, k: nat): string {
    if '\U{2010}' <= c <= '\U{2015}' && k >= 1 then "-"
    else if (c == '\U{2018}' || c == '\U{2019}') && k >= 2 then "'"
    else if (c == '\U{201c}' || c == '\U{201d}') && k >= 3 then "\""
    else if c == '\U{2026}' && k >= 4 then "..."
    else if c == '\U{a0}' && k >= 5 then " "
    else if k >= 6 then FoldOther(c)
    else [c]
  }

  /** The text after the first `k` passes. */
  function After(s: string, k: nat): string {
    EachChar(s, c => Partial(c, k))
  }

  /** A line as the document can represent it. */
  function Folded(s: string): string {
    After(s, 6)
  }

  lemma {:induction false} FoldedIsLatin1(s: string)
    ensures Latin1(Folded(s))
  {
    if s != "" {
      FoldedIsLatin1(s[1..]);
      assert Folded(s) == Partial(s[0], 6) + Folded(s[1..]);
    }
  }

  lemma {:induction false} EachCharAppend(a: string, b: string, f: char -> string)
    ensures EachChar(a + b, f) == EachChar(a, f) + EachChar(b, f)
  {
    if a == "" {
      assert a + b == b;
    } else {
      assert (a + b)[1..] == a[1..] + b;
      EachCharAppend(a[1..], b, f);
    }
  }

  lemma {:induction false} PassAfter(s: string, k: nat, pass: char -> string)
    requires forall c :: EachChar(Partial(c, k), pass) == Partial(c, k + 1)
    ensures EachChar(After(s, k), pass) == After(s, k + 1)
  {
    if s != "" {
      PassAfter(s[1..], k, pass);
      EachCharAppend(Partial(s[0], k), After(s[1..], k), pass);
    }
  }

  lemma OneChar(c: char, f: char -> string)
    ensures EachChar([c], f) == f(c)
  {
    assert [c][1..] == "";
  }

  lemma ThreeChars(f: char -> string)
    requires f('.') == "."
    ensures EachChar("...", f) == "..."
  {
    assert "..." == "." + ".." && ".." == "." + ".";
    EachCharAppend(".", "..", f);
    EachCharAppend(".", ".", f);
    OneChar('.', f);
  }

  lemma PassAtChar(c: char, k: nat, pass: char -> string)
    requires pass('-') == "-" && pass('\'') == "'" && pass('"') == "\"" && pass('.') == "." && pass(' ') == " "
    requires |Partial(c, k)| == 1 && Partial(c, k)[0] == c ==> pass(c) == Partial(c, k + 1)
    requires k < 6
    ensures EachChar(Partial(c, k), pass) == Partial(c, k + 1)
  {
    OneChar('-', pass);
    OneChar('\'', pass);
    OneChar('"', pass);
    OneChar(' ', pass);
    OneChar(c, pass);
    ThreeChars(pass);
  }

  lemma {:induction false} NoPassYet(s: string)
    ensures After(s, 0) == s
  {
    if s != "" {
      NoPassYet(s[1..]);
    }
  }

  lemma OnePass(s: string, k: nat, pass: char -> string)
    requires pass('-') == "-" && pass('\'') == "'" && pass('"') == "\"" && pass('.') == "." && pass(' ') == " "
    requires forall c :: |Partial(c, k)| == 1 && Partial(c, k)[0] == c ==> pass(c) == Partial(c, k + 1)
    requires k < 6
    ensures EachChar(After(s, k), pass) == After(s, k + 1)
  {
    forall c
      ensures EachChar(Partial(c, k), pass) == Partial(c, k + 1)
    {
      PassAtChar(c, k, pass);
    }
    PassAfter(s, k, pass);
  }

  lemma PassDash(s: string)
    ensures EachChar(After(s, 0), FoldDash) == After(s, 1)
  {
    OnePass(s, 0, FoldDash);
  }

  lemma PassQuote(s: string)
    ensures EachChar(After(s, 1), FoldQuote) == After(s, 2)
  {
    OnePass(s, 1, FoldQuote);
  }

  lemma PassDouble(s: string)
    ensures EachChar(After(s, 2), FoldDouble) == After(s, 3)
  {
    OnePass(s, 2, FoldDouble);
  }

  lemma PassEllipsis(s: string)
    ensures EachChar(After(s, 3), FoldEllipsis) == After(s, 4)
  {
    OnePass(s, 3, FoldEllipsis);
  }

  lemma PassNoBreak(s: string)
    ensures EachChar(After(s, 4), FoldNoBreak) == After(s, 5)
  {
    OnePass(s, 4, FoldNoBreak);
  }

  lemma PassOther(s: string)
    ensures EachChar(After(s, 5), FoldOther) == After(s, 6)
  {
    OnePass(s, 5, FoldOther);
  }

  /** Six passes fold each character once; the seventh escapes what is left. */
  lemma EscapeIsFoldThenBackslash(s: string)
    ensures PdfEscape(s) == EachChar(Folded(s), Backslash)
  {
    hide After;
    NoPassYet(s);
    PassDash(s);
    PassQuote(s);
    PassDouble(s);
    PassEllipsis(s);
    PassNoBreak(s);
    PassOther(s);
  }

  lemma {:induction false} BackslashedIsLatin1(s: string)
    requires Latin1(s)
    ensures Latin1(EachChar(s, Backslash))
  {
    if s != "" { BackslashedIsLatin1(s[1..]); }
  }

  /** So what is escaped has only characters a content stream can hold. */
  lemma EscapedIsLatin1(s: string)
    ensures Latin1(PdfEscape(s))
  {
    hide PdfEscape, Folded;
    EscapeIsFoldThenBackslash(s);
    FoldedIsLatin1(s);
    BackslashedIsLatin1(Folded(s));
  }

  // ---------------------------------------------------------------------------------------------
  // Reading a literal string
  // ---------------------------------------------------------------------------------------------

  predicate IsOctal(c: char) {
    '0' <= c <= '7'
  }

  function OctalValue(s: string): nat
    requires forall i :: 0 <= i < |s| ==> IsOctal(s[i])
  {
    if s == "" then 0 else
    assert IsOctal(s[|s| - 1]);
    8 * OctalValue(s[..|s| - 1]) + (s[|s| - 1] as int - '0' as int)
  }

  /** The one to three octal digits after a backslash. */
  function OctalDigits(s: string): (n: nat)
    ensures n <= |s| && n <= 3
    ensures forall i :: 0 <= i < n ==> IsOctal(s[i])
    ensures s != "" && IsOctal(s[0]) ==> n > 0
  {
    var n := Span(s, c => IsOctal(c));
    if n <= 3 then n else 3
  }

  lemma OctalIsChar(s: string)
    requires |s| <= 3 && forall i :: 0 <= i < |s| ==> IsOctal(s[i])
    ensures OctalValue(s) < 512
  {
    if |s| > 1 {
      assert OctalValue(s[..|s| - 1]) == 8 * OctalValue(s[..|s| - 1][..|s| - 2]) + (s[|s| - 2] as int - '0' as int);
    }
  }

  function OctalChar(s: string): char
    requires |s| <= 3 && forall i :: 0 <= i < |s| ==> IsOctal(s[i])
  {
    OctalIsChar(s);
    OctalValue(s) as char
  }

  /** What the extractor makes of the character after a backslash. */
  function Escaped(c: char): string {
    if c == 'n' then "\n" else if c == 'r' then "\r" else if c == 't' then "\t"
    else if c == 'b' || c == 'f' || c == '\n' then ""
    else [c]
  }

  /** The extractor's literal-string reader: the value, and what follows it. */
  function ReadLiteral(s: string, depth: int, value: string): (r: (string, string))
    ensures |r.1| <= |s|
    ensures s != "" ==> |r.1| < |s|
    decreases |s|
  {
    if s == "" then (value, "")
    else if s[0] == '\\' then
      if |s| == 1 then (value, "")
      else if IsOctal(s[1]) then
        var n := OctalDigits(s[1..]);
        ReadLiteral(s[1 + n..], depth, value + [OctalChar(s[1..][..n])])
      else ReadLiteral(s[2..], depth, value + Escaped(s[1]))
    else if s[0] == '(' then ReadLiteral(s[1..], depth + 1, if depth + 1 > 1 then value + "(" else value)
    else if s[0] == ')' then
      if depth - 1 == 0 then (value, s[1..]) else ReadLiteral(s[1..], depth - 1, value + ")")
    else ReadLiteral(s[1..], depth, if depth > 0 then value + [s[0]] else value)
  }

  /** Without a backslash, and every parenthesis closed that is opened, `depth` of them before. */
  predicate Balanced(s: string, depth: nat) {
    if s == "" then depth == 0
    else if s[0] == '(' then Balanced(s[1..], depth + 1)
    else if s[0] == ')' then depth > 0 && Balanced(s[1..], depth - 1)
    else s[0] != '\\' && Balanced(s[1..], depth)
  }

  function DepthAfter(c: char, depth: nat): int {
    if c == '(' then depth + 1 else if c == ')' then depth - 1 else depth
  }

  lemma OneCharacter(c: char, s: string, depth: nat, value: string)
    requires c != '\\' && DepthAfter(c, depth) >= 0
    ensures ReadLiteral([c] + s, depth + 1, value) == ReadLiteral(s, DepthAfter(c, depth) + 1, value + [c])
  {
    assert ([c] + s)[1..] == s;
  }

  /** Parentheses that balance need no backslash: the literal is read to its own end, and they are kept. */
  lemma {:induction false} BalancedIsKept(s: string, rest: string, depth: nat, value: string)
    requires Balanced(s, depth)
    ensures ReadLiteral(s + (")" + rest), depth + 1, value) == (value + s, rest)
    decreases |s|
  {
    if s == "" {
      assert s + (")" + rest) == ")" + rest && (")" + rest)[1..] == rest && value + s == value;
    } else {
      hide ReadLiteral;
      OneCharacter(s[0], s[1..] + (")" + rest), depth, value);
      BalancedIsKept(s[1..], rest, DepthAfter(s[0], depth), value + [s[0]]);
      assert s + (")" + rest) == [s[0]] + (s[1..] + (")" + rest));
      assert value + [s[0]] + s[1..] == value + s;
    }
  }

  /** A reader of literal strings as section 7.3.4.2 of ISO 32000-1 has them: an unescaped end of line,
      in any of its three forms, is one line feed, and an escaped one is nothing. */
  function ReadIsoLiteral(s: string, depth: int, value: string): (r: (string, string))
    decreases |s|
  {
    if s == "" then (value, "")
    else if s[0] == '\\' then
      if |s| == 1 then (value, "")
      else if IsOctal(s[1]) then
        var n := OctalDigits(s[1..]);
        ReadIsoLiteral(s[1 + n..], depth, value + [(OctalValue(s[1..][..n]) % 256) as char])
      else if s[1] == '\r' && |s| > 2 && s[2] == '\n' then ReadIsoLiteral(s[3..], depth, value)
      else if s[1] == '\r' || s[1] == '\n' then ReadIsoLiteral(s[2..], depth, value)
      else if s[1] == 'b' then ReadIsoLiteral(s[2..], depth, value + "\U{8}")
      else if s[1] == 'f' then ReadIsoLiteral(s[2..], depth, value + "\U{c}")
      else ReadIsoLiteral(s[2..], depth, value + Escaped(s[1]))
    else if s[0] == '(' then ReadIsoLiteral(s[1..], depth + 1, if depth > 0 then value + "(" else value)
    else if s[0] == ')' then
      if depth == 1 then (value, s[1..]) else ReadIsoLiteral(s[1..], depth - 1, value + ")")
    else if s[0] == '\r' && |s| > 1 && s[1] == '\n' then ReadIsoLiteral(s[2..], depth, value + "\n")
    else if s[0] == '\r' then ReadIsoLiteral(s[1..], depth, value + "\n")
    else ReadIsoLiteral(s[1..], depth, value + [s[0]])
  }

  /** Every end of line as one line feed. */
  function LineFeeds(s: string): string {
    if s == "" then ""
    else if s[0] == '\r' && |s| > 1 && s[1] == '\n' then "\n" + LineFeeds(s[2..])
    else if s[0] == '\r' then "\n" + LineFeeds(s[1..])
    else [s[0]] + LineFeeds(s[1..])
  }

  lemma LiteralStep(c: char, after: string, value: string)
    ensures ReadLiteral(Backslash(c) + after, 1, value) == ReadLiteral(after, 1, value + [c])
  {
    assert (Backslash(c) + after)[|Backslash(c)|..] == after;
  }

  lemma LiteralCloses(rest: string, value: string)
    ensures ReadLiteral(")" + rest, 1, value) == (value, rest)
  {
    assert (")" + rest)[1..] == rest;
  }

  lemma {:induction false} EscapedReadsBack(t: string, rest: string, value: string)
    ensures ReadLiteral(EachChar(t, Backslash) + (")" + rest), 1, value) == (value + t, rest)
    decreases |t|
  {
    hide ReadLiteral, Backslash;
    var tail := ")" + rest;
    if t == "" {
      assert EachChar(t, Backslash) + tail == tail;
      LiteralCloses(rest, value);
      assert value + t == value;
    } else {
      var after := EachChar(t[1..], Backslash) + tail;
      assert EachChar(t, Backslash) + tail == Backslash(t[0]) + after;
      LiteralStep(t[0], after, value);
      EscapedReadsBack(t[1..], rest, value + [t[0]]);
      assert value + t == value + [t[0]] + t[1..];
    }
  }

  /** The extractor reads back every line that the writer escaped, folded and otherwise unchanged. */
  lemma LineReadsBack(line: string, rest: string)
    ensures ReadLiteral("(" + PdfEscape(line) + ")" + rest, 0, "") == (Folded(line), rest)
  {
    hide Folded;
    EscapeIsFoldThenBackslash(line);
    var t := Folded(line);
    EscapedReadsBack(t, rest, "");
    assert ("(" + EachChar(t, Backslash) + ")" + rest)[1..] == EachChar(t, Backslash) + (")" + rest);
    assert "" + t == t;
  }

  lemma IsoStep(c: char, after: string, value: string)
    requires c == '\r' ==> after != "" && after[0] != '\n'
    ensures ReadIsoLiteral(Backslash(c) + after, 1, value)
         == ReadIsoLiteral(after, 1, value + [if c == '\r' then '\n' else c])
  {
    assert (Backslash(c) + after)[|Backslash(c)|..] == after;
  }

  lemma IsoPair(after: string, value: string)
    ensures ReadIsoLiteral("\r\n" + after, 1, value) == ReadIsoLiteral(after, 1, value + "\n")
  {
    assert ("\r\n" + after)[2..] == after;
  }

  lemma FirstShape(t: string, tail: string)
    requires t != ""
    ensures EachChar(t, Backslash) + tail == Backslash(t[0]) + (EachChar(t[1..], Backslash) + tail)
  {
    hide Backslash;
    Associates(Backslash(t[0]), EachChar(t[1..], Backslash), tail);
  }

  /** A line feed shows in the escaped text only where the line has one. */
  lemma EscapedHead(r: string, tail: string)
    requires tail != "" && tail[0] == ')'
    ensures EachChar(r, Backslash) + tail != ""
    ensures (EachChar(r, Backslash) + tail)[0] == '\n' ==> r != "" && r[0] == '\n'
  {
    if r != "" {
      assert (EachChar(r, Backslash) + tail)[0] == Backslash(r[0])[0];
    }
  }

  /** The escaped text of a line that starts with a carriage return and a line feed. */
  lemma PairShape(t: string, tail: string)
    requires |t| > 1 && t[0] == '\r' && t[1] == '\n' && tail != "" && tail[0] == ')'
    ensures EachChar(t, Backslash) + tail == "\r\n" + (EachChar(t[2..], Backslash) + tail)
  {
    hide EachChar;
    FirstShape(t, tail);
    FirstShape(t[1..], tail);
    assert t[1..][1..] == t[2..];
    PairJoined(EachChar(t[2..], Backslash) + tail);
  }

  lemma PairJoined(after: string)
    ensures ['\r'] + (['\n'] + after) == "\r\n" + after
  {
  }

  lemma IsoEnd(rest: string, value: string)
    ensures ReadIsoLiteral(")" + rest, 1, value) == (value, rest)
  {
    assert (")" + rest)[1..] == rest;
  }

  lemma IsoTurn(t: string, tail: string, value: string)
    requires t != "" && tail != "" && tail[0] == ')' && !(t[0] == '\r' && |t| > 1 && t[1] == '\n')
    ensures ReadIsoLiteral(EachChar(t, Backslash) + tail, 1, value)
         == ReadIsoLiteral(EachChar(t[1..], Backslash) + tail, 1, value + [if t[0] == '\r' then '\n' else t[0]])
  {
    hide EachChar, ReadIsoLiteral, Backslash;
    FirstShape(t, tail);
    EscapedHead(t[1..], tail);
    IsoStep(t[0], EachChar(t[1..], Backslash) + tail, value);
  }

  lemma IsoPairTurn(t: string, tail: string, value: string)
    requires |t| > 1 && t[0] == '\r' && t[1] == '\n' && tail != "" && tail[0] == ')'
    ensures ReadIsoLiteral(EachChar(t, Backslash) + tail, 1, value)
         == ReadIsoLiteral(EachChar(t[2..], Backslash) + tail, 1, value + "\n")
  {
    hide EachChar, ReadIsoLiteral, Backslash;
    PairShape(t, tail);
    IsoPair(EachChar(t[2..], Backslash) + tail, value);
  }

  lemma {:induction false} EscapedReadsBackInIso(t: string, rest: string, value: string)
    ensures ReadIsoLiteral(EachChar(t, Backslash) + (")" + rest), 1, value) == (value + LineFeeds(t), rest)
    decreases |t|
  {
    hide ReadIsoLiteral, EachChar;
    var tail := ")" + rest;
    if t == "" {
      IsoEmpty(t, rest, value);
    } else if t[0] == '\r' && |t| > 1 && t[1] == '\n' {
      IsoPairTurn(t, tail, value);
      EscapedReadsBackInIso(t[2..], rest, value + "\n");
      Associates(value, "\n", LineFeeds(t[2..]));
    } else {
      var d := if t[0] == '\r' then '\n' else t[0];
      IsoTurn(t, tail, value);
      EscapedReadsBackInIso(t[1..], rest, value + [d]);
      Associates(value, [d], LineFeeds(t[1..]));
    }
  }

  lemma IsoEmpty(t: string, rest: string, value: string)
    requires t == ""
    ensures ReadIsoLiteral(EachChar(t, Backslash) + (")" + rest), 1, value) == (value + LineFeeds(t), rest)
  {
    hide ReadIsoLiteral;
    assert EachChar(t, Backslash) + (")" + rest) == ")" + rest && value + LineFeeds(t) == value;
    IsoEnd(rest, value);
  }

  lemma {:induction false} LineFeedsUnchanged(t: string)
    ensures LineFeeds(t) == t <==> '\r' !in t
    ensures |LineFeeds(t)| <= |t|
    decreases |t|
  {
    if t != "" {
      if t[0] == '\r' && |t| > 1 && t[1] == '\n' {
        LineFeedsUnchanged(t[2..]);
      } else {
        LineFeedsUnchanged(t[1..]);
        assert t == [t[0]] + t[1..];
        assert LineFeeds(t)[1..] == LineFeeds(t[1..]);
      }
    }
  }

  lemma {:induction false} FoldingKeepsReturns(s: string)
    ensures '\r' in Folded(s) <==> '\r' in s
  {
    if s != "" {
      FoldingKeepsReturns(s[1..]);
      assert Folded(s) == Partial(s[0], 6) + Folded(s[1..]);
    }
  }

  /** A reader that keeps to ISO 32000-1 gets the folded line back exactly when the line holds no
      carriage return, because the writer does not escape one. */
  lemma LineReadsBackInIsoIff(line: string, rest: string)
    ensures var r := ReadIsoLiteral("(" + PdfEscape(line) + ")" + rest, 0, "");
      r.1 == rest && (r.0 == Folded(line) <==> '\r' !in line)
  {
    hide Folded;
    EscapeIsFoldThenBackslash(line);
    var t := Folded(line);
    EscapedReadsBackInIso(t, rest, "");
    assert ("(" + EachChar(t, Backslash) + ")" + rest)[1..] == EachChar(t, Backslash) + (")" + rest);
    assert "" + LineFeeds(t) == LineFeeds(t);
    LineFeedsUnchanged(t);
    FoldingKeepsReturns(line);
  }
}
