/** Escaping in the fixture writer (scripts/fixtures/office.ts) and decoding in the product's workbook
    reader (src/platform/parse/xlsx.ts): the reader undoes the writer on every text. */
module Xml {
  import opened Text

  /** Four passes, the ampersand first. */
  function Escape(s: string): string {
    ReplaceAll(ReplaceAll(ReplaceAll(ReplaceAll(s, "&", "&amp;"), "<", "&lt;"), ">", "&gt;"), "\"", "&quot;")
  }

  function ParseRadix(s: string, radix: nat): nat
    requires forall i :: 0 <= i < |s| ==> IsHexDigit(s[i])
  {
    if s == "" then 0 else radix * ParseRadix(s[..|s| - 1], radix) + HexValue(s[|s| - 1])
  }

  /** The character of a code point; nothing beyond the last one, and nothing for half a surrogate pair. */
  function CodePoint(n: nat): string {
    if n < 0xD800 || 0xE000 <= n < 0x11_0000 then [n as char] else ""
  }

  /** One pass over the numeric references that open with `lead`. */
  function DecodeNumeric(s: string, lead: string, isDigit: char -> bool, radix: nat): string
    requires lead != "" && forall c :: isDigit(c) ==> IsHexDigit(c)
    decreases |s|
  {
    if s == "" then ""
    else if lead <= s then
      var rest := s[|lead|..];
      var n := Span(rest, isDigit);
      if 0 < n < |rest| && rest[n] == ';' then
        CodePoint(ParseRadix(rest[..n], radix)) + DecodeNumeric(rest[n + 1..], lead, isDigit, radix)
      else [s[0]] + DecodeNumeric(s[1..], lead, isDigit, radix)
    else [s[0]] + DecodeNumeric(s[1..], lead, isDigit, radix)
  }

  /** Numeric references, then the five named ones, the ampersand last. */
  function Decode(s: string): string {
    var hex := DecodeNumeric(s, "&#x", c => IsHexDigit(c), 16);
    var dec := DecodeNumeric(hex, "&#", c => IsDigit(c), 10);
    var lt := ReplaceAll(dec, "&lt;", "<");
    var gt := ReplaceAll(lt, "&gt;", ">");
    var quot := ReplaceAll(gt, "&quot;", "\"");
    var apos := ReplaceAll(quot, "&apos;", "'");
    ReplaceAll(apos, "&amp;", "&")
  }

  // ---------------------------------------------------------------------------------------------
  // The text between two passes
  // ---------------------------------------------------------------------------------------------

  datatype Forms = Forms(amp: bool, lt: bool, gt: bool, quot: bool)

  /** How one character stands in the text, given which of the four are escaped. */
  function Token(c: char, f: Forms): (t: string)
    ensures t != ""
    ensures forall i :: 0 < i < |t| ==> t[i] != '&' && t[i] != '<' && t[i] != '>' && t[i] != '"'
    ensures t[0] == '&' || t == [c]
  {
    if c == '&' && f.amp then "&amp;"
    else if c == '<' && f.lt then "&lt;"
    else if c == '>' && f.gt then "&gt;"
    else if c == '"' && f.quot then "&quot;"
    else [c]
  }

  function Tokens(s: string, f: Forms): string {
    if s == "" then "" else Token(s[0], f) + Tokens(s[1..], f)
  }

  predicate Differ(t: string, pattern: string, i: nat) {
    i < |t| && i < |pattern| && t[i] != pattern[i]
  }

  /** No match of `pattern` starts inside `t`. */
  predicate PassesOver(t: string, pattern: string) {
    && |pattern| > 0
    && (forall i :: 0 < i < |t| ==> t[i] != pattern[0])
    && (t == "" || Differ(t, pattern, 0) || Differ(t, pattern, 1) || Differ(t, pattern, 2))
  }

  lemma {:induction false} PassOver(t: string, rest: string, pattern: string, image: string)
    requires PassesOver(t, pattern)
    ensures ReplaceAll(t + rest, pattern, image) == t + ReplaceAll(rest, pattern, image)
    decreases |t|
  {
    if t == "" {
      assert t + rest == rest;
    } else {
      assert Differ(t + rest, pattern, 0) || Differ(t + rest, pattern, 1) || Differ(t + rest, pattern, 2);
      assert (t + rest)[1..] == t[1..] + rest;
      assert PassesOver(t[1..], pattern);
      PassOver(t[1..], rest, pattern, image);
    }
  }

  lemma Match(rest: string, pattern: string, image: string)
    requires pattern != ""
    ensures ReplaceAll(pattern + rest, pattern, image) == image + ReplaceAll(rest, pattern, image)
  {
    assert (pattern + rest)[|pattern|..] == rest;
  }

  /** At this character the pass finds its pattern, or finds nothing. */
  predicate Rewrites(c: char, f: Forms, g: Forms, pattern: string, image: string) {
    || (Token(c, f) == pattern && Token(c, g) == image)
    || (PassesOver(Token(c, f), pattern) && Token(c, g) == Token(c, f))
  }

  /** A pass rewrites the text from one set of forms to the next, if it does so at each character. */
  lemma {:induction false} Pass(s: string, f: Forms, g: Forms, pattern: string, image: string)
    requires pattern != "" && forall c :: Rewrites(c, f, g, pattern, image)
    ensures ReplaceAll(Tokens(s, f), pattern, image) == Tokens(s, g)
  {
    if s != "" {
      var t, rest := Token(s[0], f), Tokens(s[1..], f);
      Pass(s[1..], f, g, pattern, image);
      assert Rewrites(s[0], f, g, pattern, image);
      if t == pattern && Token(s[0], g) == image {
        Match(rest, pattern, image);
      } else {
        PassOver(t, rest, pattern, image);
      }
    }
  }

  /** The numeric passes find nothing: no reference of the escaped text opens with `&#`. */
  lemma {:induction false} NumericIdle(s: string, f: Forms, lead: string, isDigit: char -> bool, radix: nat)
    requires f.amp && "&#" <= lead && forall c :: isDigit(c) ==> IsHexDigit(c)
    ensures DecodeNumeric(Tokens(s, f), lead, isDigit, radix) == Tokens(s, f)
  {
    if s != "" {
      NumericIdle(s[1..], f, lead, isDigit, radix);
      NumericPassOver(Token(s[0], f), Tokens(s[1..], f), lead, isDigit, radix);
    }
  }

  lemma NoReference(c: char, rest: string, lead: string, isDigit: char -> bool, radix: nat)
    requires lead != "" && forall c :: isDigit(c) ==> IsHexDigit(c)
    requires !(lead <= [c] + rest)
    ensures DecodeNumeric([c] + rest, lead, isDigit, radix) == [c] + DecodeNumeric(rest, lead, isDigit, radix)
  {
    hide IsHexDigit, CodePoint, ParseRadix, Span;
    assert ([c] + rest)[1..] == rest;
  }

  lemma {:induction false} NumericPassOver(t: string, rest: string, lead: string, isDigit: char -> bool, radix: nat)
    requires "&#" <= lead && forall c :: isDigit(c) ==> IsHexDigit(c)
    requires forall i :: 0 < i < |t| ==> t[i] != '&'
    requires |t| > 0 && t[0] == '&' ==> |t| > 1 && t[1] != '#'
    ensures DecodeNumeric(t + rest, lead, isDigit, radix) == t + DecodeNumeric(rest, lead, isDigit, radix)
    decreases |t|
  {
    hide DecodeNumeric, IsHexDigit;
    if t == "" {
      assert t + rest == rest;
    } else {
      var s := t[1..] + rest;
      assert t + rest == [t[0]] + s;
      assert lead[0] == '&' && lead[1] == '#';
      if t[0] == '&' { assert ([t[0]] + s)[1] == t[1]; }
      NoReference(t[0], s, lead, isDigit, radix);
      NumericPassOver(t[1..], rest, lead, isDigit, radix);
      assert [t[0]] + (t[1..] + DecodeNumeric(rest, lead, isDigit, radix))
        == t + DecodeNumeric(rest, lead, isDigit, radix);
    }
  }

  // ---------------------------------------------------------------------------------------------
  // Writer and reader
  // ---------------------------------------------------------------------------------------------

  const PLAIN := Forms(false, false, false, false)
  const AMP := Forms(true, false, false, false)
  const AMP_LT := Forms(true, true, false, false)
  const AMP_LT_GT := Forms(true, true, true, false)
  const ESCAPED := Forms(true, true, true, true)
  const AMP_GT_QUOT := Forms(true, false, true, true)
  const AMP_QUOT := Forms(true, false, false, true)

  lemma {:induction false} PlainTokens(s: string)
    ensures Tokens(s, PLAIN) == s
  {
    if s != "" {
      PlainTokens(s[1..]);
    }
  }

  lemma EscapeAmp(s: string)
    ensures ReplaceAll(Tokens(s, PLAIN), "&", "&amp;") == Tokens(s, AMP)
  {
    forall c ensures Rewrites(c, PLAIN, AMP, "&", "&amp;") {
    }
    Pass(s, PLAIN, AMP, "&", "&amp;");
  }

  lemma EscapeLt(s: string)
    ensures ReplaceAll(Tokens(s, AMP), "<", "&lt;") == Tokens(s, AMP_LT)
  {
    forall c ensures Rewrites(c, AMP, AMP_LT, "<", "&lt;") {
    }
    Pass(s, AMP, AMP_LT, "<", "&lt;");
  }

  lemma EscapeGt(s: string)
    ensures ReplaceAll(Tokens(s, AMP_LT), ">", "&gt;") == Tokens(s, AMP_LT_GT)
  {
    forall c ensures Rewrites(c, AMP_LT, AMP_LT_GT, ">", "&gt;") {
    }
    Pass(s, AMP_LT, AMP_LT_GT, ">", "&gt;");
  }

  lemma EscapeQuot(s: string)
    ensures ReplaceAll(Tokens(s, AMP_LT_GT), "\"", "&quot;") == Tokens(s, ESCAPED)
  {
    forall c ensures Rewrites(c, AMP_LT_GT, ESCAPED, "\"", "&quot;") {
    }
    Pass(s, AMP_LT_GT, ESCAPED, "\"", "&quot;");
  }

  /** The four passes escape each character once, whatever the text. */
  lemma EscapeIsTokens(s: string)
    ensures Escape(s) == Tokens(s, ESCAPED)
  {
    PlainTokens(s);
    EscapeAmp(s);
    EscapeLt(s);
    EscapeGt(s);
    EscapeQuot(s);
  }

  lemma DecodeLt(s: string)
    ensures ReplaceAll(Tokens(s, ESCAPED), "&lt;", "<") == Tokens(s, AMP_GT_QUOT)
  {
    forall c ensures Rewrites(c, ESCAPED, AMP_GT_QUOT, "&lt;", "<") {
    }
    Pass(s, ESCAPED, AMP_GT_QUOT, "&lt;", "<");
  }

  lemma DecodeGt(s: string)
    ensures ReplaceAll(Tokens(s, AMP_GT_QUOT), "&gt;", ">") == Tokens(s, AMP_QUOT)
  {
    forall c ensures Rewrites(c, AMP_GT_QUOT, AMP_QUOT, "&gt;", ">") {
    }
    Pass(s, AMP_GT_QUOT, AMP_QUOT, "&gt;", ">");
  }

  lemma DecodeQuot(s: string)
    ensures ReplaceAll(Tokens(s, AMP_QUOT), "&quot;", "\"") == Tokens(s, AMP)
  {
    forall c ensures Rewrites(c, AMP_QUOT, AMP, "&quot;", "\"") {
    }
    Pass(s, AMP_QUOT, AMP, "&quot;", "\"");
  }

  lemma DecodeApos(s: string)
    ensures ReplaceAll(Tokens(s, AMP), "&apos;", "'") == Tokens(s, AMP)
  {
    forall c ensures Rewrites(c, AMP, AMP, "&apos;", "'") {
    }
    Pass(s, AMP, AMP, "&apos;", "'");
  }

  lemma DecodeAmp(s: string)
    ensures ReplaceAll(Tokens(s, AMP), "&amp;", "&") == Tokens(s, PLAIN)
  {
    forall c ensures Rewrites(c, AMP, PLAIN, "&amp;", "&") {
    }
    Pass(s, AMP, PLAIN, "&amp;", "&");
  }

  /** The reader recovers every text that the writer escaped. */
  lemma DecodeUndoesEscape(s: string)
    ensures Decode(Escape(s)) == s
  {
    EscapeIsTokens(s);
    NumericIdle(s, ESCAPED, "&#x", c => IsHexDigit(c), 16);
    NumericIdle(s, ESCAPED, "&#", c => IsDigit(c), 10);
    DecodeLt(s);
    DecodeGt(s);
    DecodeQuot(s);
    DecodeApos(s);
    DecodeAmp(s);
    PlainTokens(s);
  }

  /** Escaped text holds no markup: neither a tag nor the end of a quoted attribute can start in it. */
  lemma {:induction false} EscapedHoldsNoMarkup(s: string, i: nat)
    requires i < |Escape(s)|
    ensures Escape(s)[i] != '<' && Escape(s)[i] != '>' && Escape(s)[i] != '"'
  {
    EscapeIsTokens(s);
    TokensHoldNoMarkup(s, i);
  }

  lemma {:induction false} TokensHoldNoMarkup(s: string, i: nat)
    requires i < |Tokens(s, ESCAPED)|
    ensures var c := Tokens(s, ESCAPED)[i]; c != '<' && c != '>' && c != '"'
  {
    var t := Token(s[0], ESCAPED);
    if i >= |t| {
      TokensHoldNoMarkup(s[1..], i - |t|);
    }
  }
}
