/** Finding elements in markup by pattern, as the product's workbook reader does
    (src/platform/parse/xlsx.ts): the opening name at a word boundary, anything up to the next `>`, and
    the shortest body before the closing tag. */
module Elements {
  import opened Search
  import opened Text
  import opened Wrappers

  /** `empty` says that an element may close itself with a slash. */
  datatype Pattern = Pattern(open: string, close: string, empty: bool) {
    predicate Valid() {
      open != "" && close != ""
    }
  }

  datatype Element = Element(attributes: string, body: string)

  datatype Found = Found(element: Element, rest: string)

  predicate IsWord(c: char) {
    IsDigit(c) || 'a' <= c <= 'z' || 'A' <= c <= 'Z' || c == '_'
  }

  predicate InTag(c: char) {
    c != '>'
  }

  /** The name stands here and ends here. */
  predicate Opens(s: string, open: string) {
    open <= s && (|s| > |open| ==> !IsWord(s[|open|]))
  }

  /** A match that starts at the start of the text. */
  function MatchHere(s: string, p: Pattern): (m: Option<Found>)
    requires p.Valid()
    ensures m.Some? ==> |m.value.rest| < |s|
  {
    if !Opens(s, p.open) then None else
    var tag := s[|p.open|..];
    var n := Span(tag, InTag);
    if n == |tag| then None else
    var inside := tag[n + 1..];
    match IndexOf(inside, p.close)
    case Some(k) => Some(Found(Element(tag[..n], inside[..k]), inside[k + |p.close|..]))
    case None =>
      if p.empty && n > 0 && tag[n - 1] == '/' then Some(Found(Element(tag[..n - 1], ""), inside)) else None
  }

  /** All matches, from left to right. */
  function All(s: string, p: Pattern): seq<Element>
    requires p.Valid()
    decreases |s|
  {
    if s == "" then [] else
    match MatchHere(s, p)
    case Some(m) => [m.element] + All(m.rest, p)
    case None => All(s[1..], p)
  }

  // ---------------------------------------------------------------------------------------------
  // Texts in which a pattern is found where it was put
  // ---------------------------------------------------------------------------------------------

  lemma NoMatch(c: char, rest: string, p: Pattern)
    requires p.Valid() && !(p.open <= [c] + rest)
    ensures All([c] + rest, p) == All(rest, p)
  {
    hide Span, IndexOf, IsWord;
    assert ([c] + rest)[1..] == rest;
  }

  /** Text without the opening name is passed over. */
  lemma {:induction false} PassOver(s: string, rest: string, p: Pattern)
    requires p.Valid() && Quiet(s, p.open)
    ensures All(s + rest, p) == All(rest, p)
    decreases |s|
  {
    hide All, Differs, Quiet;
    if s == "" {
      assert s + rest == rest;
    } else {
      QuietTail(s, p.open);
      NotHere(s, rest, p.open);
      assert s + rest == [s[0]] + (s[1..] + rest);
      NoMatch(s[0], s[1..] + rest, p);
      PassOver(s[1..], rest, p);
    }
  }

  predicate AttributesLook(attributes: string) {
    && (forall i :: 0 <= i < |attributes| ==> attributes[i] != '>')
    && (attributes == "" || !IsWord(attributes[0]))
  }

  /** An element as it is written. */
  function Write(p: Pattern, attributes: string, body: string): string {
    p.open + (attributes + (">" + (body + p.close)))
  }

  lemma WrittenThen(p: Pattern, attributes: string, body: string, rest: string)
    ensures Write(p, attributes, body) + rest == p.open + (attributes + (">" + (body + (p.close + rest))))
  {
    Associates(body, p.close, rest);
    Associates(">", body + p.close, rest);
    Associates(attributes, ">" + (body + p.close), rest);
    Associates(p.open, attributes + (">" + (body + p.close)), rest);
  }

  lemma OpensHere(open: string, attributes: string, tail: string)
    requires AttributesLook(attributes)
    ensures Opens(open + (attributes + (">" + tail)), open)
  {
    var s := open + (attributes + (">" + tail));
    assert s[|open|] == (attributes + (">" + tail))[0];
  }

  /** A written element is found where it stands, and the search goes on after it. */
  lemma FoundHere(p: Pattern, attributes: string, body: string, rest: string)
    requires p.Valid() && AttributesLook(attributes) && Quiet(body, p.close)
    ensures MatchHere(Write(p, attributes, body) + rest, p) == Some(Found(Element(attributes, body), rest))
  {
    hide IndexOf, Opens, Quiet, Write, AttributesLook, Span, IsWord, InTag;
    var inside := body + (p.close + rest);
    var tag := attributes + (">" + inside);
    WrittenThen(p, attributes, body, rest);
    OpensHere(p.open, attributes, inside);
    assert (p.open + tag)[|p.open|..] == tag;
    TagEnds(attributes, inside);
    assert tag[..|attributes|] == attributes && tag[|attributes| + 1..] == inside;
    IndexAfterQuiet(body, p.close, rest);
    assert inside[..|body|] == body && inside[|body| + |p.close|..] == rest;
  }

  lemma TagEnds(attributes: string, inside: string)
    requires AttributesLook(attributes)
    ensures Span(attributes + (">" + inside), InTag) == |attributes|
  {
    SpanStops(attributes, ">" + inside, InTag);
  }

  lemma OneMore(p: Pattern, attributes: string, body: string, rest: string)
    requires p.Valid() && AttributesLook(attributes) && Quiet(body, p.close)
    ensures All(Write(p, attributes, body) + rest, p) == [Element(attributes, body)] + All(rest, p)
  {
    hide MatchHere, Quiet, AttributesLook;
    FoundHere(p, attributes, body, rest);
    assert Write(p, attributes, body) + rest != "";
  }

  /** A list of elements, one after another. */
  function WriteAll(p: Pattern, es: seq<Element>): string {
    if es == [] then "" else Write(p, es[0].attributes, es[0].body) + WriteAll(p, es[1..])
  }

  predicate Plain(p: Pattern, e: Element) {
    AttributesLook(e.attributes) && Quiet(e.body, p.close)
  }

  /** Between text that does not open one, exactly the elements written are found, in order. */
  lemma {:induction false} WrittenAreFound(p: Pattern, es: seq<Element>, tail: string)
    requires p.Valid() && (forall i :: 0 <= i < |es| ==> Plain(p, es[i])) && Quiet(tail, p.open)
    ensures All(WriteAll(p, es) + tail, p) == es
    decreases |es|
  {
    hide All, Write, Quiet, AttributesLook;
    if es == [] {
      assert WriteAll(p, es) + tail == tail + "";
      PassOver(tail, "", p);
      NothingFound(p);
    } else {
      WrittenAreFound(p, es[1..], tail);
      Associates(Write(p, es[0].attributes, es[0].body), WriteAll(p, es[1..]), tail);
      assert Plain(p, es[0]);
      OneMore(p, es[0].attributes, es[0].body, WriteAll(p, es[1..]) + tail);
      assert [es[0]] + es[1..] == es;
    }
  }

  lemma NothingFound(p: Pattern)
    requires p.Valid()
    ensures All("", p) == []
  {
  }

  // ---------------------------------------------------------------------------------------------
  // Attributes
  // ---------------------------------------------------------------------------------------------

  predicate NotQuote(c: char) {
    c != '"'
  }

  /** The value after a name: blanks, `=`, blanks, and a quoted text. */
  function QuotedAfter(s: string): Option<string> {
    var a := s[Span(s, IsSpace)..];
    if a == "" || a[0] != '=' then None else
    var b := a[1..];
    var c := b[Span(b, IsSpace)..];
    if c == "" || c[0] != '"' then None else
    var n := Span(c[1..], NotQuote);
    if n == |c[1..]| then None else Some(c[1..][..n])
  }

  /** The value of the first attribute of a one-letter name, at a word boundary; `before` is the character
      in front of the text. */
  function Attribute(before: char, s: string, name: char): Option<string>
    decreases |s|
  {
    if s == "" then None
    else if s[0] == name && !IsWord(before) && QuotedAfter(s[1..]).Some? then QuotedAfter(s[1..])
    else Attribute(s[0], s[1..], name)
  }

  lemma {:induction false} SkipTo(before: char, a: string, rest: string, name: char)
    requires a != "" && forall i :: 0 <= i < |a| ==> a[i] != name
    ensures Attribute(before, a + rest, name) == Attribute(a[|a| - 1], rest, name)
    decreases |a|
  {
    hide QuotedAfter;
    assert (a + rest)[1..] == a[1..] + rest;
    if |a| == 1 {
      assert a[1..] + rest == rest;
    } else {
      SkipTo(a[0], a[1..], rest, name);
    }
  }

  lemma QuotedIs(value: string, rest: string)
    requires forall i :: 0 <= i < |value| ==> value[i] != '"'
    ensures QuotedAfter("=\"" + (value + ("\"" + rest))) == Some(value)
  {
    var c := "\"" + (value + ("\"" + rest));
    var s := "=\"" + (value + ("\"" + rest));
    assert s[0] == '=' && s[1..] == c;
    NoBlanks(s);
    NoBlanks(c);
    assert s[0..] == s && c[0..] == c;
    assert c[1..] == value + ("\"" + rest);
    SpanStops(value, "\"" + rest, NotQuote);
    assert (value + ("\"" + rest))[..|value|] == value;
  }

  lemma NoBlanks(s: string)
    requires s != "" && (s[0] == '=' || s[0] == '"')
    ensures Span(s, IsSpace) == 0
  {
  }

  lemma AttributeIs(before: char, name: char, value: string, rest: string)
    requires !IsWord(before) && forall i :: 0 <= i < |value| ==> value[i] != '"'
    ensures Attribute(before, [name] + ("=\"" + (value + ("\"" + rest))), name) == Some(value)
  {
    hide QuotedAfter;
    QuotedIs(value, rest);
    var s := [name] + ("=\"" + (value + ("\"" + rest)));
    assert s[1..] == "=\"" + (value + ("\"" + rest));
  }

  lemma NoAttribute(before: char, s: string, name: char)
    requires forall i :: 0 <= i < |s| ==> s[i] != name
    ensures Attribute(before, s, name) == None
  {
    if s != "" {
      SkipTo(before, s, "", name);
      assert s + "" == s;
    }
  }
}
