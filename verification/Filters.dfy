/** The view in the URL (scripts/design/gl-runtime.ts): written by syncUrl, cut and extended by
    investigate, read by readUrl. */
module Filters {
  import opened Facts
  import opened Query
  import opened Wrappers
  import Movement
  import opened Text

  // ---------------------------------------------------------------------------------------------
  // Names
  // ---------------------------------------------------------------------------------------------

  const VIEW := 9
  const DRIVER := 10
  const POP := 11
  const POPLABEL := 12

  /** The name of a parameter: the nine dimensions, then the four others. */
  function Name(k: nat): string
    requires k <= POPLABEL
  {
    if k == 0 then "region" else if k == 1 then "industry" else if k == 2 then "account"
    else if k == 3 then "deliveryGroup" else if k == 4 then "system" else if k == 5 then "reported"
    else if k == 6 then "trajectory" else if k == 7 then "outlook30" else if k == 8 then "outlook60"
    else if k == 9 then "view" else if k == 10 then "driver" else if k == 11 then "pop" else "poplabel"
  }

  /** Three marks that tell the names apart. */
  function Marks(s: string): (int, char, char)
    requires |s| >= 3
  {
    (|s|, s[0], s[|s| - 2])
  }

  lemma NameMarks(k: nat)
    requires k <= POPLABEL
    ensures |Name(k)| >= 3 && Kept(Name(k))
    ensures Marks(Name(k)) ==
      if k == 0 then (6, 'r', 'o') else if k == 1 then (8, 'i', 'r') else if k == 2 then (7, 'a', 'n')
      else if k == 3 then (13, 'd', 'u') else if k == 4 then (6, 's', 'e') else if k == 5 then (8, 'r', 'e')
      else if k == 6 then (10, 't', 'r') else if k == 7 then (9, 'o', '3') else if k == 8 then (9, 'o', '6')
      else if k == 9 then (4, 'v', 'e') else if k == 10 then (6, 'd', 'e') else if k == 11 then (3, 'p', 'o')
        else (8, 'p', 'e')
  {
  }

  lemma NamesDiffer(j: nat, k: nat)
    requires j <= POPLABEL && k <= POPLABEL
    ensures Name(j) == Name(k) <==> j == k
  {
    hide Name, Marks;
    NameMarks(j);
    NameMarks(k);
  }

  function QuickName(q: Quick): string {
    match q
    case Intervene => "intervene"
    case Disagree => "disagree"
    case Emerging => "emerging"
    case Declining => "declining"
    case Recovering => "recovering"
    case Erosion => "erosion"
    case Scope => "scope"
  }

  function QuickOf(s: string): Option<Quick> {
    if s == "intervene" then Some(Intervene) else if s == "disagree" then Some(Disagree)
    else if s == "emerging" then Some(Emerging) else if s == "declining" then Some(Declining)
    else if s == "recovering" then Some(Recovering) else if s == "erosion" then Some(Erosion)
    else if s == "scope" then Some(Scope) else None
  }

  lemma QuickComesBack(q: Quick)
    ensures QuickOf(QuickName(q)) == Some(q) && Kept(QuickName(q)) && QuickName(q) != ""
  {
  }

  // ---------------------------------------------------------------------------------------------
  // The population list
  // ---------------------------------------------------------------------------------------------

  /** `ids.join(',')` */
  function JoinIds(ids: seq<string>): string {
    if ids == [] then "" else if |ids| == 1 then ids[0] else ids[0] + ("," + JoinIds(ids[1..]))
  }

  predicate InId(c: char) {
    c != ','
  }

  /** `pop.split(',').filter((x) => x)` */
  function SplitIds(s: string): seq<string>
    decreases |s|
  {
    var n := Span(s, InId);
    (if n == 0 then [] else [s[..n]]) + if n == |s| then [] else SplitIds(s[n + 1..])
  }

  predicate IsId(id: string) {
    id != "" && forall i :: 0 <= i < |id| ==> id[i] != ','
  }

  predicate AllIds(ids: seq<string>) {
    forall k :: 0 <= k < |ids| ==> IsId(ids[k])
  }

  lemma LastId(id: string)
    requires IsId(id)
    ensures SplitIds(id) == [id]
  {
    SpanStops(id, "", InId);
    assert id + "" == id && id[..|id|] == id;
  }

  lemma FirstId(id: string, rest: string)
    requires IsId(id)
    ensures SplitIds(id + ("," + rest)) == [id] + SplitIds(rest)
  {
    hide SplitIds;
    var s := id + ([','] + rest);
    Slices(id, ',', rest);
    SpanStops(id, [','] + rest, InId);
    SplitStep(s, |id|);
  }

  lemma SplitStep(s: string, n: nat)
    requires 0 < n < |s| && n == Span(s, InId)
    ensures SplitIds(s) == [s[..n]] + SplitIds(s[n + 1..])
  {
    hide Span, InId;
  }

  lemma {:induction false} IdsComeBack(ids: seq<string>)
    requires ids != [] && AllIds(ids)
    ensures SplitIds(JoinIds(ids)) == ids && JoinIds(ids) != ""
  {
    hide SplitIds;
    if |ids| == 1 {
      LastId(ids[0]);
    } else {
      IdsComeBack(ids[1..]);
      FirstId(ids[0], JoinIds(ids[1..]));
    }
  }

  // ---------------------------------------------------------------------------------------------
  // Writing
  // ---------------------------------------------------------------------------------------------

  /** A numbered name with its value before it is encoded. */
  datatype Entry = Entry(key: nat, value: string)

  /** The dimensions that are set, in the order they were set in. */
  function DimEntries(v: View, order: seq<nat>): seq<Entry>
    requires forall i :: 0 <= i < |order| ==> order[i] in v.dims
  {
    if order == [] then [] else [Entry(order[0], v.dims[order[0]])] + DimEntries(v, order[1..])
  }

  function FilterEntries(v: View, order: seq<nat>): seq<Entry>
    requires forall i :: 0 <= i < |order| ==> order[i] in v.dims
  {
    DimEntries(v, order)
    + (if v.quick.Some? then [Entry(VIEW, QuickName(v.quick.value))] else [])
    + (if v.driver.Some? then [Entry(DRIVER, v.driver.value)] else [])
  }

  function PopEntries(pop: Option<seq<string>>, popLabel: Option<string>): seq<Entry> {
    (if pop.Some? then [Entry(POP, JoinIds(pop.value))] else [])
    + (if popLabel.Some? then [Entry(POPLABEL, popLabel.value)] else [])
  }

  predicate AllKeys(es: seq<Entry>) {
    forall i :: 0 <= i < |es| ==> es[i].key <= POPLABEL
  }

  /** The lens and the driver go out as they stand, everything else encoded. */
  function Written(codec: Codec, e: Entry): Param
    requires e.key <= POPLABEL
  {
    Param(Name(e.key), if e.key == VIEW || e.key == DRIVER then e.value else Encode(codec, e.value))
  }

  function AllWritten(codec: Codec, es: seq<Entry>): seq<Param>
    requires AllKeys(es)
  {
    if es == [] then [] else [Written(codec, es[0])] + AllWritten(codec, es[1..])
  }

  /** The values UTF-8 gives back; the two that go out as they stand hold nothing that needs encoding. */
  ghost predicate Writable(codec: Codec, e: Entry) {
    e.value != "" &&
    if e.key == VIEW || e.key == DRIVER then Kept(e.value) else codec.text(codec.utf8(e.value)) == e.value
  }

  ghost predicate AllWritable(codec: Codec, es: seq<Entry>) {
    forall i :: 0 <= i < |es| ==> Writable(codec, es[i])
  }

  /** A view as syncUrl writes it: dimensions set once each, nothing set to nothing, a driver that is a
      plain word, ids without commas. */
  ghost predicate Canonical(codec: Codec, v: View, order: seq<nat>) {
    && (forall i :: 0 <= i < |order| ==> order[i] in v.dims && order[i] < DIMS)
    && (forall i, j :: 0 <= i < j < |order| ==> order[i] != order[j])
    && (forall d: nat :: d in v.dims ==> d in order)
    && AllWritable(codec, FilterEntries(v, order))
    && Populated(codec, v.pop, v.popLabel)
  }

  ghost predicate Populated(codec: Codec, pop: Option<seq<string>>, popLabel: Option<string>) {
    && (pop.Some? ==> pop.value != [] && AllIds(pop.value))
    && AllWritable(codec, PopEntries(pop, popLabel))
  }

  /** The query of syncUrl. */
  function UrlOf(codec: Codec, v: View, order: seq<nat>): string
    requires forall i :: 0 <= i < |order| ==> order[i] in v.dims && order[i] < DIMS
  {
    KeysOf(v, order);
    Print(AllWritten(codec, FilterEntries(v, order) + PopEntries(v.pop, v.popLabel)))
  }

  lemma {:induction false} DimKeys(v: View, order: seq<nat>)
    requires forall i :: 0 <= i < |order| ==> order[i] in v.dims && order[i] < DIMS
    ensures forall i :: 0 <= i < |DimEntries(v, order)| ==> DimEntries(v, order)[i].key < DIMS
  {
    if order != [] { DimKeys(v, order[1..]); }
  }

  lemma KeysOf(v: View, order: seq<nat>)
    requires forall i :: 0 <= i < |order| ==> order[i] in v.dims && order[i] < DIMS
    ensures AllKeys(FilterEntries(v, order)) && AllKeys(PopEntries(v.pop, v.popLabel))
    ensures AllKeys(FilterEntries(v, order) + PopEntries(v.pop, v.popLabel))
    ensures forall i :: 0 <= i < |FilterEntries(v, order)| ==> FilterEntries(v, order)[i].key < POP
  {
    DimKeys(v, order);
  }

  lemma {:induction false} WrittenAppends(codec: Codec, a: seq<Entry>, b: seq<Entry>)
    requires AllKeys(a) && AllKeys(b)
    ensures AllKeys(a + b) && AllWritten(codec, a + b) == AllWritten(codec, a) + AllWritten(codec, b)
    decreases |a|
  {
    hide Written;
    if a == [] {
      assert a + b == b;
    } else {
      WrittenAppends(codec, a[1..], b);
      assert (a + b)[1..] == a[1..] + b;
    }
  }

  // ---------------------------------------------------------------------------------------------
  // Reading
  // ---------------------------------------------------------------------------------------------

  function NonEmpty(s: Option<string>): Option<string> {
    if s == Some("") then None else s
  }

  function DimsRead(dims: map<nat, string>, ps: seq<Param>, n: nat): map<nat, string>
    requires n <= DIMS
  {
    if n == 0 then dims else
    var before := DimsRead(dims, ps, n - 1);
    var value := NonEmpty(Get(ps, Name(n - 1)));
    if value.Some? then before[n - 1 := value.value] else before
  }

  function OrElse<T>(a: Option<T>, b: Option<T>): Option<T> {
    if a.Some? then a else b
  }

  /** `readUrl` over the parameters: what is present replaces what was there. */
  function Read(v: View, ps: seq<Param>): View {
    var view := NonEmpty(Get(ps, Name(VIEW)));
    var pop := NonEmpty(Get(ps, Name(POP)));
    View(DimsRead(v.dims, ps, DIMS),
         OrElse(if view.Some? then QuickOf(view.value) else None, v.quick),
         OrElse(NonEmpty(Get(ps, Name(DRIVER))), v.driver),
         if pop.Some? then Some(SplitIds(pop.value)) else v.pop,
         OrElse(NonEmpty(Get(ps, Name(POPLABEL))), v.popLabel))
  }

  class Page {
    var state: View

    constructor ()
      ensures state == EVERYTHING
    {
      state := EVERYTHING;
    }

    method ReadUrl(codec: Codec, query: string)
      modifies this
      ensures state == Read(old(state), Parse(codec, query))
    {
      hide Parse, SplitIds, Name, QuickOf;
      var p := Parse(codec, query);
      for i := 0 to DIMS
        invariant state == old(state).(dims := DimsRead(old(state).dims, p, i))
      {
        var v := Get(p, Name(i));
        if v.Some? && v.value != "" { state := state.(dims := state.dims[i := v.value]); }
      }
      var view := Get(p, Name(VIEW));
      if view.Some? && view.value != "" && QuickOf(view.value).Some? { state := state.(quick := QuickOf(view.value)); }
      var dv := Get(p, Name(DRIVER));
      if dv.Some? && dv.value != "" { state := state.(driver := dv); }
      var pop := Get(p, Name(POP));
      if pop.Some? && pop.value != "" { state := state.(pop := Some(SplitIds(pop.value))); }
      var pl := Get(p, Name(POPLABEL));
      if pl.Some? && pl.value != "" { state := state.(popLabel := pl); }
    }
  }

  /** The dimensions, one by one in the order they were set. */
  method DimParams(codec: Codec, v: View, order: seq<nat>) returns (q: seq<Param>)
    requires forall i :: 0 <= i < |order| ==> order[i] in v.dims && order[i] < DIMS
    ensures AllKeys(DimEntries(v, order)) && q == AllWritten(codec, DimEntries(v, order))
  {
    hide Encode, Name, AllWritten, AllKeys, Written;
    q := [];
    ghost var done: seq<Entry> := [];
    NothingWritten(codec);
    for i := 0 to |order|
      invariant done + DimEntries(v, order[i..]) == DimEntries(v, order)
      invariant AllKeys(done) && q == AllWritten(codec, done)
    {
      assert order[i..][0] == order[i] && order[i..][1..] == order[i + 1..];
      var e := Entry(order[i], v.dims[order[i]]);
      Associates(done, [e], DimEntries(v, order[i + 1..]));
      AddOne(codec, done, e);
      q, done := q + [Param(Name(order[i]), Encode(codec, v.dims[order[i]]))], done + [e];
    }
    assert done == DimEntries(v, order);
  }

  /** `syncUrl` gathers the parameters one by one and joins them. */
  method SyncUrl(codec: Codec, v: View, order: seq<nat>) returns (query: string)
    requires forall i :: 0 <= i < |order| ==> order[i] in v.dims && order[i] < DIMS
    ensures query == UrlOf(codec, v, order)
  {
    hide Encode, Name, Print, QuickName, JoinIds, AllWritten, AllKeys, Written, DimEntries;
    KeysOf(v, order);
    var q := DimParams(codec, v, order);
    ghost var done := DimEntries(v, order);
    if v.quick.Some? {
      AddOne(codec, done, Entry(VIEW, QuickName(v.quick.value)));
      q, done := q + [Param(Name(VIEW), QuickName(v.quick.value))], done + [Entry(VIEW, QuickName(v.quick.value))];
    }
    if v.driver.Some? {
      AddOne(codec, done, Entry(DRIVER, v.driver.value));
      q, done := q + [Param(Name(DRIVER), v.driver.value)], done + [Entry(DRIVER, v.driver.value)];
    }
    assert done == FilterEntries(v, order);
    if v.pop.Some? {
      AddOne(codec, done, Entry(POP, JoinIds(v.pop.value)));
      q, done := q + [Param(Name(POP), Encode(codec, JoinIds(v.pop.value)))], done + [Entry(POP, JoinIds(v.pop.value))];
    }
    if v.popLabel.Some? {
      AddOne(codec, done, Entry(POPLABEL, v.popLabel.value));
      q, done := q + [Param(Name(POPLABEL), Encode(codec, v.popLabel.value))],
        done + [Entry(POPLABEL, v.popLabel.value)];
    }
    assert done == FilterEntries(v, order) + PopEntries(v.pop, v.popLabel);
    query := Print(q);
  }

  lemma NothingWritten(codec: Codec)
    ensures AllKeys([]) && AllWritten(codec, []) == []
  {
  }

  lemma AddOne(codec: Codec, es: seq<Entry>, e: Entry)
    requires AllKeys(es) && e.key <= POPLABEL
    ensures AllKeys(es + [e])
    ensures AllWritten(codec, es + [e]) == AllWritten(codec, es)
      + [Param(Name(e.key), if e.key == VIEW || e.key == DRIVER then e.value else Encode(codec, e.value))]
  {
    hide Name, Encode;
    WrittenAppends(codec, es, [e]);
    assert AllWritten(codec, [e]) == [Written(codec, e)] + AllWritten(codec, []);
  }

  // ---------------------------------------------------------------------------------------------
  // What is written is read
  // ---------------------------------------------------------------------------------------------

  function AllPlain(es: seq<Entry>): seq<Param>
    requires AllKeys(es)
  {
    if es == [] then [] else [Param(Name(es[0].key), es[0].value)] + AllPlain(es[1..])
  }

  lemma WrittenComesBack(codec: Codec, e: Entry)
    requires PlainAscii(codec) && e.key <= POPLABEL && Writable(codec, e)
    ensures Clean(Written(codec, e))
    ensures Decode(codec, Written(codec, e).name) == Name(e.key) && Decode(codec, Written(codec, e).raw) == e.value
  {
    hide Name, Encode, Decode, Kept, PlainAscii, IsSeparator;
    NameMarks(e.key);
    KeptComesBack(codec, Name(e.key));
    if e.key == VIEW || e.key == DRIVER {
      KeptComesBack(codec, e.value);
    } else {
      ComponentComesBack(codec, e.value);
    }
  }

  lemma {:induction false} AllComeBack(codec: Codec, es: seq<Entry>)
    requires PlainAscii(codec) && AllKeys(es) && AllWritable(codec, es)
    ensures AllClean(AllWritten(codec, es)) && DecodeAll(codec, AllWritten(codec, es)) == AllPlain(es)
  {
    hide Written, Writable, Clean, Decode, Name, PlainAscii;
    if es != [] {
      AllComeBack(codec, es[1..]);
      WrittenComesBack(codec, es[0]);
      assert AllWritten(codec, es)[1..] == AllWritten(codec, es[1..]);
    }
  }

  function Lookup(es: seq<Entry>, k: nat): Option<string> {
    if es == [] then None else if es[0].key == k then Some(es[0].value) else Lookup(es[1..], k)
  }

  lemma {:induction false} GetIsLookup(es: seq<Entry>, k: nat)
    requires AllKeys(es) && k <= POPLABEL
    ensures Get(AllPlain(es), Name(k)) == Lookup(es, k)
  {
    hide Name;
    if es != [] {
      NamesDiffer(es[0].key, k);
      GetIsLookup(es[1..], k);
    }
  }

  lemma {:induction false} LookupAppends(a: seq<Entry>, b: seq<Entry>, k: nat)
    ensures Lookup(a + b, k) == if Lookup(a, k).Some? then Lookup(a, k) else Lookup(b, k)
    decreases |a|
  {
    if a == [] {
      assert a + b == b;
    } else {
      assert (a + b)[1..] == a[1..] + b;
      LookupAppends(a[1..], b, k);
    }
  }

  lemma {:induction false} LookupDim(v: View, order: seq<nat>, k: nat)
    requires forall i :: 0 <= i < |order| ==> order[i] in v.dims
    ensures Lookup(DimEntries(v, order), k) == if k in order then Some(v.dims[k]) else None
  {
    if order != [] { LookupDim(v, order[1..], k); }
  }

  lemma LookupOne(e: Entry, k: nat)
    ensures Lookup([e], k) == (if e.key == k then Some(e.value) else None) && Lookup([], k) == None
  {
  }

  /** What the written view holds under each name. */
  function Held(v: View, k: nat): Option<string> {
    if k < DIMS then if k in v.dims then Some(v.dims[k]) else None
    else if k == VIEW then if v.quick.Some? then Some(QuickName(v.quick.value)) else None
    else if k == DRIVER then v.driver
    else if k == POP then if v.pop.Some? then Some(JoinIds(v.pop.value)) else None
    else if k == POPLABEL then v.popLabel else None
  }

  lemma LookupHeld(v: View, order: seq<nat>, k: nat)
    requires forall i :: 0 <= i < |order| ==> order[i] in v.dims && order[i] < DIMS
    requires forall d: nat :: d in v.dims ==> d in order
    requires k <= POPLABEL
    ensures Lookup(FilterEntries(v, order) + PopEntries(v.pop, v.popLabel), k) == Held(v, k)
  {
    hide Lookup, DimEntries, JoinIds, QuickName;
    var dims := DimEntries(v, order);
    var quick := if v.quick.Some? then [Entry(VIEW, QuickName(v.quick.value))] else [];
    var driver := if v.driver.Some? then [Entry(DRIVER, v.driver.value)] else [];
    var pop := if v.pop.Some? then [Entry(POP, JoinIds(v.pop.value))] else [];
    var title := if v.popLabel.Some? then [Entry(POPLABEL, v.popLabel.value)] else [];
    LookupDim(v, order, k);
    LookupAppends(dims, quick, k);
    LookupAppends(dims + quick, driver, k);
    LookupAppends(dims + quick + driver, pop + title, k);
    LookupAppends(pop, title, k);
    LookupOne(Entry(VIEW, if v.quick.Some? then QuickName(v.quick.value) else ""), k);
    LookupOne(Entry(DRIVER, if v.driver.Some? then v.driver.value else ""), k);
    LookupOne(Entry(POP, if v.pop.Some? then JoinIds(v.pop.value) else ""), k);
    LookupOne(Entry(POPLABEL, if v.popLabel.Some? then v.popLabel.value else ""), k);
  }

  /** Parameters that hold a view under its names. */
  predicate Holds(ps: seq<Param>, v: View) {
    forall k: nat :: k <= POPLABEL ==> NonEmpty(Get(ps, Name(k))) == Held(v, k)
  }

  lemma {:induction false} DimsComeBack(ps: seq<Param>, v: View, n: nat)
    requires n <= DIMS && Holds(ps, v)
    ensures forall d: nat :: d in DimsRead(map[], ps, n) <==> d < n && d in v.dims
    ensures forall d: nat :: d in DimsRead(map[], ps, n) ==> DimsRead(map[], ps, n)[d] == v.dims[d]
  {
    hide Get, Name, NonEmpty;
    if n > 0 {
      DimsComeBack(ps, v, n - 1);
      assert NonEmpty(Get(ps, Name(n - 1))) == Held(v, n - 1);
    }
  }

  lemma HeldIsRead(ps: seq<Param>, v: View)
    requires Holds(ps, v) && (forall d: nat :: d in v.dims ==> d < DIMS)
    requires v.pop.Some? ==> v.pop.value != [] && AllIds(v.pop.value)
    ensures Read(EVERYTHING, ps) == v
  {
    hide Get, Name, NonEmpty, QuickName, QuickOf, SplitIds, JoinIds, DimsRead;
    DimsComeBack(ps, v, DIMS);
    assert DimsRead(map[], ps, DIMS) == v.dims;
    if v.quick.Some? { QuickComesBack(v.quick.value); }
    if v.pop.Some? { IdsComeBack(v.pop.value); }
    assert NonEmpty(Get(ps, Name(VIEW))) == Held(v, VIEW);
    assert NonEmpty(Get(ps, Name(DRIVER))) == Held(v, DRIVER);
    assert NonEmpty(Get(ps, Name(POP))) == Held(v, POP);
    assert NonEmpty(Get(ps, Name(POPLABEL))) == Held(v, POPLABEL);
  }

  lemma {:induction false} LookupNotEmpty(codec: Codec, es: seq<Entry>, k: nat)
    requires AllWritable(codec, es)
    ensures Lookup(es, k) != Some("")
  {
    if es != [] { LookupNotEmpty(codec, es[1..], k); }
  }

  lemma WritableTogether(codec: Codec, a: seq<Entry>, b: seq<Entry>)
    requires AllWritable(codec, a) && AllWritable(codec, b)
    ensures AllWritable(codec, a + b)
  {
  }

  /** A page opened on a canonical URL has the view the URL was written from, in whatever order its
      dimensions were set. */
  lemma UrlComesBack(codec: Codec, v: View, order: seq<nat>)
    requires PlainAscii(codec) && Canonical(codec, v, order)
    ensures Read(EVERYTHING, Parse(codec, UrlOf(codec, v, order))) == v
  {
    hide PlainAscii, AllWritten, AllPlain, Parse, Print, Get, Name, FilterEntries, PopEntries, Lookup, AllWritable,
      DecodeAll, Read, Held, AllIds;
    KeysOf(v, order);
    var es := FilterEntries(v, order) + PopEntries(v.pop, v.popLabel);
    WritableTogether(codec, FilterEntries(v, order), PopEntries(v.pop, v.popLabel));
    AllComeBack(codec, es);
    PrintedIsParsed(codec, AllWritten(codec, es));
    forall k: nat | k <= POPLABEL ensures NonEmpty(Get(AllPlain(es), Name(k))) == Held(v, k) {
      GetIsLookup(es, k);
      LookupHeld(v, order, k);
      LookupNotEmpty(codec, es, k);
    }
    HeldIsRead(AllPlain(es), v);
  }

  // ---------------------------------------------------------------------------------------------
  // Investigating
  // ---------------------------------------------------------------------------------------------

  datatype Destination = Nowhere | Project(id: string) | Projects(query: string)

  /** The query without population, by deleting text. */
  function Unpopulated(query: string): string {
    var q := Remove(Remove(query, Name(POP)), Name(POPLABEL));
    if q == "?" then "" else q
  }

  /** `investigate(ids, label)` on a page with a query. */
  function Investigate(codec: Codec, query: string, ids: seq<string>, title: string): Destination {
    if ids == [] then Nowhere
    else if |ids| == 1 then Project(ids[0])
    else
      var q := Unpopulated(query);
      Projects(q + (if q != "" then "&" else "?") + Pair(Param(Name(POP), Encode(codec, JoinIds(ids))))
               + if title != "" then "&" + Pair(Param(Name(POPLABEL), Encode(codec, title))) else "")
  }

  function TitleOf(title: string): Option<string> {
    if title == "" then None else Some(title)
  }

  lemma {:induction false} WithoutAbsent(codec: Codec, es: seq<Entry>, k: nat)
    requires AllKeys(es) && k <= POPLABEL && forall i :: 0 <= i < |es| ==> es[i].key != k
    ensures Without(AllWritten(codec, es), Name(k)) == AllWritten(codec, es)
  {
    hide Name, Encode;
    if es != [] {
      NamesDiffer(es[0].key, k);
      WithoutAbsent(codec, es[1..], k);
      assert AllWritten(codec, es)[1..] == AllWritten(codec, es[1..]);
    }
  }

  lemma {:induction false} WithoutAppends(a: seq<Param>, b: seq<Param>, name: string)
    ensures Without(a + b, name) == Without(a, name) + Without(b, name)
    decreases |a|
  {
    if a == [] {
      assert a + b == b;
    } else {
      assert (a + b)[1..] == a[1..] + b;
      WithoutAppends(a[1..], b, name);
    }
  }

  lemma {:induction false} RestAppends(a: seq<Param>, b: seq<Param>)
    ensures Rest(a + b) == Rest(a) + Rest(b)
    decreases |a|
  {
    hide Pair;
    if a == [] {
      assert a + b == b;
    } else {
      assert (a + b)[1..] == a[1..] + b;
      RestAppends(a[1..], b);
      Associates("&", Pair(a[0]) + Rest(a[1..]), Rest(b));
      Associates(Pair(a[0]), Rest(a[1..]), Rest(b));
    }
  }

  lemma PrintAppends(a: seq<Param>, b: seq<Param>)
    requires a != []
    ensures Print(a + b) == Print(a) + Rest(b)
  {
    hide Pair, Rest;
    assert (a + b)[1..] == a[1..] + b;
    RestAppends(a[1..], b);
    Associates("?", Pair(a[0]) + Rest(a[1..]), Rest(b));
    Associates(Pair(a[0]), Rest(a[1..]), Rest(b));
  }

  predicate IsName(name: string) {
    name != "" && forall i :: 0 <= i < |name| ==> name[i] != '='
  }

  lemma NamesAreNames(k: nat)
    requires k <= POPLABEL
    ensures IsName(Name(k))
  {
    hide Name, Kept;
    NameMarks(k);
    KeptHasNoEquals(Name(k));
  }

  lemma KeptHasNoEquals(s: string)
    requires Kept(s)
    ensures forall i :: 0 <= i < |s| ==> s[i] != '='
  {
  }

  /** Deleting a name by text, when the first parameter has another, deletes the parameter. */
  lemma RemoveIsWithout(ps: seq<Param>, name: string)
    requires ps != [] && AllClean(ps) && ps[0].name != name && IsName(name)
    ensures Remove(Print(ps), name) == Print(Without(ps, name)) && Without(ps, name) != []
      && Without(ps, name)[0] == ps[0]
  {
    hide Remove, Print, Clean;
    RemoveKeepsFirst(ps, name);
  }

  lemma CleanWithout(ps: seq<Param>, name: string)
    requires AllClean(ps)
    ensures AllClean(Without(ps, name))
  {
    hide Clean;
    if ps != [] { CleanWithout(ps[1..], name); }
  }

  /** The parameters of a population. */
  function PopParams(codec: Codec, pop: Option<seq<string>>, popLabel: Option<string>): seq<Param> {
    (if pop.Some? then [Param(Name(POP), Encode(codec, JoinIds(pop.value)))] else [])
    + (if popLabel.Some? then [Param(Name(POPLABEL), Encode(codec, popLabel.value))] else [])
  }

  lemma PopIsWritten(codec: Codec, pop: Option<seq<string>>, popLabel: Option<string>)
    ensures AllKeys(PopEntries(pop, popLabel))
      && AllWritten(codec, PopEntries(pop, popLabel)) == PopParams(codec, pop, popLabel)
  {
    hide Encode, JoinIds, Name;
    NothingWritten(codec);
    if pop.Some? { AddOne(codec, [], Entry(POP, JoinIds(pop.value))); }
    var front := if pop.Some? then [Entry(POP, JoinIds(pop.value))] else [];
    assert [] + front == front;
    if popLabel.Some? { AddOne(codec, front, Entry(POPLABEL, popLabel.value)); }
  }

  lemma PopRemoved(codec: Codec, pop: Option<seq<string>>, popLabel: Option<string>)
    ensures Without(Without(PopParams(codec, pop, popLabel), Name(POP)), Name(POPLABEL)) == []
  {
    hide Encode, JoinIds, Name;
    NamesDiffer(POP, POPLABEL);
    var title := if popLabel.Some? then [Param(Name(POPLABEL), Encode(codec, popLabel.value))] else [];
    var front := if pop.Some? then [Param(Name(POP), Encode(codec, JoinIds(pop.value)))] else [];
    WithoutAppends(front, title, Name(POP));
    assert Without(front, Name(POP)) == [] && [] + title == title;
    assert Without(title, Name(POP)) == title;
    assert Without(title, Name(POPLABEL)) == [];
  }

  /** With other filters in front, cutting the population leaves them as they were. */
  lemma CutsAfterFilters(codec: Codec, es: seq<Entry>, pop: Option<seq<string>>, popLabel: Option<string>)
    requires AllKeys(es) && es != [] && forall i :: 0 <= i < |es| ==> es[i].key < POP
    requires AllClean(AllWritten(codec, es) + PopParams(codec, pop, popLabel))
    ensures Unpopulated(Print(AllWritten(codec, es) + PopParams(codec, pop, popLabel))) == Print(AllWritten(codec, es))
  {
    hide Name, Encode, Print, Remove, Clean, PopParams, Written;
    var filters, tail := AllWritten(codec, es), PopParams(codec, pop, popLabel);
    assert filters[0] == Written(codec, es[0]);
    FirstNameDiffers(codec, es[0]);
    NamesAreNames(POP);
    NamesAreNames(POPLABEL);
    WithoutAbsent(codec, es, POP);
    WithoutAbsent(codec, es, POPLABEL);
    WithoutAppends(filters, tail, Name(POP));
    RemoveIsWithout(filters + tail, Name(POP));
    CleanWithout(filters + tail, Name(POP));
    var rest := Without(tail, Name(POP));
    WithoutAppends(filters, rest, Name(POPLABEL));
    RemoveIsWithout(filters + rest, Name(POPLABEL));
    PopRemoved(codec, pop, popLabel);
    assert filters + [] == filters;
    NotAlone(filters);
  }

  lemma FirstNameDiffers(codec: Codec, e: Entry)
    requires e.key < POP
    ensures Written(codec, e).name != Name(POP) && Written(codec, e).name != Name(POPLABEL)
  {
    hide Name, Encode;
    NamesDiffer(e.key, POP);
    NamesDiffer(e.key, POPLABEL);
  }

  lemma NotAlone(ps: seq<Param>)
    requires ps != []
    ensures Print(ps) != "?" && Print(ps) != ""
  {
  }

  lemma NothingFromNothing(name: string)
    ensures Remove("", name) == "" && Print([]) == "" && Rest([]) == ""
  {
  }

  lemma RestOfOne(p: Param)
    ensures Rest([p]) == "&" + Pair(p) && Print([p]) == "?" + Pair(p)
  {
    hide Pair;
    assert [p][1..] == [];
    assert Pair(p) + "" == Pair(p);
  }

  lemma OneAway(p: Param, name: string)
    requires Clean(p) && p.name == name && IsName(name)
    ensures Remove(Print([p]), name) == "" && Remove(Rest([p]), name) == ""
  {
    hide Remove, Clean, Print, Pair;
    assert [p][1..] == [];
    RemoveFirst([p], name);
    RemoveFromMore([p], name);
  }

  lemma LabelAlone(p: Param)
    requires Clean(p) && p.name == Name(POPLABEL)
    ensures Unpopulated(Print([p])) == "" && Remove(Rest([p]), Name(POPLABEL)) == ""
  {
    hide Remove, Clean, Print, Rest, Name;
    NamesDiffer(POP, POPLABEL);
    NamesAreNames(POP);
    NamesAreNames(POPLABEL);
    RemoveIsWithout([p], Name(POP));
    assert [p][1..] == [] && [p] + [] == [p];
    OneAway(p, Name(POPLABEL));
  }

  lemma PopThenLabel(p: Param, t: Param)
    requires Clean(p) && Clean(t) && p.name == Name(POP) && t.name == Name(POPLABEL)
    ensures Unpopulated(Print([p, t])) == ""
  {
    hide Remove, Clean, Print, Rest, Name;
    NamesDiffer(POP, POPLABEL);
    NamesAreNames(POP);
    NamesAreNames(POPLABEL);
    RemoveFirst([p, t], Name(POP));
    assert [p, t][1..] == [t] && [t][1..] == [] && [t] + [] == [t];
    OneAway(t, Name(POPLABEL));
  }

  lemma PopAlone(p: Param)
    requires Clean(p) && p.name == Name(POP)
    ensures Unpopulated(Print([p])) == ""
  {
    hide Remove, Clean, Print, Rest, Name;
    NamesAreNames(POP);
    OneAway(p, Name(POP));
    NothingFromNothing(Name(POPLABEL));
  }

  /** With nothing in front, cutting the population leaves nothing, though its `?` goes with the first
      cut. */
  lemma CutsAlone(codec: Codec, pop: Option<seq<string>>, popLabel: Option<string>)
    requires AllClean(PopParams(codec, pop, popLabel))
    ensures Unpopulated(Print(PopParams(codec, pop, popLabel))) == ""
  {
    hide Name, Encode, JoinIds, Print, Unpopulated, Clean;
    var ps := PopParams(codec, pop, popLabel);
    if pop.Some? && popLabel.Some? {
      assert ps == [ps[0], ps[1]];
      PopThenLabel(ps[0], ps[1]);
    } else if pop.Some? {
      assert ps == [ps[0]];
      PopAlone(ps[0]);
    } else if popLabel.Some? {
      assert ps == [ps[0]];
      LabelAlone(ps[0]);
    } else {
      Empty();
    }
  }

  lemma Empty()
    ensures Unpopulated(Print([])) == ""
  {
    NothingFromNothing(Name(POP));
    NothingFromNothing(Name(POPLABEL));
  }

  /** What investigate appends is what printing appends. */
  lemma AppendsAsPrinted(codec: Codec, filters: seq<Param>, ids: seq<string>, title: string)
    ensures var q := Print(filters);
      q + (if q != "" then "&" else "?") + Pair(Param(Name(POP), Encode(codec, JoinIds(ids))))
        + (if title != "" then "&" + Pair(Param(Name(POPLABEL), Encode(codec, title))) else "")
      == Print(filters + PopParams(codec, Some(ids), TitleOf(title)))
  {
    hide Name, Encode, JoinIds, Pair, Print, Rest;
    var q, p, t := Print(filters), Param(Name(POP), Encode(codec, JoinIds(ids))),
      Param(Name(POPLABEL), Encode(codec, title));
    var tail := if title != "" then [t] else [];
    NothingFromNothing(Name(POP));
    assert PopParams(codec, Some(ids), TitleOf(title)) == [p] + tail;
    RestOfOne(p);
    RestOfOne(t);
    var rest := if title != "" then "&" + Pair(t) else "";
    assert Rest(tail) == rest;
    if filters == [] {
      assert filters + ([p] + tail) == [p] + tail;
      PrintAppends([p], tail);
      assert q + "?" + Pair(p) + rest == "?" + Pair(p) + rest;
    } else {
      NotAlone(filters);
      RestAppends([p], tail);
      PrintAppends(filters, [p] + tail);
      Associates(q, "&", Pair(p));
      Associates(q, "&" + Pair(p), rest);
    }
  }

  /** From any canonical URL, investigating two or more ids goes to the URL that syncUrl would write for
      the same filters with that population, although it only deletes and appends text. */
  lemma InvestigateWritesTheView(codec: Codec, v: View, order: seq<nat>, ids: seq<string>, title: string)
    requires PlainAscii(codec) && Canonical(codec, v, order) && |ids| >= 2
    ensures Investigate(codec, UrlOf(codec, v, order), ids, title)
         == Projects(UrlOf(codec, v.(pop := Some(ids), popLabel := TitleOf(title)), order))
  {
    hide PlainAscii, Name, Encode, JoinIds, Print, Unpopulated, Clean, Written, Writable, FilterEntries, PopEntries,
      Pair, AllWritten, PopParams;
    var es, w := FilterEntries(v, order), v.(pop := Some(ids), popLabel := TitleOf(title));
    KeysOf(v, order);
    KeysOf(w, order);
    SameFilters(v, w, order);
    WritableTogether(codec, es, PopEntries(v.pop, v.popLabel));
    AllComeBack(codec, es + PopEntries(v.pop, v.popLabel));
    WrittenAppends(codec, es, PopEntries(v.pop, v.popLabel));
    WrittenAppends(codec, es, PopEntries(w.pop, w.popLabel));
    PopIsWritten(codec, v.pop, v.popLabel);
    PopIsWritten(codec, w.pop, w.popLabel);
    if es == [] {
      NoneWritten(codec, es);
      assert AllWritten(codec, es) + PopParams(codec, v.pop, v.popLabel) == PopParams(codec, v.pop, v.popLabel);
      CutsAlone(codec, v.pop, v.popLabel);
      NothingFromNothing(Name(POP));
    } else {
      CutsAfterFilters(codec, es, v.pop, v.popLabel);
    }
    AppendsAsPrinted(codec, AllWritten(codec, es), ids, title);
  }

  lemma NoneWritten(codec: Codec, es: seq<Entry>)
    requires es == []
    ensures AllKeys(es) && AllWritten(codec, es) == []
  {
  }

  lemma {:induction false} SameDims(v: View, w: View, order: seq<nat>)
    requires v.dims == w.dims && forall i :: 0 <= i < |order| ==> order[i] in v.dims
    ensures DimEntries(v, order) == DimEntries(w, order)
  {
    if order != [] { SameDims(v, w, order[1..]); }
  }

  lemma SameFilters(v: View, w: View, order: seq<nat>)
    requires v.dims == w.dims && v.quick == w.quick && v.driver == w.driver
    requires forall i :: 0 <= i < |order| ==> order[i] in v.dims
    ensures FilterEntries(v, order) == FilterEntries(w, order)
  {
    hide QuickName;
    SameDims(v, w, order);
  }

  /** And the page that opens there shows exactly the projects clicked: the same filters, that
      population, and of all the facts those with its ids. */
  lemma InvestigationIsExact(
      codec: Codec, v: View, order: seq<nat>, facts: seq<Fact>, ids: seq<string>, title: string)
    requires PlainAscii(codec) && Canonical(codec, v, order) && DistinctIds(facts)
    requires |ids| >= 2 && Populated(codec, Some(ids), TitleOf(title))
    requires forall k :: 0 <= k < |ids| ==> HasId(Selected(v, facts), ids[k])
    ensures var there := Investigate(codec, UrlOf(codec, v, order), ids, title);
      && there.Projects?
      && var w := Read(EVERYTHING, Parse(codec, there.query));
         && w == v.(pop := Some(ids), popLabel := TitleOf(title))
         && Selected(w, facts) == WithIds(facts, ids)
  {
    hide PlainAscii, Name, Encode, Print, Writable, FilterEntries, PopEntries, Investigate, UrlOf, Parse, Read,
      Selected, HasId, Populated;
    var w := v.(pop := Some(ids), popLabel := TitleOf(title));
    InvestigateWritesTheView(codec, v, order, ids, title);
    SameFilters(v, w, order);
    UrlComesBack(codec, w, order);
    NarrowingIsExact(v, facts, ids, TitleOf(title));
  }

  lemma {:induction false} IdsAreOfRows(rows: seq<Fact>, from: string, to: string, id: string)
    requires id in Movement.IdsAlong(rows, from, to)
    ensures HasId(rows, id)
    decreases |rows|
  {
    var last := |rows| - 1;
    if id in Movement.IdsAlong(rows[..last], from, to) {
      IdsAreOfRows(rows[..last], from, to, id);
      var i :| 0 <= i < last && rows[..last][i].id == id;
      assert rows[i].id == id;
    } else {
      assert rows[last].id == id;
    }
  }

  /** So clicking a movement row of two or more projects opens exactly the projects that make the move. */
  lemma MovementRowOpensItsProjects(codec: Codec, v: View, order: seq<nat>, facts: seq<Fact>, k: nat, title: string)
    requires PlainAscii(codec) && Canonical(codec, v, order) && DistinctIds(facts)
    requires k < |Movement.Shown(Selected(v, facts))|
    requires var ids := Movement.Shown(Selected(v, facts))[k].ids;
      |ids| >= 2 && Populated(codec, Some(ids), TitleOf(title))
    ensures var m := Movement.Shown(Selected(v, facts))[k];
      var there := Investigate(codec, UrlOf(codec, v, order), m.ids, title);
      && there.Projects?
      && Selected(Read(EVERYTHING, Parse(codec, there.query)), facts)
         == WithIds(facts, Movement.IdsAlong(Selected(v, facts), m.from, m.to))
  {
    hide PlainAscii, Canonical, Populated, Investigate, UrlOf, Parse, Read, Selected, HasId, Movement.Shown;
    var rows := Selected(v, facts);
    var m := Movement.Shown(rows)[k];
    Movement.ShownRowsAreRight(rows);
    assert Movement.RowIsRight(m, rows);
    forall j | 0 <= j < |m.ids| ensures HasId(rows, m.ids[j]) {
      IdsAreOfRows(rows, m.from, m.to, m.ids[j]);
    }
    OrderIsValid(codec, v, order);
    InvestigationIsExact(codec, v, order, facts, m.ids, title);
  }

  lemma OrderIsValid(codec: Codec, v: View, order: seq<nat>)
    requires Canonical(codec, v, order)
    ensures forall i :: 0 <= i < |order| ==> order[i] in v.dims && order[i] < DIMS
  {
  }
}
