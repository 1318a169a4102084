/** Session tokens (server/access.ts) and the header they travel in (server/runtime.ts).

    The keyed hash and the UTF-8 conversions are parameters. */
module Token {
  import opened Bytes
  import opened Text
  import opened Wrappers
  import Base64Url

  datatype Capability = Ask | Full {
    function Name(): string {
      if this == Ask then "ask" else "full"
    }
  }

  datatype Caller = Caller(capability: Capability, persona: string, issuedAtMs: int, expiresAtMs: int, callerId: string)

  datatype Refusal = MISSING | MALFORMED | BAD_SIGNATURE | EXPIRED

  datatype Config = Config(lifetimeMs: int, hmac: string -> Bytes, utf8: string -> Bytes, text: Bytes -> string) {
    function Sign(body: string): string {
      Base64Url.Encode(hmac(body))
    }

    /** `equal`: the same bytes. */
    predicate Equal(a: string, b: string) {
      utf8(a) == utf8(b)
    }
  }

  // ---------------------------------------------------------------------------------------------
  // Numbers and fields
  // ---------------------------------------------------------------------------------------------

  /** `String(n)` */
  function Str(n: int): string {
    if n < 0 then "-" + Decimal(-n) else Decimal(n)
  }

  /** `Number.parseInt(s, 10)`; nothing stands for NaN. */
  function ParseInt(s: string): Option<int> {
    var t := TrimStart(s);
    var negative := t != "" && t[0] == '-';
    var u := if t != "" && (t[0] == '-' || t[0] == '+') then t[1..] else t;
    var n := Span(u, c => IsDigit(c));
    if n == 0 then None else
    Some(if negative then 0 - ParseDecimal(u[..n]) as int else ParseDecimal(u[..n]) as int)
  }

  /** `s.split('.')` */
  function Fields(s: string): (fields: seq<string>)
    ensures |fields| >= 1
  {
    var n := Span(s, c => c != '.');
    if n == |s| then [s] else [s[..n]] + Fields(s[n + 1..])
  }

  function Body(capability: string, encoded: string, issued: string, expires: string, nonce: string): string {
    capability + ("." + (encoded + ("." + (issued + ("." + (expires + ("." + nonce)))))))
  }

  // ---------------------------------------------------------------------------------------------
  // The token
  // ---------------------------------------------------------------------------------------------

  function CallerIdOf(persona: string, nonce: string): string {
    persona + ":" + nonce
  }

  /** `issue`, at a time and with nine random bytes. */
  function Issue(config: Config, persona: string, capability: Capability, now: int, random: Bytes): (string, Caller) {
    var expiresAtMs := now + config.lifetimeMs;
    var nonce := Base64Url.Encode(random);
    var body := Body(capability.Name(), Base64Url.Encode(config.utf8(persona)), Str(now), Str(expiresAtMs), nonce);
    (body + ("." + config.Sign(body)), Caller(capability, persona, now, expiresAtMs, CallerIdOf(persona, nonce)))
  }

  function CapabilityOf(name: string): Option<Capability> {
    if name == "ask" then Some(Ask) else if name == "full" then Some(Full) else None
  }

  function Authenticate(config: Config, token: Option<string>, now: int): Result<Caller, Refusal> {
    if token.None? || token.value == "" then Err(MISSING) else
    var parts := Fields(token.value);
    if |parts| != 6 || CapabilityOf(parts[0]).None? then Err(MALFORMED) else
    var body := Body(parts[0], parts[1], parts[2], parts[3], parts[4]);
    if !config.Equal(parts[5], config.Sign(body)) then Err(BAD_SIGNATURE) else
    var persona := config.text(Base64Url.Decode(parts[1]));
    var issued, expires := ParseInt(parts[2]), ParseInt(parts[3]);
    if issued.None? || expires.None? then Err(MALFORMED)
    else if now >= expires.value then Err(EXPIRED)
    else Ok(Caller(CapabilityOf(parts[0]).value, persona, issued.value, expires.value, CallerIdOf(persona, parts[4])))
  }

  // ---------------------------------------------------------------------------------------------
  // The header
  // ---------------------------------------------------------------------------------------------

  predicate IsTokenChar(c: char) {
    'A' <= c <= 'Z' || 'a' <= c <= 'z' || IsDigit(c) || c == '.' || c == '_' || c == '~' || c == '+' || c == '/'
    || c == '-'
  }

  function Bearer(): string {
    "Bearer"
  }

  /** `/^Bearer\s+([A-Za-z0-9._~+/-]{1,512}=*)$/` on the trimmed header.  No character of the token is
      blank, so the blanks end where the token begins, and none but the padding is `=`. */
  function ReadBearer(header: Option<string>): Option<string> {
    if header.None? then None else
    var s := TrimEnd(TrimStart(header.value));
    if !(Bearer() <= s) then None else
    var rest := s[|Bearer()|..];
    var blanks := Span(rest, c => IsSpace(c));
    var token := rest[blanks..];
    var n := Span(token, c => IsTokenChar(c));
    if blanks == 0 || n == 0 || n > 512 || Span(token[n..], c => c == '=') != |token[n..]| then None else Some(token)
  }

  // ---------------------------------------------------------------------------------------------
  // Fields that hold no dot
  // ---------------------------------------------------------------------------------------------

  predicate NoDot(s: string) {
    forall i :: 0 <= i < |s| ==> s[i] != '.'
  }

  lemma FieldsHead(a: string, rest: string)
    requires NoDot(a)
    ensures Fields(a + ("." + rest)) == [a] + Fields(rest)
  {
    SpanStops(a, "." + rest, c => c != '.');
    var s := a + ("." + rest);
    assert s[..|a|] == a && s[|a| + 1..] == rest;
  }

  lemma FieldsLast(a: string)
    requires NoDot(a)
    ensures Fields(a) == [a]
  {
    SpanStops(a, "", c => c != '.');
    assert a + "" == a;
  }

  lemma SixFields(a: string, b: string, c: string, d: string, e: string, f: string)
    requires NoDot(a) && NoDot(b) && NoDot(c) && NoDot(d) && NoDot(e) && NoDot(f)
    ensures Fields(Body(a, b, c, d, e) + ("." + f)) == [a, b, c, d, e, f]
  {
    hide Fields, NoDot;
    var r5 := e + ("." + f);
    var r4 := d + ("." + r5);
    var r3 := c + ("." + r4);
    var r2 := b + ("." + r3);
    BodyThen(a, b, c, d, e, "." + f);
    FieldsHead(a, r2);
    FieldsHead(b, r3);
    FieldsHead(c, r4);
    FieldsHead(d, r5);
    FieldsHead(e, f);
    FieldsLast(f);
  }

  lemma BodyThen(a: string, b: string, c: string, d: string, e: string, tail: string)
    ensures Body(a, b, c, d, e) + tail == a + ("." + (b + ("." + (c + ("." + (d + ("." + (e + tail))))))))
  {
    var s4 := d + ("." + e);
    var s3 := c + ("." + s4);
    var s2 := b + ("." + s3);
    assert (s4 + tail) == d + ("." + (e + tail));
    assert (s3 + tail) == c + ("." + (s4 + tail));
    assert (s2 + tail) == b + ("." + (s3 + tail));
  }

  lemma {:induction false} DotsJoin(s: string)
    requires |Fields(s)| == 6
    ensures var f := Fields(s); s == Body(f[0], f[1], f[2], f[3], f[4]) + ("." + f[5])
  {
    hide Span;
    var f := Fields(s);
    var s1 := Cut(s);
    var s2 := Cut(s1);
    var s3 := Cut(s2);
    var s4 := Cut(s3);
    var s5 := Cut(s4);
    CutLast(s5);
    BodyThen(f[0], f[1], f[2], f[3], f[4], "." + f[5]);
  }

  lemma Cut(s: string) returns (rest: string)
    requires |Fields(s)| > 1
    ensures s == Fields(s)[0] + ("." + rest) && Fields(rest) == Fields(s)[1..]
  {
    var n := Span(s, c => c != '.');
    rest := s[n + 1..];
    assert s == s[..n] + (['.'] + rest);
  }

  lemma CutLast(s: string)
    requires |Fields(s)| == 1
    ensures s == Fields(s)[0]
  {
  }

  // ---------------------------------------------------------------------------------------------
  // Issued tokens
  // ---------------------------------------------------------------------------------------------

  /** What `Buffer.from(…, 'utf8')` and back promise: text comes back, and no other text has the bytes
      of a text in the base64url alphabet. */
  ghost predicate Faithful(config: Config, persona: string) {
    && config.text(config.utf8(persona)) == persona
    && forall a: string, b: string :: Base64Url.Written(b) && config.utf8(a) == config.utf8(b) ==> a == b
  }

  lemma EncodedIsWritten(b: Bytes)
    ensures Base64Url.Written(Base64Url.Encode(b)) && NoDot(Base64Url.Encode(b)) && AllTokenChars(Base64Url.Encode(b))
  {
    hide Base64Url.Encode;
    Base64Url.DecodeUndoesEncode(b);
  }

  predicate AllTokenChars(s: string) {
    forall i :: 0 <= i < |s| ==> IsTokenChar(s[i])
  }

  lemma StrIsPlain(n: int)
    ensures NoDot(Str(n)) && AllTokenChars(Str(n)) && ParseInt(Str(n)) == Some(n)
  {
    hide Decimal, ParseDecimal;
    var digits := Decimal(if n < 0 then -n else n);
    var s := Str(n);
    assert s[0] == digits[0] || s[0] == '-';
    assert TrimStart(s) == s;
    SpanStops(digits, "", c => IsDigit(c));
    assert digits + "" == digits && digits[..|digits|] == digits;
    DecimalParses(if n < 0 then -n else n);
    if n < 0 { assert s[1..] == digits; }
  }

  lemma NameIsPlain(capability: Capability)
    ensures NoDot(capability.Name()) && AllTokenChars(capability.Name())
      && CapabilityOf(capability.Name()) == Some(capability)
  {
  }

  /** Whatever the persona, an issued token has exactly six fields. */
  lemma IssuedHasSixFields(config: Config, persona: string, capability: Capability, now: int, random: Bytes)
    ensures var (token, caller) := Issue(config, persona, capability, now, random);
      Fields(token) == [capability.Name(), Base64Url.Encode(config.utf8(persona)), Str(now),
        Str(now + config.lifetimeMs), Base64Url.Encode(random),
                        config.Sign(Body(capability.Name(), Base64Url.Encode(config.utf8(persona)), Str(now),
                                         Str(now + config.lifetimeMs), Base64Url.Encode(random)))]
  {
    hide Fields, Body, NoDot, Str, Base64Url.Encode, AllTokenChars;
    NameIsPlain(capability);
    EncodedIsWritten(config.utf8(persona));
    StrIsPlain(now);
    StrIsPlain(now + config.lifetimeMs);
    EncodedIsWritten(random);
    var body := Body(capability.Name(), Base64Url.Encode(config.utf8(persona)), Str(now), Str(now + config.lifetimeMs),
                     Base64Url.Encode(random));
    EncodedIsWritten(config.hmac(body));
    SixFields(capability.Name(), Base64Url.Encode(config.utf8(persona)), Str(now), Str(now + config.lifetimeMs),
              Base64Url.Encode(random), config.Sign(body));
  }

  lemma PlainJoins(a: string, b: string)
    requires AllTokenChars(a) && AllTokenChars(b)
    ensures AllTokenChars(a + ("." + b))
  {
  }

  lemma BodyIsPlain(a: string, b: string, c: string, d: string, e: string)
    requires AllTokenChars(a) && AllTokenChars(b) && AllTokenChars(c) && AllTokenChars(d) && AllTokenChars(e)
    ensures AllTokenChars(Body(a, b, c, d, e))
  {
    hide AllTokenChars;
    PlainJoins(d, e);
    PlainJoins(c, d + ("." + e));
    PlainJoins(b, c + ("." + (d + ("." + e))));
    PlainJoins(a, b + ("." + (c + ("." + (d + ("." + e))))));
  }

  lemma IssuedIsPlain(config: Config, persona: string, capability: Capability, now: int, random: Bytes)
    ensures var (token, caller) := Issue(config, persona, capability, now, random); AllTokenChars(token) && token != ""
  {
    hide Body, AllTokenChars, Str, Base64Url.Encode, NoDot;
    NameIsPlain(capability);
    EncodedIsWritten(config.utf8(persona));
    StrIsPlain(now);
    StrIsPlain(now + config.lifetimeMs);
    EncodedIsWritten(random);
    BodyIsPlain(capability.Name(), Base64Url.Encode(config.utf8(persona)), Str(now), Str(now + config.lifetimeMs),
                Base64Url.Encode(random));
    var body := Body(capability.Name(), Base64Url.Encode(config.utf8(persona)), Str(now), Str(now + config.lifetimeMs),
                     Base64Url.Encode(random));
    EncodedIsWritten(config.hmac(body));
    PlainJoins(body, config.Sign(body));
  }

  /** A header of one space and a plain token gives the token exactly when it is within 512 characters. */
  lemma HeaderReads(token: string)
    requires AllTokenChars(token) && token != ""
    ensures ReadBearer(Some(Bearer() + (" " + token))) == if |token| <= 512 then Some(token) else None
  {
    hide TrimStart, TrimEnd, Span;
    var header := Bearer() + (" " + token);
    NothingTrimmed(header);
    var rest := " " + token;
    assert header[|Bearer()|..] == rest;
    assert IsTokenChar(token[0]) && !IsSpace(token[0]);
    SpanStops(" ", token, c => IsSpace(c));
    assert rest[1..] == token;
    assert token + "" == token;
    SpanStops(token, "", c => IsTokenChar(c));
    assert token[|token|..] == "";
  }

  lemma NothingTrimmed(s: string)
    requires s != "" && !IsSpace(s[0]) && !IsSpace(s[|s| - 1])
    ensures TrimEnd(TrimStart(s)) == s
  {
  }

  /** Sent back as a bearer header of at most 512 characters of token, before it expires, an issued token
      gives the same caller; from then on it is refused as expired, and a longer one is not read. */
  lemma IssuedTokenComesBack(
      config: Config, persona: string, capability: Capability, issued: int, random: Bytes, now: int)
    requires Faithful(config, persona)
    ensures var (token, caller) := Issue(config, persona, capability, issued, random);
      var bearer := ReadBearer(Some(Bearer() + (" " + token)));
      && bearer == (if |token| <= 512 then Some(token) else None)
      && Authenticate(config, Some(token), now) == if now < caller.expiresAtMs then Ok(caller) else Err(EXPIRED)
  {
    hide Fields, Body, Str, Base64Url.Encode, Base64Url.Decode, ParseInt, ReadBearer, NoDot, AllTokenChars,
      Base64Url.Written;
    var (token, caller) := Issue(config, persona, capability, issued, random);
    IssuedIsPlain(config, persona, capability, issued, random);
    HeaderReads(token);
    IssuedHasSixFields(config, persona, capability, issued, random);
    NameIsPlain(capability);
    StrIsPlain(issued);
    StrIsPlain(issued + config.lifetimeMs);
    Base64Url.DecodeUndoesEncode(config.utf8(persona));
  }

  /** Every accepted token is its own five fields, a dot, and the signature of those five; and the caller
      is what those fields say. */
  lemma AcceptedTokenIsSigned(config: Config, token: string, now: int)
    requires Faithful(config, "") && Authenticate(config, Some(token), now).Ok?
    ensures var f := Fields(token);
      && |f| == 6
      && token == Body(f[0], f[1], f[2], f[3], f[4]) + ("." + config.Sign(Body(f[0], f[1], f[2], f[3], f[4])))
      && var caller := Authenticate(config, Some(token), now).value;
         && caller.capability.Name() == f[0] && ParseInt(f[3]) == Some(caller.expiresAtMs) && now < caller.expiresAtMs
  {
    hide Fields, Body, Base64Url.Encode, Base64Url.Decode, ParseInt, NoDot;
    DotsJoin(token);
    var f := Fields(token);
    var body := Body(f[0], f[1], f[2], f[3], f[4]);
    EncodedIsWritten(config.hmac(body));
    assert config.utf8(f[5]) == config.utf8(config.Sign(body));
  }

  /** Two tokens of one signing key with the same five fields are the same token: the signature leaves no
      freedom. */
  lemma AcceptedTokensAreUnique(config: Config, a: string, b: string, now: int)
    requires Faithful(config, "")
    requires Authenticate(config, Some(a), now).Ok? && Authenticate(config, Some(b), now).Ok?
    requires Fields(a)[..|Fields(a)| - 1] == Fields(b)[..|Fields(b)| - 1]
    ensures a == b
  {
    hide Fields, Body, Base64Url.Encode, Authenticate;
    AcceptedTokenIsSigned(config, a, now);
    AcceptedTokenIsSigned(config, b, now);
    var f, g := Fields(a), Fields(b);
    assert f[..5][0] == f[0] && f[..5][1] == f[1] && f[..5][2] == f[2] && f[..5][3] == f[3] && f[..5][4] == f[4];
    assert g[..5][0] == g[0] && g[..5][1] == g[1] && g[..5][2] == g[2] && g[..5][3] == g[3] && g[..5][4] == g[4];
  }

  // ---------------------------------------------------------------------------------------------
  // How every token is judged
  // ---------------------------------------------------------------------------------------------

  /** Six fields, a capability, and the signature of the other five. */
  predicate IsSigned(config: Config, token: string) {
    var f := Fields(token);
    && |f| == 6 && CapabilityOf(f[0]).Some? && f[5] == config.Sign(Body(f[0], f[1], f[2], f[3], f[4]))
  }

  /** Whatever the token: only none at all is missing; one that is not signed is refused for its form or its
      signature, at all times alike, and never as expired; a signed one is accepted exactly while its times
      are numbers and its end is ahead, as the caller its fields name. */
  lemma TokenIsJudged(config: Config, token: string, now: int, later: int)
    requires Faithful(config, "")
    ensures Authenticate(config, None, now) == Err(MISSING)
    ensures Authenticate(config, Some(token), now) == Err(MISSING) <==> token == ""
    ensures token != "" && !IsSigned(config, token) ==>
      var r := Authenticate(config, Some(token), now);
      (r == Err(MALFORMED) || r == Err(BAD_SIGNATURE)) && r == Authenticate(config, Some(token), later)
    ensures token != "" && IsSigned(config, token) ==>
      var f, r := Fields(token), Authenticate(config, Some(token), now);
      var issued, expires := ParseInt(f[2]), ParseInt(f[3]);
      && (r == Err(MALFORMED) <==> issued.None? || expires.None?)
      && (r == Err(EXPIRED) <==> issued.Some? && expires.Some? && now >= expires.value)
      && (r.Ok? <==> issued.Some? && expires.Some? && now < expires.value)
      && (r.Ok? ==> r.value.issuedAtMs == issued.value && r.value.expiresAtMs == expires.value
                    && r.value.capability.Name() == f[0] && r.value.persona == config.text(Base64Url.Decode(f[1]))
                    && r.value.callerId == r.value.persona + ":" + f[4])
  {
    hide Fields, Body, Base64Url.Encode, Base64Url.Decode, ParseInt, NoDot;
    var f := Fields(token);
    if |f| == 6 {
      var body := Body(f[0], f[1], f[2], f[3], f[4]);
      EncodedIsWritten(config.hmac(body));
    }
  }

  predicate NoColon(s: string) {
    forall i :: 0 <= i < |s| ==> s[i] != ':'
  }

  lemma WrittenHasNoColon(b: Bytes)
    ensures NoColon(Base64Url.Encode(b))
  {
    hide Base64Url.Encode;
    EncodedIsWritten(b);
  }

  /** Two sittings with different random bytes, or of different personas, have different caller ids. */
  lemma SittingsDiffer(persona: string, random: Bytes, other: string, others: Bytes)
    ensures CallerIdOf(persona, Base64Url.Encode(random)) == CallerIdOf(other, Base64Url.Encode(others))
      <==> persona == other && random == others
  {
    hide Base64Url.Encode;
    var a, b := Base64Url.Encode(random), Base64Url.Encode(others);
    WrittenHasNoColon(random);
    WrittenHasNoColon(others);
    if CallerIdOf(persona, a) == CallerIdOf(other, b) {
      LastColon(persona, a, other, b);
      Base64Url.DecodeUndoesEncode(random);
      Base64Url.DecodeUndoesEncode(others);
    }
  }

  lemma ColonLast(p: string, a: string)
    requires NoColon(a)
    ensures var s := p + ":" + a; s[|p|] == ':' && forall i :: |p| < i < |s| ==> s[i] != ':'
  {
    var s := p + ":" + a;
    assert forall i :: |p| < i < |s| ==> s[i] == a[i - |p| - 1];
  }

  lemma LastColon(p: string, a: string, q: string, b: string)
    requires NoColon(a) && NoColon(b) && p + ":" + a == q + ":" + b
    ensures p == q && a == b
  {
    var s := p + ":" + a;
    ColonLast(p, a);
    ColonLast(q, b);
    assert |p| == |q|;
    assert s[..|p|] == p && s[..|q|] == q;
    assert s[|p| + 1..] == a && s[|q| + 1..] == b;
  }

  // ---------------------------------------------------------------------------------------------
  // Every header that is read
  // ---------------------------------------------------------------------------------------------

  /** The keyword, blanks, one to 512 characters of a token, and padding. */
  predicate HeaderOf(s: string, blanks: string, plain: string, padding: string) {
    && s == Bearer() + (blanks + (plain + padding))
    && blanks != "" && (forall i :: 0 <= i < |blanks| ==> IsSpace(blanks[i]))
    && 1 <= |plain| <= 512 && AllTokenChars(plain) && (forall i :: 0 <= i < |padding| ==> padding[i] == '=')
  }

  /** A header is read as a token if and only if, trimmed, it is of that form, and the token is what follows
      the blanks, its padding included. */
  lemma HeaderIsReadIff(header: string, token: string)
    ensures ReadBearer(Some(header)) == Some(token) <==>
      exists blanks: string, plain: string, padding: string ::
        HeaderOf(TrimEnd(TrimStart(header)), blanks, plain, padding) && token == plain + padding
  {
    hide TrimStart, TrimEnd, ReadBearer, HeaderOf;
    var s := TrimEnd(TrimStart(header));
    if ReadBearer(Some(header)) == Some(token) {
      var blanks, plain, padding := PartsOf(header, token);
    }
    forall blanks: string, plain: string, padding: string | HeaderOf(s, blanks, plain, padding)
      && token == plain + padding
      ensures ReadBearer(Some(header)) == Some(token)
    {
      HeaderIsRead(header, blanks, plain, padding);
    }
  }

  lemma PartsOf(header: string, token: string) returns (blanks: string, plain: string, padding: string)
    requires ReadBearer(Some(header)) == Some(token)
    ensures HeaderOf(TrimEnd(TrimStart(header)), blanks, plain, padding) && token == plain + padding
  {
    hide TrimStart, TrimEnd, Span;
    var s := TrimEnd(TrimStart(header));
    var rest := s[|Bearer()|..];
    var n := Span(token, c => IsTokenChar(c));
    blanks, plain, padding := rest[..Span(rest, c => IsSpace(c))], token[..n], token[n..];
    assert rest == blanks + token && token == plain + padding;
    assert s == Bearer() + rest;
  }

  lemma HeaderIsRead(header: string, blanks: string, plain: string, padding: string)
    requires HeaderOf(TrimEnd(TrimStart(header)), blanks, plain, padding)
    ensures ReadBearer(Some(header)) == Some(plain + padding)
  {
    hide TrimStart, TrimEnd, Span;
    HeaderIsSplit(TrimEnd(TrimStart(header)), blanks, plain, padding);
  }

  lemma HeaderIsSplit(s: string, blanks: string, plain: string, padding: string)
    requires HeaderOf(s, blanks, plain, padding)
    ensures Bearer() <= s && s[|Bearer()|..] == blanks + (plain + padding)
    ensures Span(blanks + (plain + padding), c => IsSpace(c)) == |blanks|
    ensures (blanks + (plain + padding))[|blanks|..] == plain + padding
    ensures Span(plain + padding, c => IsTokenChar(c)) == |plain|
    ensures (plain + padding)[|plain|..] == padding && Span(padding, c => c == '=') == |padding|
  {
    assert (plain + padding)[0] == plain[0] && IsTokenChar(plain[0]) && !IsSpace(plain[0]);
    SpanStops(blanks, plain + padding, c => IsSpace(c));
    SpanStops(plain, padding, c => IsTokenChar(c));
    assert padding + "" == padding;
    SpanStops(padding, "", c => c == '=');
  }
}
