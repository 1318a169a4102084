/** Searching a text for another (`indexOf`), and texts in which it cannot start. */
module Search {
  import opened Wrappers

  /** `s.indexOf(t)` */
  function IndexOf(s: string, t: string): (k: Option<nat>)
    ensures k.Some? ==> k.value + |t| <= |s|
  {
    if t <= s then Some(0)
    else if s == "" then None
    else match IndexOf(s[1..], t) case None => None case Some(k) => Some(k + 1)
  }

  /** From here on the text is something else, and that shows within it. */
  predicate Differs(s: string, k: nat, t: string) {
    (k < |s| && |t| > 0 && s[k] != t[0]) || (k + 1 < |s| && |t| > 1 && s[k + 1] != t[1])
    || (k + 2 < |s| && |t| > 2 && s[k + 2] != t[2]) || (k + 3 < |s| && |t| > 3 && s[k + 3] != t[3])
  }

  /** Nothing in the text starts like another, wherever the text is put. */
  predicate Quiet(s: string, t: string) {
    forall k :: 0 <= k < |s| ==> Differs(s, k, t)
  }

  lemma QuietJoins(a: string, b: string, t: string)
    requires Quiet(a, t) && Quiet(b, t)
    ensures Quiet(a + b, t)
  {
    forall k | 0 <= k < |a + b| ensures Differs(a + b, k, t) {
      if k < |a| {
        assert Differs(a, k, t);
      } else {
        assert Differs(b, k - |a|, t);
      }
    }
  }

  lemma NotHere(s: string, rest: string, t: string)
    requires s != "" && Differs(s, 0, t)
    ensures !(t <= s + rest)
  {
  }

  lemma QuietTail(s: string, t: string)
    requires s != "" && Quiet(s, t)
    ensures Quiet(s[1..], t) && Differs(s, 0, t)
  {
    forall k | 0 <= k < |s[1..]| ensures Differs(s[1..], k, t) {
      assert Differs(s, k + 1, t);
    }
  }

  lemma {:induction false} IndexAfterQuiet(s: string, t: string, rest: string)
    requires Quiet(s, t)
    ensures IndexOf(s + (t + rest), t) == Some(|s|)
    decreases |s|
  {
    hide Differs, Quiet;
    if s == "" {
      assert s + (t + rest) == t + rest;
    } else {
      QuietTail(s, t);
      NotHere(s, t + rest, t);
      assert (s + (t + rest))[1..] == s[1..] + (t + rest);
      IndexAfterQuiet(s[1..], t, rest);
    }
  }

  /** Text without the first character of another. */
  lemma NoStartIsQuiet(s: string, t: string)
    requires t != "" && forall i :: 0 <= i < |s| ==> s[i] != t[0]
    ensures Quiet(s, t)
  {
    forall k | 0 <= k < |s| ensures Differs(s, k, t) {
      assert s[k] != t[0];
    }
  }

  /** What follows the first place of a key. */
  function After(s: string, key: string): Option<string> {
    match IndexOf(s, key) case None => None case Some(k) => Some(s[k + |key|..])
  }

  lemma {:induction false} IndexSkips(s: string, rest: string, t: string)
    requires Quiet(s, t)
    ensures IndexOf(s + rest, t) ==
      match IndexOf(rest, t) case None => None case Some(k) => Some(|s| + k)
    decreases |s|
  {
    hide Differs, Quiet;
    if s == "" {
      assert s + rest == rest;
    } else {
      QuietTail(s, t);
      NotHere(s, rest, t);
      assert (s + rest)[1..] == s[1..] + rest;
      IndexSkips(s[1..], rest, t);
    }
  }

  /** Text in which a key does not start is passed over. */
  lemma AfterSkips(s: string, rest: string, key: string)
    requires Quiet(s, key)
    ensures After(s + rest, key) == After(rest, key)
  {
    hide IndexOf, Quiet;
    IndexSkips(s, rest, key);
    if IndexOf(rest, key).Some? {
      var k := IndexOf(rest, key).value;
      assert (s + rest)[|s| + k + |key|..] == rest[k + |key|..];
    }
  }

  lemma AfterHere(key: string, rest: string)
    ensures After(key + rest, key) == Some(rest)
  {
    assert key <= key + rest;
    assert (key + rest)[|key|..] == rest;
  }

  /** A text that begins with its only slash, and goes on as no key does. */
  lemma SlashIsQuiet(s: string, key: string)
    requires s != "" && s[0] == '/' && (forall i :: 1 <= i < |s| ==> s[i] != '/') && key != "" && key[0] == '/'
    requires Differs(s, 0, key)
    ensures Quiet(s, key)
  {
    forall k | 0 <= k < |s|
      ensures Differs(s, k, key)
    {
      if k > 0 { assert s[k] != key[0]; }
    }
  }
}
