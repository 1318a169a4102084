/** The two fixed-window limiters (server/access.ts, src/app/api/rate-limit.ts) and the one
    specification both meet.  Instants are milliseconds; the clock is a parameter of each call. */
module RateLimit {
  import opened Wrappers

  datatype Policy = Policy(windowMs: int, max: int)

  datatype Window = Window(start: int, count: nat)

  type Windows = map<string, Window>

  datatype Call = Call(key: string, policy: Policy, now: int)

  datatype Verdict = Admitted | Refused(retryAfterMs: int)

  // ---------------------------------------------------------------------------------------------
  // One specification
  // ---------------------------------------------------------------------------------------------

  predicate Expired(w: Windows, c: Call) {
    c.key !in w || c.now - w[c.key].start >= c.policy.windowMs
  }

  function Decide(w: Windows, c: Call): Verdict {
    if Expired(w, c) || w[c.key].count < c.policy.max then Admitted
    else Refused(c.policy.windowMs - (c.now - w[c.key].start))
  }

  function Next(w: Windows, c: Call): Windows {
    if Expired(w, c) then w[c.key := Window(c.now, 1)]
    else if w[c.key].count < c.policy.max then w[c.key := Window(w[c.key].start, w[c.key].count + 1)]
    else w
  }

  /** The windows after the first `n` calls. */
  function After(w: Windows, calls: seq<Call>, n: nat): Windows
    requires n <= |calls|
  {
    if n == 0 then w else Next(After(w, calls, n - 1), calls[n - 1])
  }

  function VerdictAt(w: Windows, calls: seq<Call>, i: nat): Verdict
    requires i < |calls|
  {
    Decide(After(w, calls, i), calls[i])
  }

  /** How many of the first `n` calls were admitted for `key` at a time in the closed interval. */
  function AdmittedIn(w: Windows, calls: seq<Call>, n: nat, key: string, from: int, to: int): nat
    requires n <= |calls|
  {
    if n == 0 then 0 else
    AdmittedIn(w, calls, n - 1, key, from, to)
    + if calls[n - 1].key == key && from <= calls[n - 1].now <= to && VerdictAt(w, calls, n - 1).Admitted? then 1 else 0
  }

  // ---------------------------------------------------------------------------------------------
  // The two limiters
  // ---------------------------------------------------------------------------------------------

  class CallerRateLimit {
    var hits: Windows
    const policy: Policy

    constructor (windowMs: int, max: int)
      ensures hits == map[] && policy == Policy(windowMs, max)
    {
      hits := map[];
      policy := Policy(windowMs, max);
    }

    method Allow(callerId: string, bucket: string, now: int) returns (allowed: bool)
      modifies this`hits
      ensures var call := Call(CallerKey(callerId, bucket), policy, now);
        && allowed == Decide(old(hits), call).Admitted?
        && hits == Next(old(hits), call)
    {
      var key := CallerKey(callerId, bucket);
      if key !in hits || now - hits[key].start >= policy.windowMs {
        hits := hits[key := Window(now, 1)];
        return true;
      }
      if hits[key].count >= policy.max {
        return false;
      }
      hits := hits[key := hits[key].(count := hits[key].count + 1)];
      return true;
    }
  }

  /** `RateLimitExceeded` */
  datatype Exceeded = Exceeded(retryAfterMs: int)

  class FixedWindowRateLimiter {
    var windows: Windows
    const policies: string -> Policy

    constructor (policies: string -> Policy)
      ensures windows == map[] && this.policies == policies
    {
      windows := map[];
      this.policies := policies;
    }

    method Check(actorId: string, bucket: string, now: int) returns (outcome: Outcome<Exceeded>)
      modifies this`windows
      ensures var call := Call(ActorKey(actorId, bucket), policies(bucket), now);
        && windows == Next(old(windows), call)
        && outcome == match Decide(old(windows), call)
                      case Admitted => Pass
                      case Refused(retryAfterMs) => Fail(Exceeded(retryAfterMs))
    {
      var policy := policies(bucket);
      var key := ActorKey(actorId, bucket);
      var elapsed := if key in windows then Some(now - windows[key].start) else None;
      if elapsed.None? || elapsed.value >= policy.windowMs {
        windows := windows[key := Window(now, 1)];
        return Pass;
      }
      if windows[key].count >= policy.max {
        return Fail(Exceeded(policy.windowMs - elapsed.value));
      }
      windows := windows[key := windows[key].(count := windows[key].count + 1)];
      return Pass;
    }
  }

  // ---------------------------------------------------------------------------------------------
  // Keys
  // ---------------------------------------------------------------------------------------------

  function CallerKey(callerId: string, bucket: string): string {
    bucket + ":" + callerId
  }

  function ActorKey(actorId: string, bucket: string): string {
    actorId + ":" + bucket
  }

  lemma SplitAtFirst(a: string, b: string, c: string, d: string)
    requires ':' !in a && ':' !in c
    requires a + ":" + b == c + ":" + d
    ensures a == c && b == d
  {
    var s := a + ":" + b;
    assert s[|a|] == ':' && s[|c|] == ':';
    assert forall i :: 0 <= i < |a| ==> s[i] == a[i] != ':';
    assert forall i :: 0 <= i < |c| ==> s[i] == c[i] != ':';
    assert |a| == |c|;
    assert s[..|a|] == a && s[..|c|] == c;
    assert s[|a| + 1..] == b && s[|c| + 1..] == d;
  }

  lemma SplitAtLast(a: string, b: string, c: string, d: string)
    requires ':' !in b && ':' !in d
    requires a + ":" + b == c + ":" + d
    ensures a == c && b == d
  {
    var s := a + ":" + b;
    assert s[|a|] == ':' && s[|c|] == ':';
    assert forall i :: |a| < i < |s| ==> s[i] == b[i - |a| - 1] != ':';
    assert forall i :: |c| < i < |s| ==> s[i] == d[i - |c| - 1] != ':';
    assert |a| == |c|;
    assert s[..|a|] == a && s[..|c|] == c;
    assert s[|a| + 1..] == b && s[|c| + 1..] == d;
  }

  /** Buckets hold no colon; callers and actors may.  Two callers, or one caller in two buckets, never
      share a window, in either limiter. */
  lemma KeysAreDistinct(caller1: string, bucket1: string, caller2: string, bucket2: string)
    requires ':' !in bucket1 && ':' !in bucket2
    ensures CallerKey(caller1, bucket1) == CallerKey(caller2, bucket2) <==> caller1 == caller2 && bucket1 == bucket2
    ensures ActorKey(caller1, bucket1) == ActorKey(caller2, bucket2) <==> caller1 == caller2 && bucket1 == bucket2
  {
    if CallerKey(caller1, bucket1) == CallerKey(caller2, bucket2) {
      SplitAtFirst(bucket1, caller1, bucket2, caller2);
    }
    if ActorKey(caller1, bucket1) == ActorKey(caller2, bucket2) {
      SplitAtLast(caller1, bucket1, caller2, bucket2);
    }
  }

  // ---------------------------------------------------------------------------------------------
  // Keys do not interfere
  // ---------------------------------------------------------------------------------------------

  function ForKey(calls: seq<Call>, n: nat, key: string): (mine: seq<Call>)
    requires n <= |calls|
    ensures |mine| <= n
  {
    if n == 0 then []
    else ForKey(calls, n - 1, key) + if calls[n - 1].key == key then [calls[n - 1]] else []
  }

  predicate SameFor(v: Windows, w: Windows, key: string) {
    (key in v <==> key in w) && (key in v ==> v[key] == w[key])
  }

  lemma {:induction false} AfterExtends(w: Windows, calls: seq<Call>, more: seq<Call>, n: nat)
    requires n <= |calls|
    ensures After(w, calls + more, n) == After(w, calls, n)
  {
    if n > 0 { AfterExtends(w, calls, more, n - 1); }
  }

  lemma {:induction false} CountExtends(w: Windows, calls: seq<Call>, more: seq<Call>, n: nat, key: string, from: int,
      to: int)
    requires n <= |calls|
    ensures AdmittedIn(w, calls + more, n, key, from, to) == AdmittedIn(w, calls, n, key, from, to)
  {
    if n > 0 {
      CountExtends(w, calls, more, n - 1, key, from, to);
      AfterExtends(w, calls, more, n - 1);
    }
  }

  lemma SameAsItself(w: Windows, key: string)
    ensures SameFor(w, w, key)
  {
  }

  lemma SameStep(v: Windows, w: Windows, c: Call)
    requires SameFor(v, w, c.key)
    ensures Decide(v, c) == Decide(w, c) && SameFor(Next(v, c), Next(w, c), c.key)
  {
  }

  lemma OtherStep(v: Windows, w: Windows, c: Call, key: string)
    requires SameFor(v, w, key) && c.key != key
    ensures SameFor(Next(v, c), w, key)
  {
  }

  /** The calls for other keys could be taken out of any run without changing what happens to one key:
      its window, and how many of its calls are admitted in any interval. */
  lemma {:induction false} OthersDoNotMatter(w: Windows, calls: seq<Call>, n: nat, key: string, from: int, to: int)
    requires n <= |calls|
    ensures var mine := ForKey(calls, n, key);
      && SameFor(After(w, calls, n), After(w, mine, |mine|), key)
      && AdmittedIn(w, calls, n, key, from, to) == AdmittedIn(w, mine, |mine|, key, from, to)
  {
    hide Decide, Next, SameFor;
    if n == 0 {
      SameAsItself(w, key);
    } else {
      OthersDoNotMatter(w, calls, n - 1, key, from, to);
      var before, last := ForKey(calls, n - 1, key), calls[n - 1];
      var v, u := After(w, calls, n - 1), After(w, before, |before|);
      if last.key == key {
        AfterExtends(w, before, [last], |before|);
        CountExtends(w, before, [last], |before|, key, from, to);
        SameStep(v, u, last);
      } else {
        OtherStep(v, u, last, key);
        assert ForKey(calls, n, key) == before;
      }
    }
  }

  // ---------------------------------------------------------------------------------------------
  // The bound over whole runs
  // ---------------------------------------------------------------------------------------------

  predicate ClockNeverFalls(calls: seq<Call>) {
    forall i, j :: 0 <= i < j < |calls| ==> calls[i].now <= calls[j].now
  }

  predicate OnePolicy(calls: seq<Call>, key: string, policy: Policy) {
    forall i :: 0 <= i < |calls| && calls[i].key == key ==> calls[i].policy == policy
  }

  /** A first call is always admitted, so a limit below one acts as one. */
  function Limit(policy: Policy): int {
    if policy.max < 1 then 1 else policy.max
  }

  /** What holds of one key's window after `n` calls, and of the calls admitted since `from`. */
  lemma {:induction false} WindowInvariant(calls: seq<Call>, n: nat, key: string, policy: Policy, from: int)
    requires n <= |calls| && ClockNeverFalls(calls) && OnePolicy(calls, key, policy) && policy.windowMs > 0
    ensures var w := After(map[], calls, n);
      var admitted := AdmittedIn(map[], calls, n, key, from, from + policy.windowMs);
      if key !in w then admitted == 0 else
      && n > 0 && w[key].start <= calls[n - 1].now && w[key].count <= Limit(policy)
      && (w[key].start <= from ==>
            admitted <= w[key].count && (admitted > 0 ==> from < w[key].start + policy.windowMs))
      && (from < w[key].start <= from + policy.windowMs ==> admitted <= Limit(policy) + w[key].count)
      && admitted <= 2 * Limit(policy)
  {
    if n > 0 {
      WindowInvariant(calls, n - 1, key, policy, from);
      assert n > 1 ==> calls[n - 2].now <= calls[n - 1].now;
    }
  }

  /** In every run, every closed interval of one window's length admits at most twice the limit. */
  lemma AtMostTwiceTheLimit(calls: seq<Call>, key: string, policy: Policy, from: int)
    requires ClockNeverFalls(calls) && OnePolicy(calls, key, policy) && policy.windowMs > 0
    ensures AdmittedIn(map[], calls, |calls|, key, from, from + policy.windowMs) <= 2 * Limit(policy)
  {
    WindowInvariant(calls, |calls|, key, policy, from);
  }

  /** Calls at one instant. */
  function Burst(key: string, policy: Policy, now: int, n: nat): seq<Call> {
    seq(n, _ => Call(key, policy, now))
  }

  lemma {:induction false} BurstAdmitted(
      w: Windows, before: seq<Call>, key: string, policy: Policy, now: int, n: nat, total: nat, from: int, to: int)
    requires n <= total <= policy.max && policy.windowMs > 0 && from <= now <= to
    requires Expired(After(w, before, |before|), Call(key, policy, now))
    ensures var calls := before + Burst(key, policy, now, total);
      && AdmittedIn(w, calls, |before| + n, key, from, to) == AdmittedIn(w, before, |before|, key, from, to) + n
      && (n > 0 ==> key in After(w, calls, |before| + n) && After(w, calls, |before| + n)[key] == Window(now, n))
    decreases n
  {
    var calls := before + Burst(key, policy, now, total);
    if n == 0 {
      CountExtends(w, before, Burst(key, policy, now, total), |before|, key, from, to);
    } else {
      BurstAdmitted(w, before, key, policy, now, n - 1, total, from, to);
      AfterExtends(w, before, Burst(key, policy, now, total), |before|);
      assert calls[|before| + n - 1] == Call(key, policy, now);
    }
  }

  lemma BurstLength(key: string, policy: Policy, now: int, n: nat)
    ensures |Burst(key, policy, now, n)| == n
  {
  }

  lemma NoCalls(w: Windows, key: string, from: int, to: int)
    ensures After(w, [], 0) == w && AdmittedIn(w, [], 0, key, from, to) == 0
  {
  }

  lemma FirstBurst(w: Windows, key: string, policy: Policy, now: int, to: int)
    requires w == map[] && policy.max >= 1 && policy.windowMs > 0 && now <= to
    ensures var calls := Burst(key, policy, now, policy.max);
      && AdmittedIn(w, calls, |calls|, key, now, to) == policy.max
      && key in After(w, calls, |calls|) && After(w, calls, |calls|)[key].start == now
  {
    hide Next, Decide, Burst, After, AdmittedIn;
    var calls := Burst(key, policy, now, policy.max);
    assert |calls| == policy.max by { BurstLength(key, policy, now, policy.max); }
    assert [] + calls == calls;
    NoCalls(w, key, now, to);
    BurstAdmitted(w, [], key, policy, now, policy.max, policy.max, now, to);
  }

  lemma TwoBursts(key: string, policy: Policy, first: int, second: int, n: nat)
    requires first <= second
    ensures var calls := Burst(key, policy, first, n) + Burst(key, policy, second, n);
      ClockNeverFalls(calls) && OnePolicy(calls, key, policy)
  {
  }

  /** The bound is reached: the limit spent in one window and again as the next one opens. */
  lemma TwiceTheLimitHappens(w: Windows, key: string, policy: Policy, from: int)
    requires w == map[] && policy.max >= 1 && policy.windowMs > 0
    ensures var calls := Burst(key, policy, from, policy.max) + Burst(key, policy, from + policy.windowMs, policy.max);
      && ClockNeverFalls(calls) && OnePolicy(calls, key, policy)
      && AdmittedIn(w, calls, |calls|, key, from, from + policy.windowMs) == 2 * policy.max
  {
    hide AdmittedIn, After, ClockNeverFalls, OnePolicy;
    var first, to := Burst(key, policy, from, policy.max), from + policy.windowMs;
    FirstBurst(w, key, policy, from, to);
    BurstAdmitted(w, first, key, policy, to, policy.max, policy.max, from, to);
    TwoBursts(key, policy, from, to, policy.max);
  }

  // ---------------------------------------------------------------------------------------------
  // Waiting as long as one was told to
  // ---------------------------------------------------------------------------------------------

  /** After a refusal with `retryAfterMs`, every call for that key before that time has passed is
      refused too, whatever the other callers do, and leaves the window as it was; the first call once
      it has passed is admitted. */
  lemma {:induction false} RetryAfterIsExact(w: Windows, refused: Call, between: seq<Call>, n: nat)
    requires n <= |between| && Decide(w, refused).Refused?
    requires OnePolicy(between, refused.key, refused.policy)
    requires forall i :: 0 <= i < |between| ==> between[i].now < refused.now + Decide(w, refused).retryAfterMs
    ensures SameFor(After(w, between, n), w, refused.key)
    ensures forall i :: 0 <= i < n && between[i].key == refused.key ==> VerdictAt(w, between, i).Refused?
    ensures forall now :: now >= refused.now + Decide(w, refused).retryAfterMs ==>
      Decide(After(w, between, n), refused.(now := now)) == Admitted
    ensures Decide(w, refused).retryAfterMs > 0
  {
    if n > 0 { RetryAfterIsExact(w, refused, between, n - 1); }
  }
}
