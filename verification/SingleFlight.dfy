/** The lazily built registry of server/main.ts and the requests that share it.

    A step is what runs between two awaits: one request's or the build's.  Steps interleave in any
    order, and the build may fail wherever the code can throw. */
module SingleFlight {
  import opened Wrappers

  /** Registries are named by how many were built before them. */
  type Registry = nat

  /** The promise `knowledgeBuild`, and how far the work behind it has come. */
  datatype Build = NotStarted | Preparing | Attaching(registry: Registry) | Hydrating(registry: Registry)
    | Resolved(registry: Registry) | Rejected

  datatype Durability = Initial | Known(durable: bool)

  datatype Request = Waiting(ingest: bool) | Holding(registry: Registry, ingest: bool) | Failed
    | Answered(registry: Registry, accepted: bool)

  datatype State = State(
    knowledge: Option<Registry>, build: Build, durability: Durability, built: nat, requests: map<nat, Request>)

  const START := State(None, NotStarted, Initial, 0, map[])

  datatype Event =
    | Arrive(id: nat, ingest: bool)
    | PrepareFails | RegistryMade(stores: bool)
    | AttachFails | Attached
    | Hydrated(ok: bool)
    | Resume(id: nat)
    | ReadFlag(id: nat)

  // ---------------------------------------------------------------------------------------------
  // The steps
  // ---------------------------------------------------------------------------------------------

  /** `knowledgeRegistry()`, up to its await. */
  function Arrived(s: State, id: nat, ingest: bool): State {
    if s.knowledge.Some? then s.(requests := s.requests[id := Holding(s.knowledge.value, ingest)])
    else s.(build := if s.build.NotStarted? then Preparing else s.build, requests := s.requests[id := Waiting(ingest)])
  }

  /** A settled promise wakes a request that waits on it. */
  function Resumed(s: State, id: nat): State {
    if id !in s.requests || !s.requests[id].Waiting? then s
    else if s.build.Resolved? then s.(requests := s.requests[id := Holding(s.build.registry, s.requests[id].ingest)])
    else if s.build.Rejected? then s.(requests := s.requests[id := Failed])
    else s
  }

  /** `refuseWhenNotDurable`, after its await. */
  function FlagRead(s: State, id: nat): State {
    if id in s.requests && s.requests[id].Holding? && s.requests[id].ingest
    then s.(requests := s.requests[id := Answered(s.requests[id].registry, s.durability == Known(true))])
    else s
  }

  /** A step that is not possible in a state leaves it as it is. */
  function Next(s: State, e: Event): State {
    match e
    case Arrive(id, ingest) => if id in s.requests then s else Arrived(s, id, ingest)
    case PrepareFails => if s.build.Preparing? then s.(build := Rejected) else s
    case RegistryMade(stores) =>
      if !s.build.Preparing? then s
      else if stores then s.(build := Attaching(s.built), built := s.built + 1)
      else State(Some(s.built), Resolved(s.built), Known(false), s.built + 1, s.requests)
    case AttachFails => if s.build.Attaching? then s.(build := Rejected) else s
    case Attached => if s.build.Attaching? then s.(build := Hydrating(s.build.registry)) else s
    case Hydrated(ok) =>
      if s.build.Hydrating?
      then s.(knowledge := Some(s.build.registry), build := Resolved(s.build.registry), durability := Known(ok))
      else s
    case Resume(id) => Resumed(s, id)
    case ReadFlag(id) => FlagRead(s, id)
  }

  function Run(events: seq<Event>, n: nat): State
    requires n <= |events|
  {
    if n == 0 then START else Next(Run(events, n - 1), events[n - 1])
  }

  // ---------------------------------------------------------------------------------------------
  // What every interleaving keeps
  // ---------------------------------------------------------------------------------------------

  predicate RequestAgrees(s: State, r: Request) {
    match r
    case Waiting(_) => !s.build.NotStarted?
    case Holding(registry, _) => s.build == Resolved(registry)
    case Failed => s.build.Rejected?
    case Answered(registry, accepted) => s.build == Resolved(registry) && s.durability == Known(accepted)
  }

  predicate Invariant(s: State) {
    && s.built <= 1
    && (s.build.NotStarted? || s.build.Preparing? ==> s.built == 0)
    && (s.build.Attaching? || s.build.Hydrating? || s.build.Resolved? ==> s.build.registry == 0 && s.built == 1)
    && s.knowledge == (if s.build.Resolved? then Some(s.build.registry) else None)
    && (s.durability.Known? <==> s.build.Resolved?)
    && forall id :: id in s.requests ==> RequestAgrees(s, s.requests[id])
  }

  lemma StepKeepsInvariant(s: State, e: Event)
    requires Invariant(s)
    ensures Invariant(Next(s, e))
  {
  }

  predicate HasRegistry(s: State, id: nat) {
    id in s.requests && (s.requests[id].Holding? || s.requests[id].Answered?)
  }

  function RegistryOf(s: State, id: nat): Registry
    requires HasRegistry(s, id)
  {
    s.requests[id].registry
  }

  /** The module's variables, and the statements between its awaits.  Every step keeps the invariant, so at
      most one registry is built and every request that holds one holds that one. */
  class Server {
    var knowledge: Option<Registry>
    var knowledgeBuild: Build
    var durability: Durability
    var built: nat
    var requests: map<nat, Request>

    function Value(): State
      reads this
    {
      State(knowledge, knowledgeBuild, durability, built, requests)
    }

    constructor ()
      ensures Value() == START && Invariant(Value())
    {
      knowledge, knowledgeBuild, durability, built, requests := None, NotStarted, Initial, 0, map[];
    }

    method KnowledgeRegistry(id: nat, ingest: bool)
      requires Invariant(Value()) && id !in requests
      modifies this
      ensures Value() == Next(old(Value()), Arrive(id, ingest)) && Invariant(Value())
    {
      StepKeepsInvariant(Value(), Arrive(id, ingest));
      if knowledge.Some? {
        requests := requests[id := Holding(knowledge.value, ingest)];
        return;
      }
      if knowledgeBuild.NotStarted? { knowledgeBuild := Preparing; }
      requests := requests[id := Waiting(ingest)];
    }

    method MakeRegistry(stores: bool)
      requires Invariant(Value()) && knowledgeBuild.Preparing?
      modifies this
      ensures Value() == Next(old(Value()), RegistryMade(stores)) && Invariant(Value())
      ensures old(built) == 0 && built == 1
      ensures !stores ==> durability == Known(false) && knowledgeBuild == Resolved(0)
      ensures stores ==> durability == Initial && knowledgeBuild == Attaching(0)
    {
      StepKeepsInvariant(Value(), RegistryMade(stores));
      var registry := built;
      built := built + 1;
      if stores {
        knowledgeBuild := Attaching(registry);
      } else {
        durability := Known(false);
        knowledge := Some(registry);
        knowledgeBuild := Resolved(registry);
      }
    }

    /** After `hydrate`, which a try block guards: a failure closes ingestion and nothing else. */
    method Hydrate(ok: bool)
      requires Invariant(Value()) && knowledgeBuild.Hydrating?
      modifies this
      ensures Value() == Next(old(Value()), Hydrated(ok)) && Invariant(Value())
      ensures durability == Known(ok) && knowledgeBuild == Resolved(0)
    {
      StepKeepsInvariant(Value(), Hydrated(ok));
      durability := Known(ok);
      knowledge := Some(knowledgeBuild.registry);
      knowledgeBuild := Resolved(knowledgeBuild.registry);
    }

    /** The await resolves: the request holds the registry that every other one holds, or fails with all. */
    method Wake(id: nat)
      requires Invariant(Value()) && id in requests && requests[id].Waiting?
      requires knowledgeBuild.Resolved? || knowledgeBuild.Rejected?
      modifies this
      ensures Value() == Next(old(Value()), Resume(id)) && Invariant(Value())
      ensures forall other :: HasRegistry(Value(), id) && HasRegistry(Value(), other) ==>
        RegistryOf(Value(), id) == RegistryOf(Value(), other)
    {
      StepKeepsInvariant(Value(), Resume(id));
      if knowledgeBuild.Resolved? {
        requests := requests[id := Holding(knowledgeBuild.registry, requests[id].ingest)];
      } else {
        requests := requests[id := Failed];
      }
    }

    /** The answer never comes from the initial value of the flag. */
    method RefuseWhenNotDurable(id: nat) returns (refused: bool)
      requires Invariant(Value()) && id in requests && requests[id].Holding? && requests[id].ingest
      modifies this
      ensures Value() == Next(old(Value()), ReadFlag(id)) && Invariant(Value())
      ensures old(durability).Known? && (refused <==> !old(durability).durable)
    {
      StepKeepsInvariant(Value(), ReadFlag(id));
      refused := durability != Known(true);
      requests := requests[id := Answered(requests[id].registry, !refused)];
    }
  }

  lemma {:induction false} EveryRunKeepsInvariant(events: seq<Event>, n: nat)
    requires n <= |events|
    ensures Invariant(Run(events, n))
  {
    hide Next, Invariant;
    if n == 0 {
      StartHolds();
    } else {
      EveryRunKeepsInvariant(events, n - 1);
      StepKeepsInvariant(Run(events, n - 1), events[n - 1]);
    }
  }

  lemma StartHolds()
    ensures Invariant(START)
  {
  }

  /** Over every interleaving at most one registry is built, and whoever holds one, whenever, holds
      the same. */
  lemma OneRegistryForAll(events: seq<Event>, m: nat, n: nat, a: nat, b: nat)
    requires m <= |events| && n <= |events|
    ensures Run(events, n).built <= 1
    ensures HasRegistry(Run(events, m), a) && HasRegistry(Run(events, n), b) ==>
        RegistryOf(Run(events, m), a) == RegistryOf(Run(events, n), b)
  {
    hide Run, Next;
    EveryRunKeepsInvariant(events, m);
    EveryRunKeepsInvariant(events, n);
  }

  /** No request reads the flag before the build has settled it: the initial value is never the reason of
      a refusal. */
  lemma FlagIsReadSettled(events: seq<Event>, n: nat, id: nat)
    requires n < |events| && events[n] == ReadFlag(id) && Run(events, n + 1) != Run(events, n)
    ensures var s := Run(events, n);
      && s.build.Resolved? && s.durability.Known?
      && id in Run(events, n + 1).requests
      && Run(events, n + 1).requests[id] == Answered(s.build.registry, s.durability.durable)
  {
    EveryRunKeepsInvariant(events, n);
    hide Run, Invariant;
    FlagStep(Run(events, n), id);
    RunSteps(events, n);
  }

  lemma RunSteps(events: seq<Event>, n: nat)
    requires n < |events|
    ensures Run(events, n + 1) == Next(Run(events, n), events[n])
  {
  }

  lemma FlagStep(s: State, id: nat)
    requires Invariant(s) && Next(s, ReadFlag(id)) != s
    ensures s.build.Resolved? && s.durability.Known? && id in s.requests
    ensures Next(s, ReadFlag(id)).requests[id] == Answered(s.build.registry, s.durability.durable)
  {
  }

  /** A settled promise stays as it settled. */
  lemma SettledStays(s: State, e: Event)
    requires Invariant(s) && (s.build.Resolved? || s.build.Rejected?)
    ensures Next(s, e).build == s.build && Next(s, e).durability == s.durability && Next(s, e).knowledge == s.knowledge
  {
  }

  lemma {:induction false} SettledForever(events: seq<Event>, m: nat, n: nat)
    requires m <= n <= |events| && (Run(events, m).build.Resolved? || Run(events, m).build.Rejected?)
    ensures Run(events, n).build == Run(events, m).build && Run(events, n).durability == Run(events, m).durability
    decreases n - m
  {
    if m < n {
      SettledForever(events, m, n - 1);
      EveryRunKeepsInvariant(events, n - 1);
      SettledStays(Run(events, n - 1), events[n - 1]);
    }
  }

  /** A build that fails is never tried again: the rejected promise stays, no request gets a registry from
      any step before or after, and each that waits can only fail. */
  lemma FailureIsForever(events: seq<Event>, m: nat, n: nat, id: nat)
    requires m <= n <= |events| && Run(events, m).build.Rejected?
    ensures !HasRegistry(Run(events, n), id)
    ensures id in Run(events, n).requests && Run(events, n).requests[id].Waiting? ==>
        Next(Run(events, n), Resume(id)).requests[id] == Failed
  {
    SettledForever(events, m, n);
    EveryRunKeepsInvariant(events, n);
  }

  /** A build that succeeds serves everyone: whoever waits gets the registry on waking, and whoever arrives
      has it at once. */
  lemma SuccessServesAll(events: seq<Event>, m: nat, n: nat, id: nat, ingest: bool)
    requires m <= n <= |events| && Run(events, m).build.Resolved?
    ensures var s := Run(events, n);
      && (id in s.requests && s.requests[id].Waiting? ==>
            Next(s, Resume(id)).requests[id] == Holding(Run(events, m).build.registry, s.requests[id].ingest))
      && (id !in s.requests ==>
            Next(s, Arrive(id, ingest)).requests[id] == Holding(Run(events, m).build.registry, ingest))
  {
    SettledForever(events, m, n);
    EveryRunKeepsInvariant(events, n);
  }

  // ---------------------------------------------------------------------------------------------
  // What the flag says about storage
  // ---------------------------------------------------------------------------------------------

  /** At event `h` the build, with its stores attached, comes back from its hydration. */
  predicate HydratedAt(events: seq<Event>, h: nat, ok: bool) {
    h < |events| && events[h] == Hydrated(ok) && Run(events, h).build.Hydrating?
  }

  /** At event `h` the build makes its registry, with stores to attach or without. */
  predicate MadeAt(events: seq<Event>, h: nat, stores: bool) {
    h < |events| && events[h] == RegistryMade(stores) && Run(events, h).build.Preparing?
  }

  /** The flag says durable if and only if a hydration has succeeded, and it says not durable if and only if
      the registry was made without stores or a hydration has failed. */
  lemma {:induction false} FlagTellsStorage(events: seq<Event>, n: nat)
    requires n <= |events|
    ensures Run(events, n).durability == Known(true) <==> exists h: nat :: h < n && HydratedAt(events, h, true)
    ensures Run(events, n).durability == Known(false)
      <==> exists h: nat :: h < n && (MadeAt(events, h, false) || HydratedAt(events, h, false))
  {
    hide Next, Run, Invariant;
    if n == 0 {
      NothingBefore(events);
    } else {
      FlagTellsStorage(events, n - 1);
      EveryRunKeepsInvariant(events, n - 1);
      RunSteps(events, n - 1);
      var s, e := Run(events, n - 1), events[n - 1];
      FlagMoves(s, e);
      assert HydratedAt(events, n - 1, true) <==> e == Hydrated(true) && s.build.Hydrating?;
      assert HydratedAt(events, n - 1, false) <==> e == Hydrated(false) && s.build.Hydrating?;
      assert MadeAt(events, n - 1, false) <==> e == RegistryMade(false) && s.build.Preparing?;
    }
  }

  lemma NothingBefore(events: seq<Event>)
    ensures Run(events, 0).durability == Initial && Run(events, 0).build == NotStarted
  {
  }

  /** One step settles the flag if and only if it is one of these. */
  lemma FlagMoves(s: State, e: Event)
    requires Invariant(s)
    ensures Next(s, e).durability ==
      if s.build.Preparing? && e == RegistryMade(false) then Known(false)
      else if s.build.Hydrating? && e.Hydrated? then Known(e.ok)
      else s.durability
    ensures s.build.Preparing? || s.build.Hydrating? ==> s.durability == Initial
  {
  }

  /** A build that hydrates was given its stores before, and attached them since. */
  lemma {:induction false} StoresCameFirst(events: seq<Event>, n: nat) returns (m: nat, t: nat)
    requires n <= |events| && (Run(events, n).build.Attaching? || Run(events, n).build.Hydrating?)
    ensures m < n && MadeAt(events, m, true)
    ensures Run(events, n).build.Hydrating? ==> m < t < n && events[t] == Attached
  {
    EveryRunKeepsInvariant(events, n - 1);
    var before := Run(events, n - 1).build;
    if before.Attaching? || before.Hydrating? {
      m, t := StoresCameFirst(events, n - 1);
      if before.Attaching? { t := n - 1; }
    } else {
      m, t := n - 1, n - 1;
    }
  }

  /** A build is rejected if and only if its preparation threw, or its stores could not be attached; no
      hydration rejects it. */
  lemma {:induction false} RejectionTellsCause(events: seq<Event>, n: nat)
    requires n <= |events|
    ensures Run(events, n).build.Rejected? <==> exists h: nat :: h < n && FailsAt(events, h)
  {
    hide Next, Run, Invariant;
    if n == 0 {
      NothingBefore(events);
    } else {
      RejectionTellsCause(events, n - 1);
      RunSteps(events, n - 1);
      BuildFails(Run(events, n - 1), events[n - 1]);
      assert FailsAt(events, n - 1) <==> Fails(Run(events, n - 1), events[n - 1]);
    }
  }

  predicate Fails(s: State, e: Event) {
    (s.build.Preparing? && e == PrepareFails) || (s.build.Attaching? && e == AttachFails)
  }

  predicate FailsAt(events: seq<Event>, h: nat) {
    h < |events| && Fails(Run(events, h), events[h])
  }

  lemma BuildFails(s: State, e: Event)
    ensures Next(s, e).build.Rejected? <==> s.build.Rejected? || Fails(s, e)
  {
  }

  /** What a request asked for is what it arrived with. */
  lemma {:induction false} AskedOnArrival(events: seq<Event>, n: nat, id: nat) returns (a: nat)
    requires n <= |events| && id in Run(events, n).requests && !Run(events, n).requests[id].Failed?
    ensures a < n && events[a].Arrive? && events[a].id == id && id !in Run(events, a).requests
    ensures events[a].ingest == var r := Run(events, n).requests[id]; r.Answered? || r.ingest
  {
    if id in Run(events, n - 1).requests {
      RequestMoves(Run(events, n - 1), events[n - 1], id);
      a := AskedOnArrival(events, n - 1, id);
    } else {
      a := n - 1;
    }
  }

  lemma RequestMoves(s: State, e: Event, id: nat)
    requires id in s.requests && !Next(s, e).requests[id].Failed?
    ensures !s.requests[id].Failed?
    ensures var r, t := s.requests[id], Next(s, e).requests[id];
      (r.Answered? || r.ingest) == (t.Answered? || t.ingest)
  {
  }

  /** Over every interleaving, an upload is accepted only of a request that arrived with one, after a build
      that was given stores, attached them and hydrated from them, and that hydration settled the build. */
  lemma AcceptedIsHydrated(events: seq<Event>, n: nat, id: nat) returns (a: nat, m: nat, t: nat, h: nat)
    requires n <= |events| && id in Run(events, n).requests
    requires Run(events, n).requests[id].Answered? && Run(events, n).requests[id].accepted
    ensures a < n && events[a] == Arrive(id, true)
    ensures m < t < h < n && MadeAt(events, m, true) && events[t] == Attached && HydratedAt(events, h, true)
    ensures Run(events, h + 1).build == Run(events, n).build && Run(events, n).build.Resolved?
  {
    EveryRunKeepsInvariant(events, n);
    FlagTellsStorage(events, n);
    h :| h < n && HydratedAt(events, h, true);
    m, t := StoresCameFirst(events, h);
    a := AskedOnArrival(events, n, id);
    SettledForever(events, h + 1, n);
  }

  /** So where no event brings stores, or none brings a hydration that succeeds, no upload is accepted. */
  lemma NothingAcceptedWithoutStorage(events: seq<Event>, n: nat, id: nat)
    requires n <= |events| && (RegistryMade(true) !in events || Hydrated(true) !in events)
    ensures id in Run(events, n).requests && Run(events, n).requests[id].Answered?
      ==> !Run(events, n).requests[id].accepted
  {
    hide Run;
    if id in Run(events, n).requests && Run(events, n).requests[id].Answered? && Run(events, n).requests[id].accepted {
      var a, m, t, h := AcceptedIsHydrated(events, n, id);
      assert false;
    }
  }

  /** However the build settles the flag, every upload is answered by it, then and ever after: without
      stores or after a hydration that failed it is refused, after one that succeeded it is accepted. */
  lemma UploadsFollowStorage(events: seq<Event>, h: nat, n: nat, id: nat, durable: bool)
    requires h < n <= |events|
    requires HydratedAt(events, h, durable) || (!durable && MadeAt(events, h, false))
    requires id in Run(events, n).requests
    ensures Run(events, n).build.Resolved?
    ensures var s := Run(events, n);
      && (s.requests[id].Answered? ==> s.requests[id].accepted == durable)
      && (s.requests[id].Holding? && s.requests[id].ingest ==>
              Next(s, ReadFlag(id)).requests[id] == Answered(s.requests[id].registry, durable))
      && (s.requests[id] == Waiting(true) ==>
              Next(Next(s, Resume(id)), ReadFlag(id)).requests[id] == Answered(s.build.registry, durable))
  {
    hide Next, Run, Invariant;
    EveryRunKeepsInvariant(events, h);
    FlagMoves(Run(events, h), events[h]);
    RunSteps(events, h);
    KnownIsSettled(events, h + 1);
    SettledForever(events, h + 1, n);
    EveryRunKeepsInvariant(events, n);
    UploadIsAnswered(Run(events, n), id, durable);
  }

  lemma KnownIsSettled(events: seq<Event>, n: nat)
    requires n <= |events|
    ensures Run(events, n).durability.Known? <==> Run(events, n).build.Resolved?
  {
    EveryRunKeepsInvariant(events, n);
  }

  lemma UploadIsAnswered(s: State, id: nat, durable: bool)
    requires Invariant(s) && s.durability == Known(durable) && s.build.Resolved? && id in s.requests
    ensures s.requests[id].Answered? ==> s.requests[id].accepted == durable
    ensures s.requests[id].Holding? && s.requests[id].ingest ==>
      Next(s, ReadFlag(id)).requests[id] == Answered(s.requests[id].registry, durable)
    ensures s.requests[id] == Waiting(true) ==>
      Next(Next(s, Resume(id)), ReadFlag(id)).requests[id] == Answered(s.build.registry, durable)
  {
  }
}
