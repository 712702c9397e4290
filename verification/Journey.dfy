/**
 A request's way through a cluster of stacks: straight to a broker, to the owner of its
 cookie, along the fallback chain, and back to the entry stack when the owner's side fails.
 What every broker answers and which hops get through is left open.
 */
module Journey {
  import opened Options
  import opened Sequences
  import opened SessionIds
  import opened StackList
  import opened ResolveCore
  import opened Router
  import opened BrokerHandler

  /** `inherits`: does the reassigning subrequest carry the forwarding variables of its parent? */
  datatype Cluster = Cluster(names: seq<string>, domain: string, inherits: bool)

  predicate GoodName(name: string) {
    Plain(name) && DOT !in name && SEPARATOR !in name && Lower(name) == name
  }

  predicate GoodCluster(c: Cluster) {
    && Distinct(c.names)
    && c.domain != "" && Lower(c.domain) == c.domain
    && forall n <- c.names :: GoodName(n)
  }

  function ConfigOf(c: Cluster, stack: string): Config {
    Config(stack, c.domain, c.names)
  }

  datatype Phase = Direct | AtOwner(entry: string, owner: string) | Reassigned

  datatype State =
    | Arriving(stack: string, phase: Phase, request: Request)
    | InFlight(stack: string, phase: Phase, request: Request)
    | Reassigning(entry: string, owner: string)
    | Done(status: nat, servedBy: Option<string>)

  datatype Event =
    | Routed                                    // decided without the broker
    | Empty                                     // the broker has no runner
    | Answers(reply: Reply, upstream: nat)      // any other answer of the broker, and the runner's own status
    | Delivered
    | Unreachable(status: nat)                  // what the sending router says instead

  /** `resolutions` lists the stacks whose brokers were asked, in order. */
  datatype Trip = Trip(state: State, resolutions: seq<string>, ownerForwards: nat)

  /** The forwarding headers of the reassigning subrequest. */
  function ReassignFallback(c: Cluster, owner: string): string {
    if c.inherits then owner else ""
  }

  function ReassignRemaining(c: Cluster, entry: string, owner: string): string {
    if c.inherits then OrEmpty(RemainingExcluding(ConfigOf(c, entry), owner)) else ""
  }

  /** The stacks a broker may still send the request to. */
  function PoolAt(c: Cluster, stack: string, request: Request): seq<string> {
    var cfg := ConfigOf(c, stack);
    Pool(Rotation(c.names, stack), RelayedFallback(cfg, request), RelayedRemaining(cfg, request))
  }

  function ReassignPool(c: Cluster, entry: string, owner: string): seq<string> {
    Pool(Rotation(c.names, entry), ReassignFallback(c, owner), ReassignRemaining(c, entry, owner))
  }

  /** Gateway errors on the owner's side come back to the entry stack; everything else is final. */
  function Finish(phase: Phase, status: nat, server: Option<string>): State {
    if phase.AtOwner? && (status == HTTP_BAD_GATEWAY || status == HTTP_GATEWAY_TIMEOUT)
    then Reassigning(phase.entry, phase.owner)
    else Done(status, server)
  }

  /** Where the trip goes on from the ending of the router's script at `stack`. */
  function AfterEnding(stack: string, phase: Phase, ending: Ending, upstream: nat): State {
    match ending
    case Exits(status) => Finish(phase, status, None)
    case ToOwner(owner, request) => InFlight(owner, AtOwner(stack, owner), request)
    case ToFallback(next, request) => InFlight(next, phase, request)
    case Proxies => Finish(phase, upstream, Some(stack))
  }

  function AfterDecision(stack: string, phase: Phase, cookie: Option<string>, decision: Decision, upstream: nat): State
  {
    AfterEnding(stack, phase, EndingOfDecision(decision, cookie), upstream)
  }

  function AfterReassign(entry: string, decision: Decision, upstream: nat): State {
    AfterEnding(entry, Reassigned, ReassignEnding(decision), upstream)
  }

  predicate Possible(c: Cluster, trip: Trip, event: Event) {
    match trip.state
    case Arriving(stack, _, request) =>
      if ArrivalOf(ConfigOf(c, stack), request).Here? then BrokerEvent(event) else event.Routed?
    case InFlight(_, _, _) =>
      event.Delivered? || event.Unreachable?
    case Reassigning(_, _) => BrokerEvent(event)
    case Done(_, _) => false
  }

  predicate BrokerEvent(event: Event) {
    event.Empty? || (event.Answers? && event.reply.status != HTTP_SERVICE_UNAVAILABLE)
  }

  function BrokerReply(pool: seq<string>, event: Event): Reply {
    if event.Answers? then event.reply else EmptyReply(pool)
  }

  function RunnerStatus(event: Event): nat {
    if event.Answers? then event.upstream else 0
  }

  /** How resolve.lua ends at this stack. */
  function EndingAt(c: Cluster, stack: string, request: Request, event: Event): Ending {
    ResolveEnding(ConfigOf(c, stack), request, BrokerReply(PoolAt(c, stack, request), event))
  }

  function Step(c: Cluster, trip: Trip, event: Event): Trip
    requires Possible(c, trip, event)
  {
    match trip.state
    case Arriving(stack, phase, request) =>
      var ending := EndingAt(c, stack, request, event);
      Trip(AfterEnding(stack, phase, ending, RunnerStatus(event)),
           trip.resolutions + (if ArrivalOf(ConfigOf(c, stack), request).Here? then [stack] else []),
           trip.ownerForwards + if ending.ToOwner? then 1 else 0)
    case InFlight(stack, phase, request) =>
      trip.(state := if event.Delivered? then Arriving(stack, phase, request) else Finish(phase, event.status, None))
    case Reassigning(entry, owner) =>
      var decision := Decide(ConfigOf(c, entry), BrokerReply(ReassignPool(c, entry, owner), event));
      trip.(state := AfterReassign(entry, decision, RunnerStatus(event)), resolutions := trip.resolutions + [entry])
  }

  predicate Travels(c: Cluster, trip: Trip, events: seq<Event>)
    decreases |events|
  {
    events == [] || (Possible(c, trip, events[0]) && Travels(c, Step(c, trip, events[0]), events[1..]))
  }

  function Outcome(c: Cluster, trip: Trip, events: seq<Event>): Trip
    requires Travels(c, trip, events)
    decreases |events|
  {
    if events == [] then trip else Outcome(c, Step(c, trip, events[0]), events[1..])
  }

  /** A request from outside: any cookie, and any forwarding headers, but not under an internal host. */
  predicate Enters(c: Cluster, trip: Trip) {
    && trip.state.Arriving? && trip.state.phase.Direct? && trip.state.stack in c.names
    && !IsInternalHost(ConfigOf(c, trip.state.stack), Lower(trip.state.request.host))
    && trip.resolutions == [] && trip.ownerForwards == 0
  }

  // ---- What every trip keeps ---------------------------------------------------------

  function FallbackAt(c: Cluster, stack: string, request: Request): string {
    RelayedFallback(ConfigOf(c, stack), request)
  }

  predicate PhaseSound(c: Cluster, phase: Phase) {
    phase.AtOwner? ==> phase.entry in c.names
  }

  /** The receiver is addressed by the fallback header, or it is the owner, or the request has just come in. */
  predicate Addressed(c: Cluster, stack: string, phase: Phase, request: Request) {
    && stack in c.names
    && PhaseSound(c, phase)
    && (FallbackAt(c, stack, request) == "" || FallbackAt(c, stack, request) == stack)
    && (FallbackAt(c, stack, request) == "" ==>
          phase.Direct? || (phase.AtOwner? && CookieStack(request.cookie) == Some(stack)))
  }

  predicate Sound(c: Cluster, trip: Trip) {
    && trip.ownerForwards <= 1
    && (match trip.state
        case Arriving(stack, phase, request) =>
          Addressed(c, stack, phase, request) && (phase.Direct? ==> trip.ownerForwards == 0)
        case InFlight(stack, phase, request) =>
          && Addressed(c, stack, phase, request) && (phase.Direct? ==> trip.ownerForwards == 0)
          && ArrivalOf(ConfigOf(c, stack), request).Here?
        case Reassigning(entry, _) => entry in c.names
        case Done(_, _) => true)
  }

  /** A hop to a known stack keeps its forwarding headers. */
  lemma HopKeepsHeaders(c: Cluster, stack: string, cookie: Option<string>, fallback: string, remaining: string)
    requires GoodCluster(c) && stack in c.names
    ensures var request := Request(HostName(stack, c.domain), cookie, fallback, remaining);
            && RelayedFallback(ConfigOf(c, stack), request) == fallback
            && RelayedRemaining(ConfigOf(c, stack), request) == remaining
  {
    assert GoodName(stack);
    ForwardedIsInternal(ConfigOf(c, stack), stack);
  }

  lemma PoolIsPlain(c: Cluster, stack: string, header: string, remaining: string)
    requires GoodCluster(c)
    ensures forall n <- Pool(Rotation(c.names, stack), header, remaining) :: Plain(n)
  {
    NamesArePlain(remaining);
    RotationKeepsTheOthers(c.names, stack);
    forall n <- Rotation(c.names, stack)
      ensures Plain(n)
    {
      assert n in multiset(Rotation(c.names, stack));
      assert n in multiset(c.names);
      assert GoodName(n);
    }
  }

  /** What the router makes of the signal for the pool: the first stack, with the rest as its list. */
  lemma SignalIsRead(c: Cluster, own: string, pool: seq<string>)
    requires forall n <- pool :: Plain(n)
    ensures var decision := Decide(ConfigOf(c, own), EmptyReply(pool));
            && (pool == [] || pool[0] !in c.names ==> decision == Exit(HTTP_SERVICE_UNAVAILABLE))
            && (pool != [] && pool[0] in c.names ==>
                  && decision.ForwardToFallback? && decision.stack == pool[0]
                  && decision.host == HostName(pool[0], c.domain)
                  && Names(OrEmpty(decision.remaining)) == pool[1..])
  {
    if pool != [] {
      assert Plain(pool[0]);
      NamesOfJoin(pool[1..]);
      NamesOfJoin([]);
      assert Join([]) == "";
    }
  }

  /** A broker's answer in a fallback chain either ends the trip or leaves a shorter chain. */
  lemma ChainStep(c: Cluster, stack: string, phase: Phase, cookie: Option<string>, pool: seq<string>, event: Event)
    requires GoodCluster(c) && BrokerEvent(event) && (forall n <- pool :: Plain(n)) && PhaseSound(c, phase)
    ensures var decision := Decide(ConfigOf(c, stack), BrokerReply(pool, event));
            var state := AfterDecision(stack, phase, cookie, decision, RunnerStatus(event));
            && (state.InFlight? ==> HopOfChain(c, state, phase, cookie, pool))
            && (!state.InFlight? ==> state.Done? || (phase.AtOwner? && state == Reassigning(phase.entry, phase.owner)))
  {
    if event.Empty? {
      EmptyChainStep(c, stack, phase, cookie, pool);
    }
  }

  lemma EmptyChainStep(c: Cluster, stack: string, phase: Phase, cookie: Option<string>, pool: seq<string>)
    requires GoodCluster(c) && (forall n <- pool :: Plain(n)) && PhaseSound(c, phase)
    ensures var decision := Decide(ConfigOf(c, stack), EmptyReply(pool));
            var state := AfterDecision(stack, phase, cookie, decision, 0);
            if state.InFlight? then HopOfChain(c, state, phase, cookie, pool) else state.Done?
  {
    SignalIsRead(c, stack, pool);
    if pool != [] && pool[0] in c.names {
      var decision := Decide(ConfigOf(c, stack), EmptyReply(pool));
      HopKeepsHeaders(c, pool[0], cookie, pool[0], OrEmpty(decision.remaining));
      assert Plain(pool[0]);
    }
  }

  /** On its way to the head of the pool, with the tail of the pool as its list. */
  predicate HopOfChain(c: Cluster, state: State, phase: Phase, cookie: Option<string>, pool: seq<string>) {
    && state.InFlight? && pool != [] && pool[0] in c.names
    && state.stack == pool[0] && state.phase == phase && state.request.cookie == cookie
    && FallbackAt(c, state.stack, state.request) == pool[0] != ""
    && PoolAt(c, state.stack, state.request) == pool[1..]
    && ArrivalOf(ConfigOf(c, state.stack), state.request) == Here
  }

  lemma ReassignStep(c: Cluster, entry: string, pool: seq<string>, event: Event)
    requires GoodCluster(c) && BrokerEvent(event) && forall n <- pool :: Plain(n)
    ensures var decision := Decide(ConfigOf(c, entry), BrokerReply(pool, event));
            var state := AfterReassign(entry, decision, RunnerStatus(event));
            && (state.InFlight? ==> HopOfChain(c, state, Reassigned, None, pool))
            && (!state.InFlight? ==> state.Done?)
  {
    if event.Empty? {
      SignalIsRead(c, entry, pool);
      if pool != [] && pool[0] in c.names {
        var decision := Decide(ConfigOf(c, entry), EmptyReply(pool));
        HopKeepsHeaders(c, pool[0], None, pool[0], OrEmpty(decision.remaining));
        assert Plain(pool[0]);
      }
    }
  }

  // ---- How many brokers a trip asks ---------------------------------------------------

  /** The resolutions that may still come: the rest of the chain, and a whole round more if the owner may fail. */
  function Budget(c: Cluster, state: State): nat {
    match state
    case Arriving(stack, phase, request) => HopBudget(c, stack, phase, request)
    case InFlight(stack, phase, request) => HopBudget(c, stack, phase, request)
    case Reassigning(_, _) => |c.names|
    case Done(_, _) => 0
  }

  function HopBudget(c: Cluster, stack: string, phase: Phase, request: Request): nat {
    if ArrivalOf(ConfigOf(c, stack), request).ForwardToOwner? then 2 * |c.names|
    else 1 + |PoolAt(c, stack, request)| + if phase.AtOwner? then |c.names| else 0
  }

  function Rank(c: Cluster, state: State): nat {
    4 * Budget(c, state) +
    match state
    case Arriving(stack, _, request) => if ArrivalOf(ConfigOf(c, stack), request).ForwardToOwner? then 3 else 1
    case InFlight(_, _, _) => 2
    case Reassigning(_, _) => 1
    case Done(_, _) => 0
  }

  lemma OwnOrderIsShorter(c: Cluster, stack: string)
    requires GoodCluster(c) && stack in c.names
    ensures |Rotation(c.names, stack)| == |c.names| - 1
  {
    var i := FirstAt(c.names, stack);
    RotationOfDistinct(c.names, i);
  }

  lemma {:induction false} WithoutShortens(names: seq<string>, self: string)
    ensures |Without(names, self)| <= |names|
    ensures self in names ==> |Without(names, self)| < |names|
    ensures forall n <- Without(names, self) :: n in names
  {
    if names != [] {
      WithoutShortens(names[1..], self);
    }
  }

  lemma ReassignPoolIsShorter(c: Cluster, entry: string, owner: string)
    requires GoodCluster(c) && entry in c.names
    ensures |ReassignPool(c, entry, owner)| < |c.names|
    ensures forall n <- ReassignPool(c, entry, owner) :: Plain(n)
  {
    PoolIsPlain(c, entry, ReassignFallback(c, owner), ReassignRemaining(c, entry, owner));
    OwnOrderIsShorter(c, entry);
    var others := OthersThan(ConfigOf(c, entry), owner);
    WithoutShortens(c.names, entry);
    WithoutShortens(Without(c.names, entry), owner);
    forall n <- others
      ensures Plain(n)
    {
      assert GoodName(n);
    }
    NamesOfJoin(others);
    NamesOfJoin([]);
    assert Join([]) == "";
  }

  /** A step that keeps a trip sound, spends its budget and brings its end nearer. */
  predicate GoesOn(c: Cluster, trip: Trip, next: Trip) {
    && Sound(c, next)
    && |next.resolutions| + Budget(c, next.state) <= |trip.resolutions| + Budget(c, trip.state)
    && Rank(c, next.state) < Rank(c, trip.state)
  }

  lemma BrokerStepGoesOn(c: Cluster, trip: Trip, event: Event)
    requires GoodCluster(c) && Sound(c, trip) && Possible(c, trip, event)
    requires trip.state.Arriving? && ArrivalOf(ConfigOf(c, trip.state.stack), trip.state.request).Here?
    ensures GoesOn(c, trip, Step(c, trip, event))
  {
    var stack, request := trip.state.stack, trip.state.request;
    PoolIsPlain(c, stack, FallbackAt(c, stack, request), RelayedRemaining(ConfigOf(c, stack), request));
    ChainStep(c, stack, trip.state.phase, request.cookie, PoolAt(c, stack, request), event);
  }

  lemma ReassignGoesOn(c: Cluster, trip: Trip, event: Event)
    requires GoodCluster(c) && Sound(c, trip) && Possible(c, trip, event) && trip.state.Reassigning?
    ensures GoesOn(c, trip, Step(c, trip, event))
  {
    var entry, owner := trip.state.entry, trip.state.owner;
    ReassignPoolIsShorter(c, entry, owner);
    ReassignStep(c, entry, ReassignPool(c, entry, owner), event);
  }

  lemma StepKeepsSound(c: Cluster, trip: Trip, event: Event)
    requires GoodCluster(c) && Sound(c, trip) && Possible(c, trip, event)
    ensures GoesOn(c, trip, Step(c, trip, event))
  {
    match trip.state
    case Arriving(stack, phase, request) =>
      match ArrivalOf(ConfigOf(c, stack), request) {
        case Refuse(status) =>
        case ForwardToOwner(host, owner) =>
          HopKeepsHeaders(c, owner, request.cookie, "", "");
          OwnOrderIsShorter(c, owner);
        case Here => BrokerStepGoesOn(c, trip, event);
      }
    case InFlight(_, _, _) =>
    case Reassigning(_, _) => ReassignGoesOn(c, trip, event);
  }

  lemma {:induction false} TripStaysInBudget(c: Cluster, trip: Trip, events: seq<Event>)
    requires GoodCluster(c) && Sound(c, trip) && Travels(c, trip, events)
    ensures Sound(c, Outcome(c, trip, events))
    ensures |Outcome(c, trip, events).resolutions| <= |trip.resolutions| + Budget(c, trip.state)
    ensures |events| + Rank(c, Outcome(c, trip, events).state) <= Rank(c, trip.state)
    decreases |events|
  {
    if events != [] {
      StepKeepsSound(c, trip, events[0]);
      TripStaysInBudget(c, Step(c, trip, events[0]), events[1..]);
    }
  }

  lemma EntryIsSound(c: Cluster, trip: Trip)
    requires GoodCluster(c) && Enters(c, trip)
    ensures Sound(c, trip) && Budget(c, trip.state) <= 2 * |c.names|
  {
    OwnOrderIsShorter(c, trip.state.stack);
  }

  /**
   A request from outside, with whatever cookie and forged headers, is forwarded to an owner at
   most once and asks at most 2n brokers of a cluster of n, whatever they answer and whichever
   hops fail; and its trip ends within 8n + 3 steps.
   */
  lemma JourneyEnds(c: Cluster, trip: Trip, events: seq<Event>)
    requires GoodCluster(c) && Enters(c, trip) && Travels(c, trip, events)
    ensures var after := Outcome(c, trip, events);
            && after.ownerForwards <= 1
            && |after.resolutions| <= 2 * |c.names|
            && |events| <= 8 * |c.names| + 3
            && (after.state.Done? || exists event :: Possible(c, after, event))
  {
    EntryIsSound(c, trip);
    TripStaysInBudget(c, trip, events);
    SomethingHappens(c, Outcome(c, trip, events));
  }

  lemma SomethingHappens(c: Cluster, trip: Trip)
    ensures trip.state.Done? || exists event :: Possible(c, trip, event)
  {
    if !trip.state.Done? {
      assert Possible(c, trip, Routed) || Possible(c, trip, Empty) || Possible(c, trip, Delivered);
    }
  }

  // ---- The fallback chain when every stack can be reached ------------------------------

  /** The event that happens when every hop gets through and exactly the stacks in `serves` have a runner. */
  predicate AsServed(c: Cluster, trip: Trip, event: Event, serves: set<string>) {
    match trip.state
    case Arriving(stack, _, _) => if stack in serves then HasRunner(event) else event.Empty?
    case Reassigning(entry, _) =>
      if entry in serves then HasRunner(event) && event.reply.setCookie.Some? else event.Empty?
    case _ => event.Delivered?
  }

  predicate HasRunner(event: Event) {
    event.Answers? && event.reply.status == HTTP_OK && ValidRunnerHost(event.reply.runnerHost)
  }

  predicate AllAsServed(c: Cluster, trip: Trip, events: seq<Event>, serves: set<string>)
    requires Travels(c, trip, events)
    decreases |events|
  {
    events == [] ||
    (AsServed(c, trip, events[0], serves) && AllAsServed(c, Step(c, trip, events[0]), events[1..], serves))
  }

  /** The stacks up to and including the first that has a runner. */
  function UpToServer(order: seq<string>, serves: set<string>): seq<string> {
    if order == [] then []
    else [order[0]] + if order[0] in serves then [] else UpToServer(order[1..], serves)
  }

  function FirstServer(order: seq<string>, serves: set<string>): Option<string> {
    if order == [] then None
    else if order[0] in serves then Some(order[0])
    else FirstServer(order[1..], serves)
  }

  /** The stacks still to be asked, if need be. */
  function Ahead(c: Cluster, state: State): seq<string> {
    match state
    case Arriving(stack, _, request) => [stack] + PoolAt(c, stack, request)
    case InFlight(stack, _, request) => [stack] + PoolAt(c, stack, request)
    case Reassigning(entry, owner) => [entry] + ReassignPool(c, entry, owner)
    case Done(_, _) => []
  }

  /** A trip along the chain, not under the eye of an entry stack. */
  predicate OnChain(c: Cluster, trip: Trip) {
    && (forall n <- Ahead(c, trip.state) :: n in c.names)
    && (match trip.state
        case Arriving(stack, phase, request) => !phase.AtOwner? && ArrivalOf(ConfigOf(c, stack), request).Here?
        case InFlight(stack, phase, request) => !phase.AtOwner? && ArrivalOf(ConfigOf(c, stack), request).Here?
        case Reassigning(_, _) => true
        case Done(_, _) => true)
  }

  function EventualServer(c: Cluster, state: State, serves: set<string>): Option<string> {
    if state.Done? then state.servedBy else FirstServer(Ahead(c, state), serves)
  }

  predicate NoServerMeans503(state: State) {
    state.Done? && state.servedBy.None? ==> state.status == HTTP_SERVICE_UNAVAILABLE
  }

  /** What the chain keeps from `trip` to `next`: who is asked in all, and who serves in the end. */
  predicate FollowsOrder(c: Cluster, trip: Trip, next: Trip, serves: set<string>) {
    && next.resolutions + UpToServer(Ahead(c, next.state), serves)
       == trip.resolutions + UpToServer(Ahead(c, trip.state), serves)
    && EventualServer(c, next.state, serves) == EventualServer(c, trip.state, serves)
    && NoServerMeans503(next.state)
  }

  lemma PassesOver(first: string, rest: seq<string>, serves: set<string>)
    requires first !in serves
    ensures FirstServer([first] + rest, serves) == FirstServer(rest, serves)
    ensures UpToServer([first] + rest, serves) == [first] + UpToServer(rest, serves)
  {
    assert ([first] + rest)[1..] == rest;
  }

  lemma SentOnFollows(c: Cluster, trip: Trip, after: Trip, first: string, rest: seq<string>, serves: set<string>)
    requires first !in serves && !trip.state.Done? && Ahead(c, trip.state) == [first] + rest
    requires after.resolutions == trip.resolutions + [first] && Ahead(c, after.state) == rest
    requires if rest == [] then after.state == Done(HTTP_SERVICE_UNAVAILABLE, None) else after.state.InFlight?
    ensures FollowsOrder(c, trip, after, serves)
  {
    PassesOver(first, rest, serves);
    Regroup(trip.resolutions, [first], UpToServer(rest, serves));
  }

  lemma EmptyStackPassesOn(c: Cluster, trip: Trip, serves: set<string>)
    requires GoodCluster(c) && OnChain(c, trip) && Possible(c, trip, Empty) && AsServed(c, trip, Empty, serves)
    ensures var after := Step(c, trip, Empty);
            OnChain(c, after) && FollowsOrder(c, trip, after, serves)
  {
    if trip.state.Arriving? {
      var after := EmptyStackSendsOn(c, trip);
      SentOnFollows(c, trip, after, trip.state.stack, PoolAt(c, trip.state.stack, trip.state.request), serves);
    } else {
      var after := EmptyEntrySendsOn(c, trip);
      SentOnFollows(c, trip, after, trip.state.entry, ReassignPool(c, trip.state.entry, trip.state.owner), serves);
    }
  }

  /** So it is when the entry stack, asked again, has no runner. */
  lemma EmptyEntrySendsOn(c: Cluster, trip: Trip) returns (after: Trip)
    requires GoodCluster(c) && OnChain(c, trip) && trip.state.Reassigning?
    ensures after == Step(c, trip, Empty) && after.resolutions == trip.resolutions + [trip.state.entry]
    ensures var pool := ReassignPool(c, trip.state.entry, trip.state.owner);
            Ahead(c, after.state) == pool && OnChain(c, after) &&
            (pool == [] ==> after.state == Done(HTTP_SERVICE_UNAVAILABLE, None)) &&
            (pool != [] ==> after.state.InFlight?)
  {
    var entry, owner := trip.state.entry, trip.state.owner;
    var pool := ReassignPool(c, entry, owner);
    PoolIsPlain(c, entry, ReassignFallback(c, owner), ReassignRemaining(c, entry, owner));
    ReassignStep(c, entry, pool, Empty);
    SignalIsRead(c, entry, pool);
    after := Step(c, trip, Empty);
    if pool != [] {
      assert pool[0] in Ahead(c, trip.state);
      assert [pool[0]] + pool[1..] == pool;
      assert forall n <- pool :: n in Ahead(c, trip.state);
    }
  }

  /** The next stack is the first of those ahead, with the others still ahead of it; or this was the last. */
  lemma EmptyStackSendsOn(c: Cluster, trip: Trip) returns (after: Trip)
    requires GoodCluster(c) && OnChain(c, trip) && trip.state.Arriving?
    ensures after == Step(c, trip, Empty) && after.resolutions == trip.resolutions + [trip.state.stack]
    ensures var pool := PoolAt(c, trip.state.stack, trip.state.request);
            Ahead(c, after.state) == pool && OnChain(c, after) &&
            (pool == [] ==> after.state == Done(HTTP_SERVICE_UNAVAILABLE, None)) &&
            (pool != [] ==> after.state.InFlight?)
  {
    var stack, request := trip.state.stack, trip.state.request;
    var pool := PoolAt(c, stack, request);
    PoolIsPlain(c, stack, FallbackAt(c, stack, request), RelayedRemaining(ConfigOf(c, stack), request));
    ChainStep(c, stack, trip.state.phase, request.cookie, pool, Empty);
    SignalIsRead(c, stack, pool);
    after := Step(c, trip, Empty);
    if pool != [] {
      assert pool[0] in Ahead(c, trip.state);
      assert [pool[0]] + pool[1..] == pool;
      assert forall n <- pool :: n in Ahead(c, trip.state);
    }
  }

  lemma ServerEndsChain(c: Cluster, trip: Trip, event: Event, serves: set<string>)
    requires GoodCluster(c) && OnChain(c, trip) && Possible(c, trip, event) && AsServed(c, trip, event, serves)
    requires event.Answers?
    ensures OnChain(c, Step(c, trip, event)) && FollowsOrder(c, trip, Step(c, trip, event), serves)
    ensures Step(c, trip, event).state == Done(event.upstream, Some(Ahead(c, trip.state)[0]))
  {
    assert !trip.state.InFlight?;
    assert Ahead(c, trip.state)[0] in serves;
  }

  lemma HopFollowsChain(c: Cluster, trip: Trip, event: Event, serves: set<string>)
    requires GoodCluster(c) && OnChain(c, trip) && Possible(c, trip, event) && event.Delivered?
    ensures OnChain(c, Step(c, trip, event)) && FollowsOrder(c, trip, Step(c, trip, event), serves)
  {
    assert trip.state.InFlight?;
  }

  lemma ChainStepAsServed(c: Cluster, trip: Trip, event: Event, serves: set<string>)
    requires GoodCluster(c) && OnChain(c, trip) && Possible(c, trip, event) && AsServed(c, trip, event, serves)
    ensures OnChain(c, Step(c, trip, event)) && FollowsOrder(c, trip, Step(c, trip, event), serves)
  {
    if event.Empty? {
      EmptyStackPassesOn(c, trip, serves);
    } else if event.Answers? {
      ServerEndsChain(c, trip, event, serves);
    } else {
      HopFollowsChain(c, trip, event, serves);
    }
  }

  lemma {:induction false} ChainIsFollowed(c: Cluster, trip: Trip, events: seq<Event>, serves: set<string>)
    requires GoodCluster(c) && OnChain(c, trip) && NoServerMeans503(trip.state)
    requires Travels(c, trip, events) && AllAsServed(c, trip, events, serves)
    ensures FollowsOrder(c, trip, Outcome(c, trip, events), serves)
    decreases |events|
  {
    if events != [] {
      ChainStepAsServed(c, trip, events[0], serves);
      ChainIsFollowed(c, Step(c, trip, events[0]), events[1..], serves);
    }
  }

  lemma {:induction false} ServerIfAny(order: seq<string>, serves: set<string>)
    ensures FirstServer(order, serves).Some? <==> exists s <- order :: s in serves
    ensures FirstServer(order, serves).Some? ==> FirstServer(order, serves).value in serves
  {
    if order != [] {
      ServerIfAny(order[1..], serves);
      assert order == [order[0]] + order[1..];
    }
  }

  lemma EntryIsOnChain(c: Cluster, trip: Trip)
    requires GoodCluster(c) && Enters(c, trip) && trip.state.request.cookie == None
    ensures OnChain(c, trip) && NoServerMeans503(trip.state)
    ensures Ahead(c, trip.state) == OrderFrom(c, trip.state.stack)
  {
    OrderIsWholeCluster(c, trip.state.stack);
  }

  /**
   A request without a cookie, entering stack S of a cluster all of whose stacks can be reached,
   asks S and then the stacks of S's own order, one after the other, each at most once, until
   the first that has a runner.  It is refused nowhere, and ends in 503 exactly when no stack of the
   cluster has one.
   */
  lemma FallbackChain(c: Cluster, trip: Trip, events: seq<Event>, serves: set<string>)
    requires GoodCluster(c) && Enters(c, trip) && trip.state.request.cookie == None
    requires Travels(c, trip, events) && AllAsServed(c, trip, events, serves) && Outcome(c, trip, events).state.Done?
    ensures var after := Outcome(c, trip, events);
            var order := OrderFrom(c, trip.state.stack);
            && Distinct(order) && multiset(order) == multiset(c.names)
            && after.resolutions == UpToServer(order, serves)
            && after.state.servedBy == FirstServer(order, serves)
            && (after.state.servedBy.None? <==> forall s <- c.names :: s !in serves)
            && (after.state.servedBy.None? ==> after.state.status == HTTP_SERVICE_UNAVAILABLE)
  {
    var self := trip.state.stack;
    var order := OrderFrom(c, self);
    OrderIsDistinct(c, self);
    OrderIsWholeCluster(c, self);
    NobodyServes(c, self, serves);
    EntryIsOnChain(c, trip);
    ChainIsFollowed(c, trip, events, serves);
    var after := Outcome(c, trip, events);
    assert UpToServer(Ahead(c, after.state), serves) == [];
    assert after.resolutions + [] == after.resolutions;
    assert trip.resolutions + UpToServer(order, serves) == UpToServer(order, serves);
  }

  lemma NobodyServes(c: Cluster, self: string, serves: set<string>)
    requires GoodCluster(c) && self in c.names
    ensures FirstServer(OrderFrom(c, self), serves).None? <==> forall s <- c.names :: s !in serves
  {
    ServerIfAny(OrderFrom(c, self), serves);
    OrderIsWholeCluster(c, self);
  }

  function OrderFrom(c: Cluster, self: string): seq<string> {
    [self] + Rotation(c.names, self)
  }

  lemma OrderIsDistinct(c: Cluster, self: string)
    requires GoodCluster(c) && self in c.names
    ensures Distinct(OrderFrom(c, self))
  {
    var i, n := FirstAt(c.names, self), |c.names|;
    RotationOfDistinct(c.names, i);
    var order := OrderFrom(c, self);
    assert |order| == n;
    assert forall m :: 0 <= m < n ==> order[m] == c.names[Round(i + m, n)];
  }

  lemma OrderIsWholeCluster(c: Cluster, self: string)
    requires GoodCluster(c) && self in c.names
    ensures multiset(OrderFrom(c, self)) == multiset(c.names)
    ensures forall s :: s in OrderFrom(c, self) <==> s in c.names
  {
    var i := FirstAt(c.names, self);
    RotationOfDistinct(c.names, i);
    CutAround(c.names, i);
    var before, behind := c.names[..i], c.names[i + 1..];
    assert OrderFrom(c, self) == [self] + (behind + before);
    forall s
      ensures s in OrderFrom(c, self) <==> s in c.names
    {
      assert s in multiset(OrderFrom(c, self)) <==> s in multiset(c.names);
    }
  }

  // ---- Cookies -----------------------------------------------------------------------

  /** A cookie issued by stack B brings the request to B's broker, with the cookie, from wherever it enters. */
  lemma CookieComesHome(c: Cluster, trip: Trip, home: string, hex: string)
    requires GoodCluster(c) && Enters(c, trip) && home in c.names
    requires trip.state.request.cookie == Some(Namespaced(home, hex))
    ensures if trip.state.stack == home then ArrivalOf(ConfigOf(c, home), trip.state.request) == Here
            else
              && Travels(c, trip, [Routed, Delivered])
              && var arrived := Outcome(c, trip, [Routed, Delivered]);
                 && arrived.state.Arriving? && arrived.state.stack == home
                 && arrived.state.phase == AtOwner(trip.state.stack, home)
                 && arrived.state.request.cookie == trip.state.request.cookie
                 && ArrivalOf(ConfigOf(c, home), arrived.state.request) == Here
                 && arrived.resolutions == [] && arrived.ownerForwards == 1
  {
    assert GoodName(home);
    RouterInvertsNamespaced(home, hex);
    if trip.state.stack != home {
      HopKeepsHeaders(c, home, trip.state.request.cookie, "", "");
      var flying := Step(c, trip, Routed);
      assert flying.state.InFlight? && flying.state.stack == home;
      var arrived := Step(c, flying, Delivered);
      assert Travels(c, arrived, []);
      assert [Routed, Delivered][1..] == [Delivered] && [Delivered][1..] == [];
      assert Travels(c, flying, [Delivered]);
    }
  }

  // ---- When the owner's side fails ---------------------------------------------------

  /** The entry stack waits for the owner's side: the hop there, the owner's broker and runner, or its chain. */
  predicate OnOwnerSide(state: State, entry: string, owner: string) {
    (state.Arriving? || state.InFlight?) && state.phase == AtOwner(entry, owner)
  }

  predicate IsGatewayError(status: nat) {
    status == 502 || status == 504
  }

  /** The status with which a step makes the owner's side answer the entry stack, if it does. */
  function SideEndsWith(c: Cluster, trip: Trip, event: Event): Option<nat>
    requires Possible(c, trip, event)
  {
    match trip.state
    case InFlight(_, _, _) => if event.Delivered? then None else Some(event.status)
    case Arriving(stack, _, request) =>
      (match EndingAt(c, stack, request, event)
       case Exits(status) => Some(status)
       case Proxies => Some(RunnerStatus(event))
       case _ => None)
    case _ => None
  }

  /** The answer of the owner's side in the course of a run. */
  function OwnerSideStatus(c: Cluster, trip: Trip, events: seq<Event>): Option<nat>
    requires Travels(c, trip, events)
    decreases |events|
  {
    if events == [] then None
    else match SideEndsWith(c, trip, events[0])
      case Some(status) => Some(status)
      case None => OwnerSideStatus(c, Step(c, trip, events[0]), events[1..])
  }

  /** Does the run come back to the entry stack for a new session? */
  predicate ComesBack(c: Cluster, trip: Trip, events: seq<Event>)
    requires Travels(c, trip, events)
    decreases |events|
  {
    trip.state.Reassigning? || (events != [] && ComesBack(c, Step(c, trip, events[0]), events[1..]))
  }

  lemma OwnerSideStep(c: Cluster, trip: Trip, event: Event, entry: string, owner: string)
    requires GoodCluster(c) && Sound(c, trip) && OnOwnerSide(trip.state, entry, owner) && Possible(c, trip, event)
    ensures var after := Step(c, trip, event).state;
            match SideEndsWith(c, trip, event)
            case None => OnOwnerSide(after, entry, owner)
            case Some(status) =>
              if IsGatewayError(status) then after == Reassigning(entry, owner)
              else after.Done? && after.status == status
  {
  }

  lemma {:induction false} DoneStaysDone(c: Cluster, trip: Trip, events: seq<Event>)
    requires trip.state.Done? && Travels(c, trip, events)
    ensures events == [] && !ComesBack(c, trip, events)
  {
  }

  /**
   A request sent to its owner comes back to its entry stack for a new session exactly when the
   owner's side, be it the hop, the broker's answer, the runner, or the chain from there on,
   answers with 502 or 504.  Any other answer is the trip's own, with that very status.
   */
  lemma {:induction false} LostOwnerIsReplaced(c: Cluster, trip: Trip, events: seq<Event>, entry: string, owner: string)
    requires GoodCluster(c) && Sound(c, trip) && OnOwnerSide(trip.state, entry, owner) && Travels(c, trip, events)
    ensures var status, after := OwnerSideStatus(c, trip, events), Outcome(c, trip, events).state;
            && (ComesBack(c, trip, events) <==> status.Some? && IsGatewayError(status.value))
            && (status.None? ==> OnOwnerSide(after, entry, owner))
            && (status.Some? && !IsGatewayError(status.value) ==> after.Done? && after.status == status.value)
    decreases |events|
  {
    if events != [] {
      var next := Step(c, trip, events[0]);
      OwnerSideStep(c, trip, events[0], entry, owner);
      if SideEndsWith(c, trip, events[0]).None? {
        StepKeepsSound(c, trip, events[0]);
        LostOwnerIsReplaced(c, next, events[1..], entry, owner);
      } else if next.state.Done? {
        DoneStaysDone(c, next, events[1..]);
      }
    }
  }

  // ---- The stacks asked after a lost owner ----------------------------------------------

  /** The one list in the order of the other. */
  ghost predicate InOrder(names: seq<string>, part: seq<string>) {
    forall i, j :: 0 <= i < j < |part| ==> ComeInOrder(names, part[i], part[j])
  }

  ghost predicate ComeInOrder(names: seq<string>, first: string, second: string) {
    exists p, q :: 0 <= p < q < |names| && names[p] == first && names[q] == second
  }

  lemma ComeLater(names: seq<string>, first: string, second: string)
    requires names != [] && ComeInOrder(names[1..], first, second)
    ensures ComeInOrder(names, first, second)
  {
    var p, q :| 0 <= p < q < |names| - 1 && names[1..][p] == first && names[1..][q] == second;
    assert names[p + 1] == first && names[q + 1] == second;
  }

  lemma HeadComesFirst(names: seq<string>, second: string)
    requires names != [] && second in names[1..]
    ensures ComeInOrder(names, names[0], second)
  {
    var q :| 0 <= q < |names| - 1 && names[1..][q] == second;
    assert names[q + 1] == second && names[0] == names[0];
  }

  lemma WithoutBothOfHead(names: seq<string>, a: string, b: string)
    requires names != []
    ensures Without(Without(names, a), b) ==
            (if names[0] == a || names[0] == b then [] else [names[0]]) + Without(Without(names[1..], a), b)
  {
    var rest := Without(names[1..], a);
    if names[0] == a {
      assert Without(names, a) == rest;
    } else {
      assert Without(names, a) == [names[0]] + rest && ([names[0]] + rest)[1..] == rest;
    }
  }

  lemma RestInOrder(names: seq<string>, part: seq<string>)
    requires names != [] && InOrder(names[1..], part)
    ensures InOrder(names, part)
  {
    forall i, j | 0 <= i < j < |part|
      ensures ComeInOrder(names, part[i], part[j])
    {
      ComeLater(names, part[i], part[j]);
    }
  }

  lemma HeadInOrder(names: seq<string>, part: seq<string>)
    requires names != [] && InOrder(names[1..], part) && forall n <- part :: n in names[1..]
    ensures InOrder(names, [names[0]] + part)
  {
    var whole := [names[0]] + part;
    forall i, j | 0 <= i < j < |whole|
      ensures ComeInOrder(names, whole[i], whole[j])
    {
      assert whole[j] == part[j - 1];
      if i == 0 {
        HeadComesFirst(names, part[j - 1]);
      } else {
        ComeLater(names, part[i - 1], part[j - 1]);
      }
    }
  }

  lemma {:induction false} WithoutBothInOrder(names: seq<string>, a: string, b: string)
    ensures forall n :: n in Without(Without(names, a), b) <==> n in names && n != a && n != b
    ensures InOrder(names, Without(Without(names, a), b))
  {
    if names != [] {
      var rest := Without(Without(names[1..], a), b);
      WithoutBothInOrder(names[1..], a, b);
      WithoutBothOfHead(names, a, b);
      assert names == [names[0]] + names[1..];
      if names[0] == a || names[0] == b {
        assert [] + rest == rest;
        RestInOrder(names, rest);
      } else {
        HeadInOrder(names, rest);
      }
    }
  }

  /** The list for the request after a lost owner: every stack but the two, in list order. */
  lemma RemainingIsOthers(c: Cluster, entry: string, owner: string) returns (others: seq<string>)
    requires GoodCluster(c)
    ensures others == Names(OrEmpty(RemainingExcluding(ConfigOf(c, entry), owner)))
    ensures forall n :: n in others <==> n in c.names && n != entry && n != owner
    ensures InOrder(c.names, others)
  {
    others := OthersThan(ConfigOf(c, entry), owner);
    WithoutBothInOrder(c.names, entry, owner);
    forall n <- others
      ensures Plain(n)
    {
      assert GoodName(n);
    }
    NamesOfJoin(others);
    NamesOfJoin([]);
    assert Join([]) == "";
  }

  lemma ReassignedOrder(c: Cluster, entry: string, owner: string) returns (others: seq<string>)
    requires GoodCluster(c) && entry in c.names && owner != ""
    ensures others == ReassignPool(c, entry, owner) && forall n <- others :: n in c.names
    ensures c.inherits ==>
              (forall n :: n in others <==> n in c.names && n != entry && n != owner) && InOrder(c.names, others)
    ensures !c.inherits ==> [entry] + others == OrderFrom(c, entry)
  {
    if c.inherits {
      others := RemainingIsOthers(c, entry, owner);
    } else {
      others := Rotation(c.names, entry);
      OrderIsWholeCluster(c, entry);
      assert forall n <- others :: n in OrderFrom(c, entry);
    }
  }

  /**
   After a lost owner, in a cluster all of whose stacks can be reached, the entry stack is asked and then, until
   the first that has a runner, every other stack but the owner, in list order, when the subrequest
   inherits, or else every other stack in the entry stack's own order.
   */
  lemma ReassignedChain(c: Cluster, trip: Trip, events: seq<Event>, serves: set<string>) returns (others: seq<string>)
    requires GoodCluster(c) && trip.state.Reassigning?
    requires trip.state.entry in c.names && trip.state.owner in c.names
    requires Travels(c, trip, events) && AllAsServed(c, trip, events, serves) && Outcome(c, trip, events).state.Done?
    ensures c.inherits ==>
              && (forall n :: n in others <==> n in c.names && n != trip.state.entry && n != trip.state.owner)
              && InOrder(c.names, others)
    ensures !c.inherits ==> [trip.state.entry] + others == OrderFrom(c, trip.state.entry)
    ensures var after, order := Outcome(c, trip, events), [trip.state.entry] + others;
            && after.resolutions == trip.resolutions + UpToServer(order, serves)
            && after.state.servedBy == FirstServer(order, serves)
            && (after.state.servedBy.None? ==> after.state.status == HTTP_SERVICE_UNAVAILABLE)
  {
    var entry, owner := trip.state.entry, trip.state.owner;
    assert GoodName(owner);
    others := ReassignedOrder(c, entry, owner);
    ChainIsFollowed(c, trip, events, serves);
    var after := Outcome(c, trip, events);
    assert UpToServer(Ahead(c, after.state), serves) == [];
    assert after.resolutions + [] == after.resolutions;
  }

  // ---- Chains run to their end ----------------------------------------------------------

  /** The shortest reply that serves a request. */
  const SERVED := Answers(Reply(HTTP_OK, None, None, Some("runner"), Some("cookie"), None, None, None), HTTP_OK)

  lemma ServedIsValid()
    ensures ValidRunnerHost(SERVED.reply.runnerHost)
  {
    assert forall ch <- "runner" :: HostChar(ch);
  }

  lemma NextAsServed(c: Cluster, trip: Trip, serves: set<string>) returns (event: Event)
    requires OnChain(c, trip) && !trip.state.Done?
    ensures Possible(c, trip, event) && AsServed(c, trip, event, serves)
  {
    ServedIsValid();
    event := if trip.state.InFlight? then Delivered else if Ahead(c, trip.state)[0] in serves then SERVED else Empty;
  }

  /** From everywhere on the chain there is such a run to its end: FallbackChain is about every set of stacks that
      have a runner. */
  lemma {:induction false} ChainCanFinish(c: Cluster, trip: Trip, serves: set<string>) returns (events: seq<Event>)
    requires GoodCluster(c) && Sound(c, trip) && OnChain(c, trip)
    ensures Travels(c, trip, events) && AllAsServed(c, trip, events, serves) && Outcome(c, trip, events).state.Done?
    decreases Rank(c, trip.state)
  {
    if trip.state.Done? {
      events := [];
    } else {
      var event := NextAsServed(c, trip, serves);
      StepKeepsSound(c, trip, event);
      ChainStepAsServed(c, trip, event, serves);
      var rest := ChainCanFinish(c, Step(c, trip, event), serves);
      events := [event] + rest;
      assert events[1..] == rest;
    }
  }
}
