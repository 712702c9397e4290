/** The fallback chain over the runner pools of the stacks: which of them comes to serve a new request. */
module PoolFallback {
  import opened Options
  import opened RunnerPool
  import opened Sessions
  import opened ResolveCore
  import opened BrokerHandler
  import J = Journey

  /** The outcome GetResolveSession promises, run alone with no session to go on with, on a pool its index misses no
      idle runner of. */
  ghost predicate PoolDecides(w: World, healthy: string -> bool, result: ResolveResult) {
    if HealthyLeft(w, healthy) then result.IsNew() else result.NoRunnerLeft?
  }

  /** The broker's response to that outcome, as the handler writes it. */
  predicate Responds(event: J.Event, result: ResolveResult, stack: string) {
    if result.NoRunnerLeft? then event.Empty?
    else
      && result.Resolved? && ValidRunnerHost(Some(result.host))
      && event.Answers? && event.reply == FoundReply(result, stack)
  }

  /** Every hop gets through, and every broker asked answers from its pool. */
  ghost predicate FromPools(trip: J.Trip, event: J.Event, pools: map<string, World>, healthy: string -> bool) {
    match trip.state
    case Arriving(stack, _, _) =>
      stack in pools && exists result :: PoolDecides(pools[stack], healthy, result) && Responds(event, result, stack)
    case _ => event.Delivered?
  }

  ghost predicate AllFromPools(c: J.Cluster, trip: J.Trip, events: seq<J.Event>, pools: map<string, World>,
                               healthy: string -> bool)
    requires J.Travels(c, trip, events)
    decreases |events|
  {
    events == [] ||
    (FromPools(trip, events[0], pools, healthy) &&
     AllFromPools(c, J.Step(c, trip, events[0]), events[1..], pools, healthy))
  }

  /** The stacks that have a healthy idle runner. */
  ghost function Serving(pools: map<string, World>, healthy: string -> bool): set<string> {
    set stack | stack in pools && HealthyLeft(pools[stack], healthy)
  }

  lemma PoolAnswerIsAsServed(c: J.Cluster, trip: J.Trip, event: J.Event, pools: map<string, World>,
                             healthy: string -> bool)
    requires J.Possible(c, trip, event) && FromPools(trip, event, pools, healthy)
    ensures J.AsServed(c, trip, event, Serving(pools, healthy))
  {
  }

  lemma {:induction false} PoolAnswersAreAsServed(c: J.Cluster, trip: J.Trip, events: seq<J.Event>,
                                                  pools: map<string, World>, healthy: string -> bool)
    requires J.Travels(c, trip, events) && AllFromPools(c, trip, events, pools, healthy)
    ensures J.AllAsServed(c, trip, events, Serving(pools, healthy))
    decreases |events|
  {
    if events != [] {
      PoolAnswerIsAsServed(c, trip, events[0], pools, healthy);
      PoolAnswersAreAsServed(c, J.Step(c, trip, events[0]), events[1..], pools, healthy);
    }
  }

  /**
   A request without a cookie gets its runner from the first stack, in the entry stack's order, whose pool has a
   healthy idle one; if no pool of the cluster has, it ends unserved, with 503.
   */
  lemma FirstHealthyPoolServes(c: J.Cluster, trip: J.Trip, events: seq<J.Event>, pools: map<string, World>,
                               healthy: string -> bool)
    requires J.GoodCluster(c) && J.Enters(c, trip) && trip.state.request.cookie == None
    requires J.Travels(c, trip, events) && AllFromPools(c, trip, events, pools, healthy)
    requires (forall s <- c.names :: s in pools) && J.Outcome(c, trip, events).state.Done?
    ensures var after, order := J.Outcome(c, trip, events), J.OrderFrom(c, trip.state.stack);
            && after.state.servedBy == J.FirstServer(order, Serving(pools, healthy))
            && (after.state.servedBy.Some? ==> after.state.servedBy.value in Serving(pools, healthy))
            && (after.state.servedBy.None? <==> forall s <- c.names :: !HealthyLeft(pools[s], healthy))
            && (after.state.servedBy.None? ==> after.state.status == HTTP_SERVICE_UNAVAILABLE)
  {
    PoolAnswersAreAsServed(c, trip, events, pools, healthy);
    J.FallbackChain(c, trip, events, Serving(pools, healthy));
    J.ServerIfAny(J.OrderFrom(c, trip.state.stack), Serving(pools, healthy));
    assert forall s <- c.names :: s in Serving(pools, healthy) <==> HealthyLeft(pools[s], healthy);
  }
}
