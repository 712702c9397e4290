/**
 Session stickiness across the cluster: a session created by one stack is found again by that stack's
 broker, on the same runner, whichever stack the browser's next request enters.
 */
module Stickiness {
  import opened Options
  import opened RunnerPool
  import opened AcquireWalk
  import opened Brokers
  import opened SessionLife
  import opened SessionIds
  import opened Sessions
  import opened ResolveCore
  import opened BrokerHandler
  import opened Router
  import J = Journey

  /** The index never listed the runner under a host that is not its own. */
  ghost predicate ListedTruly(history: seq<World>, from: nat, k: Key, host: string) {
    forall i :: from <= i < |history| && k in history[i].index ==> history[i].index[k] == host
  }

  /** What a call that came back with a session has left: the session's record, on the runner it was told of. */
  lemma CreatedIsOnRecord(history: seq<World>, from: nat, k: Key, record: Runner, session: SessionId)
    requires Claimed(history, from, k, record, session)
    requires ListedTruly(history, from, k, history[|history| - 1].table[k].host)
    ensures var w := history[|history| - 1];
            BusyWith(w, k, session) && w.table[k].host == record.host
  {
  }

  lemma StepKeepsRecord(sys: System, action: Action, k: Key, session: SessionId)
    requires BusyWith(sys.world, k, session) && Possible(sys, action) && !TakesAway(sys, action, k)
    ensures k in Step(sys, action).world.table && Step(sys, action).world.table[k] == sys.world.table[k]
  {
  }

  lemma {:induction false} RunKeepsRecord(sys: System, actions: seq<Action>, k: Key, session: SessionId)
    requires BusyWith(sys.world, k, session) && Runs(sys, actions) && NeverTaken(sys, actions, k)
    ensures var w := Outcome(sys, actions).world;
            k in w.table && w.table[k] == sys.world.table[k]
    decreases |actions|
  {
    if actions != [] {
      StepKeepsRecord(sys, actions[0], k, session);
      RunKeepsRecord(Step(sys, actions[0]), actions[1..], k, session);
    }
  }

  lemma StaysAlive(sys: System, actions: seq<Action>, k: Key, session: SessionId, healthy: string -> bool)
    requires Exclusive(sys) && BusyWith(sys.world, k, session) && healthy(sys.world.table[k].host)
    requires Runs(sys, actions) && NeverTaken(sys, actions, k)
    ensures AliveOn(Outcome(sys, actions).world, k, session, healthy)
    ensures Outcome(sys, actions).world.table[k].host == sys.world.table[k].host
  {
    RunKeepsRecord(sys, actions, k, session);
    RunKeepsExclusive(sys, actions);
  }

  /** The way of a request with the session's cookie to the broker of its stack. */
  function WayHome(entry: string, home: string): seq<J.Event> {
    if entry == home then [] else [J.Routed, J.Delivered]
  }

  lemma ReachesHome(c: J.Cluster, trip: J.Trip, home: string, hex: string) returns (there: J.Trip)
    requires J.GoodCluster(c) && J.Enters(c, trip) && home in c.names
    requires trip.state.request.cookie == Some(Namespaced(home, hex))
    ensures J.Travels(c, trip, WayHome(trip.state.stack, home))
    ensures there == J.Outcome(c, trip, WayHome(trip.state.stack, home))
    ensures there.state.Arriving? && there.state.stack == home && there.resolutions == []
    ensures there.state.request.cookie == trip.state.request.cookie
    ensures ArrivalOf(J.ConfigOf(c, home), there.state.request) == Here
  {
    J.CookieComesHome(c, trip, home, hex);
    there := J.Outcome(c, trip, WayHome(trip.state.stack, home));
  }

  lemma KeptIsServed(c: J.Cluster, there: J.Trip, home: string, session: SessionId, host: string, upstream: nat)
    requires Cut(session).Some? && ValidRunnerHost(Some(host))
    requires there.state.Arriving? && there.state.stack == home
    requires ArrivalOf(J.ConfigOf(c, home), there.state.request) == Here
    ensures var event := J.Answers(FoundReply(Kept(session, host), home), upstream);
            && J.Possible(c, there, event)
            && Decide(J.ConfigOf(c, home), event.reply)
               == Serve(host, None, None, Some(Cut(session).value.hex), Some(home))
            && J.EndingAt(c, home, there.state.request, event) == Proxies
            && J.Step(c, there, event).resolutions == there.resolutions + [home]
  {
  }

  /**
   Stack B's createSession came back with session s on host h, as recorded in `history`, and B's router gave the
   browser the cookie of the response.  That cookie is s; and then, in any run of all the brokers in which nobody
   deletes the record, and while h is up, a request with it, entering any stack of the cluster, reaches
   B's broker, no other broker being asked.  Whatever world of such a run the index on sessions shows
   that broker, it finds h, or the store fails.  And the request is then served by h, without a new
   cookie, under the same hex and B's name.
   */
  lemma SessionIsSticky(c: J.Cluster, home: string, hex: string, history: seq<World>, from: nat, k: Key, record: Runner,
                        reassigned: bool, sys: System, actions: seq<Action>, healthy: string -> bool,
                        trip: J.Trip, end: Option<ResolveResult>, upstream: nat)
    requires J.GoodCluster(c) && home in c.names
    requires Claimed(history, from, k, record, Namespaced(home, hex))
    requires ListedTruly(history, from, k, history[|history| - 1].table[k].host)
    requires Exclusive(sys) && sys.world == history[|history| - 1]
    requires Runs(sys, actions) && NeverTaken(sys, actions, k)
    requires healthy(record.host) && ValidRunnerHost(Some(record.host))
    requires J.Enters(c, trip)
    requires var made := Resolved(Namespaced(home, hex), hex, record.host, true, reassigned);
             var decision := Decide(J.ConfigOf(c, home), FoundReply(made, home));
             decision.Serve? && trip.state.request.cookie == decision.setCookie
    requires AnsweredFrom(Outcome(sys, actions).world, Namespaced(home, hex), healthy, end)
    ensures trip.state.request.cookie == Some(Namespaced(home, hex))
    ensures end == Some(ResolveFailed) || end == Some(Resolved(Namespaced(home, hex), hex, record.host, false, false))
    ensures J.Travels(c, trip, WayHome(trip.state.stack, home))
    ensures var there := J.Outcome(c, trip, WayHome(trip.state.stack, home));
            && there.state.Arriving? && there.state.stack == home && there.resolutions == []
            && (end.value.Resolved? ==>
                  var event := J.Answers(FoundReply(end.value, home), upstream);
                  && J.Possible(c, there, event)
                  && Decide(J.ConfigOf(c, home), event.reply) == Serve(record.host, None, None, Some(hex), Some(home))
                  && J.EndingAt(c, home, there.state.request, event) == Proxies
                  && J.Step(c, there, event).resolutions == [home])
  {
    var session := Namespaced(home, hex);
    assert J.GoodName(home);
    CutInvertsNamespaced(home, hex);
    CreatedIsOnRecord(history, from, k, record, session);
    StaysAlive(sys, actions, k, session, healthy);
    LiveIsKept(Outcome(sys, actions).world, k, session, healthy, end);
    var there := ReachesHome(c, trip, home, hex);
    KeptIsServed(c, there, home, session, record.host, upstream);
  }
}
