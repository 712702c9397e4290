/** Creating, resolving and closing sessions on top of the repository. */
module Sessions {
  import opened Options
  import opened RunnerPool
  import IdleScan
  import opened AcquireWalk
  import opened DynamoStore
  import opened SessionIds

  datatype CreateResult =
    | Created(session: SessionId, hex: string, runner: Key, record: Runner)
    | NoRunner
    | CreateFailed

  datatype ResolveResult =
    | Resolved(session: SessionId, hex: string, host: string, created: bool, reassigned: bool)
    | NoRunnerLeft
    | ResolveFailed
  {
    predicate IsNew() { Resolved? && created }
  }

  /** What the health checker would say of each host, and when the request is cancelled. */
  datatype Outside = Outside(healthy: string -> bool, cancelled: nat -> bool, start: nat -> Key, hex: string)

  /** An idle runner whose host, as the index lists it, passes the check; that is the host a call checks. */
  predicate HealthyIdle(w: World, healthy: string -> bool, k: Key) {
    IdleAt(w, k) && k in w.index && healthy(w.index[k])
  }

  /** No idle runner is listed under a host it no longer has. */
  predicate CopiesTrue(w: World) {
    forall k <- w.table :: IdleAt(w, k) && k in w.index ==> w.index[k] == w.table[k].host
  }

  predicate OwnHealth(w: World, healthy: string -> bool, k: Key) {
    k in w.table && healthy(w.table[k].host)
  }

  /** Checking the listed hosts is checking the runners' own, whatever is up, exactly when the copies are true. */
  lemma ListedHealthIffCopiesTrue(w: World)
    ensures CopiesTrue(w) <==>
              forall healthy: string -> bool, k | k in Visible(w) ::
                HealthyIdle(w, healthy, k) <==> OwnHealth(w, healthy, k)
  {
    if !CopiesTrue(w) {
      var k :| k in w.table && IdleAt(w, k) && k in w.index && w.index[k] != w.table[k].host;
      var healthy := (h: string) => h == w.table[k].host;
      assert k in Visible(w) && !HealthyIdle(w, healthy, k) && OwnHealth(w, healthy, k);
    }
  }

  /** A runner whose host is up, but which the index still lists under one that is not: the calls see no healthy
      runner. */
  lemma StaleCopyHidesRunner() returns (w: World, healthy: string -> bool)
    ensures IdleKeys(w) == {0} == w.index.Keys && OwnHealth(w, healthy, 0) && !HealthyLeft(w, healthy)
  {
    w := World(map[0 := Runner("new", Idle, 0)], map[0 := "old"], 1);
    healthy := (h: string) => h == "new";
    assert IdleKeys(w) == {0};
  }

  /** The session has its one record on `k`, and its host is up. */
  predicate AliveOn(w: World, k: Key, session: SessionId, healthy: string -> bool) {
    OneRecordPerSession(w) && BusyWith(w, k, session) && healthy(w.table[k].host)
  }

  ghost predicate HealthyLeft(w: World, healthy: string -> bool) {
    exists k :: HealthyIdle(w, healthy, k)
  }

  /** What a call may leave of the table when nobody else was about: only idle records that fail the check are gone. */
  ghost predicate OnlyPurged(before: World, after: World, healthy: string -> bool) {
    && after.table.Keys <= before.table.Keys
    && (forall k <- after.table :: after.table[k] == before.table[k])
    && (forall k <- before.table :: k !in after.table ==>
          IdleAt(before, k) && k in before.index && !healthy(before.index[k]))
    && after.index == before.index && after.registrations == before.registrations
  }

  /** The session's record is gone if its host was down; otherwise there was none, or no session was asked for. */
  ghost predicate Cleared(before: World, base: World, session: SessionId, healthy: string -> bool) {
    || (base == before && (session == "" || forall k :: !BusyWith(before, k, session)))
    || DroppedDead(before, base, session, healthy)
  }

  ghost predicate DroppedDead(before: World, base: World, session: SessionId, healthy: string -> bool) {
    exists k :: BusyWith(before, k, session) && !healthy(before.table[k].host) && base == DeleteRunner(before, k)
  }

  /** There is no session to go on with. */
  ghost predicate NoneAlive(w: World, session: SessionId, healthy: string -> bool) {
    session == "" || forall k :: BusyWith(w, k, session) ==> !healthy(w.table[k].host)
  }

  lemma DropKeepsIdle(w: World, k: Key, session: SessionId, healthy: string -> bool)
    requires BusyWith(w, k, session)
    ensures DeleteRunner(w, k) != w
    ensures IdleKeys(DeleteRunner(w, k)) == IdleKeys(w) && DeleteRunner(w, k).index == w.index
    ensures HealthyLeft(DeleteRunner(w, k), healthy) <==> HealthyLeft(w, healthy)
  {
    var v := DeleteRunner(w, k);
    assert k in w.table && k !in v.table;
    if l :| HealthyIdle(w, healthy, l) {
      assert HealthyIdle(v, healthy, l);
    }
    if l :| HealthyIdle(v, healthy, l) {
      assert HealthyIdle(w, healthy, l);
    }
  }

  lemma PurgeOne(first: World, before: World, k: Key, s: SessionId, healthy: string -> bool)
    requires OnlyPurged(first, before, healthy) && IdleAt(before, k) && k in before.index && !healthy(before.index[k])
    ensures OnlyPurged(first, DeleteRunner(AssignSession(before, k, s), k), healthy)
  {
  }

  /** Purging touches no healthy idle runner. */
  lemma PurgedKeepsHealthy(first: World, now: World, healthy: string -> bool)
    requires OnlyPurged(first, now, healthy)
    ensures IdleKeys(now) <= IdleKeys(first)
    ensures HealthyLeft(first, healthy) <==> HealthyLeft(now, healthy)
    ensures IdleKeys(first) <= first.index.Keys && Visible(now) == {} ==>
              IdleKeys(now) == {} && !HealthyLeft(first, healthy)
  {
    if k :| HealthyIdle(first, healthy, k) {
      assert HealthyIdle(now, healthy, k);
    }
    if k :| HealthyIdle(now, healthy, k) {
      assert HealthyIdle(first, healthy, k);
    }
    if IdleKeys(first) <= first.index.Keys {
      assert IdleKeys(now) <= now.index.Keys;
      assert Visible(now) == IdleKeys(now);
      if HealthyLeft(now, healthy) {
        var k :| HealthyIdle(now, healthy, k);
        assert k in IdleKeys(now);
      }
    }
  }

  /** Entry i of the history turned the idle runner over to the session, under a host that is down, and the last entry
      deletes it. */
  ghost predicate PurgedAt(history: seq<World>, from: nat, i: nat, k: Key, host: string, session: SessionId) {
    && from < i < |history| - 1
    && IdleAt(history[i - 1], k) && history[i] == AssignSession(history[i - 1], k, session)
    && WasListed(history, from, k, host)
    && history[|history| - 1] == DeleteRunner(history[|history| - 2], k)
  }

  ghost predicate PurgedIn(history: seq<World>, from: nat, session: SessionId, healthy: string -> bool) {
    exists i: nat, k, host :: PurgedAt(history, from, i, k, host, session) && !healthy(host)
  }

  lemma ClaimThenPurge(claimed: seq<World>, history: seq<World>, from: nat, k: Key, record: Runner, session: SessionId,
                       healthy: string -> bool)
    requires Claimed(claimed, from, k, record, session) && claimed < history && !healthy(record.host)
    requires history[|history| - 1] == DeleteRunner(history[|history| - 2], k)
    ensures PurgedIn(history, from, session, healthy)
  {
    var i := |claimed| - 1;
    assert history[i] == claimed[i] && history[i - 1] == claimed[i - 1];
    var l :| from <= l < |claimed| && k in claimed[l].index && claimed[l].index[k] == record.host;
    assert history[l] == claimed[l];
    assert PurgedAt(history, from, i, k, record.host, session);
  }

  /** One idle record whose listed host failed the check was claimed and deleted. */
  ghost predicate PurgedOne(before: World, after: World, session: SessionId, healthy: string -> bool) {
    exists k :: IdleAt(before, k) && k in before.index && !healthy(before.index[k])
             && after == DeleteRunner(AssignSession(before, k, session), k)
  }

  /** What one round came to with nobody else about. */
  ghost predicate TriedAlone(left: World, now: World, session: SessionId, healthy: string -> bool,
                             end: Option<CreateResult>) {
    match end
    case None => PurgedOne(left, now, session, healthy)
    case Some(Created(_, _, k, record)) =>
      HealthyIdle(left, healthy, k) && record.host == left.index[k] && now == AssignSession(left, k, session)
    case Some(NoRunner) => now == left && Visible(left) == {}
    case Some(CreateFailed) => true
  }

  lemma RoundPurges(first: World, before: World, after: World, session: SessionId, healthy: string -> bool)
    requires TriedAlone(before, after, session, healthy, None)
    ensures |IdleKeys(after)| < |IdleKeys(before)|
    ensures OnlyPurged(first, before, healthy) ==> OnlyPurged(first, after, healthy)
  {
    var k :| IdleAt(before, k) && k in before.index && !healthy(before.index[k])
             && after == DeleteRunner(AssignSession(before, k, session), k);
    LosesIdle(before, k, session);
    if OnlyPurged(first, before, healthy) {
      PurgeOne(first, before, k, session, healthy);
    }
  }

  lemma LastRoundAlone(before: World, left: World, now: World, session: SessionId, healthy: string -> bool,
                       result: CreateResult)
    requires OnlyPurged(before, left, healthy) && TriedAlone(left, now, session, healthy, Some(result))
    ensures IdleKeys(before) <= before.index.Keys && !result.CreateFailed? ==>
              (result.Created? <==> HealthyLeft(before, healthy)) && (result.NoRunner? ==> IdleKeys(now) == {})
  {
    PurgedKeepsHealthy(before, left, healthy);
  }

  lemma NoneSinceEarlier(history: seq<World>, from: nat, later: nat)
    requires from <= later && NoneVisibleSince(history, later)
    ensures NoneVisibleSince(history, from)
  {
    forall k
      ensures !VisibleSince(history, from, k)
    {
      assert VisibleSince(history, from, k) ==> VisibleSince(history, later, k);
    }
  }

  lemma ClaimedSinceEarlier(history: seq<World>, from: nat, later: nat, k: Key, record: Runner, s: SessionId)
    requires from <= later && Claimed(history, later, k, record, s)
    ensures Claimed(history, from, k, record, s)
  {
    var i :| later <= i < |history| && k in history[i].index && history[i].index[k] == record.host;
  }

  lemma GotItsRunner(history: seq<World>, from: nat, later: nat, k: Key, record: Runner, s: SessionId)
    requires from <= later && Claimed(history, later, k, record, s)
    ensures GotRunner(history, from, s, record.host)
  {
    ClaimedSinceEarlier(history, from, later, k, record, s);
  }

  lemma LosesIdle(before: World, k: Key, s: SessionId)
    requires IdleAt(before, k)
    ensures IdleKeys(DeleteRunner(AssignSession(before, k, s), k)) == IdleKeys(before) - {k}
    ensures |IdleKeys(DeleteRunner(AssignSession(before, k, s), k))| < |IdleKeys(before)|
  {
  }

  /** Some world of the call had the session on that record. */
  ghost predicate FoundIn(history: seq<World>, from: nat, k: Key, session: SessionId) {
    exists i :: from <= i < |history| && BusyWith(history[i], k, session)
  }

  lemma SeenIn(seen: seq<World>, history: seq<World>, at: nat, from: nat, k: Key, session: SessionId)
    requires from <= at < |seen| && seen <= history && BusyWith(seen[at], k, session)
    ensures FoundIn(history, from, k, session)
  {
    assert history[at] == seen[at];
  }

  ghost predicate MissingIn(history: seq<World>, from: nat, session: SessionId) {
    exists i :: from <= i < |history| && NoRecord(history[i], session)
  }

  /** The last thing that happened is that an idle runner, listed under this host, was turned over to the session. */
  ghost predicate GotRunner(history: seq<World>, from: nat, session: SessionId, host: string) {
    exists k, record :: Claimed(history, from, k, record, session) && record.host == host
  }

  // ---- Answering from a session's record ------------------------------------------------

  /** The session has a record on this host. */
  ghost predicate RecordOn(w: World, session: SessionId, host: string) {
    exists k :: BusyWith(w, k, session) && w.table[k].host == host
  }

  /** `end` is what looking the session up in `w` can come to; None when a new session is wanted. */
  ghost predicate AnsweredFrom(w: World, session: SessionId, healthy: string -> bool, end: Option<ResolveResult>) {
    match end
    case None =>
      || session == ""
      || (forall k :: !BusyWith(w, k, session))
      || exists k :: BusyWith(w, k, session) && !healthy(w.table[k].host)
    case Some(Resolved(s, hex, host, created, reassigned)) =>
      && session != "" && s == session && !created && !reassigned
      && RecordOn(w, session, host) && healthy(host)
      && Cut(session).Some? && Cut(session).value.hex == hex
    case Some(NoRunnerLeft) => false
    case Some(ResolveFailed) => session != ""
  }

  ghost predicate AnsweredDuring(history: seq<World>, from: nat, session: SessionId, healthy: string -> bool,
                                 end: Option<ResolveResult>) {
    exists i :: from <= i < |history| && AnsweredFrom(history[i], session, healthy, end)
  }

  /** The session as it was: the same id, the same host, nothing new. */
  function Kept(session: SessionId, host: string): ResolveResult
    requires Cut(session).Some?
  {
    Resolved(session, Cut(session).value.hex, host, false, false)
  }

  /** A live session is answered from its record, unless the store fails. */
  lemma LiveIsKept(w: World, k: Key, session: SessionId, healthy: string -> bool, end: Option<ResolveResult>)
    requires AliveOn(w, k, session, healthy) && session != "" && Cut(session).Some?
    requires AnsweredFrom(w, session, healthy, end)
    ensures end == Some(ResolveFailed) || end == Some(Kept(session, w.table[k].host))
  {
    forall l | BusyWith(w, l, session)
      ensures l == k
    {
    }
  }

  /**
   When a session whose host is up goes on as it was: unless the store fails, exactly when the world in which it
   was looked up, which the index on sessions may show late, has its record on that host.
   */
  ghost predicate KeptIffShown(w: World, session: SessionId, healthy: string -> bool, result: ResolveResult)
    requires Cut(session).Some?
  {
    OneRecordPerSession(w) ==>
      forall host :: healthy(host) ==> (result == Kept(session, host) <==> RecordOn(w, session, host))
  }

  ghost predicate KeptIffShownDuring(history: seq<World>, from: nat, session: SessionId, healthy: string -> bool,
                                     result: ResolveResult)
    requires Cut(session).Some?
  {
    exists i :: from <= i < |history| && KeptIffShown(history[i], session, healthy, result)
  }

  /** The result is what the look-up came to, or that of making a new session. */
  lemma AnswerKeepsShown(w: World, session: SessionId, healthy: string -> bool, end: Option<ResolveResult>,
                         result: ResolveResult)
    requires session != "" && Cut(session).Some? && result != ResolveFailed
    requires AnsweredFrom(w, session, healthy, end)
    requires if end.Some? then end.value == result else !result.Resolved? || result.created
    ensures KeptIffShown(w, session, healthy, result)
  {
    if OneRecordPerSession(w) {
      forall host | healthy(host)
        ensures result == Kept(session, host) <==> RecordOn(w, session, host)
      {
        if k :| BusyWith(w, k, session) && w.table[k].host == host {
          LiveIsKept(w, k, session, healthy, end);
        }
      }
    }
  }

  lemma AnswerKeepsShownDuring(looked: seq<World>, history: seq<World>, from: nat, session: SessionId,
                               healthy: string -> bool, end: Option<ResolveResult>, result: ResolveResult)
    requires session != "" && Cut(session).Some? && result != ResolveFailed && looked <= history
    requires AnsweredDuring(looked, from, session, healthy, end)
    requires if end.Some? then end.value == result else !result.Resolved? || result.created
    ensures KeptIffShownDuring(history, from, session, healthy, result)
  {
    var i :| from <= i < |looked| && AnsweredFrom(looked[i], session, healthy, end);
    assert history[i] == looked[i];
    AnswerKeepsShown(looked[i], session, healthy, end, result);
  }

  /** A session that its runner serves, but that the index on sessions does not show yet: a new one is made. */
  lemma LateIndexLosesSession(session: SessionId, healthy: string -> bool) returns (now: World, shown: World)
    requires session != "" && Cut(session).Some? && healthy("host")
    ensures AliveOn(now, 0, session, healthy)
    ensures now == AssignSession(shown, 0, session)
    ensures forall end :: AnsweredFrom(shown, session, healthy, end) ==> end == None || end == Some(ResolveFailed)
  {
    shown := World(map[0 := Runner("host", Idle, 0)], map[0 := "host"], 1);
    now := AssignSession(shown, 0, session);
  }

  ghost predicate AliveThroughout(history: seq<World>, from: nat, k: Key, session: SessionId, host: string,
                                  healthy: string -> bool) {
    forall i :: from <= i < |history| ==> AliveOn(history[i], k, session, healthy) && history[i].table[k].host == host
  }

  /** If the session was alive on one host all the time, it is answered with that host, unless the store failed. */
  ghost predicate KeptIfAlive(history: seq<World>, from: nat, session: SessionId, healthy: string -> bool,
                              result: ResolveResult)
    requires Cut(session).Some?
  {
    forall k, host :: AliveThroughout(history, from, k, session, host, healthy) ==>
      result == ResolveFailed || result == Kept(session, host)
  }

  lemma FoundAnswers(w: World, k: Key, session: SessionId, healthy: string -> bool)
    requires BusyWith(w, k, session)
    ensures RecordOn(w, session, w.table[k].host)
    ensures !healthy(w.table[k].host) ==> AnsweredFrom(w, session, healthy, None)
  {
  }

  /** The session was on a host that is down, in a world since `from`, and what was under that id was deleted later. */
  ghost predicate DroppedAt(history: seq<World>, i: nat, j: nat, k: Key, session: SessionId, healthy: string -> bool) {
    && i < j < |history| && BusyWith(history[i], k, session) && !healthy(history[i].table[k].host)
    && history[j] == DeleteRunner(history[j - 1], k)
  }

  ghost predicate DroppedIn(history: seq<World>, from: nat, session: SessionId, healthy: string -> bool) {
    exists i: nat, j: nat, k :: from <= i && DroppedAt(history, i, j, k, session, healthy)
  }

  /** Why a new session is wanted: a dead record was dropped, or there was none, or no session was asked for. */
  ghost predicate WantsNew(history: seq<World>, from: nat, session: SessionId, healthy: string -> bool, dropped: bool) {
    if dropped then DroppedIn(history, from, session, healthy) else session == "" || MissingIn(history, from, session)
  }

  lemma WantsNewStill(looked: seq<World>, history: seq<World>, from: nat, session: SessionId, healthy: string -> bool,
                      dropped: bool)
    requires WantsNew(looked, from, session, healthy, dropped) && looked <= history
    ensures WantsNew(history, from, session, healthy, dropped)
  {
    if dropped {
      var i: nat, j: nat, k :| from <= i && DroppedAt(looked, i, j, k, session, healthy);
      assert history[i] == looked[i] && history[j] == looked[j] && history[j - 1] == looked[j - 1];
      assert DroppedAt(history, i, j, k, session, healthy);
    } else if session != "" {
      var i :| from <= i < |looked| && NoRecord(looked[i], session);
      assert history[i] == looked[i];
    }
  }

  lemma DeadThenDropped(asked: seq<World>, history: seq<World>, from: nat, at: nat, k: Key, session: SessionId,
                        healthy: string -> bool)
    requires from <= at < |asked| && asked < history
    requires BusyWith(asked[at], k, session) && !healthy(asked[at].table[k].host)
    requires history[|history| - 1] == DeleteRunner(history[|history| - 2], k)
    ensures DroppedIn(history, from, session, healthy)
  {
    assert history[at] == asked[at];
    assert DroppedAt(history, at, |history| - 1, k, session, healthy);
  }

  lemma NoRecordStays(w: World, v: World, session: SessionId)
    requires NoRecord(w, session) && w.table == v.table
    ensures NoRecord(v, session)
  {
    forall k
      ensures !BusyWith(v, k, session)
    {
      assert !BusyWith(w, k, session);
    }
  }

  lemma DeadIsDropped(w: World, k: Key, session: SessionId, healthy: string -> bool)
    requires BusyWith(w, k, session) && !healthy(w.table[k].host)
    ensures DroppedDead(w, DeleteRunner(w, k), session, healthy)
  {
  }

  lemma AnsweredBy(asked: seq<World>, at: nat, history: seq<World>, from: nat, session: SessionId,
                   healthy: string -> bool, end: Option<ResolveResult>)
    requires from <= at < |asked| && asked <= history && AnsweredFrom(asked[at], session, healthy, end)
    ensures AnsweredDuring(history, from, session, healthy, end)
  {
    assert history[at] == asked[at];
  }

  lemma AnswerKeepsAlive(looked: seq<World>, history: seq<World>, from: nat, session: SessionId,
                         healthy: string -> bool, end: Option<ResolveResult>, result: ResolveResult)
    requires session != "" && Cut(session).Some? && looked <= history
    requires AnsweredDuring(looked, from, session, healthy, end) && (end.Some? ==> end.value == result)
    ensures KeptIfAlive(history, from, session, healthy, result)
  {
    var i :| from <= i < |looked| && AnsweredFrom(looked[i], session, healthy, end);
    forall k, host | AliveThroughout(history, from, k, session, host, healthy)
      ensures result == ResolveFailed || result == Kept(session, host)
    {
      assert history[i] == looked[i];
      LiveIsKept(looked[i], k, session, healthy, end);
    }
  }

  lemma AnswerKeeps(looked: seq<World>, history: seq<World>, from: nat, session: SessionId, healthy: string -> bool,
                    end: Option<ResolveResult>, result: ResolveResult)
    requires session != "" && Cut(session).Some? && looked <= history
    requires AnsweredDuring(looked, from, session, healthy, end)
    requires if end.Some? then end.value == result else !result.Resolved? || result.created
    ensures KeptIfAlive(history, from, session, healthy, result)
    ensures result != ResolveFailed ==> KeptIffShownDuring(history, from, session, healthy, result)
  {
    AnswerKeepsAlive(looked, history, from, session, healthy, end, result);
    if result != ResolveFailed {
      AnswerKeepsShownDuring(looked, history, from, session, healthy, end, result);
    }
  }

  // ---- With nobody else about ----------------------------------------------------------

  /** A live session is answered and nothing changed, a dead record is dropped and only that. */
  ghost predicate LookedUpAlone(before: World, base: World, now: World, session: SessionId, outside: Outside,
                                end: Option<ResolveResult>, reassigned: bool) {
    && (session != "" ==>
          forall k :: AliveOn(before, k, session, outside.healthy) && Cut(session).Some? ==>
            now == before && end == Some(Kept(session, before.table[k].host)))
    && (NoneAlive(before, session, outside.healthy) && (forall n :: !outside.cancelled(n)) ==> end.None?)
    && (end.None? ==>
          && base == now && Cleared(before, base, session, outside.healthy)
          && IdleKeys(base) == IdleKeys(before) && base.index == before.index
          && (HealthyLeft(base, outside.healthy) <==> HealthyLeft(before, outside.healthy))
          && (reassigned <==> base != before))
  }

  /** A healthy idle runner for the new session, if the index misses none; `left` is the world before it was claimed. */
  ghost predicate NewAlone(before: World, left: World, now: World, outside: Outside, result: ResolveResult) {
    && OnlyPurged(before, left, outside.healthy)
    && (result.Resolved? ==>
          exists k :: HealthyIdle(left, outside.healthy, k) && left.index[k] == result.host
                   && now == AssignSession(left, k, result.session))
    && (result.NoRunnerLeft? ==> now == left && Visible(left) == {})
    && (IdleKeys(before) <= before.index.Keys && (forall n :: !outside.cancelled(n)) ==>
          if HealthyLeft(before, outside.healthy) then result.Resolved? else result.NoRunnerLeft?)
  }

  /** Both together, by way of `base`. */
  ghost predicate ResolvedAlone(before: World, base: World, left: World, now: World, session: SessionId,
                                outside: Outside, result: ResolveResult) {
    && (session != "" ==>
          forall k :: AliveOn(before, k, session, outside.healthy) && Cut(session).Some? ==>
            now == before && result == Kept(session, before.table[k].host))
    && (result.NoRunnerLeft? || result.IsNew() ==>
          Cleared(before, base, session, outside.healthy) && OnlyPurged(base, left, outside.healthy))
    && (result.IsNew() ==>
          && (result.reassigned <==> base != before)
          && exists k :: HealthyIdle(left, outside.healthy, k) && left.index[k] == result.host
                      && now == AssignSession(left, k, result.session))
    && (result.NoRunnerLeft? ==> now == left && Visible(left) == {})
    && (IdleKeys(before) <= before.index.Keys && (forall n :: !outside.cancelled(n))
        && NoneAlive(before, session, outside.healthy) ==>
          if HealthyLeft(before, outside.healthy) then result.IsNew() else result.NoRunnerLeft?)
  }

  lemma DeadAlone(w: World, k: Key, session: SessionId, outside: Outside)
    requires BusyWith(w, k, session) && !outside.healthy(w.table[k].host)
    ensures LookedUpAlone(w, DeleteRunner(w, k), DeleteRunner(w, k), session, outside, None, true)
  {
    DropKeepsIdle(w, k, session, outside.healthy);
    DeadIsDropped(w, k, session, outside.healthy);
  }

  lemma BothHalvesAlone(before: World, base: World, left: World, now: World, session: SessionId, outside: Outside,
                        end: Option<ResolveResult>, reassigned: bool, result: ResolveResult)
    requires if end.Some? then
               end.value == result && LookedUpAlone(before, base, now, session, outside, end, reassigned)
             else
               && LookedUpAlone(before, base, base, session, outside, end, reassigned)
               && NewAlone(base, left, now, outside, result)
               && (result.Resolved? ==> result.created && result.reassigned == reassigned)
    requires end.Some? ==> !end.value.NoRunnerLeft? && (end.value.Resolved? ==> !end.value.created)
    ensures ResolvedAlone(before, base, left, now, session, outside, result)
  {
  }

  /** No cancellation after any of the first rounds. */
  ghost predicate GoesOn(outside: Outside, rounds: nat) {
    forall n :: 0 <= n < rounds ==> !outside.cancelled(n)
  }

  lemma OneMore(outside: Outside, rounds: nat)
    requires GoesOn(outside, rounds) && !outside.cancelled(rounds)
    ensures GoesOn(outside, rounds + 1)
  {
  }

  class BrokerService {
    const repo: DynamoRepository
    const stackPrefix: string

    constructor (repo: DynamoRepository, stackPrefix: string)
      requires stackPrefix != ""
      ensures this.repo == repo && this.stackPrefix == stackPrefix
    {
      this.repo, this.stackPrefix := repo, stackPrefix;
    }

    /** The runner is down: delete what is under its id, unless the request has been cancelled meanwhile. */
    method DropDead(k: Key, cancelled: bool) returns (dropped: bool)
      requires repo.Valid()
      modifies repo
      ensures repo.Valid() && old(repo.history) <= repo.history && |repo.script| <= |old(repo.script)|
      ensures repo.acquires == old(repo.acquires) && Stock(repo.Now()) <= Stock(old(repo.Now()))
      ensures dropped ==>
                && |repo.history| > |old(repo.history)|
                && repo.Now() == DeleteRunner(repo.history[|repo.history| - 2], k)
      ensures dropped ==> !cancelled
      ensures old(repo.Faultless()) ==> repo.Faultless() && (dropped <==> !cancelled)
      ensures old(repo.Alone()) ==> repo.Alone()
      ensures old(repo.Alone()) && dropped ==> repo.Now() == DeleteRunner(old(repo.Now()), k)
    {
      if cancelled {
        return false;
      }
      ghost var at := |repo.history| - 1;
      var write; ghost var past;
      write, past := repo.Delete(k);
      StockFalls(repo.history, at);
      dropped := !write.WriteFailed?;
    }

    /** The same for a runner just claimed. */
    method PurgeClaimed(k: Key, cancelled: bool, ghost from: nat, ghost record: Runner, ghost session: SessionId,
                        ghost healthy: string -> bool)
      returns (dropped: bool)
      requires repo.Valid() && Claimed(repo.history, from, k, record, session) && !healthy(record.host)
      modifies repo
      ensures repo.Valid() && old(repo.history) <= repo.history && |repo.script| <= |old(repo.script)|
      ensures repo.acquires == old(repo.acquires) && Stock(repo.Now()) <= Stock(old(repo.Now()))
      ensures dropped ==> PurgedIn(repo.history, from, session, healthy)
      ensures dropped ==> !cancelled
      ensures old(repo.Faultless()) ==> repo.Faultless() && (dropped <==> !cancelled)
      ensures old(repo.Alone()) ==> repo.Alone()
      ensures old(repo.Alone()) && dropped ==> repo.Now() == DeleteRunner(old(repo.Now()), k)
    {
      ghost var claimed := repo.history;
      dropped := DropDead(k, cancelled);
      if dropped {
        ClaimThenPurge(claimed, repo.history, from, k, record, session, healthy);
      }
    }

    /** One round of CreateSession; None when the runner was unhealthy and its record is deleted. */
    method TryRunner(session: SessionId, round: nat, outside: Outside)
      returns (end: Option<CreateResult>, ghost left: World)
      requires repo.Valid()
      modifies repo
      ensures repo.Valid() && old(repo.history) <= repo.history && |repo.script| <= |old(repo.script)|
      ensures !old(repo.Alone()) ==> |repo.script| < |old(repo.script)|
      ensures repo.acquires == old(repo.acquires) + 1
      ensures Stock(repo.Now()) + (if end.None? then 1 else 0) <= Stock(old(repo.Now()))
      ensures end.Some? && end.value.Created? ==>
                && end.value.session == session && end.value.hex == outside.hex
                && Claimed(repo.history, |old(repo.history)| - 1, end.value.runner, end.value.record, session)
                && outside.healthy(end.value.record.host)
      ensures end.Some? && end.value.NoRunner? ==> NoneVisibleSince(repo.history, |old(repo.history)| - 1)
      ensures old(repo.Alone()) ==>
                repo.Alone() && left == old(repo.Now()) && TriedAlone(left, repo.Now(), session, outside.healthy, end)
      ensures end.None? ==>
                !outside.cancelled(round) && PurgedIn(repo.history, |old(repo.history)| - 1, session, outside.healthy)
      ensures old(repo.Faultless()) ==> repo.Faultless()
      ensures old(repo.Faultless()) && end.Some? && end.value.CreateFailed? ==> outside.cancelled(round)
    {
      left := repo.Now();
      ghost var from := |repo.history| - 1;
      var acquired; ghost var path;
      acquired, path := repo.AcquireIdle(session, outside.start(round));
      StockFalls(repo.history, from);
      match acquired {
        case NoIdleRunner => end := Some(NoRunner);
        case AcquireFailed => end := Some(CreateFailed);
        case Acquired(k, record) =>
          ClaimTakesStock(repo.history, from, k, record, session);
          if outside.healthy(record.host) {
            return Some(Created(session, outside.hex, k, record)), left;
          }
          var dropped := PurgeClaimed(k, outside.cancelled(round), from, record, session, outside.healthy);
          end := if dropped then None else Some(CreateFailed);
      }
    }

    /**
     Acquire runners until one is healthy, deleting the others: at most one more than were idle or
     have registered since.  `left` is the world in which the
     last round began.  Health is that of the hosts the index lists.  Run alone, on an index that
     misses no idle runner, the call succeeds iff some idle runner is healthy; it deletes only
     idle records that fail the check; and when it ends without a runner no idle record is left.
     */
    method CreateSession(outside: Outside) returns (result: CreateResult, ghost left: World)
      requires repo.Valid()
      modifies repo
      ensures repo.Valid() && old(repo.history) <= repo.history && |repo.script| <= |old(repo.script)|
      ensures old(repo.acquires) < repo.acquires
      ensures GoesOn(outside, repo.acquires - old(repo.acquires) - 1)
      ensures repo.acquires - old(repo.acquires) <=
              1 + |IdleKeys(old(repo.Now()))| + (repo.registrations - old(repo.registrations))
      ensures result.Created? ==>
                && result.session == Namespaced(stackPrefix, outside.hex) && result.hex == outside.hex
                && Claimed(repo.history, |old(repo.history)| - 1, result.runner, result.record, result.session)
                && outside.healthy(result.record.host)
      ensures result.NoRunner? ==> NoneVisibleSince(repo.history, |old(repo.history)| - 1)
      ensures old(repo.Faultless()) && (forall n :: !outside.cancelled(n)) ==> !result.CreateFailed?
      ensures old(repo.Alone()) ==>
                && repo.Alone() && OnlyPurged(old(repo.Now()), left, outside.healthy)
                && TriedAlone(left, repo.Now(), Namespaced(stackPrefix, outside.hex), outside.healthy, Some(result))
      ensures old(repo.Alone()) && IdleKeys(old(repo.Now())) <= old(repo.index).Keys
              && (forall n :: !outside.cancelled(n)) ==>
                && !result.CreateFailed?
                && (result.Created? <==> HealthyLeft(old(repo.Now()), outside.healthy))
                && (result.NoRunner? ==> IdleKeys(repo.Now()) == {})
    {
      var session := Namespaced(stackPrefix, outside.hex);
      var round := 0;
      while true
        invariant repo.Valid() && old(repo.history) <= repo.history && |repo.script| <= |old(repo.script)|
        invariant old(repo.Faultless()) ==> repo.Faultless()
        invariant round == repo.acquires - old(repo.acquires)
        invariant GoesOn(outside, round)
        invariant Stock(repo.Now()) + (repo.acquires - old(repo.acquires)) <= Stock(old(repo.Now()))
        invariant old(repo.Alone()) ==>
                    repo.Alone() && OnlyPurged(old(repo.Now()), repo.Now(), outside.healthy)
        decreases |repo.script|, |IdleKeys(repo.Now())|
      {
        ghost var earlier := repo.history;
        ghost var quiet := repo.Alone();
        var end;
        end, left := TryRunner(session, round, outside);
        if end.Some? {
          result := end.value;
          if result.Created? {
            ClaimedSinceEarlier(repo.history, |old(repo.history)| - 1, |earlier| - 1,
                                result.runner, result.record, session);
          }
          if result.NoRunner? {
            NoneSinceEarlier(repo.history, |old(repo.history)| - 1, |earlier| - 1);
          }
          if old(repo.Alone()) {
            LastRoundAlone(old(repo.Now()), left, repo.Now(), session, outside.healthy, result);
          }
          return;
        }
        if quiet {
          RoundPurges(old(repo.Now()), left, repo.Now(), session, outside.healthy);
        }
        OneMore(outside, round);
        round := round + 1;
      }
    }

    /** Delete the session's record, as the index on sessions shows it; whoever else acts, only that id's record
        goes. */
    method CloseSession(session: SessionId) returns (closed: FindResult)
      requires repo.Valid()
      modifies repo
      ensures repo.Valid() && old(repo.history) <= repo.history
      ensures closed.NotFound? ==> MissingIn(repo.history, old(repo.shownAt), session)
      ensures closed.Found? ==>
                && FoundIn(repo.history, old(repo.shownAt), closed.runner, session)
                && |repo.history| > |old(repo.history)|
                && repo.Now() == DeleteRunner(repo.history[|repo.history| - 2], closed.runner)
      ensures old(repo.Faultless()) ==> !closed.FindFailed?
      ensures old(repo.Alone()) && closed.NotFound? ==> repo.Now() == old(repo.Now())
      ensures old(repo.Settled()) && closed.NotFound? ==> NoRecord(old(repo.Now()), session)
      ensures old(repo.Settled()) && closed.Found? ==>
                && BusyWith(old(repo.Now()), closed.runner, session)
                && repo.Now() == DeleteRunner(old(repo.Now()), closed.runner)
    {
      closed := repo.FindBySessionID(session);
      ghost var at, seen := repo.shownAt, repo.history;
      assert repo.Shown() == seen[at];
      if old(repo.Settled()) && closed.NotFound? {
        NoRecordStays(seen[at], repo.Now(), session);
      }
      if closed.Found? {
        var write; ghost var past;
        write, past := repo.Delete(closed.runner);
        SeenIn(seen, repo.history, at, old(repo.shownAt), closed.runner, session);
        if write.WriteFailed? {
          closed := FindFailed;
        }
      }
    }

    /** The first half of ResolveSession: None when a new session is wanted, the dead record being deleted. */
    method LookUp(session: SessionId, outside: Outside)
      returns (end: Option<ResolveResult>, reassigned: bool, ghost base: World)
      requires repo.Valid()
      modifies repo
      ensures repo.Valid() && old(repo.history) <= repo.history && |repo.script| <= |old(repo.script)|
      ensures end.None? ==> base == repo.Now()
      ensures AnsweredDuring(repo.history, old(repo.shownAt), session, outside.healthy, end)
      ensures end.Some? && end.value.Resolved? ==>
                !end.value.created && !end.value.reassigned && end.value.session == session != ""
      ensures end.Some? ==> !end.value.NoRunnerLeft?
      ensures end.None? ==> WantsNew(repo.history, old(repo.shownAt), session, outside.healthy, reassigned)
      ensures reassigned ==> !outside.cancelled(0)
      ensures old(repo.Faultless()) ==> repo.Faultless()
      ensures old(repo.Faultless()) && !outside.cancelled(0) && (session == "" || Cut(session).Some?) ==>
                end != Some(ResolveFailed)
      ensures old(repo.Settled()) ==>
                LookedUpAlone(old(repo.Now()), base, repo.Now(), session, outside, end, reassigned)
      ensures old(repo.Settled()) && end.None? ==> repo.Alone()
    {
      end, reassigned, base := None, false, repo.Now();
      ghost var from, settled := repo.shownAt, repo.Settled();
      if session == "" {
        AnsweredBy(repo.history, from, repo.history, from, session, outside.healthy, end);
        return;
      }
      var found := repo.FindBySessionID(session);
      base := repo.Now();
      ghost var at, asked := repo.shownAt, repo.history;
      assert repo.Shown() == asked[at];
      assert settled ==> asked[at].table == repo.Now().table;
      match found {
        case FindFailed => end := Some(ResolveFailed);
        case NotFound =>
          assert MissingIn(repo.history, from, session);
          if settled {
            NoRecordStays(asked[at], repo.Now(), session);
          }
        case Found(k, record) =>
          FoundAnswers(asked[at], k, session, outside.healthy);
          if outside.healthy(record.host) {
            match Cut(session) {
              case None => end := Some(ResolveFailed);
              case Some(parts) => end := Some(Resolved(session, parts.hex, record.host, false, false));
            }
          } else {
            if settled {
              DeadAlone(repo.Now(), k, session, outside);
            }
            reassigned := DropDead(k, outside.cancelled(0));
            base := repo.Now();
            if reassigned {
              DeadThenDropped(asked, repo.history, from, at, k, session, outside.healthy);
            } else {
              end := Some(ResolveFailed);
            }
          }
      }
      AnsweredBy(asked, at, repo.history, from, session, outside.healthy, end);
    }

    /** The second half: make a new session. */
    method ResolveNew(reassigned: bool, outside: Outside, ghost from: nat)
      returns (result: ResolveResult, ghost left: World)
      requires repo.Valid() && from < |repo.history|
      modifies repo
      ensures repo.Valid() && old(repo.history) <= repo.history
      ensures result.Resolved? ==>
                && result.created && result.reassigned == reassigned
                && result.session == Namespaced(stackPrefix, outside.hex) && result.hex == outside.hex
                && outside.healthy(result.host)
      ensures result.Resolved? ==> GotRunner(repo.history, from, result.session, result.host)
      ensures result.NoRunnerLeft? ==> NoneVisibleSince(repo.history, from)
      ensures old(repo.Faultless()) && (forall n :: !outside.cancelled(n)) ==> result != ResolveFailed
      ensures old(repo.Alone()) ==> NewAlone(old(repo.Now()), left, repo.Now(), outside, result)
    {
      ghost var later := |repo.history| - 1;
      var create;
      create, left := CreateSession(outside);
      match create {
        case Created(s, hex, k, record) =>
          result := Resolved(s, hex, record.host, true, reassigned);
          GotItsRunner(repo.history, from, later, k, record, s);
        case NoRunner =>
          result := NoRunnerLeft;
          NoneSinceEarlier(repo.history, from, later);
        case CreateFailed => result := ResolveFailed;
      }
    }

    /**
     Resolve a session cookie ("" when there is none).  A session whose record has been on a healthy
     runner ever since the world the index on sessions shows is answered from that record, whatever
     the others do, unless the store fails; alone, nothing changes then.  A session whose runner is dead loses its
     record, and only that; `base` is the table after that.  Such a session and an unknown
     one get a new one, marked reassigned in the first case; run alone, on indexes that
     are up to date, they get it iff some idle runner is healthy.
     */
    method ResolveSession(session: SessionId, outside: Outside)
      returns (result: ResolveResult, ghost base: World, ghost left: World)
      requires repo.Valid()
      modifies repo
      ensures repo.Valid() && old(repo.history) <= repo.history
      ensures old(repo.Settled()) ==>
                ResolvedAlone(old(repo.Now()), base, left, repo.Now(), session, outside, result)
      ensures session != "" && Cut(session).Some? ==>
                && KeptIfAlive(repo.history, old(repo.shownAt), session, outside.healthy, result)
                && (result != ResolveFailed ==>
                      KeptIffShownDuring(repo.history, old(repo.shownAt), session, outside.healthy, result))
      ensures result.Resolved? && result.created ==>
                && result.session == Namespaced(stackPrefix, outside.hex) && result.hex == outside.hex
                && outside.healthy(result.host)
                && WantsNew(repo.history, old(repo.shownAt), session, outside.healthy, result.reassigned)
      ensures result.IsNew() ==> GotRunner(repo.history, |old(repo.history)| - 1, result.session, result.host)
      ensures result.NoRunnerLeft? ==> NoneVisibleSince(repo.history, |old(repo.history)| - 1)
      ensures old(repo.Faultless()) && (forall n :: !outside.cancelled(n)) && (session == "" || Cut(session).Some?) ==>
                result != ResolveFailed
      ensures result.Resolved? && !result.created ==> result.session == session != "" && !result.reassigned
    {
      left := repo.Now();
      var end, reassigned;
      end, reassigned, base := LookUp(session, outside);
      ghost var looked := repo.history;
      if end.Some? {
        result := end.value;
      } else {
        result, left := ResolveNew(reassigned, outside, |old(repo.history)| - 1);
        WantsNewStill(looked, repo.history, old(repo.shownAt), session, outside.healthy, reassigned);
      }
      if session != "" && Cut(session).Some? {
        AnswerKeeps(looked, repo.history, old(repo.shownAt), session, outside.healthy, end, result);
      }
      if old(repo.Settled()) {
        BothHalvesAlone(old(repo.Now()), base, left, repo.Now(), session, outside, end, reassigned, result);
      }
    }
  }
}
