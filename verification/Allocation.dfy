/**
 What the load test counts: over a fixed pool, with no store errors and no cancelled
 requests, exactly as many calls get a runner as there are healthy idle runners, or all of
 them if there are enough, in every interleaving.
 */
module Allocation {
  import opened Numbers
  import opened Options
  import opened RunnerPool
  import opened IdleScan
  import opened Brokers

  /** What the health check says of a host, and the one host that goes with an id, in the table and in every copy. */
  datatype Health = Health(check: string -> bool, hostOf: Key -> string) {
    predicate Good(k: Key) { check(hostOf(k)) }

    predicate Lists(index: map<Key, string>) {
      forall k <- index :: index[k] == hostOf(k)
    }
  }

  /** One id, one host. */
  predicate OneHost(h: Health, w: World) {
    h.Lists(w.index) && forall k <- w.table :: w.table[k].host == h.hostOf(k)
  }

  function GoodOf(h: Health, keys: set<Key>): set<Key> {
    set k | k in keys && h.Good(k)
  }

  /** The idle runners whose host passes the check. */
  function HealthyByOwnHost(w: World, check: string -> bool): set<Key> {
    set k | k in w.table && w.table[k].state.Idle? && check(w.table[k].host)
  }

  /** No registrations, no foreign deletes, no errors; the check of a host always gives the same answer; the
      index may list anything as idle but does not miss an idle runner. */
  predicate Calm(h: Health, sys: System, action: Action)
    requires Possible(sys, action)
  {
    match action
    case Acts(i, choice) =>
      (match choice
       case FetchFails | ClaimFails(_) | Cancelled | PurgeFails(_) => false
       case Healthy => h.check(sys.callers[i].phase.host)
       case Unhealthy => !h.check(sys.callers[i].phase.host)
       case _ => true)
    case Reindexes(index) => IdleKeys(sys.world) <= index.Keys && h.Lists(index)
    case _ => false
  }

  predicate CalmRun(h: Health, sys: System, actions: seq<Action>)
    requires Runs(sys, actions)
    decreases |actions|
  {
    actions == [] || (Calm(h, sys, actions[0]) && CalmRun(h, Step(sys, actions[0]), actions[1..]))
  }

  function HeldKeys(callers: seq<Caller>): set<Key> {
    set c | c in callers && c.phase.Holding() :: c.phase.runner
  }

  predicate RunnersDiffer(callers: seq<Caller>) {
    forall i, j :: 0 <= i < j < |callers| && callers[i].phase.Holding() && callers[j].phase.Holding() ==>
      callers[i].phase.runner != callers[j].phase.runner
  }

  /** One caller's share of the invariant; `pool` is what was idle at the start. */
  predicate CallerAccounted(h: Health, pool: set<Key>, w: World, c: Caller) {
    && ScanSound(c)
    && !c.phase.Failed?
    && (c.phase.Scanning() || c.phase.Lost? ==> IdleKeys(w) <= c.persistent)
    && (c.phase.Holding() ==> c.phase.runner in pool && BusyWith(w, c.phase.runner, c.session))
    && (c.phase.Try? ==> forall k <- c.phase.page :: ListedHost(c.phase.scan, k) == h.hostOf(k))
    && (c.phase.Check? || c.phase.Won? ==> c.phase.host == h.hostOf(c.phase.runner))
    && (c.phase.Won? ==> h.Good(c.phase.runner))
    && (c.phase.Purge? ==> !h.Good(c.phase.runner))
  }

  /** Every healthy runner of the pool is still idle or is held by exactly one call. */
  predicate Accounted(h: Health, pool: set<Key>, sys: System) {
    && IdleKeys(sys.world) <= sys.world.index.Keys && h.Lists(sys.world.index)
    && IdleKeys(sys.world) <= pool
    && (forall c <- sys.callers :: CallerAccounted(h, pool, sys.world, c))
    && RunnersDiffer(sys.callers)
    && GoodOf(h, pool - IdleKeys(sys.world)) <= HeldKeys(sys.callers)
  }

  lemma InitialIsAccounted(h: Health, sys: System)
    requires Initial(sys) && IdleKeys(sys.world) <= sys.world.index.Keys && OneHost(h, sys.world)
    ensures Accounted(h, IdleKeys(sys.world), sys)
  {
    assert forall c <- sys.callers :: ScanSound(c);
  }

  /** The idle set after a calm step. */
  lemma CalmIdle(h: Health, pool: set<Key>, sys: System, action: Action)
    requires Accounted(h, pool, sys) && Possible(sys, action) && Calm(h, sys, action)
    ensures IdleKeys(Step(sys, action).world) <= IdleKeys(sys.world)
    ensures IdleKeys(Step(sys, action).world) <= Step(sys, action).world.index.Keys
    ensures h.Lists(Step(sys, action).world.index)
    ensures forall k <- IdleKeys(sys.world) :: k !in IdleKeys(Step(sys, action).world) ==>
              action.Acts? && action.choice == Claim && sys.callers[action.caller].phase.page[0] == k
  {
    if action.Acts? {
      assert CallerAccounted(h, pool, sys.world, sys.callers[action.caller]);
    }
  }

  lemma CalmCaller(h: Health, pool: set<Key>, sys: System, action: Action, i: nat)
    requires Accounted(h, pool, sys) && OwnSessions(sys) && Possible(sys, action) && Calm(h, sys, action)
    requires i < |sys.callers|
    ensures CallerAccounted(h, pool, Step(sys, action).world, Step(sys, action).callers[i])
  {
    var c := sys.callers[i];
    var after := Step(sys, action);
    assert CallerAccounted(h, pool, sys.world, c);
    CalmIdle(h, pool, sys, action);
    if action.Acts? {
      var d := sys.callers[action.caller];
      assert CallerAccounted(h, pool, sys.world, d);
      if action.caller == i {
        StepKeepsScan(sys.world, c.session, c.phase, action.choice);
        assert after.callers[i].persistent <= Visible(after.world);
      } else {
        assert c.session != d.session;
      }
    }
  }

  lemma CalmHoldersDiffer(h: Health, pool: set<Key>, sys: System, action: Action)
    requires Accounted(h, pool, sys) && Possible(sys, action) && Calm(h, sys, action)
    ensures RunnersDiffer(Step(sys, action).callers)
  {
    if action.Acts? && action.choice == Claim {
      var taken := sys.callers[action.caller].phase.page[0];
      forall j | 0 <= j < |sys.callers| && sys.callers[j].phase.Holding() && IdleAt(sys.world, taken)
        ensures sys.callers[j].phase.runner != taken
      {
        assert CallerAccounted(h, pool, sys.world, sys.callers[j]);
      }
    }
  }

  /** A caller that holds a good runner goes on holding it. */
  lemma GoodStaysHeld(h: Health, pool: set<Key>, sys: System, action: Action, k: Key)
    requires Accounted(h, pool, sys) && Possible(sys, action) && Calm(h, sys, action)
    requires k in HeldKeys(sys.callers) && h.Good(k)
    ensures k in HeldKeys(Step(sys, action).callers)
  {
    var after := Step(sys, action);
    var j :| 0 <= j < |sys.callers| && sys.callers[j].phase.Holding() && sys.callers[j].phase.runner == k;
    assert CallerAccounted(h, pool, sys.world, sys.callers[j]);
    assert after.callers[j].phase.Holding() && after.callers[j].phase.runner == k;
  }

  lemma CalmHolders(h: Health, pool: set<Key>, sys: System, action: Action)
    requires Accounted(h, pool, sys) && Possible(sys, action) && Calm(h, sys, action)
    ensures GoodOf(h, pool - IdleKeys(Step(sys, action).world)) <= HeldKeys(Step(sys, action).callers)
  {
    var after := Step(sys, action);
    CalmIdle(h, pool, sys, action);
    forall k <- GoodOf(h, pool - IdleKeys(after.world))
      ensures k in HeldKeys(after.callers)
    {
      if k in IdleKeys(sys.world) {
        assert after.callers[action.caller].phase.runner == k;
      } else {
        assert k in GoodOf(h, pool - IdleKeys(sys.world));
        GoodStaysHeld(h, pool, sys, action, k);
      }
    }
  }

  lemma CalmStepKeepsAccount(h: Health, pool: set<Key>, sys: System, action: Action)
    requires Accounted(h, pool, sys) && OwnSessions(sys) && Possible(sys, action) && Calm(h, sys, action)
    ensures Accounted(h, pool, Step(sys, action)) && OwnSessions(Step(sys, action))
  {
    var next := Step(sys, action);
    CalmIdle(h, pool, sys, action);
    CalmHoldersDiffer(h, pool, sys, action);
    CalmHolders(h, pool, sys, action);
    forall i | 0 <= i < |sys.callers|
      ensures CallerAccounted(h, pool, next.world, next.callers[i])
    {
      CalmCaller(h, pool, sys, action, i);
    }
  }

  lemma {:induction false} CalmRunKeepsAccount(h: Health, pool: set<Key>, sys: System, actions: seq<Action>)
    requires Accounted(h, pool, sys) && OwnSessions(sys) && Runs(sys, actions) && CalmRun(h, sys, actions)
    ensures Accounted(h, pool, Outcome(sys, actions))
    decreases |actions|
  {
    if actions != [] {
      CalmStepKeepsAccount(h, pool, sys, actions[0]);
      CalmRunKeepsAccount(h, pool, Step(sys, actions[0]), actions[1..]);
    }
  }

  // ---- Counting ------------------------------------------------------------------

  function CountWon(callers: seq<Caller>): nat {
    if callers == [] then 0
    else CountWon(callers[..|callers| - 1]) + if callers[|callers| - 1].phase.Won? then 1 else 0
  }

  function WonKeys(callers: seq<Caller>): set<Key> {
    set c | c in callers && c.phase.Won? :: c.phase.runner
  }

  lemma WonKeysOfLast(front: seq<Caller>, last: Caller)
    ensures WonKeys(front + [last]) == WonKeys(front) + if last.phase.Won? then {last.phase.runner} else {}
  {
    var callers := front + [last];
    assert forall c <- callers :: c in front || c == last;
    assert last in callers && forall c <- front :: c in callers;
  }

  lemma {:induction false} WonKeysCounted(callers: seq<Caller>)
    requires RunnersDiffer(callers)
    ensures |WonKeys(callers)| == CountWon(callers)
  {
    if callers != [] {
      var front, last := callers[..|callers| - 1], callers[|callers| - 1];
      WonKeysCounted(front);
      assert callers == front + [last];
      WonKeysOfLast(front, last);
      if last.phase.Won? {
        assert last.phase.runner !in WonKeys(front);
      }
    }
  }

  lemma {:induction false} AllWonCounted(callers: seq<Caller>)
    ensures CountWon(callers) <= |callers|
    ensures CountWon(callers) == |callers| <==> forall c <- callers :: c.phase.Won?
  {
    if callers != [] {
      var front, last := callers[..|callers| - 1], callers[|callers| - 1];
      AllWonCounted(front);
      assert callers == front + [last];
    }
  }

  lemma FinishedAccount(h: Health, pool: set<Key>, sys: System)
    requires Accounted(h, pool, sys)
    requires forall c <- sys.callers :: c.phase.Finished()
    ensures CountWon(sys.callers) == Min(|sys.callers|, |GoodOf(h, pool)|)
  {
    WonKeysCounted(sys.callers);
    AllWonCounted(sys.callers);
    assert WonKeys(sys.callers) <= GoodOf(h, pool) by {
      forall c <- sys.callers | c.phase.Won? ensures c.phase.runner in GoodOf(h, pool) {
        assert CallerAccounted(h, pool, sys.world, c);
      }
    }
    forall c <- sys.callers ensures c.phase.Won? || c.phase.Lost? {
      assert CallerAccounted(h, pool, sys.world, c);
    }
    SubsetCard(WonKeys(sys.callers), GoodOf(h, pool));
    if c :| c in sys.callers && !c.phase.Won? {
      assert CallerAccounted(h, pool, sys.world, c);
      assert IdleKeys(sys.world) == {};
      assert HeldKeys(sys.callers) == WonKeys(sys.callers);
      assert WonKeys(sys.callers) == GoodOf(h, pool);
    }
  }

  lemma {:induction false} SubsetCard(s: set<Key>, t: set<Key>)
    requires s <= t
    ensures |s| <= |t|
  {
    assert t == s + (t - s);
  }

  /**
   Exact allocation.  M calls run in any interleaving on a pool of which N idle runners are
   healthy; when all have ended, exactly min(M, N) hold a runner: a healthy one that was idle
   at the start, recorded as busy with the call's own session, no two the same.  Every other
   call ended with ErrNoIdleRunner.
   */
  lemma ExactAllocation(h: Health, sys: System, actions: seq<Action>)
    requires Initial(sys) && IdleKeys(sys.world) <= sys.world.index.Keys && OneHost(h, sys.world)
    requires Runs(sys, actions) && CalmRun(h, sys, actions)
    requires forall c <- Outcome(sys, actions).callers :: c.phase.Finished()
    ensures var after := Outcome(sys, actions);
            && |after.callers| == |sys.callers|
            && CountWon(after.callers) == Min(|sys.callers|, |HealthyByOwnHost(sys.world, h.check)|)
            && RunnersDiffer(after.callers)
            && (forall c <- after.callers ::
                  c.phase.Lost? ||
                  (c.phase.Won? && c.phase.runner in HealthyByOwnHost(sys.world, h.check)
                   && c.phase.host == sys.world.table[c.phase.runner].host
                   && BusyWith(after.world, c.phase.runner, c.session)))
  {
    assert GoodOf(h, IdleKeys(sys.world)) == HealthyByOwnHost(sys.world, h.check);
    InitialIsAccounted(h, sys);
    CalmRunKeepsAccount(h, IdleKeys(sys.world), sys, actions);
    CallersStay(sys, actions);
    var after := Outcome(sys, actions);
    FinishedAccount(h, IdleKeys(sys.world), after);
    forall c <- after.callers
      ensures c.phase.Lost? || (c.phase.Won? && c.phase.runner in HealthyByOwnHost(sys.world, h.check)
                                && c.phase.host == sys.world.table[c.phase.runner].host
                                && BusyWith(after.world, c.phase.runner, c.session))
    {
      assert CallerAccounted(h, IdleKeys(sys.world), after.world, c);
    }
  }

  // ---- Every such run ends ---------------------------------------------------------

  /** Unless every call has ended, one can go on: runs do not get stuck. */
  lemma CalmProgress(h: Health, pool: set<Key>, sys: System, i: nat) returns (action: Action)
    requires Accounted(h, pool, sys) && i < |sys.callers| && !sys.callers[i].phase.Finished()
    ensures action.Acts? && action.caller == i && Possible(sys, action) && Calm(h, sys, action)
  {
    var phase := sys.callers[i].phase;
    match phase
    case Ready => action := Acts(i, Begin(0));
    case Query(scan) =>
      var page, next := PageExists(sys.world.index.Keys, scan);
      action := Acts(i, Fetched(page, next));
    case Try(scan, page, next) =>
      action := Acts(i, if page == [] || page[0] in scan.tried then Jump else Claim);
    case Check(_, _, host) => action := Acts(i, if h.check(host) then Healthy else Unhealthy);
    case Purge(_, _) => action := Acts(i, Purged);
  }

  function RankSum(callers: seq<Caller>): nat {
    if callers == [] then 0 else RankSum(callers[..|callers| - 1]) + Rank(callers[|callers| - 1].phase)
  }

  lemma {:induction false} RankSumOfUpdate(before: seq<Caller>, after: seq<Caller>, i: nat)
    requires |before| == |after| && i < |before|
    requires forall j :: 0 <= j < |before| && j != i ==> after[j].phase == before[j].phase
    ensures RankSum(after) - Rank(after[i].phase) == RankSum(before) - Rank(before[i].phase)
  {
    var n := |before| - 1;
    if i < n {
      RankSumOfUpdate(before[..n], after[..n], i);
    } else {
      RankSumSame(before[..n], after[..n]);
    }
  }

  lemma {:induction false} RankSumSame(before: seq<Caller>, after: seq<Caller>)
    requires |before| == |after|
    requires forall j :: 0 <= j < |before| ==> after[j].phase == before[j].phase
    ensures RankSum(after) == RankSum(before)
  {
    if before != [] {
      RankSumSame(before[..|before| - 1], after[..|before| - 1]);
    }
  }

  /** Deleting a runner costs a record; every other step costs rank. */
  function Measure(sys: System): nat {
    |sys.world.table| * RANK_LIMIT + RankSum(sys.callers)
  }

  lemma TableAfterCall(h: Health, pool: set<Key>, sys: System, i: nat, choice: Choice)
    requires Accounted(h, pool, sys) && Possible(sys, Acts(i, choice)) && Calm(h, sys, Acts(i, choice))
    ensures var after := Step(sys, Acts(i, choice)).world;
            |after.table| == if choice == Purged then |sys.world.table| - 1 else |sys.world.table|
  {
    var after := Step(sys, Acts(i, choice)).world;
    var c := sys.callers[i];
    assert CallerAccounted(h, pool, sys.world, c);
    if choice == Purged {
      assert after.table.Keys == sys.world.table.Keys - {c.phase.runner};
    } else {
      assert after.table.Keys == sys.world.table.Keys;
    }
  }

  lemma RanksAfterCall(sys: System, i: nat, choice: Choice)
    requires Possible(sys, Acts(i, choice))
    ensures RankSum(Step(sys, Acts(i, choice)).callers) - Rank(NextPhase(sys.world, sys.callers[i].phase, choice))
         == RankSum(sys.callers) - Rank(sys.callers[i].phase)
  {
    RankSumOfUpdate(sys.callers, Step(sys, Acts(i, choice)).callers, i);
  }

  lemma CalmStepCosts(h: Health, pool: set<Key>, sys: System, action: Action)
    requires Accounted(h, pool, sys) && Possible(sys, action) && Calm(h, sys, action)
    ensures Measure(Step(sys, action)) <= Measure(sys)
    ensures action.Acts? ==> Measure(Step(sys, action)) < Measure(sys)
  {
    match action
    case Acts(i, choice) =>
      assert CallerAccounted(h, pool, sys.world, sys.callers[i]);
      TableAfterCall(h, pool, sys, i, choice);
      RankFalls(sys.world, sys.callers[i].phase, choice);
      RanksAfterCall(sys, i, choice);
    case Reindexes(_) => RankSumSame(sys.callers, Step(sys, action).callers);
  }

  function StepCount(actions: seq<Action>): nat {
    if actions == [] then 0 else (if actions[0].Acts? then 1 else 0) + StepCount(actions[1..])
  }

  /** The calls together take a bounded number of steps, so with CalmProgress all of them end. */
  lemma {:induction false} CalmRunEnds(h: Health, pool: set<Key>, sys: System, actions: seq<Action>)
    requires Accounted(h, pool, sys) && OwnSessions(sys) && Runs(sys, actions) && CalmRun(h, sys, actions)
    ensures StepCount(actions) + Measure(Outcome(sys, actions)) <= Measure(sys)
    decreases |actions|
  {
    if actions != [] {
      CalmStepCosts(h, pool, sys, actions[0]);
      CalmStepKeepsAccount(h, pool, sys, actions[0]);
      CalmRunEnds(h, pool, Step(sys, actions[0]), actions[1..]);
    }
  }

  /** From every state of such a run all calls can be brought to their end. */
  lemma {:induction false} CalmRunCanFinish(h: Health, pool: set<Key>, sys: System) returns (actions: seq<Action>)
    requires Accounted(h, pool, sys) && OwnSessions(sys)
    ensures Runs(sys, actions) && CalmRun(h, sys, actions)
    ensures forall c <- Outcome(sys, actions).callers :: c.phase.Finished()
    decreases Measure(sys)
  {
    if i :| 0 <= i < |sys.callers| && !sys.callers[i].phase.Finished() {
      var action := CalmProgress(h, pool, sys, i);
      CalmStepCosts(h, pool, sys, action);
      CalmStepKeepsAccount(h, pool, sys, action);
      var rest := CalmRunCanFinish(h, pool, Step(sys, action));
      actions := [action] + rest;
      assert actions[1..] == rest;
    } else {
      actions := [];
    }
  }
}
