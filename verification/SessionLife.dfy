/** What becomes of a session's record over whole runs of many brokers. */
module SessionLife {
  import opened Options
  import opened RunnerPool
  import opened IdleScan
  import opened Brokers

  /**
   Stickiness: as long as a session's record is there, it is the same record on the same
   host, still the session's, and the only one it has, whatever the others did meanwhile.
   */
  lemma SessionSticks(sys: System, actions: seq<Action>, k: Key, s: SessionId)
    requires Exclusive(sys) && Runs(sys, actions) && BusyWith(sys.world, k, s)
    ensures var w := Outcome(sys, actions).world;
            k in w.table && w.table[k].incarnation == sys.world.table[k].incarnation ==>
              && w.table[k] == sys.world.table[k]
              && forall l <- w.table :: BusyWith(w, l, s) <==> l == k
  {
    RunKeepsExclusive(sys, actions);
    var w := Outcome(sys, actions).world;
    if k in w.table && w.table[k].incarnation == sys.world.table[k].incarnation {
      assert w.table[k].incarnation < sys.world.registrations;
    }
  }

  /** A record that has gone never comes back: a later record under its id is a new registration. */
  lemma GoneForGood(sys: System, between: seq<Action>, after: seq<Action>, k: Key)
    requires Exclusive(sys) && k in sys.world.table && Runs(sys, between) && Runs(Outcome(sys, between), after)
    requires var w := Outcome(sys, between).world;
             k !in w.table || w.table[k].incarnation != sys.world.table[k].incarnation
    ensures var w := Outcome(Outcome(sys, between), after).world;
            forall l <- w.table :: w.table[l].incarnation != sys.world.table[k].incarnation
  {
    RunKeepsExclusive(sys, between);
    var middle := Outcome(sys, between);
    RunKeepsExclusive(middle, after);
    var w := Outcome(middle, after).world;
  }

  // ---- Deletes by a slow caller -------------------------------------------------

  /** No runner registers under an id that some call is still dealing with. */
  predicate FreshIds(sys: System, actions: seq<Action>)
    requires Runs(sys, actions)
    decreases |actions|
  {
    actions == [] ||
    (FreshId(sys, actions[0]) && FreshIds(Step(sys, actions[0]), actions[1..]))
  }

  predicate FreshId(sys: System, action: Action) {
    action.Registers? ==>
      && (forall c <- sys.callers :: c.phase.Holding() ==> c.phase.runner != action.key)
      && forall seen :: seen in sys.found ==> seen.key != action.key
  }

  /** A caller that holds an id holds the record now under that id, if there is one. */
  predicate HoldsOwn(w: World, c: Caller) {
    c.phase.Holding() && c.phase.runner in w.table ==> w.table[c.phase.runner].incarnation == c.phase.incarnation
  }

  /** What a pending request has found is the record now under that id, if there is one. */
  predicate FoundOwn(w: World, seen: Sighting) {
    seen.key in w.table ==> BusyWith(w, seen.key, seen.session)
  }

  predicate AllHoldOwn(sys: System) {
    && (forall c <- sys.callers :: HoldsOwn(sys.world, c))
    && forall seen :: seen in sys.found ==> FoundOwn(sys.world, seen)
  }

  lemma StepKeepsHoldsOwn(sys: System, action: Action)
    requires AllHoldOwn(sys) && Possible(sys, action) && FreshId(sys, action)
    ensures AllHoldOwn(Step(sys, action))
  {
    var after := Step(sys, action);
    forall i | 0 <= i < |after.callers|
      ensures HoldsOwn(after.world, after.callers[i])
    {
      assert HoldsOwn(sys.world, sys.callers[i]);
    }
    forall seen | seen in after.found
      ensures FoundOwn(after.world, seen)
    {
      assert seen in sys.found ==> FoundOwn(sys.world, seen);
    }
  }

  /** While ids are not reused under a pending call, every call goes on holding the record it was given or found. */
  lemma {:induction false} FreshIdsKeepOwn(sys: System, actions: seq<Action>)
    requires AllHoldOwn(sys) && Runs(sys, actions) && FreshIds(sys, actions)
    ensures AllHoldOwn(Outcome(sys, actions))
    decreases |actions|
  {
    if actions != [] {
      StepKeepsHoldsOwn(sys, actions[0]);
      FreshIdsKeepOwn(Step(sys, actions[0]), actions[1..]);
    }
  }

  predicate Serves(sys: System, i: nat) {
    && i < |sys.callers| && sys.callers[i].phase.Won?
    && BusyWith(sys.world, sys.callers[i].phase.runner, sys.callers[i].session)
  }

  /** A call that may yet find the runner under this id unhealthy and delete the record it finds there. */
  predicate MayPurge(c: Caller, k: Key) {
    (c.phase.Check? || c.phase.Purge?) && c.phase.runner == k
  }

  /** Nor is a request pending that found another session's record under this id. */
  predicate NoPendingDelete(sys: System, i: nat)
    requires i < |sys.callers| && sys.callers[i].phase.Won?
  {
    var k := sys.callers[i].phase.runner;
    && (forall j :: 0 <= j < |sys.callers| && j != i ==> !MayPurge(sys.callers[j], k))
    && forall seen :: seen in sys.found && seen.key == k ==> seen.session == sys.callers[i].session
  }

  /** The runner deregisters, or a request of this very session deletes its record. */
  predicate OnPurpose(action: Action, k: Key, session: SessionId) {
    action == Deletes(k) || action == Drops(Sighting(k, session), true)
  }

  predicate NeverOnPurpose(actions: seq<Action>, k: Key, session: SessionId) {
    forall a <- actions :: !OnPurpose(a, k, session)
  }

  lemma StepSparesRecord(sys: System, action: Action, i: nat)
    requires Serves(sys, i) && NoPendingDelete(sys, i)
    requires Possible(sys, action) && !OnPurpose(action, sys.callers[i].phase.runner, sys.callers[i].session)
    ensures Step(sys, action).callers[i].phase == sys.callers[i].phase
    ensures Step(sys, action).callers[i].session == sys.callers[i].session
    ensures Serves(Step(sys, action), i)
  {
    if action.Acts? && action.caller != i {
      assert !MayPurge(sys.callers[action.caller], sys.callers[i].phase.runner);
    }
  }

  lemma StepSparesWinner(sys: System, action: Action, i: nat)
    requires Serves(sys, i) && NoPendingDelete(sys, i)
    requires Possible(sys, action) && !OnPurpose(action, sys.callers[i].phase.runner, sys.callers[i].session)
    ensures Step(sys, action).callers[i].phase == sys.callers[i].phase
    ensures Step(sys, action).callers[i].session == sys.callers[i].session
    ensures Serves(Step(sys, action), i) && NoPendingDelete(Step(sys, action), i)
  {
    StepSparesRecord(sys, action, i);
    var after, k := Step(sys, action), sys.callers[i].phase.runner;
    forall j | 0 <= j < |after.callers| && j != i
      ensures !MayPurge(after.callers[j], k)
    {
      assert !MayPurge(sys.callers[j], k);
    }
  }

  lemma {:induction false} RunSparesWinner(sys: System, actions: seq<Action>, i: nat)
    requires Exclusive(sys) && Serves(sys, i) && NoPendingDelete(sys, i)
    requires Runs(sys, actions) && NeverOnPurpose(actions, sys.callers[i].phase.runner, sys.callers[i].session)
    ensures Serves(Outcome(sys, actions), i)
    ensures Outcome(sys, actions).callers[i].phase == sys.callers[i].phase
    decreases |actions|
  {
    if actions != [] {
      assert actions[0] in actions;
      StepSparesWinner(sys, actions[0], i);
      StepKeepsExclusive(sys, actions[0]);
      assert forall a <- actions[1..] :: a in actions;
      RunSparesWinner(Step(sys, actions[0]), actions[1..], i);
    }
  }

  /** A pending call can take the runner away at once, without anybody registering. */
  lemma PendingDeleteStrikes(sys: System, i: nat, j: nat) returns (actions: seq<Action>)
    requires Exclusive(sys) && Serves(sys, i)
    requires j < |sys.callers| && j != i && MayPurge(sys.callers[j], sys.callers[i].phase.runner)
    ensures Runs(sys, actions) && forall a <- actions :: a.Acts? && a.caller == j
    ensures !Serves(Outcome(sys, actions), i)
  {
    var strike: seq<Action> := [Acts(j, Purged)] + [];
    if sys.callers[j].phase.Purge? {
      RunsOne(sys, Acts(j, Purged), []);
      actions := strike;
    } else {
      var found := Step(sys, Acts(j, Unhealthy));
      RunsOne(found, Acts(j, Purged), []);
      RunsOne(sys, Acts(j, Unhealthy), strike);
      actions := [Acts(j, Unhealthy)] + strike;
    }
  }

  /** So can a request that found another session's record there before. */
  lemma LateDropStrikes(sys: System, i: nat, seen: Sighting) returns (actions: seq<Action>)
    requires Serves(sys, i) && seen in sys.found
    requires seen.key == sys.callers[i].phase.runner && seen.session != sys.callers[i].session
    ensures Runs(sys, actions) && actions == [Drops(seen, true)]
    ensures !Serves(Outcome(sys, actions), i)
  {
    actions := [Drops(seen, true)] + [];
    RunsOne(sys, Drops(seen, true), []);
  }

  predicate KeptBy(sys: System, i: nat, actions: seq<Action>)
    requires i < |sys.callers| && sys.callers[i].phase.Won? && Runs(sys, actions)
  {
    NeverOnPurpose(actions, sys.callers[i].phase.runner, sys.callers[i].session) ==> Serves(Outcome(sys, actions), i)
  }

  lemma SomethingStrikes(sys: System, i: nat) returns (actions: seq<Action>)
    requires Exclusive(sys) && Serves(sys, i) && !NoPendingDelete(sys, i)
    ensures Runs(sys, actions) && !Serves(Outcome(sys, actions), i)
    ensures NeverOnPurpose(actions, sys.callers[i].phase.runner, sys.callers[i].session)
  {
    var k := sys.callers[i].phase.runner;
    if j :| 0 <= j < |sys.callers| && j != i && MayPurge(sys.callers[j], k) {
      actions := PendingDeleteStrikes(sys, i, j);
    } else {
      var seen :| seen in sys.found && seen.key == k && seen.session != sys.callers[i].session;
      actions := LateDropStrikes(sys, i, seen);
    }
  }

  /**
   When a runner got is a runner kept: a call that serves its session does so for ever, whatever
   registers and under whatever id, until the runner deregisters or a request of that session
   deletes its record, exactly when just then no other call is between claiming that id and deleting
   it, and no request is pending that found another session's record under it.
   */
  lemma KeepsRunnerIff(sys: System, i: nat)
    requires Exclusive(sys) && Serves(sys, i)
    ensures NoPendingDelete(sys, i) <==> forall actions :: Runs(sys, actions) ==> KeptBy(sys, i, actions)
  {
    if NoPendingDelete(sys, i) {
      forall actions | Runs(sys, actions)
        ensures KeptBy(sys, i, actions)
      {
        if NeverOnPurpose(actions, sys.callers[i].phase.runner, sys.callers[i].session) {
          RunSparesWinner(sys, actions, i);
        }
      }
    } else {
      var actions := SomethingStrikes(sys, i);
      assert !KeptBy(sys, i, actions);
    }
  }

  lemma OwnHoldersAreApart(sys: System, i: nat)
    requires Exclusive(sys) && AllHoldOwn(sys) && Serves(sys, i)
    ensures NoPendingDelete(sys, i)
  {
    forall seen | seen in sys.found && seen.key == sys.callers[i].phase.runner
      ensures seen.session == sys.callers[i].session
    {
      assert FoundOwn(sys.world, seen);
    }
    forall j | 0 <= j < |sys.callers| && j != i
      ensures !MayPurge(sys.callers[j], sys.callers[i].phase.runner)
    {
      assert HoldsOwn(sys.world, sys.callers[i]) && HoldsOwn(sys.world, sys.callers[j]);
      if sys.callers[j].phase.Holding() {
        if j < i {
          HoldersDiffer(sys, j, i);
        } else {
          HoldersDiffer(sys, i, j);
        }
      }
    }
  }

  /**
   So it is in particular when, up to the moment the call got its runner, no id was reused under a
   pending call or request: from then on ids may be reused as they like.
   */
  lemma WinnerKeepsRunner(sys: System, actions: seq<Action>, i: nat)
    requires Exclusive(sys) && AllHoldOwn(sys) && Serves(sys, i)
    requires Runs(sys, actions) && NeverOnPurpose(actions, sys.callers[i].phase.runner, sys.callers[i].session)
    ensures Serves(Outcome(sys, actions), i)
    ensures Outcome(sys, actions).callers[i].phase == sys.callers[i].phase
  {
    OwnHoldersAreApart(sys, i);
    RunSparesWinner(sys, actions, i);
  }

  // ---- Where a session's record goes --------------------------------------------

  /** The delete of the record under this id, by whomever. */
  predicate TakesAway(sys: System, action: Action, k: Key)
    requires Possible(sys, action)
  {
    match action
    case Deletes(l) => l == k
    case Acts(i, choice) => (choice == Purged || choice == PurgeFails(true)) && sys.callers[i].phase.runner == k
    case Drops(seen, deleted) => deleted && seen.key == k
    case _ => false
  }

  predicate NeverTaken(sys: System, actions: seq<Action>, k: Key)
    requires Runs(sys, actions)
    decreases |actions|
  {
    actions == [] || (!TakesAway(sys, actions[0], k) && NeverTaken(Step(sys, actions[0]), actions[1..], k))
  }

  /** The call is over, and its session is on this record. */
  predicate StaysOn(sys: System, i: nat, k: Key) {
    && i < |sys.callers| && (sys.callers[i].phase.Won? || sys.callers[i].phase.Failed?)
    && BusyWith(sys.world, k, sys.callers[i].session)
  }

  /** The call is over, and its session is on no record any more. */
  predicate HasLost(sys: System, i: nat) {
    && i < |sys.callers| && (sys.callers[i].phase.Won? || sys.callers[i].phase.Failed?)
    && forall k <- sys.world.table :: !BusyWith(sys.world, k, sys.callers[i].session)
  }

  lemma OneStepTakesAway(sys: System, action: Action, i: nat, k: Key)
    requires OneRecordPerSession(sys.world) && OwnSessions(sys) && StaysOn(sys, i, k) && Possible(sys, action)
    ensures Step(sys, action).callers[i].phase == sys.callers[i].phase
    ensures if TakesAway(sys, action, k) then HasLost(Step(sys, action), i) else StaysOn(Step(sys, action), i, k)
  {
  }

  lemma {:induction false} LostForGood(sys: System, actions: seq<Action>, i: nat)
    requires OwnSessions(sys) && HasLost(sys, i) && Runs(sys, actions)
    ensures HasLost(Outcome(sys, actions), i)
    decreases |actions|
  {
    if actions != [] {
      StaysLost(sys, actions[0], i);
      LostForGood(Step(sys, actions[0]), actions[1..], i);
    }
  }

  lemma StaysLost(sys: System, action: Action, i: nat)
    requires OwnSessions(sys) && HasLost(sys, i) && Possible(sys, action)
    ensures OwnSessions(Step(sys, action)) && HasLost(Step(sys, action), i)
  {
    if action.Acts? {
      var j := action.caller;
      assert j < i ==> sys.callers[j].session != sys.callers[i].session;
      assert i < j ==> sys.callers[i].session != sys.callers[j].session;
    }
  }

  /**
   Only a delete ends it: when a call is over, its session is on its record at the end of a run iff no
   step of the run deleted that id's record, and otherwise on none.
   */
  lemma {:induction false} StaysIffNotTaken(sys: System, actions: seq<Action>, i: nat, k: Key)
    requires Exclusive(sys) && StaysOn(sys, i, k) && Runs(sys, actions)
    ensures |Outcome(sys, actions).callers| == |sys.callers|
    ensures Outcome(sys, actions).callers[i].phase == sys.callers[i].phase
    ensures if NeverTaken(sys, actions, k) then StaysOn(Outcome(sys, actions), i, k)
            else HasLost(Outcome(sys, actions), i)
    decreases |actions|
  {
    if actions != [] {
      var next := Step(sys, actions[0]);
      OneStepTakesAway(sys, actions[0], i, k);
      StepKeepsExclusive(sys, actions[0]);
      if TakesAway(sys, actions[0], k) {
        LostForGood(next, actions[1..], i);
        OverStays(next, actions[1..], i);
      } else {
        StaysIffNotTaken(next, actions[1..], i, k);
      }
    }
  }

  lemma OverStaysOnce(sys: System, action: Action, i: nat)
    requires i < |sys.callers| && (sys.callers[i].phase.Won? || sys.callers[i].phase.Failed?) && Possible(sys, action)
    ensures |Step(sys, action).callers| == |sys.callers| && Step(sys, action).callers[i].phase == sys.callers[i].phase
  {
  }

  lemma {:induction false} OverStays(sys: System, actions: seq<Action>, i: nat)
    requires i < |sys.callers| && (sys.callers[i].phase.Won? || sys.callers[i].phase.Failed?) && Runs(sys, actions)
    ensures |Outcome(sys, actions).callers| == |sys.callers|
    ensures Outcome(sys, actions).callers[i].phase == sys.callers[i].phase
    decreases |actions|
  {
    if actions != [] {
      var next := RunsHead(sys, actions);
      OverStaysOnce(sys, actions[0], i);
      OverStays(next, actions[1..], i);
    }
  }

  /** A call that got a runner serves its session at the end of a run iff that id's record was never deleted. */
  lemma KeepsRunnerIffNotTaken(sys: System, actions: seq<Action>, i: nat)
    requires Exclusive(sys) && Serves(sys, i) && Runs(sys, actions)
    ensures Serves(Outcome(sys, actions), i) <==> NeverTaken(sys, actions, sys.callers[i].phase.runner)
  {
    StaysIffNotTaken(sys, actions, i, sys.callers[i].phase.runner);
  }

  // ---- Calls that fail -----------------------------------------------------------

  /** The runner a step of the call is about. */
  function About(phase: Phase): Key
    requires (phase.Try? && phase.page != []) || phase.Check? || phase.Purge?
  {
    if phase.Try? then phase.page[0] else phase.runner
  }

  /**
   A failing step that leaves a runner busy with a session nobody was told of: the request is
   cancelled between check and delete, the write that claims takes effect but fails, or
   the delete fails without effect.
   */
  predicate LeavesBusy(w: World, c: Caller, choice: Choice)
    requires Enabled(w, c.phase, choice)
  {
    match choice
    case Cancelled => BusyWith(w, c.phase.runner, c.session)
    case ClaimFails(applied) => applied && IdleAt(w, c.phase.page[0])
    case PurgeFails(applied) => !applied && BusyWith(w, c.phase.runner, c.session)
    case _ => false
  }

  lemma FailingStep(sys: System, i: nat, choice: Choice)
    requires Exclusive(sys) && Possible(sys, Acts(i, choice)) && Step(sys, Acts(i, choice)).callers[i].phase.Failed?
    ensures var failed := Step(sys, Acts(i, choice));
            if LeavesBusy(sys.world, sys.callers[i], choice) then StaysOn(failed, i, About(sys.callers[i].phase))
            else HasLost(failed, i)
  {
    assert SessionPlaced(sys.callers[i], sys.world, sys.grants);
  }

  /** After a call that failed, its session is on a record at the end of a run iff its last step left it there and
      nobody deleted that id's record since. */
  lemma LeftBusyIff(sys: System, i: nat, choice: Choice, actions: seq<Action>)
    requires Exclusive(sys) && Possible(sys, Acts(i, choice)) && Step(sys, Acts(i, choice)).callers[i].phase.Failed?
    requires Runs(Step(sys, Acts(i, choice)), actions)
    ensures var failed, s := Step(sys, Acts(i, choice)), sys.callers[i].session;
            (exists k :: BusyWith(Outcome(failed, actions).world, k, s)) <==>
              LeavesBusy(sys.world, sys.callers[i], choice) && NeverTaken(failed, actions, About(sys.callers[i].phase))
  {
    var failed := Step(sys, Acts(i, choice));
    FailingStep(sys, i, choice);
    StepKeepsExclusive(sys, Acts(i, choice));
    CallersStay(failed, actions);
    if LeavesBusy(sys.world, sys.callers[i], choice) {
      StaysIffNotTaken(failed, actions, i, About(sys.callers[i].phase));
    } else {
      LostForGood(failed, actions, i);
    }
  }

  // ---- What happens when an id is reused ---------------------------------------

  const TWO_CALLS := System(World(map[0 := Runner("host", Idle, 0)], map[0 := "host"], 1),
                            [Caller("s_a", Ready, {}), Caller("s_b", Ready, {})], [], multiset{})

  /** How call `i` comes to runner 0: nothing above the start, then the page up to it. */
  function AsksAbove(i: nat): seq<Action> {
    [Acts(i, Begin(0))] + ([Acts(i, Fetched([], None))] + [])
  }

  function AsksUpTo(i: nat): seq<Action> {
    [Acts(i, Jump)] + ([Acts(i, Fetched([0], None))] + [])
  }

  function FindsRunnerZero(i: nat): seq<Action> {
    AsksAbove(i) + AsksUpTo(i)
  }

  function TakesRunnerZero(i: nat): seq<Action> {
    FindsRunnerZero(i) + ([Acts(i, Claim)] + [])
  }

  /** Only caller `i` moved on between the two. */
  predicate OthersStay(sys: System, after: System, i: nat) {
    && |after.callers| == |sys.callers| && after.found == sys.found
    && (forall j :: 0 <= j < |sys.callers| ==> after.callers[j].session == sys.callers[j].session)
    && (forall j :: 0 <= j < |sys.callers| && j != i ==> after.callers[j].phase == sys.callers[j].phase)
  }

  lemma ActsAlone(sys: System, i: nat, choice: Choice)
    requires Possible(sys, Acts(i, choice))
    ensures var after := Step(sys, Acts(i, choice));
            && OthersStay(sys, after, i)
            && after.callers[i].phase == NextPhase(sys.world, sys.callers[i].phase, choice)
            && after.world == NextWorld(sys.world, sys.callers[i].session, sys.callers[i].phase, choice)
  {
  }

  const ABOVE_ZERO := Scan(0, After, None, {}, map[])
  const UP_TO_ZERO := Scan(0, UpTo, None, {}, map[])
  const AT_ZERO := Try(Scan(0, UpTo, None, {}, map[0 := "host"]), [0], None)

  /** What the two queries of such a scan find. */
  lemma PagesOfZero(w: World)
    requires w.index == map[0 := "host"]
    ensures PageOf(w.index.Keys, ABOVE_ZERO, [], None) && Copied(ABOVE_ZERO, w, []) == ABOVE_ZERO
    ensures PageOf(w.index.Keys, UP_TO_ZERO, [0], None)
    ensures Try(Copied(UP_TO_ZERO, w, [0]), [0], None) == AT_ZERO
    ensures LeavePage(ABOVE_ZERO, None) == Query(UP_TO_ZERO)
  {
    assert Copied(ABOVE_ZERO, w, []).listed == map[];
    assert Copied(UP_TO_ZERO, w, [0]).listed == map[0 := "host"];
  }

  /** Up to there the call only reads. */
  lemma CallFindsRunnerZero(sys: System, i: nat) returns (found: System)
    requires i < |sys.callers| && sys.callers[i].phase.Ready?
    requires sys.world.index == map[0 := "host"]
    ensures Runs(sys, FindsRunnerZero(i)) && Outcome(sys, FindsRunnerZero(i)) == found
    ensures OthersStay(sys, found, i) && found.world == sys.world
    ensures found.callers[i].phase == AT_ZERO
  {
    PagesOfZero(sys.world);
    var asking := CallAsksAbove(sys, i);
    found := CallAsksUpTo(asking, i);
    RunsThen(sys, AsksAbove(i), AsksUpTo(i));
  }

  lemma CallAsksAbove(sys: System, i: nat) returns (found: System)
    requires i < |sys.callers| && sys.callers[i].phase.Ready?
    requires PageOf(sys.world.index.Keys, ABOVE_ZERO, [], None) && Copied(ABOVE_ZERO, sys.world, []) == ABOVE_ZERO
    ensures Runs(sys, AsksAbove(i)) && Outcome(sys, AsksAbove(i)) == found
    ensures OthersStay(sys, found, i) && found.world == sys.world
    ensures found.callers[i].phase == Try(ABOVE_ZERO, [], None)
  {
    ActsAlone(sys, i, Begin(0));
    var s1 := Step(sys, Acts(i, Begin(0)));
    ActsAlone(s1, i, Fetched([], None));
    found := Step(s1, Acts(i, Fetched([], None)));
    RunsOne(s1, Acts(i, Fetched([], None)), []);
    RunsOne(sys, Acts(i, Begin(0)), [Acts(i, Fetched([], None))] + []);
  }

  lemma CallAsksUpTo(sys: System, i: nat) returns (found: System)
    requires i < |sys.callers| && sys.callers[i].phase == Try(ABOVE_ZERO, [], None)
    requires LeavePage(ABOVE_ZERO, None) == Query(UP_TO_ZERO) && PageOf(sys.world.index.Keys, UP_TO_ZERO, [0], None)
    requires Try(Copied(UP_TO_ZERO, sys.world, [0]), [0], None) == AT_ZERO
    ensures Runs(sys, AsksUpTo(i)) && Outcome(sys, AsksUpTo(i)) == found
    ensures OthersStay(sys, found, i) && found.world == sys.world
    ensures found.callers[i].phase == AT_ZERO
  {
    ActsAlone(sys, i, Jump);
    var s1 := Step(sys, Acts(i, Jump));
    ActsAlone(s1, i, Fetched([0], None));
    found := Step(s1, Acts(i, Fetched([0], None)));
    RunsOne(s1, Acts(i, Fetched([0], None)), []);
    RunsOne(sys, Acts(i, Jump), [Acts(i, Fetched([0], None))] + []);
  }

  lemma CallTakesRunnerZero(sys: System, i: nat) returns (after: System)
    requires i < |sys.callers| && sys.callers[i].phase.Ready?
    requires sys.world.index == map[0 := "host"] && IdleAt(sys.world, 0)
    ensures Runs(sys, TakesRunnerZero(i)) && Outcome(sys, TakesRunnerZero(i)) == after
    ensures OthersStay(sys, after, i) && after.world == AssignSession(sys.world, 0, sys.callers[i].session)
    ensures after.callers[i].phase == Check(0, sys.world.table[0].incarnation, "host")
  {
    var found := CallFindsRunnerZero(sys, i);
    ActsAlone(found, i, Claim);
    after := Step(found, Acts(i, Claim));
    RunsOne(found, Acts(i, Claim), []);
    RunsThen(sys, FindsRunnerZero(i), [Acts(i, Claim)] + []);
  }

  lemma RunsOne(sys: System, action: Action, rest: seq<Action>)
    requires Possible(sys, action) && Runs(Step(sys, action), rest)
    ensures Runs(sys, [action] + rest)
    ensures Outcome(sys, [action] + rest) == Outcome(Step(sys, action), rest)
  {
    assert ([action] + rest)[1..] == rest;
  }

  lemma RunsHead(sys: System, actions: seq<Action>) returns (next: System)
    requires actions != [] && Runs(sys, actions)
    ensures Possible(sys, actions[0]) && next == Step(sys, actions[0])
    ensures Runs(next, actions[1..]) && Outcome(next, actions[1..]) == Outcome(sys, actions)
  {
    next := Step(sys, actions[0]);
  }

  lemma RunsBehind(sys: System, next: System, first: seq<Action>, rest: seq<Action>)
    requires first != [] && Possible(sys, first[0]) && next == Step(sys, first[0]) && Runs(next, first[1..] + rest)
    ensures Runs(sys, first + rest) && Outcome(sys, first + rest) == Outcome(next, first[1..] + rest)
  {
    assert (first + rest)[1..] == first[1..] + rest;
  }

  lemma {:induction false} RunsThen(sys: System, first: seq<Action>, rest: seq<Action>)
    requires Runs(sys, first) && Runs(Outcome(sys, first), rest)
    ensures Runs(sys, first + rest)
    ensures Outcome(sys, first + rest) == Outcome(Outcome(sys, first), rest)
    decreases |first|
  {
    if first == [] {
      assert first + rest == rest;
    } else {
      var next := RunsHead(sys, first);
      RunsThen(next, first[1..], rest);
      RunsBehind(sys, next, first, rest);
    }
  }

  const REUSE: seq<Action> := [Acts(0, Unhealthy)] + ([Deletes(0)] + ([Registers(0, "host")] + []))

  /** Call A finds runner 0 unhealthy; then the runner goes, and one comes back under the same id. */
  lemma IdIsReused(checked: System)
    requires checked.world == World(map[0 := Runner("host", Busy("s_a"), 0)], map[0 := "host"], 1)
    requires |checked.callers| == 2
    requires checked.callers[0].phase == Check(0, 0, "host") && checked.callers[1].phase == Ready
    ensures Runs(checked, REUSE)
    ensures var reused := Outcome(checked, REUSE);
            && reused.world == World(map[0 := Runner("host", Idle, 1)], map[0 := "host"], 2)
            && |reused.callers| == 2 && reused.callers[0].phase == Purge(0, 0) && reused.callers[1].phase == Ready
  {
    var a1 := Step(checked, Acts(0, Unhealthy));
    var a2 := Step(a1, Deletes(0));
    assert a2.world.table == map[];
    RunsOne(a2, Registers(0, "host"), []);
    RunsOne(a1, Deletes(0), [Registers(0, "host")] + []);
    RunsOne(checked, Acts(0, Unhealthy), [Deletes(0)] + ([Registers(0, "host")] + []));
  }

  /** The pool after call A has claimed the runner. */
  lemma ClaimOfFirst()
    ensures AssignSession(TWO_CALLS.world, 0, "s_a")
         == World(map[0 := Runner("host", Busy("s_a"), 0)], map[0 := "host"], 1)
  {
    assert AssignSession(TWO_CALLS.world, 0, "s_a").table == map[0 := Runner("host", Busy("s_a"), 0)];
  }

  lemma ReachReuse() returns (actions: seq<Action>, reused: System)
    ensures Runs(TWO_CALLS, actions) && Outcome(TWO_CALLS, actions) == reused
    ensures reused.world == World(map[0 := Runner("host", Idle, 1)], map[0 := "host"], 2)
    ensures |reused.callers| == 2 && reused.callers[0].phase == Purge(0, 0) && reused.callers[1].phase == Ready
  {
    var checked := CallTakesRunnerZero(TWO_CALLS, 0);
    ClaimOfFirst();
    IdIsReused(checked);
    reused := Outcome(checked, REUSE);
    RunsThen(TWO_CALLS, TakesRunnerZero(0), REUSE);
    actions := TakesRunnerZero(0) + REUSE;
  }

  lemma TwoCallsAreInitial()
    ensures Initial(TWO_CALLS)
  {
  }

  function GoodCheck(i: nat): seq<Action> {
    [Acts(i, Healthy)] + []
  }

  lemma HealthyWins(claimed: System, i: nat) returns (won: System)
    requires i < |claimed.callers| && claimed.callers[i].phase.Check?
    requires BusyWith(claimed.world, claimed.callers[i].phase.runner, claimed.callers[i].session)
    ensures Runs(claimed, GoodCheck(i)) && Outcome(claimed, GoodCheck(i)) == won
    ensures OthersStay(claimed, won, i) && won.world == claimed.world
    ensures Serves(won, i) && won.callers[i].phase.runner == claimed.callers[i].phase.runner
  {
    ActsAlone(claimed, i, Healthy);
    RunsOne(claimed, Acts(i, Healthy), []);
    won := Outcome(claimed, GoodCheck(i));
  }

  /** A call that gets runner 0, which is healthy. */
  lemma CallWins(sys: System, i: nat) returns (actions: seq<Action>, won: System)
    requires i < |sys.callers| && sys.callers[i].phase.Ready?
    requires sys.world.index == map[0 := "host"] && IdleAt(sys.world, 0)
    ensures Runs(sys, actions) && Outcome(sys, actions) == won
    ensures OthersStay(sys, won, i) && won.world == AssignSession(sys.world, 0, sys.callers[i].session)
    ensures Serves(won, i) && won.callers[i].phase.runner == 0
  {
    var claimed := CallTakesRunnerZero(sys, i);
    won := HealthyWins(claimed, i);
    RunsThen(sys, TakesRunnerZero(i), GoodCheck(i));
    actions := TakesRunnerZero(i) + GoodCheck(i);
  }

  /** Call B gets the runner while call A still has to delete what is under its id. */
  lemma ReachReusedId() returns (before: seq<Action>, won: System)
    ensures Runs(TWO_CALLS, before) && Outcome(TWO_CALLS, before) == won
    ensures Serves(won, 1) && won.callers[1].phase.runner == 0
    ensures won.callers[0].phase == Purge(0, 0)
  {
    var first, reused := ReachReuse();
    var second;
    second, won := CallWins(reused, 1);
    RunsThen(TWO_CALLS, first, second);
    before := first + second;
  }

  /**
   The condition on ids is needed: from a fresh pool of one runner there is a run after which
   call B has its session on the runner, and the pending delete of call A takes it away.
   */
  lemma ReusedIdLosesSession() returns (before: seq<Action>, rest: seq<Action>)
    ensures Initial(TWO_CALLS) && Runs(TWO_CALLS, before)
    ensures var won := Outcome(TWO_CALLS, before);
            && Serves(won, 1)
            && Runs(won, rest) && (forall a <- rest :: a == Acts(0, Purged))
            && !Serves(Outcome(won, rest), 1)
  {
    TwoCallsAreInitial();
    var won;
    before, won := ReachReusedId();
    rest := [Acts(0, Purged)] + [];
    RunsOne(won, Acts(0, Purged), []);
  }

  const SEEN := Sighting(0, "s_a")

  const LOOKED_UP: seq<Action> := [Finds(SEEN)] + ([Deletes(0)] + ([Registers(0, "host")] + []))

  /** A request finds session A's record; then the runner goes, and one comes back under the same id. */
  lemma IdIsReusedBehind(won: System) returns (reused: System)
    requires won.world == World(map[0 := Runner("host", Busy("s_a"), 0)], map[0 := "host"], 1)
    requires |won.callers| == 2 && won.callers[1] == Caller("s_b", Ready, won.callers[1].persistent)
    ensures Runs(won, LOOKED_UP) && Outcome(won, LOOKED_UP) == reused
    ensures reused.world == World(map[0 := Runner("host", Idle, 1)], map[0 := "host"], 2) && SEEN in reused.found
    ensures |reused.callers| == 2 && reused.callers[1].phase == Ready && reused.callers[1].session == "s_b"
  {
    var a1 := Step(won, Finds(SEEN));
    var a2 := Step(a1, Deletes(0));
    assert a2.world.table == map[];
    RunsOne(a2, Registers(0, "host"), []);
    RunsOne(a1, Deletes(0), [Registers(0, "host")] + []);
    RunsOne(won, Finds(SEEN), [Deletes(0)] + ([Registers(0, "host")] + []));
    reused := Outcome(won, LOOKED_UP);
  }

  lemma ReachLateDrop() returns (before: seq<Action>, won: System)
    ensures Runs(TWO_CALLS, before) && Outcome(TWO_CALLS, before) == won
    ensures Serves(won, 1) && won.callers[1].phase.runner == 0 && won.callers[1].session == "s_b"
    ensures SEEN in won.found
  {
    var first, served := CallWins(TWO_CALLS, 0);
    ClaimOfFirst();
    var reused := IdIsReusedBehind(served);
    var second;
    second, won := CallWins(reused, 1);
    RunsThen(TWO_CALLS, first, LOOKED_UP);
    RunsThen(TWO_CALLS, first + LOOKED_UP, second);
    before := first + LOOKED_UP + second;
  }

  /**
   And so is the one on requests: in this run no call is ever between claim and delete, but the late
   delete of a request that found session A's record takes away the runner of session B.
   */
  lemma LateDropLosesSession() returns (before: seq<Action>, rest: seq<Action>)
    ensures Initial(TWO_CALLS) && Runs(TWO_CALLS, before)
    ensures var won := Outcome(TWO_CALLS, before);
            && Serves(won, 1) && won.callers[1].session == "s_b"
            && rest == [Drops(SEEN, true)] && Runs(won, rest) && !Serves(Outcome(won, rest), 1)
  {
    TwoCallsAreInitial();
    var won;
    before, won := ReachLateDrop();
    rest := LateDropStrikes(won, 1, SEEN);
  }
}
