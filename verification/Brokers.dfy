/**
 Any number of createSession calls, in any number of broker processes, on one table.  Their
 steps interleave with each other, with registrations and deregistrations, with requests that look
 up a session's record and then delete it by its id (closing a session, resolving one whose
 runner died), and with whatever the index does.
 */
module Brokers {
  import opened RunnerPool
  import opened IdleScan

  /** `persistent` remembers which runners have stayed visible ever since the running scan began. */
  datatype Caller = Caller(session: SessionId, phase: Phase, persistent: set<Key>)

  /** An idle record of this incarnation was turned over to this session. */
  datatype Grant = Grant(incarnation: nat, session: SessionId)

  /**
   A request that closes or resolves this session has found its record, and may yet delete whatever is under the
   id then.  One answered by a lagging index counts as having looked when the index was up to date.
   */
  datatype Sighting = Sighting(key: Key, session: SessionId)

  /** `grants` is the history of every assignment that took effect, oldest first; `found` are the pending sightings. */
  datatype System = System(world: World, callers: seq<Caller>, grants: seq<Grant>, found: multiset<Sighting>)

  datatype Action =
    | Acts(caller: nat, choice: Choice)
    | Registers(key: Key, host: string)
    | Deletes(key: Key)
    | Reindexes(index: map<Key, string>)
    | Finds(seen: Sighting)
    | Drops(seen: Sighting, deleted: bool)  // over; the runner may have been up, or the delete have failed

  predicate Possible(sys: System, action: Action) {
    match action
    case Acts(i, choice) => i < |sys.callers| && Enabled(sys.world, sys.callers[i].phase, choice)
    case Finds(seen) => BusyWith(sys.world, seen.key, seen.session)
    case Drops(seen, _) => seen in sys.found
    case _ => true
  }

  function Refresh(callers: seq<Caller>, w: World): seq<Caller> {
    seq(|callers|, i requires 0 <= i < |callers| =>
      callers[i].(persistent := callers[i].persistent * Visible(w)))
  }

  function WorldAfter(sys: System, action: Action): World
    requires Possible(sys, action)
  {
    match action
    case Acts(i, choice) => NextWorld(sys.world, sys.callers[i].session, sys.callers[i].phase, choice)
    case Registers(k, host) => RegisterRunner(sys.world, k, host)
    case Deletes(k) => DeleteRunner(sys.world, k)
    case Reindexes(index) => Reindex(sys.world, index)
    case Finds(_) => sys.world
    case Drops(seen, deleted) => if deleted then DeleteRunner(sys.world, seen.key) else sys.world
  }

  function FoundAfter(sys: System, action: Action): multiset<Sighting>
    requires Possible(sys, action)
  {
    match action
    case Finds(seen) => sys.found + multiset{seen}
    case Drops(seen, _) => sys.found - multiset{seen}
    case _ => sys.found
  }

  function CallersAfter(sys: System, action: Action): seq<Caller>
    requires Possible(sys, action)
  {
    if action.Acts? then
      var c := sys.callers[action.caller];
      var since := if action.choice.Begin? then Visible(sys.world) else c.persistent;
      sys.callers[action.caller := Caller(c.session, NextPhase(sys.world, c.phase, action.choice), since)]
    else sys.callers
  }

  function GrantsAfter(sys: System, action: Action): seq<Grant>
    requires Possible(sys, action)
  {
    if action.Acts? && Grants(sys.world, sys.callers[action.caller].phase, action.choice) then
      var c := sys.callers[action.caller];
      sys.grants + [Grant(sys.world.table[c.phase.page[0]].incarnation, c.session)]
    else sys.grants
  }

  function Step(sys: System, action: Action): System
    requires Possible(sys, action)
  {
    var w := WorldAfter(sys, action);
    System(w, Refresh(CallersAfter(sys, action), w), GrantsAfter(sys, action), FoundAfter(sys, action))
  }

  /** Can the actions happen one after the other? */
  predicate Runs(sys: System, actions: seq<Action>)
    decreases |actions|
  {
    actions == [] || (Possible(sys, actions[0]) && Runs(Step(sys, actions[0]), actions[1..]))
  }

  function Outcome(sys: System, actions: seq<Action>): System
    requires Runs(sys, actions)
    decreases |actions|
  {
    if actions == [] then sys else Outcome(Step(sys, actions[0]), actions[1..])
  }

  /** Calls that have not started yet, each with a session id of its own, over any table. */
  predicate Initial(sys: System) {
    && WellNumbered(sys.world)
    && (forall c <- sys.callers :: c.phase.Ready? && c.persistent == {})
    && sys.grants == [] && sys.found == multiset{}
    && OwnSessions(sys)
    && OneRecordPerSession(sys.world)
    && (forall c <- sys.callers, k <- sys.world.table :: !BusyWith(sys.world, k, c.session))
  }

  predicate OwnSessions(sys: System) {
    forall i, j :: 0 <= i < j < |sys.callers| ==> sys.callers[i].session != sys.callers[j].session
  }

  // ---- Scan completeness under interference ---------------------------------

  /** What every caller's scan keeps: persistent runners lie ahead, and none is left when it gives up. */
  predicate ScanSound(c: Caller) {
    && WellFormed(c.phase)
    && (c.phase.Scanning() ==> forall k <- c.persistent :: Ahead(c.phase, k))
    && (c.phase.Lost? ==> c.persistent == {})
  }

  predicate ScansSound(sys: System) {
    forall c <- sys.callers :: ScanSound(c) && (c.phase.Scanning() ==> c.persistent <= Visible(sys.world))
  }

  lemma StepKeepsScansSound(sys: System, action: Action)
    requires ScansSound(sys) && Possible(sys, action)
    ensures ScansSound(Step(sys, action))
  {
    var after := Step(sys, action);
    forall i | 0 <= i < |after.callers|
      ensures ScanSound(after.callers[i])
      ensures after.callers[i].persistent <= Visible(after.world)
    {
      var c := sys.callers[i];
      assert c in sys.callers;
      if action.Acts? && action.caller == i {
        StepKeepsScan(sys.world, c.session, c.phase, action.choice);
        assert after.callers[i].phase == NextPhase(sys.world, c.phase, action.choice);
      }
    }
  }

  lemma {:induction false} RunKeepsScansSound(sys: System, actions: seq<Action>)
    requires ScansSound(sys) && Runs(sys, actions)
    ensures ScansSound(Outcome(sys, actions))
    decreases |actions|
  {
    if actions != [] {
      StepKeepsScansSound(sys, actions[0]);
      RunKeepsScansSound(Step(sys, actions[0]), actions[1..]);
    }
  }

  predicate VisibleThroughout(sys: System, actions: seq<Action>, k: Key)
    requires Runs(sys, actions)
    decreases |actions|
  {
    && k in Visible(sys.world)
    && (actions != [] ==> VisibleThroughout(Step(sys, actions[0]), actions[1..], k))
  }

  /** The scan of caller `i`, if one is running or has given up, began while `k` was visible. */
  predicate BeganWith(sys: System, i: nat, k: Key) {
    i < |sys.callers| &&
    (sys.callers[i].phase.Scanning() || sys.callers[i].phase.Lost? ==> k in sys.callers[i].persistent)
  }

  lemma {:induction false} VisibleStaysPersistent(sys: System, actions: seq<Action>, i: nat, k: Key)
    requires Runs(sys, actions) && VisibleThroughout(sys, actions, k) && BeganWith(sys, i, k)
    ensures BeganWith(Outcome(sys, actions), i, k)
    decreases |actions|
  {
    if actions != [] {
      assert k in Visible(Step(sys, actions[0]).world);
      VisibleStaysPersistent(Step(sys, actions[0]), actions[1..], i, k);
    }
  }

  lemma LostLeavesNone(sys: System, i: nat)
    requires ScansSound(sys) && i < |sys.callers| && sys.callers[i].phase.Lost?
    ensures sys.callers[i].persistent == {}
  {
    assert ScanSound(sys.callers[i]);
  }

  /**
   If a call ends with ErrNoIdleRunner, then no runner was idle and listed by the index all the
   way from the call's start to its end, whatever everybody else did in between and wherever
   the scan started.
   */
  lemma ScanCompleteness(sys: System, actions: seq<Action>, i: nat, k: Key)
    requires ScansSound(sys) && Runs(sys, actions)
    requires i < |sys.callers| && sys.callers[i].phase.Ready?
    requires |Outcome(sys, actions).callers| == |sys.callers| && Outcome(sys, actions).callers[i].phase.Lost?
    ensures !VisibleThroughout(sys, actions, k)
  {
    RunKeepsScansSound(sys, actions);
    LostLeavesNone(Outcome(sys, actions), i);
    if VisibleThroughout(sys, actions, k) {
      VisibleStaysPersistent(sys, actions, i, k);
    }
  }

  // ---- Exclusivity -------------------------------------------------------------

  predicate GrantedOnce(grants: seq<Grant>) {
    forall i, j :: 0 <= i < j < |grants| ==> grants[i].incarnation != grants[j].incarnation
  }

  /** Where the records of a caller's session can be, and that what it holds was granted to it. */
  predicate SessionPlaced(c: Caller, w: World, grants: seq<Grant>) {
    && (!c.phase.Holding() && !c.phase.Failed? ==> forall k <- w.table :: !BusyWith(w, k, c.session))
    && (c.phase.Holding() ==>
          && (forall k <- w.table :: BusyWith(w, k, c.session) ==> k == c.phase.runner)
          && Grant(c.phase.incarnation, c.session) in grants)
  }

  predicate Exclusive(sys: System) {
    && WellNumbered(sys.world)
    && OwnSessions(sys)
    && OneRecordPerSession(sys.world)
    && GrantedOnce(sys.grants)
    && (forall g <- sys.grants :: g.incarnation < sys.world.registrations)
    && (forall g <- sys.grants, k <- sys.world.table ::
          sys.world.table[k].incarnation == g.incarnation ==> sys.world.table[k].state == Busy(g.session))
    && (forall c <- sys.callers :: SessionPlaced(c, sys.world, sys.grants))
  }

  lemma InitialIsExclusive(sys: System)
    requires Initial(sys)
    ensures Exclusive(sys) && ScansSound(sys)
  {
  }

  lemma StepKeepsRecords(sys: System, action: Action)
    requires Exclusive(sys) && Possible(sys, action)
    ensures var after := Step(sys, action);
            WellNumbered(after.world) && OneRecordPerSession(after.world) && Evolves(sys.world, after.world)
  {
    match action
    case Acts(i, choice) =>
      var c := sys.callers[i];
      assert SessionPlaced(c, sys.world, sys.grants);
      match choice {
        case Claim | ClaimFails(_) => AssignKeepsRecords(sys.world, c.phase.page[0], c.session);
        case Purged | PurgeFails(_) => DeleteKeepsRecords(sys.world, c.phase.runner);
        case _ =>
      }
    case Registers(k, host) => RegisterKeepsRecords(sys.world, k, host);
    case Deletes(k) => DeleteKeepsRecords(sys.world, k);
    case Drops(seen, _) => DeleteKeepsRecords(sys.world, seen.key);
    case _ =>
  }

  lemma StepKeepsGrants(sys: System, action: Action)
    requires Exclusive(sys) && Possible(sys, action)
    ensures var after := Step(sys, action);
            && GrantedOnce(after.grants)
            && (forall g <- after.grants :: g.incarnation < after.world.registrations)
            && (forall g <- after.grants, k <- after.world.table ::
                  after.world.table[k].incarnation == g.incarnation ==> after.world.table[k].state == Busy(g.session))
  {
  }

  lemma ActorStaysPlaced(sys: System, i: nat, choice: Choice)
    requires Exclusive(sys) && Possible(sys, Acts(i, choice))
    ensures var after := Step(sys, Acts(i, choice));
            SessionPlaced(after.callers[i], after.world, after.grants)
  {
    assert SessionPlaced(sys.callers[i], sys.world, sys.grants);
  }

  lemma BystanderStaysPlaced(sys: System, action: Action, j: nat)
    requires Exclusive(sys) && Possible(sys, action) && j < |sys.callers|
    requires action.Acts? ==> action.caller != j
    ensures var after := Step(sys, action);
            SessionPlaced(after.callers[j], after.world, after.grants)
  {
    assert SessionPlaced(sys.callers[j], sys.world, sys.grants);
    if action.Acts? {
      assert sys.callers[j].session != sys.callers[action.caller].session;
    }
  }

  lemma StepKeepsPlaces(sys: System, action: Action)
    requires Exclusive(sys) && Possible(sys, action)
    ensures var after := Step(sys, action);
            OwnSessions(after) && forall c <- after.callers :: SessionPlaced(c, after.world, after.grants)
  {
    var after := Step(sys, action);
    forall j | 0 <= j < |after.callers|
      ensures SessionPlaced(after.callers[j], after.world, after.grants)
    {
      if action.Acts? && action.caller == j {
        ActorStaysPlaced(sys, j, action.choice);
      } else {
        BystanderStaysPlaced(sys, action, j);
      }
    }
  }

  lemma StepKeepsExclusive(sys: System, action: Action)
    requires Exclusive(sys) && Possible(sys, action)
    ensures Exclusive(Step(sys, action)) && Evolves(sys.world, Step(sys, action).world)
    ensures sys.grants <= Step(sys, action).grants
  {
    StepKeepsRecords(sys, action);
    StepKeepsGrants(sys, action);
    StepKeepsPlaces(sys, action);
  }

  /**
   In every reachable state: no incarnation of a record was ever granted twice, no session id
   is on two records; and what became of the records since the start is only what
   `Evolves` allows.
   */
  lemma {:induction false} RunKeepsExclusive(sys: System, actions: seq<Action>)
    requires Exclusive(sys) && Runs(sys, actions)
    ensures Exclusive(Outcome(sys, actions))
    ensures Evolves(sys.world, Outcome(sys, actions).world)
    ensures sys.grants <= Outcome(sys, actions).grants
    decreases |actions|
  {
    if actions != [] {
      var next := Step(sys, actions[0]);
      StepKeepsExclusive(sys, actions[0]);
      RunKeepsExclusive(next, actions[1..]);
      EvolvesTransitive(sys.world, next.world, Outcome(sys, actions).world);
    }
  }

  lemma NoRecordAppears(sys: System, action: Action)
    requires Possible(sys, action) && !action.Registers?
    ensures Step(sys, action).world.table.Keys <= sys.world.table.Keys
    ensures Step(sys, action).world.registrations == sys.world.registrations
  {
  }

  /** Only registering makes records: no assignment, whatever its outcome, brings back one that was deleted. */
  lemma {:induction false} OnlyRegisteringCreates(sys: System, actions: seq<Action>)
    requires Runs(sys, actions) && forall a <- actions :: !a.Registers?
    ensures Outcome(sys, actions).world.table.Keys <= sys.world.table.Keys
    ensures Outcome(sys, actions).world.registrations == sys.world.registrations
    decreases |actions|
  {
    if actions != [] {
      assert !actions[0].Registers?;
      NoRecordAppears(sys, actions[0]);
      OnlyRegisteringCreates(Step(sys, actions[0]), actions[1..]);
    }
  }

  lemma GrantedToOne(grants: seq<Grant>, g: Grant, h: Grant)
    requires GrantedOnce(grants) && g in grants && h in grants && g.incarnation == h.incarnation
    ensures g == h
  {
    var i :| 0 <= i < |grants| && grants[i] == g;
    var j :| 0 <= j < |grants| && grants[j] == h;
  }

  lemma HoldersDiffer(sys: System, i: nat, j: nat)
    requires Exclusive(sys) && i < j < |sys.callers|
    requires sys.callers[i].phase.Holding() && sys.callers[j].phase.Holding()
    ensures sys.callers[i].phase.incarnation != sys.callers[j].phase.incarnation
  {
    var c, d := sys.callers[i], sys.callers[j];
    assert SessionPlaced(c, sys.world, sys.grants) && SessionPlaced(d, sys.world, sys.grants);
    if c.phase.incarnation == d.phase.incarnation {
      GrantedToOne(sys.grants, Grant(c.phase.incarnation, c.session), Grant(d.phase.incarnation, d.session));
    }
  }

  /** Two calls never come back with the same incarnation of a runner. */
  lemma WinnersDiffer(sys: System, actions: seq<Action>, i: nat, j: nat)
    requires Initial(sys) && Runs(sys, actions) && i < j < |sys.callers|
    ensures var after := Outcome(sys, actions);
            |after.callers| == |sys.callers| &&
            (after.callers[i].phase.Holding() && after.callers[j].phase.Holding() ==>
               after.callers[i].phase.incarnation != after.callers[j].phase.incarnation)
  {
    InitialIsExclusive(sys);
    RunKeepsExclusive(sys, actions);
    CallersStay(sys, actions);
    var after := Outcome(sys, actions);
    if after.callers[i].phase.Holding() && after.callers[j].phase.Holding() {
      HoldersDiffer(after, i, j);
    }
  }

  lemma {:induction false} CallersStay(sys: System, actions: seq<Action>)
    requires Runs(sys, actions)
    ensures |Outcome(sys, actions).callers| == |sys.callers|
    ensures forall i :: 0 <= i < |sys.callers| ==> Outcome(sys, actions).callers[i].session == sys.callers[i].session
    decreases |actions|
  {
    if actions != [] {
      CallersStay(Step(sys, actions[0]), actions[1..]);
    }
  }
}
