/**
 The runner's table of shells.  Its lock covers only the look at the table and the change to it;
 shells are made before and closed after.
 */
module ShellManager {
  import opened Options

  // ---- One caller at a time ----------------------------------------------------------

  class ManagedShell {
    const closeError: Option<string>     // what Close returns
    var closes: nat

    constructor (closeError: Option<string>)
      ensures this.closeError == closeError && closes == 0
    {
      this.closeError, closes := closeError, 0;
    }

    method Close() returns (err: Option<string>)
      modifies this
      ensures err == closeError && closes == old(closes) + 1
    {
      closes := closes + 1;
      err := closeError;
    }
  }

  datatype CreateResult = Created(id: string, shell: ManagedShell) | DuplicateId

  class Manager {
    var shells: map<string, ManagedShell>

    /** No shell stands under two ids. */
    ghost predicate Valid()
      reads this
    {
      forall i <- shells, j <- shells :: shells[i] == shells[j] ==> i == j
    }

    constructor ()
      ensures Valid() && shells == map[]
    {
      shells := map[];
    }

    /** `id` and `shell` come from the generator and the factory. */
    method Create(id: string, shell: ManagedShell) returns (result: CreateResult)
      requires Valid() && shell !in shells.Values
      modifies this, shell
      ensures Valid()
      ensures result.DuplicateId? <==> id in old(shells)
      ensures id in old(shells) ==> shells == old(shells) && shell.closes == old(shell.closes) + 1
      ensures id !in old(shells) ==>
                result == Created(id, shell) && shells == old(shells)[id := shell] && shell.closes == old(shell.closes)
    {
      if id in shells {
        var err := shell.Close();
        return DuplicateId;
      }
      shells := shells[id := shell];
      result := Created(id, shell);
    }

    method Get(id: string) returns (shell: Option<ManagedShell>)
      ensures shell == if id in shells then Some(shells[id]) else None
    {
      shell := if id in shells then Some(shells[id]) else None;
    }

    method Delete(id: string) returns (found: bool, err: Option<string>)
      requires Valid()
      modifies this, if id in shells then {shells[id]} else {}
      ensures Valid()
      ensures found <==> id in old(shells)
      ensures shells == old(shells) - {id}
      ensures found ==> old(shells)[id].closes == old(shells[id].closes) + 1 && err == old(shells)[id].closeError
    {
      if id !in shells {
        return false, None;
      }
      var shell := shells[id];
      shells := shells - {id};
      err := shell.Close();
      found := true;
    }

    /** Every shell is closed, once, whatever errors come up; the error returned is that of one that failed. */
    method CloseAll() returns (firstErr: Option<string>)
      requires Valid()
      modifies this, shells.Values
      ensures shells == map[] && Valid()
      ensures forall i <- old(shells) :: old(shells)[i].closes == old(shells[i].closes) + 1
      ensures firstErr.None? <==> forall i <- old(shells) :: old(shells)[i].closeError.None?
      ensures firstErr.Some? ==> exists i <- old(shells) :: old(shells)[i].closeError == firstErr
    {
      var taken := shells;
      shells := map[];
      firstErr := None;
      var rest := taken.Keys;
      while rest != {}
        invariant rest <= taken.Keys && shells == map[]
        invariant forall i <- taken ::
                    taken[i].closes == old(taken[i].closes) + if i in rest then 0 else 1
        invariant firstErr.None? <==> forall i <- taken :: i !in rest ==> taken[i].closeError.None?
        invariant firstErr.Some? ==> exists i <- taken :: taken[i].closeError == firstErr
        decreases |rest|
      {
        var i :| i in rest;
        rest := rest - {i};
        var err := taken[i].Close();
        if err.Some? && firstErr.None? {
          firstErr := err;
        }
      }
    }
  }

  // ---- Many callers ----------------------------------------------------------------------

  type ShellId = nat

  /** A caller between its steps: it may have a new shell in hand, or shells it took out to close. */
  datatype Caller = Resting | Made(shell: ShellId) | Closing(shells: set<ShellId>)

  /** `made` counts the shells the factory has made; `closed` are those whose Close was called. */
  datatype System = System(table: map<string, ShellId>, callers: seq<Caller>, made: nat, closed: set<ShellId>)

  datatype Action =
    | Make(caller: nat)
    | Insert(caller: nat, id: string)      // the critical section of Create
    | Remove(caller: nat, id: string)      // of Delete
    | TakeAll(caller: nat)                 // of CloseAll
    | CloseOne(caller: nat, shell: ShellId)

  predicate Possible(sys: System, a: Action) {
    && a.caller < |sys.callers|
    && var c := sys.callers[a.caller];
       match a
       case Make(_) => c.Resting?
       case Insert(_, _) => c.Made?
       case Remove(_, _) => c.Resting?
       case TakeAll(_) => c.Resting?
       case CloseOne(_, s) => c.Closing? && s in c.shells
  }

  function ToClose(shells: set<ShellId>): Caller {
    if shells == {} then Resting else Closing(shells)
  }

  function Step(sys: System, a: Action): System
    requires Possible(sys, a)
  {
    match a
    case Make(i) => sys.(callers := sys.callers[i := Made(sys.made)], made := sys.made + 1)
    case Insert(i, id) =>
      var s := sys.callers[i].shell;
      if id in sys.table then sys.(callers := sys.callers[i := Closing({s})])
      else sys.(table := sys.table[id := s], callers := sys.callers[i := Resting])
    case Remove(i, id) =>
      if id in sys.table then sys.(table := sys.table - {id}, callers := sys.callers[i := Closing({sys.table[id]})])
      else sys
    case TakeAll(i) => sys.(table := map[], callers := sys.callers[i := ToClose(sys.table.Values)])
    case CloseOne(i, s) =>
      sys.(callers := sys.callers[i := ToClose(sys.callers[i].shells - {s})], closed := sys.closed + {s})
  }

  /** The shells a caller answers for. */
  function InHand(c: Caller): set<ShellId> {
    match c
    case Resting => {}
    case Made(s) => {s}
    case Closing(shells) => shells
  }

  /** Where a shell is: under an id, in a caller's hands, or closed. */
  datatype Place = InTable(id: string) | WithCaller(caller: nat) | Closed

  predicate IsAt(sys: System, s: ShellId, place: Place) {
    match place
    case InTable(id) => id in sys.table && sys.table[id] == s
    case WithCaller(i) => i < |sys.callers| && s in InHand(sys.callers[i])
    case Closed => s in sys.closed
  }

  /** Every shell made is in one place, and nothing else is anywhere. */
  ghost predicate Conserved(sys: System) {
    && (forall s: ShellId, p, q :: IsAt(sys, s, p) && IsAt(sys, s, q) ==> p == q)
    && (forall s: ShellId, p :: IsAt(sys, s, p) ==> s < sys.made)
    && (forall s: ShellId :: Somewhere(sys, s) || s >= sys.made)
  }

  ghost predicate Somewhere(sys: System, s: ShellId) {
    exists p :: IsAt(sys, s, p)
  }

  /** Where the shell at `p` is after the action. */
  function PlaceAfter(sys: System, a: Action, s: ShellId, p: Place): Place
    requires Possible(sys, a)
  {
    match a
    case Insert(i, id) => if p == WithCaller(i) && id !in sys.table then InTable(id) else p
    case Remove(i, id) => if p == InTable(id) then WithCaller(i) else p
    case TakeAll(i) => if p.InTable? then WithCaller(i) else p
    case CloseOne(i, t) => if s == t then Closed else p
    case Make(_) => p
  }

  lemma PlacesMove(sys: System, a: Action, s: ShellId, p: Place)
    requires Conserved(sys) && Possible(sys, a) && IsAt(sys, s, p)
    ensures IsAt(Step(sys, a), s, PlaceAfter(sys, a, s, p))
  {
    if a.CloseOne? && s == a.shell {
      assert IsAt(sys, s, WithCaller(a.caller));
    }
  }

  /** Every place a shell is at afterwards is where its old place moved to. */
  lemma PlacesComeFrom(sys: System, a: Action, s: ShellId, q: Place)
    requires Conserved(sys) && Possible(sys, a) && IsAt(Step(sys, a), s, q)
    ensures (a.Make? && s == sys.made && q == WithCaller(a.caller))
         || (s < sys.made && exists p :: IsAt(sys, s, p) && q == PlaceAfter(sys, a, s, p))
  {
    var after := Step(sys, a);
    var here := WithCaller(a.caller);
    if a.Make? && s == sys.made {
      if q != here {
        assert IsAt(sys, s, q);
      }
    } else if IsAt(sys, s, q) && PlaceAfter(sys, a, s, q) == q {
    } else if IsAt(sys, s, here) && PlaceAfter(sys, a, s, here) == q {
    } else if a.Remove? && IsAt(sys, s, InTable(a.id)) && PlaceAfter(sys, a, s, InTable(a.id)) == q {
    } else {
      assert a.TakeAll? && q == here && s in sys.table.Values;
      var id :| id in sys.table && sys.table[id] == s;
      assert IsAt(sys, s, InTable(id)) && PlaceAfter(sys, a, s, InTable(id)) == q;
    }
  }

  lemma StepConserves(sys: System, a: Action)
    requires Conserved(sys) && Possible(sys, a)
    ensures Conserved(Step(sys, a))
  {
    var after := Step(sys, a);
    forall s: ShellId, p, q | IsAt(after, s, p) && IsAt(after, s, q)
      ensures p == q && s < after.made
    {
      PlacesComeFrom(sys, a, s, p);
      PlacesComeFrom(sys, a, s, q);
    }
    forall s: ShellId
      ensures Somewhere(after, s) || s >= after.made
    {
      if a.Make? && s == sys.made {
        assert IsAt(after, s, WithCaller(a.caller));
      } else if s < sys.made {
        assert Somewhere(sys, s);
        var p :| IsAt(sys, s, p);
        PlacesMove(sys, a, s, p);
      }
    }
  }

  predicate Runs(sys: System, actions: seq<Action>)
    decreases |actions|
  {
    actions == [] || (Possible(sys, actions[0]) && Runs(Step(sys, actions[0]), actions[1..]))
  }

  function Outcome(sys: System, actions: seq<Action>): System
    requires Runs(sys, actions)
    decreases |actions|
  {
    if actions == [] then sys else Outcome(Step(sys, actions[0]), actions[1..])
  }

  /**
   Conservation: in every state any number of callers can reach, each shell ever made stands
   under exactly one id, or is in the hands of exactly one caller, or has been closed; so none
   is lost, and none closed twice.
   */
  lemma {:induction false} RunConserves(sys: System, actions: seq<Action>)
    requires Conserved(sys) && Runs(sys, actions)
    ensures Conserved(Outcome(sys, actions))
    decreases |actions|
  {
    if actions != [] {
      StepConserves(sys, actions[0]);
      RunConserves(Step(sys, actions[0]), actions[1..]);
    }
  }

  /** No shell made yet, and nobody busy. */
  predicate Initial(sys: System) {
    && sys.table == map[] && sys.made == 0 && sys.closed == {}
    && forall c <- sys.callers :: c.Resting?
  }

  lemma InitialIsConserved(sys: System)
    requires Initial(sys)
    ensures Conserved(sys)
  {
    forall s: ShellId, p
      ensures !IsAt(sys, s, p)
    {
    }
  }

  /** So from the start on, a shell closed, registered or in hand is so in exactly one way. */
  lemma ReachableIsConserved(sys: System, actions: seq<Action>)
    requires Initial(sys) && Runs(sys, actions)
    ensures Conserved(Outcome(sys, actions))
  {
    InitialIsConserved(sys);
    RunConserves(sys, actions);
  }

  /** A shell about to be closed has not been closed before. */
  lemma NeverClosedTwice(sys: System, a: Action)
    requires Conserved(sys) && Possible(sys, a) && a.CloseOne?
    ensures a.shell !in sys.closed
  {
    assert IsAt(sys, a.shell, WithCaller(a.caller));
    assert IsAt(sys, a.shell, Closed) <==> a.shell in sys.closed;
  }

  /** Only a delete of the id, or closing all, takes a shell out. */
  predicate Removes(a: Action, id: string) {
    a.TakeAll? || (a.Remove? && a.id == id)
  }

  /** A registered shell stays the one under its id until it is deleted, whoever creates under the same id, and is
      not closed. */
  lemma {:induction false} RegisteredStays(sys: System, actions: seq<Action>, id: string)
    requires Conserved(sys) && Runs(sys, actions) && id in sys.table
    requires forall a <- actions :: !Removes(a, id)
    ensures var after := Outcome(sys, actions);
            id in after.table && after.table[id] == sys.table[id] && sys.table[id] !in after.closed
    decreases |actions|
  {
    if actions == [] {
      assert IsAt(sys, sys.table[id], InTable(id));
      assert IsAt(sys, sys.table[id], Closed) <==> sys.table[id] in sys.closed;
    } else {
      assert !Removes(actions[0], id);
      StepConserves(sys, actions[0]);
      RegisteredStays(Step(sys, actions[0]), actions[1..], id);
    }
  }
}
