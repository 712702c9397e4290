/**
 The steps of one AcquireIdle call, on record: which step it took at which moment of the table's
 history.  What the call promises follows from the record alone.
 */
module AcquireWalk {
  import opened Options
  import opened RunnerPool
  import opened IdleScan

  /** A step taken in `world`, which is entry `at` of the history. */
  datatype Move = Move(world: World, at: nat, choice: Choice)

  /** The steps of an acquisition, as opposed to those of the caller that goes on from it. */
  predicate Acquiring(choice: Choice) {
    !choice.Healthy? && !choice.Unhealthy? && !choice.Cancelled? && !choice.Purged? && !choice.PurgeFails?
  }

  /** Where the steps lead a call that has not begun; None if they are not steps of a call. */
  ghost function Follow(path: seq<Move>): Option<Phase> {
    if path == [] then Some(Ready)
    else
      var last := path[|path| - 1];
      match Follow(path[..|path| - 1])
      case None => None
      case Some(phase) =>
        if Acquiring(last.choice) && Enabled(last.world, phase, last.choice)
        then Some(NextPhase(last.world, phase, last.choice))
        else None
  }

  /** A write makes the next entry of the history. */
  function After(m: Move): nat {
    m.at + if m.choice.Claim? || m.choice.ClaimFails? then 1 else 0
  }

  /** The entry at which the steps so far ended. */
  ghost function Reached(path: seq<Move>, from: nat): nat {
    if path == [] then from else After(path[|path| - 1])
  }

  /**
   The steps happened in this history, one after the other, from its entry `from` on: each was taken
   in the world that then was, and each write made the world that came next.
   */
  ghost predicate Walked(path: seq<Move>, history: seq<World>, from: nat, session: SessionId) {
    path == [] ||
    (var front, last := path[..|path| - 1], path[|path| - 1];
     && Walked(front, history, from, session)
     && Follow(path).Some?
     && Reached(front, from) <= last.at && After(last) < |history|
     && history[last.at] == last.world
     && history[After(last)] == NextWorld(last.world, session, Follow(front).value, last.choice))
  }

  ghost predicate Walks(path: seq<Move>, history: seq<World>, from: nat, session: SessionId, phase: Phase) {
    Walked(path, history, from, session) && Follow(path) == Some(phase)
  }

  lemma {:induction false} WalkedStays(path: seq<Move>, history: seq<World>, later: seq<World>, from: nat,
                                       session: SessionId)
    requires Walked(path, history, from, session) && history <= later
    ensures Walked(path, later, from, session)
  {
    if path != [] {
      WalkedStays(path[..|path| - 1], history, later, from, session);
    }
  }

  lemma ReachedInside(path: seq<Move>, history: seq<World>, from: nat, session: SessionId)
    requires Walked(path, history, from, session) && from < |history|
    ensures Reached(path, from) < |history|
  {
  }

  /** One more step, taken when the history had grown to `later` or while it did. */
  lemma WalkOn(path: seq<Move>, history: seq<World>, later: seq<World>, from: nat, session: SessionId, phase: Phase,
               move: Move)
    requires Walks(path, history, from, session, phase) && from < |history| && history <= later
    requires Acquiring(move.choice) && Enabled(move.world, phase, move.choice)
    requires |history| - 1 <= move.at && After(move) < |later| && later[move.at] == move.world
    requires later[After(move)] == NextWorld(move.world, session, phase, move.choice)
    ensures Walks(path + [move], later, from, session, NextPhase(move.world, phase, move.choice))
    ensures Fetches(path + [move]) == Fetches(path) + if move.choice.Fetched? || move.choice.FetchFails? then 1 else 0
  {
    assert (path + [move])[..|path|] == path;
    WalkedStays(path, history, later, from, session);
    ReachedInside(path, history, from, session);
  }

  lemma WalkBegin(history: seq<World>, session: SessionId, start: Key) returns (path: seq<Move>)
    requires history != []
    ensures path != [] && path[0].choice == Begin(start)
    ensures Walks(path, history, |history| - 1, session, BeginScan(start))
    ensures Fetches(path) == 0 && Tight(path, history, |history| - 1)
  {
    var move := Move(history[|history| - 1], |history| - 1, Begin(start));
    WalkOn([], history, history, |history| - 1, session, Ready, move);
    path := [] + [move];
    assert path[..0] == [];
  }

  lemma WalkFetch(path: seq<Move>, history: seq<World>, later: seq<World>, from: nat, session: SessionId,
                  scan: Scan, page: seq<Key>, next: Option<Key>) returns (longer: seq<Move>)
    requires Walks(path, history, from, session, Query(scan)) && from < |history| && history <= later
    requires PageOf(later[|later| - 1].index.Keys, scan, page, next)
    ensures path < longer && Fetches(longer) == Fetches(path) + 1
    ensures Walks(longer, later, from, session, Try(Copied(scan, later[|later| - 1], page), page, next))
    ensures Tight(path, later, from) ==> Tight(longer, later, from)
  {
    var move := Move(later[|later| - 1], |later| - 1, Fetched(page, next));
    WalkOn(path, history, later, from, session, Query(scan), move);
    longer := path + [move];
  }

  lemma WalkFetchFails(path: seq<Move>, history: seq<World>, later: seq<World>, from: nat, session: SessionId,
                       scan: Scan)
    returns (longer: seq<Move>)
    requires Walks(path, history, from, session, Query(scan)) && from < |history| && history <= later
    ensures path < longer && Fetches(longer) == Fetches(path) + 1
    ensures Walks(longer, later, from, session, Failed)
  {
    var move := Move(later[|later| - 1], |later| - 1, FetchFails);
    WalkOn(path, history, later, from, session, Query(scan), move);
    longer := path + [move];
  }

  /** A candidate already tried is skipped, or the page is used up. */
  lemma WalkJump(path: seq<Move>, history: seq<World>, from: nat, session: SessionId,
                 scan: Scan, page: seq<Key>, next: Option<Key>) returns (longer: seq<Move>)
    requires Walks(path, history, from, session, Try(scan, page, next)) && from < |history|
    requires page == [] || page[0] in scan.tried
    ensures path < longer && Fetches(longer) == Fetches(path)
    ensures Walks(longer, history, from, session,
                  if page == [] then LeavePage(scan, next) else Try(scan, page[1..], next))
    ensures Tight(path, history, from) ==> Tight(longer, history, from)
  {
    var move := Move(history[|history| - 1], |history| - 1, Jump);
    WalkOn(path, history, history, from, session, Try(scan, page, next), move);
    longer := path + [move];
  }

  /** A conditional write of the first candidate; `applied` tells of a failing one whether it took effect. */
  lemma WalkClaim(path: seq<Move>, history: seq<World>, past: seq<World>, now: World, from: nat, session: SessionId,
                  scan: Scan, page: seq<Key>, next: Option<Key>, choice: Choice) returns (longer: seq<Move>)
    requires Walks(path, history, from, session, Try(scan, page, next)) && from < |history| && history <= past
    requires page != [] && page[0] !in scan.tried
    requires choice == Claim || choice.ClaimFails?
    requires now == NextWorld(past[|past| - 1], session, Try(scan, page, next), choice)
    ensures path < longer && Fetches(longer) == Fetches(path) && Reached(longer, from) == |past|
    ensures Walks(longer, past + [now], from, session, NextPhase(past[|past| - 1], Try(scan, page, next), choice))
    ensures Tight(path, past, from) ==> Tight(longer, past + [now], from)
  {
    var move := Move(past[|past| - 1], |past| - 1, choice);
    WalkOn(path, history, past + [now], from, session, Try(scan, page, next), move);
    longer := path + [move];
  }

  /** How many queries the steps issue. */
  ghost function Fetches(path: seq<Move>): nat {
    if path == [] then 0
    else
      var choice := path[|path| - 1].choice;
      Fetches(path[..|path| - 1]) + if choice.Fetched? || choice.FetchFails? then 1 else 0
  }

  /** Each step was taken where the one before had ended: nobody else did anything in between. */
  ghost predicate Unbroken(path: seq<Move>, from: nat) {
    path == [] ||
    (Unbroken(path[..|path| - 1], from) && path[|path| - 1].at == Reached(path[..|path| - 1], from))
  }

  /** The whole history since `from` is the call's own. */
  ghost predicate Tight(path: seq<Move>, history: seq<World>, from: nat) {
    Unbroken(path, from) && Reached(path, from) + 1 == |history|
  }

  lemma {:induction false} WorldsOfWalk(path: seq<Move>, history: seq<World>, from: nat, session: SessionId, m: Move)
    requires Walked(path, history, from, session) && m in path
    ensures from <= m.at < |history| && history[m.at] == m.world
  {
    var front, last := path[..|path| - 1], path[|path| - 1];
    assert path == front + [last];
    if m in front {
      WorldsOfWalk(front, history, from, session, m);
    } else {
      ReachedFrom(front, history, from, session);
    }
  }

  lemma {:induction false} ReachedFrom(path: seq<Move>, history: seq<World>, from: nat, session: SessionId)
    requires Walked(path, history, from, session)
    ensures from <= Reached(path, from)
  {
    if path != [] {
      ReachedFrom(path[..|path| - 1], history, from, session);
    }
  }

  lemma {:induction false} PathIsWellFormed(path: seq<Move>)
    requires Follow(path).Some?
    ensures WellFormed(Follow(path).value)
  {
    if path != [] {
      var front, last := path[..|path| - 1], path[|path| - 1];
      PathIsWellFormed(front);
      StepKeepsScan(last.world, "", Follow(front).value, last.choice);
    }
  }

  /** A runner visible at every step lies ahead of the scan to its end, so a scan that gave up saw none. */
  lemma {:induction false} VisibleLiesAhead(path: seq<Move>, k: Key)
    requires Follow(path).Some? && forall m <- path :: k in Visible(m.world)
    ensures Follow(path).value.Scanning() ==> Ahead(Follow(path).value, k)
    ensures !Follow(path).value.Lost?
  {
    if path != [] {
      var front, last := path[..|path| - 1], path[|path| - 1];
      assert path == front + [last];
      assert last in path && forall m <- front :: m in path;
      VisibleLiesAhead(front, k);
      PathIsWellFormed(front);
      StepKeepsScan(last.world, "", Follow(front).value, last.choice);
    }
  }

  /** Was the key idle and listed in every world since the given moment? */
  ghost predicate VisibleSince(history: seq<World>, from: nat, k: Key) {
    forall i :: from <= i < |history| ==> k in Visible(history[i])
  }

  /** No runner at all was idle and listed all the time. */
  ghost predicate NoneVisibleSince(history: seq<World>, from: nat) {
    forall k :: !VisibleSince(history, from, k)
  }

  /** A call that gives up leaves nobody out who was there all along. */
  lemma LostSawNobody(path: seq<Move>, history: seq<World>, from: nat, session: SessionId)
    requires Walks(path, history, from, session, Lost)
    ensures NoneVisibleSince(history, from)
  {
    forall k
      ensures !VisibleSince(history, from, k)
    {
      if VisibleSince(history, from, k) {
        forall m <- path
          ensures k in Visible(m.world)
        {
          WorldsOfWalk(path, history, from, session, m);
        }
        VisibleLiesAhead(path, k);
      }
    }
  }

  lemma {:induction false} RankAlong(path: seq<Move>, longer: seq<Move>)
    requires path <= longer && Follow(longer).Some?
    ensures Follow(path).Some?
    ensures Rank(Follow(longer).value) + |longer| - |path| <= Rank(Follow(path).value)
    decreases |longer|
  {
    if path == longer {
    } else {
      var front, last := longer[..|longer| - 1], longer[|longer| - 1];
      RankAlong(path, front);
      PathIsWellFormed(front);
      RankFalls(last.world, Follow(front).value, last.choice);
    }
  }

  // ---- The host that comes back ------------------------------------------------------

  /** One of the steps saw the index list the runner with this host. */
  ghost predicate ListedByMove(path: seq<Move>, k: Key, host: string) {
    exists m <- path :: k in m.world.index && m.world.index[k] == host
  }

  ghost predicate PageListed(path: seq<Move>, scan: Scan, page: seq<Key>) {
    forall k <- page :: ListedByMove(path, k, ListedHost(scan, k))
  }

  lemma ListedOneMore(front: seq<Move>, last: Move, k: Key, host: string)
    requires ListedByMove(front, k, host)
    ensures ListedByMove(front + [last], k, host)
  {
    var m :| m in front && k in m.world.index && m.world.index[k] == host;
    assert m in front + [last];
  }

  lemma FetchedIsListed(front: seq<Move>, last: Move, scan: Scan, page: seq<Key>, next: Option<Key>)
    requires PageOf(last.world.index.Keys, scan, page, next)
    ensures PageListed(front + [last], Copied(scan, last.world, page), page)
  {
    forall k <- page
      ensures ListedByMove(front + [last], k, ListedHost(Copied(scan, last.world, page), k))
    {
      assert k in last.world.index && last in front + [last];
    }
  }

  /** A claimed runner comes back with the host under which some query of the call had listed it. */
  lemma {:induction false} HostWasListed(path: seq<Move>)
    requires Follow(path).Some?
    ensures var phase := Follow(path).value;
            && (phase.Try? ==> PageListed(path, phase.scan, phase.page))
            && (phase.Check? ==> ListedByMove(path, phase.runner, phase.host))
  {
    if path != [] {
      var front, last := path[..|path| - 1], path[|path| - 1];
      assert path == front + [last];
      HostWasListed(front);
      var phase := Follow(front).value;
      match last.choice {
        case Fetched(page, next) => FetchedIsListed(front, last, phase.scan, page, next);
        case Jump => PageGoesOn(front, last, phase.scan, phase.page);
        case Claim =>
          PageGoesOn(front, last, phase.scan, phase.page);
          assert phase.page[0] in phase.page;
        case _ =>
      }
    }
  }

  lemma PageGoesOn(front: seq<Move>, last: Move, scan: Scan, page: seq<Key>)
    requires PageListed(front, scan, page)
    ensures PageListed(front + [last], scan, page)
    ensures page != [] ==> forall tried :: PageListed(front + [last], scan.(tried := tried), page[1..])
  {
    forall k <- page
      ensures ListedByMove(front + [last], k, ListedHost(scan, k))
    {
      ListedOneMore(front, last, k, ListedHost(scan, k));
    }
    if page != [] {
      assert forall k <- page[1..] :: k in page;
    }
  }

  // ---- The cost of a call ----------------------------------------------------------------

  /** The budget looks only at where a scan stands. */
  lemma SameBudget(index: set<Key>, scan: Scan, other: Scan, page: seq<Key>, rest: seq<Key>, next: Option<Key>)
    requires scan.start == other.start && scan.segment == other.segment && scan.cursor == other.cursor
    ensures QueryBudget(index, Try(scan, page, next)) == QueryBudget(index, Try(other, rest, next))
  {
    var here, there := LeavePage(scan, next), LeavePage(other, next);
    if here.Query? {
      assert InReachOf(index, here.scan) == InReachOf(index, there.scan);
    }
  }

  /** All queries of the call found the index listing the same runners. */
  ghost predicate ListedAs(path: seq<Move>, index: set<Key>) {
    forall m <- path :: m.choice.Fetched? ==> m.world.index.Keys == index
  }

  /** One AcquireIdle call, all of whose queries find the index the same, issues at most n / 5 + 2 of them. */
  lemma {:induction false} CallStaysInBudget(path: seq<Move>, index: set<Key>)
    requires path != [] && Follow(path).Some? && ListedAs(path, index)
    ensures Fetches(path) + QueryBudget(index, Follow(path).value) <= |index| / QUERY_LIMIT + 2
    ensures Follow(path).value != Ready
  {
    var front, last := path[..|path| - 1], path[|path| - 1];
    assert path == front + [last];
    assert ListedAs(front, index);
    if front == [] {
      QueryBudgetOfCall(index, last.choice.start);
    } else {
      CallStaysInBudget(front, index);
      PathIsWellFormed(front);
      var phase := Follow(front).value;
      match last.choice {
        case Fetched(page, next) =>
          FetchSpendsBudget(index, phase.scan, page, next);
          SameBudget(index, phase.scan, Copied(phase.scan, last.world, page), page, page, next);
        case Claim =>
          SameBudget(index, phase.scan, phase.scan.(tried := phase.scan.tried + {phase.page[0]}),
                     phase.page, phase.page[1..], phase.next);
        case _ =>
      }
    }
  }

  /** A call alone finds the world as it was at every step, and leaves it so unless it claims a runner. */
  lemma {:induction false} NothingMoves(path: seq<Move>, history: seq<World>, from: nat, session: SessionId)
    requires from < |history| && Walked(path, history, from, session) && Unbroken(path, from)
    requires path == [] || !Follow(path).value.Failed?
    ensures forall m <- path :: m.world == history[from]
    ensures path == [] || !Follow(path).value.Check? ==> history[Reached(path, from)] == history[from]
  {
    if path != [] {
      var front, last := path[..|path| - 1], path[|path| - 1];
      assert path == front + [last];
      NothingMoves(front, history, from, session);
    }
  }

  /** What a call alone finds is what there was. */
  lemma CallAlone(path: seq<Move>, history: seq<World>, from: nat, session: SessionId, phase: Phase)
    requires path != [] && from < |history| && Walks(path, history, from, session, phase) && Tight(path, history, from)
    requires phase.Lost? || phase.Check?
    ensures var w := history[from];
            && Fetches(path) <= |w.index| / QUERY_LIMIT + 2
            && (phase.Lost? ==> history[|history| - 1] == w && Visible(w) == {})
            && (phase.Check? ==>
                  && phase.runner in w.index && phase.host == w.index[phase.runner]
                  && IdleAt(w, phase.runner) && history[|history| - 1] == AssignSession(w, phase.runner, session))
  {
    var w := history[from];
    NothingMoves(path, history, from, session);
    assert path[|path| - 1] in path;
    assert ListedAs(path, w.index.Keys) && |w.index.Keys| == |w.index|;
    CallStaysInBudget(path, w.index.Keys);
    HostWasListed(path);
    if phase.Lost? && Visible(w) != {} {
      var k :| k in Visible(w);
      VisibleLiesAhead(path, k);
    }
  }

  // ---- What a call that got a runner did --------------------------------------------------

  ghost predicate WasListed(history: seq<World>, from: nat, k: Key, host: string) {
    exists i :: from <= i < |history| && k in history[i].index && history[i].index[k] == host
  }

  /**
   The last thing that happened is that an idle record was turned over to the session.  `record` is that
   record, with the host under which the index had listed it at some time since `from`.
   */
  ghost predicate Claimed(history: seq<World>, from: nat, k: Key, record: Runner, s: SessionId) {
    && from + 2 <= |history|
    && IdleAt(history[|history| - 2], k)
    && history[|history| - 1] == AssignSession(history[|history| - 2], k, s)
    && record == history[|history| - 1].table[k].(host := record.host)
    && WasListed(history, from, k, record.host)
  }

  lemma WalkClaims(path: seq<Move>, history: seq<World>, from: nat, session: SessionId, k: Key, record: Runner)
    requires Walks(path, history, from, session, Check(k, record.incarnation, record.host))
    requires Reached(path, from) + 1 == |history| && record.state == Busy(session)
    ensures Claimed(history, from, k, record, session)
  {
    HostWasListed(path);
    var m :| m in path && k in m.world.index && m.world.index[k] == record.host;
    WorldsOfWalk(path, history, from, session, m);
    WorldsOfWalk(path, history, from, session, path[|path| - 1]);
  }

  // ---- Which runner it is ---------------------------------------------------------------

  /** Counting on from behind `start` to the end of the key order, and then from its beginning, `r` comes before `k`
      or is it. */
  predicate NoLaterThan(start: Key, r: Key, k: Key) {
    if r > start then k > start ==> r <= k else k <= start && r <= k
  }

  lemma {:induction false} StartStays(path: seq<Move>)
    requires path != [] && Follow(path).Some?
    ensures path[0].choice.Begin?
    ensures Follow(path).value.Scanning() ==> Follow(path).value.scan.start == path[0].choice.start
  {
    var front := path[..|path| - 1];
    if front != [] {
      StartStays(front);
      assert front[0] == path[0];
    }
  }

  lemma FirstAhead(scan: Scan, page: seq<Key>, next: Option<Key>, k: Key)
    requires page != [] && WellFormed(Try(scan, page, next)) && Ahead(Try(scan, page, next), k)
    ensures NoLaterThan(scan.start, page[0], k)
  {
    assert page[0] in page && InReach(scan, page[0]);
  }

  /** A runner visible at every step of the call comes no sooner, from the scan's start on, than the one claimed. */
  lemma TakesFirst(path: seq<Move>, k: Key)
    requires path != [] && Follow(path).Some? && Follow(path).value.Check?
    requires forall m <- path :: k in Visible(m.world)
    ensures path[0].choice.Begin? && NoLaterThan(path[0].choice.start, Follow(path).value.runner, k)
  {
    var front, last := path[..|path| - 1], path[|path| - 1];
    assert path == front + [last] && front != [];
    assert front[0] == path[0] && forall m <- front :: m in path;
    StartStays(front);
    VisibleLiesAhead(front, k);
    PathIsWellFormed(front);
    var phase := Follow(front).value;
    FirstAhead(phase.scan, phase.page, phase.next, k);
  }

  lemma {:induction false} MovesBefore(path: seq<Move>, history: seq<World>, from: nat, session: SessionId, m: Move)
    requires Walked(path, history, from, session) && m in path
    ensures m.at <= Reached(path, from)
  {
    var front, last := path[..|path| - 1], path[|path| - 1];
    assert path == front + [last];
    if m in front {
      MovesBefore(front, history, from, session, m);
    }
  }

  /** Nobody who was idle and listed all the time before the claim comes sooner than the runner claimed. */
  ghost predicate FirstInLine(history: seq<World>, from: nat, start: Key, r: Key)
    requires history != []
  {
    forall k :: VisibleSince(history[..|history| - 1], from, k) ==> NoLaterThan(start, r, k)
  }

  lemma ClaimIsFirstInLine(path: seq<Move>, history: seq<World>, from: nat, session: SessionId, start: Key)
    requires path != [] && path[0].choice == Begin(start) && Walked(path, history, from, session)
    requires Follow(path).Some? && Follow(path).value.Check? && Reached(path, from) + 1 == |history|
    ensures FirstInLine(history, from, start, Follow(path).value.runner)
  {
    var front, last := path[..|path| - 1], path[|path| - 1];
    assert path == front + [last];
    forall k | VisibleSince(history[..|history| - 1], from, k)
      ensures NoLaterThan(start, Follow(path).value.runner, k)
    {
      forall m <- path
        ensures k in Visible(m.world)
      {
        WorldsOfWalk(path, history, from, session, m);
        if m in front {
          MovesBefore(front, history, from, session, m);
        }
        assert m.at <= last.at < |history| - 1;
        assert history[..|history| - 1][m.at] == m.world;
      }
      TakesFirst(path, k);
    }
  }
}
