/**
 One createSession call as a step machine: a store operation, a health check or a local
 jump is one step, and anything may happen to the table between two steps.
 */
module IdleScan {
  import opened Options
  import opened RunnerPool

  // How many idle candidates one query returns at most.
  const QUERY_LIMIT: nat := 5

  /** The two stretches of the key order: above the start, then up to and including it. */
  datatype Segment = After | UpTo

  /** `listed` are the hosts of the page fetched last, as the index had them. */
  datatype Scan = Scan(start: Key, segment: Segment, cursor: Option<Key>, tried: set<Key>, listed: map<Key, string>)

  datatype Phase =
    | Ready                                                     // about to call AcquireIdle
    | Query(scan: Scan)                                         // about to fetch a page
    | Try(scan: Scan, page: seq<Key>, next: Option<Key>)        // candidates left on the page
    | Check(runner: Key, incarnation: nat, host: string)        // claimed, health check of the listed host pending
    | Purge(runner: Key, incarnation: nat)                      // unhealthy, delete pending
    | Won(runner: Key, incarnation: nat, host: string)
    | Lost                                                      // ErrNoIdleRunner
    | Failed                                                    // store error or cancelled request
  {
    predicate Scanning() { Query? || Try? }

    predicate Holding() { Check? || Purge? || Won? }

    predicate Finished() { Won? || Lost? || Failed? }
  }

  predicate InSegment(start: Key, segment: Segment, k: Key) {
    match segment
    case After => k > start
    case UpTo => k <= start
  }

  /** The keys the next query of the scan is about. */
  predicate InReach(scan: Scan, k: Key) {
    InSegment(scan.start, scan.segment, k) && (scan.cursor.Some? ==> k > scan.cursor.value)
  }

  predicate Ascending(page: seq<Key>) {
    forall i, j :: 0 <= i < j < |page| ==> page[i] < page[j]
  }

  /**
   A page the index may return: the least keys in reach, at most QUERY_LIMIT of them; a
   continuation key only when the page is full, and then the page's last key.  A full page
   that happens to exhaust the range may come with or without a continuation key.
   */
  predicate PageOf(index: set<Key>, scan: Scan, page: seq<Key>, next: Option<Key>) {
    && |page| <= QUERY_LIMIT
    && Ascending(page)
    && (forall k <- page :: k in index && InReach(scan, k))
    && (next.Some? ==> |page| == QUERY_LIMIT && next.value == page[|page| - 1])
    && (forall k <- index :: InReach(scan, k) && (next.Some? ==> k <= next.value) ==> k in page)
  }

  function BeginScan(start: Key): Phase {
    Query(Scan(start, After, None, {}, map[]))
  }

  /** The page is used up: go on behind it, else to the second segment, else give up. */
  function LeavePage(scan: Scan, next: Option<Key>): Phase {
    if next.Some? then Query(scan.(cursor := next))
    else if scan.segment.After? then Query(scan.(segment := UpTo, cursor := None))
    else Lost
  }

  /** The first candidate lost its race. */
  function Rejected(scan: Scan, page: seq<Key>, next: Option<Key>): Phase
    requires page != []
  {
    Try(scan.(tried := scan.tried + {page[0]}), page[1..], next)
  }

  /** The keys a scan may still try. */
  predicate Ahead(phase: Phase, k: Key) {
    match phase
    case Query(scan) => InReach(scan, k) || (scan.segment.After? && k <= scan.start)
    case Try(scan, page, next) =>
      || k in page
      || (next.Some? && InSegment(scan.start, scan.segment, k) && k > next.value)
      || (scan.segment.After? && k <= scan.start)
    case _ => false
  }

  function Tried(phase: Phase): set<Key> {
    match phase
    case Query(scan) => scan.tried
    case Try(scan, _, _) => scan.tried
    case _ => {}
  }

  /** The shape of every phase a scan can be in: no key already tried lies ahead. */
  predicate WellFormed(phase: Phase) {
    && (forall k <- Tried(phase) :: !Ahead(phase, k))
    && (phase.Query? && phase.scan.cursor.Some? ==>
          InSegment(phase.scan.start, phase.scan.segment, phase.scan.cursor.value))
    && (phase.Try? ==>
          && |phase.page| <= QUERY_LIMIT
          && Ascending(phase.page)
          && (forall k <- phase.page :: InReach(phase.scan, k))
          && (phase.next.Some? ==>
                && InReach(phase.scan, phase.next.value)
                && (forall k <- phase.page :: k <= phase.next.value)))
  }

  lemma FetchKeepsShape(index: set<Key>, scan: Scan, page: seq<Key>, next: Option<Key>)
    requires WellFormed(Query(scan)) && PageOf(index, scan, page, next)
    ensures WellFormed(Try(scan, page, next))
    ensures forall k :: k in index && Ahead(Query(scan), k) ==> Ahead(Try(scan, page, next), k)
  {
    if next.Some? {
      assert page[|page| - 1] in page;
    }
    forall k <- scan.tried
      ensures !Ahead(Try(scan, page, next), k)
    {
      assert !Ahead(Query(scan), k);
    }
  }

  /** The scan with the hosts of the page it has fetched. */
  function Copied(scan: Scan, w: World, page: seq<Key>): Scan {
    scan.(listed := map k | k in w.index && k in page :: w.index[k])
  }

  function ListedHost(scan: Scan, k: Key): string {
    if k in scan.listed then scan.listed[k] else ""
  }

  lemma CopyKeepsShape(scan: Scan, w: World, page: seq<Key>, next: Option<Key>)
    requires WellFormed(Try(scan, page, next))
    ensures WellFormed(Try(Copied(scan, w, page), page, next))
    ensures forall k :: Ahead(Try(Copied(scan, w, page), page, next), k) <==> Ahead(Try(scan, page, next), k)
  {
    forall k <- scan.tried
      ensures !Ahead(Try(Copied(scan, w, page), page, next), k)
    {
      assert !Ahead(Try(scan, page, next), k);
    }
  }

  lemma LeaveKeepsShape(scan: Scan, next: Option<Key>)
    requires WellFormed(Try(scan, [], next))
    ensures WellFormed(LeavePage(scan, next))
    ensures forall k :: Ahead(Try(scan, [], next), k) ==> Ahead(LeavePage(scan, next), k)
  {
    var before := Try(scan, [], next);
    var after := LeavePage(scan, next);
    forall k <- Tried(after)
      ensures !Ahead(after, k)
    {
      assert !Ahead(before, k);
    }
  }

  lemma RejectKeepsShape(scan: Scan, page: seq<Key>, next: Option<Key>)
    requires page != [] && WellFormed(Try(scan, page, next))
    ensures WellFormed(Rejected(scan, page, next))
    ensures forall k :: Ahead(Try(scan, page, next), k) && k != page[0] ==> Ahead(Rejected(scan, page, next), k)
  {
    var before := Try(scan, page, next);
    var after := Rejected(scan, page, next);
    assert page == [page[0]] + page[1..];
    assert page[0] in page && InReach(scan, page[0]);
    forall k <- page[1..]
      ensures k in page && page[0] < k
    {
      var i :| 0 <= i < |page| - 1 && page[1..][i] == k;
      assert page[0] < page[i + 1];
    }
    assert page[0] !in page[1..] && (next.Some? ==> page[0] <= next.value);
    assert !Ahead(after, page[0]);
    forall k <- scan.tried
      ensures !Ahead(after, k)
    {
      assert !Ahead(before, k);
    }
  }

  /** The `tried` check never skips a candidate: each runner is attempted at most once per call. */
  lemma NoCandidateRepeats(scan: Scan, page: seq<Key>, next: Option<Key>)
    requires WellFormed(Try(scan, page, next))
    ensures forall k <- page :: k !in scan.tried
  {
    forall k <- page
      ensures k !in scan.tried
    {
      assert Ahead(Try(scan, page, next), k);
    }
  }

  // ---- One step of a caller -------------------------------------------------

  /** What the world lets happen at a step. */
  datatype Choice =
    | Begin(start: Key)                               // the random scan start
    | Fetched(page: seq<Key>, next: Option<Key>)
    | FetchFails
    | Jump                                            // no store operation
    | Claim
    | ClaimFails(applied: bool)                       // an error of unknown outcome
    | Healthy
    | Unhealthy
    | Cancelled
    | Purged
    | PurgeFails(applied: bool)

  predicate Enabled(w: World, phase: Phase, choice: Choice) {
    match choice
    case Begin(_) => phase.Ready?
    case Fetched(page, next) => phase.Query? && PageOf(w.index.Keys, phase.scan, page, next)
    case FetchFails => phase.Query?
    case Jump => phase.Try? && (phase.page == [] || phase.page[0] in phase.scan.tried)
    case Claim => phase.Try? && phase.page != [] && phase.page[0] !in phase.scan.tried
    case ClaimFails(_) => phase.Try? && phase.page != [] && phase.page[0] !in phase.scan.tried
    case Healthy => phase.Check?
    case Unhealthy => phase.Check?
    case Cancelled => phase.Check?
    case Purged => phase.Purge?
    case PurgeFails(_) => phase.Purge?
  }

  function NextPhase(w: World, phase: Phase, choice: Choice): Phase
    requires Enabled(w, phase, choice)
  {
    match choice
    case Begin(start) => BeginScan(start)
    case Fetched(page, next) => Try(Copied(phase.scan, w, page), page, next)
    case Jump =>
      if phase.page == [] then LeavePage(phase.scan, phase.next)
      else Try(phase.scan, phase.page[1..], phase.next)
    case Claim =>
      if IdleAt(w, phase.page[0])
      then Check(phase.page[0], w.table[phase.page[0]].incarnation, ListedHost(phase.scan, phase.page[0]))
      else Rejected(phase.scan, phase.page, phase.next)
    case Healthy => Won(phase.runner, phase.incarnation, phase.host)
    case Unhealthy => Purge(phase.runner, phase.incarnation)
    case Purged => Ready
    case FetchFails | ClaimFails(_) | Cancelled | PurgeFails(_) => Failed
  }

  function NextWorld(w: World, session: SessionId, phase: Phase, choice: Choice): World
    requires Enabled(w, phase, choice)
  {
    match choice
    case Claim => AssignSession(w, phase.page[0], session)
    case ClaimFails(applied) => if applied then AssignSession(w, phase.page[0], session) else w
    case Purged => DeleteRunner(w, phase.runner)
    case PurgeFails(applied) => if applied then DeleteRunner(w, phase.runner) else w
    case _ => w
  }

  /** Does the step turn an idle record into a busy one? */
  predicate Grants(w: World, phase: Phase, choice: Choice)
    requires Enabled(w, phase, choice)
  {
    (choice == Claim || choice == ClaimFails(true)) && IdleAt(w, phase.page[0])
  }

  /**
   Whatever the step, no key that stays visible drops out of a running scan: it stays
   ahead, so a scan can only end in `Lost` once every such key has gone.
   */
  lemma StepKeepsScan(w: World, session: SessionId, phase: Phase, choice: Choice)
    requires Enabled(w, phase, choice) && WellFormed(phase)
    ensures WellFormed(NextPhase(w, phase, choice))
    ensures phase.Scanning() && !NextPhase(w, phase, choice).Holding() && !NextPhase(w, phase, choice).Failed? ==>
              forall k <- Visible(w) ::
                Ahead(phase, k) && IdleAt(NextWorld(w, session, phase, choice), k) ==>
                  Ahead(NextPhase(w, phase, choice), k)
  {
    match choice
    case Fetched(page, next) =>
      FetchKeepsShape(w.index.Keys, phase.scan, page, next);
      CopyKeepsShape(phase.scan, w, page, next);
    case Jump =>
      NoCandidateRepeats(phase.scan, phase.page, phase.next);
      LeaveKeepsShape(phase.scan, phase.next);
    case Claim =>
      if !IdleAt(w, phase.page[0]) {
        RejectKeepsShape(phase.scan, phase.page, phase.next);
      }
    case _ =>
  }

  // ---- How long one AcquireIdle call can take -------------------------------

  /** How many keys lie between the cursor and the end of the segment. */
  function Room(scan: Scan): nat {
    match scan.segment
    case After =>
      var low := if scan.cursor.Some? && scan.cursor.value > scan.start then scan.cursor.value else scan.start;
      KEY_SPACE - 1 - low
    case UpTo =>
      if scan.cursor.None? then scan.start + 1
      else if scan.cursor.value < scan.start then scan.start - scan.cursor.value
      else 0
  }

  function QueryRank(scan: Scan): nat {
    9 * (Room(scan) + 1) + if scan.segment.After? then 9 * (scan.start + 2) else 0
  }

  // More than the rank of any scan.
  const RANK_LIMIT: nat := 9 * (KEY_SPACE + 3)

  function Rank(phase: Phase): nat {
    match phase
    case Ready => RANK_LIMIT
    case Query(scan) => QueryRank(scan)
    case Try(scan, page, next) =>
      var rest := LeavePage(scan, next);
      |page| + 3 + if rest.Query? then QueryRank(rest.scan) else 0
    case Check(_, _, _) => 2
    case Purge(_, _) => 1
    case _ => 0
  }

  /**
   Every step of an acquisition lowers its rank, whatever other callers do to the table in
   between and however many runners keep registering.  Only the delete of an unhealthy
   runner starts a new acquisition.
   */
  lemma RankFalls(w: World, phase: Phase, choice: Choice)
    requires Enabled(w, phase, choice) && WellFormed(phase)
    ensures choice != Purged ==> Rank(NextPhase(w, phase, choice)) < Rank(phase)
    ensures Rank(phase) <= RANK_LIMIT
  {
    match choice
    case Fetched(page, next) =>
      if next.Some? {
        assert next.value in page;
      }
    case _ =>
  }

  function KeysOf(page: seq<Key>): set<Key> {
    set k | k in page
  }

  lemma KeysOfHead(page: seq<Key>)
    requires page != []
    ensures KeysOf(page) == {page[0]} + KeysOf(page[1..])
  {
    assert page == [page[0]] + page[1..];
  }

  function InReachOf(index: set<Key>, scan: Scan): set<Key> {
    set k | k in index && InReach(scan, k)
  }

  /** How many more queries a scan can issue while the index stays as it is. */
  function ScanBudget(index: set<Key>, scan: Scan): nat {
    |InReachOf(index, scan)| / QUERY_LIMIT + 1
    + if scan.segment.After? then |InReachOf(index, Scan(scan.start, UpTo, None, {}, map[]))| / QUERY_LIMIT + 1 else 0
  }

  function QueryBudget(index: set<Key>, phase: Phase): nat {
    match phase
    case Query(scan) => ScanBudget(index, scan)
    case Try(scan, _, next) =>
      var rest := LeavePage(scan, next);
      if rest.Query? then ScanBudget(index, rest.scan) else 0
    case _ => 0
  }

  lemma {:induction false} AscendingIsDistinct(page: seq<Key>)
    requires Ascending(page)
    ensures |KeysOf(page)| == |page|
  {
    if page != [] {
      var last := page[|page| - 1];
      var front := page[..|page| - 1];
      AscendingIsDistinct(front);
      assert page == front + [last];
      assert KeysOf(page) == KeysOf(front) + {last};
    }
  }

  /** Each fetch is paid for: a full page takes QUERY_LIMIT keys out of the rest. */
  lemma FetchSpendsBudget(index: set<Key>, scan: Scan, page: seq<Key>, next: Option<Key>)
    requires WellFormed(Query(scan)) && PageOf(index, scan, page, next)
    ensures QueryBudget(index, Try(scan, page, next)) < QueryBudget(index, Query(scan))
  {
    if next.Some? {
      FullPageTakesKeys(index, scan, page, next);
    } else if scan.segment.After? {
      assert InReachOf(index, LeavePage(scan, next).scan) == InReachOf(index, Scan(scan.start, UpTo, None, {}, map[]));
    }
  }

  lemma FullPageTakesKeys(index: set<Key>, scan: Scan, page: seq<Key>, next: Option<Key>)
    requires WellFormed(Query(scan)) && PageOf(index, scan, page, next) && next.Some?
    ensures |InReachOf(index, scan)| == |InReachOf(index, scan.(cursor := next))| + QUERY_LIMIT
  {
    var later := InReachOf(index, scan.(cursor := next));
    var taken := KeysOf(page);
    AscendingIsDistinct(page);
    assert next.value in page;
    assert InReachOf(index, scan) == later + taken;
    assert later !! taken;
  }

  /** On an index of n idle entries a whole call issues at most n / 5 + 2 queries, from any start. */
  lemma QueryBudgetOfCall(index: set<Key>, start: Key)
    ensures QueryBudget(index, BeginScan(start)) <= |index| / QUERY_LIMIT + 2
  {
    var above := InReachOf(index, Scan(start, After, None, {}, map[]));
    var upTo := InReachOf(index, Scan(start, UpTo, None, {}, map[]));
    assert index == above + upTo;
    assert above !! upTo;
  }

  lemma {:induction false} LeastKey(keys: set<Key>) returns (least: Key)
    requires keys != {}
    ensures least in keys && forall k <- keys :: least <= k
    decreases |keys|
  {
    var first :| first in keys;
    var rest := keys - {first};
    least := first;
    if rest != {} {
      var leastOfRest := LeastKey(rest);
      least := if first < leastOfRest then first else leastOfRest;
      forall k <- keys
        ensures least <= k
      {
        assert k == first || k in rest;
      }
    }
  }

  /** The first `n` keys of `keys`, or all of them. */
  lemma {:induction false} FirstKeys(keys: set<Key>, n: nat) returns (page: seq<Key>)
    ensures Ascending(page) && |page| <= n && KeysOf(page) <= keys
    ensures |page| < n ==> KeysOf(page) == keys
    ensures forall k <- page, l <- keys :: l <= k ==> l in page
    decreases n
  {
    if n == 0 || keys == {} {
      page := [];
    } else {
      var least := LeastKey(keys);
      var rest := FirstKeys(keys - {least}, n - 1);
      page := [least] + rest;
      forall k <- rest
        ensures least < k
      {
        assert k in KeysOf(rest);
      }
      assert forall i :: 0 <= i < |rest| ==> rest[i] in rest;
      assert KeysOf(page) == KeysOf(rest) + {least};
    }
  }

  /** Whatever the index holds, a query has an answer. */
  lemma PageExists(index: set<Key>, scan: Scan) returns (page: seq<Key>, next: Option<Key>)
    ensures PageOf(index, scan, page, next)
  {
    page := FirstKeys(InReachOf(index, scan), QUERY_LIMIT);
    forall k <- page ensures k in KeysOf(page) {}
    if |page| == QUERY_LIMIT {
      next := Some(page[QUERY_LIMIT - 1]);
      forall k <- index | InReach(scan, k) && k <= next.value
        ensures k in page
      {
        assert k in InReachOf(index, scan) && next.value in page;
      }
    } else {
      next := None;
      forall k <- index | InReach(scan, k)
        ensures k in page
      {
        assert k in InReachOf(index, scan);
        assert k in KeysOf(page);
      }
    }
  }
}
