/**
 The broker's view of the runner table: an object whose operations act on the shared
 table.  `script` says what the others do before each of its operations, and whether the
 operation itself fails; any script is allowed.
 */
module DynamoStore {
  import opened Options
  import opened RunnerPool
  import opened IdleScan
  import opened AcquireWalk
  import opened RunnerIds

  /** Something another client does to the table. */
  datatype Foreign =
    | Registers(key: Key, host: string)
    | Assigns(key: Key, session: SessionId)
    | Deletes(key: Key)
    | Reindexes(index: map<Key, string>)
    | CatchesUp                             // the index on sessions does

  /** A failing write may or may not have taken effect. */
  datatype Fault = NoFault | Fault(applied: bool)

  datatype Turn = Turn(others: seq<Foreign>, fault: Fault)

  datatype AcquireResult = Acquired(runner: Key, record: Runner) | NoIdleRunner | AcquireFailed

  datatype FindResult = Found(runner: Key, record: Runner) | NotFound | FindFailed

  datatype RegisterResult = Registered | InvalidRunnerId | InvalidHost | Conflict | RegisterFailed

  datatype Write = Written | ConditionFailed | WriteFailed

  function ForeignStep(w: World, f: Foreign): World {
    match f
    case Registers(k, host) => RegisterRunner(w, k, host)
    case Assigns(k, s) => RunnerPool.AssignSession(w, k, s)
    case Deletes(k) => DeleteRunner(w, k)
    case Reindexes(index) => Reindex(w, index)
    case CatchesUp => w
  }

  ghost function Last(history: seq<World>): World
    requires history != []
  {
    history[|history| - 1]
  }

  /** From one world to the other an idle record was turned over to the session, and nothing else happened. */
  predicate TurnedOver(before: World, after: World, k: Key, s: SessionId) {
    IdleAt(before, k) && after == RunnerPool.AssignSession(before, k, s)
  }

  // ---- What rounds of claiming and deleting live on ----------------------------------

  /** The idle records, less all registrations so far. */
  function Stock(w: World): int {
    |IdleKeys(w)| - w.registrations
  }

  lemma RegisterIdle(w: World, k: Key, host: string)
    requires k !in w.table
    ensures IdleKeys(RegisterRunner(w, k, host)) == IdleKeys(w) + {k}
  {
  }

  lemma RegisterStock(w: World, k: Key, host: string)
    ensures Stock(RegisterRunner(w, k, host)) <= Stock(w)
  {
    if k !in w.table {
      RegisterIdle(w, k, host);
    }
  }

  lemma FewerIdle(w: World, v: World)
    requires IdleKeys(v) <= IdleKeys(w) && v.registrations == w.registrations
    ensures Stock(v) <= Stock(w)
    ensures IdleKeys(v) != IdleKeys(w) ==> Stock(v) < Stock(w)
  {
    assert IdleKeys(w) == IdleKeys(v) + (IdleKeys(w) - IdleKeys(v));
    if IdleKeys(v) != IdleKeys(w) {
      var k :| k in IdleKeys(w) - IdleKeys(v);
    }
  }

  lemma AssignStock(w: World, k: Key, s: SessionId)
    ensures Stock(RunnerPool.AssignSession(w, k, s)) <= Stock(w)
    ensures IdleAt(w, k) ==> Stock(RunnerPool.AssignSession(w, k, s)) < Stock(w)
  {
    var v := RunnerPool.AssignSession(w, k, s);
    assert IdleAt(w, k) ==> k in IdleKeys(w) && k !in IdleKeys(v);
    FewerIdle(w, v);
  }

  lemma ForeignStock(w: World, f: Foreign)
    ensures Stock(ForeignStep(w, f)) <= Stock(w)
  {
    match f
    case Registers(k, host) => RegisterStock(w, k, host);
    case Assigns(k, s) => AssignStock(w, k, s);
    case Deletes(k) => FewerIdle(w, DeleteRunner(w, k));
    case Reindexes(index) => FewerIdle(w, Reindex(w, index));
    case CatchesUp =>
  }

  /** Nothing that happens adds to the stock. */
  ghost predicate Dwindles(history: seq<World>) {
    |history| <= 1 ||
    (Dwindles(history[..|history| - 1]) && Stock(history[|history| - 1]) <= Stock(history[|history| - 2]))
  }

  lemma DwindlesOn(history: seq<World>, w: World)
    requires history != [] && Dwindles(history) && Stock(w) <= Stock(Last(history))
    ensures Dwindles(history + [w])
  {
    assert (history + [w])[..|history|] == history;
  }

  lemma {:induction false} StockFalls(history: seq<World>, i: nat)
    requires Dwindles(history) && i < |history|
    ensures Stock(Last(history)) <= Stock(history[i])
  {
    if i < |history| - 1 {
      StockFalls(history[..|history| - 1], i);
    }
  }

  /** A runner claimed is taken from the stock. */
  lemma ClaimTakesStock(history: seq<World>, from: nat, k: Key, record: Runner, s: SessionId)
    requires Dwindles(history) && Claimed(history, from, k, record, s)
    ensures Stock(Last(history)) < Stock(history[from])
  {
    AssignStock(history[|history| - 2], k, s);
    StockFalls(history[..|history| - 1], from);
  }

  lemma LostAlone(path: seq<Move>, history: seq<World>, from: nat, session: SessionId, before: World, now: World)
    requires path != [] && from < |history| && Walks(path, history, from, session, Lost) && Tight(path, history, from)
    requires history[from] == before && Last(history) == now
    ensures now == before && Visible(now) == {}
    ensures Fetches(path) <= |before.index| / QUERY_LIMIT + 2
  {
    CallAlone(path, history, from, session, Lost);
  }

  lemma ClaimsAlone(path: seq<Move>, history: seq<World>, from: nat, session: SessionId, before: World, now: World,
                    k: Key, record: Runner)
    requires path != [] && from < |history| && Tight(path, history, from)
    requires Walks(path, history, from, session, Check(k, record.incarnation, record.host))
    requires history[from] == before && Last(history) == now
    ensures TurnedOver(before, now, k, session)
    ensures k in before.index && record.host == before.index[k]
    ensures Fetches(path) <= |before.index| / QUERY_LIMIT + 2
  {
    CallAlone(path, history, from, session, Check(k, record.incarnation, record.host));
  }

  class DynamoRepository {
    var table: map<Key, Runner>
    var index: map<Key, string>
    var registrations: nat
    var script: seq<Turn>
    var shown: map<Key, Runner>       // the table as the index on sessions shows it
    var queries: nat                  // issued so far
    var acquires: nat                 // calls of AcquireIdle so far
    const tellsEnd: nat -> bool       // does a full page that exhausts the range come without a continuation key?
    ghost var history: seq<World>
    ghost var shownAt: nat            // the index on sessions lags behind since then

    ghost predicate Valid()
      reads this
    {
      && history != [] && Last(history) == Now() && Dwindles(history)
      && shownAt < |history| && history[shownAt].table == shown
    }

    /** The world the index on sessions shows. */
    ghost function Shown(): World
      requires Valid()
      reads this
    {
      history[shownAt]
    }

    function Now(): World
      reads this
    {
      World(table, index, registrations)
    }

    /** Nobody else acts on the table, and no operation fails. */
    predicate Alone()
      reads this`script
    {
      script == []
    }

    /** No operation fails, whatever the others do. */
    predicate Faultless()
      reads this`script
    {
      forall turn <- script :: turn.fault.NoFault?
    }

    /** Nor does the index on sessions lag behind. */
    predicate Settled()
      reads this`script, this`shown, this`table
    {
      Alone() && shown == table
    }

    constructor (table: map<Key, Runner>, index: map<Key, string>, registrations: nat, script: seq<Turn>,
                 tellsEnd: nat -> bool)
      ensures Valid() && Now() == World(table, index, registrations)
      ensures this.script == script && queries == acquires == 0 && history == [Now()] && shownAt == 0
    {
      this.table, this.index, this.registrations, this.shown := table, index, registrations, table;
      this.script, this.queries, this.acquires, this.tellsEnd := script, 0, 0, tellsEnd;
      history, shownAt := [World(table, index, registrations)], 0;
    }

    method Become(w: World)
      requires Valid() && Stock(w) <= Stock(Now())
      modifies this`table, this`index, this`registrations, this`history
      ensures Valid() && Now() == w && history == old(history) + [w]
    {
      DwindlesOn(history, w);
      table, index, registrations := w.table, w.index, w.registrations;
      history := history + [w];
    }

    /** One thing another client, or the store, does. */
    method OneForeign(f: Foreign)
      requires Valid()
      modifies this`table, this`index, this`registrations, this`history, this`shown, this`shownAt
      ensures Valid() && old(history) <= history && old(shownAt) <= shownAt
    {
      ForeignStock(Now(), f);
      Become(ForeignStep(Now(), f));
      if f.CatchesUp? {
        shown, shownAt := table, |history| - 1;
      }
    }

    /** The others get their turn before an operation. */
    method Interfere() returns (fault: Fault)
      requires Valid()
      modifies this`table, this`index, this`registrations, this`history, this`script, this`shown, this`shownAt
      ensures Valid() && old(history) <= history && old(shownAt) <= shownAt
      ensures old(Faultless()) ==> Faultless() && fault == NoFault
      ensures old(Alone()) ==> Alone() && history == old(history) && Now() == old(Now())
      ensures old(Alone()) ==> shownAt == old(shownAt)
      ensures !old(Alone()) ==> |script| < |old(script)|
    {
      fault := NoFault;
      if !Alone() {
        var turn := script[0];
        script := script[1..];
        fault := turn.fault;
        for i := 0 to |turn.others|
          invariant Valid() && old(history) <= history && old(shownAt) <= shownAt && script == old(script)[1..]
        {
          OneForeign(turn.others[i]);
        }
      }
    }

    /** The least key of the index in reach of the scan, if there is one. */
    method LeastInReach(scan: Scan) returns (least: Option<Key>)
      ensures least.None? ==> forall k <- index :: !InReach(scan, k)
      ensures least.Some? ==> least.value in index && InReach(scan, least.value)
      ensures least.Some? ==> forall k <- index :: InReach(scan, k) ==> least.value <= k
    {
      least := None;
      var rest := index.Keys;
      while rest != {}
        invariant rest <= index.Keys
        invariant least.Some? ==> least.value in index && InReach(scan, least.value)
        invariant forall k <- index :: k !in rest && InReach(scan, k) ==> least.Some? && least.value <= k
        decreases |rest|
      {
        var k :| k in rest;
        rest := rest - {k};
        if InReach(scan, k) && (least.None? || k < least.value) {
          least := Some(k);
        }
      }
    }

    /** The store answers a query on the idle partition of its index. */
    method AnswerQuery(scan: Scan, tellsEnd: bool) returns (page: seq<Key>, next: Option<Key>)
      ensures PageOf(index.Keys, scan, page, next)
    {
      page := [];
      var rest := scan;
      var more := true;
      while more && |page| < QUERY_LIMIT
        invariant |page| <= QUERY_LIMIT && Ascending(page)
        invariant forall k <- page :: k in index && InReach(scan, k)
        invariant forall k :: InReach(rest, k) ==> InReach(scan, k)
        invariant rest.start == scan.start && rest.segment == scan.segment
        invariant page == [] ==> rest == scan
        invariant page != [] ==> rest.cursor == Some(page[|page| - 1])
        invariant forall k <- index :: InReach(scan, k) && !InReach(rest, k) ==> k in page
        invariant !more ==> forall k <- index :: !InReach(rest, k)
        decreases more, QUERY_LIMIT - |page|
      {
        var least := LeastInReach(rest);
        if least.None? {
          more := false;
        } else {
          page := page + [least.value];
          rest := rest.(cursor := least);
        }
      }
      if more && tellsEnd {
        var least := LeastInReach(rest);
        more := least.Some?;
      }
      next := if more then Some(page[|page| - 1]) else None;
    }

    method QueryIdlePage(scan: Scan) returns (ok: bool, page: seq<Key>, listed: map<Key, string>, next: Option<Key>)
      requires Valid()
      modifies this
      ensures Valid() && old(history) <= history
      ensures ok ==> PageOf(index.Keys, scan, page, next) && listed == Copied(scan, Now(), page).listed
      ensures queries == old(queries) + 1 && acquires == old(acquires)
      ensures old(Faultless()) ==> ok && Faultless()
      ensures old(Alone()) ==> Alone() && history == old(history) && Now() == old(Now())
      ensures !old(Alone()) ==> |script| < |old(script)|
    {
      var fault := Interfere();
      queries := queries + 1;
      if fault.Fault? {
        return false, [], map[], None;
      }
      page, next := AnswerQuery(scan, tellsEnd(queries));
      listed := map k | k in index && k in page :: index[k];
      ok := true;
    }

    /** Update with the condition that the record is idle; never creates a record. */
    method AssignSession(k: Key, s: SessionId) returns (write: Write, ghost past: seq<World>)
      requires Valid()
      modifies this`table, this`index, this`registrations, this`history, this`script, this`shown, this`shownAt
      ensures Valid() && old(history) <= past && past != [] && history == past + [Now()]
      ensures write.Written? ==> IdleAt(Last(past), k) && Now() == RunnerPool.AssignSession(Last(past), k, s)
      ensures write.Written? ==>
                && table == Last(past).table[k := Last(past).table[k].(state := Busy(s))]
                && index == Last(past).index && registrations == Last(past).registrations
      ensures write.ConditionFailed? ==> !IdleAt(Last(past), k) && Now() == Last(past)
      ensures write.WriteFailed? ==> Now() == Last(past) || Now() == RunnerPool.AssignSession(Last(past), k, s)
      ensures old(Faultless()) ==> !write.WriteFailed? && Faultless()
      ensures old(Alone()) ==> Alone() && past == old(history)
      ensures |script| <= |old(script)|
    {
      var fault := Interfere();
      past := history;
      if fault.Fault? {
        AssignStock(Now(), k, s);
        Become(if fault.applied then RunnerPool.AssignSession(Now(), k, s) else Now());
        return WriteFailed, past;
      }
      AssignStock(Now(), k, s);
      write := if k in table && table[k].state.Idle? then Written else ConditionFailed;
      Become(RunnerPool.AssignSession(Now(), k, s));
    }

    method Delete(k: Key) returns (write: Write, ghost past: seq<World>)
      requires Valid()
      modifies this`table, this`index, this`registrations, this`history, this`script, this`shown, this`shownAt
      ensures Valid() && old(history) <= past && past != [] && history == past + [Now()]
      ensures write.Written? ==> Now() == DeleteRunner(Last(past), k)
      ensures write.Written? ==>
                && table == Last(past).table - {k}
                && index == Last(past).index && registrations == Last(past).registrations
      ensures write.WriteFailed? ==> Now() == Last(past) || Now() == DeleteRunner(Last(past), k)
      ensures !write.ConditionFailed?
      ensures old(Faultless()) ==> write.Written? && Faultless()
      ensures old(Alone()) ==> Alone() && past == old(history)
      ensures |script| <= |old(script)|
    {
      var fault := Interfere();
      past := history;
      FewerIdle(Now(), DeleteRunner(Now(), k));
      if fault.Fault? {
        Become(if fault.applied then DeleteRunner(Now(), k) else Now());
        return WriteFailed, past;
      }
      write := Written;
      Become(DeleteRunner(Now(), k));
    }

    /** Put with the condition that the id is absent. */
    method PutRunner(k: Key, host: string) returns (write: Write, ghost past: seq<World>)
      requires Valid()
      modifies this`table, this`index, this`registrations, this`history, this`script, this`shown, this`shownAt
      ensures Valid() && old(history) <= past && past != [] && history == past + [Now()]
      ensures write.Written? ==> k !in Last(past).table && Now() == RegisterRunner(Last(past), k, host)
      ensures write.ConditionFailed? ==> k in Last(past).table && Now() == Last(past)
      ensures write.WriteFailed? ==> Now() == Last(past) || Now() == RegisterRunner(Last(past), k, host)
      ensures old(Faultless()) ==> !write.WriteFailed? && Faultless()
      ensures old(Alone()) ==> Alone() && past == old(history)
    {
      var fault := Interfere();
      past := history;
      RegisterStock(Now(), k, host);
      if fault.Fault? {
        Become(if fault.applied then RegisterRunner(Now(), k, host) else Now());
        return WriteFailed, past;
      }
      write := if k in table then ConditionFailed else Written;
      Become(RegisterRunner(Now(), k, host));
    }

    /** A malformed id or an empty host never reaches the store. */
    method Register(runnerId: string, host: string) returns (result: RegisterResult)
      requires Valid()
      modifies this`table, this`index, this`registrations, this`history, this`script, this`shown, this`shownAt
      ensures Valid() && old(history) <= history
      ensures result.InvalidRunnerId? <==> !IsRunnerId(runnerId)
      ensures result.InvalidHost? <==> IsRunnerId(runnerId) && host == ""
      ensures result.InvalidRunnerId? || result.InvalidHost? ==> history == old(history)
      ensures result.Registered? ==>
                && |history| > 1
                && var before, k := history[|history| - 2], KeyOf(runnerId);
                   && k !in before.table && Now() == RegisterRunner(before, k, host)
                   && table == before.table[k := Runner(host, Idle, before.registrations)]
                   && index == before.index && registrations == before.registrations + 1
      ensures result.Conflict? ==>
                && |history| > 1
                && KeyOf(runnerId) in history[|history| - 2].table && Now() == history[|history| - 2]
      ensures old(Faultless()) ==> !result.RegisterFailed?
      ensures old(Alone()) && IsRunnerId(runnerId) && host != "" ==>
                if KeyOf(runnerId) in old(table) then result.Conflict? && Now() == old(Now())
                else result.Registered? && Now() == RegisterRunner(old(Now()), KeyOf(runnerId), host)
    {
      if !IsRunnerId(runnerId) {
        return InvalidRunnerId;
      }
      if host == "" {
        return InvalidHost;
      }
      var write; ghost var past;
      write, past := PutRunner(KeyOf(runnerId), host);
      result :=
        match write case Written => Registered case ConditionFailed => Conflict case WriteFailed => RegisterFailed;
    }

    /** The session's record, as the index on sessions shows it. */
    method FindBySessionID(s: SessionId) returns (result: FindResult)
      requires Valid()
      modifies this`table, this`index, this`registrations, this`history, this`script, this`shown, this`shownAt
      ensures Valid() && old(history) <= history && old(shownAt) <= shownAt && |script| <= |old(script)|
      ensures result.Found? ==> BusyWith(Shown(), result.runner, s) && result.record == Shown().table[result.runner]
      ensures result.NotFound? ==> NoRecord(Shown(), s)
      ensures old(Faultless()) ==> !result.FindFailed? && Faultless()
      ensures old(Alone()) ==> Alone() && history == old(history) && Now() == old(Now())
      ensures old(Alone()) ==> shownAt == old(shownAt)
    {
      var fault := Interfere();
      if fault.Fault? {
        return FindFailed;
      }
      var rest := shown.Keys;
      while rest != {}
        invariant rest <= shown.Keys
        invariant forall k <- shown :: k !in rest ==> shown[k].state != Busy(s)
        decreases |rest|
      {
        var k :| k in rest;
        if shown[k].state == Busy(s) {
          return Found(k, shown[k]);
        }
        rest := rest - {k};
      }
      result := NotFound;
    }

    /** Try the first candidate of a page. */
    method Attempt(session: SessionId, scan: Scan, page: seq<Key>, next: Option<Key>,
                   ghost from: nat, ghost walked: seq<Move>)
      returns (write: Write, ghost path: seq<Move>)
      requires Valid() && from < |history| && page != [] && page[0] !in scan.tried
      requires Walks(walked, history, from, session, Try(scan, page, next))
      modifies this`table, this`index, this`registrations, this`history, this`script, this`shown, this`shownAt
      ensures Valid() && old(history) <= history && |script| <= |old(script)|
      ensures walked < path && Fetches(path) == Fetches(walked) && Reached(path, from) + 1 == |history|
      ensures write.Written? ==>
                && BusyWith(Now(), page[0], session)
                && Walks(path, history, from, session,
                         Check(page[0], table[page[0]].incarnation, ListedHost(scan, page[0])))
      ensures write.ConditionFailed? ==> Walks(path, history, from, session, Rejected(scan, page, next))
      ensures write.WriteFailed? ==> Walks(path, history, from, session, Phase.Failed)
      ensures old(Faultless()) ==> Faultless() && !write.WriteFailed?
      ensures old(Alone()) ==> Alone()
      ensures old(Alone()) && Tight(walked, old(history), from) ==> Tight(path, history, from)
    {
      ghost var past;
      write, past := AssignSession(page[0], session);
      ghost var choice := if write.WriteFailed? then ClaimFails(Now() != Last(past)) else Claim;
      path := WalkClaim(walked, old(history), past, Now(), from, session, scan, page, next, choice);
    }

    /** Try the candidates of one page in order, remembering the ones that were taken. */
    method AssignFirst(session: SessionId, scan: Scan, page: seq<Key>, next: Option<Key>,
                       ghost from: nat, ghost walked: seq<Move>)
      returns (result: AcquireResult, tried: set<Key>, ghost path: seq<Move>)
      requires Valid() && from < |history|
      requires Walks(walked, history, from, session, Try(scan, page, next))
      modifies this`table, this`index, this`registrations, this`history, this`script, this`shown, this`shownAt
      ensures Valid() && old(history) <= history && |script| <= |old(script)|
      ensures walked <= path && Fetches(path) == Fetches(walked)
      ensures result.NoIdleRunner? ==>
                && Walks(path, history, from, session, Try(scan.(tried := tried), [], next))
                && tried == scan.tried + KeysOf(page)
      ensures result.Acquired? ==> EndsAcquired(path, from, session, result.runner, result.record)
      ensures result.AcquireFailed? ==> Walks(path, history, from, session, Phase.Failed)
      ensures old(Faultless()) ==> Faultless() && !result.AcquireFailed?
      ensures old(Alone()) ==> Alone()
      ensures old(Alone()) && Tight(walked, old(history), from) ==> Tight(path, history, from)
    {
      tried, path := scan.tried, walked;
      var rest := page;
      while rest != []
        invariant Valid() && old(history) <= history && |script| <= |old(script)|
        invariant Walks(path, history, from, session, Try(scan.(tried := tried), rest, next))
        invariant walked <= path && Fetches(path) == Fetches(walked)
        invariant tried + KeysOf(rest) == scan.tried + KeysOf(page)
        invariant (old(Faultless()) ==> Faultless()) && (old(Alone()) ==> Alone())
        invariant old(Alone()) && Tight(walked, old(history), from) ==> Tight(path, history, from)
        decreases |rest|
      {
        var k := rest[0];
        KeysOfHead(rest);
        if k in tried {
          path := WalkJump(path, history, from, session, scan.(tried := tried), rest, next);
        } else {
          var write;
          write, path := Attempt(session, scan.(tried := tried), rest, next, from, path);
          if write.Written? {
            return Acquired(k, table[k].(host := ListedHost(scan, k))), tried, path;
          } else if write.WriteFailed? {
            return AcquireFailed, tried, path;
          }
          tried := tried + {k};
        }
        rest := rest[1..];
      }
      result := NoIdleRunner;
    }

    /** The steps lead to the health check of this record, and the last thing that happened is the claim. */
    ghost predicate EndsAcquired(path: seq<Move>, from: nat, session: SessionId, k: Key, record: Runner)
      reads this
    {
      && Walks(path, history, from, session, Check(k, record.incarnation, record.host))
      && Reached(path, from) + 1 == |history| && record.state == Busy(session)
    }

    /** Fetch the next page; `after` is the scan with the hosts it lists. */
    method FetchPage(session: SessionId, scan: Scan, ghost from: nat, ghost walked: seq<Move>)
      returns (ok: bool, page: seq<Key>, next: Option<Key>, after: Scan, ghost path: seq<Move>)
      requires Valid() && from < |history| && Walks(walked, history, from, session, Query(scan))
      modifies this
      ensures Valid() && old(history) <= history && acquires == old(acquires)
      ensures !old(Alone()) ==> |script| < |old(script)|
      ensures walked < path && queries == old(queries) + 1 && Fetches(path) == Fetches(walked) + 1
      ensures after == scan.(listed := after.listed)
      ensures Walks(path, history, from, session, if ok then Try(after, page, next) else Phase.Failed)
      ensures old(Faultless()) ==> Faultless() && ok
      ensures old(Alone()) ==> Alone()
      ensures old(Alone()) && Tight(walked, old(history), from) ==> Tight(path, history, from)
    {
      var listed;
      ok, page, listed, next := QueryIdlePage(scan);
      after := scan.(listed := listed);
      if ok {
        path := WalkFetch(walked, old(history), history, from, session, scan, page, next);
        assert after == Copied(scan, Now(), page);
      } else {
        path := WalkFetchFails(walked, old(history), history, from, session, scan);
      }
    }

    /** One round of the scan: fetch a page and try its candidates; `after` is the scan with what it has learnt. */
    method TryPage(session: SessionId, scan: Scan, ghost from: nat, ghost walked: seq<Move>)
      returns (result: AcquireResult, next: Option<Key>, after: Scan, ghost path: seq<Move>)
      requires Valid() && from < |history| && Walks(walked, history, from, session, Query(scan))
      modifies this
      ensures Valid() && old(history) <= history && |script| <= |old(script)|
      ensures !old(Alone()) ==> |script| < |old(script)|
      ensures walked < path && queries == old(queries) + 1 && Fetches(path) == Fetches(walked) + 1
      ensures acquires == old(acquires)
      ensures result.NoIdleRunner? ==>
                && Walks(path, history, from, session, LeavePage(after, next))
                && after == scan.(tried := after.tried, listed := after.listed)
      ensures result.Acquired? ==> EndsAcquired(path, from, session, result.runner, result.record)
      ensures result.AcquireFailed? ==> Walks(path, history, from, session, Phase.Failed)
      ensures old(Faultless()) ==> Faultless() && !result.AcquireFailed?
      ensures old(Alone()) ==> Alone()
      ensures old(Alone()) && Tight(walked, old(history), from) ==> Tight(path, history, from)
    {
      var ok, page;
      ok, page, next, after, path := FetchPage(session, scan, from, walked);
      if !ok {
        return AcquireFailed, next, after, path;
      }
      var tried;
      result, tried, path := AssignFirst(session, after, page, next, from, path);
      if result.NoIdleRunner? {
        path := WalkJump(path, history, from, session, after.(tried := tried), [], next);
      }
      after := after.(tried := tried);
    }

    /** The two segments, page by page, until a runner is claimed or none is left to try. */
    method ScanSegments(session: SessionId, start: Key) returns (result: AcquireResult, ghost path: seq<Move>)
      requires Valid()
      modifies this
      ensures Valid() && old(history) <= history && |script| <= |old(script)|
      ensures !old(Alone()) ==> |script| < |old(script)|
      ensures path != [] && path[0].choice == Begin(start)
      ensures queries == old(queries) + Fetches(path) && acquires == old(acquires)
      ensures result.NoIdleRunner? ==> Walks(path, history, |old(history)| - 1, session, Lost)
      ensures result.Acquired? ==> EndsAcquired(path, |old(history)| - 1, session, result.runner, result.record)
      ensures result.AcquireFailed? ==> Walks(path, history, |old(history)| - 1, session, Phase.Failed)
      ensures old(Faultless()) ==> Faultless() && !result.AcquireFailed?
      ensures old(Alone()) ==> Alone() && Tight(path, history, |old(history)| - 1)
    {
      ghost var from := |history| - 1;
      path := WalkBegin(history, session, start);
      var scan := Scan(start, After, None, {}, map[]);
      var more := true;
      while more
        invariant Valid() && old(history) <= history && |script| <= |old(script)|
        invariant !old(Alone()) && !more ==> |script| < |old(script)|
        invariant path != [] && path[0].choice == Begin(start)
        invariant Walks(path, history, from, session, if more then Query(scan) else Lost)
        invariant queries == old(queries) + Fetches(path) && acquires == old(acquires)
        invariant old(Faultless()) ==> Faultless()
        invariant old(Alone()) ==> Alone() && Tight(path, history, from)
        decreases more, if more then QueryRank(scan) else 0
      {
        ghost var walked := path;
        var next, after;
        result, next, after, path := TryPage(session, scan, from, path);
        RankAlong(walked, path);
        if !result.NoIdleRunner? {
          return;
        }
        if next.Some? {
          scan := after.(cursor := next);
        } else if scan.segment.After? {
          scan := after.(segment := UpTo, cursor := None);
        } else {
          more := false;
        }
      }
      result := NoIdleRunner;
    }

    /**
     Take an idle runner for the session, scanning from `start` to the end of the key order
     and then from its beginning up to `start`.

     The call is a walk of the step machine through the table's own history.  NoIdleRunner means
     that no runner was visible from the call's first moment to its last, and failure that a store
     operation failed.  The record returned has the host the index listed; nobody who was visible
     all the time up to its claim comes sooner behind `start`.  With nobody else about, the call takes
     a runner iff one is visible, a call that takes none changes nothing, and n listed runners cost at
     most n / 5 + 2 queries.
     */
    method AcquireIdle(session: SessionId, start: Key) returns (result: AcquireResult, ghost path: seq<Move>)
      requires Valid()
      modifies this
      ensures Valid() && old(history) <= history
      ensures Walks(path, history, |old(history)| - 1, session, EndOf(result))
      ensures queries == old(queries) + Fetches(path) && acquires == old(acquires) + 1
      ensures result.NoIdleRunner? ==> NoneVisibleSince(history, |old(history)| - 1)
      ensures result.Acquired? ==> Claimed(history, |old(history)| - 1, result.runner, result.record, session)
      ensures result.Acquired? ==> FirstInLine(history, |old(history)| - 1, start, result.runner)
      ensures |script| <= |old(script)| && (!old(Alone()) ==> |script| < |old(script)|)
      ensures old(Faultless()) ==> Faultless() && !result.AcquireFailed?
      ensures old(Alone()) ==> Alone()
      ensures old(Alone()) ==> queries <= old(queries) + |old(index)| / 5 + 2
      ensures old(Alone()) && result.NoIdleRunner? ==> Now() == old(Now()) && Visible(Now()) == {}
      ensures old(Alone()) && result.Acquired? ==>
                && TurnedOver(old(Now()), Now(), result.runner, session)
                && result.runner in old(index) && result.record.host == old(index)[result.runner]
    {
      ghost var from := |history| - 1;
      ghost var before := Now();
      result, path := ScanSegments(session, start);
      acquires := acquires + 1;
      assert history[from] == before && Last(history) == Now();
      if result.NoIdleRunner? {
        LostSawNobody(path, history, from, session);
        if old(Alone()) {
          LostAlone(path, history, from, session, before, Now());
        }
      } else if result.Acquired? {
        WalkClaims(path, history, from, session, result.runner, result.record);
        ClaimIsFirstInLine(path, history, from, session, start);
        if old(Alone()) {
          ClaimsAlone(path, history, from, session, before, Now(), result.runner, result.record);
        }
      }
    }
  }

  /** Where the machine stands when AcquireIdle returns. */
  function EndOf(result: AcquireResult): Phase {
    match result
    case Acquired(k, record) => Check(k, record.incarnation, record.host)
    case NoIdleRunner => Lost
    case AcquireFailed => Phase.Failed
  }
}
