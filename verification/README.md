# Verified model of the session broker, the stack router and the shell stream

The system hands every browser session a runner of its own and streams the output of the
commands typed there. Three parts of it hold the state that matters, and this project models
them as the code has them:

* **The runner pool.** Brokers share one table of runners. `AcquireIdle` scans a lagging index of
  the idle ones from a random start, five to a page, and claims a candidate by a conditional
  write; `createSession` goes on until a claimed runner passes its health check and deletes the
  records that do not. `RunnerPool` is the table, its index with copied hosts, and their atomic
  operations; `IdleScan` one acquisition as a machine of single store operations; `Brokers` any
  number of such machines interleaved with registrations, deregistrations, whatever the index
  does, and requests that look up a session's record and later delete by its id.
  `Allocation` and `SessionLife` are about whole runs. `DynamoStore` and `Sessions` are the
  repository and the service as objects with loops. What their `AcquireIdle` does is proved to be
  a walk of the machine (`AcquireWalk`): each step taken in a world of the table's own history, in
  order, each write leading to the next world.
* **Routing across stacks.** `StackList`, `SessionIds`, `ResolveCore`, `BrokerHandler` and `Router`
  are the list and cookie formats, the router's decisions, the broker's fallback signal, and the
  two router scripts. `Journey` puts them together: a request on its way through a cluster, where
  what each broker answers and which hop gets through is left open; its steps are the scripts'
  own endings. `Stickiness` joins the two parts: a session created by one stack is found
  again, on its runner, from every entry stack. `PoolFallback` says which stack's pool serves a
  new request.
* **The shell stream.** `ShellText`, `Shell` and `ShellProtocol` are the marker protocol on a
  persistent bash, stdout and stderr; `ShellStderr` is the collector of stderr and `StderrPipe` the
  reads that feed it; `EventStream` the event stream, its producer and its reader (the `data:`
  part of sections 9.2.5 and 9.2.6 of the HTML Living Standard); `CommandAnswer` the way from a
  command's output to what the browser sees. `OutputRows` and `ShellManager` are the height of an
  output block and the table of shells.

Loops and objects that change are methods and classes, each tied to a function of its inputs
and old state; what the source promises is proved about those functions and about the machines.

## Assumptions

* A store operation is one atomic action. It succeeds, fails its condition, or fails with an
  outcome nobody knows: then it may or may not have taken effect. The index may list anything
  under any host; where a result needs it to miss no idle runner, or needs one id to go with
  one host, the statement says so. A full page has a continuation key or, if nothing is behind it,
  perhaps none. The index on sessions shows the table as it was at some earlier time. In `Brokers`
  a look-up counts as made when what it finds was so.
* A runner id is the number its 32 hex digits spell; `RunnerIds` proves that this keeps the order
  of the table. `incarnation` numbers the registrations. The program does not store it; the
  lemmas need it to tell a record from a later one under the same id.
* Session ids of different `createSession` calls differ. Random starts, random ids, health checks,
  cancellations and what other clients do to the table between two operations are parameters; the
  `script` of a `DynamoRepository` is finite but otherwise arbitrary.
* A cluster is a list of distinct lower-case stack names without comma, dot, underscore or white
  space around them, shared by all stacks, and a lower-case domain. Requests from outside do not
  come under an internal host.
* Whether the subrequest for a reassignment inherits the forwarding variables of its parent is the
  parameter `inherits`; the results hold either way.
* Bash appends, for every script, the command's output, a newline, and a line of marker and exit
  code to stdout, and its stderr and a line of the marker to stderr, unless it stops for good. How
  reads cut stderr, and when they happen within a call and between calls, is a parameter.
  Texts are sequences of characters, one to a byte where a length matters.

## What does not hold without more

* *A runner got is a runner kept* holds, whatever registers later and under whatever id, until the
  runner deregisters or a request of the session itself deletes its record, iff at that moment no
  other call is between claiming the same id and deleting it, and no request is pending that found
  another session's record under it (`SessionLife.KeepsRunnerIff`). So it holds when no id was
  reused under a pending call or request before (`SessionLife.WinnerKeepsRunner`).
  `SessionLife.ReusedIdLosesSession` and `SessionLife.LateDropLosesSession` give a run from a fresh
  pool for each of the two. Runners draw their ids at random.
* *A call fails only if a runner is lacking* holds for `AcquireIdle` unless the store fails, whatever other
  brokers do, races lost included; for `createSession` and what calls it unless the store fails or the
  request is cancelled, or a session is found whose id has no separator
  (`DynamoStore.DynamoRepository.AcquireIdle`, `Sessions.BrokerService.ResolveSession`).
* *A call that fails leaves no runner busy* under a session nobody was told of, unless it was
  cancelled between check and delete, or its claim failed but took effect, or its delete failed
  without effect; exactly then it does, until that record is deleted (`SessionLife.LeftBusyIff`).
* *createSession ends* if runners stop registering: it asks for at most one more than were idle or
  have registered since (`Sessions.BrokerService.CreateSession`).
* *A session goes on as it was while its runner is up* holds, unless the store fails, iff the world the
  index on sessions shows has its record on that host (`Sessions.BrokerService.ResolveSession`); a
  session not yet shown gets a new runner (`Sessions.LateIndexLosesSession`).
* *The health check is a check of the runner claimed*: the code checks, and returns, the host in
  the index's copy. That is the runner's own, whatever hosts are up, iff no idle runner is listed
  under another host (`Sessions.ListedHealthIffCopiesTrue`); otherwise a runner that is up can be
  taken for dead (`Sessions.StaleCopyHidesRunner`).
* *The router reads the stack list as the broker does* holds iff no entry has white space around it
  (`StackList.RouterReadsAsBroker`).
* *The stdout delivered is the command's* holds iff no line ends in a carriage return, which the
  line scanner drops (`ShellProtocol.StdoutFidelity`); a command that prints a line starting with
  the marker puts the session out of step, and only such a one (`ShellProtocol.InSyncIffNoForgery`).
* *A session keeps serving commands* until a script cannot be written or stdout ends, or exceeds the line
  limit, before a marker line; a cancelled call alone never breaks it (`ShellProtocol.BrokenIffOneBroke`).
* *The stderr returned is the command's*: the newline behind a marker may come in a later read. It
  is behind the stderr returned iff a read ended between marker and newline and another brought
  the newline before the call looked (`ShellProtocol.CallDelivers`), and in front of the next
  call's iff the reads stopped right behind the marker and none followed before the buffer was
  cleared (`ShellProtocol.LateIffReadsStopped`). The marker itself is found in its place iff the
  stderr does not contain it and does not end in the marker less its last one or two underscores
  (`ShellStderr.CleanIff`). The comment at runner/shell.go:60 speaks of a short delay; the code waits
  for the marker instead, and the model follows the code.
* *The reserved rows are an upper bound*, as the comment at front/src/outputBlock.ts:15 has it, holds
  for plain text iff the number of columns is even (`OutputRows.EnoughIffEven`), and so does that
  adding them makes room for any write (`OutputRows.FitsIffEven`): on an odd number a full-width
  character that does not fit leaves a cell unused on every row. Plain text (`OutputRows.Plain`) is
  newlines, printable characters, controls that move the cursor back or not at all, and escape
  sequences for styles, for erasing in the line and for the usual character set. Of what is
  not plain, vertical tabs, form feeds and the two C1 line feeds (`OutputRows.FeedsOverflow`), tabs
  (`OutputRows.TabsOverflow`), and escape sequences that feed lines, contain a newline or are shorter
  than the count takes them to be (`OutputRows.UnseenOverflows`) each take, from six columns on, more
  rows than any fixed number beside the reserved ones.
* The check against the `tried` set at broker/store/dynamo.go:123 never finds anything
  (`IdleScan.NoCandidateRepeats`).

## Model

| member | source | states |
|---|---|---|
| RunnerIds.OrderOfIds | broker/store/repository.go:28-30 | on ids of one length, character order is number order and the spelling is unique |
| RunnerIds.KeySpaceIsEnough | broker/store/repository.go:30 | every runner id is a number below 16 to the 32nd |
| RunnerIds.RunnerIdChars | broker/store/repository.go:30 | a runner id is 32 characters out of 0-9 and a-f, and every such text is one |
| RunnerPool.EvolvesTransitive | broker/store/dynamo.go:164-187 | what may have become of the records over two stretches of time is what may have become of them over both |
| RunnerPool.RegisterKeepsRecords | broker/store/dynamo.go:79-92 | registering keeps incarnations and sessions unique and leaves every existing record as it is |
| RunnerPool.AssignKeepsRecords | broker/store/dynamo.go:164-187 | assigning a session that has no record keeps them unique, makes no record and changes no busy one |
| RunnerPool.DeleteKeepsRecords | broker/store/dynamo.go:263-274 | a delete keeps the other records as they are |
| IdleScan.FetchKeepsShape | broker/store/dynamo.go:140-161 | after a page no listed key the scan had ahead is lost, and no key already tried comes ahead again |
| IdleScan.LeaveKeepsShape | broker/store/dynamo.go:100-117 | going on to the next page or segment loses no key either |
| IdleScan.RejectKeepsShape | broker/store/dynamo.go:132-135 | a lost race puts exactly that key behind the scan |
| IdleScan.NoCandidateRepeats | broker/store/dynamo.go:121-125 | no candidate of a page has been tried: each runner is attempted at most once per call |
| IdleScan.StepKeepsScan | broker/store/dynamo.go:97-138 | through every step of a call a runner that stays idle and listed stays ahead of the scan |
| IdleScan.RankFalls | broker/store/dynamo.go:97-138 | every step of an acquisition lowers a rank, however many runners register meanwhile, so it ends |
| IdleScan.FetchSpendsBudget | broker/store/dynamo.go:140-161 | on a fixed index each query uses up one of the bound |
| IdleScan.QueryBudgetOfCall | broker/store/repository.go:24-26 | the bound of a whole call is n / 5 + 2 queries for n listed runners, from any start |
| IdleScan.PageExists | broker/store/dynamo.go:140-161 | whatever the index holds, a query has an answer |
| Brokers.StepKeepsScansSound | broker/store/dynamo.go:97-138 | whoever acts, every running scan keeps all persistently visible runners ahead |
| Brokers.RunKeepsScansSound | broker/store/dynamo.go:97-138 | so it is over every run |
| Brokers.ScanCompleteness | broker/store/dynamo.go:94-118 | when a call ends with ErrNoIdleRunner, no runner was idle and listed all the way from its start to its end, whatever others did and wherever it started |
| Brokers.StepKeepsExclusive | broker/store/dynamo.go:164-187 | every action of anybody, late deletes included, keeps each incarnation granted once, each session on one record, and grants on record |
| Brokers.RunKeepsExclusive | broker/service/service.go:106-127 | the same in every reachable state, and no busy record ever went back to idle or changed its session |
| Brokers.OnlyRegisteringCreates | broker/store/dynamo.go:164-187 | without a registration no record appears: no assignment, whatever its outcome, recreates a deleted one |
| Brokers.HoldersDiffer | broker/service/service.go:106-127 | no two calls hold the same incarnation of a runner |
| Brokers.WinnersDiffer | broker/service/service.go:106-127 | nor do they ever come back with the same one, in any run from calls not yet begun |
| Allocation.CalmStepKeepsAccount | broker/service/service.go:106-127 | on a fixed pool every healthy runner stays idle or is held by exactly one call |
| Allocation.FinishedAccount | loadtest/session_uniqueness.js:15-28 | in a state so accounted for where all calls have ended, min(M, N) have a runner |
| Allocation.ExactAllocation | loadtest/session_uniqueness.js:15-28 | M calls in any interleaving on N idle runners whose host passes the check, one id going with one host: exactly min(M, N) get one, all different, recorded as theirs and returned with their own host; every other call ends with ErrNoIdleRunner |
| Allocation.CalmProgress | broker/service/service.go:112-126 | a call that has not ended can always take a step |
| Allocation.CalmRunEnds | broker/service/service.go:112-126 | the calls together take a bounded number of steps |
| Allocation.CalmRunCanFinish | broker/service/service.go:112-126 | from every such state all calls can be brought to their end |
| SessionLife.SessionSticks | broker/service/service.go:137-149 | while a session's record is there it is the same record on the same host and the session's only one, whatever the others did |
| SessionLife.GoneForGood | broker/store/dynamo.go:263-274 | a deleted record never comes back: a later one under its id is a new registration |
| SessionLife.KeepsRunnerIff | broker/service/service.go:106-127 | a session keeps its runner through every run without a deregistration or a delete for the session itself, whatever registers, iff no other call is just then between claiming that id and deleting it and no request is pending that found another session's record under it |
| SessionLife.PendingDeleteStrikes | broker/service/service.go:117-125 | such a call can take the runner away by its own next steps alone |
| SessionLife.LateDropStrikes | broker/service/service.go:129-155 | such a request can too, by its delete |
| SessionLife.FreshIdsKeepOwn | broker/service/service.go:112-155 | while ids are not reused under pending calls and requests, each holds the very record it claimed or found |
| SessionLife.WinnerKeepsRunner | broker/service/service.go:122-125 | if no id was reused under a pending call or request by the time a call has its runner, it keeps it until a delete on purpose, however ids are reused later |
| SessionLife.KeepsRunnerIffNotTaken | broker/service/service.go:117-125 | a session that is served now is so at the end of a run iff no step of it deleted the record under that id |
| SessionLife.StaysIffNotTaken | broker/store/dynamo.go:263-274 | when a call is over, got a runner or failed, its session stays on its record to the end of a run iff no step deleted that id's record, and is otherwise on none |
| SessionLife.LeftBusyIff | broker/service/service.go:112-126 | after a failed call its session is on a record at the end of a run iff it was cancelled between check and delete, or its claim failed but took effect, or its delete failed without effect, and nobody deleted that record since |
| SessionLife.ReusedIdLosesSession | broker/service/service.go:122-125 | a run in which the pending delete of one call takes away the runner of another |
| SessionLife.LateDropLosesSession | broker/service/service.go:129-155 | a run without any such call in which the late delete of a request for one session takes away the runner of another |
| AcquireWalk.VisibleLiesAhead | broker/store/dynamo.go:97-118 | a runner visible at every step of a call lies ahead of its scan, which therefore does not give up |
| AcquireWalk.LostSawNobody | broker/store/dynamo.go:94-118 | a walk of the history that ends with ErrNoIdleRunner had no runner idle and listed in every world since it began |
| AcquireWalk.RankAlong | broker/store/dynamo.go:97-118 | every further step of a walk costs rank, so no walk is longer than its first rank |
| AcquireWalk.HostWasListed | broker/store/dynamo.go:121-130 | the host that comes back is one under which a query of this call found the runner listed |
| AcquireWalk.CallStaysInBudget | broker/store/dynamo.go:97-118 | a walk whose queries all find the same n runners listed has at most n / 5 + 2 of them |
| AcquireWalk.CallAlone | broker/store/dynamo.go:97-118 | a walk with nobody else in between: ErrNoIdleRunner iff none was visible and then nothing has changed, else one listed idle runner turned over under its listed host |
| AcquireWalk.WalkClaims | broker/store/dynamo.go:126-131 | the last thing that happened in a walk that ends with a runner is that this idle record was turned over to the session |
| AcquireWalk.ClaimIsFirstInLine | broker/store/dynamo.go:94-118 | no runner visible in every world of a walk comes before the one it ends with, in the order that begins behind the random start and wraps around |
| DynamoStore.DynamoRepository.QueryIdlePage | broker/store/dynamo.go:140-161 | a successful query returns a page the index allows, with the hosts as listed, a full last page with or without a continuation key; it is counted even when it fails |
| DynamoStore.DynamoRepository.AssignSession | broker/store/dynamo.go:164-187 | written iff the record was idle in the world right before, and then exactly that record is the session's; a failed write has either no effect or the whole one, and without a store fault there is none |
| DynamoStore.DynamoRepository.Delete | broker/store/dynamo.go:263-274 | the record is gone and no other changed, or the outcome is unknown, and that only by a store fault |
| DynamoStore.DynamoRepository.Register | broker/store/dynamo.go:62-92 | a malformed id or empty host never reaches the store; an id in use is a conflict and its record stays; otherwise one idle record is new and nothing else; without a store fault no other error |
| DynamoStore.DynamoRepository.FindBySessionID | broker/store/dynamo.go:219-240 | finds a record that is the session's in the world the index shows, and reports none only if that world has none; the index never falls back behind what it showed |
| DynamoStore.DynamoRepository.Attempt | broker/store/dynamo.go:126-135 | one conditional write is one step of the walk, in the world right before it, whether it is made, refused, or fails with its effect unknown |
| DynamoStore.DynamoRepository.AssignFirst | broker/store/dynamo.go:120-138 | the loop over a page prolongs the walk: it claims a candidate, fails, or has tried all of them and remembers them |
| DynamoStore.DynamoRepository.TryPage | broker/store/dynamo.go:102-115 | one round prolongs the walk by one query and its candidates, to a runner claimed, a failure, or the next page or segment; with nobody else about the walk is the whole history |
| DynamoStore.DynamoRepository.ScanSegments | broker/store/dynamo.go:100-117 | both segments, page by page: ends under any interference, as a walk from the call's first world, every query counted |
| DynamoStore.DynamoRepository.AcquireIdle | broker/store/dynamo.go:97-118 | a walk of the step machine through the history of the call; no idle runner only if none was visible throughout; a runner was idle when claimed, has the host the index listed, and is the first behind the start, in cyclic order, of all visible throughout; whatever others do, without a store fault it does not fail; alone, a runner iff one is visible and otherwise nothing changed, within n / 5 + 2 queries on n listed runners |
| Sessions.PurgedKeepsHealthy | broker/service/service.go:117-125 | deleting only what failed the check leaves the idle runners with a healthy listed host as they were |
| Sessions.ListedHealthIffCopiesTrue | broker/store/dynamo.go:121-130 | checking the listed hosts is checking the runners' own, whatever hosts are up, iff no idle runner is listed under another host |
| Sessions.StaleCopyHidesRunner | broker/service/service.go:117-125 | a table and index on which a runner that is up fails the check |
| Sessions.BrokerService.TryRunner | broker/service/service.go:112-126 | under any interference, a runner returned was idle when claimed and its listed host is healthy; a round without result claimed a record whose listed host is down and later deleted what was under that id, uncancelled; without a store fault it fails only when cancelled; alone: a runner, or none visible and nothing changed, or one idle record whose listed host failed its check deleted and nothing else |
| Sessions.BrokerService.CreateSession | broker/service/service.go:106-127 | asks for at most one runner more than were idle at its start or registered during the call; what it returns was idle when claimed, and its listed host is healthy; ErrNoIdleRunner only if no runner was visible throughout; whatever others do, without a store fault and a cancellation it does not fail, and no round but the last was cancelled; alone it succeeds iff some idle runner's listed host is healthy, deletes only idle records whose listed host fails the check, and leaves no idle record on ErrNoIdleRunner |
| Sessions.BrokerService.CloseSession | broker/service/service.go:129-135 | under any interference, deletes the one id under which a world since the one the index showed had the session, and nothing else; reports none only when such a world had none; without a store fault it does not fail |
| Sessions.BrokerService.LookUp | broker/service/service.go:138-161 | under any interference, answers what one world since the one the index showed holds of the session: its own host if healthy, else a new session is wanted, because there is none or because its host was down and what was under that id has been deleted; without a store fault and a cancellation only an id without separator fails; alone on up-to-date indexes, a live session is answered and nothing changed, a dead record is dropped and only that |
| Sessions.BrokerService.ResolveSession | broker/service/service.go:137-173 | a session alive on one host since the world the index showed resolves to that host, nothing new, or the store failed, whatever the others do; unless it failed, a session goes on on a healthy host iff the world it was looked up in has its record there; a new one has this stack's id, got its runner during the call, and is marked reassigned if its dead record was deleted and unmarked if there was none; without a store fault and a cancellation only an id without separator fails; alone on up-to-date indexes a live session does resolve so, and any other gets a new one iff an idle runner's listed host is healthy |
| Sessions.LateIndexLosesSession | broker/store/dynamo.go:219-234 | a session whose runner is up and whose record an index that lags by one write does not show: every answer wants a new one |
| Stickiness.StaysAlive | broker/service/service.go:137-149 | through any run of all brokers that does not delete the record, the session stays alive on its one record and host |
| Stickiness.SessionIsSticky | broker/handler/handler.go:95-105 | created by stack B as s on host h, s being the cookie the router sets from B's response: while the record is not deleted and h is up, a request with that cookie from any entry stack reaches B with no other broker asked, is answered with h, the same hex and no new cookie from every world the index may show since, unless the store fails, and is served there |
| SessionIds.CutIsSpan | broker/service/service.go:102-104 | the cut is at the first separator |
| SessionIds.RouterAgreesWithBroker | nginx/lua/resolve_core.lua:85-90 | the router's pattern finds the broker's prefix, on every id with a non-empty one and on no other |
| SessionIds.CutInvertsNamespaced | broker/service/service.go:98-104 | cutting undoes namespacing iff the prefix has no separator |
| SessionIds.RouterInvertsNamespaced | nginx/lua/resolve_core.lua:85-90 | and then the router names the stack that issued the id, and only then |
| StackList.NamesOfJoin | broker/handler/handler.go:118-121 | reading a joined list of plain names gives the list back |
| StackList.ReadingIsStable | broker/stacklist/stacklist.go:10-18 | reading, joining and reading again is reading once, for every raw text |
| StackList.TrimIsMiddle | broker/stacklist/stacklist.go:13 | a trimmed entry is the entry less white space at both ends, and has none there |
| StackList.PiecesOfText | broker/stacklist/stacklist.go:12 | the pieces have no comma and, joined by commas, are the text |
| StackList.RouterReadsAsBroker | nginx/lua/resolve_core.lua:42-47 | the router's reading is the broker's iff no entry has white space around it |
| StackList.Split | broker/stacklist/stacklist.go:10-18 | the loop computes the trimmed, non-empty entries in order |
| StackList.Parse | broker/stacklist/stacklist.go:30-52 | the rotation behind self, and whether self is listed |
| StackList.Rotate | broker/stacklist/stacklist.go:32-51 | the same on a list already split |
| StackList.RotationKeepsTheOthers | broker/stacklist/stacklist.go:20-22 | for any list: never self, every other entry as often as listed, and the list as it is when self is not on it |
| StackList.RotationOfDistinct | broker/stacklist/stacklist.go:20-22 | for distinct names: from behind self to the end, then from the beginning up to self |
| StackList.RotationsSpreadLoad | broker/stacklist/stacklist.go:24-26 | at every position the stacks name every stack exactly once among them |
| ResolveCore.InternalIffKnown | nginx/lua/resolve_core.lua:100-112 | a host is internal iff it is a known, dotless stack name under the internal domain |
| ResolveCore.LowerOfHost | nginx/lua/resolve.lua:7 | the lower-cased host is that of the lower-cased stack and domain |
| ResolveCore.ForwardedIsInternal | nginx/lua/resolve_core.lua:93-119 | the host a router forwards to is internal for its receiver iff the name has no dot, is known in lower case, and the domain is in lower case |
| ResolveCore.ResolveCore.Configure | nginx/lua/resolve_core.lua:34-58 | accepted iff stack, domain, list and port are good and the stack is listed; a refused one leaves the settings |
| ResolveCore.ResolveCore.FallbackRemainingExcluding | nginx/lua/resolve_core.lua:72-83 | all stacks but this one and the excluded one, in list order; nothing iff there is no such stack |
| BrokerHandler.Handler.SignalFallback | broker/handler/handler.go:109-129 | names the head of the list it was given, or of its own order, and passes on the tail |
| BrokerHandler.Handler.GetResolveSession | broker/handler/handler.go:83-106 | 200 with the session's headers, 503 with the signal, or 500 with none, by the outcome; on 200 the cookie is set iff the session is new, to prefix, separator and hex, and the mark iff it is a replacement; without a store fault and a cancellation only an id without separator gets 500; a session alive since the world the index showed is answered with its host whatever others do, unless the store fails; alone on up-to-date indexes and without a session to go on with, 200 iff an idle runner's listed host is healthy |
| Router.NginxRequest.Resolve | nginx/lua/resolve.lua:7-85 | the broker is asked iff the request belongs here, with the trusted headers only; a 200 with a valid host is served there with exactly the reply's cookie, mark, hex and stack name, with an invalid one it is 500; a 503 that names a known stack is sent there with the reply's remaining list; any other status is passed on as it is; each ending is the step a trip of `Journey` takes |
| Router.NginxRequest.Reassign | nginx/lua/reassign.lua:10-57 | served iff the reply is a 200 with a valid host and a cookie, and then with exactly that cookie, hex and stack name; without the cookie 500, nothing marked; a 503 that names a known stack is sent on there, with no cookie set; served or sent on, it is marked reassigned; any other status is passed on as it is; each ending is a trip's step |
| Router.ArrivalByCookie | nginx/lua/resolve_core.lua:146-164 | a request without a trusted fallback header is handled here if its cookie is absent, names no stack or names this one, goes to the owner if that is another known stack, and is refused with 500 if the owner is unknown |
| Journey.HopKeepsHeaders | nginx/nginx.conf:202-223 | forwarding headers of a hop to a known stack are read unchanged |
| Journey.SignalIsRead | broker/handler/handler.go:109-129 | the router reads the broker's signal as the head of the pool with its tail |
| Journey.ChainStep | nginx/lua/resolve_core.lua:181-197 | a broker's answer on the chain ends the trip there or leaves a chain shorter by one, accepted by its receiver |
| Journey.ReassignStep | nginx/lua/reassign.lua:10-42 | so it is after a reassignment, without the cookie |
| Journey.ReassignPoolIsShorter | nginx/lua/resolve_core.lua:72-83 | the list after a reassignment has fewer stacks than the cluster |
| Journey.RemainingIsOthers | nginx/lua/resolve_core.lua:72-83 | the list after a lost owner names every stack of the cluster but the entry and the owner, and no other, in list order |
| Journey.ReassignedChain | nginx/lua/reassign.lua:10-42 | after a lost owner exactly the entry stack and then a list are asked, up to the first that has a runner; unserved, and then with 503, iff none has; the list is all other stacks but the owner, in list order, if the subrequest inherits it, else the entry stack's whole order |
| Journey.StepKeepsSound | nginx/nginx.conf:87-223 | every step keeps the trip sound, within its budget of resolutions, and nearer its end |
| Journey.TripStaysInBudget | nginx/nginx.conf:87-223 | so does every sequence of steps |
| Journey.JourneyEnds | nginx/nginx.conf:87-223 | any cookie, any forged headers, any answers and failing hops: at most one owner forward, at most 2n resolutions, an end within 8n + 3 steps |
| Journey.ChainStepAsServed | broker/handler/handler.go:109-129 | with reachable stacks each step follows the entry stack's order |
| Journey.FallbackChain | broker/handler/handler.go:109-129 | without a cookie exactly the entry stack's order is asked, each stack once, up to the first that has a runner; unserved, and then with 503, iff none has |
| Journey.ChainCanFinish | broker/handler/handler.go:109-129 | from everywhere on the chain such a run to its end exists, whichever stacks have a runner |
| PoolFallback.FirstHealthyPoolServes | broker/handler/handler.go:83-129 | when every broker answers from its pool as GetResolveSession promises, the request is served by the first stack of the order whose pool has a healthy idle runner, and unserved with 503 iff no pool has |
| Journey.OrderIsDistinct | broker/stacklist/stacklist.go:30-52 | the order names no stack twice |
| Journey.OrderIsWholeCluster | broker/stacklist/stacklist.go:30-52 | it names every stack of the cluster |
| Journey.LostOwnerIsReplaced | nginx/nginx.conf:123-173 | in every run, the entry stack comes back for a new session iff the owner's side, be it the hop, the broker, the runner or the chain behind it, answers with 502 or 504; any other answer is the trip's, with that very status |
| Journey.CookieComesHome | nginx/lua/resolve_core.lua:146-164 | a cookie issued by a stack brings the request to that stack's broker by at most one owner forward, cookie intact, from every entry stack |
| ShellText.TerminateOfSplit | runner/shell.go:286-292 | the lines of a text, each terminated, are the text and a newline |
| ShellText.ScanOfLine | runner/shell.go:155-158 | a line below 1 MiB is scanned as it is, less its last character if that is a carriage return; a longer one is an error |
| ShellText.AtoiOfItoa | runner/shell.go:291-295 | a decimal exit code is read back |
| ShellText.AtoiOfSigned | runner/shell.go:292 | a sign before it is read as such; beyond 64 bits it is an error |
| ShellText.AtoiNeedsDigits | runner/shell.go:292-295 | what is read as a code is digits behind at most one sign, and at least one |
| Shell.BashShell.Deliver | runner/shell.go:306-324 | sends a held-back blank line and then the line, unless it is blank; stops at a cancelled send |
| Shell.BashShell.ScanToMarker | runner/shell.go:286-325 | reads on to the marker even after a failed send; what was sent is a prefix of the messages |
| Shell.BashShell.ReadOutput | runner/shell.go:286-333 | how the reading ended decides the result and whether the session is broken |
| Shell.BashShell.ExecuteStream | runner/shell.go:243-333 | result, messages and the session left behind, stdout and stderr, are those of `Execute`, whose laws are the rows of ShellProtocol |
| Shell.BashShell.CheckStderrMarker | runner/shell.go:203-221 | takes out the first marker, with its newline if it is there, and closes the done channel once |
| Shell.BashShell.ReadStderr | runner/shell.go:184-198 | the loop leaves what `Reads` says, read by read |
| ShellProtocol.RunnerMarkerIsGood | runner/shell.go:254 | every marker of the code's shape is what the results below ask of a marker |
| ShellProtocol.ReadTranscript | runner/shell.go:261-305 | reading what bash wrote finds the command's lines, its exit code and the end of the text |
| ShellProtocol.StopsAtMarkerLine | runner/shell.go:288-305 | the first marker line ends the call, with all behind it left unread: with an unreadable code it fails, and breaks the session iff a send had failed; otherwise the session is whole, and the call fails iff a send had |
| ShellProtocol.ReadWithoutMarker | runner/shell.go:288-332 | a text without a marker line is read to its end, the last line though unended, less one carriage return a line |
| ShellProtocol.ReadOverLimit | runner/shell.go:327-330 | lines before one that is too long are read, and reading stops at it |
| ShellProtocol.InSyncIffNoForgery | runner/shell.go:289-305 | after a call that is over, cancelled or not, nothing is left unread on stdout and the session is whole iff no line passed for the marker |
| ShellProtocol.MessagesSayFront | runner/shell.go:282-286 | delaying blank lines drops exactly one trailing blank line |
| ShellProtocol.MessagesAreLines | runner/shell.go:272-280 | every message is one line, not more, with its newline |
| ShellProtocol.StdoutFidelity | runner/shell.go:261-325 | the messages make up the output, its last line terminated, iff no line ends in a carriage return |
| ShellProtocol.CallDelivers | runner/shell.go:243-325 | a call is over once its stderr marker is read; it returns the exit code and its own stderr, behind the late newline if one was left and before its marker's own iff a read ended between marker and newline and another brought it, and sends all messages; a cancelled one fails after a prefix; the session stays in step |
| ShellProtocol.StderrWhenLooked | runner/shell.go:184-235 | for all reads before, during and after opening, the buffer a call looks at is late newline, stderr and tail; until the marker has been read it is awaited |
| ShellProtocol.LateIffReadsStopped | runner/shell.go:223-259 | after any calls, a call finds a newline in front of its stderr iff the reads of the last one stopped right behind its marker and none followed; it never finds anything else |
| ShellProtocol.SessionStaysInStep | runner/shell.go:243-333 | over any calls the session is broken, or has nothing unread on stdout and at most the last marker's newline on stderr |
| ShellProtocol.CallsAreIndependent | runner/shell.go:243-333 | every call either fails without bash getting its script or does what it would have done first, with at most one late newline in front of its stderr |
| ShellProtocol.BrokenForGood | runner/shell.go:248-250 | a broken session stays as it is |
| ShellProtocol.BrokenIffOneBroke | runner/shell.go:243-333 | over any calls of proper commands that return, the session is broken iff one of them was not cancelled before its script and its write failed or stdout brought no marker line |
| ShellStderr.ReadsAreCollected | runner/shell.go:184-221 | for every cutting into reads the buffer depends only on the text and on where the read that completed the marker ended |
| ShellStderr.DoneWithTheMarker | runner/shell.go:203-221 | the done channel is closed exactly once, in the read that brings the marker's last character |
| ShellStderr.StderrOfCommand | runner/shell.go:184-221 | once the marker has been read, the buffer is what came before it, with the newline behind it iff a read ended between the two and another brought the newline; until then the marker is awaited |
| ShellStderr.CleanIff | runner/shell.go:203-221 | the marker of the code's shape is first found in its place iff stderr does not contain it and does not end in it less its last one or two underscores |
| StderrPipe.ReadsAreChunks | runner/shell.go:184-198 | reads of any sizes collect the pieces of what bash wrote, in order, and leave the rest |
| StderrPipe.LateIsKept | runner/shell.go:203-221 | while only a late newline is there to read, no marker is found and it stays, read or unread |
| StderrPipe.ReadsTrail | runner/shell.go:184-221 | two collectors that differ by a late newline in front do so after any reads |
| StderrPipe.ReadsTrailUnread | runner/shell.go:184-221 | so they do if the newline is still unread, with the first read that brings anything one shorter |
| EventStream.ReadEvents | front/src/client.ts:48-80 | the loop computes `ReadStream`, the reads folded one by one over the unfinished line |
| EventStream.StreamIsReadWhole | front/src/client.ts:48-80 | for every cutting, reading chunk by chunk gives the events of the whole text |
| EventStream.UnendedLineIsRead | front/src/client.ts:56-73 | a stream that breaks off behind its last line, however cut, gives the events it would with that line ended |
| EventStream.SplitGoesOn | front/src/client.ts:57-61 | more text changes only the unfinished last line |
| EventStream.WireIsRead | runner/handler.go:214-217 | reading what was written gives the payloads written |
| EventStream.PayloadOfLine | front/src/client.ts:64-65 | the payload of a data line is what is behind the field name less white space in front; other lines have none |
| EventStream.StreamRoundTrip | front/src/client.ts:48-80 | for every cutting of what was written, reading chunk by chunk gives the payloads |
| EventStream.AnswerIsInOrder | runner/handler.go:174-193 | every interleaving of shell and writer writes the messages in order, then stderr if any, then one completion |
| EventStream.AnswerIs | runner/handler.go:174-193 | what is to be written is one stdout event a message, in order, one stderr event iff there is stderr, and last one completion with the code |
| EventStream.NoDeadlock | runner/handler.go:174-193 | unless the answer is finished, somebody can move |
| CommandAnswer.BrowserSeesWritten | front/src/client.ts:48-80 | for every cutting, the browser sees exactly the events written |
| CommandAnswer.BrowserSeesCommand | runner/handler.go:174-193 | for every cutting of stderr and of the stream and every interleaving, the browser sees the command's messages, its stderr between late newline and tail, and last its exit code; its stdout iff no line ends in a carriage return |
| CommandAnswer.BrowserSeesFailure | runner/handler.go:174-193 | of a call that fails the browser sees what was sent and then a completion with -1, no stderr |
| OutputRows.RequiredRows | front/src/outputBlock.ts:21-42 | the loop computes `Reserved`, whose bound is the next row |
| OutputRows.ReservedByLines | front/src/outputBlock.ts:21-42 | one more plain line behind any text adds twice its length over the columns, rounded up, and one row if the line before it is blank; a single line has one row more |
| OutputRows.ReservedIsEnough | front/src/outputBlock.ts:14-20 | on an even number of columns greedy wrapping never takes more rows, for every plain text and widths up to two |
| OutputRows.EnoughIffEven | front/src/outputBlock.ts:14-20 | the reserved rows are always enough for plain text iff the number of columns is even |
| OutputRows.FitsIffEven | front/src/outputBlock.ts:72-78 | adding them to the rows of a terminal makes room for any plain text, from any place on it, iff the number of columns is even |
| OutputRows.FeedsOverflow | front/src/outputBlock.ts:34-39 | on three or more columns, enough vertical tabs, form feeds, INDs or NELs take more rows than any number beside the reserved ones |
| OutputRows.TabsOverflow | front/src/outputBlock.ts:34-39 | so do tabs on six or more columns |
| OutputRows.UnseenOverflows | front/src/outputBlock.ts:26-33 | for ESC D, ESC E, a newline inside an escape sequence or behind one the count takes to be longer, one row is reserved for any number |
| OutputRows.OutputBlock.Write | front/src/outputBlock.ts:95-103 | nothing written is lost; what is shown only grows and never ends in a newline |
| OutputRows.OutputBlock.WriteAll | front/src/outputBlock.ts:95-103 | shown and held-back text together are all that was written |
| ShellManager.Manager.Create | runner/shell_manager.go:47-68 | a new id is entered; a taken one keeps its shell and the new shell is closed |
| ShellManager.Manager.Delete | runner/shell_manager.go:85-96 | removes the id and closes its shell once; an unknown id changes nothing |
| ShellManager.Manager.CloseAll | runner/shell_manager.go:100-113 | empties the table and closes every shell once, whatever errors come up; an error is returned iff some close failed |
| ShellManager.StepConserves | runner/shell_manager.go:47-113 | every critical section and every close keeps each shell in exactly one place |
| ShellManager.RunConserves | runner/shell_manager.go:47-113 | every run keeps each shell made under one id, in one caller's hands, or closed |
| ShellManager.ReachableIsConserved | runner/shell_manager.go:29-113 | so it is in every state reached from an empty table with nobody busy |
| ShellManager.NeverClosedTwice | runner/shell_manager.go:85-113 | a shell about to be closed has not been closed |
| ShellManager.RegisteredStays | runner/shell_manager.go:47-68 | over every run that does not delete the id or close all, whoever creates under it, the shell under an id stays there and is not closed |

## Left out

- The DynamoDB client, its marshalling and its hidden retries: a store operation is one atomic step.
- DynamoStore.DynamoRepository.FindBySessionID: the index on sessions lags as a whole; a real one lags record by record, which one look-up cannot tell.
- FindByID, ListBusyRunners, GetListBusyRunners and the handlers for registering, deregistering and closing: they read the table or pass a call on.
- Failures of the random source in createSession and in Manager.Create, and failures of the shell factory: the call then ends before it touches any state.
- Journey.FallbackChain: which stacks have a runner does not change while the request is under way, nor do the pools in PoolFallback.
- The health check is a function of the host; how it is made, its timeouts, and hosts that go up or down during one call are not modelled.
- Router.NginxRequest.Resolve: leaves out the client address, the port in the runner's URL and the log lines, which no decision depends on.
- Stickiness.SessionIsSticky: the run of the brokers and the trip of the request are separate machines; the index may show the look-up any world such a run ends in.
- Response headers that come as Lua tables, and with them validate_resolve_response; a header here is one text or absent.
- Attributes and escaping of cookies; a cookie here is the session id itself.
- BrokerHandler.Handler.GetResolveSession: leaves out the JSON error bodies.
- nginx beyond the wiring of the named locations: TLS, buffering, timeouts, DNS. A hop is delivered or answered by the sending router with some status.
- Requests from outside under an internal host: their forwarding headers are heeded, and no bound on their trip is claimed.
- What bash does with a command. Commands that read stdin, and background output that comes after the marker on either stream, are outside the model.
- Starting and closing bash (newBashShellFromCommander, Close), and cancelling the reader of the event stream when its consumer stops early.
- CommandAnswer.BrowserSeesCommand: JSON and UTF-8 are any encoding that puts an event on one line and can be undone.
- OutputRows.EnoughIffEven: says nothing of a single column, on which no full-width character fits.
- OutputRows.FitsIffEven: begins outside an escape sequence; a write that cuts one in two is not covered.
- Of the sequences that are not plain, the terminal of OutputRows obeys ESC D and ESC E only; it does not know strings such as titles, cursor addressing or the C1 introducers.
- xterm itself, resizing, and the rest of the front end.
- ShellManager.RunConserves: the interleaved machine has numbers for shells; the object Manager runs one caller at a time.
- The validator, registration and identity of a runner, all configuration reading, deployment and infrastructure.
