/** The broker's answer to a resolve request, with the fallback signal when it has no runner. */
module BrokerHandler {
  import opened Options
  import opened RunnerPool
  import opened DynamoStore
  import opened Sessions
  import opened SessionIds
  import opened StackList
  import opened ResolveCore

  const FALLBACK_STACK := "X-Fallback-Stack"
  const FALLBACK_REMAINING := "X-Fallback-Remaining"
  const RUNNER_HOST := "X-Runner-Host"
  const REASSIGNED := "X-Session-Reassigned"
  const SESSION_HEX := "X-Session-Hex"
  const STACK_NAME := "X-Stack-Name"
  const SET_COOKIE := "Set-Cookie"

  /** The stacks still to be asked: on a forwarded request what the sender left, else this stack's own order. */
  function Pool(fallbacks: seq<string>, header: string, remaining: string): seq<string> {
    if header != "" then Names(remaining) else fallbacks
  }

  function WithSignal(headers: map<string, string>, pool: seq<string>): map<string, string> {
    if pool == [] then headers
    else
      var named := headers[FALLBACK_STACK := pool[0]];
      if |pool| > 1 then named[FALLBACK_REMAINING := Join(pool[1..])] else named
  }

  function Header(headers: map<string, string>, name: string): Option<string> {
    if name in headers then Some(headers[name]) else None
  }

  /** What the router sees of a response. */
  function ReplyOf(status: nat, headers: map<string, string>): Reply {
    Reply(status, Header(headers, FALLBACK_STACK), Header(headers, FALLBACK_REMAINING), Header(headers, RUNNER_HOST),
          Header(headers, SET_COOKIE), Header(headers, REASSIGNED), Header(headers, SESSION_HEX),
          Header(headers, STACK_NAME))
  }

  /** The broker's reply when it has no runner. */
  function EmptyReply(pool: seq<string>): Reply {
    Reply(HTTP_SERVICE_UNAVAILABLE,
          if pool == [] then None else Some(pool[0]),
          if |pool| <= 1 then None else Some(Join(pool[1..])),
          None, None, None, None, None)
  }

  /** The broker's reply when it has one. */
  function FoundReply(result: ResolveResult, self: string): Reply
    requires result.Resolved?
  {
    Reply(HTTP_OK, None, None, Some(result.host),
          if result.created then Some(result.session) else None,
          if result.reassigned then Some("true") else None,
          Some(result.hex), Some(self))
  }

  /** One request on its way through the broker. */
  class Context {
    const cookie: string
    const fallbackHeader: string
    const remainingHeader: string
    var status: nat
    var headers: map<string, string>

    constructor (cookie: string, fallbackHeader: string, remainingHeader: string)
      ensures this.cookie == cookie && this.fallbackHeader == fallbackHeader && this.remainingHeader == remainingHeader
      ensures status == 0 && headers == map[]
    {
      this.cookie, this.fallbackHeader, this.remainingHeader := cookie, fallbackHeader, remainingHeader;
      status, headers := 0, map[];
    }
  }

  /** Is the header there with this value, or, for None, not there at all? */
  predicate Says(headers: map<string, string>, name: string, value: Option<string>) {
    match value
    case None => name !in headers
    case Some(text) => name in headers && headers[name] == text
  }

  /** The status and the session headers of a response to this outcome. */
  predicate Carries(status: nat, headers: map<string, string>, result: ResolveResult, self: string) {
    match result
    case Resolved(session, hex, host, created, reassigned) =>
      && status == 200
      && Says(headers, "Set-Cookie", if created then Some(session) else None)
      && Says(headers, "X-Session-Reassigned", if reassigned then Some("true") else None)
      && Says(headers, "X-Session-Hex", Some(hex)) && Says(headers, "X-Stack-Name", Some(self))
      && Says(headers, "X-Runner-Host", Some(host)) && Says(headers, "X-Fallback-Stack", None)
    case NoRunnerLeft =>
      status == 503 && Says(headers, "Set-Cookie", None) && Says(headers, "X-Runner-Host", None)
    case ResolveFailed => status == 500 && headers == map[]
  }

  /** The signal names the head of the pool; it lists the others, joined, if there are any. */
  predicate SignalsPool(headers: map<string, string>, pool: seq<string>) {
    && Says(headers, "X-Fallback-Stack", if pool == [] then None else Some(pool[0]))
    && Says(headers, "X-Fallback-Remaining", if |pool| < 2 then None else Some(Join(pool[1..])))
  }

  class Handler {
    const svc: BrokerService
    const fallbackStacks: seq<string>
    const stackSelf: string

    constructor (svc: BrokerService, fallbackStacks: seq<string>, stackSelf: string)
      requires stackSelf != ""
      ensures this.svc == svc && this.fallbackStacks == fallbackStacks && this.stackSelf == stackSelf
    {
      this.svc, this.fallbackStacks, this.stackSelf := svc, fallbackStacks, stackSelf;
    }

    method SignalFallback(c: Context)
      modifies c`headers
      ensures c.headers == WithSignal(old(c.headers), Pool(fallbackStacks, c.fallbackHeader, c.remainingHeader))
    {
      var pool := fallbackStacks;
      if c.fallbackHeader != "" {
        pool := Split(c.remainingHeader);
      }
      if |pool| == 0 {
        return;
      }
      c.headers := c.headers[FALLBACK_STACK := pool[0]];
      if |pool| > 1 {
        c.headers := c.headers[FALLBACK_REMAINING := Join(pool[1..])];
      }
    }

    /** Write the outcome to the response. */
    method Respond(c: Context, result: ResolveResult)
      requires c.headers == map[]
      modifies c
      ensures Carries(c.status, c.headers, result, stackSelf)
      ensures result.NoRunnerLeft? ==>
                SignalsPool(c.headers, Pool(fallbackStacks, c.fallbackHeader, c.remainingHeader))
      ensures result.NoRunnerLeft? ==>
                ReplyOf(c.status, c.headers) == EmptyReply(Pool(fallbackStacks, c.fallbackHeader, c.remainingHeader))
      ensures result.ResolveFailed? ==> c.status == HTTP_INTERNAL_ERROR && c.headers == map[]
      ensures result.Resolved? ==> ReplyOf(c.status, c.headers) == FoundReply(result, stackSelf)
    {
      match result {
        case NoRunnerLeft =>
          SignalFallback(c);
          c.status := HTTP_SERVICE_UNAVAILABLE;
        case ResolveFailed =>
          c.status := HTTP_INTERNAL_ERROR;
        case Resolved(session, hex, host, created, reassigned) =>
          if created {
            c.headers := c.headers[SET_COOKIE := session];
          }
          if reassigned {
            c.headers := c.headers[REASSIGNED := "true"];
          }
          c.headers := c.headers[SESSION_HEX := hex];
          c.headers := c.headers[STACK_NAME := stackSelf];
          c.headers := c.headers[RUNNER_HOST := host];
          c.status := HTTP_OK;
      }
    }

    /**
     A session alive all through the request is answered with its own host, unless the store
     fails.  Run alone on a pool whose index misses no idle runner, a request without a session to go
     on with is answered with a new one iff the pool has a healthy idle runner, and otherwise
     with the signal for the next stack.
     */
    method GetResolveSession(c: Context, outside: Outside) returns (result: ResolveResult)
      requires svc.repo.Valid() && c.headers == map[]
      modifies c, svc.repo
      ensures svc.repo.Valid() && old(svc.repo.history) <= svc.repo.history
      ensures c.cookie != "" && Cut(c.cookie).Some? ==>
                KeptIfAlive(svc.repo.history, old(svc.repo.shownAt), c.cookie, outside.healthy, result)
      ensures result.NoRunnerLeft? ==>
                ReplyOf(c.status, c.headers) == EmptyReply(Pool(fallbackStacks, c.fallbackHeader, c.remainingHeader))
      ensures result.ResolveFailed? ==> c.status == HTTP_INTERNAL_ERROR && c.headers == map[]
      ensures result.Resolved? ==>
                && ReplyOf(c.status, c.headers) == FoundReply(result, stackSelf)
                && (result.created ==> outside.healthy(result.host))
      ensures result.Resolved? ==>
                && c.status == 200 && "X-Fallback-Stack" !in c.headers
                && "X-Runner-Host" in c.headers && c.headers["X-Runner-Host"] == result.host
                && "X-Session-Hex" in c.headers && c.headers["X-Session-Hex"] == result.hex
                && "X-Stack-Name" in c.headers && c.headers["X-Stack-Name"] == stackSelf
                && ("X-Session-Reassigned" in c.headers <==> result.reassigned)
                && (result.reassigned ==> c.headers["X-Session-Reassigned"] == "true")
      ensures result.IsNew() ==>
                && "Set-Cookie" in c.headers && c.headers["Set-Cookie"] == svc.stackPrefix + "_" + outside.hex
                && c.headers["X-Session-Hex"] == outside.hex
      ensures result.Resolved? && !result.created ==> "Set-Cookie" !in c.headers && result.session == c.cookie != ""
      ensures result.NoRunnerLeft? ==>
                && c.status == 503 && "Set-Cookie" !in c.headers && "X-Runner-Host" !in c.headers
                && var pool := if c.fallbackHeader != "" then Names(c.remainingHeader) else fallbackStacks;
                   && ("X-Fallback-Stack" in c.headers <==> pool != [])
                   && (pool != [] ==> c.headers["X-Fallback-Stack"] == pool[0])
                   && ("X-Fallback-Remaining" in c.headers <==> |pool| > 1)
                   && (|pool| > 1 ==> c.headers["X-Fallback-Remaining"] == Join(pool[1..]))
      ensures old(svc.repo.Faultless()) && (forall n :: !outside.cancelled(n)) &&
              (c.cookie == "" || Cut(c.cookie).Some?) ==>
                result != ResolveFailed
      ensures old(svc.repo.Settled()) && (forall n :: !outside.cancelled(n))
              && IdleKeys(old(svc.repo.Now())) <= old(svc.repo.index).Keys
              && NoneAlive(old(svc.repo.Now()), c.cookie, outside.healthy) ==>
                if HealthyLeft(old(svc.repo.Now()), outside.healthy) then result.IsNew() else result.NoRunnerLeft?
    {
      ghost var base, left;
      result, base, left := svc.ResolveSession(c.cookie, outside);
      Respond(c, result);
    }
  }
}
