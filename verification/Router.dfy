/** The two router scripts, run on one request: they set variables and then exit, jump or proxy. */
module Router {
  import opened Options
  import opened SessionIds
  import opened StackList
  import opened ResolveCore

  /** What the receiving router sees of a request; "" for an absent forwarding header. */
  datatype Request = Request(host: string, cookie: Option<string>, fallback: string, remaining: string)

  /** How a script ends: an answer, a jump to a named location, or the proxying to the runner. */
  datatype Next =
    | ExitWith(status: nat)
    | ForwardOwner
    | ForwardFallback
    | ForwardReassignedFallback
    | ProxyToRunner

  function Or(value: Option<string>, other: string): string {
    if value.Some? then value.value else other
  }

  function OrEmpty(value: Option<string>): string {
    Or(value, "")
  }

  function RelayedFallback(cfg: Config, req: Request): string {
    RelayIfInternal(IsInternalHost(cfg, Lower(req.host)), req.fallback)
  }

  function RelayedRemaining(cfg: Config, req: Request): string {
    RelayIfInternal(IsInternalHost(cfg, Lower(req.host)), req.remaining)
  }

  function ArrivalOf(cfg: Config, req: Request): Arrival {
    DecideArrival(cfg, req.cookie, RelayedFallback(cfg, req))
  }

  /** Where a request belongs when its forwarding headers do not count or name nobody: by the prefix of its cookie. */
  lemma ArrivalByCookie(cfg: Config, req: Request, owner: string, hex: string)
    requires !IsInternalHost(cfg, Lower(req.host)) || req.fallback == ""
    ensures req.cookie == Some(Namespaced(owner, hex)) && owner != "" && SEPARATOR !in owner ==>
              ArrivalOf(cfg, req) ==
              if owner == cfg.own then Here
              else if owner in cfg.stacks then ForwardToOwner(owner + "." + cfg.domain, owner)
              else Refuse(500)
    ensures req.cookie == None || Cut(req.cookie.value).None? || Cut(req.cookie.value).value.prefix == "" ==>
              ArrivalOf(cfg, req) == Here
  {
    if owner != "" {
      RouterInvertsNamespaced(owner, hex);
    }
    if req.cookie.Some? && CookieStack(req.cookie).Some? {
      RouterAgreesWithBroker(req.cookie.value, CookieStack(req.cookie).value);
    }
  }

  /** Forwarding headers that count send it to the broker here, whatever its cookie, if they name this stack. */
  lemma ArrivalByHeader(cfg: Config, req: Request)
    requires IsInternalHost(cfg, Lower(req.host)) && req.fallback != ""
    ensures ArrivalOf(cfg, req) == if req.fallback == cfg.own then Here else Refuse(500)
  {
  }

  /** The request that a named location sends on. */
  function Sent(next: Next, cookie: Option<string>, host: string, fallback: string, remaining: string): Option<Request>
  {
    match next
    case ForwardOwner => Some(Request(host, cookie, "", ""))
    case ForwardFallback => Some(Request(host, cookie, fallback, remaining))
    case ForwardReassignedFallback => Some(Request(host, None, fallback, remaining))
    case _ => None
  }

  /** What becomes of the request when a script has ended: an answer, a request to another stack, or the runner. */
  datatype Ending =
    | Exits(status: nat)
    | ToOwner(owner: string, request: Request)
    | ToFallback(stack: string, request: Request)
    | Proxies

  function EndingOfDecision(decision: Decision, cookie: Option<string>): Ending {
    match decision
    case Exit(status) => Exits(status)
    case ForwardToFallback(host, stack, remaining) =>
      ToFallback(stack, Request(host, cookie, stack, OrEmpty(remaining)))
    case Serve(_, _, _, _, _) => Proxies
  }

  /** resolve.lua, given what the broker would reply. */
  function ResolveEnding(cfg: Config, request: Request, reply: Reply): Ending {
    match ArrivalOf(cfg, request)
    case Refuse(status) => Exits(status)
    case ForwardToOwner(host, owner) => ToOwner(owner, Request(host, request.cookie, "", ""))
    case Here => EndingOfDecision(Decide(cfg, reply), request.cookie)
  }

  /** reassign.lua: nobody is sent on with the old cookie, and nobody is served without a new one. */
  function ReassignEnding(decision: Decision): Ending {
    if decision.Serve? && decision.setCookie.None? then Exits(HTTP_INTERNAL_ERROR)
    else EndingOfDecision(decision, None)
  }

  /** The variables the scripts set, "" until then. */
  datatype Variables = Variables(relayFallbackStack: string, relayFallbackRemaining: string,
                                 forwardHost: string, fwdFallbackStack: string, fwdFallbackRemaining: string,
                                 runnerHost: string, setCookie: string, expiresShellCookie: bool,
                                 sessionReassigned: string, sessionHex: string, stackName: string)

  const UNSET := Variables("", "", "", "", "", "", "", false, "", "", "")

  /** What a request that goes on to another stack carries. */
  function Forwarding(v: Variables, host: string, stack: string, remaining: Option<string>): Variables {
    v.(forwardHost := host, fwdFallbackStack := stack, fwdFallbackRemaining := OrEmpty(remaining))
  }

  /** What the answer carries when the request is served here; an absent header leaves its variable alone. */
  function Serving(v: Variables, decision: Decision): Variables
    requires decision.Serve?
  {
    v.(runnerHost := decision.runnerHost, setCookie := Or(decision.setCookie, v.setCookie),
       sessionHex := Or(decision.hex, v.sessionHex), stackName := Or(decision.stackName, v.stackName))
  }

  function Marked(v: Variables, createsShell: bool): Variables {
    v.(sessionReassigned := "true", expiresShellCookie := v.expiresShellCookie || !createsShell)
  }

  class NginxRequest {
    const request: Request
    const createsShell: bool     // POST /api/shell, whose answer sets the shell cookie itself
    var relayFallbackStack: string
    var relayFallbackRemaining: string
    var forwardHost: string
    var fwdFallbackStack: string
    var fwdFallbackRemaining: string
    var runnerHost: string
    var setCookie: string
    var expiresShellCookie: bool
    var sessionReassigned: string
    var sessionHex: string
    var stackName: string

    constructor (request: Request, createsShell: bool)
      ensures this.request == request && this.createsShell == createsShell && Vars() == UNSET
    {
      this.request, this.createsShell := request, createsShell;
      relayFallbackStack, relayFallbackRemaining := "", "";
      forwardHost, fwdFallbackStack, fwdFallbackRemaining := "", "", "";
      runnerHost, setCookie, expiresShellCookie, sessionReassigned, sessionHex, stackName := "", "", false, "", "", "";
    }

    function Vars(): Variables
      reads this
    {
      Variables(relayFallbackStack, relayFallbackRemaining, forwardHost, fwdFallbackStack, fwdFallbackRemaining,
                runnerHost, setCookie, expiresShellCookie, sessionReassigned, sessionHex, stackName)
    }

    /** What the named location the script jumped to sends on. */
    function Onward(next: Next): Option<Request>
      reads this
    {
      Sent(next, request.cookie, forwardHost, fwdFallbackStack, fwdFallbackRemaining)
    }

    /** What becomes of the request: the named locations send it on by the variables. */
    function Ended(next: Next): Ending
      reads this
    {
      match next
      case ExitWith(status) => Exits(status)
      case ForwardOwner => ToOwner(fwdFallbackStack, Onward(next).value)
      case ForwardFallback => ToFallback(fwdFallbackStack, Onward(next).value)
      case ForwardReassignedFallback => ToFallback(fwdFallbackStack, Onward(next).value)
      case ProxyToRunner => Proxies
    }

    /** The answer carries the broker's session headers over; an absent one leaves its variable alone. */
    ghost predicate CarriesOver(reply: Reply, before: Variables)
      reads this
    {
      && reply.runnerHost == Some(runnerHost)
      && setCookie == (if reply.setCookie.Some? then reply.setCookie.value else before.setCookie)
      && sessionHex == (if reply.hex.Some? then reply.hex.value else before.sessionHex)
      && stackName == (if reply.stackName.Some? then reply.stackName.value else before.stackName)
    }

    /** The broker names a stack that the router knows. */
    ghost predicate NamesStack(core: ResolveCore, reply: Reply)
      reads core
    {
      reply.fallbackStack.Some? && reply.fallbackStack.value != "" && reply.fallbackStack.value in core.orderedStacks
    }

    /** The request goes to that stack's host, with its name and the broker's list in the forwarding headers. */
    ghost predicate SendsOn(core: ResolveCore, reply: Reply, cookie: Option<string>, next: Next)
      requires NamesStack(core, reply)
      reads this, core
    {
      var stack := reply.fallbackStack.value;
      var remaining := if reply.fallbackRemaining.Some? then reply.fallbackRemaining.value else "";
      Onward(next) == Some(Request(stack + "." + core.internalDomain, cookie, stack, remaining))
    }

    /**
     resolve.lua: forward to the owner without asking the broker, or ask the broker with only
     those forwarding headers that may be trusted, and then serve, forward or exit.  Its ending is
     the one that a trip through the cluster goes on from.
     */
    method Resolve(core: ResolveCore, broker: (string, string) -> Reply) returns (next: Next, asked: bool)
      modifies this
      ensures asked <==> ArrivalOf(core.Settings(), request).Here?
      ensures Ended(next) == ResolveEnding(core.Settings(), request,
                                           broker(RelayedFallback(core.Settings(), request),
                                                  RelayedRemaining(core.Settings(), request)))
      ensures var relayed := old(Vars()).(relayFallbackStack := RelayedFallback(core.Settings(), request),
                                          relayFallbackRemaining := RelayedRemaining(core.Settings(), request));
              match ArrivalOf(core.Settings(), request)
              case Refuse(status) => next == ExitWith(status) && Vars() == relayed
              case ForwardToOwner(host, owner) =>
                && next == ForwardOwner && Onward(next) == Some(Request(host, request.cookie, "", ""))
                && Vars() == Forwarding(relayed, host, owner, RemainingExcluding(core.Settings(), owner))
              case Here =>
                var reply := broker(relayed.relayFallbackStack, relayed.relayFallbackRemaining);
                ActedOn(relayed, Decide(core.Settings(), reply), next)
      ensures asked ==>
                var reply := broker(RelayedFallback(core.Settings(), request),
                                    RelayedRemaining(core.Settings(), request));
                && (reply.status == 200 ==>
                      if ValidRunnerHost(reply.runnerHost)
                      then
                        && next == ProxyToRunner && CarriesOver(reply, old(Vars()))
                        && sessionReassigned == Or(reply.reassigned, old(sessionReassigned))
                        && expiresShellCookie == old(expiresShellCookie)
                      else next == ExitWith(500))
                && (reply.status == 503 ==>
                      if NamesStack(core, reply)
                      then next == ForwardFallback && SendsOn(core, reply, request.cookie, next)
                      else next == ExitWith(503))
                && (reply.status != 200 && reply.status != 503 ==> next == ExitWith(reply.status))
    {
      var internal := IsInternalHost(core.Settings(), Lower(request.host));
      relayFallbackStack := RelayIfInternal(internal, request.fallback);
      relayFallbackRemaining := RelayIfInternal(internal, request.remaining);
      asked := false;
      match DecideArrival(core.Settings(), request.cookie, relayFallbackStack) {
        case Refuse(status) => return ExitWith(status), asked;
        case ForwardToOwner(host, owner) =>
          var remaining := core.FallbackRemainingExcluding(owner);
          ForwardTo(host, owner, remaining);
          return ForwardOwner, asked;
        case Here =>
      }
      asked := true;
      next := Act(Decide(core.Settings(), broker(relayFallbackStack, relayFallbackRemaining)));
    }

    method ForwardTo(host: string, stack: string, remaining: Option<string>)
      modifies this
      ensures Vars() == Forwarding(old(Vars()), host, stack, remaining)
    {
      forwardHost := host;
      fwdFallbackStack := stack;
      fwdFallbackRemaining := OrEmpty(remaining);
    }

    method ServeHere(decision: Decision)
      requires decision.Serve?
      modifies this
      ensures Vars() == Serving(old(Vars()), decision)
    {
      runnerHost := decision.runnerHost;
      setCookie := Or(decision.setCookie, setCookie);
      sessionHex := Or(decision.hex, sessionHex);
      stackName := Or(decision.stackName, stackName);
    }

    /** How resolve.lua ends on a decision about the broker's answer: exactly one way, with all its variables. */
    ghost predicate ActedOn(before: Variables, decision: Decision, next: Next)
      reads this
    {
      match decision
      case Exit(status) => next == ExitWith(status) && Vars() == before
      case ForwardToFallback(host, stack, remaining) =>
        && next == ForwardFallback
        && Onward(next) == Some(Request(host, request.cookie, stack, OrEmpty(remaining)))
        && Vars() == Forwarding(before, host, stack, remaining)
      case Serve(_, _, reassigned, _, _) =>
        && next == ProxyToRunner
        && Vars() == Serving(before, decision).(sessionReassigned := Or(reassigned, before.sessionReassigned))
    }

    /** The second half of resolve.lua: act on the broker's answer. */
    method Act(decision: Decision) returns (next: Next)
      modifies this
      ensures Ended(next) == EndingOfDecision(decision, request.cookie)
      ensures ActedOn(old(Vars()), decision, next)
    {
      match decision {
        case Exit(status) => next := ExitWith(status);
        case ForwardToFallback(host, stack, remaining) =>
          ForwardTo(host, stack, remaining);
          next := ForwardFallback;
        case Serve(_, _, reassigned, _, _) =>
          ServeHere(decision);
          sessionReassigned := Or(reassigned, sessionReassigned);
          next := ProxyToRunner;
      }
    }

    method MarkReassigned()
      modifies this
      ensures Vars() == Marked(old(Vars()), createsShell)
    {
      sessionReassigned := "true";
      if !createsShell {
        expiresShellCookie := true;
      }
    }

    /**
     reassign.lua, after the owner could not be reached: ask the broker again, for a new session.
     Whoever gets a runner or is sent on is told so; an answer without a new cookie is an error.
     */
    method Reassign(core: ResolveCore, reply: Reply) returns (next: Next)
      modifies this
      ensures Ended(next) == ReassignEnding(Decide(core.Settings(), reply))
      ensures match Decide(core.Settings(), reply)
              case Exit(status) => next == ExitWith(status) && Vars() == old(Vars())
              case ForwardToFallback(host, stack, remaining) =>
                && next == ForwardReassignedFallback
                && Onward(next) == Some(Request(host, None, stack, OrEmpty(remaining)))
                && Vars() == Forwarding(Marked(old(Vars()), createsShell), host, stack, remaining)
              case Serve(_, cookie, _, _, _) =>
                if cookie.None? then next == ExitWith(HTTP_INTERNAL_ERROR) && Vars() == old(Vars())
                else
                  && next == ProxyToRunner
                  && Vars() == Marked(Serving(old(Vars()), Decide(core.Settings(), reply)), createsShell)
      ensures next == ProxyToRunner <==>
                reply.status == 200 && ValidRunnerHost(reply.runnerHost) && reply.setCookie.Some?
      ensures next == ProxyToRunner ==>
                && setCookie == reply.setCookie.value && CarriesOver(reply, old(Vars()))
                && sessionReassigned == "true" && expiresShellCookie == (old(expiresShellCookie) || !createsShell)
      ensures next == ForwardReassignedFallback <==> reply.status == 503 && NamesStack(core, reply)
      ensures next == ForwardReassignedFallback ==>
                && SendsOn(core, reply, None, next)
                && sessionReassigned == "true" && expiresShellCookie == (old(expiresShellCookie) || !createsShell)
      ensures next != ProxyToRunner && next != ForwardReassignedFallback ==>
                next == ExitWith(if reply.status == 200 then 500 else reply.status)
    {
      var decision := Decide(core.Settings(), reply);
      match decision {
        case Exit(status) => next := ExitWith(status);
        case ForwardToFallback(host, stack, remaining) =>
          MarkReassigned();
          ForwardTo(host, stack, remaining);
          next := ForwardReassignedFallback;
        case Serve(_, cookie, _, _, _) =>
          if cookie.None? {
            return ExitWith(HTTP_INTERNAL_ERROR);
          }
          ServeHere(decision);
          MarkReassigned();
          next := ProxyToRunner;
      }
    }
  }
}
