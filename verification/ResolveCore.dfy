/** The router's decisions: whose request is this, and what does the broker's answer mean. */
module ResolveCore {
  import opened Options
  import opened SessionIds
  import opened StackList

  const HTTP_OK: nat := 200
  const HTTP_INTERNAL_ERROR: nat := 500
  const HTTP_BAD_GATEWAY: nat := 502
  const HTTP_SERVICE_UNAVAILABLE: nat := 503
  const HTTP_GATEWAY_TIMEOUT: nat := 504

  const DOT: char := '.'

  /** One router's settings: its own stack, the internal domain, and all stacks in list order. */
  datatype Config = Config(own: string, domain: string, stacks: seq<string>)

  function HostName(stack: string, domain: string): string {
    stack + [DOT] + domain
  }

  /** Only a known stack has a host: anything else never reaches an upstream. */
  function HostOf(cfg: Config, stack: string): Option<string> {
    if stack in cfg.stacks then Some(HostName(stack, cfg.domain)) else None
  }

  function FindDot(host: string): (i: nat)
    ensures i <= |host|
    ensures (forall j :: 0 <= j < i ==> host[j] != DOT) && (i < |host| ==> host[i] == DOT)
  {
    if host == "" || host[0] == DOT then 0 else 1 + FindDot(host[1..])
  }

  /** Was the request sent by another router?  The host must be a known stack under the internal domain. */
  predicate IsInternalHost(cfg: Config, host: string) {
    var dot := FindDot(host);
    cfg.domain != "" && dot < |host| && host[..dot] in cfg.stacks && host[dot + 1..] == cfg.domain
  }

  /** Forwarding headers count only on internal requests; an absent header reads as "". */
  function RelayIfInternal(internal: bool, value: string): string {
    if internal then value else ""
  }

  datatype Arrival = Here | Refuse(status: nat) | ForwardToOwner(host: string, owner: string)

  function DecideArrival(cfg: Config, cookie: Option<string>, fallback: string): Arrival {
    if fallback != "" then
      if fallback != cfg.own then Refuse(HTTP_INTERNAL_ERROR) else Here
    else
      match CookieStack(cookie)
      case None => Here
      case Some(owner) =>
        if owner == cfg.own then Here
        else match HostOf(cfg, owner)
          case None => Refuse(HTTP_INTERNAL_ERROR)
          case Some(host) => ForwardToOwner(host, owner)
  }

  /** The broker's answer to a resolve request; None for an absent header. */
  datatype Reply = Reply(status: nat, fallbackStack: Option<string>, fallbackRemaining: Option<string>,
                         runnerHost: Option<string>, setCookie: Option<string>, reassigned: Option<string>,
                         hex: Option<string>, stackName: Option<string>)

  datatype Decision =
    | Exit(status: nat)
    | ForwardToFallback(host: string, stack: string, remaining: Option<string>)
    | Serve(runnerHost: string, setCookie: Option<string>, reassigned: Option<string>,
            hex: Option<string>, stackName: Option<string>)

  predicate HostChar(c: char) {
    'a' <= c <= 'z' || 'A' <= c <= 'Z' || '0' <= c <= '9' || c == '.' || c == '-'
  }

  predicate ValidRunnerHost(host: Option<string>) {
    host.Some? && host.value != "" && forall c <- host.value :: HostChar(c)
  }

  /** The ASCII letters and digits, the dot and the hyphen. */
  predicate IsLabelCode(n: int) {
    48 <= n <= 57 || 65 <= n <= 90 || 97 <= n <= 122 || n == 45 || n == 46
  }

  lemma ValidHostCodes(host: Option<string>)
    ensures ValidRunnerHost(host) <==>
              host.Some? && host.value != "" && forall c <- host.value :: IsLabelCode(c as int)
  {
    if host.Some? {
      forall c <- host.value
        ensures HostChar(c) <==> IsLabelCode(c as int)
      {
      }
    }
  }

  function Decide(cfg: Config, reply: Reply): Decision {
    if reply.status == HTTP_SERVICE_UNAVAILABLE then
      if reply.fallbackStack.Some? && reply.fallbackStack.value != "" then
        match HostOf(cfg, reply.fallbackStack.value)
        case None => Exit(HTTP_SERVICE_UNAVAILABLE)
        case Some(host) => ForwardToFallback(host, reply.fallbackStack.value, reply.fallbackRemaining)
      else Exit(HTTP_SERVICE_UNAVAILABLE)
    else if reply.status != HTTP_OK then Exit(reply.status)
    else if !ValidRunnerHost(reply.runnerHost) then Exit(HTTP_INTERNAL_ERROR)
    else Serve(reply.runnerHost.value, reply.setCookie, reply.reassigned, reply.hex, reply.stackName)
  }

  /** The nginx host variable is the Host header in lower case. */
  function LowerChar(c: char): char {
    if 'A' <= c <= 'Z' then c - 'A' + 'a' else c
  }

  function Lower(s: string): string {
    if s == "" then "" else [LowerChar(s[0])] + Lower(s[1..])
  }

  lemma {:induction false} LowerOfHost(stack: string, domain: string)
    ensures |Lower(stack)| == |stack|
    ensures Lower(HostName(stack, domain)) == HostName(Lower(stack), Lower(domain))
    ensures DOT in Lower(stack) <==> DOT in stack
  {
    if stack == "" {
      assert HostName("", domain) == [DOT] + domain;
      assert HostName("", Lower(domain)) == [DOT] + Lower(domain);
    } else {
      assert HostName(stack, domain)[1..] == HostName(stack[1..], domain);
      LowerOfHost(stack[1..], domain);
      assert stack == [stack[0]] + stack[1..];
      assert HostName(Lower(stack), Lower(domain))
          == [LowerChar(stack[0])] + HostName(Lower(stack[1..]), Lower(domain));
    }
  }

  /** Letter by letter, and only capital letters change. */
  lemma {:induction false} LowerAt(s: string, i: nat)
    requires i < |s|
    ensures |Lower(s)| == |s|
    ensures if 'A' <= s[i] <= 'Z' then 'a' <= Lower(s)[i] <= 'z' && Lower(s)[i] - 'a' == s[i] - 'A'
            else Lower(s)[i] == s[i]
  {
    if i > 0 {
      LowerAt(s[1..], i - 1);
    } else if |s| > 1 {
      LowerAt(s[1..], 0);
    }
  }

  lemma InternalIffKnown(cfg: Config, name: string, suffix: string)
    requires cfg.domain != "" && |suffix| == |cfg.domain|
    ensures IsInternalHost(cfg, HostName(name, suffix)) <==> DOT !in name && name in cfg.stacks && suffix == cfg.domain
  {
    var host := HostName(name, suffix);
    var dot := FindDot(host);
    assert host[|name|] == DOT;
    if DOT in name {
      var i :| 0 <= i < |name| && name[i] == DOT;
      assert host[i] == DOT;
      assert |host[dot + 1..]| > |cfg.domain|;
    } else {
      assert forall j :: 0 <= j < |name| ==> host[j] == name[j];
      assert dot == |name|;
      assert host[..dot] == name && host[dot + 1..] == suffix;
    }
  }

  /**
   The receiver of a forwarded request takes it for internal, and so heeds its forwarding
   headers, exactly when the target's name has no dot, is known in lower case, and the
   domain is in lower case.
   */
  lemma ForwardedIsInternal(cfg: Config, stack: string)
    requires cfg.domain != ""
    ensures IsInternalHost(cfg, Lower(HostName(stack, cfg.domain))) <==>
              DOT !in stack && Lower(stack) in cfg.stacks && Lower(cfg.domain) == cfg.domain
  {
    LowerOfHost(stack, cfg.domain);
    LowerOfHost(cfg.domain, "");
    InternalIffKnown(cfg, Lower(stack), Lower(cfg.domain));
  }

  lemma {:induction false} WithoutKeepsOthers(names: seq<string>, self: string)
    ensures forall n :: n in Without(names, self) <==> n in names && n != self
  {
    if names != [] {
      WithoutKeepsOthers(names[1..], self);
      assert names == [names[0]] + names[1..];
    }
  }

  lemma OthersAreListed(names: seq<string>, a: string, b: string)
    ensures Without(Without(names, a), b) == [] <==> forall s <- names :: s == a || s == b
  {
    WithoutKeepsOthers(names, a);
    WithoutKeepsOthers(Without(names, a), b);
    var others := Without(Without(names, a), b);
    assert others != [] ==> others[0] in others;
  }

  // ---- The router's module state ---------------------------------------------------

  datatype ConfigResult = Configured | ConfigError

  class ResolveCore {
    var ownStack: string
    var internalDomain: string
    var allowedStacks: set<string>
    var orderedStacks: seq<string>
    var apiPort: int

    constructor ()
      ensures ownStack == "" && internalDomain == "" && allowedStacks == {} && orderedStacks == []
    {
      ownStack, internalDomain, allowedStacks, orderedStacks, apiPort := "", "", {}, [], 0;
    }

    function Settings(): Config
      reads this
    {
      Config(ownStack, internalDomain, orderedStacks)
    }

    ghost predicate Valid()
      reads this
    {
      && (forall s :: s in allowedStacks <==> s in orderedStacks)
      && ownStack != "" && internalDomain != "" && ownStack in allowedStacks
    }

    /** `apiPort` is None when the variable is not a whole number.  A refused configuration changes nothing but the
        port. */
    method Configure(stack: string, domain: string, stackNames: string, apiPort: Option<int>)
      returns (result: ConfigResult)
      modifies this
      ensures result.Configured? <==>
                stack != "" && domain != "" && stack in RouterNames(stackNames)
                && apiPort.Some? && 0 < apiPort.value <= 65535
      ensures result.Configured? ==>
                && Valid() && this.apiPort == apiPort.value
                && Settings() == Config(stack, domain, RouterNames(stackNames))
      ensures result.ConfigError? ==>
                Settings() == old(Settings()) && allowedStacks == old(allowedStacks)
    {
      if stack == "" || domain == "" {
        return ConfigError;
      }
      if stackNames == "" {
        assert Pieces("") == [""];
        return ConfigError;
      }
      if apiPort.None? || apiPort.value <= 0 || apiPort.value > 65535 {
        return ConfigError;
      }
      this.apiPort := apiPort.value;
      var names := RouterNames(stackNames);
      var known: set<string>, list: seq<string> := {}, [];
      for i := 0 to |names|
        invariant list == names[..i]
        invariant forall s :: s in known <==> s in list
      {
        known := known + {names[i]};
        list := list + [names[i]];
      }
      assert names[..|names|] == names;
      if known == {} || stack !in known {
        return ConfigError;
      }
      ownStack, internalDomain, allowedStacks, orderedStacks := stack, domain, known, list;
      result := Configured;
    }

    /** The list a reassigned request may still go to: everybody but this stack and the owner. */
    method FallbackRemainingExcluding(stack: string) returns (remaining: Option<string>)
      ensures remaining == RemainingExcluding(Settings(), stack)
      ensures remaining.None? <==> forall s <- orderedStacks :: s == ownStack || s == stack
    {
      var names: seq<string> := [];
      for i := 0 to |orderedStacks|
        invariant names == Without(Without(orderedStacks[..i], ownStack), stack)
      {
        assert orderedStacks[..i + 1] == orderedStacks[..i] + [orderedStacks[i]];
        WithoutAppends(orderedStacks[..i], orderedStacks[i], ownStack);
        var candidate := orderedStacks[i];
        if candidate == ownStack {
          assert Without(orderedStacks[..i + 1], ownStack) == Without(orderedStacks[..i], ownStack);
        } else {
          WithoutAppends(Without(orderedStacks[..i], ownStack), candidate, stack);
          if candidate != stack {
            names := names + [candidate];
          } else {
            assert Without(Without(orderedStacks[..i + 1], ownStack), stack) == names;
          }
        }
      }
      assert orderedStacks[..|orderedStacks|] == orderedStacks;
      OthersAreListed(orderedStacks, ownStack, stack);
      remaining := if names == [] then None else Some(Join(names));
    }
  }

  function OthersThan(cfg: Config, stack: string): seq<string> {
    Without(Without(cfg.stacks, cfg.own), stack)
  }

  function RemainingExcluding(cfg: Config, stack: string): Option<string> {
    if OthersThan(cfg, stack) == [] then None else Some(Join(OthersThan(cfg, stack)))
  }
}
