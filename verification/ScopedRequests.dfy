/** The scoped HTTP client: every hop is validated right before it is sent, and redirects stay on
    the first host (`ScopedHttpClient.request`). */
module ScopedRequests {
  import opened JsonValues
  import opened Budgets

  // ---------- the allowlist ----------

  function TrimDots(s: string): string {
    if s != "" && s[|s| - 1] == '.' then TrimDots(s[..|s| - 1]) else s
  }

  predicate EndsWith(s: string, suffix: string) {
    |suffix| <= |s| && s[|s| - |suffix|..] == suffix
  }

  /** Whether a host, lower-cased, matches a lower-cased rule; `*.x` stands for subdomains of `x`. */
  predicate HostMatches(host: string, rule: string) {
    var (h, r) := (TrimDots(host), TrimDots(rule));
    if |r| >= 2 && r[..2] == "*." then EndsWith(h, r[1..]) && h != r[2..] else h == r
  }

  predicate Allowed(host: string, rules: seq<string>) {
    exists i :: 0 <= i < |rules| && HostMatches(host, rules[i])
  }

  /** The rule names the host: a wildcard rule every host that ends with its dot and domain, any other
      rule just itself. */
  ghost predicate Names(rule: string, host: string) {
    var r := TrimDots(rule);
    if "*." <= r then exists prefix :: host == prefix + r[1..] else host == r
  }

  /** For a host without trailing dots, matching a rule is being named by it. */
  lemma {:induction false} HostMatchesExactly(host: string, rule: string)
    requires TrimDots(host) == host
    ensures HostMatches(host, rule) <==> Names(rule, host)
  {
    var r := TrimDots(rule);
    TrimDotsEnds(rule);
    if "*." <= r {
      assert r[..2] == "*.";
      if EndsWith(host, r[1..]) {
        assert host == host[..|host| - |r[1..]|] + r[1..];
      }
    } else if |r| >= 2 {
      assert r[..2] != "*.";
    }
  }

  /** A wildcard rule allows exactly the names with something, a dot and its domain. */
  lemma {:induction false} WildcardExactly(host: string, domain: string)
    requires TrimDots(host) == host && TrimDots(domain) == domain && domain != ""
    ensures HostMatches(host, "*." + domain) <==> exists prefix :: host == prefix + "." + domain
  {
    var rule := "*." + domain;
    assert rule[|rule| - 1] == domain[|domain| - 1];
    TrimDotsEnds(domain);
    assert TrimDots(rule) == rule && rule[1..] == "." + domain;
    HostMatchesExactly(host, rule);
    forall prefix: string ensures prefix + "." + domain == prefix + rule[1..] {
      assert prefix + "." + domain == prefix + ("." + domain);
    }
  }

  /** A host is allowed exactly if some rule names it. */
  lemma {:induction false} AllowedExactly(host: string, rules: seq<string>)
    requires TrimDots(host) == host
    ensures Allowed(host, rules) <==> exists i :: 0 <= i < |rules| && Names(rules[i], host)
  {
    forall i | 0 <= i < |rules| ensures HostMatches(host, rules[i]) <==> Names(rules[i], host) {
      HostMatchesExactly(host, rules[i]);
    }
  }

  predicate OnlyDots(s: string) {
    forall i | 0 <= i < |s| :: s[i] == '.'
  }

  lemma {:induction false} TrimDotsEmpty(s: string)
    ensures TrimDots(s) == "" <==> OnlyDots(s)
  {
    if s != "" && s[|s| - 1] == '.' {
      TrimDotsEmpty(s[..|s| - 1]);
      assert s == s[..|s| - 1] + ".";
    }
  }

  /** The empty host is allowed exactly by a rule of nothing but dots. */
  lemma {:induction false} EmptyHostAllowed(rules: seq<string>)
    ensures Allowed("", rules) <==> exists i :: 0 <= i < |rules| && OnlyDots(rules[i])
  {
    forall i | 0 <= i < |rules| ensures HostMatches("", rules[i]) <==> OnlyDots(rules[i]) {
      TrimDotsEmpty(rules[i]);
      assert TrimDots("") == "";
    }
  }

  /** Some rule allows a host that is not empty exactly if it is not made of dots only. */
  lemma {:induction false} NamedHostAllowed(rules: seq<string>)
    ensures (exists host :: host != "" && TrimDots(host) == host && Allowed(host, rules))
       <==> exists i :: 0 <= i < |rules| && !OnlyDots(rules[i])
  {
    if i :| 0 <= i < |rules| && !OnlyDots(rules[i]) {
      var host := MatchingHost(rules[i]);
      assert HostMatches(host, rules[i]);
    }
    if host :| host != "" && TrimDots(host) == host && Allowed(host, rules) {
      var i :| 0 <= i < |rules| && HostMatches(host, rules[i]);
      TrimDotsEmpty(rules[i]);
    }
  }

  lemma {:induction false} TrimDotsEnds(s: string)
    ensures TrimDots(s) == "" || TrimDots(s)[|TrimDots(s)| - 1] != '.'
    ensures TrimDots(TrimDots(s)) == TrimDots(s)
    ensures TrimDots(s) <= s && OnlyDots(s[|TrimDots(s)|..])
  {
    if s != "" && s[|s| - 1] == '.' {
      TrimDotsEnds(s[..|s| - 1]);
      assert s[|TrimDots(s)|..] == s[..|s| - 1][|TrimDots(s)|..] + ".";
    }
  }

  lemma {:induction false} MatchingHost(rule: string) returns (host: string)
    requires !OnlyDots(rule)
    ensures host != "" && TrimDots(host) == host && HostMatches(host, rule)
  {
    TrimDotsEmpty(rule);
    TrimDotsEnds(rule);
    var trimmed := TrimDots(rule);
    if |trimmed| >= 2 && trimmed[..2] == "*." {
      host := "a" + trimmed[1..];
      assert host[1..] == trimmed[1..] && |host| == |trimmed| && |trimmed[2..]| < |host|;
      assert EndsWith(host, trimmed[1..]);
    } else {
      host := trimmed;
    }
  }

  // ---------- one hop ----------

  /** What splitting a URL gives: the hostname, empty if there is none, the port unless it is
      invalid, and the URL without its fragment. */
  datatype Parsed = Parsed(hostname: string, port: Option<nat>, url: string)

  /** An address and whether it is globally reachable. */
  datatype Address = Address(text: string, global: bool)

  datatype Target = Target(url: string, host: string, addresses: set<Address>)

  datatype Reply =
    | Reply(status: nat, chunks: seq<seq<bv8>>, location: string)
    | TransportError

  /** The outside world: `parse` gives nothing for another scheme or userinfo, `encode` is IDNA and
      lower-casing, which may raise, and the name service and the servers may change at each hop. */
  datatype World = World(
    parse: string -> Option<Parsed>,
    encode: string -> Option<string>,
    resolve: (nat, string, nat) -> Option<set<Address>>,
    answer: (nat, string) -> Reply,
    join: (string, string) -> string)

  /** The client with its guard; the rules are lower-cased. */
  datatype Client = Client(
    rules: seq<string>, allowPrivate: bool, world: World, maxResponseSize: nat, maxRedirects: int)

  datatype Error =
    | OutOfScope
    | InvalidHost
    | HostChanged
    | TooLarge
    | TooManyRedirects
    | TransportFailed
    | ValidationFailed

  datatype Result = Answer(status: nat, body: seq<bv8>) | Failure(error: Error)

  datatype Event = Validated(target: Target) | Sent(target: Target)

  datatype Validation = Accepted(target: Target) | Refused(error: Error)

  predicate Reachable(addresses: set<Address>, allowPrivate: bool) {
    addresses != {} && (allowPrivate || forall address | address in addresses :: address.global)
  }

  /** `ScopeGuard.validate` */
  function Validate(client: Client, hop: nat, url: string): Validation {
    var parsed := client.world.parse(url);
    if parsed.None? || parsed.value.hostname == "" then Refused(OutOfScope)
    else
      var encoded := client.world.encode(parsed.value.hostname);
      if encoded.None? then Refused(InvalidHost)
      else
        var host := TrimDots(encoded.value);
        if !Allowed(host, client.rules) || parsed.value.port.None? then Refused(OutOfScope)
        else
          var addresses := client.world.resolve(hop, host, parsed.value.port.value);
          if addresses.None? || !Reachable(addresses.value, client.allowPrivate) then Refused(OutOfScope)
          else Accepted(Target(parsed.value.url, host, addresses.value))
  }

  /** What the guard lets through: some rule names the host, and it has resolved to some address, all
      of them global unless private ones are allowed. */
  ghost predicate InScope(client: Client, target: Target) {
    && (exists i :: 0 <= i < |client.rules| && Names(client.rules[i], target.host))
    && TrimDots(target.host) == target.host
    && target.addresses != {}
    && (client.allowPrivate || forall address | address in target.addresses :: address.global)
  }

  lemma {:induction false} ValidatedInScope(client: Client, hop: nat, url: string)
    requires Validate(client, hop, url).Accepted?
    ensures InScope(client, Validate(client, hop, url).target)
    ensures Allowed(Validate(client, hop, url).target.host, client.rules)
  {
    TrimDotsEnds(client.world.encode(client.world.parse(url).value.hostname).value);
    AllowedExactly(Validate(client, hop, url).target.host, client.rules);
  }

  /** The target a URL stands for at some hop, if it has a hostname that can be encoded, a port and
      addresses. */
  function TargetOf(client: Client, hop: nat, url: string): Option<Target> {
    var parsed := client.world.parse(url);
    if parsed.None? || parsed.value.port.None? || client.world.encode(parsed.value.hostname).None? then None
    else
      var host := TrimDots(client.world.encode(parsed.value.hostname).value);
      match client.world.resolve(hop, host, parsed.value.port.value)
      case Some(addresses) => Some(Target(parsed.value.url, host, addresses))
      case None => None
  }

  /** The guard accepts a URL exactly if it has a hostname and the target it stands for is in scope. */
  lemma {:induction false} ValidateExactly(client: Client, hop: nat, url: string)
    ensures Validate(client, hop, url).Accepted? <==>
      var target := TargetOf(client, hop, url);
      target.Some? && client.world.parse(url).value.hostname != "" && InScope(client, target.value)
    ensures Validate(client, hop, url).Accepted? ==>
      TargetOf(client, hop, url) == Some(Validate(client, hop, url).target)
  {
    var parsed := client.world.parse(url);
    if parsed.Some? && client.world.encode(parsed.value.hostname).Some? {
      var host := TrimDots(client.world.encode(parsed.value.hostname).value);
      TrimDotsEnds(client.world.encode(parsed.value.hostname).value);
      AllowedExactly(host, client.rules);
    }
  }

  predicate IsRedirect(status: nat) {
    status in {301, 302, 303, 307, 308}
  }

  /** Reads a body chunk by chunk and gives up once it is too large. */
  method ReadBody(chunks: seq<seq<bv8>>, limit: nat) returns (body: Option<seq<bv8>>)
    ensures body.Some? <==> |Joined(chunks)| <= limit
    ensures body.Some? ==> body.value == Joined(chunks)
  {
    var read := [];
    for i := 0 to |chunks|
      invariant read == Joined(chunks[..i]) && |read| <= limit
    {
      assert chunks[..i + 1][..i] == chunks[..i];
      read := read + chunks[i];
      if |read| > limit {
        JoinedGrows(chunks, i + 1);
        return None;
      }
    }
    assert chunks[..|chunks|] == chunks;
    body := Some(read);
  }

  function Joined(chunks: seq<seq<bv8>>): seq<bv8> {
    if chunks == [] then [] else Joined(chunks[..|chunks| - 1]) + chunks[|chunks| - 1]
  }

  lemma {:induction false} JoinedGrows(chunks: seq<seq<bv8>>, n: nat)
    requires n <= |chunks|
    ensures |Joined(chunks[..n])| <= |Joined(chunks)|
    decreases |chunks|
  {
    if n == |chunks| {
      assert chunks[..n] == chunks;
    } else {
      assert chunks[..|chunks| - 1][..n] == chunks[..n];
      JoinedGrows(chunks[..|chunks| - 1], n);
    }
  }

  /** How a hop ends, which host later hops are compared with, and what the hop did. */
  datatype Outcome = Finished(result: Result) | GoTo(url: string)

  datatype Hop = Hop(outcome: Outcome, host: string, events: seq<Event>)

  /** What the answer to a request leads to. */
  function AfterReply(client: Client, hop: nat, target: Target, reply: Reply, follow: bool): Outcome {
    if reply.TransportError? then Finished(Failure(TransportFailed))
    else
      var body := Joined(reply.chunks);
      if |body| > client.maxResponseSize then Finished(Failure(TooLarge))
      else if !IsRedirect(reply.status) || !follow then Finished(Answer(reply.status, body))
      else if hop == client.maxRedirects then Finished(Failure(TooManyRedirects))
      else if reply.location == "" then Finished(Answer(reply.status, body))
      else GoTo(client.world.join(target.url, reply.location))
  }

  /** A redirect is followed exactly for the five redirect statuses, with a location, within the size
      limit, before the last hop and if redirects are to be followed at all. */
  lemma {:induction false} RedirectsExactly(client: Client, hop: nat, target: Target, reply: Reply, follow: bool)
    ensures AfterReply(client, hop, target, reply, follow).GoTo? <==>
      && reply.Reply? && reply.status in {301, 302, 303, 307, 308} && reply.location != ""
      && |Joined(reply.chunks)| <= client.maxResponseSize && hop != client.maxRedirects && follow
    ensures (reply.Reply? && |Joined(reply.chunks)| <= client.maxResponseSize
             && reply.status !in {301, 302, 303, 307, 308}) ==>
      AfterReply(client, hop, target, reply, follow) == Finished(Answer(reply.status, Joined(reply.chunks)))
  {
  }

  /** One pass of the loop; `original` is the first host, empty before the first hop. */
  function HopOf(client: Client, hop: nat, url: string, original: string, follow: bool): Hop {
    match Validate(client, hop, url)
    case Refused(error) => Hop(Finished(Failure(error)), original, [])
    case Accepted(target) =>
      var host := if original == "" then target.host else original;
      if target.host != host then Hop(Finished(Failure(HostChanged)), host, [Validated(target)])
      else
        var outcome := AfterReply(client, hop, target, client.world.answer(hop, target.url), follow);
        Hop(outcome, host, [Validated(target), Sent(target)])
  }

  /** A hop sends its request exactly if the guard accepts the URL and its host is the first one, or there
      is none yet; otherwise it ends with the reason. */
  lemma {:induction false} HopExactly(client: Client, hop: nat, url: string, original: string, follow: bool)
    ensures var pass := HopOf(client, hop, url, original, follow);
            match Validate(client, hop, url)
            case Refused(error) => pass.events == [] && pass.outcome == Finished(Failure(error))
            case Accepted(target) =>
              if original == "" || target.host == original then
                && pass.events == [Validated(target), Sent(target)] && pass.host == target.host
                && pass.outcome == AfterReply(client, hop, target, client.world.answer(hop, target.url), follow)
              else pass.events == [Validated(target)] && pass.outcome == Finished(Failure(HostChanged))
  {
  }

  // ---------- one request ----------

  datatype Run = Run(result: Result, log: seq<Event>)

  function RunFrom(client: Client, hop: nat, url: string, original: string, follow: bool): Run
    decreases if hop <= client.maxRedirects then client.maxRedirects + 1 - hop else 0
  {
    if hop > client.maxRedirects then Run(Failure(ValidationFailed), [])
    else
      var pass := HopOf(client, hop, url, original, follow);
      if pass.outcome.Finished? then Run(pass.outcome.result, pass.events)
      else
        var rest := RunFrom(client, hop + 1, pass.outcome.url, pass.host, follow);
        Run(rest.result, pass.events + rest.log)
  }

  function Sends(log: seq<Event>): nat {
    if log == [] then 0 else (if log[0].Sent? then 1 else 0) + Sends(log[1..])
  }

  /** Every request is sent right after its own validation, and within the scope. */
  ghost predicate ValidatedFirst(client: Client, log: seq<Event>) {
    forall i | 0 <= i < |log| && log[i].Sent? ::
        i > 0 && log[i - 1] == Validated(log[i].target) && InScope(client, log[i].target)
  }

  /** All requests go to one host. */
  ghost predicate SameHost(log: seq<Event>) {
    forall i, j | 0 <= i < |log| && 0 <= j < |log| && log[i].Sent? && log[j].Sent? ::
        log[i].target.host == log[j].target.host
  }

  predicate AllOn(log: seq<Event>, host: string) {
    forall i | 0 <= i < |log| && log[i].Sent? :: log[i].target.host == host
  }

  /** What one hop adds to the log: nothing, a validation, or a validation and the request. */
  ghost predicate HopEvents(client: Client, hop: Hop) {
    && |hop.events| <= 2 && (|hop.events| > 0 ==> hop.events[0].Validated?)
    && (|hop.events| == 2 ==>
          && hop.events[1] == Sent(hop.events[0].target) && InScope(client, hop.events[0].target)
          && hop.events[0].target.host == hop.host)
    && (hop.outcome.GoTo? ==> |hop.events| == 2)
  }

  /** How a hop ends a run: an answer is within the size limit and was asked for. */
  predicate HopEnds(client: Client, hop: Hop) {
    hop.outcome.Finished? ==>
      && hop.outcome.result != Failure(ValidationFailed)
      && (hop.outcome.result.Answer? ==>
            |hop.outcome.result.body| <= client.maxResponseSize && |hop.events| == 2)
  }

  lemma {:induction false} HopSafe(client: Client, hop: nat, url: string, original: string, follow: bool)
    ensures var pass := HopOf(client, hop, url, original, follow);
            HopEvents(client, pass) && HopEnds(client, pass) && (original != "" ==> pass.host == original)
    ensures HopOf(client, hop, url, original, follow).outcome.GoTo? ==> follow && hop != client.maxRedirects
  {
    if Validate(client, hop, url).Accepted? {
      ValidatedInScope(client, hop, url);
    }
  }

  lemma {:induction false} HopSends(client: Client, hop: Hop, rest: seq<Event>)
    requires HopEvents(client, hop)
    ensures Sends(hop.events + rest) == Sends(rest) + (if |hop.events| == 2 then 1 else 0)
  {
    if |hop.events| == 0 {
      assert hop.events + rest == rest;
    } else {
      assert (hop.events + rest)[1..] == hop.events[1..] + rest;
      if |hop.events| == 2 {
        assert (hop.events[1..] + rest)[1..] == rest;
      } else {
        assert hop.events[1..] + rest == rest;
      }
    }
  }

  lemma {:induction false} HopValidated(client: Client, hop: Hop, rest: seq<Event>)
    requires HopEvents(client, hop) && ValidatedFirst(client, rest)
    ensures ValidatedFirst(client, hop.events + rest)
  {
  }

  /** What every run from some hop on keeps, whatever the world does. */
  ghost predicate Safe(client: Client, hop: nat, follow: bool, run: Run) {
    && ValidatedFirst(client, run.log)
    && Sends(run.log) <= (if hop <= client.maxRedirects then client.maxRedirects + 1 - hop else 0)
    && (!follow ==> Sends(run.log) <= 1)
    && (run.result.Answer? ==> |run.result.body| <= client.maxResponseSize && Sends(run.log) >= 1)
    && (run.result == Failure(ValidationFailed) <==> hop > client.maxRedirects)
  }

  lemma {:induction false} LastHopSafe(client: Client, hop: nat, pass: Hop, follow: bool)
    requires hop <= client.maxRedirects && HopEvents(client, pass) && HopEnds(client, pass) && pass.outcome.Finished?
    ensures Safe(client, hop, follow, Run(pass.outcome.result, pass.events))
  {
    HopSends(client, pass, []);
    HopValidated(client, pass, []);
    assert pass.events + [] == pass.events;
  }

  lemma {:induction false} EarlierHopSafe(client: Client, hop: nat, pass: Hop, follow: bool, rest: Run)
    requires hop < client.maxRedirects && HopEvents(client, pass) && pass.outcome.GoTo?
    requires follow && Safe(client, hop + 1, follow, rest)
    ensures Safe(client, hop, follow, Run(rest.result, pass.events + rest.log))
  {
    HopSends(client, pass, rest.log);
    HopValidated(client, pass, rest.log);
  }

  lemma {:induction false} RunSafe(client: Client, hop: nat, url: string, original: string, follow: bool)
    ensures Safe(client, hop, follow, RunFrom(client, hop, url, original, follow))
    decreases if hop <= client.maxRedirects then client.maxRedirects + 1 - hop else 0
  {
    if hop <= client.maxRedirects {
      var pass := HopOf(client, hop, url, original, follow);
      HopSafe(client, hop, url, original, follow);
      if pass.outcome.Finished? {
        LastHopSafe(client, hop, pass, follow);
      } else {
        RunSafe(client, hop + 1, pass.outcome.url, pass.host, follow);
        EarlierHopSafe(client, hop, pass, follow, RunFrom(client, hop + 1, pass.outcome.url, pass.host, follow));
      }
    }
  }

  /** The run so far followed by what is left of it. */
  ghost predicate Continues(whole: Run, log: seq<Event>, rest: Run) {
    whole == Run(rest.result, log + rest.log)
  }

  lemma {:induction false} OneMoreHop(client: Client, hop: nat, url: string, original: string, follow: bool, whole: Run,
        log: seq<Event>)
    requires hop <= client.maxRedirects && Continues(whole, log, RunFrom(client, hop, url, original, follow))
    ensures var pass := HopOf(client, hop, url, original, follow);
            if pass.outcome.Finished? then whole == Run(pass.outcome.result, log + pass.events)
            else Continues(whole, log + pass.events, RunFrom(client, hop + 1, pass.outcome.url, pass.host, follow))
  {
  }

  /** One request with its redirects, whatever the world does. */
  method Request(client: Client, url: string, follow: bool) returns (result: Result, ghost log: seq<Event>)
    ensures result == RunFrom(client, 0, url, "", follow).result
    ensures log == RunFrom(client, 0, url, "", follow).log
  {
    log := [];
    var current, original := url, "";
    var hop: nat := 0;
    ghost var whole := RunFrom(client, 0, url, "", follow);
    while hop <= client.maxRedirects
      invariant Continues(whole, log, RunFrom(client, hop, current, original, follow))
      decreases client.maxRedirects - hop
    {
      var outcome, host;
      ghost var events;
      OneMoreHop(client, hop, current, original, follow, whole, log);
      outcome, host, events := PerformHop(client, hop, current, original, follow);
      log, original := log + events, host;
      if outcome.Finished? {
        return outcome.result, log;
      }
      current := outcome.url;
      hop := hop + 1;
    }
    result := Failure(ValidationFailed);
  }

  method PerformHop(client: Client, hop: nat, url: string, original: string, follow: bool)
    returns (outcome: Outcome, host: string, ghost events: seq<Event>)
    ensures Hop(outcome, host, events) == HopOf(client, hop, url, original, follow)
  {
    host, events := original, [];
    var validation := Validate(client, hop, url);
    if validation.Refused? {
      return Finished(Failure(validation.error)), host, events;
    }
    var target := validation.target;
    if original == "" {
      host := target.host;
    }
    if target.host != host {
      return Finished(Failure(HostChanged)), host, [Validated(target)];
    }
    events := [Validated(target), Sent(target)];
    var reply := client.world.answer(hop, target.url);
    if reply.TransportError? {
      return Finished(Failure(TransportFailed)), host, events;
    }
    var body := ReadBody(reply.chunks, client.maxResponseSize);
    if body.None? {
      return Finished(Failure(TooLarge)), host, events;
    }
    if !IsRedirect(reply.status) || !follow {
      return Finished(Answer(reply.status, body.value)), host, events;
    }
    if hop == client.maxRedirects {
      return Finished(Failure(TooManyRedirects)), host, events;
    }
    if reply.location == "" {
      return Finished(Answer(reply.status, body.value)), host, events;
    }
    outcome := GoTo(client.world.join(target.url, reply.location));
  }

  // ---------- one host ----------

  /** Once there is a first host, every request goes to it. */
  lemma {:induction false} HostKept(client: Client, hop: nat, url: string, original: string, follow: bool)
    requires original != ""
    ensures AllOn(RunFrom(client, hop, url, original, follow).log, original)
    decreases if hop <= client.maxRedirects then client.maxRedirects + 1 - hop else 0
  {
    if hop <= client.maxRedirects {
      var pass := HopOf(client, hop, url, original, follow);
      HopSafe(client, hop, url, original, follow);
      if pass.outcome.GoTo? {
        HostKept(client, hop + 1, pass.outcome.url, original, follow);
      }
    }
  }

  /** All requests go to the host of the first one, unless that host is empty. */
  lemma {:induction false} FirstHostKept(client: Client, hop: nat, url: string, follow: bool)
    ensures var log := RunFrom(client, hop, url, "", follow).log;
            |log| >= 2 && log[1].target.host != "" ==> AllOn(log, log[1].target.host) && SameHost(log)
  {
    if hop <= client.maxRedirects {
      var pass := HopOf(client, hop, url, "", follow);
      HopSafe(client, hop, url, "", follow);
      if pass.outcome.GoTo? && pass.host != "" {
        HostKept(client, hop + 1, pass.outcome.url, pass.host, follow);
      }
    }
  }

  /** A run that follows no redirect sends one request at most. */
  lemma {:induction false} OneHop(client: Client, url: string, follow: bool)
    requires client.maxRedirects < 1 || !follow
    ensures SameHost(RunFrom(client, 0, url, "", follow).log)
  {
    HopSafe(client, 0, url, "", follow);
  }

  /** No world makes a client with these settings leave the host it began with. */
  ghost predicate StaysOnHost(rules: seq<string>, allowPrivate: bool, limit: nat, redirects: int, follow: bool) {
    forall world, url :: SameHost(RunFrom(Client(rules, allowPrivate, world, limit, redirects), 0, url, "", follow).log)
  }

  /** Both the empty host and another one are allowed. */
  ghost predicate EmptyAndNamed(rules: seq<string>) {
    Allowed("", rules) && exists host :: host != "" && TrimDots(host) == host && Allowed(host, rules)
  }

  lemma {:induction false} StaysOnAllowed(client: Client, url: string, follow: bool)
    requires !EmptyAndNamed(client.rules)
    ensures SameHost(RunFrom(client, 0, url, "", follow).log)
  {
    var log := RunFrom(client, 0, url, "", follow).log;
    RunSafe(client, 0, url, "", follow);
    FirstHostKept(client, 0, url, follow);
    if |log| >= 2 && log[1].target.host == "" {
      FirstSent(client, url, follow);
      assert InScope(client, log[1].target);
      AllowedExactly("", client.rules);
      forall i | 0 <= i < |log| && log[i].Sent? ensures log[i].target.host == "" {
        assert InScope(client, log[i].target);
        AllowedExactly(log[i].target.host, client.rules);
      }
    }
  }

  /** The second event of a run is its first request. */
  lemma {:induction false} FirstSent(client: Client, url: string, follow: bool)
    ensures var log := RunFrom(client, 0, url, "", follow).log;
            (|log| > 0 ==> log[0].Validated?) && (|log| >= 2 ==> log[1].Sent?)
  {
    HopSafe(client, 0, url, "", follow);
  }

  /** A world whose first URL has a hostname that is encoded as a dot and redirects to `host`:
      the one-dot leader U+2024 is such a name. */
  function LeavingWorld(host: string): World {
    World(
      url => Some(Parsed(if url == "first" then "\U{2024}" else "next", Some(80), url)),
      name => Some(if name == "\U{2024}" then "." else host),
      (hop, name, port) => Some({Address("192.0.2.1", true)}),
      (hop, url) => if url == "first" then Reply(302, [], "next") else Reply(200, [], ""),
      (url, location) => location)
  }

  lemma {:induction false} LeavesHost(client: Client, host: string)
    requires client.world == LeavingWorld(host) && client.maxRedirects >= 1
    requires host != "" && TrimDots(host) == host && Allowed(host, client.rules) && Allowed("", client.rules)
    ensures !SameHost(RunFrom(client, 0, "first", "", true).log)
  {
    var empty := Target("first", "", {Address("192.0.2.1", true)});
    var named := Target("next", host, {Address("192.0.2.1", true)});
    assert Reachable(empty.addresses, client.allowPrivate);
    assert TrimDots(".") == TrimDots(".."[..1]) == "";
    assert Validate(client, 0, "first") == Accepted(empty);
    assert Validate(client, 1, "next") == Accepted(named);
    assert HopOf(client, 0, "first", "", true) == Hop(GoTo("next"), "", [Validated(empty), Sent(empty)]);
    var second := HopOf(client, 1, "next", "", true);
    assert second.outcome == Finished(Answer(200, [])) && second.events == [Validated(named), Sent(named)];
    assert RunFrom(client, 1, "next", "", true).log == second.events;
    var log := RunFrom(client, 0, "first", "", true).log;
    assert log == [Validated(empty), Sent(empty)] + second.events;
    assert log[1] == Sent(empty) && log[3] == Sent(named);
  }

  /** Over every world and URL: a client stays on its first host if and only if it follows no
      redirect, or its rules do not allow both the empty host and another one. */
  lemma {:induction false} SameHostExactly(rules: seq<string>, allowPrivate: bool, limit: nat, redirects: int,
        follow: bool)
    ensures StaysOnHost(rules, allowPrivate, limit, redirects, follow)
       <==> redirects < 1 || !follow || !EmptyAndNamed(rules)
  {
    if redirects >= 1 && follow && EmptyAndNamed(rules) {
      var host :| host != "" && TrimDots(host) == host && Allowed(host, rules);
      LeavesHost(Client(rules, allowPrivate, LeavingWorld(host), limit, redirects), host);
    } else {
      forall world, url
        ensures SameHost(RunFrom(Client(rules, allowPrivate, world, limit, redirects), 0, url, "", follow).log)
      {
        var client := Client(rules, allowPrivate, world, limit, redirects);
        if redirects < 1 || !follow {
          OneHop(client, url, follow);
        } else {
          StaysOnAllowed(client, url, follow);
        }
      }
    }
  }

  /** The same in terms of the rules: one consists of dots only and another does not. */
  lemma {:induction false} EmptyAndNamedExactly(rules: seq<string>)
    ensures EmptyAndNamed(rules)
       <==> (exists i :: 0 <= i < |rules| && OnlyDots(rules[i]))
            && (exists i :: 0 <= i < |rules| && !OnlyDots(rules[i]))
  {
    EmptyHostAllowed(rules);
    NamedHostAllowed(rules);
  }

  // ---------- one grant per request ----------

  function Sum(counts: seq<nat>): nat {
    if counts == [] then 0 else Sum(counts[..|counts| - 1]) + counts[|counts| - 1]
  }

  /** Requests forwarded on one budget, one per grant, with the exchanges each caused: together
      they stay within the hops of one request times the budget. */
  lemma {:induction false} ExchangesBounded(counts: seq<nat>, maxRedirects: nat, grants: nat, maximum: nat)
    requires |counts| <= grants <= maximum && forall i | 0 <= i < |counts| :: counts[i] <= maxRedirects + 1
    ensures Sum(counts) <= (maxRedirects + 1) * maximum
    decreases counts
  {
    if counts != [] {
      ExchangesBounded(counts[..|counts| - 1], maxRedirects, grants - 1, maximum - 1);
      assert (maxRedirects + 1) * maximum == (maxRedirects + 1) * (maximum - 1) + (maxRedirects + 1);
    }
  }

  /** A proxied job: a budget, what was sent on it, and the requests that were granted and are not
      answered yet. */
  class ProxyJob {
    const client: Client
    const budget: RequestBudget
    var pending: nat
    ghost var exchanges: seq<nat>

    ghost predicate Valid()
      reads this, budget
    {
      && budget.Valid() && client.maxRedirects >= 0 && |exchanges| + pending <= budget.count
      && forall i | 0 <= i < |exchanges| :: exchanges[i] <= client.maxRedirects + 1
    }

    constructor (client: Client, maximum: nat, rate: real)
      requires client.maxRedirects >= 0 && rate > 0.0
      ensures Valid() && fresh(budget) && this.client == client && budget.maximum == maximum
      ensures exchanges == [] && pending == 0
    {
      this.client, exchanges, pending := client, [], 0;
      budget := new RequestBudget(maximum, rate);
    }

    /** The first half of a forwarded request: its grant. */
    method Begin(task: Task, before: real, after: real) returns (granted: bool)
      requires Valid() && after >= before + budget.Delay(before)
      modifies this`pending, budget
      ensures Valid() && granted == (old(budget.count) < budget.maximum)
      ensures pending == old(pending) + (if granted then 1 else 0)
      ensures budget.count == old(budget.count) + (if granted then 1 else 0)
    {
      granted := budget.Take(task, before, after);
      if granted {
        pending := pending + 1;
      }
    }

    /** The second half: at most `maxRedirects + 1` exchanges. */
    method Finish(url: string) returns (result: Result)
      requires Valid() && pending > 0
      modifies this
      ensures Valid() && pending == old(pending) - 1 && |exchanges| == |old(exchanges)| + 1
        && old(exchanges) <= exchanges
    {
      ghost var log;
      result, log := Request(client, url, true);
      RunSafe(client, 0, url, "", true);
      exchanges := exchanges + [Sends(log)];
      pending := pending - 1;
    }

    /** Any halves of other requests, leaving `kept` granted ones unanswered. */
    method Others(kept: nat)
      requires Valid() && pending >= kept
      modifies this, budget
      ensures Valid() && pending >= kept && old(exchanges) <= exchanges && budget.count >= old(budget.count)
    {
      var more: nat := *;
      while more > 0
        invariant Valid() && pending >= kept && old(exchanges) <= exchanges && budget.count >= old(budget.count)
      {
        more := more - 1;
        var task: Task := *;
        var url: string := *;
        var reading: real := *;
        var begins: bool := *;
        if begins {
          var granted := Begin(task, reading, reading + budget.Delay(reading));
        } else if pending > kept {
          var answer := Finish(url);
        }
      }
    }

    /** Forwards one request while others are forwarded before, between and after its halves. */
    method Forward(task: Task, before: real, after: real, url: string) returns (result: Option<Result>)
      requires Valid() && after >= before + budget.Delay(before)
      modifies this, budget
      ensures Valid() && Sum(exchanges) <= (client.maxRedirects + 1) * budget.maximum
      ensures result.None? <==> old(budget.count) >= budget.maximum
      ensures old(exchanges) <= exchanges && budget.count >= old(budget.count)
      ensures result.Some? ==> |exchanges| > |old(exchanges)| && budget.count > old(budget.count)
    {
      var granted := Begin(task, before, after);
      if granted {
        Others(1);
        var answer := Finish(url);
        result := Some(answer);
      } else {
        result := None;
      }
      Others(0);
      ExchangesBounded(exchanges, client.maxRedirects, budget.count, budget.maximum);
    }
  }
}
