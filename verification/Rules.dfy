/** Rules, requests and what it means for a rule to match (src/rules/model.rs, src/rules/pool/runtime.rs). */
module Rules {
  import opened Basics
  import opened Matching
  import Cidr = CidrTrie

  /** A parsed URL; `port` is the explicit port or the scheme's default. */
  datatype Url = Url(scheme: string, host: Option<string>, port: Option<nat>, path: string,
                     query: Option<string>, fragment: Option<string>)

  const OCTET: nat := 8
  const BITS4: nat := 4 * OCTET
  const BITS6: nat := 16 * OCTET

  type Ipv4 = x: nat | x < Pow2(BITS4)
  type Ipv6 = x: nat | x < Pow2(BITS6)
  type Ipv4Net = n: Cidr.Net | Cidr.NetOk(n, BITS4) witness Cidr.Net(0, 0)
  type Ipv6Net = n: Cidr.Net | Cidr.NetOk(n, BITS6) witness Cidr.Net(0, 0)

  datatype IpAddr = V4(v4: Ipv4) | V6(v6: Ipv6)
  datatype IpNet = NetV4(net4: Ipv4Net) | NetV6(net6: Ipv6Net)

  datatype HostPattern = Exact(host: string) | AnyOf(hosts: seq<string>) | Suffix(suffix: string)
  datatype IpPattern = ExactIp(ip: IpAddr) | InNet(net: IpNet)

  datatype Matcher =
    | ExactUrl(origin: Url)
    | PrefixUrl(origin: Url)
    | Host(hostPattern: HostPattern, scheme: Option<string>, port: Option<nat>, pathPrefix: Option<string>)
    | Ip(ipPattern: IpPattern, scheme: Option<string>, port: Option<nat>, pathPrefix: Option<string>)

  datatype UpstreamPlan = UpstreamPlan(url: Url, sni: Option<string>, host: Option<string>,
                                       connectHost: Option<string>, connectIp: Option<IpAddr>, dns: Option<string>)

  datatype Action = Mirror(upstream: UpstreamPlan) | Direct | Respond(status: nat, body: string)
                  | Plugin(name: string) | Reject(status: nat, message: string)

  datatype ResolvedAction = ToMirror(plan: UpstreamPlan) | ToDirect(plan: UpstreamPlan)
                          | ToRespond(status: nat, body: string) | ToPlugin(name: string)
                          | ToReject(status: nat, message: string)

  datatype Rule = Rule(matcher: Matcher, action: Action, priority: int, spread: bool)

  /** A request URL with its host parsed as a literal IP address, if it is one. */
  datatype Request = Request(url: Url, ip: Option<IpAddr>)

  datatype Explanation = Matched(pathSuffix: Option<string>) | Mismatch

  // ----- matching one rule

  predicate SameOrigin(left: Url, right: Url) {
    left.scheme == right.scheme && left.host == right.host && left.port == right.port
  }

  predicate SameUrl(left: Url, right: Url) {
    SameOrigin(left, right) && left.path == right.path && left.query == right.query
  }

  function StripPrefix(s: string, prefix: string): Option<string> {
    if prefix <= s then Some(s[|prefix|..]) else None
  }

  function PathSuffix(pathPrefix: Option<string>, path: string): string {
    var rooted := match StripPrefix(path, "/") case Some(rest) => rest case None => "";
    match pathPrefix
    case None => rooted
    case Some(prefix) => match StripPrefix(path, prefix) case Some(rest) => rest case None => rooted
  }

  predicate CommonPartsMatch(scheme: Option<string>, port: Option<nat>, pathPrefix: Option<string>, url: Url) {
    && (scheme.Some? ==> url.scheme == scheme.value)
    && (port.Some? ==> url.port == port)
    && (pathPrefix.Some? ==> PathHasPrefix(url.path, pathPrefix.value))
  }

  function NormalizedHost(url: Url): Option<string> {
    match url.host case None => None case Some(host) => NormalizeHost(host)
  }

  predicate HostMatches(pattern: HostPattern, host: string) {
    match pattern
    case Exact(expected) => expected == host
    case AnyOf(expected) => host in expected
    case Suffix(expected) => HostHasSuffix(host, expected)
  }

  predicate NetContains(net: IpNet, ip: IpAddr) {
    match (net, ip)
    case (NetV4(n), V4(a)) => Cidr.Contains(n, BITS4, a)
    case (NetV6(n), V6(a)) => Cidr.Contains(n, BITS6, a)
    case _ => false
  }

  predicate IpMatches(pattern: IpPattern, ip: IpAddr) {
    match pattern
    case ExactIp(expected) => expected == ip
    case InNet(net) => NetContains(net, ip)
  }

  function Explain(matcher: Matcher, request: Request): Explanation {
    var url := request.url;
    match matcher
    case ExactUrl(origin) => if SameUrl(url, origin) then Matched(None) else Mismatch
    case PrefixUrl(origin) =>
      if !SameOrigin(url, origin) || !PathHasPrefix(url.path, origin.path) then Mismatch
      else Matched(Some(PathSuffix(Some(origin.path), url.path)))
    case Host(pattern, scheme, port, pathPrefix) =>
      if !CommonPartsMatch(scheme, port, pathPrefix, url) then Mismatch
      else (match NormalizedHost(url)
            case None => Mismatch
            case Some(host) =>
              if HostMatches(pattern, host) then Matched(Some(PathSuffix(pathPrefix, url.path))) else Mismatch)
    case Ip(pattern, scheme, port, pathPrefix) =>
      if !CommonPartsMatch(scheme, port, pathPrefix, url) then Mismatch
      else (match request.ip
            case None => Mismatch
            case Some(ip) =>
              if IpMatches(pattern, ip) then Matched(Some(PathSuffix(pathPrefix, url.path))) else Mismatch)
  }

  predicate RuleMatches(rule: Rule, request: Request) {
    Explain(rule.matcher, request).Matched?
  }

  function MirrorUpstream(upstream: UpstreamPlan, original: Url, pathSuffix: Option<string>): UpstreamPlan {
    match pathSuffix
    case None => upstream
    case Some(suffix) =>
      upstream.(url := upstream.url.(path := JoinedPaths(upstream.url.path, suffix),
                                     query := original.query, fragment := None))
  }

  /** `Rule::resolve_with_lookup`. */
  function ResolveRule(rule: Rule, request: Request): Option<ResolvedAction> {
    match Explain(rule.matcher, request)
    case Mismatch => None
    case Matched(suffix) =>
      Some(match rule.action
           case Mirror(upstream) => ToMirror(MirrorUpstream(upstream, request.url, suffix))
           case Direct => ToDirect(UpstreamPlan(request.url, None, None, None, None, None))
           case Respond(status, body) => ToRespond(status, body)
           case Plugin(name) => ToPlugin(name)
           case Reject(status, message) => ToReject(status, message))
  }

  /**
   A mirrored request stays on the upstream's origin, its path is rooted and extends the
   upstream's, and unless the rule names one exact URL it carries the request's query.
   */
  lemma MirrorStaysBelowUpstream(rule: Rule, request: Request)
    requires rule.action.Mirror? && RuleMatches(rule, request) && StartsWith(rule.action.upstream.url.path, '/')
    ensures var upstream := rule.action.upstream;
            && ResolveRule(rule, request).Some? && ResolveRule(rule, request).value.ToMirror?
            && var plan := ResolveRule(rule, request).value.plan;
            && plan == upstream.(url := plan.url) && SameOrigin(plan.url, upstream.url)
            && StartsWith(plan.url.path, '/') && TrimEnd(upstream.url.path, '/') <= plan.url.path
            && (!rule.matcher.ExactUrl? ==> plan.url.query == request.url.query)
  {
    var base := rule.action.upstream.url.path;
    TrimEndStops(base, '/');
    if Explain(rule.matcher, request).pathSuffix.Some? {
      JoinedPathSeam(base, Explain(rule.matcher, request).pathSuffix.value);
    }
  }

  /** The part of the path after a matched prefix is what the mirrored path goes on with. */
  lemma MirrorCarriesPath(rule: Rule, request: Request, more: string)
    requires rule.action.Mirror? && RuleMatches(rule, request) && StartsWith(rule.action.upstream.url.path, '/')
    requires rule.matcher.PrefixUrl? && request.url.path == rule.matcher.origin.path + more
             && TrimStart(more, '/') != ""
    ensures ResolveRule(rule, request).value.plan.url.path ==
            TrimEnd(rule.action.upstream.url.path, '/') + "/" + TrimStart(more, '/')
  {
    var prefix := rule.matcher.origin.path;
    assert request.url.path[|prefix|..] == more;
    JoinedPathSeam(rule.action.upstream.url.path, more);
  }

  /** What one rule contributes to the decision on one request. */
  datatype Verdict = Verdict(priority: int, spread: bool, matches: bool)

  function Verdicts(rules: seq<Rule>, request: Request): (vs: seq<Verdict>)
    ensures |vs| == |rules|
  {
    seq(|rules|, i requires 0 <= i < |rules| =>
      Verdict(rules[i].priority, rules[i].spread, RuleMatches(rules[i], request)))
  }
}

/** What a rule list decides, said without any order of evaluation. */
module Decision {
  import opened Basics
  import opened Rules

  /** Rule `i` wins its priority level: it matches and no earlier rule of that level does. */
  ghost predicate Wins(vs: seq<Verdict>, i: nat) {
    && i < |vs| && vs[i].matches
    && forall j :: 0 <= j < i && vs[j].priority == vs[i].priority ==> !vs[j].matches
  }

  /**
   The decision: the highest non-spread level winner if there is one, otherwise the lowest level
   winner, otherwise nothing.
   */
  ghost predicate Decides(vs: seq<Verdict>, decision: Option<nat>) {
    match decision
    case None => forall i :: 0 <= i < |vs| ==> !vs[i].matches
    case Some(w) =>
      && Wins(vs, w)
      && if vs[w].spread
         then forall i: nat :: Wins(vs, i) ==> vs[i].spread && vs[w].priority <= vs[i].priority
         else forall i: nat :: Wins(vs, i) && vs[w].priority < vs[i].priority ==> vs[i].spread
  }

  /** Some level below a non-spread winner has a winner, too. */
  ghost predicate Overrun(vs: seq<Verdict>) {
    exists i: nat, j: nat :: Wins(vs, i) && !vs[i].spread && Wins(vs, j) && vs[j].priority < vs[i].priority
  }

  /** Every matching rule sits in a level that has a winner. */
  lemma {:induction false} LevelHasWinner(vs: seq<Verdict>, i: nat) returns (w: nat)
    requires i < |vs| && vs[i].matches
    ensures Wins(vs, w) && w <= i && vs[w].priority == vs[i].priority
  {
    if j :| 0 <= j < i && vs[j].priority == vs[i].priority && vs[j].matches {
      w := LevelHasWinner(vs, j);
    } else {
      w := i;
    }
  }

  /** `Decides` leaves no freedom. */
  lemma DecisionIsUnique(vs: seq<Verdict>, a: Option<nat>, b: Option<nat>)
    requires Decides(vs, a) && Decides(vs, b)
    ensures a == b
  {
    if a.Some? && b.Some? {
      assert vs[a.value].priority == vs[b.value].priority;
    }
  }

  /** Without spread, the first rule of the highest level that matches at all decides. */
  lemma OrdinaryDecision(vs: seq<Verdict>, w: nat)
    requires forall i :: 0 <= i < |vs| && vs[i].matches ==> !vs[i].spread
    ensures Decides(vs, Some(w)) <==>
            && w < |vs| && vs[w].matches
            && forall i :: 0 <= i < |vs| && vs[i].matches ==>
                 vs[i].priority < vs[w].priority || (vs[i].priority == vs[w].priority && w <= i)
  {
    if Decides(vs, Some(w)) {
      forall i | 0 <= i < |vs| && vs[i].matches
        ensures vs[i].priority < vs[w].priority || (vs[i].priority == vs[w].priority && w <= i)
      {
        var v := LevelHasWinner(vs, i);
      }
    }
  }

  /** With nothing but spread, the first rule of the lowest level that matches at all decides. */
  lemma SpreadDecision(vs: seq<Verdict>, w: nat)
    requires forall i :: 0 <= i < |vs| && vs[i].matches ==> vs[i].spread
    ensures Decides(vs, Some(w)) <==>
            && w < |vs| && vs[w].matches
            && forall i :: 0 <= i < |vs| && vs[i].matches ==>
                 vs[i].priority > vs[w].priority || (vs[i].priority == vs[w].priority && w <= i)
  {
    if Decides(vs, Some(w)) {
      forall i | 0 <= i < |vs| && vs[i].matches
        ensures vs[i].priority > vs[w].priority || (vs[i].priority == vs[w].priority && w <= i)
      {
        var v := LevelHasWinner(vs, i);
      }
    }
  }

  /** A non-spread level winner above which only spread wins decides, whatever lies below. */
  lemma StopDecision(vs: seq<Verdict>, w: nat)
    requires Wins(vs, w) && !vs[w].spread
    requires forall i: nat :: Wins(vs, i) && vs[i].priority > vs[w].priority ==> vs[i].spread
    ensures Decides(vs, Some(w))
    ensures forall d :: Decides(vs, d) ==> d == Some(w)
  {
    forall d | Decides(vs, d)
      ensures d == Some(w)
    {
      DecisionIsUnique(vs, d, Some(w));
    }
  }
}
