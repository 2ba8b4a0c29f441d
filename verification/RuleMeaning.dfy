/**
 What a rule matches, what it does to a request and when an explain trace lists it, said on the
 parts of URLs and not by the tests and keys of the engine (src/rules/pool/runtime.rs, matching.rs).
 */
module RuleMeaning {
  import opened Basics
  import opened Matching
  import opened Names
  import opened Rules
  import opened RuleIndex
  import RuleSet
  import Path = PathTrie
  import Cidr = CidrTrie

  // ----- what a rule matches

  /** `path` is below `prefix`: it goes on after it at a slash, or not at all. */
  ghost predicate Below(path: string, prefix: string) {
    || prefix == "/"
    || exists rest :: path == prefix + rest
                      && (rest == "" || rest[0] == '/' || (prefix != "" && prefix[|prefix| - 1] == '/'))
  }

  lemma BelowIff(path: string, prefix: string)
    ensures PathHasPrefix(path, prefix) <==> Below(path, prefix)
  {
    if PathHasPrefix(path, prefix) && prefix != "/" {
      assert path == prefix + path[|prefix|..];
    }
  }

  /** `host` is `suffix` or a subdomain of it. */
  ghost predicate AtOrUnder(host: string, suffix: string) {
    host == suffix || exists sub :: host == sub + "." + suffix
  }

  lemma AtOrUnderIff(host: string, suffix: string)
    ensures HostHasSuffix(host, suffix) <==> AtOrUnder(host, suffix)
  {
    if HostHasSuffix(host, suffix) && host != suffix {
      var rest := host[..|host| - |suffix|];
      assert host == rest[..|rest| - 1] + "." + suffix;
    }
    if sub :| host == sub + "." + suffix {
      assert host[..|host| - |suffix|] == sub + "." && host[|host| - |suffix|..] == suffix;
    }
  }

  /** The address agrees with the network's in all bits of the prefix. */
  predicate SameBits(net: Cidr.Net, width: nat, ip: nat)
    requires Cidr.NetOk(net, width)
  {
    Cidr.Bits(net.addr, width, net.prefixLen) == Cidr.Bits(ip, width, net.prefixLen)
  }

  lemma SameBitsIff(net: Cidr.Net, width: nat, ip: nat)
    requires Cidr.NetOk(net, width) && ip < Pow2(width)
    ensures Cidr.Contains(net, width, ip) <==> SameBits(net, width, ip)
  {
    Cidr.LeadingBits(net.addr, ip, width, net.prefixLen);
    Cidr.SameBlock(net.addr, ip, Pow2(width - net.prefixLen));
  }

  ghost predicate HostMeant(pattern: HostPattern, host: string) {
    match pattern
    case Exact(expected) => host == expected
    case AnyOf(expected) => exists i :: 0 <= i < |expected| && expected[i] == host
    case Suffix(expected) => AtOrUnder(host, expected)
  }

  predicate IpMeant(pattern: IpPattern, ip: IpAddr) {
    match pattern
    case ExactIp(expected) => ip == expected
    case InNet(NetV4(net)) => ip.V4? && SameBits(net, BITS4, ip.v4)
    case InNet(NetV6(net)) => ip.V6? && SameBits(net, BITS6, ip.v6)
  }

  /** Scheme, port and path where the rule names them. */
  ghost predicate PartsMeant(scheme: Option<string>, port: Option<nat>, pathPrefix: Option<string>, url: Url) {
    && (forall s :: scheme == Some(s) ==> url.scheme == s)
    && (forall p :: port == Some(p) ==> url.port == Some(p))
    && (forall p :: pathPrefix == Some(p) ==> Below(url.path, p))
  }

  ghost predicate Meant(matcher: Matcher, request: Request) {
    var url := request.url;
    match matcher
    case ExactUrl(o) =>
      url.scheme == o.scheme && url.host == o.host && url.port == o.port && url.path == o.path && url.query == o.query
    case PrefixUrl(o) =>
      url.scheme == o.scheme && url.host == o.host && url.port == o.port && Below(url.path, o.path)
    case Host(pattern, scheme, port, pathPrefix) =>
      && PartsMeant(scheme, port, pathPrefix, url)
      && url.host.Some? && exists h :: HostOf(url.host.value, h) && HostMeant(pattern, h)
    case Ip(pattern, scheme, port, pathPrefix) =>
      && PartsMeant(scheme, port, pathPrefix, url)
      && request.ip.Some? && IpMeant(pattern, request.ip.value)
  }

  lemma PartsIff(scheme: Option<string>, port: Option<nat>, pathPrefix: Option<string>, url: Url)
    ensures CommonPartsMatch(scheme, port, pathPrefix, url) <==> PartsMeant(scheme, port, pathPrefix, url)
  {
    if pathPrefix.Some? {
      BelowIff(url.path, pathPrefix.value);
    }
  }

  lemma HostIff(pattern: HostPattern, url: Url)
    ensures (NormalizedHost(url).Some? && HostMatches(pattern, NormalizedHost(url).value)) <==>
            (url.host.Some? && exists h :: HostOf(url.host.value, h) && HostMeant(pattern, h))
  {
    if url.host.Some? {
      if NormalizedHost(url).Some? {
        var h := NormalizedHost(url).value;
        NormalizeHostIff(url.host.value, h);
        PatternIff(pattern, h);
      }
      if h :| HostOf(url.host.value, h) && HostMeant(pattern, h) {
        NormalizeHostIff(url.host.value, h);
        PatternIff(pattern, h);
      }
    }
  }

  lemma PatternIff(pattern: HostPattern, h: string)
    ensures HostMatches(pattern, h) <==> HostMeant(pattern, h)
  {
    if pattern.Suffix? {
      AtOrUnderIff(h, pattern.suffix);
    }
  }

  lemma IpIff(pattern: IpPattern, ip: IpAddr)
    ensures IpMatches(pattern, ip) <==> IpMeant(pattern, ip)
  {
    match (pattern, ip)
    case (InNet(NetV4(net)), V4(a)) => SameBitsIff(net, BITS4, a);
    case (InNet(NetV6(net)), V6(a)) => SameBitsIff(net, BITS6, a);
    case _ =>
  }

  /** A rule matches exactly the requests it is meant for. */
  lemma MatchesIff(rule: Rule, request: Request)
    ensures RuleMatches(rule, request) <==> Meant(rule.matcher, request)
    ensures ResolveRule(rule, request).Some? <==> Meant(rule.matcher, request)
  {
    match rule.matcher
    case ExactUrl(_) =>
    case PrefixUrl(o) => BelowIff(request.url.path, o.path);
    case Host(pattern, scheme, port, pathPrefix) =>
      PartsIff(scheme, port, pathPrefix, request.url);
      HostIff(pattern, request.url);
    case Ip(pattern, scheme, port, pathPrefix) =>
      PartsIff(scheme, port, pathPrefix, request.url);
      if request.ip.Some? {
        IpIff(pattern, request.ip.value);
      }
  }

  // ----- what a rule does

  /** The path prefix a rule is written for; rules without one start at the root. */
  function PrefixOf(matcher: Matcher): string {
    match matcher
    case ExactUrl(o) => o.path
    case PrefixUrl(o) => o.path
    case Host(_, _, _, Some(prefix)) => prefix
    case Ip(_, _, _, Some(prefix)) => prefix
    case _ => "/"
  }

  /** `base` and `more` joined by one slash: `b` and `m` are what is left without slashes at the seam. */
  predicate Joined(base: string, more: string, path: string, b: string, m: string) {
    && b <= base && AllAre(base[|b|..], '/') && !EndsWith(b, '/')
    && |m| <= |more| && more[|more| - |m|..] == m && AllAre(more[..|more| - |m|], '/') && !StartsWith(m, '/')
    && path == if m != "" then b + "/" + m else if b != "" then b else "/"
  }

  lemma JoinedIs(base: string, more: string, b: string, m: string)
    ensures forall path :: Joined(base, more, path, b, m) ==> path == JoinedPaths(base, more)
  {
    forall path | Joined(base, more, path, b, m)
      ensures path == JoinedPaths(base, more)
    {
      assert base == b + base[|b|..];
      TrimEndTakesRun(b, base[|b|..], '/');
      assert more == more[..|more| - |m|] + m;
      TrimStartTakesRun(more[..|more| - |m|], m, '/');
    }
  }

  lemma {:induction false} TrimStartSplits(s: string, c: char)
    ensures var t := TrimStart(s, c);
            |t| <= |s| && s[|s| - |t|..] == t && AllAre(s[..|s| - |t|], c) && !StartsWith(t, c)
  {
    if StartsWith(s, c) {
      TrimStartSplits(s[1..], c);
      var t := TrimStart(s, c);
      assert s[|s| - |t|..] == s[1..][|s| - 1 - |t|..];
      assert s[..|s| - |t|] == [s[0]] + s[1..][..|s| - 1 - |t|];
    }
  }

  lemma JoinedPathsJoin(base: string, more: string)
    ensures Joined(base, more, JoinedPaths(base, more), TrimEnd(base, '/'), TrimStart(more, '/'))
  {
    TrimEndSplits(base, '/');
    TrimStartSplits(more, '/');
  }

  /** The URL a mirroring rule sends a request to. */
  function MirroredUrl(rule: Rule, request: Request): Url
    requires rule.action.Mirror? && RuleMatches(rule, request)
  {
    ResolveRule(rule, request).value.plan.url
  }

  /**
   Whatever kind of rule but one for a single URL: what follows the rule's prefix in the request
   path follows the upstream's path, and query and upstream settings are carried over.
   */
  lemma MirrorCarriesPath(rule: Rule, request: Request, more: string)
    requires rule.action.Mirror? && RuleMatches(rule, request) && !rule.matcher.ExactUrl?
    requires request.url.path == PrefixOf(rule.matcher) + more
    ensures ResolveRule(rule, request).value == ToMirror(rule.action.upstream.(url := MirroredUrl(rule, request)))
    ensures var upstream := rule.action.upstream.url;
            MirroredUrl(rule, request) ==
            upstream.(path := MirroredUrl(rule, request).path, query := request.url.query, fragment := None)
    ensures exists b, m :: Joined(rule.action.upstream.url.path, more, MirroredUrl(rule, request).path, b, m)
    ensures forall path, b, m :: Joined(rule.action.upstream.url.path, more, path, b, m) ==>
              path == MirroredUrl(rule, request).path
  {
    var base, prefix := rule.action.upstream.url.path, PrefixOf(rule.matcher);
    assert request.url.path[|prefix|..] == more;
    assert MirroredUrl(rule, request).path == JoinedPaths(base, more);
    JoinedPathsJoin(base, more);
    forall path, b, m | Joined(base, more, path, b, m)
      ensures path == JoinedPaths(base, more)
    {
      JoinedIs(base, more, b, m);
    }
  }

  /** A path outside the prefix only matches the prefix "/", and then nothing but a leading slash is dropped. */
  lemma MirrorOfUnrooted(rule: Rule, request: Request)
    requires rule.action.Mirror? && RuleMatches(rule, request) && !rule.matcher.ExactUrl?
    requires !(PrefixOf(rule.matcher) <= request.url.path)
    ensures PrefixOf(rule.matcher) == "/"
    ensures MirroredUrl(rule, request).path == JoinedPaths(rule.action.upstream.url.path, "")
  {
  }

  /** Everything a matching rule does besides mirroring below a prefix. */
  lemma ActionIs(rule: Rule, request: Request)
    requires RuleMatches(rule, request)
    ensures match rule.action
            case Mirror(upstream) => rule.matcher.ExactUrl? ==> ResolveRule(rule, request) == Some(ToMirror(upstream))
            case Direct =>
              && ResolveRule(rule, request).Some? && ResolveRule(rule, request).value.ToDirect?
              && var plan := ResolveRule(rule, request).value.plan;
              && plan.url == request.url && plan.sni.None? && plan.host.None?
              && plan.connectHost.None? && plan.connectIp.None? && plan.dns.None?
            case Respond(status, body) => ResolveRule(rule, request) == Some(ToRespond(status, body))
            case Plugin(name) => ResolveRule(rule, request) == Some(ToPlugin(name))
            case Reject(status, message) => ResolveRule(rule, request) == Some(ToReject(status, message))
  {
  }

  // ----- which rules a trace lists

  /** The host an index key is made of: the named host, or nothing if there is none. */
  ghost predicate KeyHost(url: Url, h: string) {
    if url.host.Some? && exists g :: HostOf(url.host.value, g) then HostOf(url.host.value, h) else h == ""
  }

  ghost predicate SameKeyOrigin(a: Url, b: Url) {
    && a.scheme == b.scheme
    && (exists h :: KeyHost(a, h) && KeyHost(b, h))
    && (if a.port.Some? then a.port.value else 0) == (if b.port.Some? then b.port.value else 0)
  }

  lemma KeyHostIs(url: Url, h: string)
    ensures KeyHost(url, h) <==> h == OriginKeyOf(url).host
  {
    var host := if url.host.Some? then url.host.value else "";
    NormalizeHostIff(host, h);
    if url.host.None? {
      assert TrimEnd(Trim(""), '.') == "";
    }
    if NormalizeHost(host).Some? {
      NormalizeHostIff(host, NormalizeHost(host).value);
    }
    if g :| HostOf(host, g) {
      NormalizeHostIff(host, g);
    }
  }

  lemma SameKeyOriginIff(a: Url, b: Url)
    ensures OriginKeyOf(a) == OriginKeyOf(b) <==> SameKeyOrigin(a, b)
  {
    KeyHostIs(a, OriginKeyOf(a).host);
    KeyHostIs(b, OriginKeyOf(a).host);
    if h :| KeyHost(a, h) && KeyHost(b, h) {
      KeyHostIs(a, h);
      KeyHostIs(b, h);
    }
  }

  /** A trace lists a rule by its URL, its hosts or its addresses alone, whatever else the rule asks for. */
  ghost predicate Listed(matcher: Matcher, request: Request) {
    match matcher
    case ExactUrl(o) => SameKeyOrigin(request.url, o) && request.url.path == o.path && request.url.query == o.query
    case PrefixUrl(o) =>
      && SameKeyOrigin(request.url, o) && Below(request.url.path, o.path)
      && (o.path == "" || o.path == "/" ==> o.path != "" && o.path <= request.url.path)
    case Host(pattern, _, _, _) =>
      request.url.host.Some? && exists h :: HostOf(request.url.host.value, h) && HostMeant(pattern, h)
    case Ip(pattern, _, _, _) => request.ip.Some? && IpMeant(pattern, request.ip.value)
  }

  lemma ListedIff(rule: Rule, request: Request)
    ensures RuleSet.Candidate(KeysOf(rule), request) <==> Listed(rule.matcher, request)
  {
    match rule.matcher
    case ExactUrl(o) => SameKeyOriginIff(request.url, o);
    case PrefixUrl(o) =>
      SameKeyOriginIff(request.url, o);
      BelowIff(request.url.path, o.path);
    case Host(pattern, _, _, _) => HostIff(pattern, request.url);
    case Ip(pattern, _, _, _) =>
      if request.ip.Some? {
        IpIff(pattern, request.ip.value);
      }
  }
}
