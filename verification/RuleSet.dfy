/** The rule set as its users see it: resolve, explain and matches_dns_host (src/rules/pool). */
module RuleSet {
  import opened Basics
  import opened Matching
  import opened Rules
  import opened Decision
  import opened Resolution
  import opened RuleTrie
  import opened RuleIndex
  import Explain
  import Path = PathTrie
  import Hosts = HostTrie
  import Cidr = CidrTrie

  // ----- which filed rules a request brings up

  predicate HostCandidate(keys: RuleKeys, host: string) {
    host in keys.hosts || (keys.suffix.Some? && HostHasSuffix(host, keys.suffix.value))
  }

  predicate IpCandidate(keys: RuleKeys, ip: IpAddr) {
    || keys.ip == Some(ip)
    || (ip.V4? && keys.net4.Some? && Cidr.Contains(keys.net4.value, BITS4, ip.v4))
    || (ip.V6? && keys.net6.Some? && Cidr.Contains(keys.net6.value, BITS6, ip.v6))
  }

  predicate UrlCandidate(keys: RuleKeys, url: Url) {
    || keys.url == Some(ExactUrlKeyOf(url))
    || (keys.prefix.Some? && keys.prefix.value.origin == OriginKeyOf(url)
       && Path.Reached(url.path, keys.prefix.value.path))
  }

  predicate Candidate(keys: RuleKeys, request: Request) {
    || UrlCandidate(keys, request.url)
    || (NormalizedHost(request.url).Some? && HostCandidate(keys, NormalizedHost(request.url).value))
    || (request.ip.Some? && IpCandidate(keys, request.ip.value))
  }

  lemma {:induction false} OccurrencesAre(hosts: seq<string>, host: string, index: nat, i: nat)
    ensures i in Occurrences(hosts, host, index) <==> i == index && host in hosts
  {
    if hosts != [] {
      OccurrencesAre(hosts[..|hosts| - 1], host, index, i);
      assert hosts == hosts[..|hosts| - 1] + [hosts[|hosts| - 1]];
    }
  }

  lemma {:induction false} UrlBucketIs(all: seq<RuleKeys>, key: ExactUrlKey, i: nat)
    ensures i in UrlBucket(all, key) <==> i < |all| && all[i].url == Some(key)
  {
    if all != [] {
      UrlBucketIs(all[..|all| - 1], key, i);
    }
  }

  lemma {:induction false} HostBucketIs(all: seq<RuleKeys>, host: string, i: nat)
    ensures i in HostBucket(all, host) <==> i < |all| && host in all[i].hosts
  {
    if all != [] {
      HostBucketIs(all[..|all| - 1], host, i);
      OccurrencesAre(all[|all| - 1].hosts, host, |all| - 1, i);
    }
  }

  lemma {:induction false} IpBucketIs(all: seq<RuleKeys>, ip: IpAddr, i: nat)
    ensures i in IpBucket(all, ip) <==> i < |all| && all[i].ip == Some(ip)
  {
    if all != [] {
      IpBucketIs(all[..|all| - 1], ip, i);
    }
  }

  lemma {:induction false} PrefixItemsAre(all: seq<RuleKeys>, origin: OriginKey, item: Path.Item)
    ensures item in PrefixItems(all, origin) <==>
            item.index < |all| && all[item.index].prefix == Some(PrefixKey(origin, item.prefix))
  {
    if all != [] {
      PrefixItemsAre(all[..|all| - 1], origin, item);
    }
  }

  lemma {:induction false} SuffixItemsAre(all: seq<RuleKeys>, item: Hosts.Item)
    ensures item in SuffixItems(all) <==> item.index < |all| && all[item.index].suffix == Some(item.suffix)
  {
    if all != [] {
      SuffixItemsAre(all[..|all| - 1], item);
    }
  }

  lemma {:induction false} NetItems4Are(all: seq<RuleKeys>, item: Cidr.Item)
    ensures item in NetItems4(all) <==>
            item.index < |all| && all[item.index].net4.Some? && all[item.index].net4.value == item.net
  {
    if all != [] {
      NetItems4Are(all[..|all| - 1], item);
    }
  }

  lemma {:induction false} NetItems6Are(all: seq<RuleKeys>, item: Cidr.Item)
    ensures item in NetItems6(all) <==>
            item.index < |all| && all[item.index].net6.Some? && all[item.index].net6.value == item.net
  {
    if all != [] {
      NetItems6Are(all[..|all| - 1], item);
    }
  }

  lemma PathWanted(all: seq<RuleKeys>, origin: OriginKey, path: string, i: nat)
    ensures Path.Wanted(PrefixItems(all, origin), path, None, i) <==>
            i < |all| && all[i].prefix.Some? && all[i].prefix.value.origin == origin
              && Path.Reached(path, all[i].prefix.value.path)
  {
    var items := PrefixItems(all, origin);
    if Path.Wanted(items, path, None, i) {
      var j :| 0 <= j < |items| && items[j].index == i && Path.Reached(path, items[j].prefix);
      PrefixItemsAre(all, origin, items[j]);
    }
    if i < |all| && all[i].prefix.Some? && all[i].prefix.value.origin == origin {
      PrefixItemsAre(all, origin, Path.Item(all[i].prefix.value.path, i));
    }
  }

  lemma HostWanted(all: seq<RuleKeys>, host: string, i: nat)
    ensures Hosts.Wanted(SuffixItems(all), host, None, i) <==>
            i < |all| && all[i].suffix.Some? && HostHasSuffix(host, all[i].suffix.value)
  {
    var items := SuffixItems(all);
    if Hosts.Wanted(items, host, None, i) {
      var j :| 0 <= j < |items| && items[j].index == i && HostHasSuffix(host, items[j].suffix);
      SuffixItemsAre(all, items[j]);
    }
    if i < |all| && all[i].suffix.Some? {
      SuffixItemsAre(all, Hosts.Item(all[i].suffix.value, i));
    }
  }

  lemma Net4Wanted(all: seq<RuleKeys>, ip: Ipv4, i: nat)
    ensures Cidr.Wanted(NetItems4(all), ip, BITS4, None, i) <==>
            i < |all| && all[i].net4.Some? && Cidr.Contains(all[i].net4.value, BITS4, ip)
  {
    var items := NetItems4(all);
    if Cidr.Wanted(items, ip, BITS4, None, i) {
      var j :| 0 <= j < |items| && items[j].index == i && Cidr.Contains(items[j].net, BITS4, ip);
      NetItems4Are(all, items[j]);
    }
    if i < |all| && all[i].net4.Some? {
      NetItems4Are(all, Cidr.Item(all[i].net4.value, i));
    }
  }

  lemma Net6Wanted(all: seq<RuleKeys>, ip: Ipv6, i: nat)
    ensures Cidr.Wanted(NetItems6(all), ip, BITS6, None, i) <==>
            i < |all| && all[i].net6.Some? && Cidr.Contains(all[i].net6.value, BITS6, ip)
  {
    var items := NetItems6(all);
    if Cidr.Wanted(items, ip, BITS6, None, i) {
      var j :| 0 <= j < |items| && items[j].index == i && Cidr.Contains(items[j].net, BITS6, ip);
      NetItems6Are(all, items[j]);
    }
    if i < |all| && all[i].net6.Some? {
      NetItems6Are(all, Cidr.Item(all[i].net6.value, i));
    }
  }

  // ----- collect_candidate_indices

  method CollectByUrl(index: CompiledRuleIndex, ghost all: seq<RuleKeys>, url: Url) returns (out: seq<nat>)
    requires UrlsHold(index.exactUrls, all) && OriginsHold(index.prefixOrigins, all)
    ensures forall i: nat :: i in out <==> i < |all| && UrlCandidate(all[i], url)
  {
    var key, origin := ExactUrlKeyOf(url), OriginKeyOf(url);
    var exact := Bucket(index.exactUrls, key);
    var prefixed := [];
    if origin in index.prefixOrigins {
      prefixed := Path.VisitMatches(index.prefixOrigins[origin], PrefixItems(all, origin), url.path, None);
    }
    out := exact + prefixed;
    forall i: nat
      ensures i in out <==> i < |all| && UrlCandidate(all[i], url)
    {
      UrlBucketIs(all, key, i);
      PathWanted(all, origin, url.path, i);
    }
  }

  method CollectByHost(index: CompiledRuleIndex, ghost all: seq<RuleKeys>, host: string) returns (out: seq<nat>)
    requires HostsHold(index.exactHosts, all) && SuffixesHold(index.suffixHosts, all)
    ensures forall i: nat :: i in out <==> i < |all| && HostCandidate(all[i], host)
  {
    var exact := Bucket(index.exactHosts, host);
    var suffixed := Hosts.VisitRuleMatches(index.suffixHosts, SuffixItems(all), host, None);
    out := exact + suffixed;
    forall i: nat
      ensures i in out <==> i < |all| && HostCandidate(all[i], host)
    {
      HostBucketIs(all, host, i);
      HostWanted(all, host, i);
    }
  }

  method CollectByIp(index: CompiledRuleIndex, ghost all: seq<RuleKeys>, ip: IpAddr) returns (out: seq<nat>)
    requires IpsHold(index.exactIps, all) && Nets4Hold(index.ipv4Cidrs, all) && Nets6Hold(index.ipv6Cidrs, all)
    ensures forall i: nat :: i in out <==> i < |all| && IpCandidate(all[i], ip)
  {
    var exact := Bucket(index.exactIps, ip);
    var nets;
    match ip {
      case V4(a) => nets := Cidr.VisitMatches(index.ipv4Cidrs, NetItems4(all), a, BITS4, None);
      case V6(a) => nets := Cidr.VisitMatches(index.ipv6Cidrs, NetItems6(all), a, BITS6, None);
    }
    out := exact + nets;
    forall i: nat
      ensures i in out <==> i < |all| && IpCandidate(all[i], ip)
    {
      IpBucketIs(all, ip, i);
      match ip {
        case V4(a) => Net4Wanted(all, a, i);
        case V6(a) => Net6Wanted(all, a, i);
      }
    }
  }

  method CollectCandidates(index: CompiledRuleIndex, ghost all: seq<RuleKeys>, request: Request) returns (out: seq<nat>)
    requires Indexes(index, all)
    ensures forall i: nat :: i in out <==> i < |all| && Candidate(all[i], request)
  {
    var byUrl := CollectByUrl(index, all, request.url);
    var byHost, byIp := [], [];
    if NormalizedHost(request.url).Some? {
      byHost := CollectByHost(index, all, NormalizedHost(request.url).value);
    }
    if request.ip.Some? {
      byIp := CollectByIp(index, all, request.ip.value);
    }
    out := byUrl + byHost + byIp;
  }

  // ----- the index agrees with the rules

  /** A prefix rule of the request's origin is one on which the path trie decides `path_has_prefix`. */
  ghost predicate Indexable(rules: seq<Rule>, request: Request) {
    forall i :: 0 <= i < |rules| && rules[i].matcher.PrefixUrl? && SameOrigin(request.url, rules[i].matcher.origin)
      ==> Path.Comparable(request.url.path, rules[i].matcher.origin.path)
  }

  /** http and https paths are rooted, so rooted paths are all that is ever needed. */
  lemma RootedIsIndexable(rules: seq<Rule>, request: Request)
    requires StartsWith(request.url.path, '/')
    requires forall i :: 0 <= i < |rules| && rules[i].matcher.PrefixUrl? ==>
             StartsWith(rules[i].matcher.origin.path, '/')
    ensures Indexable(rules, request)
  {
    forall i | 0 <= i < |rules| && rules[i].matcher.PrefixUrl?
      ensures Path.Comparable(request.url.path, rules[i].matcher.origin.path)
    {
      Path.ReachedIffPrefix(request.url.path, rules[i].matcher.origin.path);
    }
  }

  /** A matching rule is always brought up by the index. */
  lemma MatchIsCandidate(rule: Rule, request: Request)
    requires RuleMatches(rule, request)
    requires rule.matcher.PrefixUrl? && SameOrigin(request.url, rule.matcher.origin)
             ==> Path.Comparable(request.url.path, rule.matcher.origin.path)
    ensures Candidate(KeysOf(rule), request)
  {
    if rule.matcher.PrefixUrl? {
      Path.ReachedIffPrefix(request.url.path, rule.matcher.origin.path);
    }
  }

  /** The verdicts the index can see: a match counts only if the index brings the rule up. */
  function Seen(rules: seq<Rule>, request: Request): (vs: seq<Verdict>)
    ensures |vs| == |rules|
  {
    seq(|rules|, i requires 0 <= i < |rules| =>
      Verdict(rules[i].priority, rules[i].spread,
              RuleMatches(rules[i], request) && Candidate(KeysOf(rules[i]), request)))
  }

  /** The index sees every match exactly when it is asked about comparable paths only. */
  lemma IndexSeesAll(rules: seq<Rule>, request: Request)
    ensures Seen(rules, request) == Verdicts(rules, request) <==> Indexable(rules, request)
  {
    if Indexable(rules, request) {
      forall i | 0 <= i < |rules|
        ensures Seen(rules, request)[i] == Verdicts(rules, request)[i]
      {
        if RuleMatches(rules[i], request) {
          MatchIsCandidate(rules[i], request);
        }
      }
    } else {
      var i :| 0 <= i < |rules| && rules[i].matcher.PrefixUrl? && SameOrigin(request.url, rules[i].matcher.origin)
               && !Path.Comparable(request.url.path, rules[i].matcher.origin.path);
      UnreachedIsMissed(rules[i], request);
      assert Seen(rules, request)[i] != Verdicts(rules, request)[i];
    }
  }

  lemma UnreachedIsMissed(rule: Rule, request: Request)
    requires rule.matcher.PrefixUrl? && SameOrigin(request.url, rule.matcher.origin)
    requires !Path.Comparable(request.url.path, rule.matcher.origin.path)
    ensures RuleMatches(rule, request) && !Candidate(KeysOf(rule), request)
  {
    Path.ReachedIffPrefix(request.url.path, rule.matcher.origin.path);
  }

  lemma SeenIsJudged(rules: seq<Rule>, request: Request, cs: seq<nat>)
    requires forall i: nat :: i in cs <==> i < |rules| && Candidate(KeysOf(rules[i]), request)
    ensures Judges(Seen(rules, request), rules, request, cs) && CoversMatches(Seen(rules, request), cs)
  {
    forall k | 0 <= k < |cs|
      ensures cs[k] < |rules| && Candidate(KeysOf(rules[cs[k]]), request)
    {
      assert cs[k] in cs;
    }
  }

  /** What the sort looks at: the configured priorities, no verdict yet. */
  function Ranks(rules: seq<Rule>): (vs: seq<Verdict>)
    ensures |vs| == |rules|
  {
    seq(|rules|, i requires 0 <= i < |rules| => Verdict(rules[i].priority, rules[i].spread, false))
  }

  /** Candidates of the compiled index, in evaluation order, each once. */
  method OrderedCandidates(index: CompiledRuleIndex, rules: seq<Rule>, request: Request) returns (cs: seq<nat>)
    requires Indexes(index, AllKeys(rules))
    ensures forall i: nat :: i in cs <==> i < |rules| && Candidate(KeysOf(rules[i]), request)
    ensures var vs := Seen(rules, request);
            Judges(vs, rules, request, cs) && StrictlyOrdered(vs, cs) && CoversMatches(vs, cs)
  {
    var collected := CollectCandidates(index, AllKeys(rules), request);
    SeenIsJudged(rules, request, collected);
    cs := SortAndDedup(Ranks(rules), collected);
    SeenIsJudged(rules, request, cs);
  }

  /**
   `RuleSet::resolve` over the compiled index: the decision on what the index sees, which is the
   decision of the whole rule list whenever the paths are comparable.
   */
  method Resolve(index: CompiledRuleIndex, rules: seq<Rule>, request: Request) returns (r: Option<MatchedRule>)
    requires Indexes(index, AllKeys(rules))
    ensures Decides(Seen(rules, request), IndexOf(r))
    ensures Indexable(rules, request) ==> Decides(Verdicts(rules, request), IndexOf(r))
    ensures r.Some? ==> ResolveRule(rules[r.value.index], request) == Some(r.value.action)
  {
    var cs := OrderedCandidates(index, rules, request);
    r := ResolveCandidates(Seen(rules, request), rules, request, cs);
    IndexSeesAll(rules, request);
  }

  /** `RuleSet::explain` over the compiled index. */
  method ExplainRequest(index: CompiledRuleIndex, rules: seq<Rule>, request: Request)
    returns (trace: Explain.Trace, ghost runs: seq<seq<nat>>)
    requires Indexes(index, AllKeys(rules))
    ensures Explain.Explained(Seen(rules, request), trace.groups, runs)
    ensures Explain.Reflects(Seen(rules, request), trace.groups)
    ensures Explain.Listed(trace.groups) == Explain.Concat(runs)
    ensures forall i: nat :: i in Explain.Listed(trace.groups) <==> i < |rules| && Candidate(KeysOf(rules[i]), request)
    ensures Decides(Seen(rules, request), Explain.Pick(trace.groups))
    ensures trace.finalMatch == Explain.LastWinner(trace.groups)
    ensures trace.finalMatch == Explain.Pick(trace.groups) <==> !Overrun(Seen(rules, request))
  {
    var cs := OrderedCandidates(index, rules, request);
    ghost var vs := Seen(rules, request);
    trace, runs := Explain.ExplainCandidates(vs, rules, request, cs);
    Explain.ExplainedReflects(vs, trace.groups, runs);
    Explain.PickDecides(vs, trace.groups);
    Explain.FinalMatchIsDecision(vs, trace.groups, Explain.Pick(trace.groups));
  }

  /** A rule list compiled and asked: nothing is required of the rules or the request. */
  method CompileAndResolve(rules: seq<Rule>, request: Request) returns (r: Option<MatchedRule>)
    ensures Decides(Seen(rules, request), IndexOf(r))
    ensures Indexable(rules, request) ==> Decides(Verdicts(rules, request), IndexOf(r))
    ensures r.Some? ==> ResolveRule(rules[r.value.index], request) == Some(r.value.action)
  {
    var index := Compile(rules);
    r := Resolve(index, rules, request);
  }

  /** The trace of a compiled rule list explains what resolving with it returns. */
  method CompileAndExplain(rules: seq<Rule>, request: Request) returns (trace: Explain.Trace, r: Option<MatchedRule>)
    ensures Explain.Reflects(Seen(rules, request), trace.groups) && IndexOf(r) == Explain.Pick(trace.groups)
    ensures trace.finalMatch == IndexOf(r) <==> !Overrun(Seen(rules, request))
    ensures forall i: nat :: i in Explain.Listed(trace.groups) <==> i < |rules| && Candidate(KeysOf(rules[i]), request)
  {
    var index := Compile(rules);
    r := Resolve(index, rules, request);
    ghost var runs;
    trace, runs := ExplainRequest(index, rules, request);
    DecisionIsUnique(Seen(rules, request), IndexOf(r), Explain.Pick(trace.groups));
  }

  // ----- the trace can end on a rule that lost

  const ANY_URL := Url("http", Some("a.test"), Some(80), "/", None, None)

  /** Two ordinary rules for one URL, on two levels. */
  const TWO_LEVELS := [Rule(ExactUrl(ANY_URL), Plugin("first"), 2, false),
                       Rule(ExactUrl(ANY_URL), Plugin("second"), 1, false)]

  /** Asked about that URL, resolve returns the first rule and every trace ends on the second. */
  lemma FinalMatchCanDiffer(groups: seq<Explain.Group>)
    ensures var request := Request(ANY_URL, None);
            && Indexable(TWO_LEVELS, request) && Decides(Verdicts(TWO_LEVELS, request), Some(0))
            && (Explain.Reflects(Seen(TWO_LEVELS, request), groups) ==> Explain.LastWinner(groups) == Some(1))
  {
    var request := Request(ANY_URL, None);
    var vs := Verdicts(TWO_LEVELS, request);
    assert vs[0] == Verdict(2, false, true) && vs[1] == Verdict(1, false, true);
    IndexSeesAll(TWO_LEVELS, request);
    assert Wins(vs, 0) && Wins(vs, 1);
    if Explain.Reflects(vs, groups) {
      Explain.FinalMatchIsLowest(vs, groups);
    }
  }
}
