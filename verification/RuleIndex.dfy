/** Compiling rules into the lookup index and collecting candidates (src/rules/pool/compiled.rs, runtime.rs). */
module RuleIndex {
  import opened Basics
  import opened Matching
  import opened Rules
  import opened RuleTrie
  import Path = PathTrie
  import Hosts = HostTrie
  import Cidr = CidrTrie

  datatype OriginKey = OriginKey(scheme: string, host: string, port: nat)
  datatype ExactUrlKey = ExactUrlKey(origin: OriginKey, path: string, query: Option<string>)

  function OriginKeyOf(url: Url): OriginKey {
    var host := match url.host case Some(h) => h case None => "";
    OriginKey(url.scheme,
              match NormalizeHost(host) case Some(h) => h case None => "",
              match url.port case Some(p) => p case None => 0)
  }

  function ExactUrlKeyOf(url: Url): ExactUrlKey {
    ExactUrlKey(OriginKeyOf(url), url.path, url.query)
  }

  /** `dns_host_keys`: the hosts for which a rule wants fake addresses. */
  function DnsExactHosts(rule: Rule): set<string> {
    if rule.action.Direct? then {}
    else
      match rule.matcher
      case ExactUrl(origin) => OriginHosts(origin)
      case PrefixUrl(origin) => OriginHosts(origin)
      case Host(Exact(host), _, _, _) => {host}
      case Host(AnyOf(hosts), _, _, _) => set h | h in hosts
      case Host(Suffix(_), _, _, _) => {}
      case Ip(_, _, _, _) => {}
  }

  function OriginHosts(origin: Url): set<string> {
    match NormalizedHost(origin) case Some(host) => {host} case None => {}
  }

  function DnsSuffixHost(rule: Rule): Option<string> {
    if rule.action.Direct? then None
    else
      match rule.matcher
      case Host(Suffix(suffix), _, _, _) => Some(suffix)
      case _ => None
  }

  datatype PrefixKey = PrefixKey(origin: OriginKey, path: string)

  /** Everything under which one rule is filed. */
  datatype RuleKeys = RuleKeys(url: Option<ExactUrlKey>, prefix: Option<PrefixKey>, hosts: seq<string>,
                               suffix: Option<string>, ip: Option<IpAddr>, net4: Option<Ipv4Net>, net6: Option<Ipv6Net>,
                               dnsExact: set<string>, dnsSuffix: Option<string>)

  function KeysOf(rule: Rule): RuleKeys {
    var none := RuleKeys(None, None, [], None, None, None, None, DnsExactHosts(rule), DnsSuffixHost(rule));
    match rule.matcher
    case ExactUrl(origin) => none.(url := Some(ExactUrlKeyOf(origin)))
    case PrefixUrl(origin) => none.(prefix := Some(PrefixKey(OriginKeyOf(origin), origin.path)))
    case Host(Exact(host), _, _, _) => none.(hosts := [host])
    case Host(AnyOf(hosts), _, _, _) => none.(hosts := hosts)
    case Host(Suffix(suffix), _, _, _) => none.(suffix := Some(suffix))
    case Ip(ExactIp(ip), _, _, _) => none.(ip := Some(ip))
    case Ip(InNet(NetV4(net)), _, _, _) => none.(net4 := Some(net))
    case Ip(InNet(NetV6(net)), _, _, _) => none.(net6 := Some(net))
  }

  function AllKeys(rules: seq<Rule>): (all: seq<RuleKeys>)
    ensures |all| == |rules|
  {
    seq(|rules|, i requires 0 <= i < |rules| => KeysOf(rules[i]))
  }

  // ----- what each part of the index holds for the rules filed so far

  function Occurrences(hosts: seq<string>, host: string, index: nat): seq<nat> {
    if hosts == [] then []
    else
      var before := Occurrences(hosts[..|hosts| - 1], host, index);
      if hosts[|hosts| - 1] == host then before + [index] else before
  }

  function UrlBucket(all: seq<RuleKeys>, key: ExactUrlKey): seq<nat> {
    if all == [] then []
    else
      var n := |all| - 1;
      if all[n].url == Some(key) then UrlBucket(all[..n], key) + [n] else UrlBucket(all[..n], key)
  }

  function HostBucket(all: seq<RuleKeys>, host: string): seq<nat> {
    if all == [] then [] else HostBucket(all[..|all| - 1], host) + Occurrences(all[|all| - 1].hosts, host, |all| - 1)
  }

  function IpBucket(all: seq<RuleKeys>, ip: IpAddr): seq<nat> {
    if all == [] then []
    else
      var n := |all| - 1;
      if all[n].ip == Some(ip) then IpBucket(all[..n], ip) + [n] else IpBucket(all[..n], ip)
  }

  predicate PrefixOf(keys: RuleKeys, origin: OriginKey) {
    keys.prefix.Some? && keys.prefix.value.origin == origin
  }

  function PrefixItems(all: seq<RuleKeys>, origin: OriginKey): seq<Path.Item> {
    if all == [] then []
    else
      var n := |all| - 1;
      if PrefixOf(all[n], origin) then PrefixItems(all[..n], origin) + [Path.Item(all[n].prefix.value.path, n)]
      else PrefixItems(all[..n], origin)
  }

  function SuffixItems(all: seq<RuleKeys>): seq<Hosts.Item> {
    if all == [] then []
    else
      var n := |all| - 1;
      if all[n].suffix.Some? then SuffixItems(all[..n]) + [Hosts.Item(all[n].suffix.value, n)]
      else SuffixItems(all[..n])
  }

  function NetItems4(all: seq<RuleKeys>): (items: seq<Cidr.Item>)
    ensures Cidr.ItemsOk(items, BITS4)
  {
    if all == [] then []
    else
      var n := |all| - 1;
      if all[n].net4.Some? then NetItems4(all[..n]) + [Cidr.Item(all[n].net4.value, n)] else NetItems4(all[..n])
  }

  function NetItems6(all: seq<RuleKeys>): (items: seq<Cidr.Item>)
    ensures Cidr.ItemsOk(items, BITS6)
  {
    if all == [] then []
    else
      var n := |all| - 1;
      if all[n].net6.Some? then NetItems6(all[..n]) + [Cidr.Item(all[n].net6.value, n)] else NetItems6(all[..n])
  }

  function AllDnsExact(all: seq<RuleKeys>): set<string> {
    if all == [] then {} else AllDnsExact(all[..|all| - 1]) + all[|all| - 1].dnsExact
  }

  function AllDnsSuffix(all: seq<RuleKeys>): set<string> {
    if all == [] then {}
    else
      var n := |all| - 1;
      AllDnsSuffix(all[..n]) + (if all[n].dnsSuffix.Some? then {all[n].dnsSuffix.value} else {})
  }

  // ----- the index

  datatype CompiledRuleIndex = CompiledRuleIndex(
    exactUrls: map<ExactUrlKey, seq<nat>>,
    prefixOrigins: map<OriginKey, Trie<char>>,
    exactHosts: map<string, seq<nat>>,
    suffixHosts: Trie<string>,
    exactIps: map<IpAddr, seq<nat>>,
    ipv4Cidrs: Trie<bool>,
    ipv6Cidrs: Trie<bool>,
    dnsExactHosts: set<string>)

  function Bucket<K(==)>(m: map<K, seq<nat>>, key: K): seq<nat> {
    if key in m then m[key] else []
  }

  ghost predicate UrlsHold(m: map<ExactUrlKey, seq<nat>>, all: seq<RuleKeys>) {
    forall key :: Bucket(m, key) == UrlBucket(all, key)
  }

  ghost predicate HostsHold(m: map<string, seq<nat>>, all: seq<RuleKeys>) {
    forall host :: Bucket(m, host) == HostBucket(all, host)
  }

  ghost predicate IpsHold(m: map<IpAddr, seq<nat>>, all: seq<RuleKeys>) {
    forall ip :: Bucket(m, ip) == IpBucket(all, ip)
  }

  /** Each origin has its own trie, and each trie holds the prefixes of its origin. */
  ghost predicate OriginsHold(origins: map<OriginKey, Trie<char>>, all: seq<RuleKeys>)
    reads origins.Values
  {
    && (forall key :: key !in origins ==> PrefixItems(all, key) == [])
    && (forall key :: key in origins ==>
          origins[key].Valid() && origins[key].log == Path.Log(PrefixItems(all, key)))
    && (forall a, b :: a in origins && b in origins && a != b ==> origins[a] != origins[b])
  }

  ghost predicate SuffixesHold(trie: Trie<string>, all: seq<RuleKeys>)
    reads trie
  {
    trie.Valid() && trie.log == Hosts.Log(SuffixItems(all)) && trie.marks == Hosts.Marks(AllDnsSuffix(all))
  }

  ghost predicate Nets4Hold(trie: Trie<bool>, all: seq<RuleKeys>)
    reads trie
  {
    trie.Valid() && trie.log == Cidr.Log(NetItems4(all), BITS4)
  }

  ghost predicate Nets6Hold(trie: Trie<bool>, all: seq<RuleKeys>)
    reads trie
  {
    trie.Valid() && trie.log == Cidr.Log(NetItems6(all), BITS6)
  }

  ghost predicate HostsAndNetsHold(index: CompiledRuleIndex, all: seq<RuleKeys>)
    reads index.suffixHosts, index.ipv4Cidrs, index.ipv6Cidrs
  {
    SuffixesHold(index.suffixHosts, all) && Nets4Hold(index.ipv4Cidrs, all) && Nets6Hold(index.ipv6Cidrs, all)
  }

  ghost predicate Indexes(index: CompiledRuleIndex, all: seq<RuleKeys>)
    reads index.prefixOrigins.Values, index.suffixHosts, index.ipv4Cidrs, index.ipv6Cidrs
  {
    && UrlsHold(index.exactUrls, all) && HostsHold(index.exactHosts, all) && IpsHold(index.exactIps, all)
    && OriginsHold(index.prefixOrigins, all) && HostsAndNetsHold(index, all)
    && index.dnsExactHosts == AllDnsExact(all)
  }

  // ----- filing one more rule

  lemma Snoc(all: seq<RuleKeys>, keys: RuleKeys)
    ensures (all + [keys])[..|all + [keys]| - 1] == all && (all + [keys])[|all + [keys]| - 1] == keys
  {
  }

  /** `entry(key).or_insert_with(Vec::new).push(index)`. */
  function Push<K(==, !new)>(m: map<K, seq<nat>>, key: K, index: nat): (m': map<K, seq<nat>>)
    ensures forall k :: Bucket(m', k) == if k == key then Bucket(m, k) + [index] else Bucket(m, k)
  {
    m[key := Bucket(m, key) + [index]]
  }

  method FileUrl(m: map<ExactUrlKey, seq<nat>>, ghost all: seq<RuleKeys>, keys: RuleKeys, index: nat)
    returns (m': map<ExactUrlKey, seq<nat>>)
    requires UrlsHold(m, all) && index == |all|
    ensures UrlsHold(m', all + [keys])
  {
    Snoc(all, keys);
    m' := if keys.url.Some? then Push(m, keys.url.value, index) else m;
  }

  method FileHosts(m: map<string, seq<nat>>, ghost all: seq<RuleKeys>, keys: RuleKeys, index: nat)
    returns (m': map<string, seq<nat>>)
    requires HostsHold(m, all) && index == |all|
    ensures HostsHold(m', all + [keys])
  {
    m' := PushAll(m, keys.hosts, index);
    Snoc(all, keys);
  }

  lemma MoreOccurrences(hosts: seq<string>, i: nat, index: nat)
    requires i < |hosts|
    ensures forall host :: Occurrences(hosts[..i + 1], host, index) ==
                           if hosts[i] == host then Occurrences(hosts[..i], host, index) + [index]
                           else Occurrences(hosts[..i], host, index)
  {
    assert hosts[..i + 1][..i] == hosts[..i];
  }

  method PushAll(m: map<string, seq<nat>>, hosts: seq<string>, index: nat) returns (m': map<string, seq<nat>>)
    ensures forall host :: Bucket(m', host) == Bucket(m, host) + Occurrences(hosts, host, index)
  {
    m' := m;
    for i := 0 to |hosts|
      invariant forall host :: Bucket(m', host) == Bucket(m, host) + Occurrences(hosts[..i], host, index)
    {
      MoreOccurrences(hosts, i, index);
      m' := Push(m', hosts[i], index);
    }
    assert hosts[..|hosts|] == hosts;
  }

  method FileIp(m: map<IpAddr, seq<nat>>, ghost all: seq<RuleKeys>, keys: RuleKeys, index: nat)
    returns (m': map<IpAddr, seq<nat>>)
    requires IpsHold(m, all) && index == |all|
    ensures IpsHold(m', all + [keys])
  {
    Snoc(all, keys);
    m' := if keys.ip.Some? then Push(m, keys.ip.value, index) else m;
  }

  lemma PrefixItemsAfter(all: seq<RuleKeys>, keys: RuleKeys)
    ensures forall key :: PrefixItems(all + [keys], key) ==
                          if PrefixOf(keys, key) then PrefixItems(all, key) + [Path.Item(keys.prefix.value.path, |all|)]
                          else PrefixItems(all, key)
  {
    Snoc(all, keys);
  }

  /** `entry(key).or_insert_with(PrefixPathTrie::default)`. */
  method EnsureOrigin(origins: map<OriginKey, Trie<char>>, ghost all: seq<RuleKeys>, key: OriginKey)
    returns (origins': map<OriginKey, Trie<char>>)
    requires OriginsHold(origins, all)
    ensures OriginsHold(origins', all) && key in origins' && fresh(origins'.Values - origins.Values)
  {
    origins' := origins;
    if key !in origins {
      var trie := new Trie();
      origins' := origins[key := trie];
    }
  }

  method InsertPrefix(origins: map<OriginKey, Trie<char>>, ghost all: seq<RuleKeys>, keys: RuleKeys, index: nat)
    requires OriginsHold(origins, all) && index == |all| && keys.prefix.Some? && keys.prefix.value.origin in origins
    modifies origins[keys.prefix.value.origin]
    ensures OriginsHold(origins, all + [keys])
  {
    var PrefixKey(origin, path) := keys.prefix.value;
    PrefixItemsAfter(all, keys);
    Path.Insert(origins[origin], PrefixItems(all, origin), path, index);
  }

  method FilePrefix(origins: map<OriginKey, Trie<char>>, ghost all: seq<RuleKeys>, keys: RuleKeys, index: nat)
    returns (origins': map<OriginKey, Trie<char>>)
    requires OriginsHold(origins, all) && index == |all|
    modifies origins.Values
    ensures OriginsHold(origins', all + [keys]) && fresh(origins'.Values - origins.Values)
  {
    if keys.prefix.Some? {
      origins' := EnsureOrigin(origins, all, keys.prefix.value.origin);
      InsertPrefix(origins', all, keys, index);
    } else {
      origins' := origins;
      PrefixItemsAfter(all, keys);
    }
  }

  method FileSuffix(trie: Trie<string>, ghost all: seq<RuleKeys>, keys: RuleKeys, index: nat)
    requires SuffixesHold(trie, all) && index == |all|
    modifies trie
    ensures SuffixesHold(trie, all + [keys])
  {
    Snoc(all, keys);
    if keys.suffix.Some? {
      Hosts.InsertRule(trie, SuffixItems(all), keys.suffix.value, index);
    }
    if keys.dnsSuffix.Some? {
      Hosts.MarkDns(trie, AllDnsSuffix(all), keys.dnsSuffix.value);
    }
  }

  method FileNet4(trie: Trie<bool>, ghost all: seq<RuleKeys>, keys: RuleKeys, index: nat)
    requires Nets4Hold(trie, all) && index == |all|
    modifies trie
    ensures Nets4Hold(trie, all + [keys])
  {
    Snoc(all, keys);
    if keys.net4.Some? {
      Cidr.Insert(trie, NetItems4(all), keys.net4.value, BITS4, index);
    }
  }

  method FileNet6(trie: Trie<bool>, ghost all: seq<RuleKeys>, keys: RuleKeys, index: nat)
    requires Nets6Hold(trie, all) && index == |all|
    modifies trie
    ensures Nets6Hold(trie, all + [keys])
  {
    Snoc(all, keys);
    if keys.net6.Some? {
      Cidr.Insert(trie, NetItems6(all), keys.net6.value, BITS6, index);
    }
  }

  /** The two address tries are different objects; tries over different keys are by their types. */
  ghost predicate Apart(index: CompiledRuleIndex) {
    index.ipv4Cidrs != index.ipv6Cidrs
  }

  method FileInHostAndNetTries(index: CompiledRuleIndex, ghost all: seq<RuleKeys>, keys: RuleKeys, n: nat)
    requires HostsAndNetsHold(index, all) && Apart(index) && n == |all|
    modifies index.suffixHosts, index.ipv4Cidrs, index.ipv6Cidrs
    ensures HostsAndNetsHold(index, all + [keys])
  {
    FileSuffix(index.suffixHosts, all, keys, n);
    FileNet4(index.ipv4Cidrs, all, keys, n);
    FileNet6(index.ipv6Cidrs, all, keys, n);
  }

  lemma ApartByType(path: Trie<char>, hosts: Trie<string>, net: Trie<bool>)
    ensures path as object != hosts as object && path as object != net as object
  {
  }

  lemma PathTriesApart(index: CompiledRuleIndex)
    ensures forall key :: key in index.prefixOrigins ==>
              var trie: object := index.prefixOrigins[key];
              trie != index.suffixHosts as object && trie != index.ipv4Cidrs as object
                && trie != index.ipv6Cidrs as object
  {
    forall key | key in index.prefixOrigins
      ensures var trie: object := index.prefixOrigins[key];
              trie != index.suffixHosts as object && trie != index.ipv4Cidrs as object
                && trie != index.ipv6Cidrs as object
    {
      ApartByType(index.prefixOrigins[key], index.suffixHosts, index.ipv4Cidrs);
      ApartByType(index.prefixOrigins[key], index.suffixHosts, index.ipv6Cidrs);
    }
  }

  /** Filing in the other tries leaves the path tries as they are. */
  method FileBesideOrigins(index: CompiledRuleIndex, ghost all: seq<RuleKeys>, keys: RuleKeys, n: nat)
    requires HostsAndNetsHold(index, all) && OriginsHold(index.prefixOrigins, all + [keys])
    requires Apart(index) && n == |all|
    modifies index.suffixHosts, index.ipv4Cidrs, index.ipv6Cidrs
    ensures HostsAndNetsHold(index, all + [keys]) && OriginsHold(index.prefixOrigins, all + [keys])
  {
    PathTriesApart(index);
    FileInHostAndNetTries(index, all, keys, n);
  }

  /** Filing in the path tries leaves the other tries as they are. */
  method FileInOrigins(index: CompiledRuleIndex, ghost all: seq<RuleKeys>, keys: RuleKeys, n: nat)
    returns (index': CompiledRuleIndex)
    requires HostsAndNetsHold(index, all) && OriginsHold(index.prefixOrigins, all) && Apart(index) && n == |all|
    modifies index.prefixOrigins.Values
    ensures HostsAndNetsHold(index', all) && OriginsHold(index'.prefixOrigins, all + [keys]) && Apart(index')
    ensures index' == index.(prefixOrigins := index'.prefixOrigins)
    ensures fresh(index'.prefixOrigins.Values - index.prefixOrigins.Values)
  {
    var origins := FilePrefix(index.prefixOrigins, all, keys, n);
    index' := index.(prefixOrigins := origins);
  }

  method FileInMaps(index: CompiledRuleIndex, ghost all: seq<RuleKeys>, keys: RuleKeys, n: nat)
    returns (index': CompiledRuleIndex)
    requires UrlsHold(index.exactUrls, all) && HostsHold(index.exactHosts, all) && IpsHold(index.exactIps, all)
    requires index.dnsExactHosts == AllDnsExact(all) && n == |all|
    ensures UrlsHold(index'.exactUrls, all + [keys]) && HostsHold(index'.exactHosts, all + [keys])
    ensures IpsHold(index'.exactIps, all + [keys]) && index'.dnsExactHosts == AllDnsExact(all + [keys])
    ensures index' == index.(exactUrls := index'.exactUrls, exactHosts := index'.exactHosts,
                             exactIps := index'.exactIps, dnsExactHosts := index'.dnsExactHosts)
  {
    var urls := FileUrl(index.exactUrls, all, keys, n);
    var hosts := FileHosts(index.exactHosts, all, keys, n);
    var ips := FileIp(index.exactIps, all, keys, n);
    Snoc(all, keys);
    index' := index.(exactUrls := urls, exactHosts := hosts, exactIps := ips,
                     dnsExactHosts := index.dnsExactHosts + keys.dnsExact);
  }

  method FileRule(index: CompiledRuleIndex, ghost all: seq<RuleKeys>, keys: RuleKeys, n: nat)
    returns (index': CompiledRuleIndex)
    requires Indexes(index, all) && Apart(index) && n == |all|
    modifies index.prefixOrigins.Values, index.suffixHosts, index.ipv4Cidrs, index.ipv6Cidrs
    ensures Indexes(index', all + [keys]) && Apart(index')
    ensures index'.suffixHosts == index.suffixHosts
    ensures index'.ipv4Cidrs == index.ipv4Cidrs && index'.ipv6Cidrs == index.ipv6Cidrs
    ensures fresh(index'.prefixOrigins.Values - index.prefixOrigins.Values)
  {
    index' := FileInMaps(index, all, keys, n);
    index' := FileInOrigins(index', all, keys, n);
    FileBesideOrigins(index', all, keys, n);
  }

  method BlankIndex() returns (index: CompiledRuleIndex)
    ensures Indexes(index, []) && Apart(index) && index.prefixOrigins == map[]
    ensures fresh(index.suffixHosts) && fresh(index.ipv4Cidrs) && fresh(index.ipv6Cidrs)
  {
    var suffixes := new Trie<string>();
    var nets4 := new Trie<bool>();
    var nets6 := new Trie<bool>();
    index := CompiledRuleIndex(map[], map[], map[], suffixes, map[], nets4, nets6, {});
  }

  lemma KeysTaken(rules: seq<Rule>, n: nat)
    ensures n < |rules| ==> AllKeys(rules)[..n + 1] == AllKeys(rules)[..n] + [KeysOf(rules[n])]
    ensures AllKeys(rules)[..|rules|] == AllKeys(rules)
  {
  }

  /** The index after the first `n` rules. */
  ghost predicate Compiled(index: CompiledRuleIndex, rules: seq<Rule>, n: nat)
    requires n <= |rules|
    reads index.prefixOrigins.Values, index.suffixHosts, index.ipv4Cidrs, index.ipv6Cidrs
  {
    Indexes(index, AllKeys(rules)[..n]) && Apart(index)
  }

  /** `made` covers the tries of the index. */
  ghost predicate Within(index: CompiledRuleIndex, made: set<object>) {
    index.suffixHosts in made && index.ipv4Cidrs in made && index.ipv6Cidrs in made
      && index.prefixOrigins.Values <= made
  }

  method FileNext(index: CompiledRuleIndex, rules: seq<Rule>, n: nat, ghost made: set<object>)
    returns (index': CompiledRuleIndex, ghost made': set<object>)
    requires n < |rules| && Compiled(index, rules, n) && Within(index, made)
    modifies made
    ensures Compiled(index', rules, n + 1) && Within(index', made') && fresh(made' - made)
  {
    KeysTaken(rules, n);
    index' := FileRule(index, AllKeys(rules)[..n], KeysOf(rules[n]), n);
    made' := made + index'.prefixOrigins.Values;
  }

  /** A new index that holds no rule yet. */
  method BlankFor(rules: seq<Rule>) returns (index: CompiledRuleIndex, ghost made: set<object>)
    ensures Compiled(index, rules, 0) && Within(index, made) && fresh(made)
  {
    index := BlankIndex();
    made := {index.suffixHosts as object, index.ipv4Cidrs as object, index.ipv6Cidrs as object};
  }

  lemma AllCompiled(index: CompiledRuleIndex, rules: seq<Rule>)
    requires Compiled(index, rules, |rules|)
    ensures Indexes(index, AllKeys(rules))
  {
    KeysTaken(rules, |rules|);
  }

  /** The loop of `compile`, from rule `n` on. */
  method FileFrom(index: CompiledRuleIndex, rules: seq<Rule>, n: nat, ghost made: set<object>)
    returns (index': CompiledRuleIndex)
    requires n <= |rules| && Compiled(index, rules, n) && Within(index, made)
    modifies made
    ensures Compiled(index', rules, |rules|)
    decreases |rules| - n
  {
    if n == |rules| {
      return index;
    }
    ghost var made';
    index', made' := FileNext(index, rules, n, made);
    index' := FileFrom(index', rules, n + 1, made');
  }

  method Compile(rules: seq<Rule>) returns (index: CompiledRuleIndex)
    ensures Indexes(index, AllKeys(rules)) && Apart(index)
  {
    ghost var made;
    index, made := BlankFor(rules);
    index := FileFrom(index, rules, 0, made);
    AllCompiled(index, rules);
  }
}
