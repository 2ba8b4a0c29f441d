/** Which hosts enter the fake-IP flow (src/rules/pool/runtime.rs, matches_dns_host). */
module DnsHosts {
  import opened Basics
  import opened Matching
  import opened Names
  import opened Rules
  import opened Decision
  import opened RuleIndex
  import Hosts = HostTrie

  /** A non-direct rule asks for fake addresses on the hosts its matcher names; IP rules never do. */
  predicate RuleWantsDns(rule: Rule, host: string) {
    && !rule.action.Direct?
    && match rule.matcher
       case ExactUrl(origin) => NormalizedHost(origin) == Some(host)
       case PrefixUrl(origin) => NormalizedHost(origin) == Some(host)
       case Host(pattern, _, _, _) => HostMatches(pattern, host)
       case Ip(_, _, _, _) => false
  }

  ghost predicate WantsDns(rules: seq<Rule>, host: string) {
    match NormalizeHost(host)
    case None => false
    case Some(normalized) => exists i :: 0 <= i < |rules| && RuleWantsDns(rules[i], normalized)
  }

  lemma {:induction false} AllDnsExactAre(all: seq<RuleKeys>, host: string)
    ensures host in AllDnsExact(all) <==> exists i :: 0 <= i < |all| && host in all[i].dnsExact
  {
    if all != [] {
      AllDnsExactAre(all[..|all| - 1], host);
    }
  }

  lemma {:induction false} AllDnsSuffixAre(all: seq<RuleKeys>, suffix: string)
    ensures suffix in AllDnsSuffix(all) <==> exists i :: 0 <= i < |all| && all[i].dnsSuffix == Some(suffix)
  {
    if all != [] {
      AllDnsSuffixAre(all[..|all| - 1], suffix);
    }
  }

  lemma KeysWantDns(rule: Rule, host: string)
    ensures RuleWantsDns(rule, host) <==>
            || host in KeysOf(rule).dnsExact
            || (KeysOf(rule).dnsSuffix.Some? && HostHasSuffix(host, KeysOf(rule).dnsSuffix.value))
  {
  }

  /** The DNS parts of the index hold exactly the hosts some rule wants. */
  lemma DnsPartsAre(rules: seq<Rule>, host: string)
    ensures (|| host in AllDnsExact(AllKeys(rules))
             || exists s :: s in AllDnsSuffix(AllKeys(rules)) && HostHasSuffix(host, s))
            <==> exists i :: 0 <= i < |rules| && RuleWantsDns(rules[i], host)
  {
    var all := AllKeys(rules);
    AllDnsExactAre(all, host);
    if i :| 0 <= i < |all| && host in all[i].dnsExact {
      KeysWantDns(rules[i], host);
    }
    if s :| s in AllDnsSuffix(all) && HostHasSuffix(host, s) {
      AllDnsSuffixAre(all, s);
      var i :| 0 <= i < |all| && all[i].dnsSuffix == Some(s);
      KeysWantDns(rules[i], host);
    }
    if i :| 0 <= i < |rules| && RuleWantsDns(rules[i], host) {
      KeysWantDns(rules[i], host);
      assert all[i] == KeysOf(rules[i]);
      if all[i].dnsSuffix.Some? {
        AllDnsSuffixAre(all, all[i].dnsSuffix.value);
      }
    }
  }

  method MatchesDnsHost(index: CompiledRuleIndex, ghost rules: seq<Rule>, host: string) returns (r: bool)
    requires SuffixesHold(index.suffixHosts, AllKeys(rules)) && index.dnsExactHosts == AllDnsExact(AllKeys(rules))
    ensures r <==> WantsDns(rules, host)
    ensures r <==> exists h :: HostOf(host, h) && exists i :: 0 <= i < |rules| && RuleWantsDns(rules[i], h)
  {
    WantsDnsIff(rules, host);
    var normalized := NormalizeHost(host);
    if normalized.None? {
      return false;
    }
    DnsPartsAre(rules, normalized.value);
    if normalized.value in index.dnsExactHosts {
      return true;
    }
    r := Hosts.Matches(index.suffixHosts, AllDnsSuffix(AllKeys(rules)), normalized.value);
  }

  /** What is wanted is decided by the host that a query names, whatever its case, dots and blanks. */
  lemma WantsDnsIff(rules: seq<Rule>, host: string)
    ensures WantsDns(rules, host) <==>
            exists h :: HostOf(host, h) && exists i :: 0 <= i < |rules| && RuleWantsDns(rules[i], h)
  {
    if NormalizeHost(host).Some? {
      NormalizeHostIff(host, NormalizeHost(host).value);
    }
    if h :| HostOf(host, h) && exists i :: 0 <= i < |rules| && RuleWantsDns(rules[i], h) {
      NormalizeHostIff(host, h);
    }
  }

  /** Two spellings of one host are both wanted or both not. */
  lemma SpellingDoesNotMatter(rules: seq<Rule>, a: string, b: string, h: string)
    requires HostOf(a, h) && HostOf(b, h)
    ensures WantsDns(rules, a) <==> WantsDns(rules, b)
  {
    NormalizeHostIff(a, h);
    NormalizeHostIff(b, h);
  }

  /** The hosts named by the URL of a non-direct exact or prefix rule are wanted. */
  lemma OriginHostIsWanted(rule: Rule, h: string)
    requires !rule.action.Direct? && (rule.matcher.ExactUrl? || rule.matcher.PrefixUrl?)
    ensures RuleWantsDns(rule, h) <==> rule.matcher.origin.host.Some? && HostOf(rule.matcher.origin.host.value, h)
  {
    if rule.matcher.origin.host.Some? {
      NormalizeHostIff(rule.matcher.origin.host.value, h);
    }
  }

  /** What a non-direct host rule wants; direct rules and IP rules want nothing. */
  lemma HostRuleWants(rule: Rule, h: string)
    ensures rule.action.Direct? || rule.matcher.Ip? ==> !RuleWantsDns(rule, h)
    ensures !rule.action.Direct? && rule.matcher.Host? ==>
              (RuleWantsDns(rule, h) <==>
               match rule.matcher.hostPattern
               case Exact(host) => h == host
               case AnyOf(hosts) => exists i :: 0 <= i < |hosts| && hosts[i] == h
               case Suffix(suffix) => h == suffix || exists sub :: h == sub + "." + suffix)
  {
    if rule.matcher.Host? && rule.matcher.hostPattern.Suffix? {
      UnderSuffix(h, rule.matcher.hostPattern.suffix);
    }
  }

  lemma UnderSuffix(h: string, suffix: string)
    ensures HostHasSuffix(h, suffix) <==> h == suffix || exists sub :: h == sub + "." + suffix
  {
    if HostHasSuffix(h, suffix) && h != suffix {
      var rest := h[..|h| - |suffix|];
      assert h == rest[..|rest| - 1] + "." + suffix;
    }
    if sub :| h == sub + "." + suffix {
      assert h[..|h| - |suffix|] == sub + "." && h[|h| - |suffix|..] == suffix;
    }
  }

  /**
   A request that a non-direct, non-IP rule matches, and so every request resolved by one, has a
   host in the fake-IP flow exactly when that host normalizes; a host such as "." matches an exact
   rule but never reaches the flow.
   */
  lemma MatchedHostEntersFakeIp(rules: seq<Rule>, request: Request, w: nat)
    requires w < |rules| && RuleMatches(rules[w], request)
    requires !rules[w].action.Direct? && !rules[w].matcher.Ip? && request.url.host.Some?
    ensures WantsDns(rules, request.url.host.value) <==> NormalizedHost(request.url).Some?
  {
    var rule := rules[w];
    if NormalizedHost(request.url).Some? {
      assert RuleWantsDns(rule, NormalizedHost(request.url).value);
    }
  }

  /** The one family of hosts that is routed by a rule and still stays out of the flow. */
  lemma DotHostStaysOut()
    ensures exists rules: seq<Rule>, request: Request ::
              Decides(Verdicts(rules, request), Some(0)) && request.url.host == Some(".")
              && rules[0].action.Plugin? && !WantsDns(rules, ".")
  {
    var url := Url("http", Some("."), Some(80), "/", None, None);
    var rules := [Rule(ExactUrl(url), Plugin("p"), 0, false)];
    var request := Request(url, None);
    assert Explain(rules[0].matcher, request) == Matched(None);
    var vs := Verdicts(rules, request);
    assert vs[0].matches;
    assert Wins(vs, 0);
    assert Decides(vs, Some(0));
    assert Trim(".") == ".";
    assert TrimEnd(".", '.') == TrimEnd("", '.') == "";
  }
}
