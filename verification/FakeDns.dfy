/** Answering DNS queries with fake addresses (src/traffic/shared/dns/mod.rs, build_fake_answers). */
module FakeDns {
  import opened Basics
  import opened Names
  import opened FakeIp
  import opened Rules
  import opened RuleIndex
  import opened DnsHosts

  datatype RecordType = A | AAAA | OtherRecord
  datatype Query = Query(name: string, kind: RecordType)
  datatype Answer = Answer(name: string, kind: RecordType, ip: nat)

  /** Queries that rules want answered with a fake address. */
  ghost predicate Wanted(rules: seq<Rule>, q: Query) {
    !q.kind.OtherRecord? && WantsDns(rules, q.name)
  }

  /** A query is wanted if it asks for an address of a host, however spelled, that some rule wants. */
  lemma WantedIff(rules: seq<Rule>, q: Query)
    ensures Wanted(rules, q) <==>
            && (q.kind == A || q.kind == AAAA)
            && exists h :: HostOf(q.name, h) && exists i :: 0 <= i < |rules| && RuleWantsDns(rules[i], h)
  {
    WantsDnsIff(rules, q.name);
  }

  /** The index is compiled from the rules, as far as DNS goes. */
  ghost predicate IndexesDns(index: CompiledRuleIndex, rules: seq<Rule>)
    reads index.suffixHosts
  {
    SuffixesHold(index.suffixHosts, AllKeys(rules)) && index.dnsExactHosts == AllDnsExact(AllKeys(rules))
  }

  /** The rules can be replaced while a request is answered: each query meets the rules live then. */
  ghost predicate AllIndexDns(indexes: seq<CompiledRuleIndex>, live: seq<seq<Rule>>)
    requires |indexes| == |live|
    reads set i | 0 <= i < |indexes| :: indexes[i].suffixHosts
  {
    forall i :: 0 <= i < |indexes| ==> IndexesDns(indexes[i], live[i])
  }

  /** The answers are for exactly the wanted queries, in order. */
  ghost predicate Answers(live: seq<seq<Rule>>, queries: seq<Query>, answers: seq<Answer>)
    requires |live| == |queries|
  {
    if queries == [] then answers == []
    else
      var n := |queries| - 1;
      if Wanted(live[n], queries[n]) then
        && answers != []
        && answers[|answers| - 1].name == queries[n].name && answers[|answers| - 1].kind == queries[n].kind
        && Answers(live[..n], queries[..n], answers[..|answers| - 1])
      else Answers(live[..n], queries[..n], answers)
  }

  /** Some query is wanted by the rules live when it is looked at. */
  ghost predicate AnyWanted(live: seq<seq<Rule>>, queries: seq<Query>)
    requires |live| == |queries|
  {
    exists i :: 0 <= i < |queries| && Wanted(live[i], queries[i])
  }

  predicate NamesOk(answers: seq<Answer>, nameOk: string -> bool) {
    forall i :: 0 <= i < |answers| ==> nameOk(answers[i].name)
  }

  /** All queries are looked at before an answer to the first can expire. */
  predicate Prompt(nows: seq<nat>, ttl: nat) {
    forall i :: 0 <= i < |nows| ==> nows[0] <= nows[i] < nows[0] + ttl
  }

  /** `domain` holds `ip` at least until `until`. */
  ghost predicate Holds(pool: Pool, domain: string, ip: nat, until: nat) {
    && domain in pool.entries && pool.entries[domain].ip == ip && pool.entries[domain].expiresAt >= until
    && ip in pool.domains && pool.domains[ip] == domain
  }

  /** Every answer given so far can be looked up until `until`. */
  ghost predicate AllHold(v4: Pool, v6: Pool, answers: seq<Answer>, until: nat) {
    forall i :: 0 <= i < |answers| ==>
      Holds(if answers[i].kind.A? then v4 else v6, NormalizeDomain(answers[i].name), answers[i].ip, until)
  }

  /** The address leads back to the name that was asked for. */
  ghost predicate LeadsBack(pool: Pool, name: string, ip: nat, until: nat) {
    exists d :: NameOf(name, d) && forall later: nat :: later < until ==> Lookup(pool, ip, later) == Some(d)
  }

  /**
   The answers by the names that were asked for: each address leads back to its name until
   `until`, and two answers of one family share an address exactly if their names are the same.
   */
  ghost predicate AllNamed(v4: Pool, v6: Pool, answers: seq<Answer>, until: nat) {
    && (forall i :: 0 <= i < |answers| ==>
          LeadsBack(if answers[i].kind.A? then v4 else v6, answers[i].name, answers[i].ip, until))
    && (forall i, j :: 0 <= i < |answers| && 0 <= j < |answers| && answers[i].kind == answers[j].kind ==>
          (answers[i].ip == answers[j].ip <==> SameName(answers[i].name, answers[j].name)))
  }

  lemma HoldingIsNamed(v4: Pool, v6: Pool, answers: seq<Answer>, until: nat)
    requires AllHold(v4, v6, answers, until)
    ensures AllNamed(v4, v6, answers, until)
  {
    forall i | 0 <= i < |answers|
      ensures LeadsBack(if answers[i].kind.A? then v4 else v6, answers[i].name, answers[i].ip, until)
    {
      HoldingLeadsBack(if answers[i].kind.A? then v4 else v6, answers[i].name, answers[i].ip, until);
    }
    forall i, j | 0 <= i < |answers| && 0 <= j < |answers| && answers[i].kind == answers[j].kind
      ensures answers[i].ip == answers[j].ip <==> SameName(answers[i].name, answers[j].name)
    {
      SameNameIff(answers[i].name, answers[j].name);
    }
  }

  lemma HoldingLeadsBack(pool: Pool, name: string, ip: nat, until: nat)
    requires Holds(pool, NormalizeDomain(name), ip, until)
    ensures LeadsBack(pool, name, ip, until)
  {
    var d := NormalizeDomain(name);
    NameIs(name, d);
    assert forall later: nat :: later < until ==> Lookup(pool, ip, later) == Some(d);
  }

  lemma SameNameIff(a: string, b: string)
    ensures SameName(a, b) <==> NormalizeDomain(a) == NormalizeDomain(b)
  {
    NameIs(a, NormalizeDomain(a));
    NameIs(b, NormalizeDomain(a));
    if d :| NameOf(a, d) && NameOf(b, d) {
      NameIs(a, d);
      NameIs(b, d);
    }
  }

  lemma HoldsThroughPrune(pool: Pool, now: nat, domain: string, ip: nat, until: nat)
    requires Holds(pool, domain, ip, until) && now < until
    ensures Holds(Pruned(pool, now), domain, ip, until)
  {
  }

  lemma HoldsThroughAllocate(pool: Pool, b: Bounds, other: string, ttl: nat, now: nat, domain: string, ip: nat,
                             until: nat)
    requires PoolOk(pool, b) && Holds(pool, domain, ip, until) && now < until <= now + ttl
    ensures Holds(AfterAllocate(pool, b, other, ttl, now).0, domain, ip, until)
  {
    HoldsThroughPrune(pool, now, domain, ip, until);
  }

  lemma AllocatedHolds(pool: Pool, b: Bounds, domain: string, ttl: nat, now: nat)
    requires PoolOk(pool, b) && AfterAllocate(pool, b, domain, ttl, now).1.Some?
    ensures var (after, ip) := AfterAllocate(pool, b, domain, ttl, now);
            Holds(after, domain, ip.value, now + ttl)
  {
    AllocateKeepsOk(pool, b, domain, ttl, now);
  }

  /** The family of `q` has no address for its name: no entry to refresh and nothing free. */
  ghost predicate Exhausted(store: FakeIpStore, q: Query)
    reads store
  {
    var pool, b := if q.kind.A? then store.v4 else store.v6, if q.kind.A? then store.bounds4 else store.bounds6;
    NormalizeDomain(q.name) !in pool.entries && NextAddress(pool, b).None?
  }

  method AnswerV4(store: FakeIpStore, name: string, ttl: nat, now: nat, ghost answers: seq<Answer>, ghost until: nat)
    returns (ip: Option<nat>)
    requires store.Valid()
    modifies store
    ensures store.Valid() && (ip.None? ==> Exhausted(store, Query(name, A)))
    ensures ip.Some? && now < until <= now + ttl && old(AllHold(store.v4, store.v6, answers, until)) ==>
              AllHold(store.v4, store.v6, answers + [Answer(name, A, ip.value)], until)
  {
    ghost var v4, v6, domain := store.v4, store.v6, NormalizeDomain(name);
    ip := store.AllocateOrRefreshIpv4(name, ttl, now);
    if ip.Some? && now < until <= now + ttl && AllHold(v4, v6, answers, until) {
      AnswersStayV4(v4, v6, store.bounds4, domain, ttl, now, answers, until);
      AllocatedHolds(v4, store.bounds4, domain, ttl, now);
      OneMoreHolds(store.v4, store.v6, answers, Answer(name, A, ip.value), until);
    }
  }

  method AnswerV6(store: FakeIpStore, name: string, ttl: nat, now: nat, ghost answers: seq<Answer>, ghost until: nat)
    returns (ip: Option<nat>)
    requires store.Valid()
    modifies store
    ensures store.Valid() && (ip.None? ==> Exhausted(store, Query(name, AAAA)))
    ensures ip.Some? && now < until <= now + ttl && old(AllHold(store.v4, store.v6, answers, until)) ==>
              AllHold(store.v4, store.v6, answers + [Answer(name, AAAA, ip.value)], until)
  {
    ghost var v4, v6, domain := store.v4, store.v6, NormalizeDomain(name);
    ip := store.AllocateOrRefreshIpv6(name, ttl, now);
    if ip.Some? && now < until <= now + ttl && AllHold(v4, v6, answers, until) {
      AnswersStayV6(v4, v6, store.bounds6, domain, ttl, now, answers, until);
      AllocatedHolds(v6, store.bounds6, domain, ttl, now);
      OneMoreHolds(store.v4, store.v6, answers, Answer(name, AAAA, ip.value), until);
    }
  }

  lemma OneMoreHolds(v4: Pool, v6: Pool, answers: seq<Answer>, answer: Answer, until: nat)
    requires AllHold(v4, v6, answers, until)
    requires Holds(if answer.kind.A? then v4 else v6, NormalizeDomain(answer.name), answer.ip, until)
    ensures AllHold(v4, v6, answers + [answer], until)
  {
  }

  /** One wanted query: allocate in its family and answer; `None` when the pool is exhausted. */
  method AnswerQuery(store: FakeIpStore, q: Query, ttl: nat, now: nat, ghost answers: seq<Answer>, ghost until: nat)
    returns (ip: Option<nat>)
    requires store.Valid() && !q.kind.OtherRecord?
    modifies store
    ensures store.Valid() && (ip.None? ==> Exhausted(store, q))
    ensures ip.Some? && now < until <= now + ttl && old(AllHold(store.v4, store.v6, answers, until)) ==>
              AllHold(store.v4, store.v6, answers + [Answer(q.name, q.kind, ip.value)], until)
  {
    if q.kind.A? {
      ip := AnswerV4(store, q.name, ttl, now, answers, until);
    } else {
      ip := AnswerV6(store, q.name, ttl, now, answers, until);
    }
  }

  /** An IPv4 allocation leaves earlier answers of both families in place. */
  lemma AnswersStayV4(v4: Pool, v6: Pool, b: Bounds, domain: string, ttl: nat, now: nat, answers: seq<Answer>,
                      until: nat)
    requires PoolOk(v4, b) && AllHold(v4, v6, answers, until) && now < until <= now + ttl
    ensures AllHold(AfterAllocate(v4, b, domain, ttl, now).0, Pruned(v6, now), answers, until)
  {
    forall i | 0 <= i < |answers|
      ensures Holds(if answers[i].kind.A? then AfterAllocate(v4, b, domain, ttl, now).0 else Pruned(v6, now),
                    NormalizeDomain(answers[i].name), answers[i].ip, until)
    {
      var d, a := NormalizeDomain(answers[i].name), answers[i].ip;
      if answers[i].kind.A? {
        HoldsThroughAllocate(v4, b, domain, ttl, now, d, a, until);
      } else {
        HoldsThroughPrune(v6, now, d, a, until);
      }
    }
  }

  /** And so does an IPv6 allocation. */
  lemma AnswersStayV6(v4: Pool, v6: Pool, b: Bounds, domain: string, ttl: nat, now: nat, answers: seq<Answer>,
                      until: nat)
    requires PoolOk(v6, b) && AllHold(v4, v6, answers, until) && now < until <= now + ttl
    ensures AllHold(Pruned(v4, now), AfterAllocate(v6, b, domain, ttl, now).0, answers, until)
  {
    forall i | 0 <= i < |answers|
      ensures Holds(if answers[i].kind.A? then Pruned(v4, now) else AfterAllocate(v6, b, domain, ttl, now).0,
                    NormalizeDomain(answers[i].name), answers[i].ip, until)
    {
      var d, a := NormalizeDomain(answers[i].name), answers[i].ip;
      if answers[i].kind.A? {
        HoldsThroughPrune(v4, now, d, a, until);
      } else {
        HoldsThroughAllocate(v6, b, domain, ttl, now, d, a, until);
      }
    }
  }

  lemma AnswersMore(live: seq<seq<Rule>>, queries: seq<Query>, i: nat, answers: seq<Answer>, ip: nat)
    requires i < |queries| == |live| && Answers(live[..i], queries[..i], answers)
    ensures var q := queries[i];
            Answers(live[..i + 1], queries[..i + 1],
                    if Wanted(live[i], q) then answers + [Answer(q.name, q.kind, ip)] else answers)
  {
    var q := queries[i];
    assert queries[..i + 1][..i] == queries[..i] && live[..i + 1][..i] == live[..i];
    var more := answers + [Answer(q.name, q.kind, ip)];
    assert more[..|more| - 1] == answers;
  }

  lemma {:induction false} AnswersNonEmpty(live: seq<seq<Rule>>, queries: seq<Query>, answers: seq<Answer>)
    requires |live| == |queries| && Answers(live, queries, answers)
    ensures answers != [] <==> AnyWanted(live, queries)
  {
    if queries != [] {
      var n := |queries| - 1;
      if !Wanted(live[n], queries[n]) {
        AnswersNonEmpty(live[..n], queries[..n], answers);
        assert forall i :: 0 <= i < n ==> live[..n][i] == live[i] && queries[..n][i] == queries[i];
      }
    }
  }

  method IsWanted(index: CompiledRuleIndex, ghost rules: seq<Rule>, q: Query) returns (wanted: bool)
    requires IndexesDns(index, rules)
    ensures wanted <==> Wanted(rules, q)
  {
    wanted := false;
    if !q.kind.OtherRecord? {
      wanted := MatchesDnsHost(index, rules, q.name);
    }
  }

  /** One turn of the loop: `matched` tells whether the query was wanted. */
  method AnswerNext(store: FakeIpStore, index: CompiledRuleIndex, ghost live: seq<seq<Rule>>, queries: seq<Query>,
                    i: nat, ttl: nat, now: nat, nameOk: string -> bool, answers: seq<Answer>, ghost until: nat)
    returns (matched: bool, r: Result<seq<Answer>>)
    requires store.Valid() && i < |queries| == |live| && IndexesDns(index, live[i])
    requires Answers(live[..i], queries[..i], answers) && NamesOk(answers, nameOk)
    modifies store
    ensures store.Valid() && (matched <==> Wanted(live[i], queries[i]))
    ensures matched && r.Err? ==> !nameOk(queries[i].name) || Exhausted(store, queries[i])
    ensures matched && r.Ok? ==> r.value != []
    ensures !matched ==> r == Ok(answers)
    ensures r.Ok? ==> Answers(live[..i + 1], queries[..i + 1], r.value) && NamesOk(r.value, nameOk)
    ensures r.Ok? && now < until <= now + ttl && old(AllHold(store.v4, store.v6, answers, until)) ==>
              AllHold(store.v4, store.v6, r.value, until)
  {
    var q := queries[i];
    matched := IsWanted(index, live[i], q);
    if matched {
      var ip := AnswerQuery(store, q, ttl, now, answers, until);
      if ip.None? || !nameOk(q.name) {
        return matched, Err;
      }
      AnswersMore(live, queries, i, answers, ip.value);
      r := Ok(answers + [Answer(q.name, q.kind, ip.value)]);
    } else {
      AnswersMore(live, queries, i, answers, 0);
      r := Ok(answers);
    }
  }

  /**
   `build_fake_answers`.  `nows[i]` is the clock and `indexes[i]` the compiled `live[i]` at the
   i-th query; `nameOk` says whether a record can be built for a name, `failed` which query made
   the whole call fail.
   */
  method BuildFakeAnswers(store: FakeIpStore, indexes: seq<CompiledRuleIndex>, ghost live: seq<seq<Rule>>,
                          queries: seq<Query>, ttl: nat, nows: seq<nat>, nameOk: string -> bool)
    returns (r: Result<Option<seq<Answer>>>, ghost failed: nat)
    requires store.Valid() && |nows| == |queries| == |live| == |indexes| && AllIndexDns(indexes, live)
    modifies store
    ensures store.Valid()
    ensures r.Err? ==> failed < |queries| && Wanted(live[failed], queries[failed])
                       && (!nameOk(queries[failed].name) || Exhausted(store, queries[failed]))
    ensures r.Ok? ==> (r.value.Some? <==> AnyWanted(live, queries))
    ensures r.Ok? && r.value.Some? ==> Answers(live, queries, r.value.value) && NamesOk(r.value.value, nameOk)
    ensures r.Ok? && r.value.Some? && Prompt(nows, ttl) ==>
              && AllHold(store.v4, store.v6, r.value.value, nows[0] + ttl)
              && AllNamed(store.v4, store.v6, r.value.value, nows[0] + ttl)
  {
    var answers, matched := [], false;
    ghost var until := if nows == [] then 0 else nows[0] + ttl;
    for i := 0 to |queries|
      invariant store.Valid() && Answers(live[..i], queries[..i], answers) && NamesOk(answers, nameOk)
      invariant matched ==> answers != []
      invariant !matched ==> answers == []
      invariant Prompt(nows, ttl) ==> AllHold(store.v4, store.v6, answers, until)
    {
      var wanted, more := AnswerNext(store, indexes[i], live, queries, i, ttl, nows[i], nameOk, answers, until);
      if more.Err? {
        return Err, i;
      }
      answers, matched := more.value, matched || wanted;
    }
    assert queries[..|queries|] == queries && live[..|live|] == live;
    AnswersNonEmpty(live, queries, answers);
    if Prompt(nows, ttl) {
      HoldingIsNamed(store.v4, store.v6, answers, until);
    }
    return Ok(if matched then Some(answers) else None), 0;
  }
}
