/** Ordering candidates and deciding among them (src/rules/pool/runtime.rs). */
module Resolution {
  import opened Basics
  import opened Rules
  import opened Decision

  datatype MatchedRule = MatchedRule(action: ResolvedAction, index: nat)

  predicate InRange(vs: seq<Verdict>, cs: seq<nat>) {
    forall k :: 0 <= k < |cs| ==> cs[k] < |vs|
  }

  // ----- candidate order

  /** `compare_candidate_order`: higher priority first, then config order. */
  predicate Before(vs: seq<Verdict>, i: nat, j: nat)
    requires i < |vs| && j < |vs|
  {
    vs[i].priority > vs[j].priority || (vs[i].priority == vs[j].priority && i < j)
  }

  predicate Ordered(vs: seq<Verdict>, cs: seq<nat>)
    requires InRange(vs, cs)
  {
    forall a, b :: 0 <= a < b < |cs| ==> cs[a] == cs[b] || Before(vs, cs[a], cs[b])
  }

  predicate StrictlyOrdered(vs: seq<Verdict>, cs: seq<nat>)
    requires InRange(vs, cs)
  {
    forall a, b :: 0 <= a < b < |cs| ==> Before(vs, cs[a], cs[b])
  }

  /** Every rule that matches is a candidate. */
  ghost predicate CoversMatches(vs: seq<Verdict>, cs: seq<nat>) {
    forall i :: 0 <= i < |vs| && vs[i].matches ==> i in cs
  }

  function InsertOrdered(vs: seq<Verdict>, cs: seq<nat>, i: nat): (r: seq<nat>)
    requires InRange(vs, cs) && i < |vs|
    ensures multiset(r) == multiset(cs) + multiset{i}
    ensures forall x :: x in r <==> x in cs || x == i
    ensures InRange(vs, r)
  {
    if cs == [] then [i]
    else
      assert cs == [cs[0]] + cs[1..];
      if cs[0] == i || Before(vs, i, cs[0]) then [i] + cs
      else [cs[0]] + InsertOrdered(vs, cs[1..], i)
  }

  function SortCandidates(vs: seq<Verdict>, cs: seq<nat>): (r: seq<nat>)
    requires InRange(vs, cs)
    ensures multiset(r) == multiset(cs)
    ensures forall x :: x in r <==> x in cs
    ensures InRange(vs, r)
  {
    if cs == [] then []
    else
      assert cs == [cs[0]] + cs[1..];
      InsertOrdered(vs, SortCandidates(vs, cs[1..]), cs[0])
  }

  function Dedup(cs: seq<nat>): (r: seq<nat>)
    ensures forall x :: x in r <==> x in cs
  {
    if |cs| < 2 then cs
    else
      assert cs == [cs[0]] + cs[1..];
      if cs[0] == cs[1] then Dedup(cs[1..]) else [cs[0]] + Dedup(cs[1..])
  }

  lemma {:induction false} InsertOrderedKeepsOrder(vs: seq<Verdict>, cs: seq<nat>, i: nat)
    requires InRange(vs, cs) && i < |vs| && Ordered(vs, cs)
    ensures Ordered(vs, InsertOrdered(vs, cs, i))
  {
    if cs != [] {
      assert cs == [cs[0]] + cs[1..];
      if !(cs[0] == i || Before(vs, i, cs[0])) {
        InsertOrderedKeepsOrder(vs, cs[1..], i);
        var rest := InsertOrdered(vs, cs[1..], i);
        forall b | 0 <= b < |rest|
          ensures cs[0] == rest[b] || Before(vs, cs[0], rest[b])
        {
          assert rest[b] in rest;
        }
      }
    }
  }

  lemma {:induction false} SortOrders(vs: seq<Verdict>, cs: seq<nat>)
    requires InRange(vs, cs)
    ensures Ordered(vs, SortCandidates(vs, cs))
  {
    if cs != [] {
      SortOrders(vs, cs[1..]);
      InsertOrderedKeepsOrder(vs, SortCandidates(vs, cs[1..]), cs[0]);
    }
  }

  lemma {:induction false} DedupIsStrict(vs: seq<Verdict>, cs: seq<nat>)
    requires InRange(vs, cs) && Ordered(vs, cs)
    ensures InRange(vs, Dedup(cs)) && StrictlyOrdered(vs, Dedup(cs))
    ensures cs != [] ==> Dedup(cs) != [] && Dedup(cs)[0] == cs[0]
  {
    if |cs| >= 2 {
      DedupIsStrict(vs, cs[1..]);
      var rest := Dedup(cs[1..]);
      if cs[0] != cs[1] {
        forall b | 0 <= b < |rest|
          ensures Before(vs, cs[0], rest[b])
        {
          assert Before(vs, cs[0], cs[1]);
        }
      }
    }
  }

  method SortAndDedup(vs: seq<Verdict>, collected: seq<nat>) returns (cs: seq<nat>)
    requires InRange(vs, collected)
    ensures InRange(vs, cs) && StrictlyOrdered(vs, cs)
    ensures forall i :: i in cs <==> i in collected
  {
    SortOrders(vs, collected);
    var sorted := SortCandidates(vs, collected);
    DedupIsStrict(vs, sorted);
    cs := Dedup(sorted);
  }

  // ----- resolve_candidates

  /** Above priority `bound` all level winners are spread, and `carried` is the lowest of them. */
  ghost predicate Settled(vs: seq<Verdict>, bound: int, carried: Option<nat>) {
    && (carried.Some? ==> Wins(vs, carried.value) && vs[carried.value].spread && vs[carried.value].priority > bound)
    && (forall i: nat :: Wins(vs, i) && vs[i].priority > bound ==>
          vs[i].spread && carried.Some? && vs[carried.value].priority <= vs[i].priority)
  }

  /** `current` is the winner of level `active` among the first `k` candidates. */
  ghost predicate Open(vs: seq<Verdict>, cs: seq<nat>, k: nat, active: int, current: Option<nat>)
    requires InRange(vs, cs) && k <= |cs|
  {
    match current
    case Some(w) => Wins(vs, w) && vs[w].priority == active
    case None => forall m :: 0 <= m < k && vs[cs[m]].priority == active ==> !vs[cs[m]].matches
  }

  ghost predicate Progress(vs: seq<Verdict>, cs: seq<nat>, k: nat,
                           carried: Option<nat>, active: Option<int>, current: Option<nat>)
    requires InRange(vs, cs) && k <= |cs|
  {
    if k == 0 then carried.None? && active.None? && current.None?
    else active == Some(vs[cs[k - 1]].priority)
         && Settled(vs, active.value, carried) && Open(vs, cs, k, active.value, current)
  }

  /** A non-spread winner of the level in progress decides. */
  lemma StopDecides(vs: seq<Verdict>, cs: seq<nat>, k: nat, carried: Option<nat>, active: Option<int>, current: nat)
    requires InRange(vs, cs) && k <= |cs| && Progress(vs, cs, k, carried, active, Some(current))
    requires !vs[current].spread
    ensures Decides(vs, Some(current))
  {
  }

  /** Leaving level `active` for a lower one: its winner, if any, becomes the carried one. */
  lemma LevelEnds(vs: seq<Verdict>, cs: seq<nat>, k: nat, bound: int, carried: Option<nat>, active: int,
                  current: Option<nat>)
    requires InRange(vs, cs) && StrictlyOrdered(vs, cs) && CoversMatches(vs, cs) && 0 < k <= |cs|
    requires Progress(vs, cs, k, carried, Some(active), current)
    requires current.Some? ==> vs[current.value].spread
    requires bound < active && (forall m :: k <= m < |cs| ==> vs[cs[m]].priority <= bound)
    ensures Settled(vs, bound, if current.Some? then current else carried)
  {
    forall i: nat | Wins(vs, i) && bound < vs[i].priority <= active
      ensures current == Some(i)
    {
      var m :| 0 <= m < |cs| && cs[m] == i;
      assert m < k;
      assert vs[i].priority == active;
    }
  }

  lemma NextCandidate(vs: seq<Verdict>, cs: seq<nat>, k: nat, current: Option<nat>)
    requires InRange(vs, cs) && StrictlyOrdered(vs, cs) && CoversMatches(vs, cs) && k < |cs|
    requires Open(vs, cs, k, vs[cs[k]].priority, current)
    ensures Open(vs, cs, k + 1, vs[cs[k]].priority,
                 if current.None? && vs[cs[k]].matches then Some(cs[k]) else current)
  {
    if current.None? && vs[cs[k]].matches {
      forall j | 0 <= j < |vs| && vs[j].priority == vs[cs[k]].priority && vs[j].matches
        ensures cs[k] <= j
      {
        var m :| 0 <= m < |cs| && cs[m] == j;
        assert k < m ==> Before(vs, cs[k], cs[m]);
      }
    }
  }

  /** `vs` ranks the rules as configured and says of every candidate whether it matches. */
  ghost predicate Judges(vs: seq<Verdict>, rules: seq<Rule>, request: Request, cs: seq<nat>) {
    && |vs| == |rules| && InRange(vs, cs)
    && (forall i :: 0 <= i < |vs| ==> vs[i].priority == rules[i].priority && vs[i].spread == rules[i].spread)
    && (forall k :: 0 <= k < |cs| ==> vs[cs[k]].matches == RuleMatches(rules[cs[k]], request))
  }

  method ResolveCandidates(ghost vs: seq<Verdict>, rules: seq<Rule>, request: Request, cs: seq<nat>)
    returns (r: Option<MatchedRule>)
    requires Judges(vs, rules, request, cs) && StrictlyOrdered(vs, cs) && CoversMatches(vs, cs)
    ensures Decides(vs, IndexOf(r)) && Resolved(rules, request, r)
  {
    var propagated: Option<MatchedRule> := None;
    var active: Option<int> := None;
    var current: Option<MatchedRule> := None;
    for k := 0 to |cs|
      invariant Progress(vs, cs, k, IndexOf(propagated), active, IndexOf(current))
      invariant Resolved(rules, request, propagated) && Resolved(rules, request, current)
    {
      var rule := rules[cs[k]];
      if active != Some(rule.priority) {
        if current.Some? && !rules[current.value.index].spread {
          StopDecides(vs, cs, k, IndexOf(propagated), active, current.value.index);
          return current;
        }
        if k > 0 {
          LevelEnds(vs, cs, k, rule.priority, IndexOf(propagated), active.value, IndexOf(current));
        } else {
          NothingAboveFirst(vs, cs);
        }
        if current.Some? {
          propagated, current := current, None;
        }
        active := Some(rule.priority);
        assert Open(vs, cs, k, rule.priority, None);
      }
      NextCandidate(vs, cs, k, IndexOf(current));
      if current.None? {
        var action := ResolveRule(rule, request);
        if action.Some? {
          current := Some(MatchedRule(action.value, cs[k]));
        }
      }
    }
    if current.Some? && !rules[current.value.index].spread {
      StopDecides(vs, cs, |cs|, IndexOf(propagated), active, current.value.index);
      return current;
    }
    if cs != [] {
      LevelEnds(vs, cs, |cs|, active.value - 1, IndexOf(propagated), active.value, IndexOf(current));
    }
    if current.Some? {
      propagated := current;
    }
    EndDecides(vs, cs, IndexOf(propagated));
    return propagated;
  }

  predicate Resolved(rules: seq<Rule>, request: Request, m: Option<MatchedRule>) {
    m.Some? ==> m.value.index < |rules| && ResolveRule(rules[m.value.index], request) == Some(m.value.action)
  }

  lemma NothingAboveFirst(vs: seq<Verdict>, cs: seq<nat>)
    requires InRange(vs, cs) && StrictlyOrdered(vs, cs) && CoversMatches(vs, cs) && cs != []
    ensures Settled(vs, vs[cs[0]].priority, None)
  {
    forall i: nat | Wins(vs, i)
      ensures vs[i].priority <= vs[cs[0]].priority
    {
      var m :| 0 <= m < |cs| && cs[m] == i;
    }
  }

  lemma EndDecides(vs: seq<Verdict>, cs: seq<nat>, carried: Option<nat>)
    requires InRange(vs, cs) && StrictlyOrdered(vs, cs) && CoversMatches(vs, cs)
    requires if cs == [] then carried.None? else Settled(vs, vs[cs[|cs| - 1]].priority - 1, carried)
    ensures Decides(vs, carried)
  {
    forall i: nat | Wins(vs, i)
      ensures cs != [] && vs[i].priority > vs[cs[|cs| - 1]].priority - 1
    {
      var m :| 0 <= m < |cs| && cs[m] == i;
    }
    if carried.None? {
      forall i | 0 <= i < |vs|
        ensures !vs[i].matches
      {
        if vs[i].matches {
          var w := LevelHasWinner(vs, i);
        }
      }
    }
  }

  function IndexOf(m: Option<MatchedRule>): Option<nat> {
    match m case None => None case Some(v) => Some(v.index)
  }
}
