/**
 The fake-IP allocator (src/traffic/shared/dns/fake_ip.rs).

 The source repeats every operation for IPv4 and IPv6.  One family is a `Pool` between two
 bounds; the store is two of them.  Addresses are numbers, instants are natural numbers.
 */
module FakeIp {
  import opened Basics
  import opened Matching
  import opened Names

  datatype Entry = Entry(ip: nat, expiresAt: nat)

  /** `domain_to_entry`, `ip_to_domain` and `next_candidate` of one family. */
  datatype Pool = Pool(entries: map<string, Entry>, domains: map<nat, string>, cursor: nat)

  /** The allocatable addresses; `last` is absent when the range has no usable address. */
  datatype Bounds = Bounds(first: nat, last: Option<nat>)

  predicate HasAddresses(b: Bounds) {
    b.last.Some? && b.first <= b.last.value
  }

  function Size(b: Bounds): nat
    requires HasAddresses(b)
  {
    b.last.value - b.first + 1
  }

  predicate Within(b: Bounds, ip: nat)
    requires HasAddresses(b)
  {
    b.first <= ip <= b.last.value
  }

  function NormalizeDomain(domain: string): string {
    ToAsciiLowercase(TrimEnd(domain, '.'))
  }

  // ----- what must always hold

  /** Domain-to-address and address-to-domain are inverse bijections. */
  ghost predicate Inverse(pool: Pool) {
    && (forall d :: d in pool.entries ==> pool.entries[d].ip in pool.domains && pool.domains[pool.entries[d].ip] == d)
    && (forall ip :: ip in pool.domains ==> pool.domains[ip] in pool.entries && pool.entries[pool.domains[ip]].ip == ip)
  }

  ghost predicate PoolOk(pool: Pool, b: Bounds) {
    && Inverse(pool)
    && (HasAddresses(b) ==> Within(b, pool.cursor) && forall ip :: ip in pool.domains ==> Within(b, ip))
    && (!HasAddresses(b) ==> pool.domains == map[])
  }

  // ----- the cyclic scan

  function Clamp(candidate: nat, b: Bounds): nat
    requires HasAddresses(b)
  {
    if candidate < b.first || candidate > b.last.value then b.first else candidate
  }

  function Advance(candidate: nat, b: Bounds): nat
    requires HasAddresses(b)
  {
    if candidate >= b.last.value then b.first else candidate + 1
  }

  /** The address `k` steps after `start`, going round at the end of the range. */
  function AddressAt(start: nat, k: nat, b: Bounds): (ip: nat)
    requires HasAddresses(b) && Within(b, start) && k <= Size(b)
    ensures Within(b, ip)
  {
    if start + k <= b.last.value then start + k else b.first + (start + k - b.last.value - 1)
  }

  /** How many steps a scan from step `k` on takes to the first free address, if there is one. */
  function FirstFree(domains: map<nat, string>, start: nat, k: nat, b: Bounds): (steps: Option<nat>)
    requires HasAddresses(b) && Within(b, start) && k <= Size(b)
    ensures steps.Some? ==> k <= steps.value < Size(b) && AddressAt(start, steps.value, b) !in domains
    ensures steps.Some? ==> forall j :: k <= j < steps.value ==> AddressAt(start, j, b) in domains
    ensures steps.None? ==> forall j :: k <= j < Size(b) ==> AddressAt(start, j, b) in domains
    decreases Size(b) - k
  {
    if k == Size(b) then None
    else if AddressAt(start, k, b) !in domains then Some(k)
    else FirstFree(domains, start, k + 1, b)
  }

  /** `allocate_next_ipv4` and `allocate_next_ipv6`. */
  method AllocateNext(domains: map<nat, string>, cursor: nat, b: Bounds) returns (ip: Option<nat>, cursor': nat)
    ensures !HasAddresses(b) ==> ip == None && cursor' == cursor
    ensures HasAddresses(b) ==>
              match FirstFree(domains, Clamp(cursor, b), 0, b)
              case None => ip == None && cursor' == cursor
              case Some(k) => ip == Some(AddressAt(Clamp(cursor, b), k, b)) && cursor' == Advance(ip.value, b)
  {
    cursor' := cursor;
    if b.last.None? || b.first > b.last.value {
      return None, cursor;
    }
    var start := Clamp(cursor, b);
    var candidate := start;
    ghost var k := 0;
    while true
      invariant 0 <= k < Size(b) && candidate == AddressAt(start, k, b)
      invariant FirstFree(domains, start, k, b) == FirstFree(domains, start, 0, b)
      decreases Size(b) - k
    {
      if candidate !in domains {
        return Some(candidate), Advance(candidate, b);
      }
      candidate := Advance(candidate, b);
      k := k + 1;
      if candidate == start {
        return None, cursor;
      }
    }
  }

  // ----- pruning

  function Pruned(pool: Pool, now: nat): Pool {
    pool.(entries := map d | d in pool.entries && pool.entries[d].expiresAt > now :: pool.entries[d],
          domains := map ip | ip in pool.domains && pool.domains[ip] in pool.entries
                              && pool.entries[pool.domains[ip]].expiresAt > now :: pool.domains[ip])
  }

  ghost function Without(pool: Pool, gone: set<string>): Pool {
    pool.(entries := pool.entries - gone,
          domains := map ip | ip in pool.domains && pool.domains[ip] !in gone :: pool.domains[ip])
  }

  lemma RemoveOne(pool: Pool, gone: set<string>, d: string)
    requires Inverse(pool) && d in pool.entries && d !in gone
    ensures var before := Without(pool, gone);
            && d in before.entries && before.entries[d] == pool.entries[d]
            && Without(pool, gone + {d}) ==
               before.(entries := before.entries - {d}, domains := before.domains - {pool.entries[d].ip})
  {
  }

  lemma PrunedIsWithout(pool: Pool, now: nat)
    requires Inverse(pool)
    ensures Pruned(pool, now) == Without(pool, set d | d in pool.entries && pool.entries[d].expiresAt <= now)
  {
  }

  /** `prune_expired_entries` for one family; the order of removals is the hash map's. */
  method PruneExpired(pool: Pool, now: nat) returns (pool': Pool)
    requires Inverse(pool)
    ensures pool' == Pruned(pool, now)
  {
    var expired := set d | d in pool.entries && pool.entries[d].expiresAt <= now;
    ghost var all, gone := expired, {};
    pool' := pool;
    while expired != {}
      invariant all == gone + expired && gone !! expired && all <= pool.entries.Keys
      invariant pool' == Without(pool, gone)
      decreases |expired|
    {
      var d :| d in expired;
      RemoveOne(pool, gone, d);
      if d in pool'.entries {
        var entry := pool'.entries[d];
        pool' := pool'.(entries := pool'.entries - {d}, domains := pool'.domains - {entry.ip});
      }
      expired := expired - {d};
      gone := gone + {d};
    }
    assert gone == all;
    PrunedIsWithout(pool, now);
  }

  // ----- allocate_or_refresh and resolve_domain

  function Refreshed(pool: Pool, domain: string, expiresAt: nat): Pool
    requires domain in pool.entries
  {
    pool.(entries := pool.entries[domain := Entry(pool.entries[domain].ip, expiresAt)])
  }

  function Mapped(pool: Pool, b: Bounds, domain: string, ip: nat, expiresAt: nat): Pool
    requires HasAddresses(b)
  {
    Pool(pool.entries[domain := Entry(ip, expiresAt)], pool.domains[ip := domain], Advance(ip, b))
  }

  /** The address a new domain would get, if any. */
  function NextAddress(pool: Pool, b: Bounds): Option<nat> {
    if !HasAddresses(b) then None
    else
      match FirstFree(pool.domains, Clamp(pool.cursor, b), 0, b)
      case None => None
      case Some(k) => Some(AddressAt(Clamp(pool.cursor, b), k, b))
  }

  function AfterAllocate(pool: Pool, b: Bounds, domain: string, ttl: nat, now: nat): (Pool, Option<nat>) {
    var live := Pruned(pool, now);
    if domain in live.entries then (Refreshed(live, domain, now + ttl), Some(live.entries[domain].ip))
    else
      match NextAddress(live, b)
      case None => (live, None)
      case Some(ip) => (Mapped(live, b, domain, ip, now + ttl), Some(ip))
  }

  function Lookup(pool: Pool, ip: nat, now: nat): Option<string> {
    var live := Pruned(pool, now);
    if ip in live.domains then Some(live.domains[ip]) else None
  }

  /**
   What an answer promises about the name that was asked for, in its characters: until it expires
   the address leads back to that name, and of the addresses in use before it is the one of that
   name and of no other.
   */
  ghost predicate Answered(before: Pool, after: Pool, domain: string, ip: nat, now: nat, until: nat) {
    exists d :: NameOf(domain, d)
      && (forall later: nat :: later < until ==> Lookup(after, ip, later) == Some(d))
      && (forall other: nat, x: string :: Lookup(before, other, now) == Some(x) ==> (other == ip <==> x == d))
  }

  class FakeIpStore {
    const bounds4: Bounds
    const bounds6: Bounds
    var v4: Pool
    var v6: Pool

    ghost predicate Valid()
      reads this
    {
      PoolOk(v4, bounds4) && PoolOk(v6, bounds6)
    }

    constructor (bounds4: Bounds, bounds6: Bounds)
      ensures Valid() && this.bounds4 == bounds4 && this.bounds6 == bounds6
      ensures v4 == Fresh(bounds4) && v6 == Fresh(bounds6)
    {
      this.bounds4, this.bounds6 := bounds4, bounds6;
      v4, v6 := Fresh(bounds4), Fresh(bounds6);
    }

    method Prune(now: nat)
      requires Valid()
      modifies this
      ensures Valid() && v4 == Pruned(old(v4), now) && v6 == Pruned(old(v6), now)
    {
      PrunedOk(v4, bounds4, now);
      PrunedOk(v6, bounds6, now);
      v4 := PruneExpired(v4, now);
      v6 := PruneExpired(v6, now);
    }

    method AllocateOrRefresh(pool: Pool, b: Bounds, domain: string, ttl: nat, now: nat)
      returns (pool': Pool, ip: Option<nat>)
      ensures domain in pool.entries ==>
              pool' == Refreshed(pool, domain, now + ttl) && ip == Some(pool.entries[domain].ip)
      ensures domain !in pool.entries ==> ip == NextAddress(pool, b)
      ensures domain !in pool.entries ==>
                pool' == if ip.Some? then Mapped(pool, b, domain, ip.value, now + ttl) else pool
    {
      if domain in pool.entries {
        return pool.(entries := pool.entries[domain := pool.entries[domain].(expiresAt := now + ttl)]),
               Some(pool.entries[domain].ip);
      }
      var cursor;
      ip, cursor := AllocateNext(pool.domains, pool.cursor, b);
      pool' := pool;
      if ip.Some? {
        pool' := Pool(pool.entries[domain := Entry(ip.value, now + ttl)], pool.domains[ip.value := domain], cursor);
      }
    }

    method AllocateOrRefreshIpv4(domain: string, ttl: nat, now: nat) returns (ip: Option<nat>)
      requires Valid()
      modifies this
      ensures Valid()
      ensures (v4, ip) == AfterAllocate(old(v4), bounds4, NormalizeDomain(domain), ttl, now)
      ensures v6 == Pruned(old(v6), now)
      ensures ip.Some? ==> Answered(old(v4), v4, domain, ip.value, now, now + ttl)
    {
      AllocateAnswers(v4, bounds4, domain, ttl, now);
      AllocateKeepsOk(v4, bounds4, NormalizeDomain(domain), ttl, now);
      Prune(now);
      v4, ip := AllocateOrRefresh(v4, bounds4, NormalizeDomain(domain), ttl, now);
    }

    method AllocateOrRefreshIpv6(domain: string, ttl: nat, now: nat) returns (ip: Option<nat>)
      requires Valid()
      modifies this
      ensures Valid()
      ensures (v6, ip) == AfterAllocate(old(v6), bounds6, NormalizeDomain(domain), ttl, now)
      ensures v4 == Pruned(old(v4), now)
      ensures ip.Some? ==> Answered(old(v6), v6, domain, ip.value, now, now + ttl)
    {
      AllocateAnswers(v6, bounds6, domain, ttl, now);
      AllocateKeepsOk(v6, bounds6, NormalizeDomain(domain), ttl, now);
      Prune(now);
      v6, ip := AllocateOrRefresh(v6, bounds6, NormalizeDomain(domain), ttl, now);
    }

    method ResolveDomain(isV6: bool, ip: nat, now: nat) returns (domain: Option<string>)
      requires Valid()
      modifies this
      ensures Valid() && v4 == Pruned(old(v4), now) && v6 == Pruned(old(v6), now)
      ensures domain == Lookup(if isV6 then old(v6) else old(v4), ip, now)
      ensures forall d :: domain == Some(d) <==> Lives(if isV6 then old(v6) else old(v4), d, ip, now)
    {
      LookupIff(v4, ip, now);
      LookupIff(v6, ip, now);
      Prune(now);
      var pool := if isV6 then v6 else v4;
      if ip !in pool.domains {
        return None;
      }
      var found := pool.domains[ip];
      if found !in pool.entries || pool.entries[found].expiresAt <= now {
        return None;
      }
      return Some(found);
    }
  }

  function Fresh(b: Bounds): Pool {
    Pool(map[], map[], b.first)
  }

  // ----- every operation keeps the pool in order

  lemma PrunedOk(pool: Pool, b: Bounds, now: nat)
    requires PoolOk(pool, b)
    ensures PoolOk(Pruned(pool, now), b)
    ensures forall d :: d in Pruned(pool, now).entries <==> d in pool.entries && pool.entries[d].expiresAt > now
    ensures forall ip :: ip in Pruned(pool, now).domains <==>
              ip in pool.domains && pool.entries[pool.domains[ip]].expiresAt > now
  {
  }

  lemma AllocateKeepsOk(pool: Pool, b: Bounds, domain: string, ttl: nat, now: nat)
    requires PoolOk(pool, b)
    ensures PoolOk(AfterAllocate(pool, b, domain, ttl, now).0, b)
    ensures PoolOk(Pruned(pool, now), b)
  {
    PrunedOk(pool, b, now);
  }

  // ----- names and addresses

  /** `domain` holds `ip` and has not expired. */
  predicate Lives(pool: Pool, domain: string, ip: nat, now: nat) {
    domain in pool.entries && pool.entries[domain].ip == ip && now < pool.entries[domain].expiresAt
  }

  lemma LookupIff(pool: Pool, ip: nat, now: nat)
    requires Inverse(pool)
    ensures forall d :: Lookup(pool, ip, now) == Some(d) <==> Lives(pool, d, ip, now)
  {
  }

  /** The addresses in use before: the answer is the one of its domain, if that had one, and no other. */
  lemma AllocateTakesNoOther(pool: Pool, b: Bounds, domain: string, ttl: nat, now: nat, other: nat, x: string)
    requires PoolOk(pool, b) && AfterAllocate(pool, b, domain, ttl, now).1.Some? && Lives(pool, x, other, now)
    ensures other == AfterAllocate(pool, b, domain, ttl, now).1.value <==> x == domain
  {
    PrunedOk(pool, b, now);
    assert x in Pruned(pool, now).entries && other in Pruned(pool, now).domains;
  }

  lemma AllocateAnswers(pool: Pool, b: Bounds, domain: string, ttl: nat, now: nat)
    requires PoolOk(pool, b)
    ensures var (after, ip) := AfterAllocate(pool, b, NormalizeDomain(domain), ttl, now);
            ip.Some? ==> Answered(pool, after, domain, ip.value, now, now + ttl)
  {
    var d := NormalizeDomain(domain);
    var (after, ip) := AfterAllocate(pool, b, d, ttl, now);
    if ip.Some? {
      NameIs(domain, d);
      RefreshKeepsAddress(pool, b, d, ttl, now);
      forall other: nat, x: string | Lookup(pool, other, now) == Some(x)
        ensures other == ip.value <==> x == d
      {
        LookupIff(pool, other, now);
        AllocateTakesNoOther(pool, b, d, ttl, now, other, x);
      }
    }
  }

  /** The first address ever handed out is the first of the range. */
  lemma FirstAnswerIsFirst(b: Bounds, domain: string, ttl: nat, now: nat)
    requires HasAddresses(b)
    ensures AfterAllocate(Fresh(b), b, domain, ttl, now).1 == Some(b.first)
  {
    assert Pruned(Fresh(b), now) == Fresh(b);
    assert AddressAt(b.first, 0, b) == b.first;
  }

  // ----- when allocation fails

  /** Every address of the range is met once within `Size(b)` steps. */
  lemma StepsTo(start: nat, ip: nat, b: Bounds) returns (k: nat)
    requires HasAddresses(b) && Within(b, start) && Within(b, ip)
    ensures k < Size(b) && AddressAt(start, k, b) == ip
  {
    k := if start <= ip then ip - start else ip - b.first + (b.last.value - start) + 1;
  }

  ghost function Interval(lo: nat, hi: nat): (s: set<nat>)
    requires lo <= hi
    ensures forall x :: x in s <==> lo <= x < hi
    ensures |s| == hi - lo
    decreases hi
  {
    if lo == hi then {} else Interval(lo, hi - 1) + {hi - 1}
  }

  lemma {:induction false} SubsetOfSameSize<T>(a: set<T>, b: set<T>)
    requires a <= b && |a| == |b|
    ensures a == b
  {
    if x :| x in b && x !in a {
      SubsetSize(a, b - {x});
    }
  }

  /** The scan finds nothing exactly when every address of the range is mapped. */
  lemma ScanFailsIffFull(pool: Pool, b: Bounds)
    requires PoolOk(pool, b) && HasAddresses(b)
    ensures NextAddress(pool, b).None? <==> |pool.domains| == Size(b)
  {
    var start := Clamp(pool.cursor, b);
    var range := Interval(b.first, b.last.value + 1);
    if NextAddress(pool, b).None? {
      forall ip | ip in range
        ensures ip in pool.domains
      {
        var k := StepsTo(start, ip, b);
      }
      assert pool.domains.Keys == range;
    }
    if |pool.domains| == Size(b) {
      SubsetOfSameSize(pool.domains.Keys, range);
    }
  }

  lemma {:induction false} AsManyDomainsAsAddresses(pool: Pool)
    requires Inverse(pool)
    ensures |pool.entries| == |pool.domains|
    decreases |pool.entries|
  {
    if d :| d in pool.entries {
      var smaller := pool.(entries := pool.entries - {d}, domains := pool.domains - {pool.entries[d].ip});
      AsManyDomainsAsAddresses(smaller);
      assert smaller.entries.Keys == pool.entries.Keys - {d};
      assert smaller.domains.Keys == pool.domains.Keys - {pool.entries[d].ip};
    } else {
      assert pool.domains.Keys == {};
    }
  }

  /** Allocation fails exactly for a domain without a live entry when no address is left or none exists. */
  lemma AllocationFailsIff(pool: Pool, b: Bounds, domain: string, ttl: nat, now: nat)
    requires PoolOk(pool, b)
    ensures var live := Pruned(pool, now);
            AfterAllocate(pool, b, domain, ttl, now).1.None? <==>
            domain !in live.entries && (!HasAddresses(b) || |live.entries| == Size(b))
  {
    PrunedOk(pool, b, now);
    var live := Pruned(pool, now);
    if HasAddresses(b) {
      ScanFailsIffFull(live, b);
      AsManyDomainsAsAddresses(live);
    }
  }

  // ----- whole runs

  /** What one family sees: its own allocations, and prunes caused by every other call. */
  datatype Op = Allocate(domain: string, ttl: nat, now: nat) | Tick(now: nat)

  function Step(pool: Pool, b: Bounds, op: Op): Pool {
    match op
    case Allocate(domain, ttl, now) => AfterAllocate(pool, b, domain, ttl, now).0
    case Tick(now) => Pruned(pool, now)
  }

  function Run(b: Bounds, ops: seq<Op>): Pool {
    if ops == [] then Fresh(b) else Step(Run(b, ops[..|ops| - 1]), b, ops[|ops| - 1])
  }

  /** In every reachable state the two maps are inverse and stay within the range. */
  lemma {:induction false} RunOk(b: Bounds, ops: seq<Op>)
    ensures PoolOk(Run(b, ops), b)
  {
    if ops != [] {
      RunOk(b, ops[..|ops| - 1]);
      var pool := Run(b, ops[..|ops| - 1]);
      match ops[|ops| - 1]
      case Allocate(domain, ttl, now) => AllocateKeepsOk(pool, b, domain, ttl, now);
      case Tick(now) => PrunedOk(pool, b, now);
    }
  }

  /** No two domains ever share an address. */
  lemma NoSharing(b: Bounds, ops: seq<Op>, d: string, e: string)
    requires d in Run(b, ops).entries && e in Run(b, ops).entries && d != e
    ensures Run(b, ops).entries[d].ip != Run(b, ops).entries[e].ip
  {
    RunOk(b, ops);
  }

  /** A live domain keeps its address, and the answer can be looked up until it expires. */
  lemma RefreshKeepsAddress(pool: Pool, b: Bounds, domain: string, ttl: nat, now: nat)
    requires PoolOk(pool, b)
    ensures var (after, ip) := AfterAllocate(pool, b, domain, ttl, now);
            && (domain in pool.entries && pool.entries[domain].expiresAt > now ==> ip == Some(pool.entries[domain].ip))
            && (ip.Some? ==> forall later: nat :: later < now + ttl ==> Lookup(after, ip.value, later) == Some(domain))
            && (ip.Some? ==> forall later: nat :: later >= now + ttl ==> Lookup(after, ip.value, later) == None)
  {
    AllocateKeepsOk(pool, b, domain, ttl, now);
  }
}
