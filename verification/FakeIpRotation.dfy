/** How long an address rests before it is handed out again (src/traffic/shared/dns/fake_ip.rs). */
module FakeIpRotation {
  import opened Basics
  import opened FakeIp

  /** One address looked at by a scan: handed out, or found occupied. */
  datatype Visit = Visit(ip: nat, handedOut: bool)

  /** The visits of one operation, in order. */
  function Visits(pool: Pool, b: Bounds, op: Op): seq<Visit>
    requires HasAddresses(b)
  {
    match op
    case Tick(_) => []
    case Allocate(domain, _, now) =>
      var live := Pruned(pool, now);
      if domain in live.entries then []
      else
        var start := Clamp(live.cursor, b);
        match FirstFree(live.domains, start, 0, b)
        case Some(k) => seq(k + 1, i requires 0 <= i <= k => Visit(AddressAt(start, i, b), i == k))
        case None => seq(Size(b), i requires 0 <= i < Size(b) => Visit(AddressAt(start, i, b), false))
  }

  /** All visits of a run from the fresh pool. */
  function Trail(b: Bounds, ops: seq<Op>): seq<Visit>
    requires HasAddresses(b)
  {
    if ops == [] then []
    else Trail(b, ops[..|ops| - 1]) + Visits(Run(b, ops[..|ops| - 1]), b, ops[|ops| - 1])
  }

  /** What a visit means: the last one of an allocation is the address returned, all others are taken. */
  lemma VisitsMean(pool: Pool, b: Bounds, op: Op, i: nat)
    requires PoolOk(pool, b) && HasAddresses(b) && i < |Visits(pool, b, op)|
    ensures var v := Visits(pool, b, op)[i];
            && op.Allocate?
            && (v.handedOut ==> AfterAllocate(pool, b, op.domain, op.ttl, op.now).1 == Some(v.ip)
                                && op.domain !in Pruned(pool, op.now).entries)
            && (!v.handedOut ==> v.ip in Pruned(pool, op.now).domains)
  {
  }

  /** A trail never jumps: each visit is one step after the one before it. */
  ghost predicate Steady(trail: seq<Visit>, b: Bounds, cursor: nat)
    requires HasAddresses(b)
  {
    && (forall t :: 0 <= t < |trail| ==> Within(b, trail[t].ip))
    && (forall t :: 0 < t < |trail| ==> trail[t].ip == Advance(trail[t - 1].ip, b))
    && (trail != [] ==> cursor == Advance(trail[|trail| - 1].ip, b))
  }

  lemma VisitsSteady(pool: Pool, b: Bounds, op: Op)
    requires PoolOk(pool, b) && HasAddresses(b)
    ensures var visits := Visits(pool, b, op);
            && (visits == [] ==> Step(pool, b, op).cursor == pool.cursor)
            && (visits != [] ==> visits[0].ip == pool.cursor && Steady(visits, b, Step(pool, b, op).cursor))
  {
  }

  lemma {:induction false} TrailSteady(b: Bounds, ops: seq<Op>)
    requires HasAddresses(b)
    ensures Steady(Trail(b, ops), b, Run(b, ops).cursor)
  {
    if ops != [] {
      var before, op := ops[..|ops| - 1], ops[|ops| - 1];
      TrailSteady(b, before);
      RunOk(b, before);
      VisitsSteady(Run(b, before), b, op);
      SteadyJoin(Trail(b, before), Visits(Run(b, before), b, op), b, Run(b, before).cursor, Run(b, ops).cursor);
    }
  }

  lemma SteadyJoin(a: seq<Visit>, c: seq<Visit>, b: Bounds, middle: nat, end: nat)
    requires HasAddresses(b) && Steady(a, b, middle)
    requires c == [] ==> end == middle
    requires c != [] ==> c[0].ip == middle && Steady(c, b, end)
    ensures Steady(a + c, b, end)
  {
    var j := a + c;
    forall t | 0 < t < |j|
      ensures j[t].ip == Advance(j[t - 1].ip, b)
    {
      if t > |a| {
        assert j[t] == c[t - |a|] && j[t - 1] == c[t - |a| - 1];
      }
    }
  }

  /** Following a steady trail for up to a full round is stepping `AddressAt`. */
  lemma {:induction false} TrailAt(trail: seq<Visit>, b: Bounds, cursor: nat, j: nat, k: nat)
    requires HasAddresses(b) && Steady(trail, b, cursor) && j + k < |trail| && k <= Size(b)
    ensures trail[j + k].ip == AddressAt(trail[j].ip, k, b)
  {
    if k > 0 {
      TrailAt(trail, b, cursor, j, k - 1);
      assert trail[j + k].ip == Advance(trail[j + k - 1].ip, b);
    }
  }

  /** Between two visits to an address lies a visit to every address of the range. */
  ghost predicate Rotates(trail: seq<Visit>, b: Bounds)
    requires HasAddresses(b)
  {
    forall j, k, ip :: 0 <= j < k < |trail| && trail[j].ip == trail[k].ip && Within(b, ip)
      ==> exists m :: j < m <= k && trail[m].ip == ip
  }

  /**
   Over every run, an address handed out is not handed out again before every other address has
   been handed out or found occupied.
   */
  lemma AddressRests(b: Bounds, ops: seq<Op>)
    requires HasAddresses(b)
    ensures Rotates(Trail(b, ops), b)
  {
    TrailSteady(b, ops);
    var trail, cursor := Trail(b, ops), Run(b, ops).cursor;
    forall j, k, ip | 0 <= j < k < |trail| && trail[j].ip == trail[k].ip && Within(b, ip)
      ensures exists m :: j < m <= k && trail[m].ip == ip
    {
      SteadyRotates(trail, b, cursor, j, k, ip);
    }
  }

  lemma SteadyRotates(trail: seq<Visit>, b: Bounds, cursor: nat, j: nat, k: nat, ip: nat)
    requires HasAddresses(b) && Steady(trail, b, cursor)
    requires j < k < |trail| && trail[j].ip == trail[k].ip && Within(b, ip)
    ensures exists m :: j < m <= k && trail[m].ip == ip
  {
    if k - j < Size(b) {
      TrailAt(trail, b, cursor, j, k - j);
      assert false;
    }
    var m := StepsTo(trail[j].ip, ip, b);
    if m == 0 {
      assert trail[k].ip == ip;
    } else {
      TrailAt(trail, b, cursor, j, m);
      assert trail[j + m].ip == ip;
    }
  }
}
