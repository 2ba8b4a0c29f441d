/**
 Where fake addresses lie relative to the capture range, the packet filter window and the
 addresses reserved for the TUN device and its DNS server (src/traffic/shared/dns/fake_ip.rs,
 src/traffic/windivert/filters.rs, src/traffic/tun/dns_hijack/mod.rs).
 */
module FakeRange {
  import opened Basics
  import opened Nat
  import opened Packets
  import opened Intercept
  import opened InterceptRuns
  import opened FakeIp
  import opened Rules
  import Cidr = CidrTrie

  function MaxAddress(width: nat): nat {
    Pow2(width) - 1
  }

  function SaturatingAdd(a: nat, b: nat, width: nat): nat {
    if a + b > MaxAddress(width) then MaxAddress(width) else a + b
  }

  function SaturatingSub(a: nat, b: nat): nat {
    if a < b then 0 else a - b
  }

  // ----- the allocator's bounds

  function FirstUsable(net: Cidr.Net, width: nat): nat
    requires Cidr.NetOk(net, width)
  {
    SaturatingAdd(Cidr.Network(net, width), 1, width)
  }

  function FirstAllocatable(net: Cidr.Net, width: nat): nat
    requires Cidr.NetOk(net, width)
  {
    SaturatingAdd(FirstUsable(net, width), 2, width)
  }

  function Bounds4(net: Ipv4Net): Bounds {
    var network, broadcast := Cidr.Network(net, BITS4), Cidr.Broadcast(net, BITS4);
    Bounds(FirstAllocatable(net, BITS4), if broadcast > network then Some(broadcast - 1) else None)
  }

  /** The last address is the network with every host bit set, which for a network address is its broadcast. */
  function Bounds6(net: Ipv6Net): Bounds {
    var last := Cidr.Broadcast(net, BITS6);
    Bounds(FirstAllocatable(net, BITS6), if last >= FirstUsable(net, BITS6) then Some(last) else None)
  }

  // ----- the packet filter and the TUN plan

  function FilterFirst(net: Cidr.Net, width: nat): nat
    requires Cidr.NetOk(net, width)
  {
    SaturatingAdd(Cidr.Network(net, width), 1, width)
  }

  function FilterLast4(net: Ipv4Net): nat {
    SaturatingSub(Cidr.Broadcast(net, BITS4), 1)
  }

  function FilterLast6(net: Ipv6Net): nat {
    Cidr.Broadcast(net, BITS6)
  }

  function TunAddress(net: Cidr.Net, width: nat): nat
    requires Cidr.NetOk(net, width)
  {
    SaturatingAdd(Cidr.Network(net, width), 1, width)
  }

  function DnsAddress(net: Cidr.Net, width: nat): nat
    requires Cidr.NetOk(net, width)
  {
    SaturatingAdd(Cidr.Network(net, width), 2, width)
  }

  predicate Reserved(net: Cidr.Net, width: nat, ip: nat)
    requires Cidr.NetOk(net, width)
  {
    ip == Cidr.Network(net, width) || ip == TunAddress(net, width) || ip == DnsAddress(net, width)
  }

  lemma BroadcastFits(net: Cidr.Net, width: nat)
    requires Cidr.NetOk(net, width)
    ensures Cidr.Broadcast(net, width) <= MaxAddress(width)
  {
    Pow2Add(net.prefixLen, width - net.prefixLen);
    BlockFits(net.addr, Pow2(width - net.prefixLen), Pow2(net.prefixLen));
  }

  /** The block of size `k` around an address below `p * k` ends below `p * k`. */
  lemma BlockFits(a: nat, k: nat, p: nat)
    requires k > 0 && a < p * k
    ensures a / k * k + k <= p * k
  {
    var q := a / k;
    assert q * k <= a;
    if q >= p {
      MulMonotone(p, q, k);
    } else {
      MulMonotone(q + 1, p, k);
      assert (q + 1) * k == q * k + k;
    }
  }

  lemma MulMonotone(a: nat, b: nat, k: nat)
    requires a <= b
    ensures a * k <= b * k
  {
  }

  /** IPv4: whatever the range, fake addresses are captured, filtered for, and never reserved. */
  lemma FakeIpv4IsWellPlaced(net: Ipv4Net, ip: nat)
    ensures HasAddresses(Bounds4(net)) && Within(Bounds4(net), ip) ==>
              && Cidr.Contains(net, BITS4, ip)
              && FilterFirst(net, BITS4) <= ip <= FilterLast4(net)
              && !Reserved(net, BITS4, ip)
  {
    BroadcastFits(net, BITS4);
  }

  /** IPv6: fake addresses are always captured and filtered for. */
  lemma FakeIpv6IsCaptured(net: Ipv6Net, ip: nat)
    ensures HasAddresses(Bounds6(net)) && Within(Bounds6(net), ip) ==>
              Cidr.Contains(net, BITS6, ip) && FilterFirst(net, BITS6) <= ip <= FilterLast6(net)
  {
    BroadcastFits(net, BITS6);
  }

  /**
   IPv6: no fake address is reserved, unless the network sits within three addresses of the top
   of the address space, where the saturating sums collapse.  Prefixes up to /126 never do.
   */
  lemma FakeIpv6IsUnreserved(net: Ipv6Net)
    requires HasAddresses(Bounds6(net))
    ensures (forall ip :: Within(Bounds6(net), ip) ==> !Reserved(net, BITS6, ip))
            <==> Cidr.Network(net, BITS6) + 3 <= MaxAddress(BITS6)
    ensures net.prefixLen <= 126 ==> Cidr.Network(net, BITS6) + 3 <= MaxAddress(BITS6)
  {
    BroadcastFits(net, BITS6);
    var n, max, b := Cidr.Network(net, BITS6), MaxAddress(BITS6), Bounds6(net);
    if n + 3 <= max {
      assert b.first == n + 3;
    } else {
      assert Within(b, max) && Reserved(net, BITS6, max);
    }
    if net.prefixLen <= 126 {
      Pow2AtLeast4(BITS6 - net.prefixLen);
    }
  }

  /** Such a range exists: the single last address is handed out although it is the network itself. */
  lemma TopRangeHandsOutNetwork()
    ensures exists net: Ipv6Net :: HasAddresses(Bounds6(net)) && Within(Bounds6(net), Cidr.Network(net, BITS6))
  {
    var net: Ipv6Net := Cidr.Net(MaxAddress(BITS6), BITS6);
    assert Pow2(BITS6 - net.prefixLen) == 1;
    assert Cidr.Network(net, BITS6) == MaxAddress(BITS6) == Cidr.Broadcast(net, BITS6);
    assert HasAddresses(Bounds6(net)) && Within(Bounds6(net), Cidr.Network(net, BITS6));
  }

  lemma Pow2AtLeast4(n: nat)
    requires n >= 2
    ensures Pow2(n) >= 4
  {
    assert Pow2(n) == 2 * Pow2(n - 1) == 4 * Pow2(n - 2);
  }

  /**
   End to end: in every reachable state of the fake-IP store, a TCP packet to an address that is
   mapped and alive is redirected to a local listener and recorded, unless it already goes to one.
   */
  lemma FakeTrafficIsIntercepted(setup: Setup, tables: Tables, ops: seq<FakeIp.Op>, data: seq<byte>, now: nat)
    requires Parses(data)
    requires Parsed(data).destination.port != setup.ports.proxy && Parsed(data).destination.port != setup.ports.tls
    requires Lookup(FakeIp.Run(BoundsOf(setup, data), ops), BigEndian(Parsed(data).destination.ip), now).Some?
    ensures var c, f := Parsed(data), DetectTcpFamily(data).value.family;
            var target := TargetOf(setup, InterceptRuns.Request(data, true, now));
            && target == Some(if c.destination.port == 443 then setup.ports.tls else setup.ports.proxy)
            && var (after, out) := Redirect(tables, data, true, target, now);
            && out.disposition == Modified
            && TableOf(after, f) == TableOf(tables, f)[c.client := NatEntry(c.destination, Expiration(now, c.closing))]
  {
    var b := BoundsOf(setup, data);
    var pool := FakeIp.Run(b, ops);
    FakeIp.RunOk(b, ops);
    assert HasAddresses(b) by {
      PrunedOk(pool, b, now);
    }
    forall ip: nat | Within(b, ip)
      ensures if DetectTcpFamily(data).value.family.IPv4? then Cidr.Contains(setup.capture.range4, BITS4, ip)
              else Cidr.Contains(setup.capture.range6, BITS6, ip)
    {
      if DetectTcpFamily(data).value.family.IPv4? {
        FakeIpv4IsWellPlaced(setup.capture.range4, ip);
      } else {
        FakeIpv6IsCaptured(setup.capture.range6, ip);
      }
    }
    LiveMappingIsRedirected(setup, tables, pool, b, data, now);
  }

  function BoundsOf(setup: Setup, data: seq<byte>): Bounds
    requires Parses(data)
  {
    if DetectTcpFamily(data).value.family.IPv4? then Bounds4(setup.capture.range4) else Bounds6(setup.capture.range6)
  }

  // ----- what is intercepted and what is not

  /** The pool of the packet's family. */
  function PoolFor(store: FakeIpStore, data: seq<byte>): Pool
    requires Parses(data)
    reads store
  {
    if DetectTcpFamily(data).value.family.IPv4? then store.v4 else store.v6
  }

  /** The store hands out addresses of the ranges that are captured. */
  predicate Covers(interceptor: Interceptor, store: FakeIpStore)
    reads interceptor, store
  {
    store.bounds4 == Bounds4(interceptor.capture.range4) && store.bounds6 == Bounds6(interceptor.capture.range6)
  }

  /** The packet goes to neither local listener, and into the captured range. */
  predicate Eligible(ports: Ports, capture: Capture, data: seq<byte>) {
    && Parses(data) && Parsed(data).destination.port != ports.proxy && Parsed(data).destination.port != ports.tls
    && InFamilyRange(capture, DetectTcpFamily(data).value.family, Parsed(data).destination.ip)
  }

  /** A mapped address lies in the range its store hands out from. */
  lemma MappedIsInRange(capture: Capture, f: Family, pool: Pool, ip: seq<byte>, now: nat)
    requires PoolOk(pool, if f.IPv4? then Bounds4(capture.range4) else Bounds6(capture.range6))
    requires Lookup(pool, BigEndian(ip), now).Some?
    ensures InFamilyRange(capture, f, ip)
  {
    if f.IPv4? {
      FakeIpv4IsWellPlaced(capture.range4, BigEndian(ip));
    } else {
      FakeIpv6IsCaptured(capture.range6, BigEndian(ip));
    }
  }

  /**
   A captured packet with the fake DNS server at hand, if one runs.  It is intercepted exactly if
   it is a TCP packet to a live fake address and to neither local listener; otherwise nothing
   about it, the tables or its direction changes.
   */
  method HandleRequest(interceptor: Interceptor, server: Option<FakeIpStore>, data: array<byte>, outbound: bool,
                       now: nat)
    returns (disposition: Disposition, outbound': bool)
    requires interceptor.Valid() && (server.Some? ==> server.value.Valid() && Covers(interceptor, server.value))
    modifies data, interceptor.v4, interceptor.v6, if server.Some? then {server.value} else {}
    ensures interceptor.Valid() && (server.Some? ==> server.value.Valid())
    ensures disposition == Modified <==>
            && server.Some? && Eligible(interceptor.ports, interceptor.capture, old(data[..]))
            && Lookup(old(PoolFor(server.value, data[..])), BigEndian(Parsed(old(data[..])).destination.ip), now).Some?
    ensures disposition == Pass ==>
              data[..] == old(data[..]) && interceptor.State() == old(interceptor.State()) && outbound' == outbound
  {
    var owned := false;
    ghost var bytes := data[..];
    var detected := DetectTcpFamily(data[..]);
    if detected.Some? && server.Some? {
      var Detected(f, h) := detected.value;
      var context := Context(data[..], f, h);
      if context.Some? {
        var to := context.value.destination;
        if to.port != interceptor.ports.proxy && to.port != interceptor.ports.tls
           && Captures(interceptor.capture, f, to.ip) {
          var domain := server.value.ResolveDomain(f.IPv6?, BigEndian(to.ip), now);
          owned := domain.Some?;
        }
      }
    }
    assert data[..] == bytes;
    disposition, outbound' := interceptor.HandleRequestPacket(data, outbound, owned, now);
  }

  /** The same over every reachable store, where a mapped address is always in range. */
  lemma RequestModifiedIff(setup: Setup, tables: Tables, ops: seq<FakeIp.Op>, data: seq<byte>, now: nat)
    requires Parses(data)
    ensures var pool := FakeIp.Run(BoundsOf(setup, data), ops);
            var live := Lookup(pool, BigEndian(Parsed(data).destination.ip), now).Some?;
            var target := TargetOf(setup, InterceptRuns.Request(data, live, now));
            var (after, out) := Redirect(tables, data, true, target, now);
            && (out.disposition == Modified <==>
                  && live && Parsed(data).destination.port != setup.ports.proxy
                  && Parsed(data).destination.port != setup.ports.tls)
            && (out.disposition == Pass ==> after == tables && out.data == data && out.outbound)
  {
    var f, ip := DetectTcpFamily(data).value.family, Parsed(data).destination.ip;
    var pool := FakeIp.Run(BoundsOf(setup, data), ops);
    FakeIp.RunOk(BoundsOf(setup, data), ops);
    if Lookup(pool, BigEndian(ip), now).Some? {
      MappedIsInRange(setup.capture, f, pool, ip, now);
    }
  }

  // ----- how many addresses there are

  /** An IPv4 range has all its addresses but four: network, TUN, DNS and broadcast. */
  lemma Ipv4PoolSize(net: Ipv4Net)
    ensures var n, last := Cidr.Network(net, BITS4), Cidr.Broadcast(net, BITS4);
            && last - n + 1 == Pow2(BITS4 - net.prefixLen)
            && (HasAddresses(Bounds4(net)) <==> last - n > 3)
            && (last - n > 3 ==> Size(Bounds4(net)) == last - n - 3 && Bounds4(net).first == n + 3
                                 && Bounds4(net).last == Some(last - 1))
  {
    BroadcastFits(net, BITS4);
  }

  /** An IPv6 range has no broadcast address and keeps back three, if it does not end the address space. */
  lemma Ipv6PoolSize(net: Ipv6Net)
    ensures var n, last := Cidr.Network(net, BITS6), Cidr.Broadcast(net, BITS6);
            && last - n + 1 == Pow2(BITS6 - net.prefixLen)
            && (n + 3 <= MaxAddress(BITS6) ==> (HasAddresses(Bounds6(net)) <==> last - n > 2))
            && (last - n > 2 ==> Size(Bounds6(net)) == last - n - 2 && Bounds6(net).first == n + 3
                                 && Bounds6(net).last == Some(last))
  {
    BroadcastFits(net, BITS6);
  }

  /** Network, TUN, DNS, fake addresses and broadcast in a range with room for them all. */
  lemma RangeLayout(net: Ipv4Net, net6: Ipv6Net)
    requires net.prefixLen <= 29 && net6.prefixLen <= 125
    ensures var n, last := Cidr.Network(net, BITS4), Cidr.Broadcast(net, BITS4);
            && TunAddress(net, BITS4) == n + 1 && DnsAddress(net, BITS4) == n + 2
            && FilterFirst(net, BITS4) == n + 1 && FilterLast4(net) == last - 1
    ensures var n, last := Cidr.Network(net6, BITS6), Cidr.Broadcast(net6, BITS6);
            && TunAddress(net6, BITS6) == n + 1 && DnsAddress(net6, BITS6) == n + 2
            && FilterFirst(net6, BITS6) == n + 1 && FilterLast6(net6) == last
  {
    BroadcastFits(net, BITS4);
    BroadcastFits(net6, BITS6);
    Pow2AtLeast4(BITS4 - net.prefixLen);
    Pow2AtLeast4(BITS6 - net6.prefixLen);
  }
}
