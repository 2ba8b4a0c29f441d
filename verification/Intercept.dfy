/** The packet handlers over the shared NAT tables (src/traffic/shared/intercept/tcp.rs). */
module Intercept {
  import opened Basics
  import opened Nat
  import opened Packets
  import Rules
  import Cidr = CidrTrie

  datatype Disposition = Pass | Modified

  /** Local listeners that intercepted traffic is sent to. */
  datatype Ports = Ports(proxy: Port, tls: Port, dns: Port)

  datatype Capture = Capture(range4: Rules.Ipv4Net, range6: Rules.Ipv6Net)

  /** Lifetimes in nanoseconds. */
  const ESTABLISHED_TTL: nat := 300_000_000_000
  const CLOSING_TTL: nat := 30_000_000_000

  function Expiration(now: nat, closing: bool): nat {
    now + if closing then CLOSING_TTL else ESTABLISHED_TTL
  }

  function BigEndian(bytes: seq<byte>): nat {
    if bytes == [] then 0 else BigEndian(bytes[..|bytes| - 1]) * 256 + bytes[|bytes| - 1]
  }

  predicate Captures(capture: Capture, f: Family, ip: seq<byte>) {
    if f.IPv4? then Cidr.Contains(capture.range4, Rules.BITS4, BigEndian(ip))
    else Cidr.Contains(capture.range6, Rules.BITS6, BigEndian(ip))
  }

  /** `network <= destination <= last address` of the family's range. */
  predicate InFamilyRange(capture: Capture, f: Family, ip: seq<byte>) {
    match f
    case IPv4 =>
      && Cidr.Network(capture.range4, Rules.BITS4) <= BigEndian(ip)
      && BigEndian(ip) <= Cidr.Broadcast(capture.range4, Rules.BITS4)
    case IPv6 =>
      && Cidr.Network(capture.range6, Rules.BITS6) <= BigEndian(ip)
      && BigEndian(ip) <= Cidr.Broadcast(capture.range6, Rules.BITS6)
  }

  // ----- the two tables as one value

  datatype Tables = Tables(v4: Table, v6: Table)

  function TableOf(tables: Tables, f: Family): Table {
    if f.IPv4? then tables.v4 else tables.v6
  }

  function WithTable(tables: Tables, f: Family, table: Table): Tables {
    if f.IPv4? then tables.(v4 := table) else tables.(v6 := table)
  }

  /** Each table speaks of addresses of its own family. */
  ghost predicate FamilyTable(table: Table, f: Family) {
    forall c :: c in table ==> |table[c].destination.ip| == AddressLength(f)
  }

  ghost predicate TablesOk(tables: Tables) {
    FamilyTable(tables.v4, IPv4) && FamilyTable(tables.v6, IPv6)
  }

  // ----- what one packet does

  datatype Outcome = Outcome(disposition: Disposition, data: seq<byte>, outbound: bool)

  /** Where a client request is redirected to; `owned` says the fake store maps its destination. */
  function RequestTarget(data: seq<byte>, ports: Ports, capture: Capture, owned: bool): (target: Option<Port>)
    ensures target.Some? ==> Parses(data)
  {
    if !Parses(data) then None
    else
      var c := Parsed(data);
      if c.destination.port == ports.proxy || c.destination.port == ports.tls
         || !Captures(capture, DetectTcpFamily(data).value.family, c.destination.ip) || !owned then None
      else Some(if c.destination.port == 443 then ports.tls else ports.proxy)
  }

  function DnsTarget(data: seq<byte>, ports: Ports): (target: Option<Port>)
    ensures target.Some? ==> Parses(data)
  {
    if !Parses(data) then None
    else if Parsed(data).destination.port != 53 || Parsed(data).client.port == ports.dns then None
    else Some(ports.dns)
  }

  /** Redirecting to a local port: remember where the client wanted to go, then rewrite. */
  function Redirect(tables: Tables, data: seq<byte>, outbound: bool, target: Option<Port>, now: nat): (Tables, Outcome)
    requires target.Some? ==> Parses(data)
  {
    if target.None? then (tables, Outcome(Pass, data, outbound))
    else
      ContextBasics(data);
      var Detected(f, h) := DetectTcpFamily(data).value;
      var c := Parsed(data);
      (WithTable(tables, f, Upserted(TableOf(tables, f), c.client, c.destination, Expiration(now, c.closing))),
       Outcome(Modified, Redirected(data, f, h, c.client.ip, target.value), false))
  }

  /** A reply of a local listener: give it back the source the client expects. */
  function Reply(tables: Tables, data: seq<byte>, outbound: bool, ports: Ports, now: nat): (Tables, Outcome)
    requires TablesOk(tables)
  {
    if !Parses(data) || Parsed(data).client.port !in {ports.proxy, ports.tls, ports.dns}
    then (tables, Outcome(Pass, data, outbound))
    else
      ContextBasics(data);
      var Detected(f, h) := DetectTcpFamily(data).value;
      var c := Parsed(data);
      var (table, destination) := Touched(TableOf(tables, f), c.destination, now, Expiration(now, c.closing));
      (WithTable(tables, f, table),
       match destination
       case None => Outcome(Pass, data, outbound)
       case Some(d) => Outcome(Modified, Resourced(data, f, h, d.ip, d.port), false))
  }

  /** A packet from a local listener to a client that was redirected and whose mapping has not expired. */
  predicate ReplyDue(tables: Tables, ports: Ports, data: seq<byte>, now: nat)
    requires Parses(data)
  {
    var c := Parsed(data);
    var table := if DetectTcpFamily(data).value.family == IPv4 then tables.v4 else tables.v6;
    && (c.client.port == ports.proxy || c.client.port == ports.tls || c.client.port == ports.dns)
    && c.destination in table && now < table[c.destination].expiresAt
  }

  // ----- the handlers, in place

  class Interceptor {
    const ports: Ports
    const capture: Capture
    const v4: NatTable
    const v6: NatTable

    ghost function State(): Tables
      reads v4, v6
    {
      Tables(v4.entries, v6.entries)
    }

    ghost predicate Valid()
      reads v4, v6
    {
      v4 != v6 && TablesOk(State())
    }

    constructor (ports: Ports, capture: Capture)
      ensures Valid() && State() == Tables(map[], map[]) && this.ports == ports && this.capture == capture
    {
      this.ports, this.capture := ports, capture;
      v4 := new NatTable();
      v6 := new NatTable();
    }

    /** `upsert_nat_packet`. */
    method Remember(f: Family, c: TcpContext, now: nat)
      requires Valid() && |c.destination.ip| == AddressLength(f)
      modifies v4, v6
      ensures Valid()
      ensures State() == WithTable(old(State()), f,
                Upserted(TableOf(old(State()), f), c.client, c.destination, Expiration(now, c.closing)))
    {
      if f.IPv4? {
        v4.Upsert(c.client, c.destination, Expiration(now, c.closing));
      } else {
        v6.Upsert(c.client, c.destination, Expiration(now, c.closing));
      }
    }

    method Recall(f: Family, c: TcpContext, now: nat) returns (destination: Option<Endpoint>)
      requires Valid()
      modifies v4, v6
      ensures Valid() && (destination.Some? ==> |destination.value.ip| == AddressLength(f))
      ensures var (table, found) := Touched(TableOf(old(State()), f), c.destination, now, Expiration(now, c.closing));
              State() == WithTable(old(State()), f, table) && destination == found
    {
      if f.IPv4? {
        destination := v4.Touch(c.destination, now, Expiration(now, c.closing));
      } else {
        destination := v6.Touch(c.destination, now, Expiration(now, c.closing));
      }
    }

    /** Remembers the client's destination, then points the packet at a local port. */
    method RedirectTo(data: array<byte>, f: Family, h: nat, c: TcpContext, port: Port, now: nat)
      requires Valid() && Parses(data[..]) && DetectTcpFamily(data[..]) == Some(Detected(f, h)) && Parsed(data[..]) == c
      modifies data, v4, v6
      ensures Valid()
      ensures (State(), Outcome(Modified, data[..], false)) ==
              Redirect(old(State()), old(data[..]), true, Some(port), now)
    {
      ContextBasics(data[..]);
      Remember(f, c, now);
      RewriteDestination(data, f, h, c.client.ip, port);
    }

    method HandleRequestPacket(data: array<byte>, outbound: bool, owned: bool, now: nat)
      returns (disposition: Disposition, outbound': bool)
      requires Valid()
      modifies data, v4, v6
      ensures Valid()
      ensures (State(), Outcome(disposition, data[..], outbound')) ==
              Redirect(old(State()), old(data[..]), outbound, RequestTarget(old(data[..]), ports, capture, owned), now)
      ensures disposition == Modified <==>
              && owned && Parses(old(data[..]))
              && Parsed(old(data[..])).destination.port != ports.proxy
              && Parsed(old(data[..])).destination.port != ports.tls
              && InFamilyRange(capture, DetectTcpFamily(old(data[..])).value.family,
                               Parsed(old(data[..])).destination.ip)
      ensures disposition == Pass ==> data[..] == old(data[..]) && State() == old(State()) && outbound' == outbound
      ensures disposition == Modified ==> !outbound'
    {
      disposition, outbound' := Pass, outbound;
      var detected := DetectTcpFamily(data[..]);
      if detected.None? {
        return;
      }
      var Detected(f, h) := detected.value;
      var context := Context(data[..], f, h);
      if context.None? {
        return;
      }
      var c := context.value;
      if c.destination.port == ports.proxy || c.destination.port == ports.tls
         || !Captures(capture, f, c.destination.ip) {
        return;
      }
      if !owned {
        return;
      }
      RedirectTo(data, f, h, c, if c.destination.port == 443 then ports.tls else ports.proxy, now);
      disposition, outbound' := Modified, false;
    }

    method HandleDnsTcpPacket(data: array<byte>, outbound: bool, now: nat)
      returns (disposition: Disposition, outbound': bool)
      requires Valid()
      modifies data, v4, v6
      ensures Valid()
      ensures (State(), Outcome(disposition, data[..], outbound')) ==
              Redirect(old(State()), old(data[..]), outbound, DnsTarget(old(data[..]), ports), now)
      ensures disposition == Modified <==>
              && Parses(old(data[..])) && Parsed(old(data[..])).destination.port == 53
              && Parsed(old(data[..])).client.port != ports.dns
      ensures disposition == Pass ==> data[..] == old(data[..]) && State() == old(State()) && outbound' == outbound
      ensures disposition == Modified ==> !outbound'
    {
      disposition, outbound' := Pass, outbound;
      var detected := DetectTcpFamily(data[..]);
      if detected.None? {
        return;
      }
      var Detected(f, h) := detected.value;
      var context := Context(data[..], f, h);
      if context.None? {
        return;
      }
      var c := context.value;
      if c.destination.port != 53 || c.client.port == ports.dns {
        return;
      }
      RedirectTo(data, f, h, c, ports.dns, now);
      disposition, outbound' := Modified, false;
    }

    method HandleResponsePacket(data: array<byte>, outbound: bool, now: nat)
      returns (disposition: Disposition, outbound': bool)
      requires Valid()
      modifies data, v4, v6
      ensures Valid()
      ensures (State(), Outcome(disposition, data[..], outbound')) ==
              Reply(old(State()), old(data[..]), outbound, ports, now)
      ensures disposition == Modified <==>
              Parses(old(data[..])) && ReplyDue(old(State()), ports, old(data[..]), now)
      ensures disposition == Pass ==> data[..] == old(data[..]) && outbound' == outbound
      ensures disposition == Modified ==> !outbound'
    {
      disposition, outbound' := Pass, outbound;
      var detected := DetectTcpFamily(data[..]);
      if detected.None? {
        return;
      }
      var Detected(f, h) := detected.value;
      var context := Context(data[..], f, h);
      if context.None? {
        return;
      }
      var c := context.value;
      if c.client.port != ports.proxy && c.client.port != ports.tls && c.client.port != ports.dns {
        return;
      }
      ContextBasics(data[..]);
      var destination := Recall(f, c, now);
      if destination.None? {
        return;
      }
      RewriteSource(data, f, h, destination.value.ip, destination.value.port);
      disposition, outbound' := Modified, false;
    }
  }
}
