/** Whole runs of the capture loops and the cleanup task over the shared NAT tables. */
module InterceptRuns {
  import opened Basics
  import opened Nat
  import opened Packets
  import opened Intercept
  import opened FakeIp
  import Rules
  import Cidr = CidrTrie

  /** One atomic step; the table lock makes each handler's table access a single step. */
  datatype Step =
    | Request(data: seq<byte>, owned: bool, now: nat)
    | DnsTcp(data: seq<byte>, now: nat)
    | Response(data: seq<byte>, now: nat)
    | Cleanup(now: nat)

  datatype Setup = Setup(ports: Ports, capture: Capture)

  /** The redirect a step performs, if any. */
  function TargetOf(setup: Setup, step: Step): (target: Option<Port>)
    ensures target.Some? ==> !step.Cleanup? && !step.Response? && Parses(step.data)
  {
    match step
    case Request(data, owned, _) => RequestTarget(data, setup.ports, setup.capture, owned)
    case DnsTcp(data, _) => DnsTarget(data, setup.ports)
    case _ => None
  }

  function After(setup: Setup, tables: Tables, step: Step): Tables
    requires TablesOk(tables)
  {
    match step
    case Request(data, _, now) => Redirect(tables, data, true, TargetOf(setup, step), now).0
    case DnsTcp(data, now) => Redirect(tables, data, true, TargetOf(setup, step), now).0
    case Response(data, now) => Reply(tables, data, true, setup.ports, now).0
    case Cleanup(now) => Tables(Live(tables.v4, now), Live(tables.v6, now))
  }

  /** A step redirects the given client of the given family. */
  predicate Redirects(setup: Setup, step: Step, f: Family, client: Endpoint) {
    TargetOf(setup, step).Some? && DetectTcpFamily(step.data).value.family == f && Parsed(step.data).client == client
  }

  /** An entry after a step is the step's own redirect, or was there before with the same destination. */
  lemma EntryAfter(setup: Setup, tables: Tables, step: Step, f: Family, client: Endpoint)
    requires TablesOk(tables) && client in TableOf(After(setup, tables, step), f)
    ensures var destination := TableOf(After(setup, tables, step), f)[client].destination;
            && (Redirects(setup, step, f, client) ==> destination == Parsed(step.data).destination)
            && (!Redirects(setup, step, f, client) ==>
                  client in TableOf(tables, f) && destination == TableOf(tables, f)[client].destination)
  {
    match step
    case Request(data, _, now) => RedirectEntry(tables, data, TargetOf(setup, step), now, f, client);
    case DnsTcp(data, now) => RedirectEntry(tables, data, TargetOf(setup, step), now, f, client);
    case Response(data, now) => ReplyEntry(setup, tables, data, now, f, client);
    case Cleanup(now) =>
  }

  lemma RedirectEntry(tables: Tables, data: seq<byte>, target: Option<Port>, now: nat, f: Family, client: Endpoint)
    requires target.Some? ==> Parses(data)
    ensures var after := TableOf(Redirect(tables, data, true, target, now).0, f);
            if target.Some? && DetectTcpFamily(data).value.family == f && Parsed(data).client == client
            then client in after && after[client].destination == Parsed(data).destination
            else client in after ==> client in TableOf(tables, f) && after[client] == TableOf(tables, f)[client]
  {
  }

  lemma ReplyEntry(setup: Setup, tables: Tables, data: seq<byte>, now: nat, f: Family, client: Endpoint)
    requires TablesOk(tables)
    ensures var after := TableOf(Reply(tables, data, true, setup.ports, now).0, f);
            client in after ==>
              client in TableOf(tables, f) && after[client].destination == TableOf(tables, f)[client].destination
  {
  }

  lemma AfterOk(setup: Setup, tables: Tables, step: Step)
    requires TablesOk(tables)
    ensures TablesOk(After(setup, tables, step))
  {
    forall f, client | client in TableOf(After(setup, tables, step), f)
      ensures |TableOf(After(setup, tables, step), f)[client].destination.ip| == AddressLength(f)
    {
      EntryAfter(setup, tables, step, f, client);
      if Redirects(setup, step, f, client) {
        ContextBasics(step.data);
      }
    }
    assert After(setup, tables, step).v4 == TableOf(After(setup, tables, step), IPv4);
    assert After(setup, tables, step).v6 == TableOf(After(setup, tables, step), IPv6);
  }

  function Run(setup: Setup, steps: seq<Step>): (tables: Tables)
    ensures TablesOk(tables)
  {
    if steps == [] then Tables(map[], map[])
    else
      AfterOk(setup, Run(setup, steps[..|steps| - 1]), steps[|steps| - 1]);
      After(setup, Run(setup, steps[..|steps| - 1]), steps[|steps| - 1])
  }

  /** The destination of the last redirected packet of a client endpoint. */
  function LastDestination(setup: Setup, steps: seq<Step>, f: Family, client: Endpoint): Option<Endpoint> {
    if steps == [] then None
    else
      var step := steps[|steps| - 1];
      if Redirects(setup, step, f, client) then Some(Parsed(step.data).destination)
      else LastDestination(setup, steps[..|steps| - 1], f, client)
  }

  /** Whatever the interleaving, a table entry names the client's last redirected destination. */
  lemma {:induction false} TableRemembersLast(setup: Setup, steps: seq<Step>, f: Family, client: Endpoint)
    requires client in TableOf(Run(setup, steps), f)
    ensures LastDestination(setup, steps, f, client) == Some(TableOf(Run(setup, steps), f)[client].destination)
  {
    if steps != [] {
      var init, step := steps[..|steps| - 1], steps[|steps| - 1];
      EntryAfter(setup, Run(setup, init), step, f, client);
      if !Redirects(setup, step, f, client) {
        TableRemembersLast(setup, init, f, client);
      }
    }
  }

  /**
   A rewritten response carries as its source exactly the destination of the client's last
   redirected request, still goes to that client, and is otherwise the same packet.
   */
  lemma ResponseRestoresDestination(setup: Setup, steps: seq<Step>, data: seq<byte>, now: nat)
    ensures var out := Reply(Run(setup, steps), data, true, setup.ports, now).1;
            out.disposition == Modified ==>
              && Parses(data) && Parses(out.data)
              && var f := DetectTcpFamily(data).value.family;
              && LastDestination(setup, steps, f, Parsed(data).destination) == Some(Parsed(out.data).client)
              && Parsed(out.data) == Parsed(data).(client := Parsed(out.data).client)
  {
    var tables := Run(setup, steps);
    if Reply(tables, data, true, setup.ports, now).1.disposition == Modified {
      var Detected(f, h) := DetectTcpFamily(data).value;
      var client := Parsed(data).destination;
      TableRemembersLast(setup, steps, f, client);
      var d := TableOf(tables, f)[client].destination;
      ResourcedParses(data, d.ip, d.port);
    }
  }

  /** A response changes only its source address and source port bytes. */
  lemma ResponseTouchesOnlySource(setup: Setup, steps: seq<Step>, data: seq<byte>, now: nat)
    ensures var out := Reply(Run(setup, steps), data, true, setup.ports, now).1;
            out.disposition == Modified ==>
              && Parses(data)
              && var Detected(f, h) := DetectTcpFamily(data).value;
              |out.data| == |data| && forall i :: 0 <= i < |data| && out.data[i] != data[i] ==>
                SourceAt(f) <= i < SourceAt(f) + AddressLength(f) || h <= i < h + 2
  {
    if Reply(Run(setup, steps), data, true, setup.ports, now).1.disposition == Modified {
      var Detected(f, h) := DetectTcpFamily(data).value;
      var d := TableOf(Run(setup, steps), f)[Parsed(data).destination].destination;
      ContextBasics(data);
      ResourcedTouchesOnly(data, f, h, d.ip, d.port);
    }
  }

  /** A redirect changes only destination address and port, and sends the packet to the client's own address. */
  lemma RedirectGoesToLocalPort(tables: Tables, data: seq<byte>, target: Port, now: nat)
    requires Parses(data)
    ensures var out := Redirect(tables, data, true, Some(target), now).1.data;
            var Detected(f, h) := DetectTcpFamily(data).value;
            && Parses(out)
            && Parsed(out) == Parsed(data).(destination := Endpoint(Parsed(data).client.ip, target))
            && |out| == |data| && forall i :: 0 <= i < |data| && out[i] != data[i] ==>
                 DestinationAt(f) <= i < DestinationAt(f) + AddressLength(f) || h + 2 <= i < h + 4
  {
    ContextBasics(data);
    var Detected(f, h) := DetectTcpFamily(data).value;
    RedirectedParses(data, Parsed(data).client.ip, target);
    RedirectedTouchesOnly(data, f, h, Parsed(data).client.ip, target);
  }

  lemma {:induction false} LastDestinationStays(setup: Setup, steps: seq<Step>, more: seq<Step>, f: Family,
                                                client: Endpoint)
    requires forall i :: 0 <= i < |more| ==> !Redirects(setup, more[i], f, client)
    ensures LastDestination(setup, steps + more, f, client) == LastDestination(setup, steps, f, client)
  {
    if more == [] {
      assert steps + more == steps;
    } else {
      var all := steps + more;
      assert all[..|all| - 1] == steps + more[..|more| - 1];
      LastDestinationStays(setup, steps, more[..|more| - 1], f, client);
    }
  }

  /**
   Request and reply compose to a conversation with the original destination.  Whatever happens
   in between, short of another redirect of that client, a reply that finds the mapping alive is
   rewritten so that the client sees it come from where it had sent its request.
   */
  lemma RoundTrip(setup: Setup, before: seq<Step>, request: Step, between: seq<Step>, reply: seq<byte>, now: nat)
    requires TargetOf(setup, request).Some? && Parses(reply)
    requires var Detected(f, _), client := DetectTcpFamily(reply).value, Parsed(request.data).client;
             && DetectTcpFamily(request.data).value.family == f
             && Parsed(reply).destination == client
             && Parsed(reply).client == Endpoint(client.ip, TargetOf(setup, request).value)
             && (forall i :: 0 <= i < |between| ==> !Redirects(setup, between[i], f, client))
             && var table := TableOf(Run(setup, before + [request] + between), f);
             client in table && table[client].expiresAt > now
    ensures var back := Reply(Run(setup, before + [request] + between), reply, true, setup.ports, now).1;
            && back.disposition == Modified && Parses(back.data)
            && Parsed(back.data).client == Parsed(request.data).destination
            && Parsed(back.data).destination == Parsed(request.data).client
  {
    var f, client := DetectTcpFamily(reply).value.family, Parsed(request.data).client;
    RequestIsLast(setup, before, request, between, f, client);
    TargetIsLocal(setup, request);
    ResponseIsModified(setup, before + [request] + between, reply, now);
    ResponseRestoresDestination(setup, before + [request] + between, reply, now);
  }

  lemma RequestIsLast(setup: Setup, before: seq<Step>, request: Step, between: seq<Step>, f: Family, client: Endpoint)
    requires Redirects(setup, request, f, client)
    requires forall i :: 0 <= i < |between| ==> !Redirects(setup, between[i], f, client)
    ensures LastDestination(setup, before + [request] + between, f, client) == Some(Parsed(request.data).destination)
  {
    var asked := before + [request];
    assert asked[|asked| - 1] == request;
    LastDestinationStays(setup, asked, between, f, client);
  }

  lemma TargetIsLocal(setup: Setup, step: Step)
    requires TargetOf(setup, step).Some?
    ensures TargetOf(setup, step).value in {setup.ports.proxy, setup.ports.tls, setup.ports.dns}
  {
  }

  /** A redirect promises its mapping a lifetime. */
  lemma RedirectIsAlive(setup: Setup, before: seq<Step>, request: Step)
    requires TargetOf(setup, request).Some?
    ensures var c, f := Parsed(request.data), DetectTcpFamily(request.data).value.family;
            LivesUntil(TableOf(Run(setup, before + [request]), f), c.client, Expiration(request.now, c.closing))
  {
    var asked := before + [request];
    assert asked[..|asked| - 1] == before;
  }

  lemma ResponseIsModified(setup: Setup, steps: seq<Step>, reply: seq<byte>, now: nat)
    requires Parses(reply) && Parsed(reply).client.port in {setup.ports.proxy, setup.ports.tls, setup.ports.dns}
    requires var table := TableOf(Run(setup, steps), DetectTcpFamily(reply).value.family);
             Parsed(reply).destination in table && table[Parsed(reply).destination].expiresAt > now
    ensures Reply(Run(setup, steps), reply, true, setup.ports, now).1.disposition == Modified
  {
  }

  // ----- a mapping survives until its lifetime ends

  /** A reply to the client that leaves its mapping with less than `until`: a closing one may. */
  predicate Shortens(step: Step, f: Family, client: Endpoint, until: nat) {
    && step.Response? && Parses(step.data) && DetectTcpFamily(step.data).value.family == f
    && Parsed(step.data).destination == client && Expiration(step.now, Parsed(step.data).closing) < until
  }

  ghost predicate LivesUntil(table: Table, client: Endpoint, until: nat) {
    client in table && table[client].expiresAt >= until
  }

  /** A step before `until` that neither redirects the client nor shortens its mapping leaves it alive. */
  predicate Harmless(setup: Setup, step: Step, f: Family, client: Endpoint, until: nat) {
    step.now < until && !Redirects(setup, step, f, client) && !Shortens(step, f, client, until)
  }

  lemma RedirectKeepsMapping(tables: Tables, data: seq<byte>, target: Option<Port>, now: nat, f: Family,
                             client: Endpoint, until: nat)
    requires target.Some? ==> Parses(data)
    requires LivesUntil(TableOf(tables, f), client, until)
    requires target.None? || DetectTcpFamily(data).value.family != f || Parsed(data).client != client
    ensures LivesUntil(TableOf(Redirect(tables, data, true, target, now).0, f), client, until)
  {
  }

  lemma ReplyKeepsMapping(ports: Ports, tables: Tables, data: seq<byte>, now: nat, f: Family, client: Endpoint,
                          until: nat)
    requires TablesOk(tables) && LivesUntil(TableOf(tables, f), client, until)
    requires now < until && !Shortens(Response(data, now), f, client, until)
    ensures LivesUntil(TableOf(Reply(tables, data, true, ports, now).0, f), client, until)
  {
  }

  lemma StepKeepsMapping(setup: Setup, tables: Tables, step: Step, f: Family, client: Endpoint, until: nat)
    requires TablesOk(tables) && LivesUntil(TableOf(tables, f), client, until)
    requires Harmless(setup, step, f, client, until)
    ensures LivesUntil(TableOf(After(setup, tables, step), f), client, until)
  {
    match step
    case Request(data, _, now) => RedirectKeepsMapping(tables, data, TargetOf(setup, step), now, f, client, until);
    case DnsTcp(data, now) => RedirectKeepsMapping(tables, data, TargetOf(setup, step), now, f, client, until);
    case Response(data, now) => ReplyKeepsMapping(setup.ports, tables, data, now, f, client, until);
    case Cleanup(now) =>
  }

  lemma RunKeepsMapping(setup: Setup, steps: seq<Step>, step: Step, f: Family, client: Endpoint, until: nat)
    requires LivesUntil(TableOf(Run(setup, steps), f), client, until) && Harmless(setup, step, f, client, until)
    ensures LivesUntil(TableOf(Run(setup, steps + [step]), f), client, until)
  {
    StepKeepsMapping(setup, Run(setup, steps), step, f, client, until);
    assert (steps + [step])[..|steps + [step]| - 1] == steps;
  }

  /** What every allowed step keeps, every run of allowed steps keeps. */
  lemma {:induction false} KeptAlong(kept: seq<Step> -> bool, allowed: Step -> bool, start: seq<Step>, more: seq<Step>)
    requires kept(start) && forall i :: 0 <= i < |more| ==> allowed(more[i])
    requires forall steps, step :: kept(steps) && allowed(step) ==> kept(steps + [step])
    ensures kept(start + more)
  {
    if more == [] {
      assert start + more == start;
    } else {
      var init, last := more[..|more| - 1], more[|more| - 1];
      KeptAlong(kept, allowed, start, init);
      assert start + more == start + init + [last];
    }
  }

  /** Whatever other traffic and cleanups come in between, a mapping lives as long as it was promised. */
  lemma MappingSurvives(setup: Setup, start: seq<Step>, more: seq<Step>, f: Family, client: Endpoint, until: nat)
    requires LivesUntil(TableOf(Run(setup, start), f), client, until)
    requires forall i :: 0 <= i < |more| ==> Harmless(setup, more[i], f, client, until)
    ensures LivesUntil(TableOf(Run(setup, start + more), f), client, until)
  {
    var kept := (steps: seq<Step>) => LivesUntil(TableOf(Run(setup, steps), f), client, until);
    var allowed := (step: Step) => Harmless(setup, step, f, client, until);
    forall steps, step | kept(steps) && allowed(step)
      ensures kept(steps + [step])
    {
      RunKeepsMapping(setup, steps, step, f, client, until);
    }
    KeptAlong(kept, allowed, start, more);
  }

  /**
   The conversation, from conditions on the run alone: any reply to a redirected request before
   its lifetime ends reaches the client as coming from the original destination.
   */
  lemma Conversation(setup: Setup, before: seq<Step>, request: Step, between: seq<Step>, reply: seq<byte>, now: nat)
    requires TargetOf(setup, request).Some? && Parses(reply)
    requires var f, c := DetectTcpFamily(request.data).value.family, Parsed(request.data);
             && DetectTcpFamily(reply).value.family == f && Parsed(reply).destination == c.client
             && Parsed(reply).client == Endpoint(c.client.ip, TargetOf(setup, request).value)
             && now < Expiration(request.now, c.closing)
             && (forall i :: 0 <= i < |between| ==>
                   Harmless(setup, between[i], f, c.client, Expiration(request.now, c.closing)))
    ensures var back := Reply(Run(setup, before + [request] + between), reply, true, setup.ports, now).1;
            && back.disposition == Modified && Parses(back.data)
            && Parsed(back.data).client == Parsed(request.data).destination
            && Parsed(back.data).destination == Parsed(request.data).client
  {
    var f, c := DetectTcpFamily(request.data).value.family, Parsed(request.data);
    var until := Expiration(request.now, c.closing);
    RedirectIsAlive(setup, before, request);
    MappingSurvives(setup, before + [request], between, f, c.client, until);
    RoundTrip(setup, before, request, between, reply, now);
  }

  /** A redirected packet that asks for no end gives its mapping 300 seconds, one that does 30. */
  function Lifetime(closing: bool): nat {
    if closing then 30 * 1_000_000_000 else 300 * 1_000_000_000
  }

  /** A reply to the client of a redirected packet, from the listener it went to. */
  predicate Replies(setup: Setup, request: Step, reply: seq<byte>)
    requires TargetOf(setup, request).Some?
  {
    && Parses(reply) && DetectTcpFamily(reply).value.family == DetectTcpFamily(request.data).value.family
    && Parsed(reply).destination == Parsed(request.data).client
    && Parsed(reply).client.port == TargetOf(setup, request).value
  }

  /** The first reply is rewritten exactly within the lifetime the redirected packet gave. */
  lemma ReplyWindow(setup: Setup, before: seq<Step>, request: Step, reply: seq<byte>, now: nat)
    requires TargetOf(setup, request).Some? && Replies(setup, request, reply)
    ensures Reply(Run(setup, before + [request]), reply, true, setup.ports, now).1.disposition == Modified <==>
            now < request.now + Lifetime(Parsed(request.data).closing)
  {
    var asked := before + [request];
    assert asked[..|asked| - 1] == before;
    TargetIsLocal(setup, request);
  }

  /** A rewritten reply starts the lifetime anew: the next one is rewritten exactly within it. */
  lemma ReplyProlongs(setup: Setup, before: seq<Step>, request: Step, first: Step, reply: seq<byte>, now: nat)
    requires TargetOf(setup, request).Some? && first.Response? && Replies(setup, request, first.data)
    requires Replies(setup, request, reply) && first.now < request.now + Lifetime(Parsed(request.data).closing)
    ensures var tables := Run(setup, before + [request] + [first]);
            Reply(tables, reply, true, setup.ports, now).1.disposition == Modified <==>
            now < first.now + Lifetime(Parsed(first.data).closing)
  {
    var asked := before + [request];
    assert asked[..|asked| - 1] == before;
    assert (asked + [first])[..|asked + [first]| - 1] == asked;
    TargetIsLocal(setup, request);
    var f, client := DetectTcpFamily(request.data).value.family, Parsed(request.data).client;
    assert client in TableOf(Run(setup, asked), f);
    var expires := Expiration(first.now, Parsed(first.data).closing);
    Nat.TouchAnswersIff(TableOf(Run(setup, asked), f), client, first.now, expires);
    assert TableOf(Run(setup, asked + [first]), f)[client].expiresAt == expires;
  }

  // ----- the smallest conversation

  /** An IPv4 packet that opens a TCP connection: 20 bytes of IP header, 20 bytes of TCP header. */
  function SynPacket(from: Endpoint, to: Endpoint): (data: seq<byte>)
    requires |from.ip| == |to.ip| == 4
    ensures |data| == 40
  {
    [0x45, 0, 0, 40, 0, 0, 0, 0, 64, TCP, 0, 0] + from.ip + to.ip + PortBytes(from.port) + PortBytes(to.port)
    + [0, 0, 0, 0, 0, 0, 0, 0, 0x50, 0x02, 0, 0, 0, 0, 0, 0]
  }

  /** Where the fields of such a packet lie. */
  lemma SynPacketBytes(from: Endpoint, to: Endpoint)
    requires |from.ip| == |to.ip| == 4
    ensures var data := SynPacket(from, to);
            && data[0] == 0x45 && data[9] == TCP && data[32] == 0x50 && data[33] == 0x02
            && data[12..16] == from.ip && data[16..20] == to.ip
            && data[20..22] == PortBytes(from.port) && data[22..24] == PortBytes(to.port)
  {
  }

  lemma PortFrom(data: seq<byte>, at: nat, port: Port)
    requires at + 2 <= |data| && data[at..at + 2] == PortBytes(port)
    ensures PortAt(data, at) == port
  {
    assert data[at] == data[at..at + 2][0] && data[at + 1] == data[at..at + 2][1];
  }

  lemma ContextFrom(data: seq<byte>, from: Endpoint, to: Endpoint)
    requires |data| == 40 && data[0] == 0x45 && data[9] == TCP && data[32] == 0x50 && data[33] == 0x02
    requires data[12..16] == from.ip && data[16..20] == to.ip && PortAt(data, 20) == from.port
             && PortAt(data, 22) == to.port
    ensures DetectTcpFamily(data) == Some(Detected(IPv4, 20)) && Parses(data)
    ensures Parsed(data) == TcpContext(from, to, 20, true, false)
  {
    assert Holds(data, IPv4, 20) && SourceOf(data, IPv4, 20) == from && DestinationOf(data, IPv4, 20) == to;
  }

  lemma SynPacketParses(from: Endpoint, to: Endpoint)
    requires |from.ip| == |to.ip| == 4
    ensures var data := SynPacket(from, to);
            && DetectTcpFamily(data) == Some(Detected(IPv4, 20)) && Parses(data)
            && Parsed(data) == TcpContext(from, to, 20, true, false)
  {
    SynPacketBytes(from, to);
    PortFrom(SynPacket(from, to), 20, from.port);
    PortFrom(SynPacket(from, to), 22, to.port);
    ContextFrom(SynPacket(from, to), from, to);
  }

  /** A client opens a DNS-over-TCP connection to `server` and is answered as if by `server`. */
  lemma DnsConversation(setup: Setup, client: Endpoint, server: Endpoint, now: nat)
    requires |client.ip| == |server.ip| == 4 && server.port == 53 && client.port != setup.ports.dns
    ensures var request := DnsTcp(SynPacket(client, server), now);
            var reply := SynPacket(Endpoint(client.ip, setup.ports.dns), client);
            var back := Reply(Run(setup, [request]), reply, true, setup.ports, now).1;
            back.disposition == Modified && Parses(back.data)
            && Parsed(back.data).client == server && Parsed(back.data).destination == client
  {
    SynPacketParses(client, server);
    SynPacketParses(Endpoint(client.ip, setup.ports.dns), client);
    var request := DnsTcp(SynPacket(client, server), now);
    assert [] + [request] + [] == [request];
    Conversation(setup, [], request, [], SynPacket(Endpoint(client.ip, setup.ports.dns), client), now);
  }

  // ----- fake addresses are always captured

  /** A TCP packet to a live fake address is redirected and remembered. */
  lemma LiveMappingIsRedirected(setup: Setup, tables: Tables, pool: Pool, b: Bounds, data: seq<byte>, now: nat)
    requires Parses(data) && PoolOk(pool, b) && HasAddresses(b)
    requires var f := DetectTcpFamily(data).value.family;
             && (forall ip: nat :: Within(b, ip) ==>
                   if f.IPv4? then Cidr.Contains(setup.capture.range4, Rules.BITS4, ip)
                   else Cidr.Contains(setup.capture.range6, Rules.BITS6, ip))
    requires Lookup(pool, BigEndian(Parsed(data).destination.ip), now).Some?
    requires Parsed(data).destination.port != setup.ports.proxy && Parsed(data).destination.port != setup.ports.tls
    ensures var step := Request(data, Lookup(pool, BigEndian(Parsed(data).destination.ip), now).Some?, now);
            var c := Parsed(data);
            var f := DetectTcpFamily(data).value.family;
            && TargetOf(setup, step) == Some(if c.destination.port == 443 then setup.ports.tls else setup.ports.proxy)
            && var (after, out) := Redirect(tables, data, true, TargetOf(setup, step), now);
            && out.disposition == Modified && !out.outbound
            && TableOf(after, f) == TableOf(tables, f)[c.client := NatEntry(c.destination, Expiration(now, c.closing))]
  {
    PrunedOk(pool, b, now);
  }
}
