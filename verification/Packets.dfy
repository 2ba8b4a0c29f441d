/**
 TCP packet bytes: finding the headers and rewriting addresses and ports
 (src/traffic/shared/family, src/traffic/shared/intercept/tcp.rs).

 Header layouts follow section 3.1 of RFC 791, section 3 of RFC 8200 and section 3.1 of RFC 9293.
 */
module Packets {
  import opened Basics
  import opened Nat

  datatype Family = IPv4 | IPv6

  const TCP: byte := 6

  function SourceAt(f: Family): nat {
    if f.IPv4? then 12 else 8
  }

  function DestinationAt(f: Family): nat {
    if f.IPv4? then 16 else 24
  }

  function AddressLength(f: Family): nat {
    if f.IPv4? then 4 else 16
  }

  /** `Ipv4HeaderSlice::from_slice` accepting a TCP packet: its header length. */
  function Ipv4TcpHeader(data: seq<byte>): Option<nat> {
    if |data| >= 20 && data[0] / 16 == 4 && data[0] % 16 >= 5 && |data| >= data[0] % 16 * 4 && data[9] == TCP
    then Some(data[0] % 16 * 4) else None
  }

  /** `Ipv6HeaderSlice::from_slice` accepting a TCP packet: its header length. */
  function Ipv6TcpHeader(data: seq<byte>): Option<nat> {
    if |data| >= 40 && data[0] / 16 == 6 && data[6] == TCP then Some(40) else None
  }

  datatype Detected = Detected(family: Family, ipHeaderLen: nat)

  function DetectTcpFamily(data: seq<byte>): Option<Detected> {
    match Ipv4TcpHeader(data)
    case Some(h) => Some(Detected(IPv4, h))
    case None => match Ipv6TcpHeader(data) case Some(h) => Some(Detected(IPv6, h)) case None => None
  }

  function PortAt(data: seq<byte>, at: nat): Port
    requires at + 2 <= |data|
  {
    (data[at] as int) * 256 + data[at + 1]
  }

  function PortBytes(port: Port): seq<byte> {
    [port / 256, port % 256]
  }

  predicate Holds(data: seq<byte>, f: Family, h: nat) {
    DestinationAt(f) + AddressLength(f) <= h && h + 20 <= |data|
  }

  function SourceOf(data: seq<byte>, f: Family, h: nat): Endpoint
    requires Holds(data, f, h)
  {
    Endpoint(data[SourceAt(f)..SourceAt(f) + AddressLength(f)], PortAt(data, h))
  }

  function DestinationOf(data: seq<byte>, f: Family, h: nat): Endpoint
    requires Holds(data, f, h)
  {
    Endpoint(data[DestinationAt(f)..DestinationAt(f) + AddressLength(f)], PortAt(data, h + 2))
  }

  datatype TcpContext = TcpContext(client: Endpoint, destination: Endpoint, tcpHeaderLen: nat, syn: bool, closing: bool)

  /**
   `tcp_packet_context`: source and destination endpoints and the TCP flags.  `Holds` is the length
   test of the source; a detected header is always long enough to contain both addresses.
   */
  function Context(data: seq<byte>, f: Family, h: nat): Option<TcpContext> {
    if !Holds(data, f, h) then None
    else
      var tcpLen := data[h + 12] / 16 * 4;
      if tcpLen < 20 || |data| - h < tcpLen then None
      else
        var flags := data[h + 13];
        Some(TcpContext(SourceOf(data, f, h), DestinationOf(data, f, h), tcpLen, flags / 2 % 2 == 1,
                        flags % 2 == 1 || flags / 4 % 2 == 1))
  }

  // ----- writing

  function Overwritten(data: seq<byte>, at: nat, bytes: seq<byte>): (r: seq<byte>)
    requires at + |bytes| <= |data|
    ensures |r| == |data|
    ensures forall i :: 0 <= i < |data| ==> r[i] == if at <= i < at + |bytes| then bytes[i - at] else data[i]
  {
    data[..at] + bytes + data[at + |bytes|..]
  }

  /** `copy_from_slice` into a packet. */
  method CopyInto(data: array<byte>, at: nat, bytes: seq<byte>)
    requires at + |bytes| <= data.Length
    modifies data
    ensures data[..] == Overwritten(old(data[..]), at, bytes)
  {
    ghost var before := data[..];
    for i := 0 to |bytes|
      invariant forall k :: 0 <= k < data.Length ==>
                  data[k] == if at <= k < at + i then bytes[k - at] else before[k]
    {
      data[at + i] := bytes[i];
    }
    assert data[..] == Overwritten(before, at, bytes);
  }

  /** The packet after its destination became `to`. */
  function Redirected(data: seq<byte>, f: Family, h: nat, ip: seq<byte>, port: Port): seq<byte>
    requires |ip| == AddressLength(f) && DestinationAt(f) + AddressLength(f) <= |data| && h + 4 <= |data|
  {
    Overwritten(Overwritten(data, DestinationAt(f), ip), h + 2, PortBytes(port))
  }

  /** The packet after its source became `from`. */
  function Resourced(data: seq<byte>, f: Family, h: nat, ip: seq<byte>, port: Port): seq<byte>
    requires |ip| == AddressLength(f) && SourceAt(f) + AddressLength(f) <= |data| && h + 4 <= |data|
  {
    Overwritten(Overwritten(data, SourceAt(f), ip), h, PortBytes(port))
  }

  method RewriteDestination(data: array<byte>, f: Family, h: nat, ip: seq<byte>, port: Port)
    requires Holds(data[..], f, h) && |ip| == AddressLength(f)
    modifies data
    ensures data[..] == Redirected(old(data[..]), f, h, ip, port)
  {
    CopyInto(data, DestinationAt(f), ip);
    CopyInto(data, h + 2, PortBytes(port));
  }

  method RewriteSource(data: array<byte>, f: Family, h: nat, ip: seq<byte>, port: Port)
    requires Holds(data[..], f, h) && |ip| == AddressLength(f)
    modifies data
    ensures data[..] == Resourced(old(data[..]), f, h, ip, port)
  {
    CopyInto(data, SourceAt(f), ip);
    CopyInto(data, h, PortBytes(port));
  }

  lemma ContextBasics(data: seq<byte>)
    requires DetectTcpFamily(data).Some?
    ensures var d := DetectTcpFamily(data).value;
            && DestinationAt(d.family) + AddressLength(d.family) <= d.ipHeaderLen <= |data|
            && (Context(data, d.family, d.ipHeaderLen).Some? ==>
                  var c := Context(data, d.family, d.ipHeaderLen).value;
                  && |data| >= d.ipHeaderLen + 20
                  && |c.client.ip| == |c.destination.ip| == AddressLength(d.family))
  {
  }

  /** A packet that can be rewritten: a TCP packet with a complete TCP header. */
  predicate Parses(data: seq<byte>) {
    DetectTcpFamily(data).Some?
      && Context(data, DetectTcpFamily(data).value.family, DetectTcpFamily(data).value.ipHeaderLen).Some?
  }

  function Parsed(data: seq<byte>): TcpContext
    requires Parses(data)
  {
    Context(data, DetectTcpFamily(data).value.family, DetectTcpFamily(data).value.ipHeaderLen).value
  }

  lemma PortRoundTrip(data: seq<byte>, at: nat, port: Port)
    requires at + 2 <= |data|
    ensures PortAt(Overwritten(data, at, PortBytes(port)), at) == port
  {
    var r := Overwritten(data, at, PortBytes(port));
    assert r[at] == PortBytes(port)[0] && r[at + 1] == PortBytes(port)[1];
  }

  /** Bytes before the addresses and from the sequence number on decide how a packet parses. */
  lemma SameHeaders(data: seq<byte>, after: seq<byte>)
    requires Parses(data) && |after| == |data|
    requires var d := DetectTcpFamily(data).value;
             forall i :: 0 <= i < |data| && (i < SourceAt(d.family) || d.ipHeaderLen + 4 <= i) ==> after[i] == data[i]
    ensures DetectTcpFamily(after) == DetectTcpFamily(data) && Parses(after)
    ensures var a, b := Parsed(after), Parsed(data);
            a.tcpHeaderLen == b.tcpHeaderLen && a.syn == b.syn && a.closing == b.closing
  {
    ContextBasics(data);
    assert after[0] == data[0] && after[6] == data[6];
  }

  lemma RedirectedEndpoints(data: seq<byte>, f: Family, h: nat, ip: seq<byte>, port: Port)
    requires Holds(data, f, h) && |ip| == AddressLength(f)
    ensures var after := Redirected(data, f, h, ip, port);
            SourceOf(after, f, h) == SourceOf(data, f, h) && DestinationOf(after, f, h) == Endpoint(ip, port)
  {
    var after := Redirected(data, f, h, ip, port);
    PortRoundTrip(Overwritten(data, DestinationAt(f), ip), h + 2, port);
    var s, t, n := SourceAt(f), DestinationAt(f), AddressLength(f);
    assert after[s..s + n] == data[s..s + n];
    assert after[t..t + n] == ip;
  }

  lemma ResourcedEndpoints(data: seq<byte>, f: Family, h: nat, ip: seq<byte>, port: Port)
    requires Holds(data, f, h) && |ip| == AddressLength(f)
    ensures var after := Resourced(data, f, h, ip, port);
            SourceOf(after, f, h) == Endpoint(ip, port) && DestinationOf(after, f, h) == DestinationOf(data, f, h)
  {
    var after := Resourced(data, f, h, ip, port);
    PortRoundTrip(Overwritten(data, SourceAt(f), ip), h, port);
    var s, t, n := SourceAt(f), DestinationAt(f), AddressLength(f);
    assert after[s..s + n] == ip;
    assert after[t..t + n] == data[t..t + n];
  }

  /** Redirecting changes the destination endpoint of a packet and nothing else that is parsed. */
  lemma RedirectedParses(data: seq<byte>, ip: seq<byte>, port: Port)
    requires Parses(data) && |ip| == AddressLength(DetectTcpFamily(data).value.family)
    ensures var d := DetectTcpFamily(data).value;
            var after := Redirected(data, d.family, d.ipHeaderLen, ip, port);
            && DetectTcpFamily(after) == Some(d) && Parses(after)
            && Parsed(after) == Parsed(data).(destination := Endpoint(ip, port))
  {
    var Detected(f, h) := DetectTcpFamily(data).value;
    SameHeaders(data, Redirected(data, f, h, ip, port));
    RedirectedEndpoints(data, f, h, ip, port);
  }

  /** Rewriting the source changes the source endpoint of a packet and nothing else that is parsed. */
  lemma ResourcedParses(data: seq<byte>, ip: seq<byte>, port: Port)
    requires Parses(data) && |ip| == AddressLength(DetectTcpFamily(data).value.family)
    ensures var d := DetectTcpFamily(data).value;
            var after := Resourced(data, d.family, d.ipHeaderLen, ip, port);
            && DetectTcpFamily(after) == Some(d) && Parses(after)
            && Parsed(after) == Parsed(data).(client := Endpoint(ip, port))
  {
    var Detected(f, h) := DetectTcpFamily(data).value;
    SameHeaders(data, Resourced(data, f, h, ip, port));
    ResourcedEndpoints(data, f, h, ip, port);
  }

  /** The bytes a redirect may touch. */
  lemma RedirectedTouchesOnly(data: seq<byte>, f: Family, h: nat, ip: seq<byte>, port: Port)
    requires |ip| == AddressLength(f) && DestinationAt(f) + AddressLength(f) <= |data| && h + 4 <= |data|
    ensures var after := Redirected(data, f, h, ip, port);
            |after| == |data| && forall i :: 0 <= i < |data| && after[i] != data[i] ==>
              DestinationAt(f) <= i < DestinationAt(f) + AddressLength(f) || h + 2 <= i < h + 4
  {
  }

  /** The bytes a source rewrite may touch. */
  lemma ResourcedTouchesOnly(data: seq<byte>, f: Family, h: nat, ip: seq<byte>, port: Port)
    requires |ip| == AddressLength(f) && SourceAt(f) + AddressLength(f) <= |data| && h + 4 <= |data|
    ensures var after := Resourced(data, f, h, ip, port);
            |after| == |data| && forall i :: 0 <= i < |data| && after[i] != data[i] ==>
              SourceAt(f) <= i < SourceAt(f) + AddressLength(f) || h <= i < h + 2
  {
  }
}
