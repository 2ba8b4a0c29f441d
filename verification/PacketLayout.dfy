/**
 Packets given byte by byte, and what the interceptor reads in them.  Layouts follow section 3.1
 of RFC 791, section 3 of RFC 8200 and section 3.1 of RFC 9293; bytes that are not looked at are
 parameters, so they may be anything.
 */
module PacketLayout {
  import opened Basics
  import opened Nat
  import opened Packets
  import opened Intercept

  /** The flags that matter: FIN is the lowest bit, SYN the second, RST the third. */
  datatype Flags = Flags(fin: bool, syn: bool, rst: bool, others: nat)

  function Bit(b: bool): nat {
    if b then 1 else 0
  }

  function FlagByte(flags: Flags): byte
    requires flags.others < 32
  {
    8 * flags.others + 4 * Bit(flags.rst) + 2 * Bit(flags.syn) + Bit(flags.fin)
  }

  datatype Segment = Segment(from: Port, to: Port, numbers: seq<byte>, flags: Flags, window: seq<byte>,
                             options: seq<byte>, payload: seq<byte>)

  predicate SegmentOk(s: Segment) {
    |s.numbers| == 8 && s.flags.others < 32 && |s.window| == 6 && |s.options| % 4 == 0 && |s.options| <= 40
  }

  /** Two bytes, the high one first. */
  function TwoBytes(n: nat): (b: seq<byte>)
    requires n < 65536
    ensures |b| == 2 && 256 * (b[0] as int) + b[1] == n
  {
    [n / 256, n % 256]
  }

  function TcpHeader(s: Segment): (b: seq<byte>)
    requires SegmentOk(s)
    ensures |b| == 20
  {
    TwoBytes(s.from) + TwoBytes(s.to) + s.numbers + [16 * (5 + |s.options| / 4), FlagByte(s.flags)] + s.window
  }

  function EncSegment(s: Segment): (b: seq<byte>)
    requires SegmentOk(s)
    ensures |b| == 20 + |s.options| + |s.payload|
  {
    TcpHeader(s) + (s.options + s.payload)
  }

  /** What the interceptor should read of a segment between two addresses. */
  function Expected(source: seq<byte>, destination: seq<byte>, s: Segment): TcpContext {
    TcpContext(Endpoint(source, s.from), Endpoint(destination, s.to), 20 + |s.options|, s.flags.syn,
               s.flags.fin || s.flags.rst)
  }

  // ----- IPv4: version 4 and header length, protocol 6, the addresses at 12 and 16

  datatype Ipv4Head = Ipv4Head(service: seq<byte>, checksum: seq<byte>, source: seq<byte>, destination: seq<byte>,
                               options: seq<byte>)

  predicate Ipv4HeadOk(h: Ipv4Head) {
    && |h.service| == 8 && |h.checksum| == 2 && |h.source| == 4 && |h.destination| == 4
    && |h.options| % 4 == 0 && |h.options| <= 40
  }

  function EncIpv4Head(h: Ipv4Head): (b: seq<byte>)
    requires Ipv4HeadOk(h)
    ensures |b| == 20 + |h.options|
  {
    [64 + 5 + |h.options| / 4] + h.service + [6] + h.checksum + h.source + h.destination + h.options
  }

  // ----- IPv6: version 6, next header 6, the addresses at 8 and 24

  datatype Ipv6Head = Ipv6Head(traffic: nat, flow: seq<byte>, hops: byte, source: seq<byte>, destination: seq<byte>)

  predicate Ipv6HeadOk(h: Ipv6Head) {
    h.traffic < 16 && |h.flow| == 5 && |h.source| == 16 && |h.destination| == 16
  }

  function EncIpv6Head(h: Ipv6Head): (b: seq<byte>)
    requires Ipv6HeadOk(h)
    ensures |b| == 40
  {
    [96 + h.traffic] + h.flow + [6, h.hops] + h.source + h.destination
  }

  // ----- reading them

  /** What a segment has at its offsets. */
  lemma SegmentBytes(s: Segment)
    requires SegmentOk(s)
    ensures var t := EncSegment(s);
            && 256 * (t[0] as int) + t[1] == s.from && 256 * (t[2] as int) + t[3] == s.to
            && t[12] == 16 * (5 + |s.options| / 4) && t[13] == FlagByte(s.flags)
  {
    var t, b := EncSegment(s), TcpHeader(s);
    assert t[..20] == b;
    assert b[0..2] == TwoBytes(s.from) && b[2..4] == TwoBytes(s.to);
    assert b[12] == 16 * (5 + |s.options| / 4) && b[13] == FlagByte(s.flags);
    assert t[0] == b[0] && t[1] == b[1] && t[2] == b[2] && t[3] == b[3] && t[12] == b[12] && t[13] == b[13];
    assert b[0] == b[0..2][0] && b[1] == b[0..2][1] && b[2] == b[2..4][0] && b[3] == b[2..4][1];
  }

  lemma LowestBit(n: nat, q: nat, bit: nat)
    requires n == 2 * q + bit && bit < 2
    ensures n / 2 == q && n % 2 == bit
  {
  }

  lemma FlagsRead(flags: Flags)
    requires flags.others < 32
    ensures var f := FlagByte(flags);
            (f / 2 % 2 == 1 <==> flags.syn) && (f % 2 == 1 <==> flags.fin) && (f / 4 % 2 == 1 <==> flags.rst)
  {
    var f, high := FlagByte(flags), 2 * flags.others + Bit(flags.rst);
    LowestBit(f, 2 * high + Bit(flags.syn), Bit(flags.fin));
    LowestBit(f / 2, high, Bit(flags.syn));
    LowestBit(high, flags.others, Bit(flags.rst));
    Quarter(f);
  }

  lemma Quarter(n: nat)
    ensures n / 4 == n / 2 / 2
  {
  }

  /** A segment behind an IP header of length `h` in `data`. */
  lemma ContextReads(data: seq<byte>, f: Family, h: nat, s: Segment, source: seq<byte>, destination: seq<byte>)
    requires SegmentOk(s) && DestinationAt(f) + AddressLength(f) <= h <= |data| && data[h..] == EncSegment(s)
    requires data[SourceAt(f)..SourceAt(f) + AddressLength(f)] == source
    requires data[DestinationAt(f)..DestinationAt(f) + AddressLength(f)] == destination
    ensures Context(data, f, h) == Some(Expected(source, destination, s))
  {
    var t := EncSegment(s);
    SegmentBytes(s);
    FlagsRead(s.flags);
    assert forall i :: 0 <= i < |t| ==> data[h + i] == data[h..][i];
    assert data[h] == t[0] && data[h + 1] == t[1] && data[h + 2] == t[2] && data[h + 3] == t[3];
    assert data[h + 12] == t[12] && data[h + 13] == t[13];
  }

  lemma Ipv4Bytes(h: Ipv4Head, rest: seq<byte>)
    requires Ipv4HeadOk(h)
    ensures var data := EncIpv4Head(h) + rest;
            && data[0] == 69 + |h.options| / 4 && data[9] == 6 && data[20 + |h.options|..] == rest
            && data[12..16] == h.source && data[16..20] == h.destination
  {
  }

  /** Every IPv4 TCP packet is read for what it is. */
  lemma Ipv4PacketReads(h: Ipv4Head, s: Segment)
    requires Ipv4HeadOk(h) && SegmentOk(s)
    ensures var data := EncIpv4Head(h) + EncSegment(s);
            && Parses(data) && DetectTcpFamily(data) == Some(Detected(IPv4, 20 + |h.options|))
            && Parsed(data) == Expected(h.source, h.destination, s)
  {
    var data := EncIpv4Head(h) + EncSegment(s);
    Ipv4Bytes(h, EncSegment(s));
    assert Ipv4TcpHeader(data) == Some(20 + |h.options|);
    ContextReads(data, IPv4, 20 + |h.options|, s, h.source, h.destination);
  }

  lemma Ipv6Bytes(h: Ipv6Head, rest: seq<byte>)
    requires Ipv6HeadOk(h)
    ensures var data := EncIpv6Head(h) + rest;
            && data[0] == 96 + h.traffic && data[6] == 6 && data[40..] == rest
            && data[8..24] == h.source && data[24..40] == h.destination
  {
  }

  /** Every IPv6 TCP packet without extension headers is read for what it is. */
  lemma Ipv6PacketReads(h: Ipv6Head, s: Segment)
    requires Ipv6HeadOk(h) && SegmentOk(s)
    ensures var data := EncIpv6Head(h) + EncSegment(s);
            && Parses(data) && DetectTcpFamily(data) == Some(Detected(IPv6, 40))
            && Parsed(data) == Expected(h.source, h.destination, s)
  {
    var data := EncIpv6Head(h) + EncSegment(s);
    Ipv6Bytes(h, EncSegment(s));
    assert Ipv4TcpHeader(data).None? && Ipv6TcpHeader(data) == Some(40);
    ContextReads(data, IPv6, 40, s, h.source, h.destination);
  }

  /** Nothing else is touched: other versions, other protocols and cut-off headers do not parse. */
  lemma OnlyTcpParses(data: seq<byte>)
    requires Parses(data)
    ensures |data| >= 40
    ensures data[0] / 16 == 4 || data[0] / 16 == 6
    ensures data[0] / 16 == 4 ==>
              data[0] % 16 >= 5 && data[9] == 6 && |data| >= 4 * (data[0] % 16) + data[4 * (data[0] % 16) + 12] / 16 * 4
              && data[4 * (data[0] % 16) + 12] / 16 >= 5
    ensures data[0] / 16 == 6 ==>
              data[6] == 6 && |data| >= 60 && |data| >= 40 + data[52] / 16 * 4 && data[52] / 16 >= 5
  {
  }

  /** Addresses are numbers with the first byte highest. */
  lemma AddressIs(a: byte, b: byte, c: byte, d: byte)
    ensures BigEndian([a, b, c, d]) == a * 16777216 + b * 65536 + c * 256 + d
  {
    assert [a, b, c, d][..3] == [a, b, c] && [a, b, c][..2] == [a, b] && [a, b][..1] == [a] && [a][..0] == [];
    assert BigEndian([a]) == a;
    assert BigEndian([a, b]) == a * 256 + b;
    assert BigEndian([a, b, c]) == a * 65536 + b * 256 + c;
  }

  lemma {:induction false} AddressGrows(bytes: seq<byte>, last: byte)
    ensures BigEndian(bytes + [last]) == 256 * BigEndian(bytes) + last
    ensures BigEndian(bytes) < Pow2(8 * |bytes|)
    decreases |bytes|
  {
    assert (bytes + [last])[..|bytes + [last]| - 1] == bytes;
    if bytes != [] {
      var init := bytes[..|bytes| - 1];
      AddressGrows(init, bytes[|bytes| - 1]);
      Pow2Add(8, 8 * |init|);
      assert Pow2(8) == 256;
    }
  }
}
