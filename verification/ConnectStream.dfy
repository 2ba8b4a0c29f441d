/** Sniffing a CONNECT stream without losing bytes (src/gateway/handlers/proxy_entry.rs). */
module ConnectStream {
  import opened Basics
  import Sniff

  const TLS_HANDSHAKE_RECORD_TYPE: byte := 0x16
  const TLS_LEGACY_VERSION_MAJOR: byte := 0x03
  const CONNECT_PEEK_BYTES: nat := 2
  const COPY_BUFFER: nat := 8192

  function Min(a: nat, b: nat): nat {
    if a < b then a else b
  }

  /** The client's side of the connection: bytes still to come, in whatever pieces the network makes. */
  class ByteStream {
    var pending: seq<byte>

    constructor (bytes: seq<byte>)
      ensures pending == bytes
    {
      pending := bytes;
    }

    /** One read into a buffer of `max` bytes when the network offers at most `offer`; empty means end of stream. */
    method Read(max: nat, offer: nat) returns (bytes: seq<byte>)
      requires offer > 0
      modifies this
      ensures bytes + pending == old(pending)
      ensures |bytes| <= max && (bytes == [] <==> max == 0 || old(pending) == [])
    {
      var n := Min(max, Min(offer, |pending|));
      bytes := pending[..n];
      pending := pending[n..];
    }
  }

  predicate LooksLikeTls(prefix: seq<byte>) {
    || (|prefix| >= 2 && prefix[0] == TLS_HANDSHAKE_RECORD_TYPE && prefix[1] == TLS_LEGACY_VERSION_MAJOR)
    || prefix == [TLS_HANDSHAKE_RECORD_TYPE]
  }

  /** The bytes a sniff takes: as many as it peeks for, fewer only if the stream ends first. */
  function Peeked(stream: seq<byte>): seq<byte> {
    stream[..Min(CONNECT_PEEK_BYTES, |stream|)]
  }

  /** A stream opens TLS by its first two bytes, or is nothing but the first of them. */
  predicate OpensTls(stream: seq<byte>) {
    |stream| >= 1 && stream[0] == 0x16 && (|stream| == 1 || stream[1] == 0x03)
  }

  lemma TlsIff(stream: seq<byte>)
    ensures LooksLikeTls(Peeked(stream)) <==> OpensTls(stream)
  {
  }

  /** Every well-formed ClientHello opens TLS, and nothing does that starts with another byte. */
  lemma ClientHelloOpensTls(m: Sniff.ClientHello, rest: seq<byte>)
    requires Sniff.HelloOk(m)
    ensures OpensTls(Sniff.Encode(m) + rest)
  {
    Sniff.EncodeSplits(m, rest);
  }

  /** `offers(i)` is what the network has ready at the i-th read. */
  method SniffConnectStream(stream: ByteStream, offers: nat -> nat) returns (prefix: seq<byte>, isTls: bool)
    requires forall i :: offers(i) > 0
    modifies stream
    ensures prefix == Peeked(old(stream.pending)) && prefix + stream.pending == old(stream.pending)
    ensures isTls <==> LooksLikeTls(Peeked(old(stream.pending)))
    ensures isTls <==> OpensTls(old(stream.pending))
  {
    TlsIff(stream.pending);
    var buffer := new byte[CONNECT_PEEK_BYTES](_ => 0);
    var bytesRead, i := 0, 0;
    while bytesRead < CONNECT_PEEK_BYTES
      invariant bytesRead <= CONNECT_PEEK_BYTES == buffer.Length
      invariant buffer[..bytesRead] + stream.pending == old(stream.pending)
      decreases CONNECT_PEEK_BYTES - bytesRead
    {
      var bytes := stream.Read(CONNECT_PEEK_BYTES - bytesRead, offers(i));
      i := i + 1;
      if bytes == [] {
        break;
      }
      ghost var filled := buffer[..bytesRead];
      Fill(buffer, bytesRead, bytes);
      assert buffer[..bytesRead + |bytes|] + stream.pending == filled + (bytes + stream.pending);
      bytesRead := bytesRead + |bytes|;
    }
    prefix := buffer[..bytesRead];
    isTls := LooksLikeTls(prefix);
  }

  method Fill(buffer: array<byte>, at: nat, bytes: seq<byte>)
    requires at + |bytes| <= buffer.Length
    modifies buffer
    ensures buffer[..at + |bytes|] == old(buffer[..at]) + bytes
  {
    for k := 0 to |bytes|
      invariant buffer[..at + k] == old(buffer[..at]) + bytes[..k]
    {
      buffer[at + k] := bytes[k];
      assert buffer[..at + k + 1] == buffer[..at + k] + [bytes[k]];
    }
  }

  /** `PrefixedIo`: the peeked bytes first, then the stream. */
  class PrefixedIo {
    const inner: ByteStream
    const prefix: seq<byte>
    var offset: nat

    constructor (inner: ByteStream, prefix: seq<byte>)
      ensures Valid() && this.inner == inner && this.prefix == prefix && Undelivered() == prefix + inner.pending
    {
      this.inner, this.prefix, offset := inner, prefix, 0;
    }

    ghost predicate Valid()
      reads this
    {
      offset <= |prefix|
    }

    ghost function Undelivered(): seq<byte>
      requires Valid()
      reads this, inner
    {
      prefix[offset..] + inner.pending
    }

    /** One poll with `remaining` bytes of buffer; `offer` is absent while the network has nothing. */
    method PollRead(remaining: nat, offer: Option<nat>) returns (ready: bool, bytes: seq<byte>)
      requires Valid() && (offer.Some? ==> offer.value > 0)
      modifies this, inner
      ensures Valid() && bytes + Undelivered() == old(Undelivered())
      ensures |bytes| <= remaining && (!ready ==> bytes == [] && offer.None?)
      ensures ready && remaining > 0 && bytes == [] ==> Undelivered() == []
    {
      if offset < |prefix| && remaining > 0 {
        var rest := prefix[offset..];
        var toCopy := Min(|rest|, remaining);
        bytes := rest[..toCopy];
        offset := offset + toCopy;
        return true, bytes;
      }
      if offer.None? {
        return false, [];
      }
      bytes := inner.Read(remaining, offer.value);
      ready := true;
      assert remaining > 0 ==> prefix[offset..] == [];
      assert remaining == 0 ==> bytes == [];
    }
  }

  datatype Poll = Poll(remaining: nat, offer: Option<nat>)

  predicate PollsOk(polls: seq<Poll>) {
    forall i :: 0 <= i < |polls| ==> (polls[i].offer.Some? ==> polls[i].offer.value > 0)
  }

  /** A poll with room in the buffer while the network has something, or has ended. */
  predicate Productive(poll: Poll) {
    poll.remaining > 0 && poll.offer.Some?
  }

  function ProductivePolls(polls: seq<Poll>): nat {
    if polls == [] then 0
    else ProductivePolls(polls[..|polls| - 1]) + if Productive(polls[|polls| - 1]) then 1 else 0
  }

  lemma OneMorePoll(polls: seq<Poll>, i: nat)
    requires i < |polls|
    ensures ProductivePolls(polls[..i + 1]) == ProductivePolls(polls[..i]) + if Productive(polls[i]) then 1 else 0
  {
    assert polls[..i + 1][..i] == polls[..i];
  }

  /** One poll of a reader that keeps what it got. */
  method ReadOnce(io: PrefixedIo, delivered: seq<byte>, poll: Poll) returns (delivered': seq<byte>, ended: bool)
    requires io.Valid() && (poll.offer.Some? ==> poll.offer.value > 0)
    modifies io, io.inner
    ensures io.Valid() && delivered' + io.Undelivered() == delivered + old(io.Undelivered())
    ensures ended ==> io.Undelivered() == []
    ensures |delivered'| >= |delivered| && (Productive(poll) && !ended ==> |delivered'| > |delivered|)
  {
    ghost var before := io.Undelivered();
    var ready, bytes := io.PollRead(poll.remaining, poll.offer);
    Regroup(delivered, bytes, io.Undelivered());
    return delivered + bytes, ready && poll.remaining > 0 && bytes == [];
  }

  lemma Regroup(a: seq<byte>, b: seq<byte>, c: seq<byte>)
    ensures a + (b + c) == a + b + c
  {
  }

  /**
   Any sequence of reader buffer sizes and network offers; `ended` tells that a poll with room
   came back ready and empty.  A reader that meets the end has everything, and one that polls
   often enough meets it.
   */
  method ReadAll(io: PrefixedIo, polls: seq<Poll>) returns (delivered: seq<byte>, ended: bool)
    requires io.Valid() && PollsOk(polls)
    modifies io, io.inner
    ensures io.Valid() && delivered + io.Undelivered() == old(io.Undelivered())
    ensures ended ==> delivered == old(io.Undelivered())
    ensures ended || |delivered| >= ProductivePolls(polls)
    ensures ProductivePolls(polls) > |old(io.Undelivered())| ==> ended
  {
    delivered, ended := [], false;
    ghost var whole := io.Undelivered();
    var i := 0;
    while i < |polls| && !ended
      invariant i <= |polls| && io.Valid() && delivered + io.Undelivered() == whole
      invariant ended ==> io.Undelivered() == []
      invariant !ended ==> |delivered| >= ProductivePolls(polls[..i])
    {
      OneMorePoll(polls, i);
      delivered, ended := ReadOnce(io, delivered, polls[i]);
      i := i + 1;
    }
    assert !ended ==> polls[..i] == polls;
  }

  /** One read of a copy loop: what arrived is passed on, and an empty read closes the direction. */
  method CopyOnce(from: ByteStream, to: seq<byte>, offer: nat) returns (to': seq<byte>, open: bool)
    requires offer > 0
    modifies from
    ensures to' + from.pending == to + old(from.pending)
    ensures open ==> |from.pending| < |old(from.pending)|
    ensures !open ==> from.pending == [] && to' == to + old(from.pending)
  {
    ghost var before := from.pending;
    var bytes := from.Read(COPY_BUFFER, offer);
    assert to + before == (to + bytes) + from.pending;
    assert from.pending == [] ==> (to + bytes) + from.pending == to + bytes;
    return to + bytes, bytes != [];
  }

  /**
   `proxy_tunnel`: the peeked bytes, then both directions until both have ended.  `up(i)` says
   which direction is served in the i-th turn while both are open.
   */
  method ProxyTunnel(downstream: ByteStream, upstream: ByteStream, prefix: seq<byte>, offers: nat -> nat,
                     up: nat -> bool)
    returns (toUpstream: seq<byte>, toDownstream: seq<byte>)
    requires downstream != upstream && forall i :: offers(i) > 0
    modifies downstream, upstream
    ensures toUpstream == prefix + old(downstream.pending) && downstream.pending == []
    ensures toDownstream == old(upstream.pending) && upstream.pending == []
  {
    toUpstream, toDownstream := [], [];
    if prefix != [] {
      toUpstream := toUpstream + prefix;
    }
    var i, upOpen, downOpen := 0, true, true;
    while upOpen || downOpen
      invariant toUpstream + downstream.pending == prefix + old(downstream.pending)
      invariant toDownstream + upstream.pending == old(upstream.pending)
      invariant !upOpen ==> downstream.pending == []
      invariant !downOpen ==> upstream.pending == []
      decreases (if upOpen then 1 else 0) + (if downOpen then 1 else 0) + |downstream.pending| + |upstream.pending|
    {
      if upOpen && (up(i) || !downOpen) {
        toUpstream, upOpen := CopyOnce(downstream, toUpstream, offers(i));
      } else {
        toDownstream, downOpen := CopyOnce(upstream, toDownstream, offers(i));
      }
      i := i + 1;
    }
    assert toUpstream + downstream.pending == toUpstream && toDownstream + upstream.pending == toDownstream;
  }

  /**
   `handle_upgraded_connect`: sniff, then serve TLS or tunnel.  What the TLS server has read, or
   the upstream has received, is the client's own stream from its first byte, and all of it once
   the reader has met the end.
   */
  method HandleUpgradedConnect(stream: ByteStream, upstream: ByteStream, offers: nat -> nat, up: nat -> bool,
                               polls: seq<Poll>)
    returns (isTls: bool, received: seq<byte>, answered: seq<byte>, ended: bool)
    requires stream != upstream && (forall i :: offers(i) > 0) && PollsOk(polls)
    modifies stream, upstream
    ensures isTls <==> OpensTls(old(stream.pending))
    ensures received <= old(stream.pending)
    ensures ended ==> received == old(stream.pending)
    ensures ended || |received| >= ProductivePolls(polls)
    ensures !isTls || ProductivePolls(polls) > |old(stream.pending)| ==> ended
    ensures !isTls ==> answered == old(upstream.pending)
  {
    var prefix;
    prefix, isTls := SniffConnectStream(stream, offers);
    ghost var whole := prefix + stream.pending;
    if isTls {
      var io := new PrefixedIo(stream, prefix);
      received, ended := ReadAll(io, polls);
      assert received == (received + io.Undelivered())[..|received|];
      answered := [];
    } else {
      received, answered := ProxyTunnel(stream, upstream, prefix, offers, up);
      ended := true;
    }
    assert whole == old(stream.pending);
  }
}
