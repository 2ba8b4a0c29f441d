/** Reading the server name out of a TLS ClientHello (src/traffic/shared/sniff.rs). */
module Sniff {
  import opened Basics

  function U16(p: seq<byte>, at: nat): nat
    requires at + 1 < |p|
  {
    (p[at] as int) * 256 + p[at + 1]
  }

  /** The name in a server_name extension whose data starts at `at`, if its first entry is a host_name. */
  datatype Entry = Truncated | OtherKind | HostName(name: seq<byte>)

  function FirstEntry(p: seq<byte>, at: nat): Entry {
    if at + 2 >= |p| then Truncated
    else if p[at + 2] != 0 then OtherKind
    else if at + 4 >= |p| then Truncated
    else if at + 5 + U16(p, at + 3) > |p| then Truncated
    else HostName(p[at + 5..at + 5 + U16(p, at + 3)])
  }

  /** The extension loop: from `offset` up to `end`. */
  function Scan(p: seq<byte>, offset: nat, end: nat): Option<seq<byte>>
    decreases end - offset
  {
    if offset + 3 >= end || offset + 3 >= |p| then None
    else
      var next := offset + 4 + U16(p, offset + 2);
      if U16(p, offset) != 0 then Scan(p, next, end)
      else
        match FirstEntry(p, offset + 4)
        case Truncated => None
        case OtherKind => Scan(p, next, end)
        case HostName(name) => Some(name)
  }

  /** Where the extensions start and end, past the session id, cipher suites and compression methods. */
  function Extensions(p: seq<byte>): Option<(nat, nat)> {
    if |p| <= 43 || p[0] != 0x16 || p[1] != 0x03 || p[5] != 0x01 then None
    else
      var ciphers := 44 + p[43] as nat;
      if ciphers + 1 >= |p| then None
      else
        var compression := ciphers + 2 + U16(p, ciphers);
        if compression >= |p| then None
        else
          var extensions := compression + 1 + p[compression] as nat;
          if extensions + 1 >= |p| then None
          else Some((extensions + 2, extensions + 2 + U16(p, extensions)))
  }

  function Sni(p: seq<byte>): Option<seq<byte>> {
    match Extensions(p)
    case None => None
    case Some((start, end)) => Scan(p, start, end)
  }

  /** `extract_tls_sni`; `isUtf8` is the check of `String::from_utf8`. */
  method ExtractTlsSni(p: seq<byte>, isUtf8: seq<byte> -> bool) returns (r: Option<seq<byte>>)
    ensures r == match Sni(p) case Some(name) => (if isUtf8(name) then Some(name) else None) case None => None
  {
    if |p| <= 43 || p[0] != 0x16 || p[1] != 0x03 || p[5] != 0x01 {
      return None;
    }
    var offset: nat := 43;
    offset := offset + 1 + p[offset];
    if offset + 1 >= |p| {
      return None;
    }
    offset := offset + 2 + U16(p, offset);
    if offset >= |p| {
      return None;
    }
    offset := offset + 1 + p[offset];
    if offset + 1 >= |p| {
      return None;
    }
    var extLen := U16(p, offset);
    offset := offset + 2;
    var extEnd := offset + extLen;
    while offset + 3 < extEnd
      invariant Scan(p, offset, extEnd) == Sni(p)
      decreases extEnd - offset
    {
      if offset + 3 >= |p| {
        return None;
      }
      var extType, extDataLen := U16(p, offset), U16(p, offset + 2);
      offset := offset + 4;
      if extType == 0 {
        var sniOffset := offset + 2;
        if sniOffset >= |p| {
          return None;
        }
        if p[sniOffset] == 0 {
          sniOffset := sniOffset + 1;
          if sniOffset + 1 >= |p| {
            return None;
          }
          var nameLen := U16(p, sniOffset);
          sniOffset := sniOffset + 2;
          if sniOffset + nameLen > |p| {
            return None;
          }
          var name := p[sniOffset..sniOffset + nameLen];
          return if isUtf8(name) then Some(name) else None;
        }
      }
      offset := offset + extDataLen;
    }
    return None;
  }

  /** Only a handshake record whose message is a ClientHello, complete up to its random, has a name. */
  lemma NameNeedsClientHello(p: seq<byte>)
    ensures Sni(p).Some? ==> |p| > 43 && p[0] == 22 && p[1] == 3 && p[5] == 1
  {
  }

  // ----- answers on a prefix of the payload

  lemma {:induction false} ScanOfPrefix(q: seq<byte>, p: seq<byte>, offset: nat, end: nat)
    requires q <= p
    ensures Scan(q, offset, end) == None || Scan(q, offset, end) == Scan(p, offset, end)
    decreases end - offset
  {
    if offset + 3 < end && offset + 3 < |q| {
      assert U16(q, offset) == U16(p, offset) && U16(q, offset + 2) == U16(p, offset + 2);
      ScanOfPrefix(q, p, offset + 4 + U16(q, offset + 2), end);
      EntryOfPrefix(q, p, offset + 4);
    }
  }

  lemma EntryOfPrefix(q: seq<byte>, p: seq<byte>, at: nat)
    requires q <= p
    ensures FirstEntry(q, at) == Truncated || FirstEntry(q, at) == FirstEntry(p, at)
  {
    if FirstEntry(q, at).HostName? {
      var end := at + 5 + U16(q, at + 3);
      assert q[at + 5..end] == p[at + 5..end];
    }
  }

  /** Cutting the payload short can lose the answer but never change it. */
  lemma SniOfPrefix(q: seq<byte>, p: seq<byte>)
    requires q <= p
    ensures Sni(q) == None || Sni(q) == Sni(p)
  {
    if Extensions(q).Some? {
      assert Extensions(q) == Extensions(p);
      ScanOfPrefix(q, p, Extensions(q).value.0, Extensions(q).value.1);
    }
  }

  // ----- answers on well-formed messages

  datatype ServerName = ServerName(kind: byte, name: seq<byte>)

  /** Section 3 of RFC 6066 for type 0; any other extension is opaque here. */
  datatype Extension = ServerNames(entries: seq<ServerName>) | Other(kind: nat, data: seq<byte>)

  /** Section 4.1.2 of RFC 8446, in one record; messages of older clients may have no extensions field. */
  datatype ClientHello = ClientHello(minor: byte, version: seq<byte>, random: seq<byte>, sessionId: seq<byte>,
                                     ciphers: seq<byte>, compressions: seq<byte>, extensions: Option<seq<Extension>>)

  /** Two bytes, high byte first. */
  function Enc16(n: nat): (b: seq<byte>)
    requires n < 0x1_0000
    ensures |b| == 2 && U16(b, 0) == n
  {
    if n < 256 then [0, n] else
      var b := Enc16(n - 256);
      [b[0] + 1, b[1]]
  }

  predicate NameOk(e: ServerName) {
    |e.name| < 0x1_0000
  }

  function EncName(e: ServerName): seq<byte>
    requires NameOk(e)
  {
    [e.kind] + Enc16(|e.name|) + e.name
  }

  predicate NamesOk(es: seq<ServerName>) {
    forall i :: 0 <= i < |es| ==> NameOk(es[i])
  }

  function EncNames(es: seq<ServerName>): seq<byte>
    requires NamesOk(es)
  {
    if es == [] then [] else EncName(es[0]) + EncNames(es[1..])
  }

  /** A server name list has at least one entry, and every length fits its field. */
  predicate ExtensionOk(x: Extension) {
    match x
    case ServerNames(entries) => entries != [] && NamesOk(entries) && |EncNames(entries)| + 2 < 0x1_0000
    case Other(kind, data) => 0 < kind < 0x1_0000 && |data| < 0x1_0000
  }

  function ExtensionType(x: Extension): nat {
    match x case ServerNames(_) => 0 case Other(kind, _) => kind
  }

  function ExtensionData(x: Extension): (data: seq<byte>)
    requires ExtensionOk(x)
    ensures |data| < 0x1_0000
  {
    match x
    case ServerNames(entries) => Enc16(|EncNames(entries)|) + EncNames(entries)
    case Other(_, data) => data
  }

  function EncExtension(x: Extension): seq<byte>
    requires ExtensionOk(x)
  {
    Enc16(ExtensionType(x)) + Enc16(|ExtensionData(x)|) + ExtensionData(x)
  }

  predicate ExtensionsOk(xs: seq<Extension>) {
    forall i :: 0 <= i < |xs| ==> ExtensionOk(xs[i])
  }

  function EncExtensions(xs: seq<Extension>): seq<byte>
    requires ExtensionsOk(xs)
  {
    if xs == [] then [] else EncExtension(xs[0]) + EncExtensions(xs[1..])
  }

  predicate HelloOk(m: ClientHello) {
    && |m.version| == 2 && |m.random| == 32
    && |m.sessionId| < 256 && |m.ciphers| < 0x1_0000 && |m.compressions| < 256
    && (m.extensions.Some? ==> ExtensionsOk(m.extensions.value) && |EncExtensions(m.extensions.value)| < 0x1_0000)
    && |EncBody(m)| + 4 < 0x1_0000
  }

  /** Session id, cipher suites and compression methods. */
  function EncHead(session: seq<byte>, ciphers: seq<byte>, methods: seq<byte>): seq<byte>
    requires |session| < 256 && |ciphers| < 0x1_0000 && |methods| < 256
  {
    [|session|] + session + (Enc16(|ciphers|) + ciphers + ([|methods|] + methods))
  }

  function ExtensionsField(m: ClientHello): seq<byte>
    requires m.extensions.Some? ==> ExtensionsOk(m.extensions.value) && |EncExtensions(m.extensions.value)| < 0x1_0000
  {
    match m.extensions case None => [] case Some(xs) => Enc16(|EncExtensions(xs)|) + EncExtensions(xs)
  }

  /** The fields after the client random. */
  function EncFields(m: ClientHello): seq<byte>
    requires |m.sessionId| < 256 && |m.ciphers| < 0x1_0000 && |m.compressions| < 256
    requires m.extensions.Some? ==> ExtensionsOk(m.extensions.value) && |EncExtensions(m.extensions.value)| < 0x1_0000
  {
    EncHead(m.sessionId, m.ciphers, m.compressions) + ExtensionsField(m)
  }

  function EncBody(m: ClientHello): seq<byte>
    requires |m.version| == 2 && |m.random| == 32
    requires |m.sessionId| < 256 && |m.ciphers| < 0x1_0000 && |m.compressions| < 256
    requires m.extensions.Some? ==> ExtensionsOk(m.extensions.value) && |EncExtensions(m.extensions.value)| < 0x1_0000
  {
    m.version + m.random + EncFields(m)
  }

  /** Record header, handshake header, body. */
  function Encode(m: ClientHello): seq<byte>
    requires HelloOk(m)
  {
    var n := |EncBody(m)|;
    [0x16, 0x03, m.minor] + Enc16(n + 4) + [0x01, 0] + Enc16(n) + EncBody(m)
  }

  /** The host name of the first server_name extension whose first entry is a host_name. */
  function FirstHost(xs: seq<Extension>): Option<seq<byte>> {
    if xs == [] then None
    else if xs[0].ServerNames? && xs[0].entries != [] && xs[0].entries[0].kind == 0 then Some(xs[0].entries[0].name)
    else FirstHost(xs[1..])
  }

  function Expected(m: ClientHello): Option<seq<byte>> {
    match m.extensions case None => None case Some(xs) => FirstHost(xs)
  }

  /** `p` carries the bytes `b` at position `at`. */
  ghost predicate Has(p: seq<byte>, at: nat, b: seq<byte>) {
    at + |b| <= |p| && p[at..at + |b|] == b
  }

  lemma HasParts(p: seq<byte>, at: nat, a: seq<byte>, b: seq<byte>)
    requires Has(p, at, a + b)
    ensures Has(p, at, a) && Has(p, at + |a|, b)
  {
    var whole := p[at..at + |a + b|];
    assert p[at..at + |a|] == whole[..|a|];
    assert p[at + |a|..at + |a| + |b|] == whole[|a|..];
  }

  lemma HasU16(p: seq<byte>, at: nat, n: nat)
    requires n < 0x1_0000 && Has(p, at, Enc16(n))
    ensures U16(p, at) == n
  {
    var b := p[at..at + 2];
    assert p[at] == b[0] && p[at + 1] == b[1];
  }

  lemma HasByte(p: seq<byte>, at: nat, x: byte)
    requires Has(p, at, [x])
    ensures p[at] == x
  {
    assert p[at] == p[at..at + 1][0];
  }

  lemma HasExtension(p: seq<byte>, at: nat, x: Extension)
    requires ExtensionOk(x) && Has(p, at, EncExtension(x))
    ensures at + 4 <= |p| && U16(p, at) == ExtensionType(x) && U16(p, at + 2) == |ExtensionData(x)|
    ensures Has(p, at + 4, ExtensionData(x))
  {
    HasParts(p, at, Enc16(ExtensionType(x)) + Enc16(|ExtensionData(x)|), ExtensionData(x));
    HasParts(p, at, Enc16(ExtensionType(x)), Enc16(|ExtensionData(x)|));
    HasU16(p, at, ExtensionType(x));
    HasU16(p, at + 2, |ExtensionData(x)|);
  }

  lemma HasFirstName(p: seq<byte>, at: nat, es: seq<ServerName>)
    requires es != [] && NamesOk(es) && Has(p, at, EncNames(es))
    ensures var e := es[0];
            && at + 3 + |e.name| <= |p| && p[at] == e.kind && U16(p, at + 1) == |e.name|
            && p[at + 3..at + 3 + |e.name|] == e.name
  {
    var e := es[0];
    HasParts(p, at, EncName(e), EncNames(es[1..]));
    HasParts(p, at, [e.kind] + Enc16(|e.name|), e.name);
    HasParts(p, at, [e.kind], Enc16(|e.name|));
    HasByte(p, at, e.kind);
    HasU16(p, at + 1, |e.name|);
  }

  lemma FirstEntryAt(p: seq<byte>, at: nat, x: Extension)
    requires ExtensionOk(x) && x.ServerNames? && Has(p, at, ExtensionData(x))
    ensures FirstEntry(p, at) == if x.entries[0].kind == 0 then HostName(x.entries[0].name) else OtherKind
  {
    HasParts(p, at, Enc16(|EncNames(x.entries)|), EncNames(x.entries));
    HasFirstName(p, at + 2, x.entries);
  }

  /** One round of the loop over an extension that lies in full before `end`. */
  lemma ScanOne(p: seq<byte>, at: nat, x: Extension, next: nat, end: nat)
    requires ExtensionOk(x) && Has(p, at, EncExtension(x)) && next == at + 4 + |ExtensionData(x)| <= end
    ensures Scan(p, at, end) ==
            if x.ServerNames? && x.entries[0].kind == 0 then Some(x.entries[0].name) else Scan(p, next, end)
  {
    HasExtension(p, at, x);
    if x.ServerNames? {
      FirstEntryAt(p, at + 4, x);
    }
  }

  lemma {:induction false} ScanFinds(p: seq<byte>, at: nat, end: nat, xs: seq<Extension>)
    requires ExtensionsOk(xs) && Has(p, at, EncExtensions(xs)) && end == at + |EncExtensions(xs)|
    ensures Scan(p, at, end) == FirstHost(xs)
    decreases |xs|
  {
    if xs != [] {
      var x := xs[0];
      var next := at + 4 + |ExtensionData(x)|;
      HasParts(p, at, EncExtension(x), EncExtensions(xs[1..]));
      ScanOne(p, at, x, next, end);
      ScanFinds(p, next, end, xs[1..]);
    }
  }

  /** The cursor arithmetic of the reader, given the length bytes it meets. */
  lemma ExtensionsFrom(p: seq<byte>, session: nat, ciphers: nat, methods: nat)
    requires |p| > 43 && p[0] == 0x16 && p[1] == 0x03 && p[5] == 0x01 && p[43] == session
    requires 44 + session + 2 + ciphers < |p|
    requires U16(p, 44 + session) == ciphers && p[44 + session + 2 + ciphers] == methods
    ensures var at := 44 + session + 2 + ciphers + 1 + methods;
            Extensions(p) == if at + 1 >= |p| then None else Some((at + 2, at + 2 + U16(p, at)))
  {
  }

  /** The length bytes in front of the extensions field. */
  lemma HeadAt(p: seq<byte>, session: seq<byte>, ciphers: seq<byte>, methods: seq<byte>)
    requires |session| < 256 && |ciphers| < 0x1_0000 && |methods| < 256
    requires Has(p, 43, EncHead(session, ciphers, methods))
    ensures var a, b, c := |session|, |ciphers|, |methods|;
            |p| > 44 + a + 2 + b && p[43] == a && U16(p, 44 + a) == b && p[44 + a + 2 + b] == c
  {
    var one, two, three := [|session|] + session, Enc16(|ciphers|) + ciphers, [|methods|] + methods;
    HasParts(p, 43, one, two + three);
    HasParts(p, 43, [|session|], session);
    HasByte(p, 43, |session|);
    HasParts(p, 43 + |one|, two, three);
    HasParts(p, 43 + |one|, Enc16(|ciphers|), ciphers);
    HasU16(p, 43 + |one|, |ciphers|);
    HasParts(p, 43 + |one| + |two|, [|methods|], methods);
    HasByte(p, 43 + |one| + |two|, |methods|);
  }

  // ----- the bytes in front of the extensions field

  /** Record header, handshake header, version and random: 43 bytes. */
  function Preamble(m: ClientHello): (b: seq<byte>)
    requires HelloOk(m)
    ensures |b| == 43 && b[0] == 0x16 && b[1] == 0x03 && b[5] == 0x01
  {
    var n := |EncBody(m)|;
    [0x16, 0x03, m.minor] + Enc16(n + 4) + [0x01, 0] + Enc16(n) + m.version + m.random
  }

  /** Everything in front of the extensions field. */
  function Front(m: ClientHello): (b: seq<byte>)
    requires HelloOk(m)
    ensures |b| == 44 + |m.sessionId| + 2 + |m.ciphers| + 1 + |m.compressions|
  {
    Preamble(m) + EncHead(m.sessionId, m.ciphers, m.compressions)
  }

  lemma EncodeSplits(m: ClientHello, rest: seq<byte>)
    requires HelloOk(m)
    ensures Encode(m) + rest == Front(m) + (ExtensionsField(m) + rest)
  {
    var pre, head, field := Preamble(m), EncHead(m.sessionId, m.ciphers, m.compressions), ExtensionsField(m);
    assert Encode(m) == pre + (head + field);
    Regroup(pre, head, field);
    Regroup(pre + head, field, rest);
  }

  lemma Regroup(a: seq<byte>, b: seq<byte>, c: seq<byte>)
    ensures a + b + c == a + (b + c)
  {
  }

  /** From position `n` on, `p` is `tail`. */
  ghost predicate EndsIn(p: seq<byte>, n: nat, tail: seq<byte>) {
    n + |tail| == |p| && forall i {:trigger tail[i]} :: 0 <= i < |tail| ==> p[n + i] == tail[i]
  }

  /** The length bytes that lead the reader through a front of any content. */
  lemma FrontLengths(p: seq<byte>, pre: seq<byte>, session: seq<byte>, ciphers: seq<byte>, methods: seq<byte>,
                     tail: seq<byte>)
    requires |session| < 256 && |ciphers| < 0x1_0000 && |methods| < 256 && |pre| == 43
    requires p == pre + EncHead(session, ciphers, methods) + tail
    ensures var a, b, c := |session|, |ciphers|, |methods|;
            && |p| > 44 + a + 2 + b && p[43] == a && U16(p, 44 + a) == b && p[44 + a + 2 + b] == c
            && EndsIn(p, 44 + a + 2 + b + 1 + c, tail)
  {
    var head := EncHead(session, ciphers, methods);
    assert p[43..43 + |head|] == head;
    HeadAt(p, session, ciphers, methods);
  }

  /** The reader finds its way to the end of the front, whatever bytes are there. */
  lemma FrontReads(p: seq<byte>, session: nat, ciphers: nat, methods: nat, tail: seq<byte>)
    requires |p| > 43 && p[0] == 0x16 && p[1] == 0x03 && p[5] == 0x01 && p[43] == session
    requires 44 + session + 2 + ciphers < |p|
    requires U16(p, 44 + session) == ciphers && p[44 + session + 2 + ciphers] == methods
    requires EndsIn(p, 44 + session + 2 + ciphers + 1 + methods, tail)
    ensures var at := 44 + session + 2 + ciphers + 1 + methods;
            Extensions(p) == if |tail| < 2 then None else Some((at + 2, at + 2 + U16(tail, 0)))
  {
    ExtensionsFrom(p, session, ciphers, methods);
    U16Shift(p, 44 + session + 2 + ciphers + 1 + methods, tail, 0);
  }

  lemma U16Shift(p: seq<byte>, n: nat, tail: seq<byte>, at: nat)
    requires EndsIn(p, n, tail)
    ensures at + 1 < |tail| ==> U16(p, n + at) == U16(tail, at)
  {
    if at + 1 < |tail| {
      assert p[n + at] == tail[at] && p[n + (at + 1)] == tail[at + 1];
    }
  }

  // ----- the extensions field

  /** The reader's answer on the bytes after the compression methods. */
  function FieldSni(tail: seq<byte>): Option<seq<byte>> {
    if |tail| < 2 then None else Scan(tail, 2, 2 + U16(tail, 0))
  }

  /** The extension loop looks only at bytes from its offset on. */
  lemma {:induction false} ScanShift(p: seq<byte>, n: nat, tail: seq<byte>, offset: nat, end: nat)
    requires EndsIn(p, n, tail)
    ensures Scan(p, n + offset, n + end) == Scan(tail, offset, end)
    decreases end - offset
  {
    if offset + 3 < end && offset + 3 < |tail| {
      U16Shift(p, n, tail, offset);
      U16Shift(p, n, tail, offset + 2);
      EntryShift(p, n, tail, offset + 4);
      ScanShift(p, n, tail, offset + 4 + U16(tail, offset + 2), end);
    }
  }

  lemma EntryShift(p: seq<byte>, n: nat, tail: seq<byte>, at: nat)
    requires EndsIn(p, n, tail)
    ensures FirstEntry(p, n + at) == FirstEntry(tail, at)
  {
    if at + 2 < |tail| {
      assert p[n + (at + 2)] == tail[at + 2];
    }
    U16Shift(p, n, tail, at + 3);
    if at + 4 < |tail| && at + 5 + U16(tail, at + 3) <= |tail| {
      SliceShift(p, n, tail, at + 5, at + 5 + U16(tail, at + 3));
    }
  }

  lemma SliceShift(p: seq<byte>, n: nat, tail: seq<byte>, from: nat, to: nat)
    requires EndsIn(p, n, tail) && from <= to <= |tail|
    ensures p[n + from..n + to] == tail[from..to]
  {
    forall i | 0 <= i < to - from
      ensures p[n + from..n + to][i] == tail[from..to][i]
    {
      assert p[n + (from + i)] == tail[from + i];
    }
  }

  lemma SniFrom(p: seq<byte>, start: nat, end: nat, answer: Option<seq<byte>>)
    requires Extensions(p) == Some((start, end)) && Scan(p, start, end) == answer
    ensures Sni(p) == answer
  {
  }

  lemma SniOfField(p: seq<byte>, at: nat, tail: seq<byte>)
    requires Extensions(p) == if |tail| < 2 then None else Some((at + 2, at + 2 + U16(tail, 0)))
    requires EndsIn(p, at, tail)
    ensures Sni(p) == FieldSni(tail)
  {
    if |tail| >= 2 {
      var end := 2 + U16(tail, 0);
      ScanShift(p, at, tail, 2, end);
      SniFrom(p, at + 2, at + end, Scan(tail, 2, end));
    }
  }

  lemma SniAfterLengths(p: seq<byte>, session: nat, ciphers: nat, methods: nat, tail: seq<byte>)
    requires |p| > 43 && p[0] == 0x16 && p[1] == 0x03 && p[5] == 0x01 && p[43] == session
    requires 44 + session + 2 + ciphers < |p|
    requires U16(p, 44 + session) == ciphers && p[44 + session + 2 + ciphers] == methods
    requires EndsIn(p, 44 + session + 2 + ciphers + 1 + methods, tail)
    ensures Sni(p) == FieldSni(tail)
  {
    FrontReads(p, session, ciphers, methods, tail);
    SniOfField(p, 44 + session + 2 + ciphers + 1 + methods, tail);
  }

  lemma SniAfterFront(m: ClientHello, tail: seq<byte>)
    requires HelloOk(m)
    ensures Sni(Front(m) + tail) == FieldSni(tail)
  {
    var p := Front(m) + tail;
    FrontLengths(p, Preamble(m), m.sessionId, m.ciphers, m.compressions, tail);
    SniAfterLengths(p, |m.sessionId|, |m.ciphers|, |m.compressions|, tail);
  }

  lemma FieldHas(body: seq<byte>, rest: seq<byte>)
    requires |body| < 0x1_0000
    ensures var tail := Enc16(|body|) + body + rest;
            U16(tail, 0) == |body| && Has(tail, 2, body)
  {
    var tail := Enc16(|body|) + body + rest;
    assert tail[2..2 + |body|] == body;
  }

  lemma FieldFrom(tail: seq<byte>, n: nat, answer: Option<seq<byte>>)
    requires |tail| >= 2 && U16(tail, 0) == n && Scan(tail, 2, 2 + n) == answer
    ensures FieldSni(tail) == answer
  {
  }

  lemma FieldFinds(xs: seq<Extension>, rest: seq<byte>)
    requires ExtensionsOk(xs) && |EncExtensions(xs)| < 0x1_0000
    ensures FieldSni(Enc16(|EncExtensions(xs)|) + EncExtensions(xs) + rest) == FirstHost(xs)
  {
    var body := EncExtensions(xs);
    var tail := Enc16(|body|) + body + rest;
    FieldHas(body, rest);
    ScanFinds(tail, 2, 2 + |body|, xs);
    FieldFrom(tail, |body|, FirstHost(xs));
  }

  // ----- the answer on a message and what follows it

  /**
   For every well-formed ClientHello with an extensions field, whatever follows it in the stream,
   the reader returns the first host name the message offers, or nothing if it offers none.  The
   reader does not look at the record length: after a message without the field it takes what
   follows for one, so there the answer is right exactly when those bytes do not read as a name.
   */
  lemma SniOfClientHello(m: ClientHello, rest: seq<byte>)
    requires HelloOk(m)
    ensures Sni(Encode(m) + rest) == if m.extensions.Some? then Expected(m) else FieldSni(rest)
    ensures Sni(Encode(m) + rest) == Expected(m) <==> m.extensions.Some? || FieldSni(rest) == None
  {
    EncodeSplits(m, rest);
    SniAfterFront(m, ExtensionsField(m) + rest);
    match m.extensions
    case None => assert [] + rest == rest;
    case Some(xs) => FieldFinds(xs, rest);
  }

  /** A message on its own, the whole of what the client sent so far. */
  lemma SniOfWholeMessage(m: ClientHello)
    requires HelloOk(m)
    ensures Sni(Encode(m)) == Expected(m)
  {
    SniOfClientHello(m, []);
    assert Encode(m) + [] == Encode(m);
  }

  /** An extensions field of one server_name extension that names "x". */
  const STRAY_FIELD: seq<byte> := [0, 10, 0, 0, 0, 6, 0, 4, 0, 0, 1, 120]

  lemma StrayFieldNames()
    ensures FieldSni(STRAY_FIELD) == Some([120])
  {
    var p := STRAY_FIELD;
    assert U16(p, 0) == 10 && U16(p, 2) == 0 && U16(p, 9) == 1;
    assert p[11..12] == [120];
    assert FirstEntry(p, 6) == HostName([120]);
  }

  /** After a message without extensions, such bytes become a name that the message never offered. */
  lemma StrayBytesReadAsName(m: ClientHello)
    requires HelloOk(m) && m.extensions.None?
    ensures Expected(m) == None && Sni(Encode(m) + STRAY_FIELD) == Some([120])
  {
    SniOfClientHello(m, STRAY_FIELD);
    StrayFieldNames();
  }

  lemma SomeMessageHasNoExtensions() returns (m: ClientHello)
    ensures HelloOk(m) && m.extensions.None?
  {
    m := ClientHello(1, [3, 3], seq(32, _ => 0), [], [0, 47], [0], None);
  }
}
