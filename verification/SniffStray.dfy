/**
 When bytes that follow a ClientHello without extensions field are taken for a host name
 (src/traffic/shared/sniff.rs), said by what those bytes encode and not by how they are read.
 */
module SniffStray {
  import opened Basics
  import opened Sniff

  /** An extension of any type with any data. */
  datatype Raw = Raw(kind: nat, data: seq<byte>)

  predicate RawOk(x: Raw) {
    x.kind < 0x1_0000 && |x.data| < 0x1_0000
  }

  predicate RawsOk(xs: seq<Raw>) {
    forall i :: 0 <= i < |xs| ==> RawOk(xs[i])
  }

  function EncRaw(x: Raw): (b: seq<byte>)
    requires RawOk(x)
    ensures |b| == 4 + |x.data|
  {
    Enc16(x.kind) + Enc16(|x.data|) + x.data
  }

  function EncRaws(xs: seq<Raw>): seq<byte>
    requires RawsOk(xs)
  {
    if xs == [] then [] else EncRaw(xs[0]) + EncRaws(xs[1..])
  }

  /** A server_name extension up to the end of its first entry, a host_name; its lengths may be any. */
  function EncNamed(dataLen: nat, listLen: nat, name: seq<byte>): seq<byte>
    requires dataLen < 0x1_0000 && listLen < 0x1_0000 && |name| < 0x1_0000
  {
    Enc16(0) + Enc16(dataLen) + Enc16(listLen) + [0] + Enc16(|name|) + name
  }

  ghost predicate OpensWithName(s: seq<byte>, name: seq<byte>) {
    |name| < 0x1_0000
    && exists dataLen: nat, listLen: nat ::
         dataLen < 0x1_0000 && listLen < 0x1_0000 && EncNamed(dataLen, listLen, name) <= s
  }

  /** The first extension of `s` is of another type, or the kind of its first entry is not host_name. */
  predicate PassedOver(s: seq<byte>) {
    |s| > 3 && (U16(s, 0) != 0 || (|s| > 6 && s[6] != 0))
  }

  predicate AllPassedOver(xs: seq<Raw>, tail: seq<byte>)
    requires RawsOk(xs)
  {
    xs != [] ==> PassedOver(EncRaws(xs) + tail) && AllPassedOver(xs[1..], tail)
  }

  /**
   `s` is a list of extensions without a host name, then one that opens with the host name
   `name` and starts more than three bytes before the announced end.
   */
  ghost predicate Carries(s: seq<byte>, announced: nat, xs: seq<Raw>, tail: seq<byte>, name: seq<byte>) {
    && RawsOk(xs) && s == EncRaws(xs) + tail && |EncRaws(xs)| + 3 < announced
    && AllPassedOver(xs, tail) && OpensWithName(tail, name)
  }

  ghost predicate CarriesName(s: seq<byte>, announced: nat, name: seq<byte>) {
    exists xs, tail :: Carries(s, announced, xs, tail, name)
  }

  // ----- two-byte numbers and the bytes they are written in

  lemma {:induction false} Enc16Is(hi: byte, lo: byte)
    ensures Enc16(hi * 256 + lo) == [hi, lo]
  {
    if hi > 0 {
      Enc16Is(hi - 1, lo);
    }
  }

  lemma Enc16At(s: seq<byte>, at: nat)
    requires at + 1 < |s|
    ensures Enc16(U16(s, at)) == s[at..at + 2]
  {
    Enc16Is(s[at], s[at + 1]);
  }

  lemma U16At(s: seq<byte>, at: nat, n: nat)
    requires n < 0x1_0000 && at + 2 <= |s| && s[at..at + 2] == Enc16(n)
    ensures U16(s, at) == n
  {
    assert s[at] == s[at..at + 2][0] && s[at + 1] == s[at..at + 2][1];
  }

  // ----- one extension

  /** The reader's answer on extensions that end at `end`. */
  function Answer(s: seq<byte>, end: nat): Option<seq<byte>> {
    Scan(s, 0, end)
  }

  lemma EndsInRest(s: seq<byte>, n: nat)
    requires n <= |s|
    ensures EndsIn(s, n, s[n..])
  {
  }

  lemma ScanBeyond(s: seq<byte>, next: nat, end: nat)
    requires next > |s| || next > end
    ensures Scan(s, next, end) == None
  {
  }

  lemma ScanRest(s: seq<byte>, next: nat, end: nat, rest: seq<byte>)
    requires next <= end && EndsIn(s, next, rest)
    ensures Scan(s, next, end) == Answer(rest, end - next)
  {
    ScanShift(s, next, rest, 0, end - next);
  }

  lemma ScanPast(s: seq<byte>, next: nat, end: nat)
    ensures Scan(s, next, end) == if next <= |s| && next <= end then Answer(s[next..], end - next) else None
  {
    if next <= |s| && next <= end {
      EndsInRest(s, next);
      ScanRest(s, next, end, s[next..]);
    } else {
      ScanBeyond(s, next, end);
    }
  }

  lemma ScanOver(s: seq<byte>, end: nat)
    requires end > 3 && PassedOver(s)
    ensures Answer(s, end) == Scan(s, 4 + U16(s, 2), end)
  {
  }

  lemma ScanHere(s: seq<byte>, end: nat)
    requires end > 3 && |s| > 3 && !PassedOver(s)
    ensures Answer(s, end) == match FirstEntry(s, 4) case HostName(name) => Some(name) case _ => None
  {
  }

  /** The pieces of an opening name, where the reader looks for them. */
  lemma NamedParts(s: seq<byte>, dataLen: nat, listLen: nat, name: seq<byte>)
    requires dataLen < 0x1_0000 && listLen < 0x1_0000 && |name| < 0x1_0000
    ensures EncNamed(dataLen, listLen, name) <= s <==>
            && 9 + |name| <= |s| && s[0..2] == Enc16(0) && s[2..4] == Enc16(dataLen) && s[4..6] == Enc16(listLen)
            && s[6] == 0 && s[7..9] == Enc16(|name|) && s[9..9 + |name|] == name
  {
    var e := EncNamed(dataLen, listLen, name);
    assert |e| == 9 + |name|;
    assert e[0..2] == Enc16(0) && e[2..4] == Enc16(dataLen) && e[4..6] == Enc16(listLen);
    assert e[6] == 0 && e[7..9] == Enc16(|name|) && e[9..9 + |name|] == name;
    if 9 + |name| <= |s| {
      var t := s[..9 + |name|];
      assert t[0..2] == s[0..2] && t[2..4] == s[2..4] && t[4..6] == s[4..6] && t[7..9] == s[7..9];
      assert t[9..9 + |name|] == s[9..9 + |name|];
      if s[0..2] == Enc16(0) && s[2..4] == Enc16(dataLen) && s[4..6] == Enc16(listLen)
         && s[6] == 0 && s[7..9] == Enc16(|name|) && s[9..9 + |name|] == name {
        assert t == t[0..2] + t[2..4] + t[4..6] + [t[6]] + t[7..9] + t[9..9 + |name|];
        assert t == e;
      }
    }
  }

  lemma FoundOpens(s: seq<byte>, name: seq<byte>)
    requires |s| > 3 && U16(s, 0) == 0 && FirstEntry(s, 4) == HostName(name)
    ensures OpensWithName(s, name)
  {
    Enc16At(s, 0);
    Enc16At(s, 2);
    Enc16At(s, 4);
    Enc16At(s, 7);
    NamedParts(s, U16(s, 2), U16(s, 4), name);
  }

  lemma OpenIsFound(s: seq<byte>, name: seq<byte>)
    requires OpensWithName(s, name)
    ensures |s| > 8 && !PassedOver(s) && FirstEntry(s, 4) == HostName(name)
  {
    var dataLen: nat, listLen: nat :|
      dataLen < 0x1_0000 && listLen < 0x1_0000 && EncNamed(dataLen, listLen, name) <= s;
    NamedParts(s, dataLen, listLen, name);
    U16At(s, 0, 0);
    U16At(s, 7, |name|);
  }

  lemma RawFirst(s: seq<byte>, x: Raw, rest: seq<byte>)
    requires RawOk(x)
    ensures s == EncRaw(x) + rest <==>
            && 4 + |x.data| <= |s| && U16(s, 0) == x.kind && U16(s, 2) == |x.data|
            && s[4..4 + |x.data|] == x.data && s[4 + |x.data|..] == rest
  {
    var e, n := EncRaw(x), 4 + |x.data|;
    assert e[0..2] == Enc16(x.kind) && e[2..4] == Enc16(|x.data|) && e[4..n] == x.data;
    if s == e + rest {
      assert s[0..2] == e[0..2] && s[2..4] == e[2..4] && s[4..n] == e[4..n] && s[n..] == rest;
      U16At(s, 0, x.kind);
      U16At(s, 2, |x.data|);
    }
    if n <= |s| && U16(s, 0) == x.kind && U16(s, 2) == |x.data| && s[4..n] == x.data && s[n..] == rest {
      Enc16At(s, 0);
      Enc16At(s, 2);
      assert s == s[0..2] + s[2..4] + s[4..n] + s[n..];
    }
  }

  // ----- the list

  lemma Regrouped(a: seq<byte>, b: seq<byte>, c: seq<byte>)
    ensures a + b + c == a + (b + c)
  {
  }

  /** One more passed-over extension in front. */
  lemma CarriesBehind(s: seq<byte>, announced: nat, x: Raw, rest: seq<byte>, xs: seq<Raw>, tail: seq<byte>,
                      name: seq<byte>)
    requires RawOk(x) && s == EncRaw(x) + rest && PassedOver(s) && |EncRaw(x)| <= announced
    requires Carries(rest, announced - |EncRaw(x)|, xs, tail, name)
    ensures Carries(s, announced, [x] + xs, tail, name)
  {
    var all := [x] + xs;
    assert all[0] == x && all[1..] == xs;
    Regrouped(EncRaw(x), EncRaws(xs), tail);
  }

  lemma FoundHere(s: seq<byte>, end: nat, name: seq<byte>)
    requires Answer(s, end) == Some(name) && !PassedOver(s)
    ensures Carries(s, end, [], s, name)
  {
    ScanHere(s, end);
    FoundOpens(s, name);
    assert [] + s == s;
  }

  /** A name behind the first extension: that extension, and where the search goes on. */
  lemma FoundFurther(s: seq<byte>, end: nat, name: seq<byte>) returns (x: Raw, rest: seq<byte>)
    requires Answer(s, end) == Some(name) && PassedOver(s)
    ensures RawOk(x) && s == EncRaw(x) + rest && |EncRaw(x)| <= end && Answer(rest, end - |EncRaw(x)|) == Some(name)
  {
    ScanOver(s, end);
    var next := 4 + U16(s, 2);
    ScanPast(s, next, end);
    x, rest := Raw(U16(s, 0), s[4..next]), s[next..];
    RawFirst(s, x, rest);
  }

  lemma {:induction false} FoundIsCarried(s: seq<byte>, end: nat, name: seq<byte>)
    returns (xs: seq<Raw>, tail: seq<byte>)
    requires Answer(s, end) == Some(name)
    ensures Carries(s, end, xs, tail, name)
    decreases end
  {
    if PassedOver(s) {
      var x, rest := FoundFurther(s, end, name);
      xs, tail := FoundIsCarried(rest, end - |EncRaw(x)|, name);
      CarriesBehind(s, end, x, rest, xs, tail, name);
      xs := [x] + xs;
    } else {
      FoundHere(s, end, name);
      xs, tail := [], s;
    }
  }

  lemma {:induction false} CarriedIsFound(s: seq<byte>, end: nat, xs: seq<Raw>, tail: seq<byte>, name: seq<byte>)
    requires Carries(s, end, xs, tail, name)
    ensures Answer(s, end) == Some(name)
    decreases |xs|
  {
    if xs == [] {
      assert s == tail;
      OpenIsFound(s, name);
      ScanHere(s, end);
    } else {
      var x, rest := xs[0], EncRaws(xs[1..]) + tail;
      Regrouped(EncRaw(x), EncRaws(xs[1..]), tail);
      RawFirst(s, x, rest);
      ScanOver(s, end);
      ScanPast(s, |EncRaw(x)|, end);
      CarriedIsFound(rest, end - |EncRaw(x)|, xs[1..], tail, name);
    }
  }

  /** The bytes read as an extensions field give a name exactly when they carry it as one. */
  lemma FieldNamesIff(rest: seq<byte>, name: seq<byte>)
    ensures FieldSni(rest) == Some(name) <==> |rest| >= 2 && CarriesName(rest[2..], U16(rest, 0), name)
  {
    if |rest| >= 2 {
      var s, end := rest[2..], U16(rest, 0);
      ScanPast(rest, 2, 2 + end);
      if Answer(s, end) == Some(name) {
        var xs, tail := FoundIsCarried(s, end, name);
      }
      if xs, tail :| Carries(s, end, xs, tail, name) {
        CarriedIsFound(s, end, xs, tail, name);
      }
    }
  }

  /**
   After a message without extensions field the reader is wrong exactly when what follows
   announces a length and carries a host name before it.
   */
  lemma WrongIffNameCarried(m: ClientHello, rest: seq<byte>)
    requires HelloOk(m) && m.extensions.None?
    ensures Sni(Encode(m) + rest) != Expected(m) <==>
            |rest| >= 2 && exists name :: CarriesName(rest[2..], U16(rest, 0), name)
  {
    SniOfClientHello(m, rest);
    if FieldSni(rest).Some? {
      FieldNamesIff(rest, FieldSni(rest).value);
    }
    if |rest| >= 2 {
      if name :| CarriesName(rest[2..], U16(rest, 0), name) {
        FieldNamesIff(rest, name);
      }
    }
  }
}
