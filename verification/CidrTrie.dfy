/** `Ipv4CidrTrie` and `Ipv6CidrTrie`: networks, addressed by their leading bits. */
module CidrTrie {
  import opened Basics
  import opened RuleTrie

  /** `IpNet`: an address of `width` bits and a prefix length. */
  datatype Net = Net(addr: nat, prefixLen: nat)

  predicate NetOk(net: Net, width: nat) {
    net.addr < Pow2(width) && net.prefixLen <= width
  }

  function Network(net: Net, width: nat): nat
    requires NetOk(net, width)
  {
    net.addr / Pow2(width - net.prefixLen) * Pow2(width - net.prefixLen)
  }

  function Broadcast(net: Net, width: nat): nat
    requires NetOk(net, width)
  {
    Network(net, width) + Pow2(width - net.prefixLen) - 1
  }

  /** `contains` of the ipnet types. */
  predicate Contains(net: Net, width: nat, ip: nat)
    requires NetOk(net, width)
  {
    Network(net, width) <= ip <= Broadcast(net, width)
  }

  datatype Item = Item(net: Net, index: nat)

  predicate CidrBit(value: nat, width: nat, depth: nat)
    requires depth < width
  {
    value / Pow2(width - depth - 1) % 2 == 1
  }

  function Bits(value: nat, width: nat, n: nat): (bits: seq<bool>)
    requires n <= width
    ensures |bits| == n
  {
    seq(n, d requires 0 <= d < n => CidrBit(value, width, d))
  }

  predicate ItemsOk(items: seq<Item>, width: nat) {
    forall i :: 0 <= i < |items| ==> NetOk(items[i].net, width)
  }

  function Log(items: seq<Item>, width: nat): seq<Insertion<bool>>
    requires ItemsOk(items, width)
  {
    seq(|items|, i requires 0 <= i < |items| =>
      Insertion(Bits(Network(items[i].net, width), width, items[i].net.prefixLen), Terminal(items[i].index, true)))
  }

  function Everywhere(width: nat): (open: seq<bool>)
    ensures |open| == width + 1
  {
    seq(width + 1, d => true)
  }

  method Insert(trie: Trie<bool>, ghost items: seq<Item>, net: Net, width: nat, index: nat)
    requires trie.Valid() && ItemsOk(items, width) && NetOk(net, width) && trie.log == Log(items, width)
    modifies trie
    ensures ItemsOk(items + [Item(net, index)], width)
    ensures trie.Valid() && trie.log == Log(items + [Item(net, index)], width) && trie.marks == old(trie.marks)
  {
    trie.Insert(Bits(Network(net, width), width, net.prefixLen), Terminal(index, true));
  }

  method VisitMatches(trie: Trie<bool>, ghost items: seq<Item>, ip: nat, width: nat, cutoff: Option<nat>)
    returns (out: seq<nat>)
    requires trie.Valid() && ItemsOk(items, width) && ip < Pow2(width) && trie.log == Log(items, width)
    ensures forall index :: index in out <==> Wanted(items, ip, width, cutoff, index)
  {
    out := trie.Visit(Bits(ip, width, width), cutoff, true, Everywhere(width));
    forall index: nat
      ensures index in out <==> Wanted(items, ip, width, cutoff, index)
    {
      VisitIs(items, ip, width, cutoff, index);
    }
  }

  /** Some insertion of rule `index` below the cutoff has a network around `ip`. */
  ghost predicate Wanted(items: seq<Item>, ip: nat, width: nat, cutoff: Option<nat>, index: nat)
    requires ItemsOk(items, width)
  {
    && !SkipIndex(index, cutoff)
    && exists i :: 0 <= i < |items| && items[i].index == index && Contains(items[i].net, width, ip)
  }

  lemma HitIff(items: seq<Item>, ip: nat, width: nat, cutoff: Option<nat>, index: nat)
    requires ItemsOk(items, width) && ip < Pow2(width)
    ensures Hit(Log(items, width), Bits(ip, width, width), cutoff, Everywhere(width), 0, width + 1, index)
            <==> Wanted(items, ip, width, cutoff, index)
  {
    var log, key, open := Log(items, width), Bits(ip, width, width), Everywhere(width);
    if d :| 0 <= d < width + 1 && HitAt(log, key, cutoff, open, d, index) {
      HitIsWanted(items, ip, width, cutoff, d, index);
    }
    if Wanted(items, ip, width, cutoff, index) {
      var i :| 0 <= i < |items| && items[i].index == index && Contains(items[i].net, width, ip);
      BitPrefixIsContains(items[i].net, width, ip);
      assert log[i] in log;
      assert HitAt(log, key, cutoff, open, items[i].net.prefixLen, index);
    }
  }

  lemma VisitIs(items: seq<Item>, ip: nat, width: nat, cutoff: Option<nat>, index: nat)
    requires ItemsOk(items, width) && ip < Pow2(width)
    ensures index in Reports(Log(items, width), Bits(ip, width, width), cutoff, Everywhere(width), 0, width + 1)
            <==> Wanted(items, ip, width, cutoff, index)
  {
    ReportsAre(Log(items, width), Bits(ip, width, width), cutoff, Everywhere(width), 0, width + 1, index);
    HitIff(items, ip, width, cutoff, index);
  }

  lemma HitIsWanted(items: seq<Item>, ip: nat, width: nat, cutoff: Option<nat>, d: nat, index: nat)
    requires ItemsOk(items, width) && ip < Pow2(width) && d <= width
    requires HitAt(Log(items, width), Bits(ip, width, width), cutoff, Everywhere(width), d, index)
    ensures Wanted(items, ip, width, cutoff, index)
  {
    var log, key := Log(items, width), Bits(ip, width, width)[..d];
    var flag := Insertion(key, Terminal(index, true)) in log;
    var i :| 0 <= i < |log| && log[i] == Insertion(key, Terminal(index, flag));
    BitPrefixIsContains(items[i].net, width, ip);
    assert items[i].index == index;
  }

  // ----- bits and ranges

  lemma Halving(k: nat, q: nat)
    ensures 2 * k * q == 2 * (k * q) && k * (2 * q) == 2 * (k * q) && k * (2 * q + 1) == 2 * (k * q) + k
  {
  }

  lemma HalvesFrom(v: nat, k: nat, q: nat, r: nat)
    requires r < 2 * k && v == 2 * (k * q) + r
    ensures v / k == 2 * q + if r < k then 0 else 1
  {
    Halving(k, q);
    if r < k {
      QuotientIs(v, k, 2 * q, r);
    } else {
      QuotientIs(v, k, 2 * q + 1, r - k);
    }
  }

  lemma DivMod(v: nat, m: nat) returns (q: nat, r: nat)
    requires m > 0
    ensures q == v / m && r < m && v == m * q + r
  {
    q, r := v / m, v % m;
  }

  lemma Parity(a: nat, q: nat, bit: nat)
    requires a == 2 * q + bit && bit < 2
    ensures a == 2 * q + a % 2
  {
  }

  lemma HalvesOfQuotient(v: nat, k: nat)
    requires k > 0
    ensures v / k == 2 * (v / (2 * k)) + v / k % 2
  {
    var q, r := DivMod(v, 2 * k);
    Halving(k, q);
    HalvesFrom(v, k, q, r);
    Parity(v / k, q, if r < k then 0 else 1);
  }

  lemma QuotientIs(v: nat, k: nat, q: nat, r: nat)
    requires r < k && v == k * q + r
    ensures v / k == q
  {
    var q', r' := v / k, v % k;
    assert k * (q' - q) == r - r';
    if q' > q {
      MulAtLeast(k, q' - q);
    } else if q > q' {
      MulAtLeast(k, q - q');
    }
  }

  lemma MulAtLeast(k: nat, n: nat)
    requires n >= 1
    ensures k * n >= k
  {
  }

  /** Equal leading bits are equal quotients by the size of the block. */
  lemma {:induction false} LeadingBits(v: nat, u: nat, width: nat, n: nat)
    requires v < Pow2(width) && u < Pow2(width) && n <= width
    ensures Bits(v, width, n) == Bits(u, width, n) <==> v / Pow2(width - n) == u / Pow2(width - n)
  {
    if n == 0 {
      QuotientIs(v, Pow2(width), 0, v);
      QuotientIs(u, Pow2(width), 0, u);
    } else {
      LeadingBits(v, u, width, n - 1);
      OneMoreBit(v, width, n);
      OneMoreBit(u, width, n);
      var bv, bu := Bits(v, width, n), Bits(u, width, n);
      assert bv == bu ==> bv[..n - 1] == bu[..n - 1] && bv[n - 1] == bu[n - 1];
    }
  }

  lemma OneMoreBit(v: nat, width: nat, n: nat)
    requires 0 < n <= width
    ensures Bits(v, width, n) == Bits(v, width, n - 1) + [CidrBit(v, width, n - 1)]
    ensures Bits(v, width, n)[..n - 1] == Bits(v, width, n - 1)
    ensures v / Pow2(width - n) == 2 * (v / Pow2(width - n + 1)) + (if CidrBit(v, width, n - 1) then 1 else 0)
  {
    HalvesOfQuotient(v, Pow2(width - n));
  }

  lemma SameBlock(a: nat, ip: nat, k: nat)
    requires k > 0
    ensures a / k * k <= ip <= a / k * k + k - 1 <==> ip / k == a / k
  {
    var q := a / k;
    assert q * k == k * q;
    if q * k <= ip <= q * k + k - 1 {
      QuotientIs(ip, k, q, ip - q * k);
    }
  }

  /** A network's key is a prefix of an address's bits exactly when the network contains it. */
  lemma BitPrefixIsContains(net: Net, width: nat, ip: nat)
    requires NetOk(net, width) && ip < Pow2(width)
    ensures Bits(Network(net, width), width, net.prefixLen) == Bits(ip, width, width)[..net.prefixLen]
            <==> Contains(net, width, ip)
    ensures Network(net, width) < Pow2(width)
  {
    var k := Pow2(width - net.prefixLen);
    SameBlock(net.addr, net.addr, k);
    SameBlock(net.addr, Network(net, width), k);
    LeadingBits(Network(net, width), ip, width, net.prefixLen);
    SameBlock(net.addr, ip, k);
    assert Bits(ip, width, width)[..net.prefixLen] == Bits(ip, width, net.prefixLen);
  }
}
