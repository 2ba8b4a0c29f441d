/** `SuffixHostTrie`: host suffixes, addressed by their dot-separated labels from the right. */
module HostTrie {
  import opened Basics
  import opened Matching
  import opened RuleTrie

  datatype Item = Item(suffix: string, index: nat)

  /** `rsplit('.')`: the labels of `s`, last label first.  Empty labels count. */
  function RSplit(s: string): (labels: seq<string>)
    ensures |labels| >= 1
  {
    if s == "" then [""] else PushChar(RSplit(s[..|s| - 1]), s[|s| - 1])
  }

  function PushChar(labels: seq<string>, c: char): (r: seq<string>)
    requires |labels| >= 1
    ensures |r| >= 1
  {
    if c == '.' then [""] + labels else [labels[0] + [c]] + labels[1..]
  }

  function Log(items: seq<Item>): seq<Insertion<string>> {
    seq(|items|, i requires 0 <= i < |items| => Insertion(RSplit(items[i].suffix), Terminal(items[i].index, true)))
  }

  function Marks(suffixes: set<string>): set<seq<string>> {
    set s | s in suffixes :: RSplit(s)
  }

  function Everywhere(labels: seq<string>): (open: seq<bool>)
    ensures |open| == |labels| + 1
  {
    seq(|labels| + 1, d => true)
  }

  method InsertRule(trie: Trie<string>, ghost items: seq<Item>, suffix: string, index: nat)
    requires trie.Valid() && trie.log == Log(items)
    modifies trie
    ensures trie.Valid() && trie.log == Log(items + [Item(suffix, index)]) && trie.marks == old(trie.marks)
  {
    trie.Insert(RSplit(suffix), Terminal(index, true));
  }

  method MarkDns(trie: Trie<string>, ghost suffixes: set<string>, suffix: string)
    requires trie.Valid() && trie.marks == Marks(suffixes)
    modifies trie
    ensures trie.Valid() && trie.marks == Marks(suffixes + {suffix}) && trie.log == old(trie.log)
  {
    trie.MarkDns(RSplit(suffix));
  }

  method VisitRuleMatches(trie: Trie<string>, ghost items: seq<Item>, host: string, cutoff: Option<nat>)
    returns (out: seq<nat>)
    requires trie.Valid() && trie.log == Log(items)
    ensures forall index :: index in out <==> Wanted(items, host, cutoff, index)
  {
    var key := RSplit(host);
    out := trie.Visit(key, cutoff, false, Everywhere(key));
    forall index: nat
      ensures index in out <==> Wanted(items, host, cutoff, index)
    {
      OnTheWayIsWanted(items, host, cutoff, index);
      VisitIsOnTheWay(items, key, cutoff, index);
    }
  }

  method Matches(trie: Trie<string>, ghost suffixes: set<string>, host: string) returns (met: bool)
    requires trie.Valid() && trie.marks == Marks(suffixes)
    ensures met <==> exists s :: s in suffixes && HostHasSuffix(host, s)
  {
    met := trie.MeetsMark(RSplit(host));
    if met {
      ghost var n :| 0 < n <= |RSplit(host)| && RSplit(host)[..n] in trie.marks;
      ghost var s :| s in suffixes && RSplit(s) == RSplit(host)[..n];
      LabelPrefixIsSuffix(host, s);
    } else {
      forall s | s in suffixes && HostHasSuffix(host, s)
        ensures exists n :: 0 < n <= |RSplit(host)| && RSplit(host)[..n] in trie.marks
      {
        SuffixMeetsMark(suffixes, host, s);
      }
    }
  }

  lemma SuffixMeetsMark(suffixes: set<string>, host: string, s: string)
    requires s in suffixes && HostHasSuffix(host, s)
    ensures exists n :: 0 < n <= |RSplit(host)| && RSplit(host)[..n] in Marks(suffixes)
  {
    LabelPrefixIsSuffix(host, s);
    assert RSplit(host)[..|RSplit(s)|] == RSplit(s);
  }

  /** Some insertion of rule `index` below the cutoff has a suffix of `host`. */
  ghost predicate Wanted(items: seq<Item>, host: string, cutoff: Option<nat>, index: nat) {
    && !SkipIndex(index, cutoff)
    && exists i :: 0 <= i < |items| && items[i].index == index && HostHasSuffix(host, items[i].suffix)
  }

  /** Some insertion of rule `index` below the cutoff lies on the way along `key`. */
  ghost predicate OnTheWay(items: seq<Item>, key: seq<string>, cutoff: Option<nat>, index: nat) {
    && !SkipIndex(index, cutoff)
    && exists i :: 0 <= i < |items| && items[i].index == index && RSplit(items[i].suffix) <= key
  }

  lemma HitIsOnTheWay(items: seq<Item>, key: seq<string>, cutoff: Option<nat>, d: nat, index: nat)
    requires d <= |key| && HitAt(Log(items), key, cutoff, Everywhere(key), d, index)
    ensures OnTheWay(items, key, cutoff, index)
  {
    var log := Log(items);
    var flag := Insertion(key[..d], Terminal(index, true)) in log;
    var i :| 0 <= i < |log| && log[i] == Insertion(key[..d], Terminal(index, flag));
    assert items[i].index == index && RSplit(items[i].suffix) == key[..d] <= key;
  }

  lemma OnTheWayIsHit(items: seq<Item>, key: seq<string>, cutoff: Option<nat>, i: nat)
    requires i < |items| && RSplit(items[i].suffix) <= key && !SkipIndex(items[i].index, cutoff)
    ensures Hit(Log(items), key, cutoff, Everywhere(key), 1, |key| + 1, items[i].index)
  {
    var labels := RSplit(items[i].suffix);
    assert key[..|labels|] == labels;
    assert Log(items)[i] == Insertion(labels, Terminal(items[i].index, true));
    assert HitAt(Log(items), key, cutoff, Everywhere(key), |labels|, items[i].index);
  }

  lemma VisitIsOnTheWay(items: seq<Item>, key: seq<string>, cutoff: Option<nat>, index: nat)
    ensures index in Reports(Log(items), key, cutoff, Everywhere(key), 1, |key| + 1) <==>
            OnTheWay(items, key, cutoff, index)
  {
    ReportsAre(Log(items), key, cutoff, Everywhere(key), 1, |key| + 1, index);
    if d :| 1 <= d < |key| + 1 && HitAt(Log(items), key, cutoff, Everywhere(key), d, index) {
      HitIsOnTheWay(items, key, cutoff, d, index);
    }
    if OnTheWay(items, key, cutoff, index) {
      var i :| 0 <= i < |items| && items[i].index == index && RSplit(items[i].suffix) <= key;
      OnTheWayIsHit(items, key, cutoff, i);
    }
  }

  lemma OnTheWayIsWanted(items: seq<Item>, host: string, cutoff: Option<nat>, index: nat)
    ensures OnTheWay(items, RSplit(host), cutoff, index) <==> Wanted(items, host, cutoff, index)
  {
    if i :| 0 <= i < |items| && items[i].index == index && RSplit(items[i].suffix) <= RSplit(host) {
      LabelPrefixIsSuffix(host, items[i].suffix);
    }
    if i :| 0 <= i < |items| && items[i].index == index && HostHasSuffix(host, items[i].suffix) {
      LabelPrefixIsSuffix(host, items[i].suffix);
    }
  }

  // ----- labels and suffixes

  ghost function Unsplit(labels: seq<string>): string
    requires |labels| >= 1
  {
    if |labels| == 1 then labels[0] else Unsplit(labels[1..]) + "." + labels[0]
  }

  /** Splitting loses nothing, even with empty labels. */
  lemma {:induction false} UnsplitRSplit(s: string)
    ensures Unsplit(RSplit(s)) == s
  {
    if s != "" {
      UnsplitRSplit(s[..|s| - 1]);
      UnsplitPushChar(RSplit(s[..|s| - 1]), s[|s| - 1]);
    }
  }

  lemma UnsplitPushChar(labels: seq<string>, c: char)
    requires |labels| >= 1
    ensures Unsplit(PushChar(labels, c)) == Unsplit(labels) + [c]
  {
    assert PushChar(labels, c)[1..] == if c == '.' then labels else labels[1..];
  }

  lemma {:induction false} RSplitJoined(a: string, b: string)
    ensures RSplit(a + "." + b) == RSplit(b) + RSplit(a)
  {
    var s := a + "." + b;
    if b == "" {
      assert s[..|s| - 1] == a;
    } else {
      var init, c := b[..|b| - 1], b[|b| - 1];
      assert s[..|s| - 1] == a + "." + init && s[|s| - 1] == c;
      RSplitJoined(a, init);
      PushCharFront(RSplit(init), RSplit(a), c);
    }
  }

  lemma PushCharFront(l: seq<string>, m: seq<string>, c: char)
    requires |l| >= 1
    ensures PushChar(l + m, c) == PushChar(l, c) + m
  {
    assert (l + m)[1..] == l[1..] + m;
  }

  lemma {:induction false} UnsplitJoined(l: seq<string>, m: seq<string>)
    requires |l| >= 1 && |m| >= 1
    ensures Unsplit(l + m) == Unsplit(m) + "." + Unsplit(l)
  {
    if |l| == 1 {
      assert (l + m)[1..] == m;
    } else {
      UnsplitJoined(l[1..], m);
      assert (l + m)[1..] == l[1..] + m;
    }
  }

  /** Walking labels from the right decides the string suffix test of the matcher. */
  lemma LabelPrefixIsSuffix(host: string, suffix: string)
    ensures RSplit(suffix) <= RSplit(host) <==> HostHasSuffix(host, suffix)
  {
    var l := RSplit(suffix);
    if l <= RSplit(host) {
      var m := RSplit(host)[|l|..];
      assert RSplit(host) == l + m;
      UnsplitRSplit(host);
      UnsplitRSplit(suffix);
      if m == [] {
        assert l + m == l;
      } else {
        UnsplitJoined(l, m);
        assert host == Unsplit(m) + "." + suffix;
        assert host[..|host| - |suffix|] == Unsplit(m) + ".";
      }
    }
    if HostHasSuffix(host, suffix) && host != suffix {
      var rest := host[..|host| - |suffix|];
      var a := rest[..|rest| - 1];
      assert host == a + "." + suffix;
      RSplitJoined(a, suffix);
    }
  }
}
