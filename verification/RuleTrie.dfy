/**
 The mutable trie behind the rule index (src/rules/pool/trie.rs).

 The repository has three node types that differ only in how a child is addressed: by a path
 byte, by a host label, by an address bit.  `Trie<K>` is all three, with `K` the address.  A node
 is stored under the key that leads to it, so "the child of `p` at `k` exists" is "`p + [k]` is a
 key of `nodes`".
 */
module RuleTrie {
  import opened Basics

  datatype Terminal = Terminal(index: nat, matchesDescendants: bool)

  datatype Node = Node(terminals: seq<Terminal>, dnsTerminal: bool, minRuleIndex: Option<nat>)

  const BLANK := Node([], false, None)

  /** One past call of insert: what was asked for, independent of the node structure. */
  datatype Insertion<K> = Insertion(key: seq<K>, terminal: Terminal)

  type Nodes<K(==)> = map<seq<K>, Node>

  // ----- the small helpers of trie.rs

  function UpdatedMin(slot: Option<nat>, index: nat): (r: Option<nat>)
    ensures r.Some? && r.value <= index && (slot.Some? ==> r.value <= slot.value)
    ensures r.value == index || r == slot
  {
    if slot.Some? && slot.value <= index then slot else Some(index)
  }

  predicate SkipIndex(index: nat, cutoff: Option<nat>) {
    cutoff.Some? && index >= cutoff.value
  }

  predicate SkipSubtree(minRuleIndex: Option<nat>, cutoff: Option<nat>) {
    minRuleIndex.None? || (cutoff.Some? && minRuleIndex.value >= cutoff.value)
  }

  /** `visit_terminal_indices`; `open` says whether terminals that do not match descendants count here. */
  function Reported(terminals: seq<Terminal>, cutoff: Option<nat>, open: bool): seq<nat> {
    if terminals == [] then []
    else
      var t := terminals[0];
      (if !SkipIndex(t.index, cutoff) && (t.matchesDescendants || open) then [t.index] else [])
      + Reported(terminals[1..], cutoff, open)
  }

  // ----- what a trie means, in terms of the insertions made so far

  /** The terminals inserted at exactly `key`, oldest first. */
  ghost function TerminalsAt<K>(log: seq<Insertion<K>>, key: seq<K>): seq<Terminal> {
    if log == [] then []
    else
      var last := log[|log| - 1];
      TerminalsAt(log[..|log| - 1], key) + (if last.key == key then [last.terminal] else [])
  }

  /** The least rule index inserted at or below `key`. */
  ghost function MinBelow<K>(log: seq<Insertion<K>>, key: seq<K>): Option<nat> {
    if log == [] then None
    else
      var last := log[|log| - 1];
      var before := MinBelow(log[..|log| - 1], key);
      if key <= last.key then UpdatedMin(before, last.terminal.index) else before
  }

  ghost function Meaning<K>(log: seq<Insertion<K>>, marks: set<seq<K>>, key: seq<K>): Node {
    Node(TerminalsAt(log, key), key in marks, MinBelow(log, key))
  }

  /** Every prefix of a stored key is stored, and every key used so far is stored. */
  ghost predicate Closed<K>(nodes: Nodes<K>, log: seq<Insertion<K>>, marks: set<seq<K>>) {
    && [] in nodes
    && (forall p, n :: p in nodes && 0 <= n <= |p| ==> p[..n] in nodes)
    && (forall i :: 0 <= i < |log| ==> log[i].key in nodes)
    && marks <= nodes.Keys
  }

  ghost predicate Represents<K>(nodes: Nodes<K>, log: seq<Insertion<K>>, marks: set<seq<K>>) {
    && Closed(nodes, log, marks)
    && (forall p :: p in nodes ==> nodes[p] == Meaning(log, marks, p))
  }

  lemma PrefixStored<K>(nodes: Nodes<K>, log: seq<Insertion<K>>, marks: set<seq<K>>, p: seq<K>, i: nat)
    requires Closed(nodes, log, marks) && i < |log| && p <= log[i].key
    ensures p in nodes
  {
    assert log[i].key[..|p|] == p;
  }

  /** Nothing was ever inserted at or below a key without a node: descending may stop there. */
  lemma MissingMeansBlank<K>(nodes: Nodes<K>, log: seq<Insertion<K>>, marks: set<seq<K>>, p: seq<K>)
    requires Closed(nodes, log, marks) && p !in nodes
    ensures forall i :: 0 <= i < |log| ==> !(p <= log[i].key)
    ensures Meaning(log, marks, p) == BLANK
  {
    forall i | 0 <= i < |log|
      ensures !(p <= log[i].key)
    {
      if p <= log[i].key {
        PrefixStored(nodes, log, marks, p, i);
      }
    }
    BlankBelow(log, p);
  }

  lemma {:induction false} BlankBelow<K>(log: seq<Insertion<K>>, p: seq<K>)
    requires forall i :: 0 <= i < |log| ==> !(p <= log[i].key)
    ensures TerminalsAt(log, p) == [] && MinBelow(log, p) == None
  {
    if log != [] {
      BlankBelow(log[..|log| - 1], p);
    }
  }

  lemma MeaningAfter<K>(log: seq<Insertion<K>>, marks: set<seq<K>>, e: Insertion<K>, p: seq<K>)
    ensures var before, after := Meaning(log, marks, p), Meaning(log + [e], marks, p);
            && after.terminals == before.terminals + (if e.key == p then [e.terminal] else [])
            && after.minRuleIndex == (if p <= e.key then UpdatedMin(before.minRuleIndex, e.terminal.index)
                                      else before.minRuleIndex)
  {
    assert (log + [e])[..|log + [e]| - 1] == log;
  }

  lemma MidInsertionStep<K>(log: seq<Insertion<K>>, marks: set<seq<K>>, before: Nodes<K>, after: Nodes<K>,
                            key: seq<K>, i: nat, index: nat)
    requires i < |key| && key[..i + 1] in before
    requires forall p :: p in before ==> before[p] == MidInsertion(log, marks, p, key[..i], index)
    requires after == before[key[..i + 1] :=
                      before[key[..i + 1]].(minRuleIndex := UpdatedMin(before[key[..i + 1]].minRuleIndex, index))]
    ensures forall p :: p in after ==> after[p] == MidInsertion(log, marks, p, key[..i + 1], index)
  {
    forall p | p in after
      ensures after[p] == MidInsertion(log, marks, p, key[..i + 1], index)
    {
      PrefixStep(key, i, p);
    }
  }

  lemma InsertionDone<K>(log: seq<Insertion<K>>, marks: set<seq<K>>, before: Nodes<K>, after: Nodes<K>, e: Insertion<K>)
    requires Closed(before, log, marks) && e.key in before
    requires forall p :: p in before ==> before[p] == MidInsertion(log, marks, p, e.key, e.terminal.index)
    requires after == before[e.key := before[e.key].(terminals := before[e.key].terminals + [e.terminal])]
    ensures Represents(after, log + [e], marks)
  {
    forall p | p in after
      ensures after[p] == Meaning(log + [e], marks, p)
    {
      MeaningAfter(log, marks, e, p);
    }
  }

  class Trie<K(==, !new)> {
    var nodes: Nodes<K>
    ghost var log: seq<Insertion<K>>
    ghost var marks: set<seq<K>>

    ghost predicate Valid()
      reads this
    {
      Represents(nodes, log, marks)
    }

    constructor ()
      ensures Valid() && log == [] && marks == {}
    {
      nodes, log, marks := map[[] := BLANK], [], {};
    }

    /** The child of a stored node, created blank when it is missing. */
    method ChildMut(p: seq<K>)
      requires |p| > 0 && p[..|p| - 1] in nodes && Closed(nodes, log, marks)
      modifies this`nodes
      ensures Closed(nodes, log, marks)
      ensures nodes == if p in old(nodes) then old(nodes) else old(nodes)[p := Meaning(log, marks, p)]
    {
      if p !in nodes {
        MissingMeansBlank(nodes, log, marks, p);
        nodes := nodes[p := BLANK];
        forall n | 0 <= n <= |p|
          ensures p[..n] in nodes
        {
          if n < |p| {
            assert p[..n] == p[..|p| - 1][..n];
          } else {
            assert p[..n] == p;
          }
        }
      }
    }

    /** `insert`, `insert_rule` and `insert_cidr`: one more terminal at `key`. */
    method Insert(key: seq<K>, terminal: Terminal)
      requires Valid()
      modifies this`nodes, this`log
      ensures Valid() && log == old(log) + [Insertion(key, terminal)]
    {
      nodes := nodes[[] := nodes[[]].(minRuleIndex := UpdatedMin(nodes[[]].minRuleIndex, terminal.index))];
      for i := 0 to |key|
        invariant Closed(nodes, log, marks) && log == old(log)
        invariant key[..i] in nodes
        invariant forall p :: p in nodes ==> nodes[p] == MidInsertion(log, marks, p, key[..i], terminal.index)
      {
        var p := key[..i + 1];
        assert p[..|p| - 1] == key[..i];
        ChildMut(p);
        ghost var before := nodes;
        nodes := nodes[p := nodes[p].(minRuleIndex := UpdatedMin(nodes[p].minRuleIndex, terminal.index))];
        MidInsertionStep(log, marks, before, nodes, key, i, terminal.index);
      }
      assert key[..|key|] == key;
      ghost var before := nodes;
      nodes := nodes[key := nodes[key].(terminals := nodes[key].terminals + [terminal])];
      InsertionDone(log, marks, before, nodes, Insertion(key, terminal));
      log := log + [Insertion(key, terminal)];
    }

    method MarkDns(key: seq<K>)
      requires Valid()
      modifies this`nodes, this`marks
      ensures Valid() && marks == old(marks) + {key}
    {
      for i := 0 to |key|
        invariant Valid() && marks == old(marks)
        invariant key[..i] in nodes
      {
        var p := key[..i + 1];
        assert p[..|p| - 1] == key[..i];
        ChildMut(p);
      }
      assert key[..|key|] == key;
      nodes := nodes[key := nodes[key].(dnsTerminal := true)];
      marks := marks + {key};
    }

    /**
     The three visit loops of trie.rs.  `fromRoot` is set for CIDR tries, the only ones that look
     at the root's terminals; `open[d]` says whether an exact terminal at depth `d` matches.
     */
    method Visit(key: seq<K>, cutoff: Option<nat>, fromRoot: bool, open: seq<bool>) returns (out: seq<nat>)
      requires Valid() && |open| == |key| + 1
      ensures out == Reports(log, key, cutoff, open, if fromRoot then 0 else 1, |key| + 1)
    {
      ghost var lo := if fromRoot then 0 else 1;
      VisitStarts(nodes, log, marks, key, cutoff, open);
      out := [];
      if SkipSubtree(nodes[[]].minRuleIndex, cutoff) {
        return;
      }
      if fromRoot {
        out := Reported(nodes[[]].terminals, cutoff, open[0]);
      }
      for depth := 0 to |key|
        invariant out == Reports(log, key, cutoff, open, lo, depth + 1)
      {
        VisitGoesOn(nodes, log, marks, key, cutoff, open, lo, depth + 1);
        var p := key[..depth + 1];
        if p !in nodes || SkipSubtree(nodes[p].minRuleIndex, cutoff) {
          return;
        }
        out := out + Reported(nodes[p].terminals, cutoff, open[depth + 1]);
      }
    }

    /** `matches`: does the walk along `key` meet a DNS mark below the root? */
    method MeetsMark(key: seq<K>) returns (met: bool)
      requires Valid()
      ensures met <==> exists n :: 0 < n <= |key| && key[..n] in marks
    {
      for depth := 0 to |key|
        invariant forall n :: 0 < n <= depth ==> key[..n] !in marks
      {
        var p := key[..depth + 1];
        if p !in nodes {
          forall n | depth + 1 <= n <= |key|
            ensures key[..n] !in marks
          {
            assert key[..n][..depth + 1] == p;
          }
          return false;
        }
        if nodes[p].dnsTerminal {
          return true;
        }
      }
      return false;
    }
  }

  // ----- what a walk reports

  /** The parts of a sequence given piece by piece. */
  ghost function Gather(part: nat -> seq<nat>, lo: nat, hi: nat): seq<nat>
    requires lo <= hi
    decreases hi
  {
    if lo == hi then [] else Gather(part, lo, hi - 1) + part(hi - 1)
  }

  lemma InEither(a: seq<nat>, b: seq<nat>, x: nat)
    ensures x in a + b <==> x in a || x in b
  {
  }

  lemma {:induction false} GatherMembers(part: nat -> seq<nat>, lo: nat, hi: nat, x: nat)
    requires lo <= hi
    ensures x in Gather(part, lo, hi) <==> exists d: nat :: lo <= d < hi && x in part(d)
    decreases hi
  {
    if lo < hi {
      GatherMembers(part, lo, hi - 1, x);
      InEither(Gather(part, lo, hi - 1), part(hi - 1), x);
    }
  }

  lemma {:induction false} GatherJoin(part: nat -> seq<nat>, lo: nat, mid: nat, hi: nat)
    requires lo <= mid <= hi
    ensures Gather(part, lo, hi) == Gather(part, lo, mid) + Gather(part, mid, hi)
    decreases hi
  {
    if mid < hi {
      GatherJoin(part, lo, mid, hi - 1);
    }
  }

  lemma {:induction false} GatherNothing(part: nat -> seq<nat>, lo: nat, hi: nat)
    requires lo <= hi && forall d: nat :: lo <= d < hi ==> part(d) == []
    ensures Gather(part, lo, hi) == []
    decreases hi
  {
    if lo < hi {
      GatherNothing(part, lo, hi - 1);
    }
  }

  /** What there is to report at each depth of a walk along `key`. */
  ghost function AtDepth<K(!new)>(log: seq<Insertion<K>>, key: seq<K>, cutoff: Option<nat>,
                                  open: seq<bool>): nat -> seq<nat>
    requires |open| == |key| + 1
  {
    (d: nat) => if d <= |key| then Reported(TerminalsAt(log, key[..d]), cutoff, open[d]) else []
  }

  /** What a walk along `key` reports at depths `lo <= depth < hi`, were there no pruning at all. */
  ghost function Reports<K(!new)>(log: seq<Insertion<K>>, key: seq<K>, cutoff: Option<nat>, open: seq<bool>,
                                  lo: nat, hi: nat): seq<nat>
    requires lo <= hi <= |key| + 1 == |open|
  {
    Gather(AtDepth(log, key, cutoff, open), lo, hi)
  }

  /** Rule `index` was inserted at depth `d` of `key`, in a way that a walk along `key` must report. */
  ghost predicate HitAt<K>(log: seq<Insertion<K>>, key: seq<K>, cutoff: Option<nat>, open: seq<bool>, d: nat,
                           index: nat)
    requires d <= |key| && |open| == |key| + 1
  {
    && !SkipIndex(index, cutoff)
    && (Insertion(key[..d], Terminal(index, true)) in log
        || (open[d] && Insertion(key[..d], Terminal(index, false)) in log))
  }

  /** Some insertion of rule `index` at depths `lo <= depth < hi` must be reported. */
  ghost predicate Hit<K>(log: seq<Insertion<K>>, key: seq<K>, cutoff: Option<nat>, open: seq<bool>, lo: nat, hi: nat,
                         index: nat)
    requires lo <= hi <= |key| + 1 == |open|
  {
    exists d :: lo <= d < hi && HitAt(log, key, cutoff, open, d, index)
  }

  lemma {:induction false} TerminalsAtAre<K>(log: seq<Insertion<K>>, key: seq<K>, t: Terminal)
    ensures t in TerminalsAt(log, key) <==> Insertion(key, t) in log
  {
    if log != [] {
      TerminalsAtAre(log[..|log| - 1], key, t);
      assert log == log[..|log| - 1] + [log[|log| - 1]];
    }
  }

  lemma {:induction false} ReportedAre(terminals: seq<Terminal>, cutoff: Option<nat>, open: bool, index: nat)
    ensures index in Reported(terminals, cutoff, open) <==>
            !SkipIndex(index, cutoff)
            && (Terminal(index, true) in terminals || (open && Terminal(index, false) in terminals))
  {
    if terminals != [] {
      ReportedAre(terminals[1..], cutoff, open, index);
      assert terminals == [terminals[0]] + terminals[1..];
    }
  }

  lemma ReportedAtDepth<K(!new)>(log: seq<Insertion<K>>, key: seq<K>, cutoff: Option<nat>, open: seq<bool>, d: nat,
                                 index: nat)
    requires d <= |key| && |open| == |key| + 1
    ensures index in AtDepth(log, key, cutoff, open)(d) <==> HitAt(log, key, cutoff, open, d, index)
  {
    ReportedAre(TerminalsAt(log, key[..d]), cutoff, open[d], index);
    TerminalsAtAre(log, key[..d], Terminal(index, true));
    TerminalsAtAre(log, key[..d], Terminal(index, false));
  }

  /** A walk reports exactly the hits among the insertions, whatever their order. */
  lemma ReportsAre<K(!new)>(log: seq<Insertion<K>>, key: seq<K>, cutoff: Option<nat>, open: seq<bool>,
                            lo: nat, hi: nat, index: nat)
    requires lo <= hi <= |key| + 1 == |open|
    ensures index in Reports(log, key, cutoff, open, lo, hi) <==> Hit(log, key, cutoff, open, lo, hi, index)
  {
    GatherMembers(AtDepth(log, key, cutoff, open), lo, hi, index);
    forall d: nat | d < hi
      ensures index in AtDepth(log, key, cutoff, open)(d) <==> HitAt(log, key, cutoff, open, d, index)
    {
      ReportedAtDepth(log, key, cutoff, open, d, index);
    }
  }

  /** `min_rule_index` is the minimum over the subtree: a lower bound that is attained. */
  lemma {:induction false} MinBelowIsMin<K>(log: seq<Insertion<K>>, p: seq<K>)
    ensures forall e :: e in log && p <= e.key ==> MinBelow(log, p).Some? && MinBelow(log, p).value <= e.terminal.index
    ensures MinBelow(log, p).Some? ==> exists e :: e in log && p <= e.key && e.terminal.index == MinBelow(log, p).value
  {
    if log != [] {
      var init, last := log[..|log| - 1], log[|log| - 1];
      assert log == init + [last];
      MinBelowIsMin(init, p);
      if p <= last.key && MinBelow(log, p) == Some(last.terminal.index) {
        assert last in log;
      }
    }
  }

  lemma SilentBelow<K(!new)>(log: seq<Insertion<K>>, key: seq<K>, cutoff: Option<nat>, open: seq<bool>, lo: nat, d: nat)
    requires lo <= d <= |key| && |open| == |key| + 1
    requires SkipSubtree(MinBelow(log, key[..lo]), cutoff)
    ensures AtDepth(log, key, cutoff, open)(d) == []
  {
    var here := AtDepth(log, key, cutoff, open)(d);
    if here != [] {
      ReportedAtDepth(log, key, cutoff, open, d, here[0]);
      NoHitBelowCutoff(log, key, cutoff, open, lo, d, here[0]);
    }
  }

  lemma SilentFrom<K(!new)>(log: seq<Insertion<K>>, key: seq<K>, cutoff: Option<nat>, open: seq<bool>,
                            part: nat -> seq<nat>, lo: nat)
    requires lo <= |key| && |open| == |key| + 1 && part == AtDepth(log, key, cutoff, open)
    requires SkipSubtree(MinBelow(log, key[..lo]), cutoff)
    ensures forall d: nat :: lo <= d < |key| + 1 ==> part(d) == []
  {
    forall d: nat | lo <= d < |key| + 1
      ensures part(d) == []
    {
      SilentBelow(log, key, cutoff, open, lo, d);
    }
  }

  /** Pruning loses nothing: below a skipped subtree there is no hit left to report. */
  lemma PruningLosesNothing<K(!new)>(log: seq<Insertion<K>>, key: seq<K>, cutoff: Option<nat>, open: seq<bool>, lo: nat)
    requires lo <= |key| && |open| == |key| + 1
    requires SkipSubtree(MinBelow(log, key[..lo]), cutoff)
    ensures Reports(log, key, cutoff, open, lo, |key| + 1) == []
  {
    var part := AtDepth(log, key, cutoff, open);
    SilentFrom(log, key, cutoff, open, part, lo);
    GatherNothing(part, lo, |key| + 1);
  }

  lemma NoHitBelowCutoff<K>(log: seq<Insertion<K>>, key: seq<K>, cutoff: Option<nat>, open: seq<bool>,
                            lo: nat, d: nat, index: nat)
    requires lo <= d <= |key| && |open| == |key| + 1
    requires SkipSubtree(MinBelow(log, key[..lo]), cutoff)
    ensures !HitAt(log, key, cutoff, open, d, index)
  {
    MinBelowIsMin(log, key[..lo]);
    assert key[..lo] <= key[..d];
  }

  lemma GatherStops(part: nat -> seq<nat>, lo: nat, mid: nat, hi: nat)
    requires lo <= hi && mid <= hi && Gather(part, mid, hi) == []
    ensures Gather(part, lo, hi) == if lo <= mid then Gather(part, lo, mid) else []
  {
    if lo <= mid {
      GatherJoin(part, lo, mid, hi);
    } else {
      GatherJoin(part, mid, lo, hi);
    }
  }

  lemma SkippedOrMissing<K>(nodes: Nodes<K>, log: seq<Insertion<K>>, marks: set<seq<K>>, p: seq<K>, cutoff: Option<nat>)
    requires Represents(nodes, log, marks) && (p !in nodes || SkipSubtree(nodes[p].minRuleIndex, cutoff))
    ensures SkipSubtree(MinBelow(log, p), cutoff)
  {
    if p !in nodes {
      MissingMeansBlank(nodes, log, marks, p);
    }
  }

  /** A walk may stop where the node is missing or its subtree is skipped. */
  lemma WalkStops<K(!new)>(log: seq<Insertion<K>>, key: seq<K>, cutoff: Option<nat>, open: seq<bool>, lo: nat,
                           depth: nat)
    requires lo <= 1 && depth <= |key| && |open| == |key| + 1
    requires SkipSubtree(MinBelow(log, key[..depth]), cutoff)
    ensures Reports(log, key, cutoff, open, lo, |key| + 1)
         == if lo <= depth then Reports(log, key, cutoff, open, lo, depth) else []
  {
    PruningLosesNothing(log, key, cutoff, open, depth);
    GatherStops(AtDepth(log, key, cutoff, open), lo, depth, |key| + 1);
  }

  lemma ReportsStart<K(!new)>(log: seq<Insertion<K>>, key: seq<K>, cutoff: Option<nat>, open: seq<bool>, lo: nat)
    requires lo <= |key| + 1 == |open|
    ensures Reports(log, key, cutoff, open, lo, lo) == []
  {
  }

  /** One depth further. */
  lemma ReportsNext<K(!new)>(log: seq<Insertion<K>>, key: seq<K>, cutoff: Option<nat>, open: seq<bool>, lo: nat, d: nat)
    requires lo <= d <= |key| && |open| == |key| + 1
    ensures Reports(log, key, cutoff, open, lo, d + 1) ==
            Reports(log, key, cutoff, open, lo, d) + Reported(TerminalsAt(log, key[..d]), cutoff, open[d])
  {
  }

  /** What the root tells a walk. */
  lemma VisitStarts<K(!new)>(nodes: Nodes<K>, log: seq<Insertion<K>>, marks: set<seq<K>>, key: seq<K>,
                             cutoff: Option<nat>, open: seq<bool>)
    requires Represents(nodes, log, marks) && |open| == |key| + 1
    ensures SkipSubtree(nodes[[]].minRuleIndex, cutoff) ==>
              Reports(log, key, cutoff, open, 0, |key| + 1) == Reports(log, key, cutoff, open, 1, |key| + 1) == []
    ensures Reports(log, key, cutoff, open, 1, 1) == []
    ensures Reports(log, key, cutoff, open, 0, 1) == Reported(nodes[[]].terminals, cutoff, open[0])
  {
    assert key[..0] == [];
    ReportsStart(log, key, cutoff, open, 0);
    ReportsStart(log, key, cutoff, open, 1);
    ReportsNext(log, key, cutoff, open, 0, 0);
    if SkipSubtree(nodes[[]].minRuleIndex, cutoff) {
      WalkStops(log, key, cutoff, open, 0, 0);
      WalkStops(log, key, cutoff, open, 1, 0);
    }
  }

  /** What the node at depth `d` of `key`, or its absence, tells a walk. */
  lemma VisitGoesOn<K(!new)>(nodes: Nodes<K>, log: seq<Insertion<K>>, marks: set<seq<K>>, key: seq<K>,
                             cutoff: Option<nat>, open: seq<bool>, lo: nat, d: nat)
    requires Represents(nodes, log, marks) && lo <= 1 <= d <= |key| && |open| == |key| + 1
    ensures key[..d] !in nodes || SkipSubtree(nodes[key[..d]].minRuleIndex, cutoff) ==>
              Reports(log, key, cutoff, open, lo, |key| + 1) == Reports(log, key, cutoff, open, lo, d)
    ensures key[..d] in nodes ==>
              Reports(log, key, cutoff, open, lo, d + 1) ==
              Reports(log, key, cutoff, open, lo, d) + Reported(nodes[key[..d]].terminals, cutoff, open[d])
  {
    ReportsNext(log, key, cutoff, open, lo, d);
    if key[..d] !in nodes || SkipSubtree(nodes[key[..d]].minRuleIndex, cutoff) {
      SkippedOrMissing(nodes, log, marks, key[..d], cutoff);
      WalkStops(log, key, cutoff, open, lo, d);
    }
  }

  /** A node while an insertion has accounted for `index` along `path` but not pushed its terminal. */
  ghost function MidInsertion<K>(log: seq<Insertion<K>>, marks: set<seq<K>>, p: seq<K>, path: seq<K>,
                                 index: nat): Node {
    var node := Meaning(log, marks, p);
    if p <= path then node.(minRuleIndex := UpdatedMin(node.minRuleIndex, index)) else node
  }

  lemma PrefixStep<K>(key: seq<K>, i: nat, p: seq<K>)
    requires i < |key|
    ensures p <= key[..i + 1] <==> p <= key[..i] || p == key[..i + 1]
    ensures p == key[..i + 1] ==> !(p <= key[..i])
  {
    if p <= key[..i + 1] && p != key[..i + 1] {
      assert |p| <= i;
    }
  }
}
