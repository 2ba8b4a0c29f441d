/** `PrefixPathTrie`: rules of one origin, addressed by the bytes of their path prefix. */
module PathTrie {
  import opened Basics
  import opened Matching
  import opened RuleTrie

  /** A `(path prefix, rule index)` pair handed to `insert`. */
  datatype Item = Item(prefix: string, index: nat)

  function Entry(item: Item): Insertion<char> {
    Insertion(item.prefix, Terminal(item.index, item.prefix == "/" || EndsWith(item.prefix, '/')))
  }

  function Log(items: seq<Item>): seq<Insertion<char>> {
    seq(|items|, i requires 0 <= i < |items| => Entry(items[i]))
  }

  /** An exact terminal at depth `d` matches at the end of the path or before a slash. */
  function Boundaries(path: string): (open: seq<bool>)
    ensures |open| == |path| + 1
  {
    seq(|path| + 1, d requires 0 <= d <= |path| => d == |path| || path[d] == '/')
  }

  method Insert(trie: Trie<char>, ghost items: seq<Item>, path: string, index: nat)
    requires trie.Valid() && trie.log == Log(items)
    modifies trie
    ensures trie.Valid() && trie.log == Log(items + [Item(path, index)]) && trie.marks == old(trie.marks)
  {
    trie.Insert(path, Terminal(index, path == "/" || EndsWith(path, '/')));
  }

  method VisitMatches(trie: Trie<char>, ghost items: seq<Item>, path: string, cutoff: Option<nat>)
    returns (out: seq<nat>)
    requires trie.Valid() && trie.log == Log(items)
    ensures forall index :: index in out <==> Wanted(items, path, cutoff, index)
  {
    out := trie.Visit(path, cutoff, false, Boundaries(path));
    forall index: nat
      ensures index in out <==> Wanted(items, path, cutoff, index)
    {
      VisitIs(items, path, cutoff, index);
    }
  }

  /** The walk along `path` passes the node of `prefix` and reports it there. */
  predicate Reached(path: string, prefix: string) {
    prefix != "" && prefix <= path
    && (EndsWith(prefix, '/') || |path| == |prefix| || path[|prefix|] == '/')
  }

  /** Some insertion of rule `index` below the cutoff is reached. */
  ghost predicate Wanted(items: seq<Item>, path: string, cutoff: Option<nat>, index: nat) {
    && !SkipIndex(index, cutoff)
    && exists i :: 0 <= i < |items| && items[i].index == index && Reached(path, items[i].prefix)
  }

  lemma HitIff(items: seq<Item>, path: string, cutoff: Option<nat>, index: nat)
    ensures Hit(Log(items), path, cutoff, Boundaries(path), 1, |path| + 1, index) <==>
            Wanted(items, path, cutoff, index)
  {
    if d :| 1 <= d < |path| + 1 && HitAt(Log(items), path, cutoff, Boundaries(path), d, index) {
      HitIsWanted(items, path, cutoff, d, index);
    }
    if Wanted(items, path, cutoff, index) {
      var i :| 0 <= i < |items| && items[i].index == index && Reached(path, items[i].prefix);
      WantedIsHit(items, path, cutoff, i);
    }
  }

  lemma VisitIs(items: seq<Item>, path: string, cutoff: Option<nat>, index: nat)
    ensures index in Reports(Log(items), path, cutoff, Boundaries(path), 1, |path| + 1) <==>
            Wanted(items, path, cutoff, index)
  {
    ReportsAre(Log(items), path, cutoff, Boundaries(path), 1, |path| + 1, index);
    HitIff(items, path, cutoff, index);
  }

  lemma HitIsWanted(items: seq<Item>, path: string, cutoff: Option<nat>, d: nat, index: nat)
    requires 1 <= d <= |path| && HitAt(Log(items), path, cutoff, Boundaries(path), d, index)
    ensures Wanted(items, path, cutoff, index)
  {
    var log := Log(items);
    var flag := Insertion(path[..d], Terminal(index, true)) in log;
    var i :| 0 <= i < |log| && log[i] == Insertion(path[..d], Terminal(index, flag));
    assert items[i].prefix == path[..d] && Reached(path, items[i].prefix);
  }

  lemma WantedIsHit(items: seq<Item>, path: string, cutoff: Option<nat>, i: nat)
    requires i < |items| && Reached(path, items[i].prefix) && !SkipIndex(items[i].index, cutoff)
    ensures HitAt(Log(items), path, cutoff, Boundaries(path), |items[i].prefix|, items[i].index)
  {
    assert path[..|items[i].prefix|] == items[i].prefix;
    assert Log(items)[i] == Entry(items[i]);
  }

  /** The pairs on which the walk and `path_has_prefix` agree; both sides rooted is the usual case. */
  predicate Comparable(path: string, prefix: string) {
    && (prefix == "" ==> path != "" && path[0] != '/')
    && (prefix == "/" ==> StartsWith(path, '/'))
  }

  /** The trie decides `path_has_prefix` exactly on comparable pairs. */
  lemma ReachedIffPrefix(path: string, prefix: string)
    ensures (Reached(path, prefix) <==> PathHasPrefix(path, prefix)) <==> Comparable(path, prefix)
    ensures StartsWith(path, '/') && StartsWith(prefix, '/') ==> Comparable(path, prefix)
    ensures Reached(path, prefix) ==> PathHasPrefix(path, prefix)
  {
    assert prefix == "/" && StartsWith(path, '/') ==> prefix <= path;
  }
}
