/** The explain trace of a decision (src/rules/pool/runtime.rs, explain_candidates). */
module Explain {
  import opened Basics
  import opened Rules
  import opened Decision
  import opened Resolution

  datatype Propagation = NoMatch | Continue | Stop

  /** `matched` is absent for candidates that come after the level's winner and are not tried. */
  datatype Candidate = Candidate(index: nat, matched: Option<bool>)

  datatype Group = Group(priority: int, candidates: seq<Candidate>, winner: Option<nat>, propagation: Propagation)

  datatype Trace = Trace(groups: seq<Group>, finalMatch: Option<nat>)

  // ----- one priority level

  function FirstMatch(vs: seq<Verdict>, run: seq<nat>): Option<nat>
    requires InRange(vs, run)
  {
    if run == [] then None
    else
      var earlier, last := FirstMatch(vs, run[..|run| - 1]), run[|run| - 1];
      if earlier.Some? then earlier else if vs[last].matches then Some(last) else None
  }

  function Shown(vs: seq<Verdict>, run: seq<nat>): seq<Candidate>
    requires InRange(vs, run)
  {
    if run == [] then []
    else
      var init, last := run[..|run| - 1], run[|run| - 1];
      Shown(vs, init) + [Candidate(last, if FirstMatch(vs, init).Some? then None else Some(vs[last].matches))]
  }

  function PropagationOf(vs: seq<Verdict>, winner: Option<nat>): Propagation
    requires winner.Some? ==> winner.value < |vs|
  {
    if winner.None? then NoMatch else if vs[winner.value].spread then Continue else Stop
  }

  predicate GroupShows(vs: seq<Verdict>, group: Group, run: seq<nat>)
    requires InRange(vs, run)
  {
    && run != []
    && (forall m :: 0 <= m < |run| ==> vs[run[m]].priority == group.priority)
    && group.candidates == Shown(vs, run)
    && group.winner == FirstMatch(vs, run)
    && (group.winner.Some? ==> group.winner.value < |vs|)
    && group.propagation == PropagationOf(vs, group.winner)
  }

  // ----- the trace

  function Concat(runs: seq<seq<nat>>): seq<nat> {
    if runs == [] then [] else Concat(runs[..|runs| - 1]) + runs[|runs| - 1]
  }

  function LastWinner(groups: seq<Group>): Option<nat> {
    if groups == [] then None
    else if groups[|groups| - 1].winner.Some? then groups[|groups| - 1].winner
    else LastWinner(groups[..|groups| - 1])
  }

  /** The groups split `runs` by level, from the highest priority down. */
  ghost predicate Shows(vs: seq<Verdict>, groups: seq<Group>, runs: seq<seq<nat>>) {
    && |groups| == |runs|
    && (forall g :: 0 <= g < |runs| ==> InRange(vs, runs[g]) && GroupShows(vs, groups[g], runs[g]))
    && (forall g, h :: 0 <= g < h < |runs| ==> groups[g].priority > groups[h].priority)
  }

  /** `finalize_explain_group`. */
  method FinalizeGroup(ghost vs: seq<Verdict>, rules: seq<Rule>, groups: seq<Group>, ghost runs: seq<seq<nat>>,
                       priority: int, candidates: seq<Candidate>, ghost run: seq<nat>, winner: Option<nat>,
                       finalMatch: Option<nat>)
    returns (groups': seq<Group>, finalMatch': Option<nat>)
    requires |vs| == |rules| && (forall i :: 0 <= i < |rules| ==> vs[i].spread == rules[i].spread)
    requires Shows(vs, groups, runs) && finalMatch == LastWinner(groups)
    requires InRange(vs, run) && run != [] && candidates == Shown(vs, run) && winner == FirstMatch(vs, run)
    requires forall m :: 0 <= m < |run| ==> vs[run[m]].priority == priority
    requires forall g :: 0 <= g < |groups| ==> groups[g].priority > priority
    ensures Shows(vs, groups', runs + [run]) && finalMatch' == LastWinner(groups')
    ensures |groups'| == |groups| + 1 && groups'[..|groups|] == groups && groups'[|groups|].priority == priority
  {
    FirstMatchIs(vs, run);
    var propagation := NoMatch;
    finalMatch' := finalMatch;
    if winner.Some? {
      finalMatch' := winner;
      propagation := if rules[winner.value].spread then Continue else Stop;
    }
    groups' := groups + [Group(priority, candidates, winner, propagation)];
    assert groups'[..|groups'| - 1] == groups;
  }

  /** One candidate of the level in progress: tried until the level has a winner. */
  method TryCandidate(ghost vs: seq<Verdict>, rule: Rule, request: Request,
                      candidates: seq<Candidate>, ghost run: seq<nat>, winner: Option<nat>, index: nat)
    returns (candidates': seq<Candidate>, winner': Option<nat>)
    requires InRange(vs, run) && index < |vs| && vs[index].matches == RuleMatches(rule, request)
    requires candidates == Shown(vs, run) && winner == FirstMatch(vs, run)
    ensures InRange(vs, run + [index])
    ensures candidates' == Shown(vs, run + [index]) && winner' == FirstMatch(vs, run + [index])
  {
    ShownSnoc(vs, run, index);
    winner' := winner;
    if winner.Some? {
      candidates' := candidates + [Candidate(index, None)];
    } else if RuleMatches(rule, request) {
      candidates' := candidates + [Candidate(index, Some(true))];
      winner' := Some(index);
    } else {
      candidates' := candidates + [Candidate(index, Some(false))];
    }
  }

  /** The locals of `explain_candidates`. */
  datatype Walk = Walk(groups: seq<Group>, finalMatch: Option<nat>, level: Option<int>,
                       candidates: seq<Candidate>, winner: Option<nat>)

  /** The loop state after `k` candidates; `run` is the level in progress. */
  ghost predicate Walking(vs: seq<Verdict>, cs: seq<nat>, k: nat, walk: Walk, runs: seq<seq<nat>>, run: seq<nat>)
    requires k <= |cs|
  {
    && Shows(vs, walk.groups, runs) && InRange(vs, run) && Concat(runs) + run == cs[..k]
    && walk.candidates == Shown(vs, run) && walk.winner == FirstMatch(vs, run)
    && walk.finalMatch == LastWinner(walk.groups)
    && (walk.level.None? ==> run == [] && walk.groups == [])
    && (walk.level.Some? ==>
          && (forall m :: 0 <= m < |run| ==> vs[run[m]].priority == walk.level.value)
          && (forall g :: 0 <= g < |walk.groups| ==> walk.groups[g].priority > walk.level.value))
  }

  /** Closes the level in progress and opens `next`, a lower one. */
  method CloseLevel(ghost vs: seq<Verdict>, rules: seq<Rule>, ghost cs: seq<nat>, ghost k: nat, walk: Walk,
                    ghost runs: seq<seq<nat>>, ghost run: seq<nat>, next: int)
    returns (walk': Walk, ghost runs': seq<seq<nat>>)
    requires |vs| == |rules| && (forall i :: 0 <= i < |rules| ==> vs[i].spread == rules[i].spread)
    requires k <= |cs| && Walking(vs, cs, k, walk, runs, run)
    requires walk.level.Some? ==> run != [] && next < walk.level.value
    ensures walk'.level == Some(next) && Walking(vs, cs, k, walk', runs', [])
  {
    walk', runs' := walk.(level := Some(next), candidates := [], winner := None), runs;
    if walk.level.Some? {
      var groups, finalMatch := FinalizeGroup(vs, rules, walk.groups, runs, walk.level.value, walk.candidates, run,
                                              walk.winner, walk.finalMatch);
      ConcatSnoc(runs, run);
      runs' := runs + [run];
      walk' := walk'.(groups := groups, finalMatch := finalMatch);
      forall g | 0 <= g < |groups|
        ensures groups[g].priority > next
      {
        assert g < |walk.groups| ==> groups[g] == groups[..|walk.groups|][g];
      }
    }
    assert Concat(runs') + [] == cs[..k];
  }

  method Step(ghost vs: seq<Verdict>, rules: seq<Rule>, request: Request, cs: seq<nat>, k: nat, walk: Walk,
              ghost runs: seq<seq<nat>>, ghost run: seq<nat>)
    returns (walk': Walk, ghost runs': seq<seq<nat>>, ghost run': seq<nat>)
    requires Judges(vs, rules, request, cs) && k < |cs|
    requires Walking(vs, cs, k, walk, runs, run)
    requires walk.level.Some? ==> run != [] && rules[cs[k]].priority <= walk.level.value
    ensures Walking(vs, cs, k + 1, walk', runs', run') && run' != [] && walk'.level == Some(rules[cs[k]].priority)
  {
    var rule := rules[cs[k]];
    walk', runs', run' := walk, runs, run;
    if walk.level != Some(rule.priority) {
      walk', runs' := CloseLevel(vs, rules, cs, k, walk, runs, run, rule.priority);
      run' := [];
    }
    var candidates, winner := TryCandidate(vs, rule, request, walk'.candidates, run', walk'.winner, cs[k]);
    TakeSnoc(cs, k, Concat(runs'), run');
    run' := run' + [cs[k]];
    walk' := walk'.(candidates := candidates, winner := winner);
  }

  /** The loop invariant: from the first candidate on, a level is in progress and not empty. */
  ghost predicate Through(vs: seq<Verdict>, cs: seq<nat>, k: nat, walk: Walk, runs: seq<seq<nat>>, run: seq<nat>)
    requires k <= |cs| && InRange(vs, cs)
  {
    && Walking(vs, cs, k, walk, runs, run)
    && if k == 0 then walk.level.None? else run != [] && walk.level == Some(vs[cs[k - 1]].priority)
  }

  method NextCandidate(ghost vs: seq<Verdict>, rules: seq<Rule>, request: Request, cs: seq<nat>, k: nat, walk: Walk,
                       ghost runs: seq<seq<nat>>, ghost run: seq<nat>)
    returns (walk': Walk, ghost runs': seq<seq<nat>>, ghost run': seq<nat>)
    requires Judges(vs, rules, request, cs) && StrictlyOrdered(vs, cs) && k < |cs|
    requires Through(vs, cs, k, walk, runs, run)
    ensures Through(vs, cs, k + 1, walk', runs', run')
  {
    assert k > 0 ==> Before(vs, cs[k - 1], cs[k]);
    walk', runs', run' := Step(vs, rules, request, cs, k, walk, runs, run);
  }

  method ExplainCandidates(ghost vs: seq<Verdict>, rules: seq<Rule>, request: Request, cs: seq<nat>)
    returns (trace: Trace, ghost runs: seq<seq<nat>>)
    requires Judges(vs, rules, request, cs) && StrictlyOrdered(vs, cs)
    ensures Shows(vs, trace.groups, runs) && Concat(runs) == cs
    ensures Listed(trace.groups) == cs && trace.finalMatch == LastWinner(trace.groups)
  {
    var walk := Walk([], None, None, [], None);
    ghost var run: seq<nat> := [];
    runs := [];
    for k := 0 to |cs|
      invariant Through(vs, cs, k, walk, runs, run)
    {
      walk, runs, run := NextCandidate(vs, rules, request, cs, k, walk, runs, run);
    }
    trace, runs := Finish(vs, rules, cs, walk, runs, run);
  }

  method Finish(ghost vs: seq<Verdict>, rules: seq<Rule>, ghost cs: seq<nat>, walk: Walk,
                ghost runs: seq<seq<nat>>, ghost run: seq<nat>)
    returns (trace: Trace, ghost runs': seq<seq<nat>>)
    requires |vs| == |rules| && (forall i :: 0 <= i < |rules| ==> vs[i].spread == rules[i].spread)
    requires InRange(vs, cs) && Through(vs, cs, |cs|, walk, runs, run)
    ensures Shows(vs, trace.groups, runs') && Concat(runs') == cs
    ensures Listed(trace.groups) == cs && trace.finalMatch == LastWinner(trace.groups)
  {
    var end := walk;
    runs' := runs;
    if walk.level.Some? {
      end, runs' := CloseLevel(vs, rules, cs, |cs|, walk, runs, run, walk.level.value - 1);
    }
    assert Concat(runs') + [] == Concat(runs') && cs[..|cs|] == cs;
    GroupsConcatenate(vs, end.groups, runs');
    trace := Trace(end.groups, end.finalMatch);
  }

  lemma ShownSnoc(vs: seq<Verdict>, run: seq<nat>, i: nat)
    requires InRange(vs, run) && i < |vs|
    ensures InRange(vs, run + [i])
    ensures FirstMatch(vs, run + [i]) ==
            if FirstMatch(vs, run).Some? then FirstMatch(vs, run) else if vs[i].matches then Some(i) else None
    ensures Shown(vs, run + [i]) ==
            Shown(vs, run) + [Candidate(i, if FirstMatch(vs, run).Some? then None else Some(vs[i].matches))]
  {
    assert (run + [i])[..|run + [i]| - 1] == run;
  }

  lemma TakeSnoc(cs: seq<nat>, k: nat, done: seq<nat>, run: seq<nat>)
    requires k < |cs| && done + run == cs[..k]
    ensures done + (run + [cs[k]]) == cs[..k + 1]
  {
    assert cs[..k + 1] == cs[..k] + [cs[k]];
  }

  lemma ConcatSnoc(runs: seq<seq<nat>>, run: seq<nat>)
    ensures Concat(runs + [run]) == Concat(runs) + run
  {
    assert (runs + [run])[..|runs + [run]| - 1] == runs;
  }

  lemma {:induction false} FirstMatchIs(vs: seq<Verdict>, run: seq<nat>)
    requires InRange(vs, run)
    ensures match FirstMatch(vs, run)
            case None => forall m :: 0 <= m < |run| ==> !vs[run[m]].matches
            case Some(w) => w < |vs| && vs[w].matches &&
                            exists m :: 0 <= m < |run| && run[m] == w && forall n :: 0 <= n < m ==> !vs[run[n]].matches
  {
    if run != [] {
      FirstMatchIs(vs, run[..|run| - 1]);
    }
  }

  // ----- the trace and the candidates

  function Indices(candidates: seq<Candidate>): seq<nat> {
    seq(|candidates|, i requires 0 <= i < |candidates| => candidates[i].index)
  }

  /** The candidates of all groups, in the order of the trace. */
  function Listed(groups: seq<Group>): seq<nat> {
    if groups == [] then [] else Listed(groups[..|groups| - 1]) + Indices(groups[|groups| - 1].candidates)
  }

  lemma {:induction false} ShownIndices(vs: seq<Verdict>, run: seq<nat>)
    requires InRange(vs, run)
    ensures Indices(Shown(vs, run)) == run
  {
    if run != [] {
      ShownIndices(vs, run[..|run| - 1]);
      assert run == run[..|run| - 1] + [run[|run| - 1]];
      assert Indices(Shown(vs, run)) == Indices(Shown(vs, run[..|run| - 1])) + [run[|run| - 1]];
    }
  }

  lemma ShowsFewer(vs: seq<Verdict>, groups: seq<Group>, runs: seq<seq<nat>>)
    requires Shows(vs, groups, runs) && groups != []
    ensures Shows(vs, groups[..|groups| - 1], runs[..|runs| - 1])
    ensures InRange(vs, runs[|runs| - 1]) && groups[|groups| - 1].candidates == Shown(vs, runs[|runs| - 1])
  {
    var last := |groups| - 1;
    assert GroupShows(vs, groups[last], runs[last]);
    forall g | 0 <= g < last
      ensures InRange(vs, runs[..last][g]) && GroupShows(vs, groups[..last][g], runs[..last][g])
    {
      assert groups[..last][g] == groups[g] && runs[..last][g] == runs[g];
    }
    forall g, h | 0 <= g < h < last
      ensures groups[..last][g].priority > groups[..last][h].priority
    {
      assert groups[..last][g] == groups[g] && groups[..last][h] == groups[h];
    }
  }

  /** What is shown of each candidate: tried, with its result, unless an earlier one of its level matched. */
  lemma {:induction false} ShownIs(vs: seq<Verdict>, run: seq<nat>, k: nat)
    requires InRange(vs, run) && k < |run|
    ensures |Shown(vs, run)| == |run| && Shown(vs, run)[k].index == run[k]
    ensures Shown(vs, run)[k].matched ==
            if exists n :: 0 <= n < k && vs[run[n]].matches then None else Some(vs[run[k]].matches)
  {
    var init := run[..|run| - 1];
    ShownIndices(vs, run);
    ShownIndices(vs, init);
    if k < |run| - 1 {
      ShownIs(vs, init, k);
      assert forall n :: 0 <= n < k ==> init[n] == run[n];
    } else {
      FirstMatchIs(vs, init);
      assert forall n :: 0 <= n < k ==> init[n] == run[n];
    }
  }

  /** The groups lose, add and reorder no candidate. */
  lemma {:induction false} GroupsConcatenate(vs: seq<Verdict>, groups: seq<Group>, runs: seq<seq<nat>>)
    requires Shows(vs, groups, runs)
    ensures Listed(groups) == Concat(runs)
  {
    if groups != [] {
      ShowsFewer(vs, groups, runs);
      GroupsConcatenate(vs, groups[..|groups| - 1], runs[..|runs| - 1]);
      ShownIndices(vs, runs[|runs| - 1]);
    }
  }

  // ----- the trace and the decision

  /** The winner of the first group that stops, else of the last group that continues. */
  function Pick(groups: seq<Group>): Option<nat> {
    if groups == [] then None
    else if groups[0].propagation == Stop then groups[0].winner
    else
      var later := Pick(groups[1..]);
      if later.Some? then later else groups[0].winner
  }

  lemma {:induction false} ConcatMembers(runs: seq<seq<nat>>, x: nat)
    ensures x in Concat(runs) <==> exists g :: 0 <= g < |runs| && x in runs[g]
  {
    if runs != [] {
      ConcatMembers(runs[..|runs| - 1], x);
    }
  }

  lemma {:induction false} RunIsOrdered(vs: seq<Verdict>, runs: seq<seq<nat>>, g: nat)
    requires g < |runs| && InRange(vs, Concat(runs)) && StrictlyOrdered(vs, Concat(runs))
    ensures InRange(vs, runs[g]) && StrictlyOrdered(vs, runs[g])
  {
    var init, last := Concat(runs[..|runs| - 1]), runs[|runs| - 1];
    assert Concat(runs)[..|init|] == init && Concat(runs)[|init|..] == last;
    if g < |runs| - 1 {
      RunIsOrdered(vs, runs[..|runs| - 1], g);
    }
  }

  ghost predicate Explained(vs: seq<Verdict>, groups: seq<Group>, runs: seq<seq<nat>>) {
    && InRange(vs, Concat(runs)) && StrictlyOrdered(vs, Concat(runs)) && CoversMatches(vs, Concat(runs))
    && Shows(vs, groups, runs)
  }

  /** Candidates of the same priority are shown in the same group. */
  lemma SameLevelSameRun(vs: seq<Verdict>, groups: seq<Group>, runs: seq<seq<nat>>, g: nat, j: nat)
    requires Explained(vs, groups, runs) && g < |runs| && j < |vs|
    requires vs[j].matches && vs[j].priority == groups[g].priority
    ensures j in runs[g]
  {
    ConcatMembers(runs, j);
    var h :| 0 <= h < |runs| && j in runs[h];
    assert groups[h].priority == vs[j].priority;
  }

  /** A group's winner wins its level among all rules, not just among the candidates. */
  lemma GroupWinnerWins(vs: seq<Verdict>, groups: seq<Group>, runs: seq<seq<nat>>, g: nat)
    requires Explained(vs, groups, runs) && g < |groups| && groups[g].winner.Some?
    ensures Wins(vs, groups[g].winner.value) && vs[groups[g].winner.value].priority == groups[g].priority
  {
    var run, w := runs[g], groups[g].winner.value;
    FirstMatchIs(vs, run);
    RunIsOrdered(vs, runs, g);
    var m :| 0 <= m < |run| && run[m] == w && forall n :: 0 <= n < m ==> !vs[run[n]].matches;
    forall j | 0 <= j < |vs| && vs[j].priority == vs[w].priority && vs[j].matches
      ensures w <= j
    {
      SameLevelSameRun(vs, groups, runs, g, j);
      var n :| 0 <= n < |run| && run[n] == j;
      assert m < n ==> Before(vs, run[m], run[n]);
    }
  }

  lemma WinnerHasGroup(vs: seq<Verdict>, groups: seq<Group>, runs: seq<seq<nat>>, i: nat)
    requires Explained(vs, groups, runs) && Wins(vs, i)
    ensures exists g :: 0 <= g < |groups| && groups[g].winner == Some(i)
  {
    ConcatMembers(runs, i);
    var g :| 0 <= g < |runs| && i in runs[g];
    FirstMatchIs(vs, runs[g]);
    GroupWinnerWins(vs, groups, runs, g);
    assert groups[g].winner == Some(i);
  }

  /** What a group says of all rules. */
  ghost predicate GroupReflects(vs: seq<Verdict>, group: Group) {
    match group.winner
    case None => group.propagation == NoMatch
    case Some(w) =>
      Wins(vs, w) && vs[w].priority == group.priority && group.propagation == if vs[w].spread then Continue else Stop
  }

  ghost predicate HasGroup(groups: seq<Group>, i: nat) {
    exists g :: 0 <= g < |groups| && groups[g].winner == Some(i)
  }

  /** The trace shows exactly the level winners, from the highest level down. */
  ghost predicate Reflects(vs: seq<Verdict>, groups: seq<Group>) {
    && (forall g, h :: 0 <= g < h < |groups| ==> groups[g].priority > groups[h].priority)
    && (forall g :: 0 <= g < |groups| ==> GroupReflects(vs, groups[g]))
    && (forall i: nat :: Wins(vs, i) ==> HasGroup(groups, i))
  }

  lemma ExplainedReflects(vs: seq<Verdict>, groups: seq<Group>, runs: seq<seq<nat>>)
    requires Explained(vs, groups, runs)
    ensures Reflects(vs, groups)
  {
    forall g | 0 <= g < |groups|
      ensures GroupReflects(vs, groups[g])
    {
      if groups[g].winner.Some? {
        GroupWinnerWins(vs, groups, runs, g);
      }
    }
    forall i: nat | Wins(vs, i)
      ensures HasGroup(groups, i)
    {
      WinnerHasGroup(vs, groups, runs, i);
    }
  }

  /** Group `g` holds the picked winner: it stops first, or nothing stops and no later group wins. */
  ghost predicate Picked(groups: seq<Group>, g: nat) {
    && g < |groups| && groups[g].winner.Some?
    && (forall h :: 0 <= h < g ==> groups[h].propagation != Stop)
    && (groups[g].propagation == Stop
        || forall h :: g < h < |groups| ==> groups[h].winner.None? && groups[h].propagation != Stop)
  }

  lemma {:induction false} PickIs(groups: seq<Group>)
    requires forall g :: 0 <= g < |groups| ==> (groups[g].propagation == Stop ==> groups[g].winner.Some?)
    ensures match Pick(groups)
            case None => forall g :: 0 <= g < |groups| ==> groups[g].winner.None?
            case Some(w) => exists g: nat :: Picked(groups, g) && groups[g].winner == Some(w)
  {
    if groups != [] {
      PickIs(groups[1..]);
      if groups[0].propagation == Stop {
        assert Picked(groups, 0);
      } else if Pick(groups[1..]).Some? {
        var g: nat :| Picked(groups[1..], g) && groups[1..][g].winner == Pick(groups[1..]);
        assert forall h :: 0 < h < |groups| ==> groups[h] == groups[1..][h - 1];
        assert Picked(groups, g + 1);
      } else if groups[0].winner.Some? {
        assert forall h :: 0 < h < |groups| ==> groups[h] == groups[1..][h - 1];
        assert Picked(groups, 0);
      }
    }
  }

  lemma PickedDecides(vs: seq<Verdict>, groups: seq<Group>, g: nat)
    requires Reflects(vs, groups) && Picked(groups, g)
    ensures Decides(vs, groups[g].winner)
  {
    assert GroupReflects(vs, groups[g]);
    var w := groups[g].winner.value;
    forall i: nat | Wins(vs, i)
      ensures vs[w].spread ==> vs[i].spread && vs[w].priority <= vs[i].priority
      ensures vs[w].priority < vs[i].priority ==> vs[i].spread
    {
      assert HasGroup(groups, i);
      var h :| 0 <= h < |groups| && groups[h].winner == Some(i);
      assert GroupReflects(vs, groups[h]);
    }
  }

  /** Reading the decision off the trace: first group that stops, else last that continues. */
  lemma PickDecides(vs: seq<Verdict>, groups: seq<Group>)
    requires Reflects(vs, groups)
    ensures Decides(vs, Pick(groups))
  {
    StopsHaveWinners(vs, groups);
    PickIs(groups);
    if Pick(groups).Some? {
      var g: nat :| Picked(groups, g) && groups[g].winner == Pick(groups);
      PickedDecides(vs, groups, g);
    } else {
      forall i: nat
        ensures !Wins(vs, i)
      {
        assert Wins(vs, i) ==> HasGroup(groups, i);
      }
      NoWinnerNoMatch(vs);
    }
  }

  lemma StopsHaveWinners(vs: seq<Verdict>, groups: seq<Group>)
    requires Reflects(vs, groups)
    ensures forall g :: 0 <= g < |groups| ==> (groups[g].propagation == Stop ==> groups[g].winner.Some?)
  {
    forall g | 0 <= g < |groups|
      ensures groups[g].propagation == Stop ==> groups[g].winner.Some?
    {
      assert GroupReflects(vs, groups[g]);
    }
  }

  lemma NoWinnerNoMatch(vs: seq<Verdict>)
    requires forall i: nat :: !Wins(vs, i)
    ensures forall i :: 0 <= i < |vs| ==> !vs[i].matches
  {
    forall i | 0 <= i < |vs|
      ensures !vs[i].matches
    {
      if vs[i].matches {
        var w := LevelHasWinner(vs, i);
      }
    }
  }

  lemma {:induction false} LastWinnerIs(groups: seq<Group>) returns (last: nat)
    ensures LastWinner(groups).None? ==> forall g :: 0 <= g < |groups| ==> groups[g].winner.None?
    ensures LastWinner(groups).Some? ==> last < |groups| && groups[last].winner == LastWinner(groups)
    ensures LastWinner(groups).Some? ==> forall g :: last < g < |groups| ==> groups[g].winner.None?
  {
    last := |groups|;
    if groups != [] {
      last := |groups| - 1;
      if groups[last].winner.None? {
        last := LastWinnerIs(groups[..last]);
      }
    }
  }

  ghost predicate WinnerAfterStop(groups: seq<Group>) {
    exists g, h :: 0 <= g < h < |groups| && groups[g].propagation == Stop && groups[h].winner.Some?
  }

  lemma OverrunFromGroups(vs: seq<Verdict>, groups: seq<Group>)
    requires Reflects(vs, groups) && WinnerAfterStop(groups)
    ensures Overrun(vs)
  {
    var g, h :| 0 <= g < h < |groups| && groups[g].propagation == Stop && groups[h].winner.Some?;
    assert GroupReflects(vs, groups[g]) && GroupReflects(vs, groups[h]);
    assert Wins(vs, groups[g].winner.value) && Wins(vs, groups[h].winner.value);
  }

  lemma OverrunInGroups(vs: seq<Verdict>, groups: seq<Group>, i: nat, j: nat)
    requires Reflects(vs, groups) && Wins(vs, i) && !vs[i].spread && Wins(vs, j) && vs[j].priority < vs[i].priority
    ensures WinnerAfterStop(groups)
  {
    assert HasGroup(groups, i) && HasGroup(groups, j);
    var g :| 0 <= g < |groups| && groups[g].winner == Some(i);
    var h :| 0 <= h < |groups| && groups[h].winner == Some(j);
    assert GroupReflects(vs, groups[g]) && GroupReflects(vs, groups[h]);
    assert g < h;
  }

  /** Whether a winner follows a stop can be known from the rules, before any trace is made. */
  lemma WinnerAfterStopIff(vs: seq<Verdict>, groups: seq<Group>)
    requires Reflects(vs, groups)
    ensures WinnerAfterStop(groups) <==> Overrun(vs)
  {
    if WinnerAfterStop(groups) {
      OverrunFromGroups(vs, groups);
    }
    if i: nat, j: nat :| Wins(vs, i) && !vs[i].spread && Wins(vs, j) && vs[j].priority < vs[i].priority {
      OverrunInGroups(vs, groups, i, j);
    }
  }

  /** Where the decision and the last winner sit in the trace. */
  lemma LastWinnerIsPicked(vs: seq<Verdict>, groups: seq<Group>, g: nat, last: nat)
    requires Reflects(vs, groups) && Picked(groups, g)
    requires last < |groups| && groups[last].winner.Some? && forall h :: last < h < |groups| ==> groups[h].winner.None?
    ensures groups[last].winner == groups[g].winner <==> !WinnerAfterStop(groups)
  {
    assert GroupReflects(vs, groups[g]) && GroupReflects(vs, groups[last]);
    assert g <= last;
    if WinnerAfterStop(groups) {
      var a, b :| 0 <= a < b < |groups| && groups[a].propagation == Stop && groups[b].winner.Some?;
      assert g <= a < b <= last;
    }
  }

  /** `final_match` is the decision exactly when no level wins below a non-spread winner. */
  lemma FinalMatchIsDecision(vs: seq<Verdict>, groups: seq<Group>, decision: Option<nat>)
    requires Reflects(vs, groups) && Decides(vs, decision)
    ensures LastWinner(groups) == decision <==> !Overrun(vs)
  {
    PickDecides(vs, groups);
    DecisionIsUnique(vs, decision, Pick(groups));
    WinnerAfterStopIff(vs, groups);
    var last := LastWinnerIs(groups);
    StopsHaveWinners(vs, groups);
    PickIs(groups);
    if decision.Some? {
      var g: nat :| Picked(groups, g) && groups[g].winner == decision;
      LastWinnerIsPicked(vs, groups, g, last);
    }
  }

  /** It is always the winner of the lowest level that has one. */
  lemma FinalMatchIsLowest(vs: seq<Verdict>, groups: seq<Group>)
    requires Reflects(vs, groups)
    ensures match LastWinner(groups)
            case None => forall i: nat :: !Wins(vs, i)
            case Some(w) => Wins(vs, w) && forall i: nat :: Wins(vs, i) ==> vs[w].priority <= vs[i].priority
  {
    var last := LastWinnerIs(groups);
    forall i: nat | Wins(vs, i)
      ensures LastWinner(groups).Some? && vs[i].priority >= groups[last].priority
    {
      assert HasGroup(groups, i);
      var h :| 0 <= h < |groups| && groups[h].winner == Some(i);
      assert GroupReflects(vs, groups[h]);
    }
    if LastWinner(groups).Some? {
      assert GroupReflects(vs, groups[last]);
    }
  }
}
