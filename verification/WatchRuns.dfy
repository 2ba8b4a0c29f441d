/** Every change of the config file is sent, and nothing else is (src/watch.rs). */
module WatchRuns {
  import opened Basics
  import opened Reload
  import opened ReloadQueue

  /** Time `m` is later than the file's time at the start and at every poll so far. */
  predicate Later(modified: Option<nat>, polls: seq<Poll>, m: nat) {
    && (modified.Some? ==> modified.value < m)
    && forall i :: 0 <= i < |polls| ==> (polls[i].modified.Some? ==> polls[i].modified.value < m)
  }

  lemma {:induction false} WatchIsBehind(modified: Option<nat>, polls: seq<Poll>, m: nat)
    requires Later(modified, polls, m)
    ensures var w := WatchRun(modified, polls);
            && (w.lastProcessed.Some? ==> w.lastProcessed.value < m) && (w.pending.Some? ==> w.pending.value < m)
  {
    if polls != [] {
      WatchIsBehind(modified, polls[..|polls| - 1], m);
    }
  }

  lemma OneMorePoll(modified: Option<nat>, polls: seq<Poll>, poll: Poll)
    ensures var (w, sent) := Watched(WatchRun(modified, polls), poll);
            && WatchRun(modified, polls + [poll]) == w
            && SentBy(modified, polls + [poll]) == SentBy(modified, polls) + if sent.Some? then [sent.value] else []
  {
    assert (polls + [poll])[..|polls + [poll]| - 1] == polls;
  }

  /** The watcher has seen version `m` and waits for it to settle. */
  ghost predicate Waiting(modified: Option<nat>, polls: seq<Poll>, m: nat) {
    var w := WatchRun(modified, polls);
    w.pending == Some(m) && (w.lastProcessed.Some? ==> w.lastProcessed.value < m)
  }

  lemma FirstSighting(modified: Option<nat>, polls: seq<Poll>, poll: Poll, m: nat)
    requires Later(modified, polls, m) && poll.modified == Some(m)
    ensures Waiting(modified, polls + [poll], m) && SentBy(modified, polls + [poll]) == SentBy(modified, polls)
  {
    WatchIsBehind(modified, polls, m);
    OneMorePoll(modified, polls, poll);
  }

  /** Polls that cannot stat the file, or find version `m` not settled yet. */
  predicate Unsettled(polls: seq<Poll>, m: nat) {
    forall i :: 0 <= i < |polls| ==>
      polls[i].modified == None || (polls[i].modified == Some(m) && !polls[i].stable)
  }

  lemma {:induction false} WaitingGoesOn(modified: Option<nat>, polls: seq<Poll>, more: seq<Poll>, m: nat)
    requires Waiting(modified, polls, m) && Unsettled(more, m)
    ensures Waiting(modified, polls + more, m) && SentBy(modified, polls + more) == SentBy(modified, polls)
  {
    if more == [] {
      assert polls + more == polls;
    } else {
      var init, last := more[..|more| - 1], more[|more| - 1];
      WaitingGoesOn(modified, polls, init, m);
      OneMorePoll(modified, polls + init, last);
      assert polls + more == polls + init + [last];
    }
  }

  lemma SettledIsSent(modified: Option<nat>, polls: seq<Poll>, poll: Poll, m: nat, config: AppConfig)
    requires Waiting(modified, polls, m)
    requires poll.modified == Some(m) && poll.stable && poll.loaded == Ok(config) && poll.open
    ensures var before := SentBy(modified, polls);
            SentBy(modified, polls + [poll]) == before + [Request(Generation(|before| + 1), config)]
  {
    OneMorePoll(modified, polls, poll);
    SentAreNumbered(modified, polls);
  }

  /**
   A new version of the file is sent, once, with the config it holds and the next generation, on
   the first poll after its first sighting that finds it settled and can load it.
   */
  lemma ChangeIsSent(modified: Option<nat>, polls: seq<Poll>, a: Poll, waits: seq<Poll>, b: Poll, m: nat,
                     config: AppConfig)
    requires Later(modified, polls, m) && a.modified == Some(m) && Unsettled(waits, m)
    requires b.modified == Some(m) && b.stable && b.loaded == Ok(config) && b.open
    ensures var before := SentBy(modified, polls);
            SentBy(modified, polls + [a] + waits + [b]) == before + [Request(Generation(|before| + 1), config)]
  {
    FirstSighting(modified, polls, a, m);
    WaitingGoesOn(modified, polls + [a], waits, m);
    SettledIsSent(modified, polls + [a] + waits, b, m, config);
  }

  /** Poll `k` sends request `i`: settled, loadable, of a time that an earlier poll has seen. */
  ghost predicate Sends(modified: Option<nat>, polls: seq<Poll>, k: nat, i: nat, config: AppConfig) {
    && k < |polls| && polls[k].modified.Some? && polls[k].stable && polls[k].open && polls[k].loaded == Ok(config)
    && (exists j :: 0 <= j < k && polls[j].modified == polls[k].modified)
    && |SentBy(modified, polls[..k])| == i && |SentBy(modified, polls[..k + 1])| == i + 1
  }

  lemma SendsStill(modified: Option<nat>, polls: seq<Poll>, k: nat, i: nat, config: AppConfig)
    requires polls != [] && Sends(modified, polls[..|polls| - 1], k, i, config)
    ensures Sends(modified, polls, k, i, config)
  {
    var init := polls[..|polls| - 1];
    var j :| 0 <= j < k && init[j].modified == init[k].modified;
    assert polls[j].modified == polls[k].modified;
    assert init[..k] == polls[..k] && init[..k + 1] == polls[..k + 1];
  }

  lemma LastSends(modified: Option<nat>, polls: seq<Poll>)
    requires polls != [] && Watched(WatchRun(modified, polls[..|polls| - 1]), polls[|polls| - 1]).1.Some?
    ensures var init := polls[..|polls| - 1];
            var sent := Watched(WatchRun(modified, init), polls[|polls| - 1]).1.value;
            Sends(modified, polls, |polls| - 1, |SentBy(modified, init)|, sent.config)
  {
    var k := |polls| - 1;
    PendingWasSeen(modified, polls[..k]);
    var j :| 0 <= j < k && polls[..k][j].modified == polls[k].modified;
    assert polls[j].modified == polls[k].modified;
    assert polls[..k + 1] == polls;
  }

  /** Nothing else is sent: every request has its own poll. */
  lemma {:induction false} SentComesFromPoll(modified: Option<nat>, polls: seq<Poll>, i: nat) returns (k: nat)
    requires i < |SentBy(modified, polls)|
    ensures Sends(modified, polls, k, i, SentBy(modified, polls)[i].config)
    decreases |polls|
  {
    var init := polls[..|polls| - 1];
    if i < |SentBy(modified, init)| {
      k := SentComesFromPoll(modified, init, i);
      SendsStill(modified, polls, k, i, SentBy(modified, init)[i].config);
    } else {
      k := |polls| - 1;
      LastSends(modified, polls);
    }
  }

  // ----- in the runs of watcher and runtime

  function PollsOf(run: Run): seq<Poll> {
    match run
    case Begin(_, _) => []
    case Step(past, Polled(poll)) => PollsOf(past) + [poll]
    case Step(past, _) => PollsOf(past)
  }

  function StartTime(run: Run): Option<nat> {
    match run case Begin(_, modified) => modified case Step(past, _) => StartTime(past)
  }

  lemma {:induction false} WatchOfRun(run: Run)
    requires Possible(run)
    ensures State(run).watch == WatchRun(StartTime(run), PollsOf(run))
  {
    if run.Step? {
      WatchOfRun(run.past);
      if run.event.Polled? {
        OneMorePoll(StartTime(run), PollsOf(run.past), run.event.poll);
      }
    }
  }

  /**
   While the runtime goes on, a new version seen twice and settled is queued behind everything
   before it, and is the config that an idle runtime with an empty queue will have.
   */
  lemma ChangeIsQueued(run: Run, a: Poll, b: Poll, m: nat, config: AppConfig)
    requires Possible(run) && State(run).phase != Failed && Later(StartTime(run), PollsOf(run), m)
    requires a.modified == Some(m) && a.open && b.modified == Some(m) && b.stable && b.loaded == Ok(config) && b.open
    ensures var seen := Step(run, Polled(a));
            var sent := Step(seen, Polled(b));
            && Possible(sent) && State(sent).last == config
            && State(sent).queue == State(run).queue + [Request(Generation(State(run).sent + 1), config)]
  {
    WatchOfRun(run);
    WatchIsBehind(StartTime(run), PollsOf(run), m);
    NumberedRun(run);
    TwoPolls(State(run), a, b, m, config);
    assert State(Step(run, Polled(a))) == AfterPoll(State(run), a);
  }

  lemma NumberedRun(run: Run)
    requires Possible(run)
    ensures State(run).watch.nextGeneration == Generation(State(run).sent + 1)
  {
    RunInv(run);
  }

  lemma TwoPolls(s: System, a: Poll, b: Poll, m: nat, config: AppConfig)
    requires s.watch.lastProcessed.Some? ==> s.watch.lastProcessed.value < m
    requires s.watch.pending.Some? ==> s.watch.pending.value < m
    requires s.watch.nextGeneration == Generation(s.sent + 1)
    requires a.modified == Some(m) && b.modified == Some(m) && b.stable && b.loaded == Ok(config) && b.open
    ensures var seen := AfterPoll(s, a);
            var sent := AfterPoll(seen, b);
            && seen.phase == s.phase && sent.phase == s.phase && sent.last == config
            && sent.queue == s.queue + [Request(Generation(s.sent + 1), config)]
  {
    assert AfterPoll(s, a) == s.(watch := s.watch.(pending := Some(m)));
  }
}
