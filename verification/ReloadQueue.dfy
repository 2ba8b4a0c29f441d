/** Generation-numbered reload requests, from the file watcher to the runtime (src/watch.rs, src/gateway/runtime.rs). */
module ReloadQueue {
  import opened Basics
  import opened Reload

  const U64_MAX: nat := 0xFFFF_FFFF_FFFF_FFFF

  datatype Request = Request(generation: nat, config: AppConfig)

  /** The generation carried by the n-th request sent, counting from one: the counter saturates. */
  function Generation(n: nat): nat {
    if n < U64_MAX then n else U64_MAX
  }

  // ----- the watcher

  /**
   What a poll of the config file finds: its modification time, whether it is old enough, what
   loading gives, and whether the runtime still holds the other end of the queue.
   */
  datatype Poll = Poll(modified: Option<nat>, stable: bool, loaded: Result<AppConfig>, open: bool)

  datatype WatchState = WatchState(lastProcessed: Option<nat>, pending: Option<nat>, nextGeneration: nat)

  /** A poll loads the file exactly when it is new, was seen at the same time on an earlier poll, and is stable. */
  predicate Loads(w: WatchState, poll: Poll) {
    && poll.modified.Some?
    && (w.lastProcessed.Some? ==> poll.modified.value > w.lastProcessed.value)
    && w.pending == poll.modified && poll.stable
  }

  /** A request that cannot be sent does not use up its generation. */
  function Watched(w: WatchState, poll: Poll): (WatchState, Option<Request>) {
    if Loads(w, poll) then
      match poll.loaded
      case Ok(config) =>
        if poll.open then
          (WatchState(poll.modified, None,
                      if w.nextGeneration < U64_MAX then w.nextGeneration + 1 else w.nextGeneration),
           Some(Request(w.nextGeneration, config)))
        else (WatchState(poll.modified, None, w.nextGeneration), None)
      case Err => (WatchState(poll.modified, None, w.nextGeneration), None)
    else if poll.modified.Some? && (w.lastProcessed.Some? ==> poll.modified.value > w.lastProcessed.value)
    then (w.(pending := poll.modified), None)
    else (w, None)
  }

  class ConfigWatch {
    var state: WatchState

    constructor (modified: Option<nat>)
      ensures state == WatchState(modified, None, 1)
    {
      state := WatchState(modified, None, 1);
    }

    /** One turn of the watch loop. */
    method Turn(poll: Poll) returns (sent: Option<Request>)
      modifies this
      ensures (state, sent) == Watched(old(state), poll)
    {
      sent := None;
      if poll.modified.None? {
        return;
      }
      var modified := poll.modified.value;
      if state.lastProcessed.Some? && modified <= state.lastProcessed.value {
        return;
      }
      if state.pending != Some(modified) {
        state := state.(pending := Some(modified));
        return;
      }
      if !poll.stable {
        return;
      }
      match poll.loaded {
        case Ok(config) =>
          if poll.open {
            sent := Some(Request(state.nextGeneration, config));
            if state.nextGeneration < U64_MAX {
              state := state.(nextGeneration := state.nextGeneration + 1);
            }
          }
        case Err =>
      }
      state := state.(lastProcessed := Some(modified), pending := None);
    }
  }

  function WatchRun(modified: Option<nat>, polls: seq<Poll>): WatchState {
    if polls == [] then WatchState(modified, None, 1)
    else Watched(WatchRun(modified, polls[..|polls| - 1]), polls[|polls| - 1]).0
  }

  /** The modification times at which the file was loaded. */
  function LoadTimes(modified: Option<nat>, polls: seq<Poll>): seq<nat> {
    if polls == [] then []
    else
      var init, poll := polls[..|polls| - 1], polls[|polls| - 1];
      if Loads(WatchRun(modified, init), poll) then LoadTimes(modified, init) + [poll.modified.value]
      else LoadTimes(modified, init)
  }

  function SentBy(modified: Option<nat>, polls: seq<Poll>): seq<Request> {
    if polls == [] then []
    else
      var init := polls[..|polls| - 1];
      match Watched(WatchRun(modified, init), polls[|polls| - 1]).1
      case Some(r) => SentBy(modified, init) + [r]
      case None => SentBy(modified, init)
  }

  predicate Increasing(ts: seq<nat>) {
    forall i, j :: 0 <= i < j < |ts| ==> ts[i] < ts[j]
  }

  /** `ts` increases from `after` on and ends with `last`. */
  predicate RisesTo(ts: seq<nat>, after: Option<nat>, last: Option<nat>) {
    && Increasing(ts)
    && last == (if ts == [] then after else Some(ts[|ts| - 1]))
    && (ts != [] && after.Some? ==> after.value < ts[0])
  }

  lemma RisesFurther(ts: seq<nat>, after: Option<nat>, last: Option<nat>, t: nat)
    requires RisesTo(ts, after, last) && (last.Some? ==> last.value < t)
    ensures RisesTo(ts + [t], after, Some(t))
  {
    var more := ts + [t];
    forall i, j | 0 <= i < j < |more|
      ensures more[i] < more[j]
    {
      if j == |ts| {
        assert i < |ts| - 1 ==> ts[i] < ts[|ts| - 1];
      }
    }
  }

  /** No version of the file is loaded twice: load times strictly increase over every run. */
  lemma {:induction false} LoadTimesIncrease(modified: Option<nat>, polls: seq<Poll>)
    ensures RisesTo(LoadTimes(modified, polls), modified, WatchRun(modified, polls).lastProcessed)
  {
    if polls != [] {
      var init, poll := polls[..|polls| - 1], polls[|polls| - 1];
      LoadTimesIncrease(modified, init);
      if Loads(WatchRun(modified, init), poll) {
        RisesFurther(LoadTimes(modified, init), modified, WatchRun(modified, init).lastProcessed, poll.modified.value);
      }
    }
  }

  /** The debounce: a pending time was the file's time on some poll of the run. */
  lemma {:induction false} PendingWasSeen(modified: Option<nat>, polls: seq<Poll>)
    ensures var p := WatchRun(modified, polls).pending;
            p.Some? ==> exists i :: 0 <= i < |polls| && polls[i].modified == p
  {
    if polls != [] {
      PendingWasSeen(modified, polls[..|polls| - 1]);
      var p := WatchRun(modified, polls).pending;
      if p.Some? && p != polls[|polls| - 1].modified {
        var i :| 0 <= i < |polls| - 1 && polls[..|polls| - 1][i].modified == p;
        assert polls[i].modified == p;
      }
    }
  }

  /** A file version is only loaded on its second sighting or later. */
  lemma LoadNeedsTwoSightings(modified: Option<nat>, polls: seq<Poll>, poll: Poll)
    requires Loads(WatchRun(modified, polls), poll)
    ensures exists i :: 0 <= i < |polls| && polls[i].modified == poll.modified
  {
    PendingWasSeen(modified, polls);
  }

  /** The n-th request sent carries `Generation(n)`. */
  lemma {:induction false} SentAreNumbered(modified: Option<nat>, polls: seq<Poll>)
    ensures WatchRun(modified, polls).nextGeneration == Generation(|SentBy(modified, polls)| + 1)
    ensures forall i :: 0 <= i < |SentBy(modified, polls)| ==>
            SentBy(modified, polls)[i].generation == Generation(i + 1)
  {
    if polls != [] {
      SentAreNumbered(modified, polls[..|polls| - 1]);
    }
  }

  // ----- watcher and runtime interleaved

  datatype Phase = Idle | Draining | Deciding | Failed

  /**
   Watcher, queue and runtime.  `log` is every start and stop of a component so far; the counts,
   `serial` and `last` are the history of the requests.
   */
  datatype System = System(
    watch: WatchState, queue: seq<Request>, phase: Phase, inHand: Option<Request>,
    generation: nat, config: AppConfig, log: History, nextId: nat,
    sent: nat, applied: nat, skipped: nat, stale: nat, serial: nat, last: AppConfig)

  function Start(config: AppConfig, modified: Option<nat>): System {
    System(WatchState(modified, None, 1), [], Idle, None, 0, config, Startup(config, ALL_START), 4,
           0, 0, 0, 0, 0, config)
  }

  /**
   The steps that interleave: a turn of the watcher; the runtime receiving a request, one
   successful and one failing `try_recv`, and dealing with the request it ended up with.
   */
  datatype Event = Polled(poll: Poll) | Receive | DrainOne | DrainEmpty | Decide(starts: Starts)

  predicate Enabled(s: System, e: Event) {
    match e
    case Polled(poll) => poll.open <==> s.phase != Failed
    case Receive => s.phase == Idle && s.queue != []
    case DrainOne => s.phase == Draining && s.queue != []
    case DrainEmpty => s.phase == Draining && s.queue == []
    case Decide(_) => s.phase == Deciding && s.inHand.Some?
  }

  /** The runtime's test for an outdated request. */
  predicate IsStale(s: System) {
    s.inHand.Some? && s.inHand.value.generation <= s.generation
  }

  /** How many requests have left the queue. */
  function Received(s: System): nat {
    if |s.queue| <= s.sent then s.sent - |s.queue| else 0
  }

  function AfterPoll(s: System, poll: Poll): System {
    var (watch, sent) := Watched(s.watch, poll);
    if sent.None? then s.(watch := watch)
    else s.(watch := watch, queue := s.queue + [sent.value], sent := s.sent + 1, last := sent.value.config)
  }

  /** A failing start ends the runtime half way through the reload, with the request still in hand. */
  function AfterDecision(s: System, starts: Starts): System
    requires s.inHand.Some?
  {
    var r, plan := s.inHand.value, PlanFor(s.config, s.inHand.value.config);
    var log := WithReload(s.log, plan, r.config, starts, s.nextId);
    if IsStale(s) then s.(phase := Idle, inHand := None, stale := s.stale + 1)
    else if !AllStart(plan, starts) then s.(phase := Failed, log := log)
    else s.(phase := Idle, inHand := None, applied := s.applied + 1, generation := r.generation, config := r.config,
            log := log, nextId := s.nextId + 4, serial := Received(s))
  }

  function Next(s: System, e: Event): System
    requires Enabled(s, e)
  {
    match e
    case Polled(poll) => AfterPoll(s, poll)
    case Receive => s.(queue := s.queue[1..], inHand := Some(s.queue[0]), phase := Draining)
    case DrainOne => s.(queue := s.queue[1..], inHand := Some(s.queue[0]), skipped := s.skipped + 1)
    case DrainEmpty => s.(phase := Deciding)
    case Decide(starts) => AfterDecision(s, starts)
  }

  function InHand(s: System): nat {
    if s.inHand.Some? then 1 else 0
  }

  /** The configs on their way carry consecutive generations, ending with the last one given out. */
  ghost predicate Numbered(s: System) {
    && s.serial + InHand(s) + |s.queue| <= s.sent
    && s.watch.nextGeneration == Generation(s.sent + 1)
    && (forall i :: 0 <= i < |s.queue| ==> s.queue[i].generation == Generation(s.sent - |s.queue| + 1 + i))
    && (s.inHand.Some? ==> s.inHand.value.generation == Generation(s.sent - |s.queue|))
    && s.generation == Generation(s.serial)
  }

  ghost predicate Counted(s: System) {
    && (s.phase == Idle <==> s.inHand.None?)
    && s.sent == s.applied + s.skipped + s.stale + |s.queue| + InHand(s)
    && (s.stale == 0 ==> s.last == NewestConfig(s))
  }

  /**
   No state since startup had a backend pointing at a stopped component.  While the runtime goes
   on its components serve the active config; after a failed reload no backend runs.
   */
  ghost predicate Sound(s: System) {
    && AlwaysSafe(s.log)
    && if s.phase == Failed then Now(s.log).intercept.None?
       else Serves(Now(s.log), s.config) && Known(Now(s.log), s.nextId)
  }

  ghost predicate Inv(s: System) {
    Numbered(s) && Counted(s) && Sound(s)
  }

  function NewestConfig(s: System): AppConfig {
    if s.queue != [] then s.queue[|s.queue| - 1].config
    else if s.inHand.Some? then s.inHand.value.config
    else s.config
  }

  // ----- whole runs

  datatype Run = Begin(config: AppConfig, modified: Option<nat>) | Step(past: Run, event: Event)

  predicate Possible(run: Run)
    decreases run, 0
  {
    run.Step? ==> Possible(run.past) && Enabled(State(run.past), run.event)
  }

  function State(run: Run): System
    requires Possible(run)
    decreases run, 1
  {
    match run case Begin(config, modified) => Start(config, modified) case Step(past, event) => Next(State(past), event)
  }

  lemma PollIsNumbered(s: System, poll: Poll)
    requires Numbered(s)
    ensures Numbered(AfterPoll(s, poll))
  {
  }

  lemma DequeueIsNumbered(s: System, phase: Phase, skipped: nat)
    requires Numbered(s) && s.queue != []
    ensures Numbered(s.(queue := s.queue[1..], inHand := Some(s.queue[0]), phase := phase, skipped := skipped))
  {
  }

  lemma NextIsNumbered(s: System, e: Event)
    requires Numbered(s) && Enabled(s, e)
    ensures Numbered(Next(s, e))
  {
    match e
    case Polled(poll) => PollIsNumbered(s, poll);
    case Receive => DequeueIsNumbered(s, Draining, s.skipped);
    case DrainOne => DequeueIsNumbered(s, s.phase, s.skipped + 1);
    case DrainEmpty =>
    case Decide(_) =>
  }

  lemma NextIsCounted(s: System, e: Event)
    requires Counted(s) && Enabled(s, e)
    ensures Counted(Next(s, e))
  {
  }

  lemma DecisionIsSound(s: System, starts: Starts)
    requires Sound(s) && s.phase == Deciding && s.inHand.Some?
    ensures Sound(AfterDecision(s, starts))
  {
    var next := s.inHand.value.config;
    var plan := PlanFor(s.config, next);
    ReloadIsSafe(s.log, s.config, next, starts, s.nextId);
    if AllStart(plan, starts) {
      ReloadLeads(s.log, plan, next, starts, s.nextId);
      ReloadServes(Now(s.log), s.config, next, s.nextId);
    } else {
      FailedReloadHasNoBackend(s.log, s.config, next, starts, s.nextId);
    }
  }

  lemma NextIsSound(s: System, e: Event)
    requires Sound(s) && Enabled(s, e)
    ensures Sound(Next(s, e))
  {
    if e.Decide? {
      DecisionIsSound(s, e.starts);
    }
  }

  /** Over every interleaving of watcher turns and runtime steps. */
  lemma {:induction false} RunInv(run: Run)
    requires Possible(run)
    ensures Inv(State(run))
  {
    match run
    case Begin(config, _) => StartupIsSafe(config, ALL_START);
    case Step(past, event) =>
      RunInv(past);
      NextIsNumbered(State(past), event);
      NextIsCounted(State(past), event);
      NextIsSound(State(past), event);
  }

  /** A request is found outdated exactly when the active generation has hit the end of the counter. */
  lemma StaleIffSaturated(run: Run)
    requires Possible(run)
    ensures var s := State(run);
            s.inHand.Some? ==> (IsStale(s) <==> s.generation == U64_MAX)
  {
    RunInv(run);
  }

  lemma NotStaleYet(s: System)
    requires Numbered(s) && s.sent <= U64_MAX
    ensures !IsStale(s)
  {
  }

  lemma NextNotStale(s: System, e: Event)
    requires Enabled(s, e) && Next(s, e).sent <= U64_MAX
    ensures s.sent <= U64_MAX && Next(s, e).stale == if e.Decide? && IsStale(s) then s.stale + 1 else s.stale
  {
  }

  /** Below 2^64 requests the outdated branch is never taken. */
  lemma {:induction false} NeverStale(run: Run)
    requires Possible(run) && State(run).sent <= U64_MAX
    ensures !IsStale(State(run)) && State(run).stale == 0
  {
    RunInv(run);
    NotStaleYet(State(run));
    if run.Step? {
      NextNotStale(State(run.past), run.event);
      NeverStale(run.past);
    }
  }

  lemma NextGrows(s: System, e: Event)
    requires Enabled(s, e)
    ensures s.generation <= Next(s, e).generation
    ensures Next(s, e).applied > s.applied <==> Next(s, e).generation > s.generation
  {
    if e.Decide? {
      assert Next(s, e) == AfterDecision(s, e.starts);
    }
  }

  /** Applying a request always raises the active generation, and nothing else does. */
  lemma GenerationOnlyGrows(run: Run, e: Event)
    requires Possible(Step(run, e))
    ensures var s, t := State(run), State(Step(run, e));
            && s.generation <= t.generation
            && (t.applied > s.applied <==> t.generation > s.generation)
  {
    NextGrows(State(run), e);
  }

  /**
   Nothing is lost, the components serve the active config until a reload fails, and an idle
   runtime with an empty queue runs the last config that was sent.
   */
  lemma NothingLost(run: Run)
    requires Possible(run) && State(run).sent <= U64_MAX
    ensures var s := State(run);
            && s.sent == s.applied + s.skipped + |s.queue| + InHand(s)
            && (s.phase != Failed ==> Serves(Now(s.log), s.config))
            && (s.phase == Idle && s.queue == [] ==> s.config == s.last)
  {
    RunInv(run);
    NeverStale(run);
  }

  /** At no moment of any run, a failed reload included, does a running backend point at a stopped component. */
  lemma RunIsSafe(run: Run)
    requires Possible(run)
    ensures AlwaysSafe(State(run).log)
    ensures State(run).phase == Failed ==> Now(State(run).log).intercept.None?
  {
    RunInv(run);
  }

  /** The runtime is never stuck: whatever phase it is in, it has a step or waits for a request. */
  lemma NeverStuck(run: Run, starts: Starts)
    requires Possible(run)
    ensures var s := State(run);
            match s.phase
            case Idle => s.queue == [] || Enabled(s, Receive)
            case Draining => Enabled(s, DrainOne) || Enabled(s, DrainEmpty)
            case Deciding => Enabled(s, Decide(starts))
            case Failed => true
  {
    RunInv(run);
  }

  // ----- the loops themselves

  /** A poll the runtime can act on: the source adds one to the listen port of configs without `tls_port`. */
  predicate PollOk(poll: Poll) {
    poll.open && (poll.loaded.Ok? ==> ConfigOk(poll.loaded.value))
  }

  predicate PollsOk(polls: seq<Poll>) {
    forall i :: 0 <= i < |polls| ==> PollOk(polls[i])
  }

  predicate ConfigsOk(queue: seq<Request>) {
    forall i :: 0 <= i < |queue| ==> ConfigOk(queue[i].config)
  }

  /** One run goes on as another. */
  predicate Continues(from: Run, to: Run) {
    from == to || (to.Step? && Continues(from, to.past))
  }

  lemma {:induction false} ContinuesFurther(a: Run, b: Run, c: Run)
    requires Continues(a, b) && Continues(b, c)
    ensures Continues(a, c)
  {
    if b != c {
      ContinuesFurther(a, b, c.past);
    }
  }

  /** `serve_transparent` with the watcher beside it. */
  class Gateway {
    const watch: ConfigWatch
    const runtime: TransparentRuntime
    var queue: seq<Request>
    var activeGeneration: nat
    ghost var run: Run

    /** The fields and locals are those of a possible run. */
    ghost predicate Tracks(phase: Phase, inHand: Option<Request>)
      reads this, watch, runtime
    {
      && Possible(run) && ConfigsOk(queue) && (inHand.Some? ==> ConfigOk(inHand.value.config))
      && runtime.Valid() && phase != Failed
      && var s := State(run);
      && s.watch == watch.state && s.queue == queue && s.generation == activeGeneration
      && s.phase == phase && s.inHand == inHand
      && s.config == runtime.config && s.log == runtime.log && s.nextId == runtime.nextId
    }

    constructor (watch: ConfigWatch, runtime: TransparentRuntime, ghost modified: Option<nat>)
      requires watch.state == WatchState(modified, None, 1)
      requires runtime.Valid() && runtime.log == Startup(runtime.config, ALL_START) && runtime.nextId == 4
      ensures Tracks(Idle, None) && this.watch == watch && this.runtime == runtime
              && run == Begin(runtime.config, modified)
    {
      this.watch, this.runtime := watch, runtime;
      queue, activeGeneration, run := [], 0, Begin(runtime.config, modified);
    }

    /** A turn of the watcher, at whatever point of the runtime's loop. */
    method WatchTurn(poll: Poll, ghost phase: Phase, ghost inHand: Option<Request>)
      requires Tracks(phase, inHand) && PollOk(poll)
      modifies this`queue, this`run, watch
      ensures Tracks(phase, inHand) && run == Step(old(run), Polled(poll))
    {
      run := Step(run, Polled(poll));
      var sent := watch.Turn(poll);
      if sent.Some? {
        queue := queue + [sent.value];
      }
    }

    method WatchTurns(polls: seq<Poll>, ghost phase: Phase, ghost inHand: Option<Request>)
      requires Tracks(phase, inHand) && PollsOk(polls)
      modifies this`queue, this`run, watch
      ensures Tracks(phase, inHand) && Continues(old(run), run) && State(run).skipped == State(old(run)).skipped
      ensures polls == [] ==> queue == old(queue)
    {
      for i := 0 to |polls|
        invariant Tracks(phase, inHand) && Continues(old(run), run) && State(run).skipped == State(old(run)).skipped
        invariant i == 0 ==> queue == old(queue)
      {
        WatchTurn(polls[i], phase, inHand);
      }
    }

    /** The watcher's turns since the last look at the queue, then one `try_recv`. */
    method TryReceive(polls: seq<Poll>, ghost held: Request) returns (next: Option<Request>)
      requires Tracks(Draining, Some(held)) && PollsOk(polls)
      modifies this`queue, this`run, watch
      ensures Continues(old(run), run)
      ensures next.None? ==>
                Tracks(Deciding, Some(held)) && queue == [] && State(run).skipped == State(old(run)).skipped
      ensures next.Some? ==> Tracks(Draining, next) && State(run).skipped == State(old(run)).skipped + 1
      ensures next.Some? && polls == [] ==> |queue| < old(|queue|)
    {
      WatchTurns(polls, Draining, Some(held));
      if queue == [] {
        run := Step(run, DrainEmpty);
        return None;
      }
      run := Step(run, DrainOne);
      next, queue := Some(queue[0]), queue[1..];
    }

    /**
     `take_latest_reload_request`.  `turns[i]` are the watcher's turns before the i-th `try_recv`,
     so the queue may grow while it is drained.
     */
    method TakeLatest(initial: Request, turns: seq<seq<Poll>>) returns (latest: Request, skipped: nat)
      requires Tracks(Draining, Some(initial)) && forall i :: 0 <= i < |turns| ==> PollsOk(turns[i])
      modifies this`queue, this`run, watch
      ensures Tracks(Deciding, Some(latest)) && Continues(old(run), run)
      ensures queue == [] && State(run).skipped == State(old(run)).skipped + skipped
    {
      latest, skipped := initial, 0;
      var i := 0;
      while true
        invariant Tracks(Draining, Some(latest)) && Continues(old(run), run)
        invariant State(run).skipped == State(old(run)).skipped + skipped
        decreases if i < |turns| then |turns| - i else 0, |queue|
      {
        ghost var before := run;
        var next := TryReceive(if i < |turns| then turns[i] else [], latest);
        ContinuesFurther(old(run), before, run);
        i := i + 1;
        if next.None? {
          return;
        }
        latest, skipped := next.value, skipped + 1;
      }
    }

    /** Discards an outdated request, otherwise reloads; `ok` is whether the runtime goes on. */
    method ApplyRequest(request: Request, starts: Starts) returns (ok: bool)
      requires Tracks(Deciding, Some(request))
      modifies this`activeGeneration, this`run, runtime
      ensures Possible(run) && run == Step(old(run), Decide(starts))
      ensures ok ==> Tracks(Idle, None)
      ensures !ok ==> State(run).phase == Failed && State(run).log == runtime.log && runtime.handles == Now(runtime.log)
    {
      RunInv(run);
      run := Step(run, Decide(starts));
      if request.generation <= activeGeneration {
        return true;
      }
      ok := runtime.Reload(request.config, starts);
      if ok {
        activeGeneration := request.generation;
      }
    }

    /** One round of the serve loop: receive, drain, apply. */
    method ServeReload(turns: seq<seq<Poll>>, starts: Starts) returns (ok: bool)
      requires Tracks(Idle, None) && queue != [] && forall i :: 0 <= i < |turns| ==> PollsOk(turns[i])
      modifies this`queue, this`activeGeneration, this`run, watch, runtime
      ensures Possible(run) && Continues(old(run), run)
      ensures ok ==> Tracks(Idle, None) && queue == []
      ensures !ok ==> State(run).phase == Failed && State(run).log == runtime.log && runtime.handles == Now(runtime.log)
    {
      var request := queue[0];
      run := Step(run, Receive);
      queue := queue[1..];
      ghost var received := run;
      var latest, skipped := TakeLatest(request, turns);
      ContinuesFurther(old(run), received, run);
      ok := ApplyRequest(latest, starts);
    }
  }
}
