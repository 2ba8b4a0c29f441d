/**
 The cleanup task as the packets see it (src/traffic/shared/nat.rs, src/traffic/shared/intercept/tcp.rs):
 what happens to every packet of a run does not depend on when, or whether, the table is cleaned up.
 */
module InterceptCleanup {
  import opened Basics
  import opened Packets
  import opened Intercept
  import opened InterceptRuns
  import Nat

  const EMPTY := Tables(map[], map[])

  /** What a handler does to its packet: disposition, bytes and direction flag. */
  function OutcomeOf(setup: Setup, tables: Tables, step: Step): Outcome
    requires TablesOk(tables) && !step.Cleanup?
  {
    if step.Response? then Reply(tables, step.data, true, setup.ports, step.now).1
    else Redirect(tables, step.data, true, TargetOf(setup, step), step.now).1
  }

  /** The outcomes of all packets of a run, in order. */
  function Outcomes(setup: Setup, tables: Tables, steps: seq<Step>): seq<Outcome>
    requires TablesOk(tables)
    decreases |steps|
  {
    if steps == [] then []
    else
      AfterOk(setup, tables, steps[0]);
      var later := Outcomes(setup, After(setup, tables, steps[0]), steps[1..]);
      if steps[0].Cleanup? then later else [OutcomeOf(setup, tables, steps[0])] + later
  }

  function WithoutCleanup(steps: seq<Step>): seq<Step> {
    if steps == [] then []
    else if steps[0].Cleanup? then WithoutCleanup(steps[1..])
    else [steps[0]] + WithoutCleanup(steps[1..])
  }

  /** Steps happen at non-decreasing times from `now` on. */
  predicate Ordered(steps: seq<Step>, now: nat) {
    steps != [] ==> now <= steps[0].now && Ordered(steps[1..], steps[0].now)
  }

  function LiveTables(tables: Tables, now: nat): Tables {
    Tables(Nat.Live(tables.v4, now), Nat.Live(tables.v6, now))
  }

  // ----- one step

  lemma SameLiveTablesLater(a: Tables, b: Tables, now: nat, later: nat)
    requires LiveTables(a, now) == LiveTables(b, now) && now <= later
    ensures LiveTables(a, later) == LiveTables(b, later)
  {
    Nat.SameLiveLater(a.v4, b.v4, now, later);
    Nat.SameLiveLater(a.v6, b.v6, now, later);
  }

  lemma RedirectAgrees(a: Tables, b: Tables, data: seq<byte>, target: Option<Port>, now: nat)
    requires (target.Some? ==> Parses(data)) && LiveTables(a, now) == LiveTables(b, now)
    ensures var x, y := Redirect(a, data, true, target, now), Redirect(b, data, true, target, now);
            LiveTables(x.0, now) == LiveTables(y.0, now) && x.1 == y.1
  {
    if target.Some? {
      var f, c := DetectTcpFamily(data).value.family, Parsed(data);
      var put := Nat.Put(c.client, c.destination, Expiration(now, c.closing));
      Nat.SameLiveAfter(TableOf(a, f), TableOf(b, f), put, now);
    }
  }

  lemma ReplyAgrees(a: Tables, b: Tables, data: seq<byte>, ports: Ports, now: nat)
    requires TablesOk(a) && TablesOk(b) && LiveTables(a, now) == LiveTables(b, now)
    ensures var x, y := Reply(a, data, true, ports, now), Reply(b, data, true, ports, now);
            LiveTables(x.0, now) == LiveTables(y.0, now) && x.1 == y.1
  {
    if Parses(data) {
      var f, c := DetectTcpFamily(data).value.family, Parsed(data);
      var ask := Nat.Ask(c.destination, now, Expiration(now, c.closing));
      Nat.SameLiveAfter(TableOf(a, f), TableOf(b, f), ask, now);
    }
  }

  /** Tables with the same live entries do the same to a packet and have the same live entries after it. */
  lemma StepAgrees(setup: Setup, a: Tables, b: Tables, step: Step)
    requires TablesOk(a) && TablesOk(b) && !step.Cleanup? && LiveTables(a, step.now) == LiveTables(b, step.now)
    ensures LiveTables(After(setup, a, step), step.now) == LiveTables(After(setup, b, step), step.now)
    ensures OutcomeOf(setup, a, step) == OutcomeOf(setup, b, step)
  {
    if step.Response? {
      ReplyAgrees(a, b, step.data, setup.ports, step.now);
    } else {
      RedirectAgrees(a, b, step.data, TargetOf(setup, step), step.now);
    }
  }

  lemma CleanupKeepsLive(setup: Setup, tables: Tables, step: Step)
    requires TablesOk(tables) && step.Cleanup?
    ensures LiveTables(After(setup, tables, step), step.now) == LiveTables(tables, step.now)
  {
    Nat.LiveIsSettled(tables.v4, step.now);
    Nat.LiveIsSettled(tables.v6, step.now);
  }

  // ----- whole runs

  lemma {:induction false} SameOutcomes(setup: Setup, a: Tables, b: Tables, steps: seq<Step>, now: nat)
    requires TablesOk(a) && TablesOk(b) && Ordered(steps, now) && LiveTables(a, now) == LiveTables(b, now)
    ensures Outcomes(setup, a, steps) == Outcomes(setup, b, WithoutCleanup(steps))
    decreases |steps|
  {
    if steps != [] {
      var step, rest := steps[0], steps[1..];
      AfterOk(setup, a, step);
      SameLiveTablesLater(a, b, now, step.now);
      if step.Cleanup? {
        CleanupKeepsLive(setup, a, step);
        SameOutcomes(setup, After(setup, a, step), b, rest, step.now);
      } else {
        AfterOk(setup, b, step);
        StepAgrees(setup, a, b, step);
        SameOutcomes(setup, After(setup, a, step), After(setup, b, step), rest, step.now);
        WithoutCleanupStep(setup, b, steps);
      }
    }
  }

  lemma WithoutCleanupStep(setup: Setup, tables: Tables, steps: seq<Step>)
    requires TablesOk(tables) && steps != [] && !steps[0].Cleanup?
    ensures TablesOk(After(setup, tables, steps[0]))
    ensures Outcomes(setup, tables, WithoutCleanup(steps)) ==
            [OutcomeOf(setup, tables, steps[0])]
              + Outcomes(setup, After(setup, tables, steps[0]), WithoutCleanup(steps[1..]))
  {
    AfterOk(setup, tables, steps[0]);
    var kept := WithoutCleanup(steps);
    assert kept[0] == steps[0] && kept[1..] == WithoutCleanup(steps[1..]);
  }

  /**
   For every interleaving of requests, DNS-over-TCP requests, responses and cleanups at
   non-decreasing times: every packet is passed or modified, byte for byte, as in the run without
   the cleanups.
   */
  lemma CleanupIsInvisible(setup: Setup, steps: seq<Step>, now: nat)
    requires Ordered(steps, now)
    ensures Outcomes(setup, EMPTY, steps) == Outcomes(setup, EMPTY, WithoutCleanup(steps))
  {
    SameOutcomes(setup, EMPTY, EMPTY, steps, now);
  }

  /** The outcomes are those of the run: one more packet meets the tables the run has led to. */
  lemma OutcomesFollowRun(setup: Setup, steps: seq<Step>, step: Step)
    requires !step.Cleanup?
    ensures Outcomes(setup, EMPTY, steps + [step]) ==
            Outcomes(setup, EMPTY, steps) + [OutcomeOf(setup, Run(setup, steps), step)]
  {
    assert [] + steps == steps;
    OutcomesFollow(setup, [], steps, step);
  }

  lemma {:induction false} OutcomesFollow(setup: Setup, past: seq<Step>, steps: seq<Step>, step: Step)
    requires !step.Cleanup?
    ensures Outcomes(setup, Run(setup, past), steps + [step]) ==
            Outcomes(setup, Run(setup, past), steps) + [OutcomeOf(setup, Run(setup, past + steps), step)]
    decreases |steps|
  {
    if steps == [] {
      assert past + steps == past && steps + [step] == [step];
      OneOutcome(setup, Run(setup, past), step);
    } else {
      var first, rest := steps[0], steps[1..];
      RunOneMore(setup, past, first);
      OutcomesFollow(setup, past + [first], rest, step);
      assert past + [first] + rest == past + steps;
      assert (steps + [step])[0] == first && (steps + [step])[1..] == rest + [step];
    }
  }

  lemma OneOutcome(setup: Setup, tables: Tables, step: Step)
    requires TablesOk(tables) && !step.Cleanup?
    ensures Outcomes(setup, tables, [step]) == [OutcomeOf(setup, tables, step)]
  {
    AfterOk(setup, tables, step);
    assert [step][1..] == [];
  }

  lemma RunOneMore(setup: Setup, past: seq<Step>, step: Step)
    ensures Run(setup, past + [step]) == After(setup, Run(setup, past), step)
  {
    assert (past + [step])[..|past + [step]| - 1] == past;
  }
}
