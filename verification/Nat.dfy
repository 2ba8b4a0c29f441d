/** The transparent NAT table (src/traffic/shared/nat.rs). */
module Nat {
  import opened Basics

  datatype Endpoint = Endpoint(ip: seq<byte>, port: Port)

  datatype NatEntry = NatEntry(destination: Endpoint, expiresAt: nat)

  type Table = map<Endpoint, NatEntry>

  function Upserted(table: Table, client: Endpoint, destination: Endpoint, expiresAt: nat): Table {
    table[client := NatEntry(destination, expiresAt)]
  }

  /** The table after a touch at `now`, and the destination it returns. */
  function Touched(table: Table, client: Endpoint, now: nat, expiresAt: nat): (Table, Option<Endpoint>) {
    if client !in table then (table, None)
    else if table[client].expiresAt <= now then (table - {client}, None)
    else (table[client := NatEntry(table[client].destination, expiresAt)], Some(table[client].destination))
  }

  function Live(table: Table, now: nat): Table {
    map c | c in table && table[c].expiresAt > now :: table[c]
  }

  class NatTable {
    var entries: Table

    constructor ()
      ensures entries == map[]
    {
      entries := map[];
    }

    method Upsert(client: Endpoint, destination: Endpoint, expiresAt: nat)
      modifies this
      ensures entries == Upserted(old(entries), client, destination, expiresAt)
    {
      entries := entries[client := NatEntry(destination, expiresAt)];
    }

    method Touch(client: Endpoint, now: nat, expiresAt: nat) returns (destination: Option<Endpoint>)
      modifies this
      ensures (entries, destination) == Touched(old(entries), client, now, expiresAt)
    {
      if client !in entries {
        return None;
      }
      var entry := entries[client];
      if entry.expiresAt <= now {
        entries := entries - {client};
        return None;
      }
      entries := entries[client := entry.(expiresAt := expiresAt)];
      return Some(entry.destination);
    }

    /** `retain` visits the entries in hash order and drops the expired ones. */
    method Prune(now: nat) returns (expired: nat)
      modifies this
      ensures entries == Live(old(entries), now)
      ensures expired == |old(entries)| - |entries|
    {
      var before, unseen, kept := entries, entries.Keys, map[];
      while unseen != {}
        invariant unseen <= before.Keys && kept == Live(before - unseen, now)
        decreases |unseen|
      {
        var client :| client in unseen;
        KeepOne(before, unseen, client, now);
        if before[client].expiresAt > now {
          kept := kept[client := before[client]];
        }
        unseen := unseen - {client};
      }
      assert before - {} == before;
      entries := kept;
      FewerLive(before, now);
      expired := |before| - |entries|;
    }
  }

  lemma KeepOne(table: Table, unseen: set<Endpoint>, client: Endpoint, now: nat)
    requires client in unseen && unseen <= table.Keys
    ensures var kept := Live(table - unseen, now);
            Live(table - (unseen - {client}), now) ==
            if table[client].expiresAt > now then kept[client := table[client]] else kept
  {
  }

  lemma FewerLive(table: Table, now: nat)
    ensures |Live(table, now)| <= |table|
  {
    SubsetSize(Live(table, now).Keys, table.Keys);
  }

  /** A touch answers exactly while the entry has not expired, and gives it its new time. */
  lemma TouchAnswersIff(table: Table, client: Endpoint, now: nat, expiresAt: nat)
    ensures var (after, answer) := Touched(table, client, now, expiresAt);
            && (answer.Some? <==> client in table && now < table[client].expiresAt)
            && (answer.Some? ==> client in after && after[client].expiresAt == expiresAt
                                 && answer.value == table[client].destination == after[client].destination)
            && (answer.None? ==> client !in after)
            && (forall c :: c != client ==> (c in after <==> c in table) && (c in table ==> after[c] == table[c]))
  {
  }

  /** What is left after a cleanup: exactly the entries that a touch would still answer. */
  lemma CleanupKeepsAnswering(table: Table, client: Endpoint, now: nat)
    ensures client in Live(table, now) <==> client in table && now < table[client].expiresAt
    ensures client in Live(table, now) ==> Live(table, now)[client] == table[client]
  {
  }

  // ----- cleanup cannot be observed

  datatype Op = Put(client: Endpoint, destination: Endpoint, expiresAt: nat)
              | Ask(client: Endpoint, now: nat, expiresAt: nat)
              | Cleanup(now: nat)

  function After(table: Table, op: Op): Table {
    match op
    case Put(client, destination, expiresAt) => Upserted(table, client, destination, expiresAt)
    case Ask(client, now, expiresAt) => Touched(table, client, now, expiresAt).0
    case Cleanup(now) => Live(table, now)
  }

  /** The answers of all touches of a run, in order. */
  function Answers(table: Table, ops: seq<Op>): seq<Option<Endpoint>>
    decreases |ops|
  {
    if ops == [] then []
    else (match ops[0] case Ask(client, now, expiresAt) => [Touched(table, client, now, expiresAt).1] case _ => [])
         + Answers(After(table, ops[0]), ops[1..])
  }

  function WithoutCleanup(ops: seq<Op>): seq<Op> {
    if ops == [] then [] else (if ops[0].Cleanup? then [] else [ops[0]]) + WithoutCleanup(ops[1..])
  }

  /** Touches and cleanups happen at non-decreasing times from `now` on. */
  predicate Ordered(ops: seq<Op>, now: nat) {
    ops != [] ==> match ops[0]
                  case Put(_, _, _) => Ordered(ops[1..], now)
                  case Ask(_, t, _) => now <= t && Ordered(ops[1..], t)
                  case Cleanup(t) => now <= t && Ordered(ops[1..], t)
  }

  /** Two tables with the same live entries answer every run alike, however each is cleaned up. */
  lemma {:induction false} CleanupIsUnobservable(a: Table, b: Table, ops: seq<Op>, now: nat)
    requires Ordered(ops, now) && Live(a, now) == Live(b, now)
    ensures Answers(a, ops) == Answers(b, WithoutCleanup(ops))
    decreases |ops|
  {
    if ops != [] {
      var op, rest := ops[0], WithoutCleanup(ops[1..]);
      var t := match op case Put(_, _, _) => now case Ask(_, t, _) => t case Cleanup(t) => t;
      SameLiveLater(a, b, now, t);
      if op.Cleanup? {
        LiveIsSettled(a, t);
        CleanupIsUnobservable(After(a, op), b, ops[1..], t);
        assert WithoutCleanup(ops) == rest && Answers(a, ops) == Answers(After(a, op), ops[1..]);
      } else {
        SameLiveAfter(a, b, op, t);
        CleanupIsUnobservable(After(a, op), After(b, op), ops[1..], t);
        assert WithoutCleanup(ops)[0] == op && WithoutCleanup(ops)[1..] == rest;
      }
    }
  }

  lemma SameLiveLater(a: Table, b: Table, now: nat, later: nat)
    requires Live(a, now) == Live(b, now) && now <= later
    ensures Live(a, later) == Live(b, later)
  {
    assert Live(a, later) == Live(Live(a, now), later);
    assert Live(b, later) == Live(Live(b, now), later);
  }

  lemma LiveIsSettled(a: Table, t: nat)
    ensures Live(Live(a, t), t) == Live(a, t)
  {
  }

  lemma SameLiveAfter(a: Table, b: Table, op: Op, t: nat)
    requires Live(a, t) == Live(b, t) && !op.Cleanup? && (op.Ask? ==> op.now == t)
    ensures Live(After(a, op), t) == Live(After(b, op), t)
    ensures op.Ask? ==> Touched(a, op.client, t, op.expiresAt).1 == Touched(b, op.client, t, op.expiresAt).1
  {
    LiveAfter(a, op, t);
    LiveAfter(b, op, t);
    assert op.client in Live(a, t) <==> op.client in Live(b, t);
  }

  /** What a put or a touch does, seen through the live entries only. */
  lemma LiveAfter(a: Table, op: Op, t: nat)
    requires !op.Cleanup? && (op.Ask? ==> op.now == t)
    ensures var live := Live(a, t);
            Live(After(a, op), t) ==
            if op.Put? then Live(live[op.client := NatEntry(op.destination, op.expiresAt)], t)
            else if op.client in live then Live(live[op.client := live[op.client].(expiresAt := op.expiresAt)], t)
            else live
    ensures op.Ask? ==> Touched(a, op.client, t, op.expiresAt).1 ==
                        if op.client in Live(a, t) then Some(Live(a, t)[op.client].destination) else None
  {
  }

  /** Two runs that differ only in their cleanups answer alike. */
  lemma AnyTwoCleanupSchedules(a: seq<Op>, b: seq<Op>, now: nat)
    requires Ordered(a, now) && Ordered(b, now) && WithoutCleanup(a) == WithoutCleanup(b)
    ensures Answers(map[], a) == Answers(map[], b)
  {
    CleanupIsUnobservable(map[], map[], a, now);
    CleanupIsUnobservable(map[], map[], b, now);
  }

  /** The order of times matters: a cleanup with a later clock than the touch after it is visible. */
  lemma LateClockIsObservable(client: Endpoint, destination: Endpoint)
    ensures exists ops :: !Ordered(ops, 0) && Answers(map[], ops) != Answers(map[], WithoutCleanup(ops))
  {
    var put, cleanup, ask := Put(client, destination, 300), Cleanup(400), Ask(client, 100, 400);
    var ops := [put, cleanup, ask];
    var t := Upserted(map[], client, destination, 300);
    assert ops[1..] == [cleanup, ask] && ops[1..][1..] == [ask] && [ask][1..] == [];
    assert Live(t, 400) == map[];
    assert Answers(map[], [ask]) == [None];
    assert Answers(t, [cleanup, ask]) == [None];
    assert Answers(map[], ops) == [None];
    assert WithoutCleanup([ask]) == [ask];
    assert WithoutCleanup([cleanup, ask]) == [ask];
    assert WithoutCleanup(ops) == [put, ask];
    assert [put, ask][1..] == [ask];
    assert Answers(t, [ask]) == [Some(destination)];
    assert Answers(map[], [put, ask]) == [Some(destination)];
    assert !Ordered([ask], 400);
    assert !Ordered([cleanup, ask], 0);
    assert !Ordered(ops, 0);
  }
}
