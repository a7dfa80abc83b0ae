/** The produce schedule: the arithmetic catch-up against the tick loop it replaces, and the grid it keeps over whole runs (io.rs). */
module Cadence {
  import opened Prelude
  import opened ConnectionState

  /** The per-tick loop: step over every tick that is due. Returns the next tick and how many were stepped over. */
  function TickLoop(next: nat, now: nat, period: nat): (nat, nat)
    requires period > 0
    decreases if next > now then 0 else now - next + 1
  {
    if next > now then (next, 0)
    else
      var rest := TickLoop(next + period, now, period);
      (rest.0, rest.1 + 1)
  }

  lemma {:induction false} LoopClosedForm(next: nat, now: nat, period: nat)
    requires period > 0 && next <= now
    ensures TickLoop(next, now, period) == (next + period * ((now - next) / period + 1), (now - next) / period + 1)
    decreases now - next
  {
    var e := now - next;
    if next + period <= now {
      LoopClosedForm(next + period, now, period);
      DivisionBounds(e - period, period);
      var q := (e - period) / period;
      assert period * (q + 1) == period * q + period;
      QuotientIs(e, period, q + 1);
      assert period * (q + 1 + 1) == period * (q + 1) + period;
    } else {
      QuotientIs(e, period, 0);
    }
  }

  /** The loop's result can be reached arithmetically: its step count fits 32 bits, and the span and the tick the platform clock. */
  predicate LoopFits(next: nat, now: nat, period: nat)
    requires period > 0
  {
    var loop := TickLoop(next, now, period);
    loop.1 <= 0xFFFF_FFFF && loop.0 - next <= DURATION_MAX && loop.0 <= INSTANT_MAX
  }

  lemma RearmableIffLoopFits(c: Conn, now: nat)
    requires c.nextProduceAt <= now
    ensures Rearmable(c, now) <==> LoopFits(c.nextProduceAt, now, Max(c.params.o2tApi, 1))
    ensures Skipped(c, now) == TickLoop(c.nextProduceAt, now, Max(c.params.o2tApi, 1)).1 - 1
  {
    LoopClosedForm(c.nextProduceAt, now, Max(c.params.o2tApi, 1));
  }

  /** The catch-up counts what the loop counts; it re-arms where the loop stops exactly when the loop's result fits, or when `now` itself is a tick and the next one fits. */
  lemma CatchUpRefinesLoop(c: Conn, now: nat)
    requires c.params.o2tApi > 0 && c.nextProduceAt <= now
    ensures var loop := TickLoop(c.nextProduceAt, now, c.params.o2tApi);
            var after := Rearm(c, now);
            && after.counters.produceOverruns == c.counters.produceOverruns + Min(loop.1 - 1, U64_MAX)
            && (after.nextProduceAt == loop.0 <==>
                || (loop.1 <= 0xFFFF_FFFF && loop.0 - c.nextProduceAt <= DURATION_MAX && loop.0 <= INSTANT_MAX)
                || ((now - c.nextProduceAt) % c.params.o2tApi == 0 && now + c.params.o2tApi <= INSTANT_MAX))
  {
    var p, e := c.params.o2tApi, now - c.nextProduceAt;
    LoopClosedForm(c.nextProduceAt, now, p);
    DivisionBounds(e, p);
    RearmableIffLoopFits(c, now);
  }

  /** A lapse of about five days at the shortest legal interval clamps: the schedule leaves the loop's tick and starts over from `now`. */
  lemma ClampedCatchUpLeavesTheGrid(c: Conn)
    requires c.params.o2tApi == 100_000 && c.nextProduceAt == 100_000
    ensures var now := 100_001 + 100_000 * 0x1_0000_0000;
            && TickLoop(c.nextProduceAt, now, c.params.o2tApi).1 == 0x1_0000_0001
            && Rearm(c, now).nextProduceAt == now + 100_000
            && Rearm(c, now).nextProduceAt != TickLoop(c.nextProduceAt, now, c.params.o2tApi).0
  {
    var now := 100_001 + 100_000 * 0x1_0000_0000;
    QuotientIs(now - c.nextProduceAt, 100_000, 0x1_0000_0000);
    LoopClosedForm(c.nextProduceAt, now, 100_000);
    CatchUpRefinesLoop(c, now);
  }

  /** For any interval, zero included, the schedule ends strictly past `now` unless the clock itself runs out. */
  lemma RearmAdvances(c: Conn, now: nat)
    requires c.nextProduceAt <= now
    ensures var period := Max(c.params.o2tApi, 1);
            Rearm(c, now).nextProduceAt > now <==> LoopFits(c.nextProduceAt, now, period) || now + period <= INSTANT_MAX
    ensures c.params.o2tApi == 0 ==> Rearm(c, now).counters.produceOverruns == c.counters.produceOverruns + if now > c.nextProduceAt then 1 else 0
    ensures c.params.o2tApi == 0 && now < INSTANT_MAX ==> Rearm(c, now).nextProduceAt == now + 1
  {
    DivisionBounds(now - c.nextProduceAt, Period(c));
    RearmableIffLoopFits(c, now);
  }

  // ----- whole runs -----

  /** The tick `k` intervals after the first one. */
  function GridPoint(created: nat, period: nat, k: nat): nat {
    created + period * (k + 1)
  }

  /** The last operation is a poll that fires. */
  predicate FiresLast(c: Conn, ops: seq<Op>)
    requires ops != []
  {
    var op := ops[|ops| - 1];
    op.ProduceOp? && Run(c, ops[..|ops| - 1]).nextProduceAt <= op.now
  }

  /** How many polls of a history fired. */
  function Fires(c: Conn, ops: seq<Op>): nat {
    if ops == [] then 0 else Fires(c, ops[..|ops| - 1]) + if FiresLast(c, ops) then 1 else 0
  }

  /** Every poll that fires does so where the tick loop's result fits. */
  predicate Unclamped(c: Conn, ops: seq<Op>) {
    ops == []
    || (Unclamped(c, ops[..|ops| - 1])
        && (FiresLast(c, ops) ==> LoopFits(Run(c, ops[..|ops| - 1]).nextProduceAt, ops[|ops| - 1].now, Max(c.params.o2tApi, 1))))
  }

  lemma OnlyPollsMoveSchedule(c: Conn, op: Op)
    requires !op.ProduceOp? || op.now < c.nextProduceAt
    ensures Apply(c, op).nextProduceAt == c.nextProduceAt
    ensures Apply(c, op).counters.produceOverruns == c.counters.produceOverruns
    ensures Apply(c, op).class1Seq == c.class1Seq && Apply(c, op).encapSeq == c.encapSeq
  {
    if op.ConsumeOp? {
      ConsumeKeepsSchedule(c, op);
    }
  }

  lemma ConsumeKeepsSchedule(c: Conn, op: Op)
    requires op.ConsumeOp?
    ensures var d := Consume(c, op.payload, op.encap, op.now).0;
            && d.nextProduceAt == c.nextProduceAt && d.counters.produceOverruns == c.counters.produceOverruns
            && d.class1Seq == c.class1Seq && d.encapSeq == c.encapSeq
  {
  }

  lemma FiringPoll(c: Conn, now: nat)
    requires c.nextProduceAt <= now
    ensures var d := Apply(c, ProduceOp(now)); var r := Rearm(c, now);
            d.nextProduceAt == r.nextProduceAt && d.counters == r.counters
            && d.class1Seq == NextSeq(c.class1Seq) && d.encapSeq == (c.encapSeq + 1) % 0x1_0000_0000
  {
  }

  lemma GridStep(created: nat, p: nat, k: nat, skipped: nat)
    ensures created + p * k + p * (skipped + 1) == created + p * (k + skipped + 1)
  {
  }

  /** A connection whose first tick is one interval after `created` and that has skipped nothing yet. */
  ghost predicate Starts(c0: Conn, created: nat) {
    c0.params.o2tApi > 0 && c0.nextProduceAt == created + c0.params.o2tApi && c0.counters.produceOverruns == 0
  }

  lemma NewConnStarts(p: Params, created: nat)
    requires p.o2tApi > 0
    ensures Starts(NewConn(p, created), created) <==> created + p.o2tApi <= INSTANT_MAX
  {
  }

  /** Ticks of the schedule so far: fired or skipped. */
  function TicksDone(c0: Conn, ops: seq<Op>): nat {
    Fires(c0, ops) + Run(c0, ops).counters.produceOverruns
  }

  /** The schedule never leaves the grid, whatever else happens in between. */
  lemma {:induction false} ScheduleStaysOnGrid(c0: Conn, created: nat, ops: seq<Op>)
    requires Starts(c0, created) && Unclamped(c0, ops)
    ensures Run(c0, ops).nextProduceAt == GridPoint(created, c0.params.o2tApi, TicksDone(c0, ops))
    decreases |ops|
  {
    if ops != [] {
      var before, op := Run(c0, ops[..|ops| - 1]), ops[|ops| - 1];
      ScheduleStaysOnGrid(c0, created, ops[..|ops| - 1]);
      if FiresLast(c0, ops) {
        FiringPoll(before, op.now);
        assert Period(before) == c0.params.o2tApi;
        GridStep(created, c0.params.o2tApi, TicksDone(c0, ops[..|ops| - 1]) + 1, Skipped(before, op.now));
        RearmableIffLoopFits(before, op.now);
        StepsFit(before, op.now);
      } else {
        OnlyPollsMoveSchedule(before, op);
      }
    }
  }

  lemma StepsFit(c: Conn, now: nat)
    requires c.nextProduceAt <= now && c.params.o2tApi > 0 && Rearmable(c, now)
    ensures Rearm(c, now).counters.produceOverruns == c.counters.produceOverruns + Skipped(c, now)
    ensures Rearm(c, now).nextProduceAt == c.nextProduceAt + Period(c) * (Skipped(c, now) + 1)
  {
  }

  /** Grid point `k0` was due at `now` and grid point `k` is the first one past it. */
  lemma FirstAfter(created: nat, p: nat, k0: nat, due: nat, k: nat, next: nat, now: nat)
    requires p > 0
    requires due == GridPoint(created, p, k0) && next == GridPoint(created, p, k)
    requires due <= now < next <= now + p
    ensures created <= now && (now - created) / p == k
  {
    assert p * (k0 + 1) >= 0;
    assert p * (k + 1) == p * k + p;
    QuotientIs(now - created, p, k);
  }

  /** At every firing, frames fired plus ticks skipped is the number of whole intervals since creation, and the next tick is the first grid point after `now`. */
  lemma FiringAccountsForEveryTick(c0: Conn, created: nat, ops: seq<Op>, now: nat)
    requires Starts(c0, created)
    requires ops != [] && Unclamped(c0, ops) && FiresLast(c0, ops) && now == ops[|ops| - 1].now
    ensures created <= now
    ensures TicksDone(c0, ops) == (now - created) / c0.params.o2tApi
    ensures Run(c0, ops).nextProduceAt == GridPoint(created, c0.params.o2tApi, TicksDone(c0, ops))
    ensures now < Run(c0, ops).nextProduceAt <= now + c0.params.o2tApi
  {
    var early := ops[..|ops| - 1];
    ScheduleStaysOnGrid(c0, created, ops);
    ScheduleStaysOnGrid(c0, created, early);
    LastFiring(c0, ops);
    FirstAfter(created, c0.params.o2tApi, TicksDone(c0, early), Run(c0, early).nextProduceAt,
               TicksDone(c0, ops), Run(c0, ops).nextProduceAt, now);
  }

  lemma LastFiring(c0: Conn, ops: seq<Op>)
    requires ops != [] && FiresLast(c0, ops) && c0.params.o2tApi > 0
    requires LoopFits(Run(c0, ops[..|ops| - 1]).nextProduceAt, ops[|ops| - 1].now, c0.params.o2tApi)
    ensures ops[|ops| - 1].now < Run(c0, ops).nextProduceAt <= ops[|ops| - 1].now + c0.params.o2tApi
  {
    FiringPoll(Run(c0, ops[..|ops| - 1]), ops[|ops| - 1].now);
    RearmableIffLoopFits(Run(c0, ops[..|ops| - 1]), ops[|ops| - 1].now);
    StepLandsAfter(Run(c0, ops[..|ops| - 1]), ops[|ops| - 1].now);
  }

  lemma StepLandsAfter(c: Conn, now: nat)
    requires c.nextProduceAt <= now && c.params.o2tApi > 0 && Rearmable(c, now)
    ensures now < Rearm(c, now).nextProduceAt <= now + c.params.o2tApi
  {
    StepsFit(c, now);
    DivisionBounds(now - c.nextProduceAt, c.params.o2tApi);
  }
}
