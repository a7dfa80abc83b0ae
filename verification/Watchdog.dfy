/** The inactivity watchdog over whole runs (io.rs). */
module Watchdog {
  import opened Prelude
  import opened ConnectionState

  const MIN_REPLY_API: nat := 100_000
  const MAX_REPLY_API: nat := 600 * SECOND

  /** What a validated reply and a multiplier code guarantee. */
  predicate ValidTiming(p: Params) {
    && MIN_REPLY_API <= p.o2tApi <= MAX_REPLY_API
    && MIN_REPLY_API <= p.t2oApi <= MAX_REPLY_API
    && 4 <= p.multiplier <= 512
  }

  lemma TimeoutNeverSaturates(p: Params)
    requires ValidTiming(p)
    ensures WatchdogTimeout(p) == p.multiplier * p.t2oApi
    ensures 4 * MIN_REPLY_API <= WatchdogTimeout(p) <= 512 * MAX_REPLY_API
  {
    Product(p.multiplier, p.t2oApi);
  }

  lemma Product(m: nat, a: nat)
    requires 4 <= m <= 512 && MIN_REPLY_API <= a <= MAX_REPLY_API
    ensures 4 * MIN_REPLY_API <= m * a <= 512 * MAX_REPLY_API
  {
    MulLe(4, m, a);
    MulLe(m, 512, a);
  }

  lemma MulLe(x: nat, y: nat, a: nat)
    requires x <= y
    ensures x * a <= y * a
  {
  }

  /** When the connection last showed life: its creation, or the last accepted frame. */
  function LastAlive(c: Conn, created: nat, ops: seq<Op>): nat {
    if ops == [] then created
    else
      var op, before := ops[|ops| - 1], ops[..|ops| - 1];
      if op.ConsumeOp? && Consume(Run(c, before), op.payload, op.encap, op.now).1.Accepted? then op.now
      else LastAlive(c, created, before)
  }

  /** A dropped frame leaves the sequence, the up flag and the deadline alone. */
  lemma DropChangesNoLiveness(c: Conn, payload: seq<byte>, encap: u32, now: nat)
    ensures var (d, out) := Consume(c, payload, encap, now);
            out.DroppedFrame? ==> d.lastSeq == c.lastSeq && d.up == c.up && d.deadline == c.deadline
  {
  }

  lemma {:induction false} DeadlineFollowsLastAlive(p: Params, created: nat, ops: seq<Op>)
    ensures Run(NewConn(p, created), ops).deadline == DeadlineFrom(p, LastAlive(NewConn(p, created), created, ops))
    decreases |ops|
  {
    if ops != [] {
      DeadlineFollowsLastAlive(p, created, ops[..|ops| - 1]);
      var before, op := Run(NewConn(p, created), ops[..|ops| - 1]), ops[|ops| - 1];
      if op.ConsumeOp? {
        DropChangesNoLiveness(before, op.payload, op.encap, op.now);
      }
    }
  }

  predicate TimesFrom(created: nat, ops: seq<Op>) {
    forall i :: 0 <= i < |ops| && ops[i].ConsumeOp? ==> created <= ops[i].now
  }

  lemma {:induction false} LastAliveNotBeforeCreation(c: Conn, created: nat, ops: seq<Op>)
    requires TimesFrom(created, ops)
    ensures created <= LastAlive(c, created, ops)
    decreases |ops|
  {
    if ops != [] {
      LastAliveNotBeforeCreation(c, created, ops[..|ops| - 1]);
    }
  }

  /**
   * The watchdog fires exactly when nothing was accepted for the whole timeout, or the clock is within one timeout of its end.
   * When no receive time precedes creation, the last sign of life does not either: it is the later of the two.
   */
  lemma {:induction false} WatchdogExact(p: Params, created: nat, ops: seq<Op>, now: nat)
    requires ValidTiming(p)
    ensures var c0 := NewConn(p, created); var last := LastAlive(c0, created, ops); var timeout := p.multiplier * p.t2oApi;
            && (PollWatchdog(Run(c0, ops), now) <==>
                  now - last >= timeout || (last + timeout > INSTANT_MAX && now >= last))
            && (TimesFrom(created, ops) ==> created <= last)
  {
    DeadlineFollowsLastAlive(p, created, ops);
    TimeoutNeverSaturates(p);
    if TimesFrom(created, ops) {
      LastAliveNotBeforeCreation(NewConn(p, created), created, ops);
    }
  }

  /** Within one timeout of the end of the clock the watchdog fires at the very instant of creation. */
  lemma EndOfClockFiresAtOnce(p: Params, created: nat)
    requires ValidTiming(p) && p.multiplier * p.t2oApi > INSTANT_MAX - created >= 0
    ensures PollWatchdog(Run(NewConn(p, created), []), created)
  {
    WatchdogExact(p, created, [], created);
  }
}
