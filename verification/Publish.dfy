/** The publish gate, the batch window and the per-signal state (publish.rs, poll.rs). */
module Publish {
  import opened Prelude

  // ----- values and the deadband -----

  /** A JSON value: a number, a list, or anything else, distinguished by `tag`. */
  datatype Value = Number(n: real) | List(elems: seq<Value>) | Other(tag: nat)

  datatype DeadbandKind = NoDeadband | Absolute | Percent
  datatype Deadband = Deadband(kind: DeadbandKind, value: real)

  datatype Quality = Good | Bad | Uncertain
  datatype Mode = Always | OnChange

  function AbsR(x: real): real {
    if x < 0.0 then -x else x
  }

  predicate ScalarExceeds(old_: real, new_: real, db: Deadband) {
    var delta := AbsR(new_ - old_);
    match db.kind
    case NoDeadband => new_ != old_
    case Absolute => delta >= db.value
    case Percent =>
      var threshold := AbsR(old_) * db.value / 100.0;
      if threshold == 0.0 then new_ != old_ else delta >= threshold
  }

  predicate ElementChanged(prev: Value, next: Value, db: Deadband) {
    if prev.Number? && next.Number? then ScalarExceeds(prev.n, next.n, db) else prev != next
  }

  predicate ValueChanged(prev: Value, next: Value, db: Deadband) {
    if prev.List? && next.List? then
      |prev.elems| != |next.elems| || exists i :: 0 <= i < |prev.elems| && ElementChanged(prev.elems[i], next.elems[i], db)
    else ElementChanged(prev, next, db)
  }

  /** How far a suppressed reading can be from the value it is measured against. A negative percentage leaves no room around a non-zero value. */
  predicate Close(prev: Value, next: Value, db: Deadband) {
    if prev.Number? && next.Number? then
      match db.kind
      case NoDeadband => prev.n == next.n
      case Absolute => AbsR(next.n - prev.n) < db.value
      case Percent =>
        || 100.0 * AbsR(next.n - prev.n) < AbsR(prev.n) * db.value
        || (next.n == prev.n && (prev.n == 0.0 || db.value >= 0.0))
    else prev == next
  }

  predicate AllClose(prev: Value, next: Value, db: Deadband) {
    if prev.List? && next.List? then
      |prev.elems| == |next.elems| && forall i :: 0 <= i < |prev.elems| ==> Close(prev.elems[i], next.elems[i], db)
    else Close(prev, next, db)
  }

  lemma ElementUnchangedIffClose(prev: Value, next: Value, db: Deadband)
    ensures !ElementChanged(prev, next, db) <==> Close(prev, next, db)
  {
    if prev.Number? && next.Number? && db.kind.Percent? {
      PercentThreshold(prev.n, next.n, db.value);
    }
  }

  /** The divided and the multiplied-out form of the percent threshold agree. */
  lemma PercentThreshold(a: real, b: real, v: real)
    ensures var p := AbsR(a) * v;
            && (p == 0.0 <==> a == 0.0 || v == 0.0)
            && (p < 0.0 <==> a != 0.0 && v < 0.0)
            && (p / 100.0 == 0.0 <==> p == 0.0)
            && (AbsR(b - a) < p / 100.0 <==> 100.0 * AbsR(b - a) < p)
  {
  }

  /** The gate suppresses exactly the readings within the deadband, element by element. */
  lemma {:induction false} UnchangedIffClose(prev: Value, next: Value, db: Deadband)
    ensures !ValueChanged(prev, next, db) <==> AllClose(prev, next, db)
  {
    if prev.List? && next.List? {
      forall i | 0 <= i < |prev.elems| && i < |next.elems|
        ensures !ElementChanged(prev.elems[i], next.elems[i], db) <==> Close(prev.elems[i], next.elems[i], db)
      {
        ElementUnchangedIffClose(prev.elems[i], next.elems[i], db);
      }
    } else {
      ElementUnchangedIffClose(prev, next, db);
    }
  }

  /** An absolute deadband of zero never suppresses a number, not even an unchanged one. */
  lemma ZeroAbsoluteNeverSuppresses(a: real)
    ensures forall v :: v <= 0.0 <==> ValueChanged(Number(a), Number(a), Deadband(Absolute, v))
  {
  }

  /** A negative percentage, which the loader lets through, publishes an unchanged value unless it is zero. */
  lemma NegativePercentNeverSuppresses(a: real, v: real)
    ensures ValueChanged(Number(a), Number(a), Deadband(Percent, v)) <==> v < 0.0 && a != 0.0
  {
    PercentThreshold(a, a, v);
  }

  // ----- the gate -----

  predicate ShouldPublish(prev: Option<Value>, value: Value, q: Quality, mode: Mode, db: Deadband) {
    !q.Good? || mode.Always? || prev.None? || ValueChanged(prev.value, value, db)
  }

  datatype Sample = Sample(value: Value, quality: Quality, stamp: nat)

  /** `windowOpen` is when the first buffered sample came in. */
  datatype Signal = Signal(
    committed: Option<Value>, pending: Option<Value>, lastGood: Option<nat>,
    buffer: seq<Sample>, windowOpen: Option<nat>)

  const FRESH: Signal := Signal(None, None, None, [], None)

  predicate GatePasses(s: Signal, value: Value, q: Quality, mode: Mode, db: Deadband) {
    ShouldPublish(s.committed, value, q, mode, db) && ShouldPublish(s.pending, value, q, mode, db)
  }

  // ----- the batch window -----

  const MILLI: nat := 1_000_000

  function AddSample(s: Signal, sample: Sample, now: nat, batchMs: nat): (Signal, Option<seq<Sample>>) {
    if batchMs == 0 then (s, Some([sample]))
    else (s.(buffer := s.buffer + [sample], windowOpen := if s.windowOpen.None? then Some(now) else s.windowOpen), None)
  }

  predicate Due(s: Signal, now: nat, batchMs: nat) {
    s.windowOpen.Some? && s.buffer != [] && Max(now - s.windowOpen.value, 0) >= batchMs * MILLI
  }

  function TakeDueOne(s: Signal, now: nat, batchMs: nat): (Signal, Option<seq<Sample>>) {
    if Due(s, now, batchMs) then (s.(buffer := [], windowOpen := None), Some(s.buffer)) else (s, None)
  }

  function SettleOne(s: Signal, published: bool): Signal {
    s.(pending := None, committed := if published && s.pending.Some? then s.pending else s.committed)
  }

  function DiscardOne(s: Signal): Signal {
    s.(buffer := [], windowOpen := None, pending := if s.buffer == [] then s.pending else None)
  }

  function RebaseOne(s: Signal, value: Value, now: nat): Signal {
    s.(committed := Some(value), pending := None, lastGood := Some(now))
  }

  // ----- one reading -----

  datatype Reading = Reading(value: Value, quality: Quality)

  datatype Fate = Suppressed | Emitted(samples: seq<Sample>) | Buffered

  /** Gate, remember what is in flight, and batch. */
  function ProcessOne(s: Signal, r: Reading, mode: Mode, batchMs: nat, db: Deadband, now: nat, stamp: nat): (Signal, Fate) {
    var seen := if r.quality.Good? then s.(lastGood := Some(now)) else s;
    if !GatePasses(seen, r.value, r.quality, mode, db) then (seen, Suppressed)
    else
      var flying := if r.quality.Good? then seen.(pending := Some(r.value)) else seen;
      var (added, out) := AddSample(flying, Sample(r.value, r.quality, stamp), now, batchMs);
      (added, if out.Some? then Emitted(out.value) else Buffered)
  }

  // ----- the life of one signal -----

  /** What the driver does to one signal in one of its steps; `published` is how the publish of whatever came out went. */
  datatype SignalOp =
    | Cycle(reading: Option<Reading>, mode: Mode, db: Deadband, now: nat, stamp: nat, published: bool)
    | Flush(now: nat, published: bool)
    | Pause
    | Rebase(value: Value, now: nat)
    | Resume

  /** Samples that left the buffer together, and whether they were handed out or thrown away. */
  datatype Block = Block(samples: seq<Sample>, handedOut: bool)

  /** A signal with its history. `gatedAt` is the time each sample was gated in; `confirmed` is the last GOOD value in a confirmed publish, or the last rebase. */
  datatype Life = Life(
    s: Signal, paused: bool,
    matched: nat, suppressed: nat, gated: seq<Sample>, gatedAt: seq<nat>, blocks: seq<Block>, confirmed: Option<Value>)

  const BORN: Life := Life(FRESH, false, 0, 0, [], [], [], None)

  /** One more sample was gated in. */
  function GateIn(l: Life, sample: Sample, now: nat): Life {
    l.(gated := l.gated + [sample], gatedAt := l.gatedAt + [now])
  }

  /** The last GOOD value among some samples. */
  function LastGood(samples: seq<Sample>): Option<Value> {
    if samples == [] then None
    else if samples[|samples| - 1].quality.Good? then Some(samples[|samples| - 1].value)
    else LastGood(samples[..|samples| - 1])
  }

  function Flatten(blocks: seq<Block>): seq<Sample> {
    if blocks == [] then [] else Flatten(blocks[..|blocks| - 1]) + blocks[|blocks| - 1].samples
  }

  /** A block was handed out and its publish resolved. */
  function HandOut(l: Life, samples: seq<Sample>, published: bool): Life {
    l.(s := SettleOne(l.s, published),
       blocks := l.blocks + [Block(samples, true)],
       confirmed := if published && LastGood(samples).Some? then LastGood(samples) else l.confirmed)
  }

  function LifeStep(l: Life, op: SignalOp, batchMs: nat): Life {
    match op
    case Cycle(reading, mode, db, now, stamp, published) =>
      if l.paused || reading.None? then l
      else
        var (s, fate) := ProcessOne(l.s, reading.value, mode, batchMs, db, now, stamp);
        var counted := l.(s := s, matched := l.matched + 1);
        (match fate
         case Suppressed => counted.(suppressed := l.suppressed + 1)
         case Buffered => GateIn(counted, Sample(reading.value.value, reading.value.quality, stamp), now)
         case Emitted(samples) =>
           HandOut(GateIn(counted, Sample(reading.value.value, reading.value.quality, stamp), now), samples, published))
    case Flush(now, published) =>
      if l.paused then l
      else
        var (s, out) := TakeDueOne(l.s, now, batchMs);
        if out.None? then l else HandOut(l.(s := s), out.value, published)
    case Pause =>
      l.(s := DiscardOne(l.s), paused := true,
         blocks := if l.s.buffer == [] then l.blocks else l.blocks + [Block(l.s.buffer, false)])
    case Rebase(value, now) =>
      if l.paused then l.(s := RebaseOne(l.s, value, now), confirmed := Some(value)) else l
    case Resume => l.(paused := false)
  }

  function LifeOf(ops: seq<SignalOp>, batchMs: nat): Life {
    if ops == [] then BORN else LifeStep(LifeOf(ops[..|ops| - 1], batchMs), ops[|ops| - 1], batchMs)
  }

  /** When the oldest sample still waiting was gated in: what waits is the end of what was gated. */
  function WaitingSince(gatedAt: seq<nat>, buffer: seq<Sample>): Option<nat> {
    if buffer == [] || |buffer| > |gatedAt| then None else Some(gatedAt[|gatedAt| - |buffer|])
  }

  /** What holds between any two steps of the driver. */
  ghost predicate Settled(l: Life, batchMs: nat) {
    // conservation and order: what was gated in is what left, in order, then what waits
    && l.gated == Flatten(l.blocks) + l.s.buffer
    && l.matched == l.suppressed + |l.gated|
    // the window is open exactly while something waits, and since the oldest of it was gated in
    && |l.gatedAt| == |l.gated|
    && l.s.windowOpen == WaitingSince(l.gatedAt, l.s.buffer)
    // what is in flight is the last GOOD value that waits
    && l.s.pending == LastGood(l.s.buffer)
    // what is committed reached the subscriber
    && l.s.committed == l.confirmed
    && (batchMs == 0 || l.paused ==> l.s.buffer == [])
  }

  lemma LastGoodAppend(samples: seq<Sample>, x: Sample)
    ensures LastGood(samples + [x]) == if x.quality.Good? then Some(x.value) else LastGood(samples)
  {
    assert (samples + [x])[..|samples|] == samples;
  }

  lemma FlattenAppend(blocks: seq<Block>, b: Block)
    ensures Flatten(blocks + [b]) == Flatten(blocks) + b.samples
  {
    assert (blocks + [b])[..|blocks|] == blocks;
  }

  lemma HandOutKeepsSettled(l: Life, samples: seq<Sample>, published: bool, batchMs: nat)
    requires l.s.buffer == [] && l.s.windowOpen == None
    requires l.gated == Flatten(l.blocks) + samples && l.matched == l.suppressed + |l.gated| && |l.gatedAt| == |l.gated|
    requires l.s.pending == LastGood(samples) && l.s.committed == l.confirmed
    ensures Settled(HandOut(l, samples, published), batchMs)
  {
    FlattenAppend(l.blocks, Block(samples, true));
    assert LastGood([]) == None;
  }

  lemma AppendAssoc(a: seq<Sample>, b: seq<Sample>, c: seq<Sample>)
    ensures a + b + c == a + (b + c)
  {
  }

  lemma AppendNothing(a: seq<Sample>, x: Sample)
    ensures a + [] == a && [] + [x] == [x]
  {
  }

  lemma CycleKeepsSettled(l: Life, r: Reading, db: Deadband, now: nat, stamp: nat, published: bool, mode: Mode, batchMs: nat)
    requires Settled(l, batchMs) && !l.paused
    ensures Settled(LifeStep(l, Cycle(Some(r), mode, db, now, stamp, published), batchMs), batchMs)
  {
    var x := Sample(r.value, r.quality, stamp);
    var (s, fate) := ProcessOne(l.s, r, mode, batchMs, db, now, stamp);
    var counted := l.(s := s, matched := l.matched + 1);
    if fate.Buffered? {
      BufferKeepsSettled(l, counted, x, now, batchMs);
    } else if fate.Emitted? {
      LastGoodAppend([], x);
      AppendNothing(Flatten(l.blocks), x);
      HandOutKeepsSettled(GateIn(counted, x, now), [x], published, batchMs);
    }
  }

  /** A sample that joins the window opens it only when nothing waited. */
  lemma BufferKeepsSettled(l: Life, counted: Life, x: Sample, now: nat, batchMs: nat)
    requires Settled(l, batchMs) && !l.paused && batchMs > 0
    requires counted == l.(s := counted.s, matched := l.matched + 1)
    requires counted.s.buffer == l.s.buffer + [x] && counted.s.committed == l.s.committed
    requires counted.s.windowOpen == (if l.s.windowOpen.None? then Some(now) else l.s.windowOpen)
    requires counted.s.pending == if x.quality.Good? then Some(x.value) else l.s.pending
    ensures Settled(GateIn(counted, x, now), batchMs)
  {
    LastGoodAppend(l.s.buffer, x);
    AppendAssoc(Flatten(l.blocks), l.s.buffer, [x]);
    assert |l.gated| >= |l.s.buffer|;
  }

  lemma PauseKeepsSettled(l: Life, batchMs: nat)
    requires Settled(l, batchMs)
    ensures Settled(LifeStep(l, Pause, batchMs), batchMs)
  {
    FlattenAppend(l.blocks, Block(l.s.buffer, false));
    assert LastGood([]) == None;
  }

  lemma StepKeepsSettled(l: Life, op: SignalOp, batchMs: nat)
    requires Settled(l, batchMs)
    ensures Settled(LifeStep(l, op, batchMs), batchMs)
  {
    match op {
      case Cycle(reading, mode, db, now, stamp, published) =>
        if !l.paused && reading.Some? {
          CycleKeepsSettled(l, reading.value, db, now, stamp, published, mode, batchMs);
        }
      case Flush(now, published) =>
        if !l.paused && Due(l.s, now, batchMs) {
          HandOutKeepsSettled(l.(s := TakeDueOne(l.s, now, batchMs).0), l.s.buffer, published, batchMs);
        }
      case Pause =>
        PauseKeepsSettled(l, batchMs);
      case Rebase(value, now) =>
        assert LastGood([]) == None;
      case Resume =>
    }
  }

  /** Over every run with a fixed batch window, every matched reading is suppressed, handed out, discarded or still waiting, in order, and both baselines mean what they say. */
  lemma {:induction false} EveryLifeIsSettled(ops: seq<SignalOp>, batchMs: nat)
    ensures Settled(LifeOf(ops, batchMs), batchMs)
    decreases |ops|
  {
    if ops != [] {
      EveryLifeIsSettled(ops[..|ops| - 1], batchMs);
      StepKeepsSettled(LifeOf(ops[..|ops| - 1], batchMs), ops[|ops| - 1], batchMs);
    }
  }

  /** In every run a flush at or after the oldest waiting sample's time plus the batch window hands the whole buffer out, and an earlier one, or one with nothing waiting, does nothing. */
  lemma FlushExact(ops: seq<SignalOp>, batchMs: nat, now: nat, published: bool)
    requires batchMs > 0 && !LifeOf(ops, batchMs).paused
    ensures var l := LifeOf(ops, batchMs);
            var after, n := LifeStep(l, Flush(now, published), batchMs), |l.s.buffer|;
            && n <= |l.gatedAt| == |l.gated|
            && if n > 0 && now >= l.gatedAt[|l.gatedAt| - n] + batchMs * 1_000_000
               then after.blocks == l.blocks + [Block(l.s.buffer, true)] && after.s.buffer == []
               else after == l
  {
    EveryLifeIsSettled(ops, batchMs);
    DueExact(LifeOf(ops, batchMs), batchMs, now);
    FlushIs(LifeOf(ops, batchMs), batchMs, now, published);
  }

  lemma DueExact(l: Life, batchMs: nat, now: nat)
    requires batchMs > 0 && Settled(l, batchMs)
    ensures var n := |l.s.buffer|;
            && n <= |l.gatedAt| == |l.gated|
            && (Due(l.s, now, batchMs) <==> n > 0 && now >= l.gatedAt[|l.gatedAt| - n] + batchMs * 1_000_000)
  {
    assert |l.gated| == |Flatten(l.blocks)| + |l.s.buffer|;
    WindowLength(batchMs);
  }

  lemma FlushIs(l: Life, batchMs: nat, now: nat, published: bool)
    requires !l.paused
    ensures var after := LifeStep(l, Flush(now, published), batchMs);
            if Due(l.s, now, batchMs) then after.blocks == l.blocks + [Block(l.s.buffer, true)] && after.s.buffer == []
            else after == l
  {
  }

  lemma WindowLength(batchMs: nat)
    requires batchMs > 0
    ensures batchMs * MILLI == batchMs * 1_000_000 > 0
  {
  }

  /** In every run a pause throws away what waits and leaves the confirmed value; until the resume nothing is taken in, and only a rebase moves the baseline. */
  lemma PauseExact(ops: seq<SignalOp>, batchMs: nat, cycle: SignalOp, value: Value, now: nat)
    requires cycle.Cycle? || cycle.Flush?
    ensures var l := LifeOf(ops, batchMs);
            var p := LifeStep(l, Pause, batchMs);
            && p.paused && p.s == Signal(l.confirmed, None, l.s.lastGood, [], None) && p.confirmed == l.confirmed
            && p.blocks == (if l.s.buffer == [] then l.blocks else l.blocks + [Block(l.s.buffer, false)])
            && LifeStep(p, cycle, batchMs) == p
            && LifeStep(p, Rebase(value, now), batchMs) == p.(s := Signal(Some(value), None, Some(now), [], None), confirmed := Some(value))
            && LifeStep(p, Resume, batchMs) == p.(paused := false)
            && (!l.paused ==> LifeStep(l, Rebase(value, now), batchMs) == l)
  {
    EveryLifeIsSettled(ops, batchMs);
  }

  /** When the signal last had a GOOD reading: one it was matched with, or one a rebase took over. */
  function LastGoodTime(ops: seq<SignalOp>, batchMs: nat): Option<nat> {
    if ops == [] then None
    else
      var before, op := ops[..|ops| - 1], ops[|ops| - 1];
      var paused := LifeOf(before, batchMs).paused;
      if op.Cycle? && !paused && op.reading.Some? && op.reading.value.quality == Good then Some(op.now)
      else if op.Rebase? && paused then Some(op.now)
      else LastGoodTime(before, batchMs)
  }

  /** In every run the signal remembers that time, whatever became of the reading. */
  lemma {:induction false} LastGoodExact(ops: seq<SignalOp>, batchMs: nat)
    ensures LifeOf(ops, batchMs).s.lastGood == LastGoodTime(ops, batchMs)
    decreases |ops|
  {
    if ops != [] {
      LastGoodExact(ops[..|ops| - 1], batchMs);
    }
  }

  /** A GOOD reading is remembered as the last good one whatever becomes of it, and under `always` it is never withheld. */
  lemma GoodReadings(s: Signal, r: Reading, mode: Mode, batchMs: nat, db: Deadband, now: nat, stamp: nat)
    requires r.quality.Good?
    ensures ProcessOne(s, r, mode, batchMs, db, now, stamp).0.lastGood == Some(now)
    ensures mode.Always? ==> !ProcessOne(s, r, mode, batchMs, db, now, stamp).1.Suppressed?
    ensures s.committed.None? && s.pending.None? ==> !ProcessOne(s, r, mode, batchMs, db, now, stamp).1.Suppressed?
  {
  }

  /** Within the deadband of the last confirmed value, or of the last GOOD one still waiting. */
  predicate CloseToBaseline(l: Life, value: Value, db: Deadband) {
    || (l.confirmed.Some? && AllClose(l.confirmed.value, value, db))
    || (LastGood(l.s.buffer).Some? && AllClose(LastGood(l.s.buffer).value, value, db))
  }

  /** A GOOD reading under `onChange` is withheld exactly when it is within the deadband of the last confirmed value or of the last one still waiting. */
  lemma WithheldIffClose(ops: seq<SignalOp>, batchMs: nat, r: Reading, db: Deadband, now: nat, stamp: nat)
    requires r.quality.Good?
    ensures ProcessOne(LifeOf(ops, batchMs).s, r, OnChange, batchMs, db, now, stamp).1 == Suppressed
       <==> CloseToBaseline(LifeOf(ops, batchMs), r.value, db)
  {
    EveryLifeIsSettled(ops, batchMs);
    var l := LifeOf(ops, batchMs);
    if l.s.committed.Some? {
      UnchangedIffClose(l.s.committed.value, r.value, db);
    }
    if l.s.pending.Some? {
      UnchangedIffClose(l.s.pending.value, r.value, db);
    }
  }

  /** Without batching, after every GOOD reading the subscriber's value is that reading or within the deadband of it, unless its publish failed; a failed one leaves the baseline and passes again at once. */
  lemma SubscriberNeverDrifts(ops: seq<SignalOp>, r: Reading, db: Deadband, now: nat, stamp: nat, published: bool)
    requires r.quality.Good? && !LifeOf(ops, 0).paused
    ensures var before := LifeOf(ops, 0);
            var after := LifeStep(before, Cycle(Some(r), OnChange, db, now, stamp, published), 0);
            var handedOut := |after.blocks| > |before.blocks|;
            && (!handedOut ==> after.confirmed.Some? && AllClose(after.confirmed.value, r.value, db))
            && (handedOut ==> after.blocks == before.blocks + [Block([Sample(r.value, Good, stamp)], true)])
            && (handedOut && published ==> after.s.committed == Some(r.value))
            && (handedOut && !published ==>
                  && after.s.committed == before.s.committed
                  && forall later, stamp' :: ProcessOne(after.s, r, OnChange, 0, db, later, stamp').1.Emitted?)
  {
    EveryLifeIsSettled(ops, 0);
    WithheldIffClose(ops, 0, r, db, now, stamp);
    LastGoodAppend([], Sample(r.value, Good, stamp));
    assert [] + [Sample(r.value, Good, stamp)] == [Sample(r.value, Good, stamp)];
  }

  /** A non-GOOD reading is never withheld, and moves neither baseline nor the time of the last GOOD one. */
  lemma FailuresAlwaysPass(s: Signal, r: Reading, mode: Mode, batchMs: nat, db: Deadband, now: nat, stamp: nat)
    requires !r.quality.Good?
    ensures !ProcessOne(s, r, mode, batchMs, db, now, stamp).1.Suppressed?
    ensures var after := ProcessOne(s, r, mode, batchMs, db, now, stamp).0;
            after.pending == s.pending && after.committed == s.committed && after.lastGood == s.lastGood
  {
  }
}
