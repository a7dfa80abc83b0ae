/** Whole runs of the publish engine under its driver: conservation over all signals, and each signal's own life (poll_driver.rs, push_driver.rs). */
module EngineRuns {
  import opened Prelude
  import opened Publish
  import opened PublishEngine

  // ----- whole runs of the driver -----

  /** A poll group has its own publish mode. `out` and `lost` list what the step drained, in whatever order the map was walked. */
  datatype EngineOp =
    | GroupCycle(specs: seq<Spec>, mode: Mode, readings: seq<(Id, Reading)>, now: nat, stamp: nat, results: map<Id, bool>)
    | FlushDue(now: nat, out: seq<PublishOut>, results: map<Id, bool>)
    | PauseAll(lost: seq<PublishOut>)
    | ResumeAll
    | RebaseFromReadings(values: seq<(Id, Value)>, now: nat)

  /** The engine, its counters, and everything that happened. */
  datatype Driver = Driver(state: Signals, paused: bool, tally: Tally, log: seq<Note>)

  const FIRST: Driver := Driver(map[], false, NO_TALLY, [])

  /** Blocks that left their windows together; a block that is thrown away is never published. */
  function Lefts(out: seq<PublishOut>, handedOut: bool, results: map<Id, bool>): (notes: seq<Note>)
    ensures |notes| == |out|
  {
    seq(|out|, i requires 0 <= i < |out| =>
      Left(out[i].id, Block(out[i].samples, handedOut), handedOut && out[i].id in results && results[out[i].id]))
  }

  function Rebases(values: seq<(Id, Value)>): (notes: seq<Note>)
    ensures |notes| == |values|
  {
    seq(|values|, i requires 0 <= i < |values| => Rebased(values[i].0, values[i].1))
  }

  /** Process a group, publish what it hands out, and settle each publish. */
  function CycleStep(d: Driver, specs: seq<Spec>, c: Cycled, results: map<Id, bool>): Driver {
    var g := ProcessSpecs(d.state, d.tally, specs, c);
    d.(state := SettleAll(g.state, g.out, results), tally := g.tally, log := d.log + (g.notes + Lefts(g.out, true, results)))
  }

  function DriverStep(d: Driver, op: EngineOp, batchMs: nat): Driver {
    match op
    case GroupCycle(specs, mode, readings, now, stamp, results) =>
      if d.paused then d else CycleStep(d, specs, Cycled(ById(readings), mode, batchMs, now, stamp), results)
    case FlushDue(now, out, results) =>
      if d.paused then d
      else d.(state := SettleAll(TakeDueAll(d.state, now, batchMs), out, results), log := d.log + Lefts(out, true, results))
    case PauseAll(lost) => d.(state := DiscardAll(d.state), paused := true, log := d.log + Lefts(lost, false, map[]))
    case ResumeAll => d.(paused := false)
    case RebaseFromReadings(values, now) =>
      if d.paused then d.(state := RebaseAll(d.state, values, now), log := d.log + Rebases(values)) else d
  }

  function DriverRun(ops: seq<EngineOp>, batchMs: nat): Driver {
    if ops == [] then FIRST else DriverStep(DriverRun(ops[..|ops| - 1], batchMs), ops[|ops| - 1], batchMs)
  }

  /** Tags are distinct, and what a step drained is listed as it was. */
  ghost predicate Legit(d: Driver, op: EngineOp, batchMs: nat) {
    match op
    case GroupCycle(specs, _, _, _, _, _) => DistinctTags(specs)
    case FlushDue(now, out, _) => d.paused || IsDueList(d.state, now, batchMs, out)
    case PauseAll(lost) => IsWindowList(d.state, lost)
    case _ => true
  }

  ghost predicate AllLegit(ops: seq<EngineOp>, batchMs: nat) {
    ops == []
    || (AllLegit(ops[..|ops| - 1], batchMs) && Legit(DriverRun(ops[..|ops| - 1], batchMs), ops[|ops| - 1], batchMs))
  }

  // ----- the driver's steps on the engine object -----

  /** Each publish is settled by how it went, in the order it was handed out. */
  method SettleEach(engine: Engine, out: seq<PublishOut>, results: map<Id, bool>)
    modifies engine
    ensures engine.state == SettleAll(old(engine.state), out, results)
  {
    var i := 0;
    while i < |out|
      invariant 0 <= i <= |out|
      invariant engine.state == SettleAll(old(engine.state), out[..i], results)
    {
      assert out[..i + 1][..i] == out[..i];
      engine.Settle(out[i].id, out[i].id in results && results[out[i].id]);
      i := i + 1;
    }
    assert out[..i] == out;
  }

  method FlushWindows(engine: Engine, now: nat, batchMs: nat, results: map<Id, bool>) returns (out: seq<PublishOut>)
    modifies engine
    ensures IsDueList(old(engine.state), now, batchMs, out)
    ensures engine.state == SettleAll(TakeDueAll(old(engine.state), now, batchMs), out, results)
  {
    out := engine.TakeDue(batchMs, now);
    SettleEach(engine, out, results);
  }

  /** One poll cycle: the engine and the counters end as the pure step says, for any log so far. */
  method PollGroup(engine: Engine, health: Health, specs: seq<Spec>, readings: seq<(Id, Reading)>, mode: Mode, batchMs: nat, now: nat, stamp: nat,
                   results: map<Id, bool>, ghost log: seq<Note>)
    modifies engine, health
    ensures var before := Driver(old(engine.state), false, old(health.tally), log);
            var after := CycleStep(before, specs, Cycled(ById(readings), mode, batchMs, now, stamp), results);
            engine.state == after.state && health.tally == after.tally
  {
    var out := engine.ProcessGroup(specs, mode, batchMs, readings, now, stamp, health);
    SettleEach(engine, out, results);
  }

  // ----- conservation over the whole engine -----

  /** Samples that left their windows, by whether they were handed out or thrown away. */
  function SamplesLeft(log: seq<Note>, handedOut: bool): nat {
    if log == [] then 0
    else
      var last := log[|log| - 1];
      SamplesLeft(log[..|log| - 1], handedOut) + if last.Left? && last.block.handedOut == handedOut then |last.block.samples| else 0
  }

  lemma {:induction false} CountsSplit(a: seq<Note>, b: seq<Note>, handedOut: bool)
    ensures CountHeld(a + b) == CountHeld(a) + CountHeld(b)
    ensures CountTaken(a + b) == CountTaken(a) + CountTaken(b)
    ensures SamplesLeft(a + b, handedOut) == SamplesLeft(a, handedOut) + SamplesLeft(b, handedOut)
    decreases |b|
  {
    if b == [] {
      assert a + b == a;
    } else {
      CountsSplit(a, b[..|b| - 1], handedOut);
      assert (a + b)[..|a + b| - 1] == a + b[..|b| - 1];
    }
  }

  lemma {:induction false} LeftsCount(out: seq<PublishOut>, handedOut: bool, results: map<Id, bool>, flag: bool)
    ensures var notes := Lefts(out, handedOut, results);
            CountHeld(notes) == 0 && CountTaken(notes) == 0
            && SamplesLeft(notes, flag) == if flag == handedOut then TotalSamples(out) else 0
    decreases |out|
  {
    if out != [] {
      LeftsCount(out[..|out| - 1], handedOut, results, flag);
      assert Lefts(out, handedOut, results)[..|out| - 1] == Lefts(out[..|out| - 1], handedOut, results);
    }
  }

  lemma {:induction false} RebasesCount(values: seq<(Id, Value)>, flag: bool)
    ensures var notes := Rebases(values);
            CountHeld(notes) == 0 && CountTaken(notes) == 0 && SamplesLeft(notes, flag) == 0
    decreases |values|
  {
    if values != [] {
      RebasesCount(values[..|values| - 1], flag);
      assert Rebases(values)[..|values| - 1] == Rebases(values[..|values| - 1]);
    }
  }

  lemma {:induction false} RebaseKeepsWaiting(m: Signals, values: seq<(Id, Value)>, now: nat)
    ensures Waiting(RebaseAll(m, values, now)) == Waiting(m)
    decreases |values|
  {
    if values != [] {
      var front, last := values[..|values| - 1], values[|values| - 1];
      RebaseKeepsWaiting(m, front, now);
      var before := RebaseAll(m, front, now);
      WaitingUpdate(before, last.0, RebaseOne(SignalOf(before, last.0), last.1, now));
    }
  }

  lemma {:induction false} SinglesTotal(out: seq<PublishOut>)
    requires forall i :: 0 <= i < |out| ==> |out[i].samples| == 1
    ensures TotalSamples(out) == |out|
    decreases |out|
  {
    if out != [] {
      SinglesTotal(out[..|out| - 1]);
    }
  }

  lemma {:induction false} NoSamplesLeft(m: Signals, t: Tally, specs: seq<Spec>, c: Cycled, flag: bool)
    ensures SamplesLeft(ProcessSpecs(m, t, specs, c).notes, flag) == 0
    decreases |specs|
  {
    if specs != [] {
      var front := specs[..|specs| - 1];
      NoSamplesLeft(m, t, front, c, flag);
      StepLeavesNone(ProcessSpecs(m, t, front, c), specs[|specs| - 1], c, flag);
    }
  }

  lemma StepLeavesNone(g: Group, spec: Spec, c: Cycled, flag: bool)
    ensures SamplesLeft(GroupStep(g, spec, c).notes, flag) == SamplesLeft(g.notes, flag)
  {
    if spec.tagPath in c.byId {
      assert GroupStep(g, spec, c).notes[..|g.notes|] == g.notes;
    }
  }

  /** Every matched reading is suppressed, handed out, thrown away or still waiting, and the counters say which. */
  predicate Balance(t: Tally, held: nat, taken: nat, handedOut: nat, discarded: nat, waiting: nat) {
    && Matched(t) == t.suppressed + handedOut + discarded + waiting
    && t.suppressed == held
    && Matched(t) == held + taken
    && t.readErrors == t.bad
  }

  ghost predicate Conserved(d: Driver) {
    Balance(d.tally, CountHeld(d.log), CountTaken(d.log), SamplesLeft(d.log, true), SamplesLeft(d.log, false), Waiting(d.state))
  }

  /** What a step adds to the log and to the counters, and takes from the windows, balances. */
  lemma Balanced(d: Driver, after: Driver, notes: seq<Note>)
    requires Conserved(d) && after.log == d.log + notes
    requires after.tally.suppressed == d.tally.suppressed + CountHeld(notes)
    requires Matched(after.tally) == Matched(d.tally) + CountHeld(notes) + CountTaken(notes)
    requires after.tally.readErrors - d.tally.readErrors == after.tally.bad - d.tally.bad
    requires Waiting(after.state) + SamplesLeft(notes, true) + SamplesLeft(notes, false) == Waiting(d.state) + CountTaken(notes)
    ensures Conserved(after)
  {
    CountsSplit(d.log, notes, true);
    CountsSplit(d.log, notes, false);
  }

  lemma CycleConserves(d: Driver, specs: seq<Spec>, c: Cycled, results: map<Id, bool>)
    requires Conserved(d)
    ensures Conserved(CycleStep(d, specs, c, results))
  {
    var g := ProcessSpecs(d.state, d.tally, specs, c);
    var lefts := Lefts(g.out, true, results);
    GroupConserves(d.state, d.tally, specs, c);
    GroupBooks(d.state, d.tally, specs, c);
    SettleKeepsWaiting(g.state, g.out, results);
    SinglesTotal(g.out);
    forall flag ensures SamplesLeft(g.notes + lefts, flag) == if flag then |g.out| else 0 {
      NoSamplesLeft(d.state, d.tally, specs, c, flag);
      LeftsCount(g.out, true, results, flag);
      CountsSplit(g.notes, lefts, flag);
    }
    LeftsCount(g.out, true, results, true);
    CountsSplit(g.notes, lefts, true);
    Balanced(d, CycleStep(d, specs, c, results), g.notes + lefts);
  }

  lemma DrainKeepsConserved(d: Driver, after: Driver, drained: Signals, out: seq<PublishOut>, handedOut: bool, results: map<Id, bool>)
    requires Conserved(d) && Drained(d.state, drained, out)
    requires Waiting(after.state) == Waiting(drained) && after.tally == d.tally && after.log == d.log + Lefts(out, handedOut, results)
    ensures Conserved(after)
  {
    DrainConserves(d.state, drained, out);
    LeftsCount(out, handedOut, results, true);
    LeftsCount(out, handedOut, results, false);
    Balanced(d, after, Lefts(out, handedOut, results));
  }

  lemma NothingYet(m: Signals, log: seq<Note>, handedOut: bool)
    requires m == map[] && log == []
    ensures Waiting(m) == 0 && CountHeld(log) == 0 && CountTaken(log) == 0 && SamplesLeft(log, handedOut) == 0
  {
  }

  lemma FirstConserved(d: Driver)
    requires d.state == map[] && d.tally == NO_TALLY && d.log == []
    ensures Conserved(d)
  {
    NothingYet(d.state, d.log, true);
    NothingYet(d.state, d.log, false);
  }

  lemma StepKeepsConserved(d: Driver, op: EngineOp, batchMs: nat)
    requires Conserved(d) && Legit(d, op, batchMs)
    ensures Conserved(DriverStep(d, op, batchMs))
  {
    var after := DriverStep(d, op, batchMs);
    match op {
      case GroupCycle(specs, mode, readings, now, stamp, results) =>
        if !d.paused {
          CycleConserves(d, specs, Cycled(ById(readings), mode, batchMs, now, stamp), results);
        }
      case FlushDue(now, out, results) =>
        if !d.paused {
          SettleKeepsWaiting(TakeDueAll(d.state, now, batchMs), out, results);
          DrainKeepsConserved(d, after, TakeDueAll(d.state, now, batchMs), out, true, results);
        }
      case PauseAll(lost) =>
        DrainKeepsConserved(d, after, DiscardAll(d.state), lost, false, map[]);
      case ResumeAll =>
      case RebaseFromReadings(values, now) =>
        if d.paused {
          RebaseKeepsWaiting(d.state, values, now);
          RebasesCount(values, true);
          RebasesCount(values, false);
          Balanced(d, after, Rebases(values));
        }
    }
  }

  /** Over every run of cycles, flushes, pauses and rebases, matched readings are suppressed, handed out, discarded or waiting: nothing is lost and nothing is counted twice. */
  lemma {:induction false} EngineConserves(ops: seq<EngineOp>, batchMs: nat)
    requires AllLegit(ops, batchMs)
    ensures Conserved(DriverRun(ops, batchMs))
    decreases |ops|
  {
    if ops == [] {
      FirstConserved(DriverRun(ops, batchMs));
    } else {
      EngineConserves(ops[..|ops| - 1], batchMs);
      StepKeepsConserved(DriverRun(ops[..|ops| - 1], batchMs), ops[|ops| - 1], batchMs);
    }
  }

  // ----- each signal's own account -----

  /** One signal's part of the log, in the terms of `Life`. */
  datatype Account = Account(
    matched: nat, suppressed: nat, gated: seq<Sample>, gatedAt: seq<nat>, blocks: seq<Block>, confirmed: Option<Value>)

  const NO_ACCOUNT: Account := Account(0, 0, [], [], [], None)

  function AccountOf(l: Life): Account {
    Account(l.matched, l.suppressed, l.gated, l.gatedAt, l.blocks, l.confirmed)
  }

  function Noted(a: Account, n: Note, id: Id): Account {
    if n.id != id then a
    else match n
      case Held(_) => a.(matched := a.matched + 1, suppressed := a.suppressed + 1)
      case Taken(_, sample, at) => a.(matched := a.matched + 1, gated := a.gated + [sample], gatedAt := a.gatedAt + [at])
      case Left(_, block, published) =>
        a.(blocks := a.blocks + [block],
           confirmed := if published && LastGood(block.samples).Some? then LastGood(block.samples) else a.confirmed)
      case Rebased(_, value) => a.(confirmed := Some(value))
  }

  function AccountAfter(a: Account, notes: seq<Note>, id: Id): Account {
    if notes == [] then a else Noted(AccountAfter(a, notes[..|notes| - 1], id), notes[|notes| - 1], id)
  }

  lemma {:induction false} AccountSplit(a: Account, x: seq<Note>, y: seq<Note>, id: Id)
    ensures AccountAfter(a, x + y, id) == AccountAfter(AccountAfter(a, x, id), y, id)
    decreases |y|
  {
    if y == [] {
      assert x + y == x;
    } else {
      AccountSplit(a, x, y[..|y| - 1], id);
      assert (x + y)[..|x + y| - 1] == x + y[..|y| - 1];
    }
  }

  /** The account after one cycle of the signal itself. */
  function AfterFate(a: Account, fate: Option<Fate>, sample: Sample, now: nat): Account {
    match fate
    case None => a
    case Some(Suppressed) => a.(matched := a.matched + 1, suppressed := a.suppressed + 1)
    case Some(_) => a.(matched := a.matched + 1, gated := a.gated + [sample], gatedAt := a.gatedAt + [now])
  }

  function SampleOf(byId: map<Id, Reading>, id: Id, stamp: nat): Sample {
    if id in byId then Sample(byId[id].value, byId[id].quality, stamp) else Sample(Other(0), Bad, 0)
  }

  lemma {:induction false} GroupAccount(a: Account, m: Signals, t: Tally, specs: seq<Spec>, c: Cycled, id: Id)
    requires DistinctTags(specs)
    ensures AccountAfter(a, ProcessSpecs(m, t, specs, c).notes, id)
         == AfterFate(a, CycleOf(SignalOf(m, id), id, specs, c).1, SampleOf(c.byId, id, c.stamp), c.now)
    decreases |specs|
  {
    if specs != [] {
      var front, spec := specs[..|specs| - 1], specs[|specs| - 1];
      DistinctFront(specs);
      GroupAccount(a, m, t, front, c, id);
      GroupIsPointwise(m, t, front, c, id);
      CycleOfSnoc(SignalOf(m, id), id, front, spec, c);
      StepAccount(a, ProcessSpecs(m, t, front, c), spec, c, id);
    }
  }

  lemma StepAccount(a: Account, g: Group, spec: Spec, c: Cycled, id: Id)
    ensures AccountAfter(a, GroupStep(g, spec, c).notes, id)
         == if id == spec.tagPath
            then AfterFate(AccountAfter(a, g.notes, id), CycleOne(SignalOf(g.state, id), spec, c).1, SampleOf(c.byId, id, c.stamp), c.now)
            else AccountAfter(a, g.notes, id)
  {
    if spec.tagPath in c.byId {
      assert GroupStep(g, spec, c).notes[..|g.notes|] == g.notes;
    }
  }

  /** The samples listed for a signal. */
  function SamplesFor(out: seq<PublishOut>, id: Id): seq<Sample> {
    if out == [] then [] else if out[|out| - 1].id == id then out[|out| - 1].samples else SamplesFor(out[..|out| - 1], id)
  }

  lemma {:induction false} SamplesForAt(out: seq<PublishOut>, i: nat)
    requires DistinctOuts(out) && i < |out|
    ensures SamplesFor(out, out[i].id) == out[i].samples
    decreases |out|
  {
    if i < |out| - 1 {
      SamplesForAt(out[..|out| - 1], i);
    }
  }

  lemma {:induction false} LeftsAccount(a: Account, out: seq<PublishOut>, handedOut: bool, results: map<Id, bool>, id: Id)
    requires DistinctOuts(out)
    ensures AccountAfter(a, Lefts(out, handedOut, results), id)
         == if OutHas(out, id)
            then Noted(a, Left(id, Block(SamplesFor(out, id), handedOut), handedOut && id in results && results[id]), id)
            else a
    decreases |out|
  {
    if out != [] {
      var front, last := out[..|out| - 1], out[|out| - 1];
      DistinctOutsFront(out);
      LeftsAccount(a, front, handedOut, results, id);
      assert Lefts(out, handedOut, results)[..|out| - 1] == Lefts(front, handedOut, results);
      OutHasSplit(front, last, id);
    }
  }

  lemma DistinctOutsFront(out: seq<PublishOut>)
    requires DistinctOuts(out) && out != []
    ensures var front, last := out[..|out| - 1], out[|out| - 1];
            out == front + [last] && DistinctOuts(front) && !OutHas(front, last.id)
  {
  }

  lemma {:induction false} RebasesAccount(a: Account, values: seq<(Id, Value)>, id: Id)
    ensures AccountAfter(a, Rebases(values), id)
         == match LastValue(values, id) case None => a case Some(v) => a.(confirmed := Some(v))
    decreases |values|
  {
    if values != [] {
      RebasesAccount(a, values[..|values| - 1], id);
      assert Rebases(values)[..|values| - 1] == Rebases(values[..|values| - 1]);
    }
  }

  /** What a step of the driver is for one signal. */
  function Project(op: EngineOp, id: Id): SignalOp {
    match op
    case GroupCycle(specs, mode, readings, now, stamp, results) =>
      var k := SpecIndex(specs, id);
      var byId := ById(readings);
      if k < |specs| && id in byId then Cycle(Some(byId[id]), mode, specs[k].deadband, now, stamp, id in results && results[id])
      else Cycle(None, mode, Deadband(NoDeadband, 0.0), now, stamp, false)
    case FlushDue(now, _, results) => Flush(now, id in results && results[id])
    case PauseAll(_) => Pause
    case ResumeAll => Resume
    case RebaseFromReadings(values, now) =>
      (match LastValue(values, id)
       case Some(v) => Rebase(v, now)
       case None => Cycle(None, Always, Deadband(NoDeadband, 0.0), now, 0, false))
  }

  function ProjectAll(ops: seq<EngineOp>, id: Id): (r: seq<SignalOp>)
    ensures |r| == |ops|
  {
    seq(|ops|, i requires 0 <= i < |ops| => Project(ops[i], id))
  }

  /** The engine's part for one signal is that signal's life: its state, and its whole account. */
  ghost predicate Lives(d: Driver, l: Life, id: Id) {
    && SignalOf(d.state, id) == l.s
    && d.paused == l.paused
    && AccountAfter(NO_ACCOUNT, d.log, id) == AccountOf(l)
  }

  /** The life's own step on what the group made of the signal. */
  function LifeAfter(l: Life, cycle: (Signal, Option<Fate>), sample: Sample, now: nat, published: bool): Life {
    var account := AfterFate(AccountOf(l), cycle.1, sample, now);
    var counted := l.(s := cycle.0, matched := account.matched, suppressed := account.suppressed,
                      gated := account.gated, gatedAt := account.gatedAt);
    if Emits(cycle.1) then HandOut(counted, cycle.1.value.samples, published) else counted
  }

  lemma CycleIsLifeStep(l: Life, specs: seq<Spec>, mode: Mode, readings: seq<(Id, Reading)>, now: nat, stamp: nat, results: map<Id, bool>, id: Id, batchMs: nat)
    requires !l.paused
    ensures var c := Cycled(ById(readings), mode, batchMs, now, stamp);
            LifeStep(l, Project(GroupCycle(specs, mode, readings, now, stamp, results), id), batchMs)
            == LifeAfter(l, CycleOf(l.s, id, specs, c), SampleOf(c.byId, id, stamp), now, id in results && results[id])
  {
  }

  lemma CycleProjects(d: Driver, l: Life, specs: seq<Spec>, c: Cycled, results: map<Id, bool>, id: Id)
    requires DistinctTags(specs) && Lives(d, l, id)
    ensures Lives(CycleStep(d, specs, c, results),
                  LifeAfter(l, CycleOf(l.s, id, specs, c), SampleOf(c.byId, id, c.stamp), c.now, id in results && results[id]), id)
  {
    var g := ProcessSpecs(d.state, d.tally, specs, c);
    GroupIsPointwise(d.state, d.tally, specs, c, id);
    GroupFateOf(d.state, d.tally, specs, c, id);
    SettleIsPointwise(g.state, g.out, results, id);
    CycleAccount(AccountOf(l), d.log, g, results, id);
    GroupAccount(AccountOf(l), d.state, d.tally, specs, c, id);
  }

  lemma GroupFateOf(m: Signals, t: Tally, specs: seq<Spec>, c: Cycled, id: Id)
    requires DistinctTags(specs)
    ensures var g := ProcessSpecs(m, t, specs, c);
            var fate := CycleOf(SignalOf(m, id), id, specs, c).1;
            && HandsOut(m, specs, c, g.out)
            && (OutHas(g.out, id) <==> Emits(fate))
            && (OutHas(g.out, id) ==> id in g.state && SamplesFor(g.out, id) == fate.value.samples)
  {
    var g := ProcessSpecs(m, t, specs, c);
    GroupHandsOutFates(m, t, specs, c);
    if OutHas(g.out, id) {
      OutIsHeld(m, t, specs, c, id);
      var i :| 0 <= i < |g.out| && g.out[i].id == id;
      SamplesForAt(g.out, i);
    }
  }

  lemma CycleAccount(a: Account, log: seq<Note>, g: Group, results: map<Id, bool>, id: Id)
    requires AccountAfter(NO_ACCOUNT, log, id) == a && DistinctOuts(g.out)
    ensures var lefts := Lefts(g.out, true, results);
            AccountAfter(NO_ACCOUNT, log + (g.notes + lefts), id)
            == if OutHas(g.out, id)
               then Noted(AccountAfter(a, g.notes, id), Left(id, Block(SamplesFor(g.out, id), true), id in results && results[id]), id)
               else AccountAfter(a, g.notes, id)
  {
    var lefts := Lefts(g.out, true, results);
    AccountSplit(NO_ACCOUNT, log, g.notes + lefts, id);
    AccountSplit(a, g.notes, lefts, id);
    LeftsAccount(AccountAfter(a, g.notes, id), g.out, true, results, id);
  }

  lemma FlushProjects(d: Driver, l: Life, now: nat, out: seq<PublishOut>, results: map<Id, bool>, id: Id, batchMs: nat)
    requires !d.paused && Lives(d, l, id) && IsDueList(d.state, now, batchMs, out)
    ensures var op := FlushDue(now, out, results);
            Lives(DriverStep(d, op, batchMs), LifeStep(l, Project(op, id), batchMs), id)
  {
    SettleIsPointwise(TakeDueAll(d.state, now, batchMs), out, results, id);
    DrainAccount(d, l, out, true, results, id);
  }

  /** What draining some whole windows adds to a signal's account. */
  lemma DrainAccount(d: Driver, l: Life, out: seq<PublishOut>, handedOut: bool, results: map<Id, bool>, id: Id)
    requires Lives(d, l, id) && DistinctOuts(out) && BuffersOf(d.state, out)
    ensures AccountAfter(NO_ACCOUNT, d.log + Lefts(out, handedOut, results), id)
         == if OutHas(out, id)
            then Noted(AccountOf(l), Left(id, Block(l.s.buffer, handedOut), handedOut && id in results && results[id]), id)
            else AccountOf(l)
  {
    AccountSplit(NO_ACCOUNT, d.log, Lefts(out, handedOut, results), id);
    LeftsAccount(AccountOf(l), out, handedOut, results, id);
    if OutHas(out, id) {
      var i :| 0 <= i < |out| && out[i].id == id;
      SamplesForAt(out, i);
    }
  }

  lemma PauseProjects(d: Driver, l: Life, lost: seq<PublishOut>, id: Id, batchMs: nat)
    requires Lives(d, l, id) && IsWindowList(d.state, lost)
    ensures Lives(DriverStep(d, PauseAll(lost), batchMs), LifeStep(l, Pause, batchMs), id)
  {
    DrainAccount(d, l, lost, false, map[], id);
  }

  lemma StepProjects(d: Driver, l: Life, op: EngineOp, id: Id, batchMs: nat)
    requires Legit(d, op, batchMs) && Lives(d, l, id)
    ensures Lives(DriverStep(d, op, batchMs), LifeStep(l, Project(op, id), batchMs), id)
  {
    match op {
      case GroupCycle(specs, mode, readings, now, stamp, results) =>
        if !d.paused {
          CycleProjects(d, l, specs, Cycled(ById(readings), mode, batchMs, now, stamp), results, id);
          CycleIsLifeStep(l, specs, mode, readings, now, stamp, results, id, batchMs);
        }
      case FlushDue(now, out, results) =>
        if !d.paused {
          FlushProjects(d, l, now, out, results, id, batchMs);
        }
      case PauseAll(lost) =>
        PauseProjects(d, l, lost, id, batchMs);
      case ResumeAll =>
      case RebaseFromReadings(values, now) =>
        if d.paused {
          RebaseIsPointwise(d.state, values, now, id);
          AccountSplit(NO_ACCOUNT, d.log, Rebases(values), id);
          RebasesAccount(AccountOf(l), values, id);
        }
    }
  }

  lemma {:induction false} OutIsHeld(m: Signals, t: Tally, specs: seq<Spec>, c: Cycled, id: Id)
    requires OutHas(ProcessSpecs(m, t, specs, c).out, id)
    ensures id in ProcessSpecs(m, t, specs, c).state
    decreases |specs|
  {
    if specs != [] {
      var front, spec := specs[..|specs| - 1], specs[|specs| - 1];
      var before := ProcessSpecs(m, t, front, c);
      StepOut(before, spec, c);
      var fate := CycleOne(SignalOf(before.state, spec.tagPath), spec, c).1;
      if Emits(fate) {
        OutHasSplit(before.out, PublishOut(spec.tagPath, fate.value.samples), id);
      }
      if OutHas(before.out, id) {
        OutIsHeld(m, t, front, c, id);
      }
    }
  }

  /** The engine over any number of signals is each signal living its own life: same state, same samples suppressed, gated, handed out, discarded and confirmed. */
  lemma {:induction false} EngineIsLives(ops: seq<EngineOp>, id: Id, batchMs: nat)
    requires AllLegit(ops, batchMs)
    ensures Lives(DriverRun(ops, batchMs), LifeOf(ProjectAll(ops, id), batchMs), id)
    decreases |ops|
  {
    if ops != [] {
      var before := ops[..|ops| - 1];
      EngineIsLives(before, id, batchMs);
      assert ProjectAll(ops, id)[..|ops| - 1] == ProjectAll(before, id);
      StepProjects(DriverRun(before, batchMs), LifeOf(ProjectAll(before, id), batchMs), ops[|ops| - 1], id, batchMs);
    }
  }

  /** In every run, each signal's gated samples left its window in order or still wait there, and its baselines mean what they say. */
  lemma EverySignalIsSettled(ops: seq<EngineOp>, id: Id, batchMs: nat)
    requires AllLegit(ops, batchMs)
    ensures var d := DriverRun(ops, batchMs);
            var s, account := SignalOf(d.state, id), AccountAfter(NO_ACCOUNT, d.log, id);
            && account.gated == Flatten(account.blocks) + s.buffer
            && account.matched == account.suppressed + |account.gated|
            && (s.windowOpen.Some? <==> s.buffer != [])
            && |account.gatedAt| == |account.gated|
            && s.windowOpen == WaitingSince(account.gatedAt, s.buffer)
            && s.pending == LastGood(s.buffer)
            && s.committed == account.confirmed
  {
    EngineIsLives(ops, id, batchMs);
    EveryLifeIsSettled(ProjectAll(ops, id), batchMs);
  }

  /** In every run, a flush lists exactly the signals whose oldest waiting sample was gated in at least the batch window ago. */
  lemma FlushListsExactly(ops: seq<EngineOp>, batchMs: nat, now: nat, out: seq<PublishOut>, id: Id)
    requires AllLegit(ops, batchMs) && batchMs > 0
    requires IsDueList(DriverRun(ops, batchMs).state, now, batchMs, out)
    ensures var d := DriverRun(ops, batchMs);
            var n, at := |SignalOf(d.state, id).buffer|, AccountAfter(NO_ACCOUNT, d.log, id).gatedAt;
            && n <= |at|
            && (OutHas(out, id) <==> n > 0 && now >= at[|at| - n] + batchMs * 1_000_000)
  {
    EverySignalIsSettled(ops, id, batchMs);
    WindowLength(batchMs);
  }

  /** In every run, the next wake-up for a flush is exactly when a flush is due. */
  lemma FlushesWakeOnTime(ops: seq<EngineOp>, batchMs: nat, now: nat, d: Option<nat>)
    requires AllLegit(ops, batchMs)
    requires batchMs > 0 && IsNextDeadline(DriverRun(ops, batchMs).state, batchMs, d)
    ensures SomethingDue(DriverRun(ops, batchMs).state, now, batchMs) <==> d.Some? && d.value <= now
  {
    var m := DriverRun(ops, batchMs).state;
    forall id | id in m ensures m[id].windowOpen.Some? <==> m[id].buffer != [] {
      EverySignalIsSettled(ops, id, batchMs);
    }
    DueExactlyAtDeadline(m, batchMs, now, d);
  }
}
