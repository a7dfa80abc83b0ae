/** The publish engine over all signals of a device, and the poll step that drives it (publish.rs, poll.rs). */
module PublishEngine {
  import opened Prelude
  import opened Publish

  type Id = string
  type Signals = map<Id, Signal>

  datatype Spec = Spec(tagPath: Id, deadband: Deadband)
  datatype PublishOut = PublishOut(id: Id, samples: seq<Sample>)

  datatype Tally = Tally(good: nat, bad: nat, uncertain: nat, readErrors: nat, suppressed: nat, changed: nat)

  const NO_TALLY: Tally := Tally(0, 0, 0, 0, 0, 0)

  function SignalOf(m: Signals, id: Id): Signal {
    if id in m then m[id] else FRESH
  }

  /** Readings by stable id; a later one for the same id wins. */
  function ById(readings: seq<(Id, Reading)>): map<Id, Reading> {
    if readings == [] then map[]
    else ById(readings[..|readings| - 1])[readings[|readings| - 1].0 := readings[|readings| - 1].1]
  }

  lemma {:induction false} LatestReadingWins(readings: seq<(Id, Reading)>, id: Id)
    ensures id in ById(readings) <==> exists i :: 0 <= i < |readings| && readings[i].0 == id
    ensures forall i :: 0 <= i < |readings| && readings[i].0 == id && (forall j :: i < j < |readings| ==> readings[j].0 != id) ==>
              ById(readings)[id] == readings[i].1
    decreases |readings|
  {
    if readings != [] {
      var front := readings[..|readings| - 1];
      LatestReadingWins(front, id);
      assert forall i :: 0 <= i < |front| ==> front[i] == readings[i];
      if id in ById(front) {
        var i :| 0 <= i < |front| && front[i].0 == id;
        assert readings[i].0 == id;
      }
    }
  }

  function Seen(t: Tally, q: Quality): Tally {
    match q
    case Good => t.(good := t.good + 1)
    case Bad => t.(bad := t.bad + 1, readErrors := t.readErrors + 1)
    case Uncertain => t.(uncertain := t.uncertain + 1)
  }

  function Judge(t: Tally, r: Reading, fate: Fate, mode: Mode): Tally {
    var seen := Seen(t, r.quality);
    if fate.Suppressed? then seen.(suppressed := seen.suppressed + 1)
    else if r.quality.Good? && mode.OnChange? then seen.(changed := seen.changed + 1)
    else seen
  }

  /** What happened to a reading or a sample, for whole-run accounts: withheld, gated in, out of its window, or replaced by a rebase. */
  datatype Note =
    | Held(id: Id)
    | Taken(id: Id, sample: Sample, at: nat)
    | Left(id: Id, block: Block, published: bool)
    | Rebased(id: Id, value: Value)

  /** State, samples to publish now, counters, how many samples went into a window, and what happened to each reading. */
  datatype Group = Group(state: Signals, out: seq<PublishOut>, tally: Tally, buffered: nat, notes: seq<Note>)

  /** What one cycle of a group works from: the readings by id, the settings, the time and the capture stamp. */
  datatype Cycled = Cycled(byId: map<Id, Reading>, mode: Mode, batchMs: nat, now: nat, stamp: nat)

  /** One signal's reading through its gate and window. */
  function Process(s: Signal, spec: Spec, c: Cycled): (Signal, Fate)
    requires spec.tagPath in c.byId
  {
    ProcessOne(s, c.byId[spec.tagPath], c.mode, c.batchMs, spec.deadband, c.now, c.stamp)
  }

  function GroupStep(g: Group, spec: Spec, c: Cycled): Group {
    if spec.tagPath !in c.byId then g
    else
      var r := c.byId[spec.tagPath];
      var (s, fate) := Process(SignalOf(g.state, spec.tagPath), spec, c);
      Group(g.state[spec.tagPath := s],
            if fate.Emitted? then g.out + [PublishOut(spec.tagPath, fate.samples)] else g.out,
            Judge(g.tally, r, fate, c.mode),
            g.buffered + (if fate.Buffered? then 1 else 0),
            g.notes + [if fate.Suppressed? then Held(spec.tagPath) else Taken(spec.tagPath, Sample(r.value, r.quality, c.stamp), c.now)])
  }

  function ProcessSpecs(m: Signals, t: Tally, specs: seq<Spec>, c: Cycled): Group {
    if specs == [] then Group(m, [], t, 0, [])
    else GroupStep(ProcessSpecs(m, t, specs[..|specs| - 1], c), specs[|specs| - 1], c)
  }

  /** Tag paths are unique within a device. */
  predicate DistinctTags(specs: seq<Spec>) {
    forall i, j :: 0 <= i < j < |specs| ==> specs[i].tagPath != specs[j].tagPath
  }

  /** Position of a tag among the specs, or their number when it is not there. */
  function SpecIndex(specs: seq<Spec>, id: Id): (k: nat)
    ensures k <= |specs|
    ensures k < |specs| ==> specs[k].tagPath == id
    ensures forall i :: 0 <= i < k ==> specs[i].tagPath != id
  {
    if specs == [] || specs[0].tagPath == id then 0 else 1 + SpecIndex(specs[1..], id)
  }

  /** What one group cycle does to one signal. */
  function CycleOf(s: Signal, id: Id, specs: seq<Spec>, c: Cycled): (Signal, Option<Fate>) {
    var k := SpecIndex(specs, id);
    if k == |specs| then (s, None) else CycleOne(s, specs[k], c)
  }

  function CycleOne(s: Signal, spec: Spec, c: Cycled): (Signal, Option<Fate>) {
    if spec.tagPath !in c.byId then (s, None)
    else
      var (after, fate) := Process(s, spec, c);
      (after, Some(fate))
  }

  predicate OutHas(out: seq<PublishOut>, id: Id) {
    exists i :: 0 <= i < |out| && out[i].id == id
  }

  predicate DistinctOuts(out: seq<PublishOut>) {
    forall i, j :: 0 <= i < j < |out| ==> out[i].id != out[j].id
  }

  lemma SpecIndexPrefix(specs: seq<Spec>, spec: Spec, id: Id)
    requires DistinctTags(specs + [spec])
    ensures id == spec.tagPath ==> SpecIndex(specs, id) == |specs| && SpecIndex(specs + [spec], id) == |specs|
    ensures id != spec.tagPath && SpecIndex(specs, id) < |specs| ==> SpecIndex(specs + [spec], id) == SpecIndex(specs, id)
    ensures id != spec.tagPath && SpecIndex(specs, id) == |specs| ==> SpecIndex(specs + [spec], id) == |specs| + 1
  {
    var all := specs + [spec];
    var k := SpecIndex(all, id);
    assert forall i :: 0 <= i < |specs| ==> all[i] == specs[i];
    assert all[|specs|] == spec;
  }

  /** One more spec is one more signal's cycle, and no other's. */
  lemma CycleOfSnoc(s: Signal, id: Id, front: seq<Spec>, spec: Spec, c: Cycled)
    requires DistinctTags(front + [spec])
    ensures CycleOf(s, id, front + [spec], c) == if id == spec.tagPath then CycleOne(s, spec, c) else CycleOf(s, id, front, c)
    ensures id == spec.tagPath ==> CycleOf(s, id, front, c) == (s, None)
  {
    SpecIndexPrefix(front, spec, id);
  }

  lemma DistinctFront(specs: seq<Spec>)
    requires DistinctTags(specs) && specs != []
    ensures specs == specs[..|specs| - 1] + [specs[|specs| - 1]] && DistinctTags(specs[..|specs| - 1])
  {
  }

  predicate Emits(fate: Option<Fate>) {
    fate.Some? && fate.value.Emitted?
  }

  /** A group cycle is every signal's own cycle. */
  lemma {:induction false} GroupIsPointwise(m: Signals, t: Tally, specs: seq<Spec>, c: Cycled, id: Id)
    requires DistinctTags(specs)
    ensures SignalOf(ProcessSpecs(m, t, specs, c).state, id) == CycleOf(SignalOf(m, id), id, specs, c).0
    decreases |specs|
  {
    if specs != [] {
      DistinctFront(specs);
      GroupIsPointwise(m, t, specs[..|specs| - 1], c, id);
      CycleOfSnoc(SignalOf(m, id), id, specs[..|specs| - 1], specs[|specs| - 1], c);
    }
  }

  /** A step hands out at most the samples its own signal emits, after everything handed out before. */
  lemma StepOut(g: Group, spec: Spec, c: Cycled)
    ensures var fate := CycleOne(SignalOf(g.state, spec.tagPath), spec, c).1;
            GroupStep(g, spec, c).out == if Emits(fate) then g.out + [PublishOut(spec.tagPath, fate.value.samples)] else g.out
  {
  }

  lemma OutHasSplit(front: seq<PublishOut>, last: PublishOut, id: Id)
    ensures OutHas(front + [last], id) <==> OutHas(front, id) || last.id == id
  {
    var out := front + [last];
    assert out[|front|] == last;
    if OutHas(front, id) {
      var i :| 0 <= i < |front| && front[i].id == id;
      assert out[i].id == id;
    }
    if OutHas(out, id) && last.id != id {
      var i :| 0 <= i < |out| && out[i].id == id;
      assert front[i].id == id;
    }
  }

  /** Exactly the signals whose sample got through, each once, with exactly the samples that signal's own cycle emits. */
  ghost predicate HandsOut(m: Signals, specs: seq<Spec>, c: Cycled, out: seq<PublishOut>) {
    && DistinctOuts(out)
    && (forall i :: 0 <= i < |out| ==> CycleOf(SignalOf(m, out[i].id), out[i].id, specs, c).1 == Some(Emitted(out[i].samples)))
    && (forall id :: Emits(CycleOf(SignalOf(m, id), id, specs, c).1) ==> OutHas(out, id))
  }

  lemma HandsOutSnoc(m: Signals, front: seq<Spec>, spec: Spec, c: Cycled, before: seq<PublishOut>)
    requires DistinctTags(front + [spec]) && HandsOut(m, front, c, before)
    ensures var fate := CycleOne(SignalOf(m, spec.tagPath), spec, c).1;
            HandsOut(m, front + [spec], c, if Emits(fate) then before + [PublishOut(spec.tagPath, fate.value.samples)] else before)
  {
    var tag := spec.tagPath;
    var fate := CycleOne(SignalOf(m, tag), spec, c).1;
    var out := if Emits(fate) then before + [PublishOut(tag, fate.value.samples)] else before;
    CycleOfSnoc(SignalOf(m, tag), tag, front, spec, c);
    forall i | 0 <= i < |before|
      ensures before[i].id != tag && CycleOf(SignalOf(m, before[i].id), before[i].id, front + [spec], c).1 == Some(Emitted(before[i].samples))
    {
      CycleOfSnoc(SignalOf(m, before[i].id), before[i].id, front, spec, c);
    }
    forall id | Emits(CycleOf(SignalOf(m, id), id, front + [spec], c).1) ensures OutHas(out, id) {
      CycleOfSnoc(SignalOf(m, id), id, front, spec, c);
      if Emits(fate) {
        OutHasSplit(before, PublishOut(tag, fate.value.samples), id);
      }
    }
  }

  lemma {:induction false} GroupHandsOutFates(m: Signals, t: Tally, specs: seq<Spec>, c: Cycled)
    requires DistinctTags(specs)
    ensures HandsOut(m, specs, c, ProcessSpecs(m, t, specs, c).out)
    decreases |specs|
  {
    if specs != [] {
      var front, spec := specs[..|specs| - 1], specs[|specs| - 1];
      DistinctFront(specs);
      GroupHandsOutFates(m, t, front, c);
      GroupIsPointwise(m, t, front, c, spec.tagPath);
      CycleOfSnoc(SignalOf(m, spec.tagPath), spec.tagPath, front, spec, c);
      StepOut(ProcessSpecs(m, t, front, c), spec, c);
      HandsOutSnoc(m, front, spec, c, ProcessSpecs(m, t, front, c).out);
    }
  }

  /** Every matched reading of a cycle is on one quality counter, and is suppressed, handed out alone, or put in a window. */
  lemma {:induction false} GroupConserves(m: Signals, t: Tally, specs: seq<Spec>, c: Cycled)
    ensures var g := ProcessSpecs(m, t, specs, c);
            var matched := Matched(g.tally) - Matched(t);
            && matched == CountMatched(specs, c.byId)
            && matched == (g.tally.suppressed - t.suppressed) + |g.out| + g.buffered
            && (forall i :: 0 <= i < |g.out| ==> |g.out[i].samples| == 1)
            && g.tally.readErrors - t.readErrors == g.tally.bad - t.bad
            && g.tally.good - t.good == CountQuality(specs, c.byId, Good)
            && g.tally.bad - t.bad == CountQuality(specs, c.byId, Bad)
            && g.tally.uncertain - t.uncertain == CountQuality(specs, c.byId, Uncertain)
    decreases |specs|
  {
    if specs != [] {
      GroupConserves(m, t, specs[..|specs| - 1], c);
      StepCounts(ProcessSpecs(m, t, specs[..|specs| - 1], c), specs[|specs| - 1], c);
    }
  }

  /** What one matched reading does to the counters. */
  lemma StepCounts(g: Group, spec: Spec, c: Cycled)
    ensures var after, q := GroupStep(g, spec, c).tally, if spec.tagPath in c.byId then Some(c.byId[spec.tagPath].quality) else None;
            && after.good == g.tally.good + (if q == Some(Good) then 1 else 0)
            && after.bad == g.tally.bad + (if q == Some(Bad) then 1 else 0)
            && after.uncertain == g.tally.uncertain + (if q == Some(Uncertain) then 1 else 0)
            && after.readErrors - g.tally.readErrors == after.bad - g.tally.bad
  {
  }

  /** The notes of a cycle and the windows it leaves agree with its counters. */
  lemma {:induction false} GroupBooks(m: Signals, t: Tally, specs: seq<Spec>, c: Cycled)
    ensures var g := ProcessSpecs(m, t, specs, c);
            && CountHeld(g.notes) == g.tally.suppressed - t.suppressed
            && CountTaken(g.notes) == |g.out| + g.buffered
            && g.tally.changed - t.changed == (if c.mode.OnChange? then CountGoodTaken(g.notes) else 0)
            && Waiting(g.state) == Waiting(m) + g.buffered
    decreases |specs|
  {
    if specs != [] {
      var front, spec := specs[..|specs| - 1], specs[|specs| - 1];
      GroupBooks(m, t, front, c);
      StepConserves(ProcessSpecs(m, t, front, c), spec, c);
    }
  }

  lemma StepConserves(g: Group, spec: Spec, c: Cycled)
    ensures var after := GroupStep(g, spec, c);
            && Waiting(after.state) == Waiting(g.state) + after.buffered - g.buffered
            && CountHeld(after.notes) - CountHeld(g.notes) == after.tally.suppressed - g.tally.suppressed
            && CountTaken(after.notes) - CountTaken(g.notes) == |after.out| - |g.out| + after.buffered - g.buffered
            && after.tally.changed - g.tally.changed == (if c.mode.OnChange? then CountGoodTaken(after.notes) - CountGoodTaken(g.notes) else 0)
  {
    if spec.tagPath in c.byId {
      var after := GroupStep(g, spec, c);
      assert after.notes[..|g.notes|] == g.notes;
      WaitingUpdate(g.state, spec.tagPath, after.state[spec.tagPath]);
    }
  }

  function Matched(t: Tally): nat {
    t.good + t.bad + t.uncertain
  }

  /** GOOD samples gated in: what the changed counter counts under onChange. */
  function CountGoodTaken(notes: seq<Note>): nat {
    if notes == [] then 0
    else
      var last := notes[|notes| - 1];
      CountGoodTaken(notes[..|notes| - 1]) + if last.Taken? && last.sample.quality.Good? then 1 else 0
  }

  function CountHeld(notes: seq<Note>): nat {
    if notes == [] then 0 else CountHeld(notes[..|notes| - 1]) + if notes[|notes| - 1].Held? then 1 else 0
  }

  function CountTaken(notes: seq<Note>): nat {
    if notes == [] then 0 else CountTaken(notes[..|notes| - 1]) + if notes[|notes| - 1].Taken? then 1 else 0
  }

  function CountMatched(specs: seq<Spec>, byId: map<Id, Reading>): nat {
    if specs == [] then 0
    else CountMatched(specs[..|specs| - 1], byId) + if specs[|specs| - 1].tagPath in byId then 1 else 0
  }

  function CountQuality(specs: seq<Spec>, byId: map<Id, Reading>, q: Quality): nat {
    if specs == [] then 0
    else
      var tag := specs[|specs| - 1].tagPath;
      CountQuality(specs[..|specs| - 1], byId, q) + if tag in byId && byId[tag].quality == q then 1 else 0
  }

  // ----- settling, flushing, discarding -----

  function SettleAll(m: Signals, out: seq<PublishOut>, results: map<Id, bool>): Signals {
    if out == [] then m
    else
      var before, id := SettleAll(m, out[..|out| - 1], results), out[|out| - 1].id;
      if id in before then before[id := SettleOne(before[id], id in results && results[id])] else before
  }

  lemma {:induction false} SettleIsPointwise(m: Signals, out: seq<PublishOut>, results: map<Id, bool>, id: Id)
    requires DistinctOuts(out)
    ensures SignalOf(SettleAll(m, out, results), id)
         == if OutHas(out, id) && id in m then SettleOne(SignalOf(m, id), id in results && results[id]) else SignalOf(m, id)
    ensures SettleAll(m, out, results).Keys == m.Keys
    decreases |out|
  {
    if out != [] {
      var front, last := out[..|out| - 1], out[|out| - 1];
      SettleIsPointwise(m, front, results, id);
      if OutHas(front, id) {
        var i :| 0 <= i < |front| && front[i].id == id;
        assert out[i].id == id;
      }
      if last.id == id {
        assert out[|out| - 1].id == id;
        assert !OutHas(front, id);
      } else if OutHas(out, id) {
        var i :| 0 <= i < |out| && out[i].id == id;
        assert front[i].id == id;
      }
    }
  }

  function TakeDueAll(m: Signals, now: nat, batchMs: nat): Signals {
    map id | id in m :: TakeDueOne(m[id], now, batchMs).0
  }

  /** In some order, one publish for every window that has closed, with its whole buffer. */
  ghost predicate IsDueList(m: Signals, now: nat, batchMs: nat, out: seq<PublishOut>) {
    && DistinctOuts(out)
    && (forall id :: OutHas(out, id) <==> id in m && Due(m[id], now, batchMs))
    && BuffersOf(m, out)
  }

  /** In some order, every open window with its whole buffer. */
  ghost predicate IsWindowList(m: Signals, out: seq<PublishOut>) {
    && DistinctOuts(out)
    && (forall id :: OutHas(out, id) <==> id in m && m[id].buffer != [])
    && BuffersOf(m, out)
  }

  predicate BuffersOf(m: Signals, out: seq<PublishOut>) {
    forall i :: 0 <= i < |out| ==> out[i].id in m && out[i].samples == m[out[i].id].buffer
  }

  function DiscardAll(m: Signals): Signals {
    map id | id in m :: DiscardOne(m[id])
  }

  function RebaseAll(m: Signals, readings: seq<(Id, Value)>, now: nat): Signals {
    if readings == [] then m
    else
      var before, (id, value) := RebaseAll(m, readings[..|readings| - 1], now), readings[|readings| - 1];
      before[id := RebaseOne(SignalOf(before, id), value, now)]
  }

  function LastValue(readings: seq<(Id, Value)>, id: Id): (r: Option<Value>)
    ensures r.None? ==> forall i :: 0 <= i < |readings| ==> readings[i].0 != id
    ensures r.Some? ==> exists i :: 0 <= i < |readings| && readings[i] == (id, r.value) && forall j :: i < j < |readings| ==> readings[j].0 != id
  {
    if readings == [] then None
    else if readings[|readings| - 1].0 == id then Some(readings[|readings| - 1].1)
    else LastValue(readings[..|readings| - 1], id)
  }

  lemma {:induction false} RebaseIsPointwise(m: Signals, readings: seq<(Id, Value)>, now: nat, id: Id)
    ensures SignalOf(RebaseAll(m, readings, now), id)
         == match LastValue(readings, id)
            case None => SignalOf(m, id)
            case Some(v) => RebaseOne(SignalOf(m, id), v, now)
    decreases |readings|
  {
    if readings != [] {
      RebaseIsPointwise(m, readings[..|readings| - 1], now, id);
    }
  }

  // ----- the wake-up -----

  /** The earliest close of an open window. */
  ghost predicate IsNextDeadline(m: Signals, batchMs: nat, d: Option<nat>) {
    if d.None? then forall id :: id in m ==> m[id].windowOpen.None?
    else && (exists id :: id in m && m[id].windowOpen.Some? && m[id].windowOpen.value + batchMs * MILLI == d.value)
         && (forall id :: id in m && m[id].windowOpen.Some? ==> d.value <= m[id].windowOpen.value + batchMs * MILLI)
  }

  ghost predicate WindowsMatchBuffers(m: Signals) {
    forall id :: id in m ==> (m[id].windowOpen.Some? <==> m[id].buffer != [])
  }

  ghost predicate SomethingDue(m: Signals, now: nat, batchMs: nat) {
    exists id :: id in m && Due(m[id], now, batchMs)
  }

  /** The loop wakes for a flush exactly when there is one. */
  lemma {:induction false} DueExactlyAtDeadline(m: Signals, batchMs: nat, now: nat, d: Option<nat>)
    requires batchMs > 0 && WindowsMatchBuffers(m) && IsNextDeadline(m, batchMs, d)
    ensures SomethingDue(m, now, batchMs) <==> d.Some? && d.value <= now
  {
    if SomethingDue(m, now, batchMs) {
      var id :| id in m && Due(m[id], now, batchMs);
      assert m[id].windowOpen.Some?;
      if m[id].windowOpen.value > now {
        assert batchMs * MILLI > 0;
      }
    }
    if d.Some? && d.value <= now {
      var id :| id in m && m[id].windowOpen.Some? && m[id].windowOpen.value + batchMs * MILLI == d.value;
      assert Due(m[id], now, batchMs);
    }
  }

  // ----- the object -----

  class Health {
    var tally: Tally

    constructor ()
      ensures tally == NO_TALLY
    {
      tally := NO_TALLY;
    }
  }

  class Engine {
    var state: Signals
    const start: nat

    constructor (start: nat)
      ensures state == map[] && this.start == start
    {
      state := map[];
      this.start := start;
    }

    method ProcessGroup(specs: seq<Spec>, mode: Mode, batchMs: nat, readings: seq<(Id, Reading)>, now: nat, stamp: nat, health: Health)
      returns (out: seq<PublishOut>)
      modifies this, health
      ensures var g := ProcessSpecs(old(state), old(health.tally), specs, Cycled(ById(readings), mode, batchMs, now, stamp));
              state == g.state && out == g.out && health.tally == g.tally
    {
      var byId := ById(readings);
      ghost var c := Cycled(byId, mode, batchMs, now, stamp);
      out := [];
      var i := 0;
      while i < |specs|
        invariant 0 <= i <= |specs|
        invariant var g := ProcessSpecs(old(state), old(health.tally), specs[..i], c);
                  state == g.state && out == g.out && health.tally == g.tally
      {
        assert specs[..i + 1][..i] == specs[..i];
        var spec := specs[i];
        i := i + 1;
        if spec.tagPath !in byId {
          continue;
        }
        var r := byId[spec.tagPath];
        var s := SignalOf(state, spec.tagPath);
        health.tally := Seen(health.tally, r.quality);
        if r.quality.Good? {
          s := s.(lastGood := Some(now));
        }
        if !GatePasses(s, r.value, r.quality, mode, spec.deadband) {
          health.tally := health.tally.(suppressed := health.tally.suppressed + 1);
          state := state[spec.tagPath := s];
          continue;
        }
        if r.quality.Good? {
          if mode.OnChange? {
            health.tally := health.tally.(changed := health.tally.changed + 1);
          }
          s := s.(pending := Some(r.value));
        }
        var (added, ready) := AddSample(s, Sample(r.value, r.quality, stamp), now, batchMs);
        state := state[spec.tagPath := added];
        if ready.Some? {
          out := out + [PublishOut(spec.tagPath, ready.value)];
        }
      }
      assert specs[..i] == specs;
    }

    /** Every window that has closed, drained into one publish each, in the map's own order. */
    method TakeDue(batchMs: nat, now: nat) returns (out: seq<PublishOut>)
      modifies this
      ensures state == TakeDueAll(old(state), now, batchMs)
      ensures IsDueList(old(state), now, batchMs, out)
    {
      ghost var was := state;
      var left := state.Keys;
      out := [];
      while left != {}
        invariant left <= was.Keys && state.Keys == was.Keys
        invariant forall id :: id in left ==> state[id] == was[id]
        invariant forall id :: id in was && id !in left ==> state[id] == TakeDueOne(was[id], now, batchMs).0
        invariant DistinctOuts(out)
        invariant forall id :: OutHas(out, id) <==> id in was && id !in left && Due(was[id], now, batchMs)
        invariant forall i :: 0 <= i < |out| ==> out[i].id in was && out[i].samples == was[out[i].id].buffer
        decreases left
      {
        var id :| id in left;
        left := left - {id};
        var (s, samples) := TakeDueOne(state[id], now, batchMs);
        state := state[id := s];
        if samples.Some? {
          ghost var before := out;
          assert !OutHas(before, id);
          out := out + [PublishOut(id, samples.value)];
          forall x ensures OutHas(out, x) <==> OutHas(before, x) || x == id {
            assert out[|before|].id == id;
            if OutHas(before, x) {
              var i :| 0 <= i < |before| && before[i].id == x;
              assert out[i].id == x;
            }
          }
        }
      }
      assert state == TakeDueAll(was, now, batchMs);
    }

    method Settle(id: Id, published: bool)
      modifies this
      ensures state == if id in old(state) then old(state)[id := SettleOne(old(state)[id], published)] else old(state)
    {
      if id in state {
        var s := state[id];
        if s.pending.Some? {
          if published {
            s := s.(committed := s.pending);
          }
          s := s.(pending := None);
        }
        state := state[id := s];
      }
    }

    /** Empties every window and reports how many samples were in them. */
    method DiscardOpenBatches() returns (dropped: nat)
      modifies this
      ensures state == DiscardAll(old(state))
      ensures dropped == Waiting(old(state))
    {
      ghost var was := state;
      var left := state.Keys;
      dropped := 0;
      assert was - (was.Keys - left) == was;
      while left != {}
        invariant left <= was.Keys && state.Keys == was.Keys
        invariant forall id :: id in left ==> state[id] == was[id]
        invariant forall id :: id in was && id !in left ==> state[id] == DiscardOne(was[id])
        invariant dropped + Waiting(was - (was.Keys - left)) == Waiting(was)
        decreases left
      {
        var id :| id in left;
        WaitingWithout(was - (was.Keys - left), id);
        assert was - (was.Keys - (left - {id})) == (was - (was.Keys - left)) - {id};
        left := left - {id};
        dropped := dropped + |state[id].buffer|;
        state := state[id := DiscardOne(state[id])];
      }
      assert was - (was.Keys - left) == map[];
      assert state == DiscardAll(was);
    }

    method RebaseFrom(readings: seq<(Id, Value)>, now: nat)
      modifies this
      ensures state == RebaseAll(old(state), readings, now)
    {
      var i := 0;
      while i < |readings|
        invariant 0 <= i <= |readings|
        invariant state == RebaseAll(old(state), readings[..i], now)
      {
        assert readings[..i + 1][..i] == readings[..i];
        var (id, value) := readings[i];
        state := state[id := RebaseOne(SignalOf(state, id), value, now)];
        i := i + 1;
      }
      assert readings[..i] == readings;
    }

    method NextBatchDeadline(batchMs: nat) returns (d: Option<nat>)
      ensures IsNextDeadline(state, batchMs, d)
    {
      var left := state.Keys;
      d := None;
      while left != {}
        invariant left <= state.Keys
        invariant d.None? ==> forall id :: id in state && id !in left ==> state[id].windowOpen.None?
        invariant d.Some? ==>
                    && (exists id :: id in state && state[id].windowOpen.Some? && state[id].windowOpen.value + batchMs * MILLI == d.value)
                    && (forall id :: id in state && id !in left && state[id].windowOpen.Some? ==> d.value <= state[id].windowOpen.value + batchMs * MILLI)
        decreases left
      {
        var id :| id in left;
        left := left - {id};
        if state[id].windowOpen.Some? {
          var close := state[id].windowOpen.value + batchMs * MILLI;
          if d.None? || close < d.value {
            d := Some(close);
          }
        }
      }
    }
  }

  /** Samples waiting in all windows. */
  ghost function Waiting(m: Signals): nat {
    if m == map[] then 0
    else
      var id :| id in m;
      |m[id].buffer| + Waiting(m - {id})
  }

  lemma {:induction false} WaitingWithout(m: Signals, id: Id)
    requires id in m
    ensures Waiting(m) == |m[id].buffer| + Waiting(m - {id})
    decreases |m|
  {
    var k :| k in m && Waiting(m) == |m[k].buffer| + Waiting(m - {k});
    if k != id {
      WaitingWithout(m - {k}, id);
      WaitingWithout(m - {id}, k);
      assert m - {k} - {id} == m - {id} - {k};
    }
  }

  lemma WaitingUpdate(m: Signals, id: Id, s: Signal)
    ensures Waiting(m[id := s]) == Waiting(m) - |SignalOf(m, id).buffer| + |s.buffer|
  {
    var after := m[id := s];
    WaitingWithout(after, id);
    assert after - {id} == m - {id};
    if id in m {
      WaitingWithout(m, id);
    } else {
      assert m - {id} == m;
    }
  }

  lemma {:induction false} WaitingSameBuffers(a: Signals, b: Signals)
    requires a.Keys == b.Keys && forall id :: id in a ==> a[id].buffer == b[id].buffer
    ensures Waiting(a) == Waiting(b)
    decreases |a|
  {
    if a != map[] {
      var id :| id in a;
      WaitingWithout(a, id);
      WaitingWithout(b, id);
      WaitingSameBuffers(a - {id}, b - {id});
    } else {
      assert b == map[];
    }
  }

  lemma {:induction false} SettleKeepsWaiting(m: Signals, out: seq<PublishOut>, results: map<Id, bool>)
    ensures Waiting(SettleAll(m, out, results)) == Waiting(m)
    decreases |out|
  {
    if out != [] {
      var front, id := out[..|out| - 1], out[|out| - 1].id;
      SettleKeepsWaiting(m, front, results);
      var before := SettleAll(m, front, results);
      if id in before {
        WaitingUpdate(before, id, SettleOne(before[id], id in results && results[id]));
      }
    }
  }

  function TotalSamples(out: seq<PublishOut>): nat {
    if out == [] then 0 else TotalSamples(out[..|out| - 1]) + |out[|out| - 1].samples|
  }

  /** Exactly the listed windows were emptied. */
  ghost predicate Drained(m: Signals, after: Signals, out: seq<PublishOut>) {
    && m.Keys == after.Keys
    && DistinctOuts(out) && BuffersOf(m, out)
    && forall id :: id in m ==> after[id].buffer == if OutHas(out, id) then [] else m[id].buffer
  }

  lemma {:induction false} DrainConserves(m: Signals, after: Signals, out: seq<PublishOut>)
    requires Drained(m, after, out)
    ensures Waiting(m) == Waiting(after) + TotalSamples(out)
    decreases |out|
  {
    if out == [] {
      WaitingSameBuffers(m, after);
    } else {
      var front, last := out[..|out| - 1], out[|out| - 1];
      var next := m[last.id := m[last.id].(buffer := [])];
      WaitingUpdate(m, last.id, next[last.id]);
      DrainFront(m, after, out);
      DrainConserves(next, after, front);
    }
  }

  lemma DrainFront(m: Signals, after: Signals, out: seq<PublishOut>)
    requires Drained(m, after, out) && out != []
    ensures var last := out[|out| - 1];
            Drained(m[last.id := m[last.id].(buffer := [])], after, out[..|out| - 1])
  {
    var front, last := out[..|out| - 1], out[|out| - 1];
    assert OutHas(out, last.id);
    forall id | id in m && id != last.id ensures OutHas(out, id) <==> OutHas(front, id) {
      if OutHas(out, id) {
        var i :| 0 <= i < |out| && out[i].id == id;
        assert front[i].id == id;
      }
      if OutHas(front, id) {
        var i :| 0 <= i < |front| && front[i].id == id;
        assert out[i].id == id;
      }
    }
  }
}
