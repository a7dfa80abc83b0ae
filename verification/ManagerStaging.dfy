/** What the outputs of a connection are: the last buffer the task accepted for it (io.rs). */
module ManagerStaging {
  import opened Prelude
  import opened Errors
  import opened Frame
  import opened ConnectionState
  import opened EventQueue
  import opened SocketErrors
  import opened Manager
  import opened ManagerStreams
  import Cpf
  import Channel

  // ----- the verdict on one staging command -----

  /** A buffer is staged exactly when the connection is there and the deadline has not passed; otherwise nothing changes and the caller is told which. */
  lemma StagingVerdict(m: Mgr, h: Handle, bytes: Bytes, deadline: Option<nat>, now: nat)
    requires m.running
    ensures var (after, reply) := ManagerStep(m, SetOutput(h, bytes, deadline, now));
            && (reply == Staged <==> h.id in m.conns && (deadline.Some? ==> now < deadline.value))
            && (reply == StagingTimeout <==> h.id in m.conns && deadline.Some? && deadline.value <= now)
            && (reply == StagingClosed <==> h.id !in m.conns)
            && (reply != Staged ==> after == m)
            && (reply == Staged ==> after.conns.Keys == m.conns.Keys && after.conns[h.id].output == bytes
                                    && forall id :: id in m.conns && id != h.id ==> after.conns[id] == m.conns[id])
  {
  }

  // ----- the buffer over whole runs -----

  /** The last buffer accepted for `id` since it was last armed, if any was. */
  function LastStaged(inputs: seq<Input>, id: u32): Option<Bytes> {
    if inputs == [] then None
    else
      var before, input := inputs[..|inputs| - 1], inputs[|inputs| - 1];
      var reply := ManagerStep(ManagerRun(before), input).1;
      if input.Add? && input.params.t2oId == id && reply.Armed? then None
      else if input.SetOutput? && input.handle.id == id && reply.Staged? then Some(input.bytes)
      else LastStaged(before, id)
  }

  /** Every connection still held after a step was held before with the same buffer and run bit. */
  ghost predicate KeepsOutputs(m: Mgr, after: Mgr) {
    forall id :: id in after.conns ==> id in m.conns && after.conns[id].output == m.conns[id].output
                                       && after.conns[id].run == m.conns[id].run
                                       && after.conns[id].params == m.conns[id].params
  }

  lemma TickConnKeepsOutput(c: Conn, now: nat, send: SendResult)
    ensures TickConn(c, now, send).0.output == c.output && TickConn(c, now, send).0.run == c.run && TickConn(c, now, send).0.params == c.params
  {
  }

  lemma {:induction false} TickAllKeepsOutputs(m: Mgr, now: nat, order: seq<u32>, sends: map<u32, SendResult>)
    ensures KeepsOutputs(m, TickAll(m, now, order, sends).m)
    decreases order
  {
    if order != [] {
      var id := order[0];
      if id in m.conns {
        var c := TickConn(m.conns[id], now, SendFor(sends, id)).0;
        TickConnKeepsOutput(m.conns[id], now, SendFor(sends, id));
        TickAllKeepsOutputs(SetConn(m, id, c), now, order[1..], sends);
      } else {
        TickAllKeepsOutputs(m, now, order[1..], sends);
      }
    }
  }

  lemma {:induction false} LoseAllKeepsOutputs(m: Mgr, expired: seq<(u32, LostReason)>)
    ensures KeepsOutputs(m, LoseAll(m, expired))
    decreases expired
  {
    if expired != [] {
      LoseAllKeepsOutputs(LoseOne(m, expired[0].0, expired[0].1), expired[1..]);
    }
  }

  lemma {:induction false} FanOutKeepsOutputs(m: Mgr, order: seq<u32>)
    ensures KeepsOutputs(m, FanOutLost(m, order))
    decreases order
  {
    if order != [] {
      if order[0] in m.conns {
        FanOutKeepsOutputs(LoseOne(m, order[0], LostIo), order[1..]);
      } else {
        FanOutKeepsOutputs(m, order[1..]);
      }
    }
  }

  lemma ConsumeKeepsOutput(c: Conn, payload: Bytes, encap: u32, now: nat)
    ensures var d := Consume(c, payload, encap, now).0; d.output == c.output && d.run == c.run && d.params == c.params
  {
  }

  lemma RoutedKeepsOutputs(m: Mgr, after: Mgr, result: Routed, now: nat)
    requires RouteFacts(m, after, result, now)
    ensures KeepsOutputs(m, Delivered(after, result))
  {
    DeliveredKeepsConns(after, result);
    if result.RoutedTo? {
      var payload, encap :| Consumed(m, after, result, result.id, payload, encap, now);
      ConsumedKeepsOutputs(m, after, result, result.id, payload, encap, now);
    } else if result.reason.SizeMismatch? || result.reason.Stale? {
      var payload, encap :| Consumed(m, after, result, result.addressed.value, payload, encap, now);
      ConsumedKeepsOutputs(m, after, result, result.addressed.value, payload, encap, now);
    }
  }

  lemma ConsumedKeepsOutputs(m: Mgr, after: Mgr, result: Routed, id: u32, payload: Bytes, encap: u32, now: nat)
    requires Consumed(m, after, result, id, payload, encap, now)
    ensures KeepsOutputs(m, after)
  {
    ConsumeKeepsOutput(m.conns[id], payload, encap, now);
  }

  /** No step but an arming, an accepted staging or a switch of the run bit changes either. */
  lemma StepKeepsOutputs(m: Mgr, input: Input)
    requires !input.Add? && !input.SetOutput? && !input.SetRun?
    ensures KeepsOutputs(m, ManagerStep(m, input).0)
  {
    if m.running {
      match input {
        case SetRun(id, run) =>
        case Remove(id) =>
        case Shutdown =>
        case Datagram(buf, src, now) =>
          var fed := m.(streak := OnRecv(m.streak, RecvOk).0);
          RouteOutcome(fed, buf, src, now);
          RoutedKeepsOutputs(fed, Route(fed, buf, src, now).0, Route(fed, buf, src, now).1, now);
        case RecvFailure(kind, order) =>
          FanOutKeepsOutputs(m.(streak := OnRecv(m.streak, RecvErr(kind)).0, stats := m.stats.(recvErrors := m.stats.recvErrors + 1)), order);
        case Tick(now, order, sends) =>
          TickAllKeepsOutputs(m, now, order, sends);
          LoseAllKeepsOutputs(TickAll(m, now, order, sends).m, TickAll(m, now, order, sends).expired);
      }
    }
  }

  /** Under any interleaving, a live connection's buffer is the last one accepted for it since it was armed, and empty before the first. */
  lemma {:induction false} OutputIsLastStaged(inputs: seq<Input>, id: u32)
    requires id in ManagerRun(inputs).conns
    ensures ManagerRun(inputs).conns[id].output == LastStaged(inputs, id).UnwrapOr([])
    decreases |inputs|
  {
    var before, input := inputs[..|inputs| - 1], inputs[|inputs| - 1];
    var m := ManagerRun(before);
    if !input.Add? && !input.SetOutput? && !input.SetRun? {
      StepKeepsOutputs(m, input);
    }
    if id in m.conns {
      OutputIsLastStaged(before, id);
    }
  }

  /** What the run bit of `id` was last switched to since it was last armed; run before the first. */
  function LastRun(inputs: seq<Input>, id: u32): bool {
    if inputs == [] then true
    else
      var before, input := inputs[..|inputs| - 1], inputs[|inputs| - 1];
      var m := ManagerRun(before);
      if input.Add? && input.params.t2oId == id && ManagerStep(m, input).1.Armed? then true
      else if input.SetRun? && input.id == id && m.running then input.run
      else LastRun(before, id)
  }

  /** Under any interleaving, a live connection's run bit is what it was last switched to. */
  lemma {:induction false} RunIsLastSet(inputs: seq<Input>, id: u32)
    requires id in ManagerRun(inputs).conns
    ensures ManagerRun(inputs).conns[id].run == LastRun(inputs, id)
    decreases |inputs|
  {
    var before, input := inputs[..|inputs| - 1], inputs[|inputs| - 1];
    var m := ManagerRun(before);
    if !input.Add? && !input.SetOutput? && !input.SetRun? {
      StepKeepsOutputs(m, input);
    }
    if id in m.conns {
      RunIsLastSet(before, id);
    }
  }

  // ----- produced frames -----

  /** The frame inside a datagram, as its receiver reads it. */
  function FrameIn(format: Format, datagram: Bytes): Option<IoFrame> {
    match Cpf.Decode(datagram)
    case Err(_) => None
    case Ok(items) =>
      match Cpf.Find(items, Cpf.ConnectedData)
      case None => None
      case Some(payload) =>
        match DecodeFrame(format, payload)
        case Err(_) => None
        case Ok(f) => Some(f)
  }

  ghost predicate CarriesOutput(c: Conn, datagram: Bytes) {
    var f := FrameIn(c.params.o2tFormat, datagram);
    && f.Some?
    && f.value.data == (if c.params.o2tFormat.CarriesData() then c.output else [])
    && f.value.runMode == (if c.params.o2tFormat.HasHeader() then Some(c.run) else None)
  }

  lemma TickConnCarriesOutput(c: Conn, now: nat, send: SendResult)
    ensures var d := TickConn(c, now, send).1;
            d.Some? && d.value.Ok? ==> CarriesOutput(c, d.value.value)
  {
    var d := TickConn(c, now, send).1;
    if d.Some? && d.value.Ok? {
      Channel.DatagramCarriesFrame(Rearm(c, now));
    }
  }

  ghost predicate FromLiveConn(m: Mgr, frame: Produced) {
    && frame.id in m.conns
    && (frame.datagram.Ok? ==> CarriesOutput(m.conns[frame.id], frame.datagram.value))
  }

  lemma {:induction false} TickFramesCarryOutputs(m: Mgr, now: nat, order: seq<u32>, sends: map<u32, SendResult>)
    ensures forall frame :: frame in TickAll(m, now, order, sends).frames ==> FromLiveConn(m, frame)
    decreases order
  {
    if order != [] {
      var id := order[0];
      if id in m.conns {
        var send := SendFor(sends, id);
        var (c, datagram, _) := TickConn(m.conns[id], now, send);
        TickConnKeepsOutput(m.conns[id], now, send);
        TickConnCarriesOutput(m.conns[id], now, send);
        var next := SetConn(m, id, c);
        TickFramesCarryOutputs(next, now, order[1..], sends);
        forall frame | frame in TickAll(next, now, order[1..], sends).frames ensures FromLiveConn(m, frame) {
          assert FromLiveConn(next, frame);
        }
      } else {
        TickFramesCarryOutputs(m, now, order[1..], sends);
      }
    }
  }

  /** Every frame a tick puts on the wire carries the last buffer the task accepted for that connection, and the run bit last set. */
  lemma EveryFrameCarriesLastStaged(inputs: seq<Input>, now: nat, order: seq<u32>, sends: map<u32, SendResult>, i: nat)
    requires i < |TickAll(ManagerRun(inputs), now, order, sends).frames|
    requires TickAll(ManagerRun(inputs), now, order, sends).frames[i].datagram.Ok?
    ensures var frame := TickAll(ManagerRun(inputs), now, order, sends).frames[i];
            && frame.id in ManagerRun(inputs).conns
            && var format := ManagerRun(inputs).conns[frame.id].params.o2tFormat;
               var f := FrameIn(format, frame.datagram.value);
               && f.Some?
               && f.value.data == (if format.CarriesData() then LastStaged(inputs, frame.id).UnwrapOr([]) else [])
               && f.value.runMode == (if format.HasHeader() then Some(LastRun(inputs, frame.id)) else None)
  {
    var m := ManagerRun(inputs);
    TickFramesCarryOutputs(m, now, order, sends);
    var frame := TickAll(m, now, order, sends).frames[i];
    assert FromLiveConn(m, frame);
    OutputIsLastStaged(inputs, frame.id);
    RunIsLastSet(inputs, frame.id);
  }

  // ----- validation at the handle -----

  const FIXED_MISMATCH := "output size does not match the negotiated fixed size"

  /** The check both staging paths of a handle make before they send the command. */
  function ValidateOutput(h: Handle, bytes: Bytes): Result<(), EnipError> {
    if !h.carriesData then Ok(())
    else if h.o2tFixed && |bytes| != h.o2tSize then Err(ProtocolViolation(FIXED_MISMATCH))
    else if |bytes| > h.o2tSize then Err(TooLarge(h.o2tSize))
    else Ok(())
  }

  /** What the handle of a connection lets through: anything where no data is carried, exactly the negotiated size when it is fixed, and at most that when it is not. */
  lemma OutputVerdicts(p: Params, bytes: Bytes)
    ensures var r := ValidateOutput(HandleOf(p), bytes);
            && (r.Ok? <==> (p.o2tFormat.CarriesData() ==> if p.o2tFixed then |bytes| == p.o2tSize else |bytes| <= p.o2tSize))
            && (r.Err? && p.o2tFixed ==> r.error == ProtocolViolation(FIXED_MISMATCH))
            && (r.Err? && !p.o2tFixed ==> r.error == TooLarge(p.o2tSize))
    ensures HandleOf(p).id == p.t2oId
  {
  }

  /** Commands come from handles of connections that were armed, after the handle's own check. */
  ghost predicate FromHandles(inputs: seq<Input>) {
    forall i :: 0 <= i < |inputs| && inputs[i].SetOutput? ==>
      && ValidateOutput(inputs[i].handle, inputs[i].bytes).Ok?
      && exists j :: 0 <= j < i && inputs[j].Add? && inputs[i].handle == HandleOf(inputs[j].params)
  }

  /** No two registrations share a T-to-O id. */
  ghost predicate UniqueIds(inputs: seq<Input>) {
    forall i, j :: 0 <= i < j < |inputs| && inputs[i].Add? && inputs[j].Add? ==> inputs[i].params.t2oId != inputs[j].params.t2oId
  }

  lemma {:induction false} ConnFromAdd(inputs: seq<Input>, id: u32) returns (j: nat)
    requires id in ManagerRun(inputs).conns
    ensures j < |inputs| && inputs[j].Add? && inputs[j].params == ManagerRun(inputs).conns[id].params && inputs[j].params.t2oId == id
    decreases |inputs|
  {
    var before, input := inputs[..|inputs| - 1], inputs[|inputs| - 1];
    var m := ManagerRun(before);
    if !input.Add? && !input.SetOutput? && !input.SetRun? {
      StepKeepsOutputs(m, input);
    }
    if input.Add? && ManagerStep(m, input).1.Armed? && input.params.t2oId == id {
      j := |inputs| - 1;
    } else {
      j := ConnFromAdd(before, id);
    }
  }

  /** Every buffer the old handle lets through suits the connection now under its id. */
  predicate HandleFits(h: Handle, now: Handle) {
    || !now.carriesData
    || (h.carriesData && if now.o2tFixed then h.o2tSize == now.o2tSize && (h.o2tFixed || h.o2tSize == 0) else h.o2tSize <= now.o2tSize)
  }

  /** Exactly when a handle's own validation also protects the connection its id names. */
  lemma HandleProtectsIff(h: Handle, now: Handle)
    ensures (forall bytes :: ValidateOutput(h, bytes).Ok? ==> ValidateOutput(now, bytes).Ok?) <==> HandleFits(h, now)
  {
    var full: Bytes := seq(h.o2tSize, i => 0);
    var longer: Bytes := seq(now.o2tSize + 1, i => 0);
    assert ValidateOutput(h, full).Ok?;
    assert !h.carriesData ==> ValidateOutput(h, longer).Ok?;
    if now.carriesData && h.carriesData && now.o2tFixed && !h.o2tFixed && h.o2tSize > 0 {
      assert ValidateOutput(h, []).Ok?;
      assert ValidateOutput(now, []).Ok? ==> ValidateOutput(now, full).Err?;
    }
    assert now.carriesData ==> ValidateOutput(now, longer).Err?;
  }

  /** Every staging command reaches a connection its handle's check is good for. */
  ghost predicate HandlesFit(inputs: seq<Input>) {
    forall i :: 0 <= i < |inputs| && inputs[i].SetOutput? ==> FitsAt(inputs, i)
  }

  ghost predicate FitsAt(inputs: seq<Input>, i: nat)
    requires i < |inputs| && inputs[i].SetOutput?
  {
    var m, h := ManagerRun(inputs[..i]), inputs[i].handle;
    h.id in m.conns ==> HandleFits(h, HandleOf(m.conns[h.id].params))
  }

  /** As long as no id is drawn twice, every handle fits. */
  lemma UniqueIdsFit(inputs: seq<Input>)
    requires FromHandles(inputs) && UniqueIds(inputs)
    ensures HandlesFit(inputs)
  {
    forall i | 0 <= i < |inputs| && inputs[i].SetOutput? ensures FitsAt(inputs, i) {
      var before, h := inputs[..i], inputs[i].handle;
      if h.id in ManagerRun(before).conns {
        var j := ConnFromAdd(before, h.id);
        var k :| 0 <= k < i && inputs[k].Add? && h == HandleOf(inputs[k].params);
        assert inputs[j] == before[j];
        assert j == k;
      }
    }
  }

  lemma HandlesFitBefore(inputs: seq<Input>)
    requires HandlesFit(inputs) && FromHandles(inputs) && inputs != []
    ensures HandlesFit(inputs[..|inputs| - 1]) && FromHandles(inputs[..|inputs| - 1])
  {
    var before := inputs[..|inputs| - 1];
    forall i | 0 <= i < |before| && before[i].SetOutput? ensures FitsAt(before, i) {
      assert FitsAt(inputs, i);
      assert before[..i] == inputs[..i];
    }
  }

  /** While handles fit, every staging command the task accepts carries a buffer the connection's own validation passes. */
  lemma AcceptedIsValid(inputs: seq<Input>, i: nat)
    requires FromHandles(inputs) && HandlesFit(inputs) && i < |inputs| && inputs[i].SetOutput?
    requires ManagerStep(ManagerRun(inputs[..i]), inputs[i]).1.Staged?
    ensures var m := ManagerRun(inputs[..i]);
            && inputs[i].handle.id in m.conns
            && ValidateOutput(HandleOf(m.conns[inputs[i].handle.id].params), inputs[i].bytes).Ok?
  {
    assert FitsAt(inputs, i);
    HandleProtectsIff(inputs[i].handle, HandleOf(ManagerRun(inputs[..i]).conns[inputs[i].handle.id].params));
  }

  /** And so the last buffer accepted for a live connection, the one its frames carry, passes that connection's own validation. */
  lemma {:induction false} OutputsAreValid(inputs: seq<Input>, id: u32)
    requires FromHandles(inputs) && HandlesFit(inputs) && id in ManagerRun(inputs).conns
    ensures LastStaged(inputs, id).Some? ==>
              ValidateOutput(HandleOf(ManagerRun(inputs).conns[id].params), LastStaged(inputs, id).value).Ok?
    decreases |inputs|
  {
    var before, input := inputs[..|inputs| - 1], inputs[|inputs| - 1];
    var m := ManagerRun(before);
    if !input.Add? && !input.SetOutput? && !input.SetRun? {
      StepKeepsOutputs(m, input);
    }
    if input.SetOutput? && ManagerStep(m, input).1.Staged? && input.handle.id == id {
      AcceptedIsValid(inputs, |inputs| - 1);
    } else if id in m.conns {
      HandlesFitBefore(inputs);
      OutputsAreValid(before, id);
    }
  }

  /** On a connection that carries data, a staged buffer is at most the negotiated size, and on a fixed one exactly that, the empty buffer included. */
  lemma FixedOutputExactSize(inputs: seq<Input>, id: u32)
    requires FromHandles(inputs) && HandlesFit(inputs) && id in ManagerRun(inputs).conns
    ensures var c := ManagerRun(inputs).conns[id];
            var staged := LastStaged(inputs, id);
            c.params.o2tFormat.CarriesData() && staged.Some? ==>
              |staged.value| <= c.params.o2tSize && (c.params.o2tFixed ==> |staged.value| == c.params.o2tSize)
  {
    OutputsAreValid(inputs, id);
  }

  /** Ids are drawn at random: when one is drawn twice, the old connection's handle stages a buffer the new connection's size forbids. */
  lemma ReusedIdStagesWrongSize(p: Params, q: Params)
    requires p.group.None? && q.group.None? && p.t2oId == q.t2oId
    requires p.o2tFormat == q.o2tFormat == Modeless && p.o2tFixed && q.o2tFixed && p.o2tSize == 4 && q.o2tSize == 8
    ensures var inputs := [Add(p, 0, true, true), Add(q, 0, true, true), SetOutput(HandleOf(p), [1, 2, 3, 4], None, 0)];
            && FromHandles(inputs)
            && !HandleFits(HandleOf(p), HandleOf(q))
            && q.t2oId in ManagerRun(inputs).conns
            && ManagerRun(inputs).conns[q.t2oId].params == q
            && ValidateOutput(HandleOf(q), ManagerRun(inputs).conns[q.t2oId].output).Err?
  {
    var a, b, s := Add(p, 0, true, true), Add(q, 0, true, true), SetOutput(HandleOf(p), [1, 2, 3, 4], None, 0);
    var inputs := [a, b, s];
    assert inputs[..2] == [a, b] && [a, b][..1] == [a] && [a][..0] == [];
    assert ManagerRun([a]) == ManagerStep(INITIAL, a).0;
    assert ManagerRun([a, b]) == ManagerStep(ManagerRun([a]), b).0;
    assert ManagerRun(inputs) == ManagerStep(ManagerRun([a, b]), s).0;
    assert inputs[0].Add? && inputs[2].handle == HandleOf(inputs[0].params);
  }
}
