/** The connection object: its methods update its fields in place and do what `ConnectionState` says (io.rs). */
module Connection {
  import opened Prelude
  import opened Errors
  import opened Frame
  import opened ConnectionState
  import Cpf

  class IoConnection {
    const params: Params
    // produce state
    var class1Seq: u16
    var encapSeq: u32
    var output: Bytes
    var run: bool
    var nextProduceAt: nat
    var sendStreak: nat
    // consume state
    var lastSeq: Option<u16>
    var up: bool
    var deadline: nat
    var counters: Counters

    ghost function State(): Conn
      reads this
    {
      Conn(params, class1Seq, encapSeq, output, run, nextProduceAt, sendStreak, lastSeq, up, deadline, counters)
    }

    constructor (p: Params, now: nat)
      ensures State() == NewConn(p, now)
    {
      params := p;
      class1Seq, encapSeq, output, run := 0, 0, [], true;
      nextProduceAt := CheckedAdd(now, p.o2tApi).UnwrapOr(now);
      sendStreak := 0;
      lastSeq, up := None, false;
      deadline := DeadlineFrom(p, now);
      counters := ZERO;
    }

    method SetOutput(bytes: Bytes)
      modifies this
      ensures State() == Apply(old(State()), OutputOp(bytes))
    {
      output := bytes;
    }

    method SetRun(on: bool)
      modifies this
      ensures State() == Apply(old(State()), RunOp(on))
    {
      run := on;
    }

    method ConsumePayload(payload: Bytes, encap: u32, now: nat) returns (out: ConsumeOutcome)
      modifies this
      ensures (State(), out) == Consume(old(State()), payload, encap, now)
    {
      var decoded := DecodeFrame(params.t2oFormat, payload);
      if decoded.Err? {
        counters := counters.(sizeMismatch := counters.sizeMismatch + 1);
        return DroppedFrame(SizeMismatch);
      }
      var frame := decoded.value;
      if BadSize(params, |frame.data|) {
        counters := counters.(sizeMismatch := counters.sizeMismatch + 1);
        return DroppedFrame(SizeMismatch);
      }
      if frame.sequence.Some? {
        if lastSeq.Some? {
          var delta := Delta(frame.sequence.value, lastSeq.value);
          if delta == 0 || delta >= 0x8000 {
            counters := counters.(staleFrames := counters.staleFrames + 1);
            return DroppedFrame(Stale);
          }
          if delta > 1 {
            counters := counters.(sequenceGaps := counters.sequenceGaps + (delta - 1));
          }
        }
        lastSeq := frame.sequence;
      }
      var first := !up;
      up := true;
      deadline := DeadlineFrom(params, now);
      counters := counters.(framesAccepted := counters.framesAccepted + 1);
      out := Accepted(first, Update(frame.data, frame.sequence.UnwrapOr(0), encap, frame.runMode.UnwrapOr(true), now));
    }

    method BuildFrame() returns (datagram: Result<Bytes, EnipError>)
      modifies this
      ensures (State(), datagram) == ProduceFrame(old(State()))
    {
      ghost var next := Advance(State());
      encapSeq := (encapSeq + 1) % 0x1_0000_0000;
      class1Seq := (class1Seq + 1) % 0x1_0000;
      if class1Seq == 0 {
        class1Seq := 1;
      }
      var format := params.o2tFormat;
      var frame := IoFrame(if format.HasSequence() then Some(class1Seq) else None,
                           if format.HasHeader() then Some(run) else None,
                           if format.CarriesData() then output else []);
      var address := Cpf.Item(Cpf.SequencedAddress, Cpf.EncodeSeqAddr(Cpf.SeqAddr(params.o2tId, encapSeq)));
      var data := Cpf.Item(Cpf.ConnectedData, EncodeFrame(format, frame));
      assert State() == next && frame == CurrentFrame(next);
      var items := [address, data];
      assert items == DatagramItems(next);
      var encoded := Cpf.EncodeItems(items);
      datagram := if encoded.Ok? then Ok(encoded.value) else Err(WireFault(encoded.error));
    }

    /** Catch up arithmetically: no loop over the lapsed ticks. */
    method CatchUp(now: nat)
      requires nextProduceAt <= now
      modifies this`nextProduceAt, this`counters
      ensures State() == Rearm(old(State()), now)
    {
      ghost var c := State();
      var period := Max(params.o2tApi, 1);
      assert period == Period(c);
      var skipped := (now - nextProduceAt) / period;
      assert skipped == Skipped(c, now);
      var counted := if params.o2tApi == 0 then Min(skipped, 1) else skipped;
      if counted > 0 {
        counters := counters.(produceOverruns := counters.produceOverruns + Min(counted, U64_MAX));
      }
      var steps := skipped + 1;
      var delta := period * steps;
      assert Rearmable(c, now) <==> steps <= U32_MAX && delta <= DURATION_MAX && nextProduceAt + delta <= INSTANT_MAX;
      if steps <= U32_MAX && delta <= DURATION_MAX && nextProduceAt + delta <= INSTANT_MAX {
        nextProduceAt := nextProduceAt + delta;
      } else {
        nextProduceAt := CheckedAdd(now, period).UnwrapOr(now);
      }
    }

    method Poll(now: nat) returns (datagram: Option<Result<Bytes, EnipError>>)
      modifies this
      ensures (State(), datagram) == PollProduce(old(State()), now)
    {
      if now < nextProduceAt {
        return None;
      }
      CatchUp(now);
      var built := BuildFrame();
      datagram := Some(built);
    }

    method AccountSend(result: SendResult) returns (outcome: SendOutcome)
      modifies this
      ensures (State(), outcome) == RecordSend(old(State()), result)
    {
      if result.SendOk? {
        counters := counters.(framesProduced := counters.framesProduced + 1);
        sendStreak := 0;
        return Sent;
      }
      counters := counters.(sendErrors := counters.sendErrors + 1);
      if IsPerDatagram(result.kind) {
        return Dropped;
      }
      sendStreak := SaturatingInc32(sendStreak);
      outcome := if sendStreak >= MAX_CONSECUTIVE_SEND_ERRORS then ConnectionDead else Dropped;
    }

    predicate Expired(now: nat)
      reads this
      ensures Expired(now) == PollWatchdog(State(), now)
    {
      now >= deadline
    }
  }
}
