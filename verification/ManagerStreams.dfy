/** What every interleaving of manager steps keeps: the two maps agree and every stream is well formed. */
module ManagerStreams {
  import opened Prelude
  import opened ConnectionState
  import opened EventQueue
  import opened Errors
  import opened SocketErrors
  import opened Manager

  /** Nothing, `Lost` alone, or one `Up`, one or more `Data`, and at most one final `Lost`. */
  ghost predicate StreamShape(log: seq<Event>) {
    || log == []
    || (|log| == 1 && log[0].Lost?)
    || (&& |log| >= 2 && log[0].Up? && log[1].Data?
        && (forall i :: 2 <= i < |log| - 1 ==> log[i].Data?)
        && (log[|log| - 1].Data? || log[|log| - 1].Lost?))
  }

  /** A live stream carries one `Data` for every frame its connection accepted, after one `Up` with the negotiated intervals. */
  ghost predicate LiveStream(c: Conn, log: seq<Event>) {
    if !c.up then log == [] && c.counters.framesAccepted == 0
    else && |log| >= 2 && log[0] == Up(c.params.o2tApi, c.params.t2oApi)
         && (forall i :: 1 <= i < |log| ==> log[i].Data?)
         && c.counters.framesAccepted == |log| - 1
  }

  ghost predicate Good(m: Mgr) {
    && m.conns.Keys == m.events.Keys
    && (forall id :: id in m.conns ==> m.conns[id].params.t2oId == id && LiveStream(m.conns[id], m.events[id]))
    && (forall i :: 0 <= i < |m.ended| ==> StreamShape(m.ended[i].log))
  }

  lemma LiveIsShaped(c: Conn, log: seq<Event>, reason: LostReason)
    requires LiveStream(c, log)
    ensures StreamShape(log) && StreamShape(log + [Lost(reason)])
  {
  }

  lemma RemoveKeepsGood(m: Mgr, id: u32)
    requires Good(m)
    ensures Good(RemoveConnection(m, id))
  {
    if id in m.events {
      LiveIsShaped(m.conns[id], m.events[id], LostIo);
    }
  }

  lemma LoseKeepsGood(m: Mgr, id: u32, reason: LostReason)
    requires Good(m)
    ensures Good(LoseOne(m, id, reason))
  {
    if id in m.events {
      LiveIsShaped(m.conns[id], m.events[id], reason);
    }
  }

  lemma InsertKeepsGood(m: Mgr, p: Params, created: nat)
    requires Good(m)
    ensures Good(Insert(m, p, created))
  {
    RemoveKeepsGood(m, p.t2oId);
  }

  /** A connection may change in place as long as its stream still fits it. */
  lemma SetConnKeepsGood(m: Mgr, id: u32, c: Conn)
    requires Good(m) && id in m.conns && c.params == m.conns[id].params
    requires c.up == m.conns[id].up && c.counters.framesAccepted == m.conns[id].counters.framesAccepted
    ensures Good(SetConn(m, id, c))
  {
  }

  lemma ConsumeAndStream(c: Conn, log: seq<Event>, payload: Bytes, encap: u32, now: nat)
    requires LiveStream(c, log)
    ensures var (d, out) := Consume(c, payload, encap, now);
            && d.params == c.params
            && (out.DroppedFrame? ==> d.up == c.up && d.counters.framesAccepted == c.counters.framesAccepted)
            && (out.Accepted? ==>
                  LiveStream(d, log + (if out.first then [Up(c.params.o2tApi, c.params.t2oApi)] else []) + [Data(out.update)]))
  {
    ConsumeCounts(c, payload, encap, now);
    var (d, out) := Consume(c, payload, encap, now);
    if out.Accepted? {
      StreamGrows(c, d, log, out.first, out.update);
    }
  }

  /** An accepted frame brings the connection up and is counted once; a dropped one does neither. */
  lemma ConsumeCounts(c: Conn, payload: Bytes, encap: u32, now: nat)
    ensures var (d, out) := Consume(c, payload, encap, now);
            && d.params == c.params
            && (out.DroppedFrame? ==> d.up == c.up && d.counters.framesAccepted == c.counters.framesAccepted)
            && (out.Accepted? ==> d.up && out.first == !c.up && d.counters.framesAccepted == c.counters.framesAccepted + 1)
  {
  }

  lemma StreamGrows(c: Conn, d: Conn, log: seq<Event>, first: bool, update: Update)
    requires LiveStream(c, log) && d.params == c.params && d.up && first == !c.up
    requires d.counters.framesAccepted == c.counters.framesAccepted + 1
    ensures LiveStream(d, log + (if first then [Up(c.params.o2tApi, c.params.t2oApi)] else []) + [Data(update)])
  {
    if !first {
      assert log + [] + [Data(update)] == log + [Data(update)];
    }
  }

  /** The datagram reached connection `id` and only its `Consume` decided. */
  ghost predicate Consumed(m: Mgr, after: Mgr, result: Routed, id: u32, payload: Bytes, encap: u32, now: nat) {
    && id in m.conns
    && after == SetConn(m, id, Consume(m.conns[id], payload, encap, now).0)
    && match Consume(m.conns[id], payload, encap, now).1
       case Accepted(first, update) => result == RoutedTo(id, first, update)
       case DroppedFrame(reason) => result == NotRouted(Some(id), reason)
  }

  lemma DropReasonsOfConsume(c: Conn, payload: Bytes, encap: u32, now: nat)
    ensures var out := Consume(c, payload, encap, now).1;
            out.DroppedFrame? ==> out.reason == SizeMismatch || out.reason == Stale
  {
  }

  /** Either one of the task's own counters moved and nothing else, or one connection consumed. */
  ghost predicate RouteFacts(m: Mgr, after: Mgr, result: Routed, now: nat) {
    if result.RoutedTo? then exists payload, encap :: Consumed(m, after, result, result.id, payload, encap, now)
    else match result.reason
      case MalformedDatagram => after == CountMalformed(m)
      case UnknownConnection => after == m.(stats := m.stats.(unknownConnection := m.stats.unknownConnection + 1))
      case SourceMismatch => after == m.(stats := m.stats.(sourceMismatch := m.stats.sourceMismatch + 1))
      case _ => result.addressed.Some? && exists payload, encap :: Consumed(m, after, result, result.addressed.value, payload, encap, now)
  }

  lemma RouteOutcome(m: Mgr, buf: Bytes, src: Ip, now: nat)
    ensures RouteFacts(m, Route(m, buf, src, now).0, Route(m, buf, src, now).1, now)
  {
    var (after, result) := Route(m, buf, src, now);
    if Addressed(buf).Some? {
      var (addr, payload) := Addressed(buf).value;
      var id := addr.connectionId;
      if id in m.conns && src == m.conns[id].params.expectedSource {
        DropReasonsOfConsume(m.conns[id], payload, addr.encapSequence, now);
        assert Consumed(m, after, result, id, payload, addr.encapSequence, now);
      }
    }
  }

  lemma DeliveredStream(m: Mgr, id: u32, c: Conn, first: bool, update: Update)
    requires Good(m) && id in m.conns && c.params == m.conns[id].params
    requires LiveStream(c, m.events[id] + (if first then [Up(c.params.o2tApi, c.params.t2oApi)] else []) + [Data(update)])
    ensures Good(Deliver(SetConn(m, id, c), id, first, update))
  {
    var log := m.events[id];
    if !first {
      assert log + [] + [Data(update)] == log + [Data(update)];
    }
  }

  lemma DeliveredKeepsConns(m: Mgr, result: Routed)
    ensures Delivered(m, result).conns == m.conns
  {
  }

  lemma ConsumedKeepsGood(m: Mgr, after: Mgr, result: Routed, id: u32, payload: Bytes, encap: u32, now: nat)
    requires Good(m) && Consumed(m, after, result, id, payload, encap, now)
    ensures Good(Delivered(after, result))
  {
    ConsumeAndStream(m.conns[id], m.events[id], payload, encap, now);
    var (c, out) := Consume(m.conns[id], payload, encap, now);
    if out.Accepted? {
      DeliveredStream(m, id, c, out.first, out.update);
    } else {
      SetConnKeepsGood(m, id, c);
    }
  }

  lemma RoutedKeepsGood(m: Mgr, after: Mgr, result: Routed, now: nat)
    requires Good(m) && RouteFacts(m, after, result, now)
    ensures Good(Delivered(after, result))
  {
    if result.RoutedTo? {
      var payload, encap :| Consumed(m, after, result, result.id, payload, encap, now);
      ConsumedKeepsGood(m, after, result, result.id, payload, encap, now);
    } else if result.reason.SizeMismatch? || result.reason.Stale? {
      var payload, encap :| Consumed(m, after, result, result.addressed.value, payload, encap, now);
      ConsumedKeepsGood(m, after, result, result.addressed.value, payload, encap, now);
    }
  }

  lemma DatagramKeepsGood(m: Mgr, buf: Bytes, src: Ip, now: nat)
    requires Good(m)
    ensures Good(Delivered(Route(m, buf, src, now).0, Route(m, buf, src, now).1))
  {
    RouteOutcome(m, buf, src, now);
    RoutedKeepsGood(m, Route(m, buf, src, now).0, Route(m, buf, src, now).1, now);
  }

  lemma DatagramStep(m: Mgr, buf: Bytes, src: Ip, now: nat)
    requires m.running
    ensures ManagerStep(m, Datagram(buf, src, now)).0 == TakeIn(m, buf, src, now).0
  {
  }

  lemma TickConnKeepsStream(c: Conn, now: nat, send: SendResult)
    ensures var d := TickConn(c, now, send).0;
            d.params == c.params && d.up == c.up && d.counters.framesAccepted == c.counters.framesAccepted
  {
  }

  lemma {:induction false} TickAllKeepsGood(m: Mgr, now: nat, order: seq<u32>, sends: map<u32, SendResult>)
    requires Good(m)
    ensures Good(TickAll(m, now, order, sends).m)
    decreases order
  {
    if order != [] {
      var id := order[0];
      if id in m.conns {
        var send := SendFor(sends, id);
        TickConnKeepsStream(m.conns[id], now, send);
        SetConnKeepsGood(m, id, TickConn(m.conns[id], now, send).0);
        TickAllKeepsGood(SetConn(m, id, TickConn(m.conns[id], now, send).0), now, order[1..], sends);
      } else {
        TickAllKeepsGood(m, now, order[1..], sends);
      }
    }
  }

  lemma {:induction false} LoseAllKeepsGood(m: Mgr, expired: seq<(u32, LostReason)>)
    requires Good(m)
    ensures Good(LoseAll(m, expired))
    decreases expired
  {
    if expired != [] {
      LoseKeepsGood(m, expired[0].0, expired[0].1);
      LoseAllKeepsGood(LoseOne(m, expired[0].0, expired[0].1), expired[1..]);
    }
  }

  lemma {:induction false} FanOutKeepsGood(m: Mgr, order: seq<u32>)
    requires Good(m)
    ensures Good(FanOutLost(m, order))
    decreases order
  {
    if order != [] {
      if order[0] in m.conns {
        LoseKeepsGood(m, order[0], LostIo);
        FanOutKeepsGood(LoseOne(m, order[0], LostIo), order[1..]);
      } else {
        FanOutKeepsGood(m, order[1..]);
      }
    }
  }

  lemma StepKeepsGood(m: Mgr, input: Input)
    requires Good(m)
    ensures Good(ManagerStep(m, input).0)
  {
    if m.running {
      match input {
        case Add(p, created, joinOk, openerAlive) =>
          InsertKeepsGood(m, p, created);
          RemoveKeepsGood(Insert(m, p, created), p.t2oId);
        case SetOutput(h, bytes, deadline, now) =>
          if h.id in m.conns {
            SetConnKeepsGood(m, h.id, m.conns[h.id].(output := bytes));
          }
        case SetRun(id, run) =>
          if id in m.conns {
            SetConnKeepsGood(m, id, m.conns[id].(run := run));
          }
        case Remove(id) => RemoveKeepsGood(m, id);
        case Shutdown =>
        case Datagram(buf, src, now) => DatagramKeepsGood(m.(streak := OnRecv(m.streak, RecvOk).0), buf, src, now);
        case RecvFailure(kind, order) =>
          FanOutKeepsGood(m.(streak := OnRecv(m.streak, RecvErr(kind)).0, stats := m.stats.(recvErrors := m.stats.recvErrors + 1)), order);
        case Tick(now, order, sends) =>
          TickAllKeepsGood(m, now, order, sends);
          LoseAllKeepsGood(TickAll(m, now, order, sends).m, TickAll(m, now, order, sends).expired);
      }
    }
  }

  /** Over every run, the registry and the sender map hold the same ids, and every stream, live or ended, has the one shape a consumer may see. */
  lemma {:induction false} EveryRunIsGood(inputs: seq<Input>)
    ensures Good(ManagerRun(inputs))
    decreases |inputs|
  {
    if inputs != [] {
      EveryRunIsGood(inputs[..|inputs| - 1]);
      StepKeepsGood(ManagerRun(inputs[..|inputs| - 1]), inputs[|inputs| - 1]);
    }
  }

  lemma EveryStreamIsShaped(inputs: seq<Input>)
    ensures var m := ManagerRun(inputs);
            && m.conns.Keys == m.events.Keys
            && (forall id :: id in m.events ==> StreamShape(m.events[id]))
            && (forall i :: 0 <= i < |m.ended| ==> StreamShape(m.ended[i].log))
  {
    EveryRunIsGood(inputs);
    var m := ManagerRun(inputs);
    forall id | id in m.events ensures StreamShape(m.events[id]) {
      LiveIsShaped(m.conns[id], m.events[id], LostIo);
    }
  }

  // ----- one tick, exactly -----

  predicate Distinct(order: seq<u32>) {
    forall i, j :: 0 <= i < j < |order| ==> order[i] != order[j]
  }

  lemma {:induction false} TickAllExact(m: Mgr, now: nat, order: seq<u32>, sends: map<u32, SendResult>)
    requires Distinct(order)
    ensures var pass := TickAll(m, now, order, sends);
            && pass.m.conns.Keys == m.conns.Keys
            && pass.m.(conns := m.conns) == m
            && (forall id :: id in m.conns ==>
                  pass.m.conns[id] == if id in order then TickConn(m.conns[id], now, SendFor(sends, id)).0 else m.conns[id])
            && (forall id, reason :: (id, reason) in pass.expired <==>
                  id in order && id in m.conns && TickConn(m.conns[id], now, SendFor(sends, id)).2 == Some(reason))
    decreases order
  {
    if order != [] {
      var id := order[0];
      assert order == [id] + order[1..];
      assert id !in order[1..];
      if id in m.conns {
        var (c, _, lost) := TickConn(m.conns[id], now, SendFor(sends, id));
        var next := SetConn(m, id, c);
        TickAllExact(next, now, order[1..], sends);
        var pass, rest := TickAll(m, now, order, sends), TickAll(next, now, order[1..], sends);
        var mine: seq<(u32, LostReason)> := if lost.Some? then [(id, lost.value)] else [];
        assert pass.expired == mine + rest.expired;
        forall x, reason ensures (x, reason) in pass.expired <==>
            x in order && x in m.conns && TickConn(m.conns[x], now, SendFor(sends, x)).2 == Some(reason) {
          assert (x, reason) in pass.expired <==> (x, reason) in mine || (x, reason) in rest.expired;
          if x != id {
            assert x in m.conns ==> next.conns[x] == m.conns[x];
          }
        }
      } else {
        TickAllExact(m, now, order[1..], sends);
      }
    }
  }

  /** A tick sends one frame for each listed connection whose time has come, as that connection built it, and no other. */
  lemma {:induction false} TickFramesExact(m: Mgr, now: nat, order: seq<u32>, sends: map<u32, SendResult>, id: u32, datagram: Result<Bytes, EnipError>)
    requires Distinct(order)
    ensures Produced(id, datagram) in TickAll(m, now, order, sends).frames <==>
              id in order && id in m.conns && TickConn(m.conns[id], now, SendFor(sends, id)).1 == Some(datagram)
    ensures |TickAll(m, now, order, sends).frames| <= |order|
    decreases order
  {
    if order != [] {
      var first := order[0];
      assert order == [first] + order[1..];
      if first in m.conns {
        var (c, built, _) := TickConn(m.conns[first], now, SendFor(sends, first));
        var next := SetConn(m, first, c);
        TickFramesExact(next, now, order[1..], sends, id, datagram);
        var mine: seq<Produced> := if built.Some? then [Produced(first, built.value)] else [];
        assert TickAll(m, now, order, sends).frames == mine + TickAll(next, now, order[1..], sends).frames;
      } else {
        TickFramesExact(m, now, order[1..], sends, id, datagram);
      }
    }
  }

  lemma {:induction false} LoseAllRemoves(m: Mgr, expired: seq<(u32, LostReason)>)
    ensures var after := LoseAll(m, expired);
            forall id :: (id in after.conns <==> id in m.conns && forall reason :: (id, reason) !in expired)
                         && (id in after.conns ==> after.conns[id] == m.conns[id])
    decreases expired
  {
    if expired != [] {
      LoseAllRemoves(LoseOne(m, expired[0].0, expired[0].1), expired[1..]);
      assert expired == [expired[0]] + expired[1..];
    }
  }

  /** Whatever order the map is walked in, a tick steps every connection once and removes exactly those that died. */
  lemma TickIsOrderIndependent(m: Mgr, now: nat, order: seq<u32>, sends: map<u32, SendResult>, id: u32)
    requires Distinct(order) && (forall x :: x in m.conns ==> x in order) && id in m.conns
    ensures var after := TickStep(m, now, order, sends);
            var (c, _, lost) := TickConn(m.conns[id], now, SendFor(sends, id));
            if lost.Some? then id !in after.conns else id in after.conns && after.conns[id] == c
  {
    TickAllExact(m, now, order, sends);
    var (c, _, lost) := TickConn(m.conns[id], now, SendFor(sends, id));
    PassDecides(TickAll(m, now, order, sends), id, c, lost);
  }

  lemma PassDecides(pass: TickPass, id: u32, c: Conn, lost: Option<LostReason>)
    requires id in pass.m.conns && pass.m.conns[id] == c
    requires forall reason :: (id, reason) in pass.expired <==> lost == Some(reason)
    ensures var after := LoseAll(pass.m, pass.expired);
            if lost.Some? then id !in after.conns else id in after.conns && after.conns[id] == c
  {
    LoseAllRemoves(pass.m, pass.expired);
    if lost.Some? {
      assert (id, lost.value) in pass.expired;
    }
  }

  // ----- a dead socket -----

  lemma {:induction false} FanOutEndsAll(m: Mgr, order: seq<u32>)
    requires m.conns.Keys == m.events.Keys && forall id :: id in m.conns ==> id in order
    ensures var after := FanOutLost(m, order);
            && after.conns == map[] && after.events == map[]
            && m.ended <= after.ended
            && forall id :: id in m.events ==> Ended(id, m.events[id] + [Lost(LostIo)]) in after.ended
    decreases order
  {
    if order != [] {
      assert order == [order[0]] + order[1..];
      if order[0] in m.conns {
        var next := LoseOne(m, order[0], LostIo);
        FanOutEndsAll(next, order[1..]);
        var after := FanOutLost(next, order[1..]);
        forall id | id in m.events ensures Ended(id, m.events[id] + [Lost(LostIo)]) in after.ended {
          if id == order[0] {
            assert after.ended[|m.ended|] == Ended(id, m.events[id] + [Lost(LostIo)]);
          } else {
            assert id in next.events && next.events[id] == m.events[id];
          }
        }
      } else {
        FanOutEndsAll(m, order[1..]);
      }
    }
  }

  /** When the socket is declared dead and the walk covers the table, no connection is left, and every stream that was live ends in the loss. */
  lemma DeadSocketEndsEverything(inputs: seq<Input>, kind: ErrorKind, order: seq<u32>)
    requires ManagerStep(ManagerRun(inputs), RecvFailure(kind, order)).1.SocketDead?
    requires forall id :: id in ManagerRun(inputs).conns ==> id in order
    ensures var m := ManagerRun(inputs); var after := ManagerStep(m, RecvFailure(kind, order)).0;
            && !after.running
            && after.conns == map[] && after.events == map[]
            && forall id :: id in m.events ==> Ended(id, m.events[id] + [Lost(LostIo)]) in after.ended
  {
    EveryRunIsGood(inputs);
    var m := ManagerRun(inputs);
    FanOutEndsAll(m.(streak := OnRecv(m.streak, RecvErr(kind)).0, stats := m.stats.(recvErrors := m.stats.recvErrors + 1)), order);
  }

  // ----- the queue a stream runs through -----

  lemma {:induction false} FewControlEvents(q: seq<Event>, places: seq<nat>, last: nat, firstToo: bool)
    requires |places| == |q| && Increasing(places) && Inside(places, last + 1)
    requires forall i :: 0 <= i < |q| && !q[i].Data? ==> places[i] == last || (firstToo && places[i] == 0)
    ensures CountControl(q) <= if firstToo then 2 else 1
    decreases |q|
  {
    if |q| == 1 {
      assert q[1..] == [];
    } else if |q| > 1 {
      assert places[0] < places[1];
      FewControlEvents(q[1..], places[1..], last, firstToo && q[0].Data?);
    }
  }

  /** Everything sent to a queue, whether or not anyone still received it. */
  function Sends(ops: seq<QueueOp>): seq<Event> {
    if ops == [] then []
    else Sends(ops[..|ops| - 1]) + if ops[|ops| - 1].Send? then [ops[|ops| - 1].ev] else []
  }

  /** What a queue takes in is what was sent until its receiver went away. */
  lemma {:induction false} SentIsPrefix(capacity: nat, ops: seq<QueueOp>)
    ensures Trail(capacity, ops).sent <= Sends(ops)
    ensures !Trail(capacity, ops).q.rxClosed ==> Trail(capacity, ops).sent == Sends(ops)
    decreases |ops|
  {
    if ops != [] {
      SentIsPrefix(capacity, ops[..|ops| - 1]);
    }
  }

  /** A queue that carries any part of one connection's stream never holds more than its capacity plus two. */
  lemma StreamQueueBounded(capacity: nat, ops: seq<QueueOp>, log: seq<Event>)
    requires StreamShape(log) && Trail(capacity, ops).sent <= log
    ensures |Trail(capacity, ops).q.deque| <= Max(capacity, 1) + 2
  {
    QueueRefinesDropOldest(capacity, ops);
    CapacityFixed(capacity, ops);
    var t := Trail(capacity, ops);
    DataAndControl(t.q.deque);
    if t.q.deque != [] {
      SuffixIncreasing(t.popped, t.queued);
      ControlPlaces(t, log);
      FewControlEvents(t.q.deque, t.queued, |log| - 1, true);
    }
  }

  /** A stream the manager has sent, live or ended. */
  ghost predicate IsStreamOf(m: Mgr, log: seq<Event>) {
    || (exists id :: id in m.events && m.events[id] == log)
    || (exists i :: 0 <= i < |m.ended| && m.ended[i].log == log)
  }

  /** In every run of the manager, a queue that was sent one of its streams never holds more than its capacity plus two, however its receiver reads, lags or leaves. */
  lemma EveryQueueBounded(inputs: seq<Input>, capacity: nat, ops: seq<QueueOp>)
    requires IsStreamOf(ManagerRun(inputs), Sends(ops))
    ensures |Trail(capacity, ops).q.deque| <= Max(capacity, 1) + 2
  {
    EveryStreamIsShaped(inputs);
    SentIsPrefix(capacity, ops);
    StreamQueueBounded(capacity, ops, Sends(ops));
  }

  lemma SuffixIncreasing(a: seq<nat>, b: seq<nat>)
    requires Increasing(a + b)
    ensures Increasing(b)
  {
    forall i, j | 0 <= i < j < |b| ensures b[i] < b[j] {
      assert (a + b)[|a| + i] < (a + b)[|a| + j];
    }
  }

  lemma ControlPlaces(t: Trace, log: seq<Event>)
    requires StreamShape(log) && t.sent <= log && |t.queued| == |t.q.deque| && t.q.deque != [] && Inside(t.queued, |t.sent|)
    requires forall i :: 0 <= i < |t.queued| ==> t.q.deque[i] == t.sent[t.queued[i]]
    ensures |log| > 0 && Inside(t.queued, |log|)
    ensures forall i :: 0 <= i < |t.q.deque| && !t.q.deque[i].Data? ==> t.queued[i] == |log| - 1 || t.queued[i] == 0
  {
    assert t.queued[0] < |t.sent|;
    forall i | 0 <= i < |t.queued| ensures t.q.deque[i] == log[t.queued[i]] {
      assert t.sent[t.queued[i]] == log[t.queued[i]];
    }
  }
}
