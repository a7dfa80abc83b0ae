/** A connection inside the task lives its own run, and its stream is what that run sends: what is proved of one connection holds of every one the task holds (io.rs). */
module ManagerLives {
  import opened Prelude
  import opened Errors
  import opened ConnectionState
  import opened EventQueue
  import opened SocketErrors
  import opened Watchdog
  import opened Manager
  import opened ManagerStreams

  // ----- the events of a run -----

  /** What accepting a frame puts on the stream. */
  function Announced(p: Params, out: ConsumeOutcome): seq<Event> {
    match out
    case Accepted(first, update) => (if first then [Up(p.o2tApi, p.t2oApi)] else []) + [Data(update)]
    case DroppedFrame(_) => []
  }

  function OpEvents(c: Conn, op: Op): seq<Event> {
    if op.ConsumeOp? then Announced(c.params, Consume(c, op.payload, op.encap, op.now).1) else []
  }

  function EventsOf(c: Conn, ops: seq<Op>): seq<Event> {
    if ops == [] then [] else EventsOf(c, ops[..|ops| - 1]) + OpEvents(Run(c, ops[..|ops| - 1]), ops[|ops| - 1])
  }

  lemma OneOp(c: Conn, op: Op)
    ensures Run(c, [op]) == Apply(c, op) && EventsOf(c, [op]) == OpEvents(c, op)
  {
    assert [op][..0] == [];
    assert Run(c, [op][..0]) == c;
    assert EventsOf(c, [op]) == [] + OpEvents(c, op);
  }

  lemma {:induction false} RunSplit(c: Conn, a: seq<Op>, b: seq<Op>)
    ensures Run(c, a + b) == Run(Run(c, a), b)
    ensures EventsOf(c, a + b) == EventsOf(c, a) + EventsOf(Run(c, a), b)
    decreases |b|
  {
    if b == [] {
      assert a + b == a;
    } else {
      var front := b[..|b| - 1];
      SnocOfSum(a, b);
      RunSplit(c, a, front);
      Regroup(EventsOf(c, a), EventsOf(Run(c, a), front), OpEvents(Run(Run(c, a), front), b[|b| - 1]));
    }
  }

  lemma SnocOfSum(a: seq<Op>, b: seq<Op>)
    requires b != []
    ensures (a + b)[..|a + b| - 1] == a + b[..|b| - 1] && (a + b)[|a + b| - 1] == b[|b| - 1]
  {
  }

  lemma Regroup(a: seq<Event>, b: seq<Event>, c: seq<Event>)
    ensures (a + b) + c == a + (b + c)
  {
  }

  // ----- what a step of the task is for one connection -----

  /** The send a connection that fired accounts for: a frame that could not be built counts as a failed one. */
  function SendOf(datagram: Result<Bytes, EnipError>, send: SendResult): SendResult {
    if datagram.Ok? then send else SendErr(InvalidData)
  }

  function TickOps(c: Conn, now: nat, send: SendResult): seq<Op> {
    var datagram := PollProduce(c, now).1;
    [ProduceOp(now)] + if datagram.Some? then [SendOp(SendOf(datagram.value, send))] else []
  }

  function StepOps(m: Mgr, input: Input, id: u32): seq<Op>
    requires id in m.conns
  {
    match input
    case SetOutput(h, bytes, deadline, now) => if h.id == id && !Manager.Expired(deadline, now) then [OutputOp(bytes)] else []
    case SetRun(target, run) => if target == id then [RunOp(run)] else []
    case Datagram(buf, src, now) => ArrivalOps(m.conns[id], buf, src, now, id)
    case Tick(now, order, sends) => if id in order then TickOps(m.conns[id], now, SendFor(sends, id)) else []
    case _ => []
  }

  function ArrivalOps(c: Conn, buf: Bytes, src: Ip, now: nat, id: u32): seq<Op> {
    var a := Addressed(buf);
    if a.Some? && a.value.0.connectionId == id && src == c.params.expectedSource
    then [ConsumeOp(a.value.1, a.value.0.encapSequence, now)]
    else []
  }

  predicate Rearms(m: Mgr, input: Input, id: u32) {
    input.Add? && input.params.t2oId == id && ManagerStep(m, input).1.Armed?
  }

  /** Everything the task did to the connection under `id` since it was last armed. */
  function OpsOn(inputs: seq<Input>, id: u32): seq<Op> {
    if inputs == [] then []
    else
      var before, input := inputs[..|inputs| - 1], inputs[|inputs| - 1];
      var m := ManagerRun(before);
      if Rearms(m, input, id) then []
      else OpsOn(before, id) + if m.running && id in m.conns then StepOps(m, input, id) else []
  }

  /** The connection `id` was last armed as. */
  function ArmedAs(inputs: seq<Input>, id: u32): Option<Conn> {
    if inputs == [] then None
    else
      var before, input := inputs[..|inputs| - 1], inputs[|inputs| - 1];
      if Rearms(ManagerRun(before), input, id) then Some(NewConn(input.params, input.created)) else ArmedAs(before, id)
  }

  /** Every tick walks the table without meeting a connection twice. */
  predicate WalksOnce(inputs: seq<Input>) {
    forall i :: 0 <= i < |inputs| && inputs[i].Tick? ==> Distinct(inputs[i].order)
  }

  lemma TickIsOps(c: Conn, now: nat, send: SendResult)
    ensures Run(c, TickOps(c, now, send)) == TickConn(c, now, send).0
    ensures EventsOf(c, TickOps(c, now, send)) == []
  {
    var datagram := PollProduce(c, now).1;
    OneOp(c, ProduceOp(now));
    if datagram.Some? {
      var s := SendOp(SendOf(datagram.value, send));
      OneOp(Apply(c, ProduceOp(now)), s);
      RunSplit(c, [ProduceOp(now)], [s]);
    } else {
      assert TickOps(c, now, send) == [ProduceOp(now)];
    }
  }

  lemma {:induction false} LoseAllSpares(m: Mgr, expired: seq<(u32, LostReason)>, id: u32)
    requires id in m.events && forall reason :: (id, reason) !in expired
    ensures id in LoseAll(m, expired).events && LoseAll(m, expired).events[id] == m.events[id]
    decreases expired
  {
    if expired != [] {
      assert expired[0] == (expired[0].0, expired[0].1) && expired[0] in expired;
      LoseAllSpares(LoseOne(m, expired[0].0, expired[0].1), expired[1..], id);
    }
  }

  lemma {:induction false} FanOutSpares(m: Mgr, order: seq<u32>, id: u32)
    requires id in m.events && id in FanOutLost(m, order).conns
    ensures var after := FanOutLost(m, order);
            && id in m.conns && after.conns[id] == m.conns[id]
            && id in after.events && after.events[id] == m.events[id]
    decreases order
  {
    if order != [] {
      if order[0] in m.conns {
        var next := LoseOne(m, order[0], LostIo);
        FanOutShrinks(next, order[1..]);
        FanOutSpares(next, order[1..], id);
      } else {
        FanOutSpares(m, order[1..], id);
      }
    }
  }

  lemma {:induction false} FanOutShrinks(m: Mgr, order: seq<u32>)
    ensures FanOutLost(m, order).conns.Keys <= m.conns.Keys
    decreases order
  {
    if order != [] {
      FanOutShrinks(if order[0] in m.conns then LoseOne(m, order[0], LostIo) else m, order[1..]);
    }
  }

  /** The connection and its stream after some operations. */
  ghost predicate Advanced(m: Mgr, after: Mgr, id: u32, ops: seq<Op>) {
    && id in m.conns && id in m.events && id in after.conns && id in after.events
    && after.conns[id] == Run(m.conns[id], ops)
    && after.events[id] == m.events[id] + EventsOf(m.conns[id], ops)
  }

  lemma Unmoved(m: Mgr, after: Mgr, id: u32)
    requires id in m.conns && id in m.events && id in after.conns && id in after.events
    requires after.conns[id] == m.conns[id] && after.events[id] == m.events[id]
    ensures Advanced(m, after, id, [])
  {
    assert m.events[id] + [] == m.events[id];
  }

  lemma DatagramAdvances(m: Mgr, buf: Bytes, src: Ip, now: nat, id: u32)
    requires id in m.conns && id in m.events
    ensures Advanced(m, TakeIn(m, buf, src, now).0, id, ArrivalOps(m.conns[id], buf, src, now, id))
  {
    var a := Addressed(buf);
    if a.Some? && a.value.0.connectionId == id && src == m.conns[id].params.expectedSource {
      var op := ConsumeOp(a.value.1, a.value.0.encapSequence, now);
      OneOp(m.conns[id], op);
      DatagramConsumed(m, buf, src, now, id);
    } else {
      DatagramElsewhere(m, buf, src, now, id);
      Unmoved(m, TakeIn(m, buf, src, now).0, id);
    }
  }

  /** A datagram for someone else, or from someone else, moves neither the connection nor its stream. */
  lemma DatagramElsewhere(m: Mgr, buf: Bytes, src: Ip, now: nat, id: u32)
    requires id in m.conns && id in m.events && ArrivalOps(m.conns[id], buf, src, now, id) == []
    ensures var after := TakeIn(m, buf, src, now).0;
            && id in after.conns && id in after.events
            && after.conns[id] == m.conns[id] && after.events[id] == m.events[id]
  {
    var fed := m.(streak := OnRecv(m.streak, RecvOk).0);
    RouteElsewhere(fed, buf, src, now, id);
    DeliveredElsewhere(Route(fed, buf, src, now).0, Route(fed, buf, src, now).1, id);
    DeliveredKeepsConns(Route(fed, buf, src, now).0, Route(fed, buf, src, now).1);
  }

  lemma RouteElsewhere(m: Mgr, buf: Bytes, src: Ip, now: nat, id: u32)
    requires id in m.conns && ArrivalOps(m.conns[id], buf, src, now, id) == []
    ensures var (routed, result) := Route(m, buf, src, now);
            && id in routed.conns && routed.conns[id] == m.conns[id] && routed.events == m.events
            && (result.RoutedTo? ==> result.id != id)
  {
  }

  lemma DeliveredElsewhere(m: Mgr, result: Routed, id: u32)
    requires result.RoutedTo? ==> result.id != id
    ensures id in m.events ==> id in Delivered(m, result).events && Delivered(m, result).events[id] == m.events[id]
  {
  }

  /** A datagram from the connection's own target is consumed and announced, and nothing else changes. */
  lemma DatagramConsumed(m: Mgr, buf: Bytes, src: Ip, now: nat, id: u32)
    requires id in m.conns && id in m.events && ArrivalOps(m.conns[id], buf, src, now, id) != []
    ensures var a := Addressed(buf).value;
            var (c, out) := Consume(m.conns[id], a.1, a.0.encapSequence, now);
            TakeIn(m, buf, src, now).0
            == m.(streak := 0, conns := m.conns[id := c], events := m.events[id := m.events[id] + Announced(m.conns[id].params, out)])
  {
    var a := Addressed(buf).value;
    var (c, out) := Consume(m.conns[id], a.1, a.0.encapSequence, now);
    var routed := SetConn(m.(streak := 0), id, c);
    ConsumeKeepsParams(m.conns[id], a.1, a.0.encapSequence, now);
    if out.Accepted? {
      DeliversAnnounced(routed, id, out.first, out.update);
    } else {
      assert m.events == m.events[id := m.events[id] + []] by {
        assert m.events[id] + [] == m.events[id];
      }
    }
  }

  lemma ConsumeKeepsParams(c: Conn, payload: Bytes, encap: u32, now: nat)
    ensures Consume(c, payload, encap, now).0.params == c.params
  {
  }

  lemma DeliversAnnounced(m: Mgr, id: u32, first: bool, update: Update)
    requires id in m.conns && id in m.events
    ensures Deliver(m, id, first, update)
         == m.(events := m.events[id := m.events[id] + Announced(m.conns[id].params, Accepted(first, update))])
  {
    var log, p := m.events[id], m.conns[id].params;
    if first {
      Regroup(log, [Up(p.o2tApi, p.t2oApi)], [Data(update)]);
      SendTwice(m, id, Up(p.o2tApi, p.t2oApi), Data(update));
    } else {
      assert [] + [Data(update)] == [Data(update)];
    }
  }

  lemma SendTwice(m: Mgr, id: u32, a: Event, b: Event)
    requires id in m.events
    ensures SendTo(SendTo(m, id, a), id, b) == m.(events := m.events[id := m.events[id] + [a] + [b]])
  {
    var log := m.events[id];
    assert m.events[id := log + [a]][id := log + [a] + [b]] == m.events[id := log + [a] + [b]];
  }

  lemma TickAdvances(m: Mgr, now: nat, order: seq<u32>, sends: map<u32, SendResult>, id: u32)
    requires id in m.conns && id in m.events && Distinct(order) && id in TickStep(m, now, order, sends).conns
    ensures Advanced(m, TickStep(m, now, order, sends), id,
                     if id in order then TickOps(m.conns[id], now, SendFor(sends, id)) else [])
  {
    TickAllExact(m, now, order, sends);
    var pass := TickAll(m, now, order, sends);
    LoseAllRemoves(pass.m, pass.expired);
    LoseAllSpares(pass.m, pass.expired, id);
    assert m.events[id] + [] == m.events[id];
    if id in order {
      TickIsOps(m.conns[id], now, SendFor(sends, id));
    }
  }

  /** A step that leaves the connection standing did to it, and to its stream, exactly its operations. */
  lemma StepAdvances(m: Mgr, input: Input, id: u32)
    requires m.running && id in m.conns && m.conns.Keys == m.events.Keys
    requires input.Tick? ==> Distinct(input.order)
    requires !Rearms(m, input, id) && id in ManagerStep(m, input).0.conns
    ensures Advanced(m, ManagerStep(m, input).0, id, StepOps(m, input, id))
  {
    var after := ManagerStep(m, input).0;
    match input {
      case SetOutput(h, bytes, deadline, now) =>
        if h.id == id && !Manager.Expired(deadline, now) {
          OneOp(m.conns[id], OutputOp(bytes));
          assert m.events[id] + [] == m.events[id];
        } else {
          Unmoved(m, after, id);
        }
      case SetRun(target, run) =>
        if target == id {
          OneOp(m.conns[id], RunOp(run));
          assert m.events[id] + [] == m.events[id];
        } else {
          Unmoved(m, after, id);
        }
      case Datagram(buf, src, now) =>
        DatagramAdvances(m, buf, src, now, id);
      case Tick(now, order, sends) =>
        TickAdvances(m, now, order, sends, id);
      case RecvFailure(kind, order) =>
        var counted := m.(streak := OnRecv(m.streak, RecvErr(kind)).0, stats := m.stats.(recvErrors := m.stats.recvErrors + 1));
        if ManagerStep(m, input).1.SocketDead? {
          FanOutSpares(counted, order, id);
        }
        Unmoved(m, after, id);
      case Add(p, created, joinOk, openerAlive) =>
        Unmoved(m, after, id);
      case Remove(target) =>
        Unmoved(m, after, id);
      case Shutdown =>
        Unmoved(m, after, id);
    }
  }

  /** A connection that was just armed is new, and nothing was sent on its stream. */
  lemma ArmedIsNew(m: Mgr, input: Input, id: u32)
    requires Rearms(m, input, id)
    ensures var after := ManagerStep(m, input).0;
            && id in after.conns && after.conns[id] == NewConn(input.params, input.created)
            && id in after.events && after.events[id] == []
  {
  }

  lemma TakeInKeepsIds(m: Mgr, buf: Bytes, src: Ip, now: nat)
    ensures TakeIn(m, buf, src, now).0.conns.Keys == m.conns.Keys
  {
    var fed := m.(streak := OnRecv(m.streak, RecvOk).0);
    RouteKeepsIds(fed, buf, src, now);
    DeliveredKeepsConns(Route(fed, buf, src, now).0, Route(fed, buf, src, now).1);
  }

  lemma RouteKeepsIds(m: Mgr, buf: Bytes, src: Ip, now: nat)
    ensures Route(m, buf, src, now).0.conns.Keys == m.conns.Keys
  {
  }

  lemma TickShrinks(m: Mgr, now: nat, order: seq<u32>, sends: map<u32, SendResult>)
    requires Distinct(order)
    ensures TickStep(m, now, order, sends).conns.Keys <= m.conns.Keys
  {
    var pass := TickAll(m, now, order, sends);
    TickAllExact(m, now, order, sends);
    LoseAllRemoves(pass.m, pass.expired);
  }

  /** A connection never comes to stand under an id it was not armed for. */
  lemma NothingAppears(m: Mgr, input: Input, id: u32)
    requires m.conns.Keys == m.events.Keys && id in ManagerStep(m, input).0.conns && !Rearms(m, input, id)
    requires input.Tick? ==> Distinct(input.order)
    ensures id in m.conns
  {
    if m.running {
      match input {
        case Tick(now, order, sends) =>
          TickShrinks(m, now, order, sends);
        case Datagram(buf, src, now) =>
          DatagramStep(m, buf, src, now);
          TakeInKeepsIds(m, buf, src, now);
        case RecvFailure(kind, order) =>
          FanOutShrinks(m.(streak := OnRecv(m.streak, RecvErr(kind)).0, stats := m.stats.(recvErrors := m.stats.recvErrors + 1)), order);
        case _ =>
      }
    }
  }

  /** The connection under `id` is the one armed, after its own operations, and its stream is exactly what those announce. */
  ghost predicate LivesOwnRun(m: Mgr, id: u32, c0: Conn, ops: seq<Op>) {
    && id in m.conns && id in m.events
    && c0.params.t2oId == id
    && m.conns[id] == Run(c0, ops)
    && m.events[id] == EventsOf(c0, ops)
  }

  /** Under any interleaving with any other connections, every connection the task holds lives its own run. */
  lemma {:induction false} EveryConnectionLivesItsRun(inputs: seq<Input>, id: u32)
    requires WalksOnce(inputs) && id in ManagerRun(inputs).conns
    ensures ArmedAs(inputs, id).Some?
    ensures exists p, created :: ArmedAs(inputs, id) == Some(NewConn(p, created))
    ensures LivesOwnRun(ManagerRun(inputs), id, ArmedAs(inputs, id).value, OpsOn(inputs, id))
    decreases |inputs|
  {
    var before, input := inputs[..|inputs| - 1], inputs[|inputs| - 1];
    var m := ManagerRun(before);
    EveryRunIsGood(before);
    if Rearms(m, input, id) {
      ArmedIsNew(m, input, id);
    } else {
      NothingAppears(m, input, id);
      EveryConnectionLivesItsRun(before, id);
      var c0, ops := ArmedAs(before, id).value, OpsOn(before, id);
      if m.running {
        StepAdvances(m, input, id);
        RunSplit(c0, ops, StepOps(m, input, id));
      } else {
        assert ops + [] == ops;
      }
    }
  }

  // ----- what arming and removing do -----

  /** Every other connection, and every other stream, is as it was. */
  ghost predicate OthersUntouched(m: Mgr, after: Mgr, id: u32) {
    forall x :: x != id ==>
      && (x in after.conns <==> x in m.conns) && (x in m.conns ==> after.conns[x] == m.conns[x])
      && (x in after.events <==> x in m.events) && (x in m.events ==> after.events[x] == m.events[x])
  }

  /** Removing takes the connection and its sender out, ends its stream as it stands, and touches no other. */
  lemma RemoveExact(m: Mgr, id: u32)
    requires m.running
    ensures var (after, reply) := ManagerStep(m, Remove(id));
            && reply == Done && after.running
            && id !in after.conns && id !in after.events
            && (id in m.events ==> after.ended == m.ended + [Ended(id, m.events[id])])
            && (id !in m.events ==> after.ended == m.ended)
            && OthersUntouched(m, after, id)
  {
  }

  /** Adding refuses on a failed join and changes nothing; it arms a new connection with an empty stream; and when the opener is gone it leaves nothing under the id. */
  lemma AddExact(m: Mgr, p: Params, created: nat, joinOk: bool, openerAlive: bool)
    requires m.running
    ensures var (after, reply) := ManagerStep(m, Add(p, created, joinOk, openerAlive));
            && (reply == JoinRefused <==> p.group.Some? && !joinOk)
            && (reply == JoinRefused ==> after == m)
            && (reply != JoinRefused ==>
                  && reply == (if openerAlive then Armed else Abandoned)
                  && (openerAlive ==> p.t2oId in after.conns && after.conns[p.t2oId] == NewConn(p, created)
                                      && p.t2oId in after.events && after.events[p.t2oId] == [])
                  && (!openerAlive ==> p.t2oId !in after.conns && p.t2oId !in after.events)
                  && (p.t2oId in m.events ==> Ended(p.t2oId, m.events[p.t2oId]) in after.ended)
                  && OthersUntouched(m, after, p.t2oId))
  {
    var gone := RemoveConnection(m, p.t2oId);
    if p.t2oId in m.events {
      assert gone.ended[|m.ended|] == Ended(p.t2oId, m.events[p.t2oId]);
    }
    if !(p.group.Some? && !joinOk) && !openerAlive {
      var armed := Manager.Insert(m, p, created);
      assert RemoveConnection(armed, p.t2oId).ended[..|armed.ended|] == armed.ended;
      assert armed.ended == gone.ended;
    }
  }

  /** A new connection starts from nothing: sequences at 0, no output, in run, no errors, nothing accepted, every counter at 0. */
  lemma NewConnStartsFromNothing(p: Params, created: nat)
    ensures var c := NewConn(p, created);
            && c.params == p && c.class1Seq == 0 && c.encapSeq == 0 && c.output == [] && c.run
            && c.sendStreak == 0 && c.lastSeq == None && !c.up && c.counters == Counters(0, 0, 0, 0, 0, 0, 0)
  {
  }

  /** A stopped task does nothing more. */
  lemma StoppedStays(m: Mgr, input: Input)
    ensures !m.running ==> ManagerStep(m, input) == (m, Stopped)
    ensures ManagerStep(m, Shutdown) == (m.(running := false), Stopped)
    ensures m.running && !ManagerStep(m, input).0.running ==> input.Shutdown? || ManagerStep(m, input).1.SocketDead?
  {
    if input.Tick? {
      TickKeepsStreak(m, input.now, input.order, input.sends);
      LoseAllKeepsStreak(TickAll(m, input.now, input.order, input.sends).m, TickAll(m, input.now, input.order, input.sends).expired);
    } else if m.running && input.Datagram? {
      DatagramStep(m, input.buf, input.src, input.now);
    }
  }

  /** `id` was removed, and not armed since. */
  predicate RemovedSince(inputs: seq<Input>, id: u32) {
    inputs != []
    && var before, input := inputs[..|inputs| - 1], inputs[|inputs| - 1];
       || (ManagerRun(before).running && input == Remove(id))
       || (RemovedSince(before, id) && !Rearms(ManagerRun(before), input, id))
  }

  /** In every run a removed id stands in neither map until it is armed again, so nothing is produced, consumed or sent for it. */
  lemma {:induction false} RemovedStaysGone(inputs: seq<Input>, id: u32)
    requires WalksOnce(inputs) && RemovedSince(inputs, id)
    ensures id !in ManagerRun(inputs).conns && id !in ManagerRun(inputs).events
    decreases |inputs|
  {
    var before, input := inputs[..|inputs| - 1], inputs[|inputs| - 1];
    var m := ManagerRun(before);
    EveryRunIsGood(before);
    EveryRunIsGood(inputs);
    if m.running && input == Remove(id) {
      RemoveExact(m, id);
    } else {
      RemovedStaysGone(before, id);
      if id in ManagerRun(inputs).conns {
        NothingAppears(m, input, id);
      }
    }
  }

  // ----- why a tick loses a connection -----

  /** A dead transmit path first, then an expired watchdog; nothing the tick itself does moves the deadline. */
  lemma TickConnLoses(c: Conn, now: nat, send: SendResult)
    ensures var (polled, datagram) := PollProduce(c, now);
            var dead := datagram.Some? && RecordSend(polled, SendOf(datagram.value, send)).1.ConnectionDead?;
            TickConn(c, now, send).2 == if dead then Some(LostIo) else if PollWatchdog(c, now) then Some(LostTimeout) else None
  {
  }

  /** The send of this tick is at least the third fatal one since the last that succeeded. */
  predicate SendKills(c: Conn, ops: seq<Op>, now: nat, send: SendResult) {
    var datagram := PollProduce(c, now).1;
    datagram.Some? && FatalSend(SendOf(datagram.value, send))
    && FatalSinceOk(ops) + 1 >= 3
  }

  lemma SendKillsExact(p: Params, created: nat, ops: seq<Op>, now: nat, send: SendResult)
    ensures var c := Run(NewConn(p, created), ops);
            var (polled, datagram) := PollProduce(c, now);
            datagram.Some? ==>
              (RecordSend(polled, SendOf(datagram.value, send)).1.ConnectionDead? <==> SendKills(c, ops, now, send))
  {
    var c0, c := NewConn(p, created), Run(NewConn(p, created), ops);
    var datagram := PollProduce(c, now).1;
    if datagram.Some? {
      var r := SendOf(datagram.value, send);
      var polledOps := ops + [ProduceOp(now)];
      OneOp(c, ProduceOp(now));
      RunSplit(c0, ops, [ProduceOp(now)]);
      ConnectionDeadExact(p, created, polledOps, r);
      assert (polledOps + [SendOp(r)])[..|polledOps|] == polledOps;
      assert polledOps[..|ops|] == ops;
    }
  }

  /** In every run a tick loses a connection to a dead transmit path exactly on the third fatal send since the last good one, and else to the watchdog exactly when nothing was accepted for the whole timeout. */
  lemma TickLosesExactly(inputs: seq<Input>, now: nat, order: seq<u32>, sends: map<u32, SendResult>, id: u32, p: Params, created: nat)
    requires WalksOnce(inputs) && Distinct(order) && id in order && id in ManagerRun(inputs).conns
    requires ArmedAs(inputs, id) == Some(NewConn(p, created)) && ValidTiming(p)
    ensures var m, ops := ManagerRun(inputs), OpsOn(inputs, id);
            var expired := TickAll(m, now, order, sends).expired;
            var killed := SendKills(m.conns[id], ops, now, SendFor(sends, id));
            var last, timeout := LastAlive(NewConn(p, created), created, ops), p.multiplier * p.t2oApi;
            && ((id, LostIo) in expired <==> killed)
            && ((id, LostTimeout) in expired <==>
                  !killed && (now - last >= timeout || (last + timeout > INSTANT_MAX && now >= last)))
  {
    var m, ops := ManagerRun(inputs), OpsOn(inputs, id);
    EveryConnectionLivesItsRun(inputs, id);
    TickAllExact(m, now, order, sends);
    TickConnLoses(m.conns[id], now, SendFor(sends, id));
    SendKillsExact(p, created, ops, now, SendFor(sends, id));
    WatchdogExact(p, created, ops, now);
  }

  predicate DistinctIds(expired: seq<(u32, LostReason)>) {
    forall i, j :: 0 <= i < j < |expired| ==> expired[i].0 != expired[j].0
  }

  lemma {:induction false} ExpiredOnce(m: Mgr, now: nat, order: seq<u32>, sends: map<u32, SendResult>)
    requires Distinct(order)
    ensures var expired := TickAll(m, now, order, sends).expired;
            DistinctIds(expired) && forall i :: 0 <= i < |expired| ==> expired[i].0 in order
    decreases order
  {
    if order != [] {
      var id := order[0];
      assert order == [id] + order[1..] && id !in order[1..];
      if id in m.conns {
        ExpiredOnce(SetConn(m, id, TickConn(m.conns[id], now, SendFor(sends, id)).0), now, order[1..], sends);
      } else {
        ExpiredOnce(m, now, order[1..], sends);
      }
    }
  }

  lemma {:induction false} LoseAllEnds(m: Mgr, expired: seq<(u32, LostReason)>, k: nat)
    requires DistinctIds(expired) && k < |expired| && expired[k].0 in m.events
    ensures m.ended <= LoseAll(m, expired).ended
    ensures Ended(expired[k].0, m.events[expired[k].0] + [Lost(expired[k].1)]) in LoseAll(m, expired).ended
    decreases expired
  {
    var next := LoseOne(m, expired[0].0, expired[0].1);
    LoseAllKeepsEnded(next, expired[1..]);
    if k == 0 {
      assert LoseAll(m, expired).ended[|m.ended|] == Ended(expired[0].0, m.events[expired[0].0] + [Lost(expired[0].1)]);
    } else {
      assert expired[0].0 != expired[k].0;
      LoseAllEnds(next, expired[1..], k - 1);
    }
  }

  lemma {:induction false} LoseAllKeepsEnded(m: Mgr, expired: seq<(u32, LostReason)>)
    ensures m.ended <= LoseAll(m, expired).ended
    decreases expired
  {
    if expired != [] {
      LoseAllKeepsEnded(LoseOne(m, expired[0].0, expired[0].1), expired[1..]);
    }
  }

  /** What a tick loses, it loses with its reason: the stream ends in that `Lost`, after everything sent before. */
  lemma TickEndsStreams(m: Mgr, now: nat, order: seq<u32>, sends: map<u32, SendResult>, id: u32, reason: LostReason)
    requires Distinct(order) && id in m.events && (id, reason) in TickAll(m, now, order, sends).expired
    ensures Ended(id, m.events[id] + [Lost(reason)]) in TickStep(m, now, order, sends).ended
  {
    TickAllExact(m, now, order, sends);
    ExpiredOnce(m, now, order, sends);
    var pass := TickAll(m, now, order, sends);
    var k :| 0 <= k < |pass.expired| && pass.expired[k] == (id, reason);
    LoseAllEnds(pass.m, pass.expired, k);
  }

  // ----- the receive errors of a run -----

  /** What the socket returned, in order, while the task ran. */
  function RecvHistory(inputs: seq<Input>): seq<RecvOutcome> {
    if inputs == [] then []
    else
      var before, input := inputs[..|inputs| - 1], inputs[|inputs| - 1];
      RecvHistory(before)
      + if !ManagerRun(before).running then []
        else match input
          case Datagram(_, _, _) => [RecvOk]
          case RecvFailure(kind, _) => [RecvErr(kind)]
          case _ => []
  }

  lemma {:induction false} TickKeepsStreak(m: Mgr, now: nat, order: seq<u32>, sends: map<u32, SendResult>)
    ensures TickAll(m, now, order, sends).m.streak == m.streak && TickAll(m, now, order, sends).m.running == m.running
    decreases order
  {
    if order != [] {
      if order[0] in m.conns {
        TickKeepsStreak(SetConn(m, order[0], TickConn(m.conns[order[0]], now, SendFor(sends, order[0])).0), now, order[1..], sends);
      } else {
        TickKeepsStreak(m, now, order[1..], sends);
      }
    }
  }

  lemma {:induction false} LoseAllKeepsStreak(m: Mgr, expired: seq<(u32, LostReason)>)
    ensures LoseAll(m, expired).streak == m.streak && LoseAll(m, expired).running == m.running
    decreases expired
  {
    if expired != [] {
      LoseAllKeepsStreak(LoseOne(m, expired[0].0, expired[0].1), expired[1..]);
    }
  }

  lemma {:induction false} FanOutKeepsStreak(m: Mgr, order: seq<u32>)
    ensures FanOutLost(m, order).streak == m.streak
    decreases order
  {
    if order != [] {
      FanOutKeepsStreak(if order[0] in m.conns then LoseOne(m, order[0], LostIo) else m, order[1..]);
    }
  }

  lemma StepStreak(m: Mgr, input: Input)
    requires m.running
    ensures ManagerStep(m, input).0.streak
         == match input
            case Datagram(_, _, _) => 0
            case RecvFailure(kind, _) => OnRecv(m.streak, RecvErr(kind)).0
            case _ => m.streak
  {
    match input {
      case Tick(now, order, sends) =>
        TickKeepsStreak(m, now, order, sends);
        LoseAllKeepsStreak(TickAll(m, now, order, sends).m, TickAll(m, now, order, sends).expired);
      case RecvFailure(kind, order) =>
        FanOutKeepsStreak(m.(streak := OnRecv(m.streak, RecvErr(kind)).0, stats := m.stats.(recvErrors := m.stats.recvErrors + 1)), order);
      case _ =>
    }
  }

  lemma StreakSnoc(h: seq<RecvOutcome>, o: RecvOutcome)
    ensures StreakAfter(h + [o]) == OnRecv(StreakAfter(h), o).0
  {
    assert (h + [o])[..|h|] == h;
  }

  /** In every run the task's streak is that of what its socket returned. */
  lemma {:induction false} StreakIsHistory(inputs: seq<Input>)
    ensures ManagerRun(inputs).streak == StreakAfter(RecvHistory(inputs))
    decreases |inputs|
  {
    if inputs != [] {
      var before, input := inputs[..|inputs| - 1], inputs[|inputs| - 1];
      StreakIsHistory(before);
      if ManagerRun(before).running {
        StepStreak(ManagerRun(before), input);
        if input.Datagram? {
          StreakSnoc(RecvHistory(before), RecvOk);
        } else if input.RecvFailure? {
          StreakSnoc(RecvHistory(before), RecvErr(input.kind));
        } else {
          assert RecvHistory(before) + [] == RecvHistory(before);
        }
      } else {
        assert RecvHistory(before) + [] == RecvHistory(before);
      }
    }
  }

  /** In every run a running task declares its socket dead exactly when the last three receives, this one included, all failed for good. */
  lemma SocketDeadExact(inputs: seq<Input>, kind: ErrorKind, order: seq<u32>)
    requires ManagerRun(inputs).running
    ensures var h := RecvHistory(inputs) + [RecvErr(kind)];
            ManagerStep(ManagerRun(inputs), RecvFailure(kind, order)).1.SocketDead?
            <==> |h| >= 3 && FatalRecv(h[|h| - 1]) && FatalRecv(h[|h| - 2]) && FatalRecv(h[|h| - 3])
  {
    StreakIsHistory(inputs);
    FatalSocketExact(RecvHistory(inputs), RecvErr(kind));
  }
}
