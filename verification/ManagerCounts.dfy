/** Every datagram is counted once: per datagram, and over whole runs (io.rs). */
module ManagerCounts {
  import opened Prelude
  import opened ConnectionState
  import opened EventQueue
  import opened SocketErrors
  import opened Manager
  import opened Watchdog
  import opened ManagerStreams
  import Cpf

  /** Datagrams a connection has judged. */
  function Judged(c: Conn): nat {
    c.counters.framesAccepted + c.counters.sizeMismatch + c.counters.staleFrames
  }

  ghost function JudgedLive(conns: map<u32, Conn>): nat {
    if conns == map[] then 0
    else
      var id :| id in conns;
      Judged(conns[id]) + JudgedLive(conns - {id})
  }

  function JudgedRetired(retired: seq<Conn>): nat {
    if retired == [] then 0 else JudgedRetired(retired[..|retired| - 1]) + Judged(retired[|retired| - 1])
  }

  /** The sum of every counter a datagram can land on, over the task and all its connections, removed ones included. */
  ghost function Counted(m: Mgr): nat {
    m.stats.malformed + m.stats.unknownConnection + m.stats.sourceMismatch + JudgedLive(m.conns) + JudgedRetired(m.retired)
  }

  lemma {:induction false} JudgedWithout(conns: map<u32, Conn>, id: u32)
    requires id in conns
    ensures JudgedLive(conns) == Judged(conns[id]) + JudgedLive(conns - {id})
    decreases |conns|
  {
    var k :| k in conns && JudgedLive(conns) == Judged(conns[k]) + JudgedLive(conns - {k});
    if k != id {
      JudgedWithout(conns - {k}, id);
      JudgedWithout(conns - {id}, k);
      assert conns - {k} - {id} == conns - {id} - {k};
    }
  }

  lemma JudgedUpdate(conns: map<u32, Conn>, id: u32, c: Conn)
    ensures JudgedLive(conns[id := c]) == JudgedLive(conns - {id}) + Judged(c)
  {
    JudgedWithout(conns[id := c], id);
    assert conns[id := c] - {id} == conns - {id};
  }

  lemma JudgedAbsent(conns: map<u32, Conn>, id: u32)
    requires id !in conns
    ensures conns - {id} == conns
  {
  }

  // ----- one datagram -----

  lemma ConsumeJudgesOnce(c: Conn, payload: Bytes, encap: u32, now: nat)
    ensures Judged(Consume(c, payload, encap, now).0) == Judged(c) + 1
  {
  }

  /** Routing raises the sum by exactly one. */
  lemma RouteCountsOnce(m: Mgr, buf: Bytes, src: Ip, now: nat)
    ensures Counted(Route(m, buf, src, now).0) == Counted(m) + 1
  {
    var (after, result) := Route(m, buf, src, now);
    RouteOutcome(m, buf, src, now);
    RoutedCountsOnce(m, after, result, now);
  }

  lemma RoutedCountsOnce(m: Mgr, after: Mgr, result: Routed, now: nat)
    requires RouteFacts(m, after, result, now)
    ensures Counted(after) == Counted(m) + 1
  {
    if result.RoutedTo? {
      var payload, encap :| Consumed(m, after, result, result.id, payload, encap, now);
      ConsumedCountsOnce(m, after, result, result.id, payload, encap, now);
    } else if result.reason.SizeMismatch? || result.reason.Stale? {
      var payload, encap :| Consumed(m, after, result, result.addressed.value, payload, encap, now);
      ConsumedCountsOnce(m, after, result, result.addressed.value, payload, encap, now);
    }
  }

  lemma ConsumedCountsOnce(m: Mgr, after: Mgr, result: Routed, id: u32, payload: Bytes, encap: u32, now: nat)
    requires Consumed(m, after, result, id, payload, encap, now)
    ensures Counted(after) == Counted(m) + 1
  {
    ConsumeJudgesOnce(m.conns[id], payload, encap, now);
    JudgedUpdate(m.conns, id, Consume(m.conns[id], payload, encap, now).0);
    JudgedWithout(m.conns, id);
  }

  /** Routing touches no connection but the addressed one, and shows no life unless the frame is accepted. */
  lemma RouteTouchesOnlyAddressed(m: Mgr, buf: Bytes, src: Ip, now: nat)
    ensures var (after, result) := Route(m, buf, src, now);
            && after.conns.Keys == m.conns.Keys
            && (forall id :: id in m.conns && after.conns[id] != m.conns[id] ==>
                  if result.RoutedTo? then id == result.id else result.addressed == Some(id))
            && (!result.RoutedTo? ==> forall id :: id in m.conns ==>
                  && after.conns[id].lastSeq == m.conns[id].lastSeq
                  && after.conns[id].up == m.conns[id].up
                  && after.conns[id].deadline == m.conns[id].deadline)
  {
    var (after, result) := Route(m, buf, src, now);
    RouteOutcome(m, buf, src, now);
    RoutedTouchesOnlyAddressed(m, after, result, now);
  }

  lemma RoutedTouchesOnlyAddressed(m: Mgr, after: Mgr, result: Routed, now: nat)
    requires RouteFacts(m, after, result, now)
    ensures after.conns.Keys == m.conns.Keys
    ensures forall id :: id in m.conns && after.conns[id] != m.conns[id] ==>
              if result.RoutedTo? then id == result.id else result.addressed == Some(id)
    ensures !result.RoutedTo? ==> forall id :: id in m.conns ==>
              && after.conns[id].lastSeq == m.conns[id].lastSeq
              && after.conns[id].up == m.conns[id].up
              && after.conns[id].deadline == m.conns[id].deadline
  {
    if result.RoutedTo? {
      var payload, encap :| Consumed(m, after, result, result.id, payload, encap, now);
    } else if result.reason.SizeMismatch? || result.reason.Stale? {
      var payload, encap :| Consumed(m, after, result, result.addressed.value, payload, encap, now);
      DropChangesNoLiveness(m.conns[result.addressed.value], payload, encap, now);
    }
  }

  /** A datagram from anyone but the addressed connection's own target changes no connection at all. */
  lemma ForeignSourceChangesNothing(m: Mgr, buf: Bytes, src: Ip, now: nat)
    requires var a := Addressed(buf);
             a.Some? && a.value.0.connectionId in m.conns ==> m.conns[a.value.0.connectionId].params.expectedSource != src
    ensures Route(m, buf, src, now).0.conns == m.conns
    ensures !Route(m, buf, src, now).1.RoutedTo?
  {
  }

  lemma RemoveKeepsCount(m: Mgr, id: u32)
    ensures Counted(RemoveConnection(m, id)) == Counted(m)
  {
    if id in m.conns {
      JudgedWithout(m.conns, id);
      var r := m.retired + [m.conns[id]];
      assert r[..|r| - 1] == m.retired;
    } else {
      JudgedAbsent(m.conns, id);
    }
  }

  lemma SetConnKeepsCount(m: Mgr, id: u32, c: Conn)
    requires id in m.conns && Judged(c) == Judged(m.conns[id])
    ensures Counted(SetConn(m, id, c)) == Counted(m)
  {
    JudgedUpdate(m.conns, id, c);
    JudgedWithout(m.conns, id);
  }

  lemma InsertKeepsCount(m: Mgr, p: Params, created: nat)
    ensures Counted(Insert(m, p, created)) == Counted(m)
  {
    RemoveKeepsCount(m, p.t2oId);
    var gone := RemoveConnection(m, p.t2oId);
    JudgedUpdate(gone.conns, p.t2oId, NewConn(p, created));
    JudgedAbsent(gone.conns, p.t2oId);
  }

  lemma SendKeepsCount(m: Mgr, id: u32, ev: Event)
    ensures Counted(SendTo(m, id, ev)) == Counted(m)
  {
  }

  lemma LoseKeepsCount(m: Mgr, id: u32, reason: LostReason)
    ensures Counted(LoseOne(m, id, reason)) == Counted(m)
  {
    SendKeepsCount(m, id, Lost(reason));
    RemoveKeepsCount(SendTo(m, id, Lost(reason)), id);
  }

  lemma TickConnJudgesNothing(c: Conn, now: nat, send: SendResult)
    ensures Judged(TickConn(c, now, send).0) == Judged(c)
  {
  }

  lemma {:induction false} TickAllKeepsCount(m: Mgr, now: nat, order: seq<u32>, sends: map<u32, SendResult>)
    ensures Counted(TickAll(m, now, order, sends).m) == Counted(m)
    decreases order
  {
    if order != [] {
      var id := order[0];
      if id in m.conns {
        var c := TickConn(m.conns[id], now, SendFor(sends, id)).0;
        TickConnJudgesNothing(m.conns[id], now, SendFor(sends, id));
        SetConnKeepsCount(m, id, c);
        TickAllKeepsCount(SetConn(m, id, c), now, order[1..], sends);
      } else {
        TickAllKeepsCount(m, now, order[1..], sends);
      }
    }
  }

  lemma {:induction false} LoseAllKeepsCount(m: Mgr, expired: seq<(u32, LostReason)>)
    ensures Counted(LoseAll(m, expired)) == Counted(m)
    decreases expired
  {
    if expired != [] {
      LoseKeepsCount(m, expired[0].0, expired[0].1);
      LoseAllKeepsCount(LoseOne(m, expired[0].0, expired[0].1), expired[1..]);
    }
  }

  lemma {:induction false} FanOutKeepsCount(m: Mgr, order: seq<u32>)
    ensures Counted(FanOutLost(m, order)) == Counted(m)
    decreases order
  {
    if order != [] {
      if order[0] in m.conns {
        LoseKeepsCount(m, order[0], LostIo);
        FanOutKeepsCount(LoseOne(m, order[0], LostIo), order[1..]);
      } else {
        FanOutKeepsCount(m, order[1..]);
      }
    }
  }

  lemma StepCounts(m: Mgr, input: Input)
    ensures Counted(ManagerStep(m, input).0) == Counted(m) + if m.running && input.Datagram? then 1 else 0
  {
    if m.running {
      match input {
        case Add(p, created, joinOk, openerAlive) =>
          InsertKeepsCount(m, p, created);
          RemoveKeepsCount(Insert(m, p, created), p.t2oId);
        case SetOutput(h, bytes, deadline, now) =>
          if h.id in m.conns {
            SetConnKeepsCount(m, h.id, m.conns[h.id].(output := bytes));
          }
        case SetRun(id, run) =>
          if id in m.conns {
            SetConnKeepsCount(m, id, m.conns[id].(run := run));
          }
        case Remove(id) => RemoveKeepsCount(m, id);
        case Shutdown =>
        case Datagram(buf, src, now) =>
          var fed := m.(streak := OnRecv(m.streak, RecvOk).0);
          RouteCountsOnce(fed, buf, src, now);
          var (routed, result) := Route(fed, buf, src, now);
          DeliverKeepsCount(routed, result);
        case RecvFailure(kind, order) =>
          FanOutKeepsCount(m.(streak := OnRecv(m.streak, RecvErr(kind)).0, stats := m.stats.(recvErrors := m.stats.recvErrors + 1)), order);
        case Tick(now, order, sends) =>
          TickAllKeepsCount(m, now, order, sends);
          LoseAllKeepsCount(TickAll(m, now, order, sends).m, TickAll(m, now, order, sends).expired);
      }
    }
  }

  lemma DeliverKeepsCount(m: Mgr, result: Routed)
    ensures Counted(Delivered(m, result)) == Counted(m)
  {
  }

  // ----- each counter of the task -----

  /** A datagram is addressed exactly when its items decode, one is a sequenced address that reads, and one is connected data; then by that address, with that data. */
  lemma AddressedExact(buf: Bytes)
    ensures Cpf.Decode(buf).Err? ==> Addressed(buf) == None
    ensures Cpf.Decode(buf).Ok? ==>
              var items := Cpf.Decode(buf).value;
              var addrItem, dataItem := Cpf.Find(items, Cpf.SequencedAddress), Cpf.Find(items, Cpf.ConnectedData);
              && (addrItem.None? || dataItem.None? ==> Addressed(buf) == None)
              && (addrItem.Some? && dataItem.Some? && Cpf.DecodeSeqAddr(addrItem.value).Err? ==> Addressed(buf) == None)
              && (addrItem.Some? && dataItem.Some? ==> forall a :: Cpf.DecodeSeqAddr(addrItem.value) == Ok(a) ==> Addressed(buf) == Some((a, dataItem.value)))
  {
  }

  /** The counter a datagram belongs on, if any: by its address, the registry and its source. */
  function TallyDatagram(t: Stats, m: Mgr, buf: Bytes, src: Ip): Stats {
    match Addressed(buf)
    case None => t.(malformed := t.malformed + 1)
    case Some((addr, _)) =>
      if addr.connectionId !in m.conns then t.(unknownConnection := t.unknownConnection + 1)
      else if m.conns[addr.connectionId].params.expectedSource != src then t.(sourceMismatch := t.sourceMismatch + 1)
      else t
  }

  /** What the task's own counters should read, from the inputs and the registry as each arrived. */
  function Tallied(inputs: seq<Input>): Stats {
    if inputs == [] then Stats(0, 0, 0, 0)
    else
      var before, input := inputs[..|inputs| - 1], inputs[|inputs| - 1];
      var m, t := ManagerRun(before), Tallied(before);
      if !m.running then t
      else match input
        case Datagram(buf, src, _) => TallyDatagram(t, m, buf, src)
        case RecvFailure(_, _) => t.(recvErrors := t.recvErrors + 1)
        case _ => t
  }

  lemma {:induction false} TickAllKeepsStats(m: Mgr, now: nat, order: seq<u32>, sends: map<u32, SendResult>)
    ensures TickAll(m, now, order, sends).m.stats == m.stats
    decreases order
  {
    if order != [] {
      if order[0] in m.conns {
        TickAllKeepsStats(SetConn(m, order[0], TickConn(m.conns[order[0]], now, SendFor(sends, order[0])).0), now, order[1..], sends);
      } else {
        TickAllKeepsStats(m, now, order[1..], sends);
      }
    }
  }

  lemma {:induction false} LoseAllKeepsStats(m: Mgr, expired: seq<(u32, LostReason)>)
    ensures LoseAll(m, expired).stats == m.stats
    decreases expired
  {
    if expired != [] {
      LoseAllKeepsStats(LoseOne(m, expired[0].0, expired[0].1), expired[1..]);
    }
  }

  lemma {:induction false} FanOutKeepsStats(m: Mgr, order: seq<u32>)
    ensures FanOutLost(m, order).stats == m.stats
    decreases order
  {
    if order != [] {
      if order[0] in m.conns {
        FanOutKeepsStats(LoseOne(m, order[0], LostIo), order[1..]);
      } else {
        FanOutKeepsStats(m, order[1..]);
      }
    }
  }

  lemma RouteTallies(m: Mgr, buf: Bytes, src: Ip, now: nat)
    ensures Route(m, buf, src, now).0.stats == TallyDatagram(m.stats, m, buf, src)
  {
  }

  lemma DeliveredKeepsStats(m: Mgr, result: Routed)
    ensures Delivered(m, result).stats == m.stats
  {
  }

  lemma TakeInTallies(m: Mgr, buf: Bytes, src: Ip, now: nat)
    ensures TakeIn(m, buf, src, now).0.stats == TallyDatagram(m.stats, m, buf, src)
  {
    var fed := m.(streak := OnRecv(m.streak, RecvOk).0);
    RouteTallies(fed, buf, src, now);
    DeliveredKeepsStats(Route(fed, buf, src, now).0, Route(fed, buf, src, now).1);
  }

  /** A step that brings in no datagram moves at most the count of failed receives. */
  lemma OtherStepsKeepStats(m: Mgr, input: Input)
    requires m.running && !input.Datagram?
    ensures ManagerStep(m, input).0.stats == if input.RecvFailure? then m.stats.(recvErrors := m.stats.recvErrors + 1) else m.stats
  {
    match input {
      case Add(p, created, joinOk, openerAlive) =>
      case SetOutput(h, bytes, deadline, now) =>
      case SetRun(id, run) =>
      case Remove(id) =>
      case Shutdown =>
      case RecvFailure(kind, order) =>
        FanOutKeepsStats(m.(streak := OnRecv(m.streak, RecvErr(kind)).0, stats := m.stats.(recvErrors := m.stats.recvErrors + 1)), order);
      case Tick(now, order, sends) =>
        TickAllKeepsStats(m, now, order, sends);
        LoseAllKeepsStats(TickAll(m, now, order, sends).m, TickAll(m, now, order, sends).expired);
    }
  }

  /** Over every run each of the task's counters counts its own: datagrams without an address, for a connection not held, from another source, and failed receives. */
  lemma {:induction false} StatsExact(inputs: seq<Input>)
    ensures ManagerRun(inputs).stats == Tallied(inputs)
    decreases |inputs|
  {
    if inputs != [] {
      var before := inputs[..|inputs| - 1];
      StatsExact(before);
      var m, input := ManagerRun(before), inputs[|inputs| - 1];
      if m.running && input.Datagram? {
        DatagramStep(m, input.buf, input.src, input.now);
        TakeInTallies(m, input.buf, input.src, input.now);
      } else if m.running {
        OtherStepsKeepStats(m, input);
      }
    }
  }

  // ----- whole runs -----

  /** Datagrams the task received while it ran. */
  function Datagrams(inputs: seq<Input>): nat {
    if inputs == [] then 0
    else
      var before := inputs[..|inputs| - 1];
      Datagrams(before) + if ManagerRun(before).running && inputs[|inputs| - 1].Datagram? then 1 else 0
  }

  /** Over every run, each datagram received is on exactly one counter. */
  lemma {:induction false} EveryDatagramCounted(inputs: seq<Input>)
    ensures Counted(ManagerRun(inputs)) == Datagrams(inputs)
    decreases |inputs|
  {
    if inputs != [] {
      EveryDatagramCounted(inputs[..|inputs| - 1]);
      StepCounts(ManagerRun(inputs[..|inputs| - 1]), inputs[|inputs| - 1]);
    }
  }
}
