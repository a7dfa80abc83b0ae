/** The routing table over connection objects: the in-place form of `Manager.Route` (io.rs). */
module Registry {
  import opened Prelude
  import opened ConnectionState
  import opened Connection
  import opened Manager
  import opened EventQueue
  import opened Errors
  import Cpf

  /** The part of the task's state that routing reads and writes. */
  function RoutingState(conns: map<u32, Conn>, stats: Stats): Mgr {
    INITIAL.(conns := conns, stats := stats)
  }

  /** `Manager.Route` turns the table and its counters into exactly these, with this verdict. */
  ghost predicate RouteGives(before: Mgr, buf: Bytes, src: Ip, now: nat, conns: map<u32, Conn>, stats: Stats, r: Routed) {
    var (after, result) := Route(before, buf, src, now);
    conns == after.conns && stats == after.stats && r == result
  }

  lemma RouteMalformed(m: Mgr, buf: Bytes, src: Ip, now: nat)
    requires Addressed(buf).None?
    ensures RouteGives(m, buf, src, now, m.conns, m.stats.(malformed := m.stats.malformed + 1), NotRouted(None, MalformedDatagram))
  {
  }

  lemma RouteUnknown(m: Mgr, buf: Bytes, src: Ip, now: nat, id: u32)
    requires Addressed(buf).Some? && Addressed(buf).value.0.connectionId == id && id !in m.conns
    ensures RouteGives(m, buf, src, now, m.conns, m.stats.(unknownConnection := m.stats.unknownConnection + 1), NotRouted(Some(id), UnknownConnection))
  {
  }

  lemma RouteForeign(m: Mgr, buf: Bytes, src: Ip, now: nat, id: u32)
    requires Addressed(buf).Some? && Addressed(buf).value.0.connectionId == id && id in m.conns
    requires src != m.conns[id].params.expectedSource
    ensures RouteGives(m, buf, src, now, m.conns, m.stats.(sourceMismatch := m.stats.sourceMismatch + 1), NotRouted(Some(id), SourceMismatch))
  {
  }

  function Verdict(id: u32, out: ConsumeOutcome): Routed {
    match out
    case Accepted(first, update) => RoutedTo(id, first, update)
    case DroppedFrame(reason) => NotRouted(Some(id), reason)
  }

  lemma RouteConsumed(m: Mgr, buf: Bytes, src: Ip, now: nat, addr: Cpf.SeqAddr, payload: Bytes)
    requires Addressed(buf) == Some((addr, payload)) && addr.connectionId in m.conns
    requires src == m.conns[addr.connectionId].params.expectedSource
    ensures var id := addr.connectionId;
            var (c, out) := Consume(m.conns[id], payload, addr.encapSequence, now);
            RouteGives(m, buf, src, now, m.conns[id := c], m.stats, Verdict(id, out))
  {
  }

  /** The task-wide counters, shared with every handle. */
  class ManagerCounters {
    var malformed: nat
    var unknownConnection: nat
    var sourceMismatch: nat
    var recvErrors: nat

    ghost function Snapshot(): Stats
      reads this
    {
      Stats(malformed, unknownConnection, sourceMismatch, recvErrors)
    }

    constructor ()
      ensures Snapshot() == INITIAL.stats
    {
      malformed, unknownConnection, sourceMismatch, recvErrors := 0, 0, 0, 0;
    }
  }

  class RoutingTable {
    var conns: map<u32, IoConnection>
    const stats: ManagerCounters

    constructor (stats: ManagerCounters)
      ensures Valid() && View() == map[] && this.stats == stats
    {
      conns := map[];
      this.stats := stats;
    }

    /** The table owns its connections: no object stands under two ids. */
    ghost predicate Valid()
      reads this
    {
      forall a, b :: a in conns && b in conns && a != b ==> conns[a] != conns[b]
    }

    ghost function View(): map<u32, Conn>
      reads this, conns.Values
    {
      map id | id in conns :: conns[id].State()
    }

    method ConsumeDatagram(buf: Bytes, src: Ip, now: nat) returns (r: Routed)
      requires Valid()
      modifies stats, conns.Values
      ensures Valid() && conns == old(conns)
      ensures RouteGives(RoutingState(old(View()), old(stats.Snapshot())), buf, src, now, View(), stats.Snapshot(), r)
    {
      ghost var m := RoutingState(View(), stats.Snapshot());
      var parsed := ParseDatagram(buf);
      if parsed.None? {
        RouteMalformed(m, buf, src, now);
        stats.malformed := stats.malformed + 1;
        return NotRouted(None, MalformedDatagram);
      }
      r := ConsumeAddressed(buf, parsed.value.0, parsed.value.1, src, now);
    }

    method ConsumeAddressed(ghost buf: Bytes, addr: Cpf.SeqAddr, payload: Bytes, src: Ip, now: nat) returns (r: Routed)
      requires Valid() && Addressed(buf) == Some((addr, payload))
      modifies stats, conns.Values
      ensures Valid() && conns == old(conns)
      ensures RouteGives(RoutingState(old(View()), old(stats.Snapshot())), buf, src, now, View(), stats.Snapshot(), r)
    {
      ghost var m := RoutingState(View(), stats.Snapshot());
      var id := addr.connectionId;
      assert id in conns <==> id in m.conns;
      if id !in conns {
        RouteUnknown(m, buf, src, now, id);
        stats.unknownConnection := stats.unknownConnection + 1;
        return NotRouted(Some(id), UnknownConnection);
      }
      r := ConsumeKnown(buf, addr, payload, src, now);
    }

    method ConsumeKnown(ghost buf: Bytes, addr: Cpf.SeqAddr, payload: Bytes, src: Ip, now: nat) returns (r: Routed)
      requires Valid() && Addressed(buf) == Some((addr, payload)) && addr.connectionId in conns
      modifies stats, conns[addr.connectionId]
      ensures Valid()
      ensures RouteGives(RoutingState(old(View()), old(stats.Snapshot())), buf, src, now, View(), stats.Snapshot(), r)
    {
      ghost var m := RoutingState(View(), stats.Snapshot());
      var id := addr.connectionId;
      assert m.conns[id] == conns[id].State();
      if src != conns[id].params.expectedSource {
        RouteForeign(m, buf, src, now, id);
        stats.sourceMismatch := stats.sourceMismatch + 1;
        return NotRouted(Some(id), SourceMismatch);
      }
      RouteConsumed(m, buf, src, now, addr, payload);
      r := ConsumeOn(id, payload, addr.encapSequence, now);
    }

    /** When one connection changes, the view changes at its id and nowhere else. */
    twostate lemma OneChanged(id: u32)
      requires Valid() && conns == old(conns) && id in conns
      requires forall other :: other in conns && other != id ==> conns[other].State() == old(conns[other].State())
      ensures id in old(View()) && old(View())[id] == old(conns[id].State())
      ensures View() == old(View())[id := conns[id].State()]
    {
    }

    method ConsumeOn(id: u32, payload: Bytes, encap: u32, now: nat) returns (r: Routed)
      requires Valid() && id in conns
      modifies conns[id]
      ensures Valid()
      ensures View() == old(View())[id := Consume(old(View())[id], payload, encap, now).0]
      ensures r == Verdict(id, Consume(old(View())[id], payload, encap, now).1)
    {
      var out := conns[id].ConsumePayload(payload, encap, now);
      OneChanged(id);
      r := match out
        case Accepted(first, update) => RoutedTo(id, first, update)
        case DroppedFrame(reason) => NotRouted(Some(id), reason);
    }

    /** One connection's share of a tick: produce, account the send, then the watchdog. */
    method TickOn(id: u32, now: nat, send: SendResult) returns (datagram: Option<Result<Bytes, EnipError>>, lost: Option<LostReason>)
      requires Valid() && id in conns
      modifies conns[id]
      ensures Valid()
      ensures View() == old(View())[id := TickConn(old(View())[id], now, send).0]
      ensures (datagram, lost) == (TickConn(old(View())[id], now, send).1, TickConn(old(View())[id], now, send).2)
    {
      datagram, lost := TickObject(conns[id], now, send);
      OneChanged(id);
    }

    static method TickObject(conn: IoConnection, now: nat, send: SendResult) returns (datagram: Option<Result<Bytes, EnipError>>, lost: Option<LostReason>)
      modifies conn
      ensures (conn.State(), datagram, lost) == TickConn(old(conn.State()), now, send)
    {
      datagram := conn.Poll(now);
      if datagram.Some? {
        var outcome := conn.AccountSend(if datagram.value.Ok? then send else SendErr(InvalidData));
        if outcome.ConnectionDead? {
          return datagram, Some(LostIo);
        }
      }
      lost := if conn.Expired(now) then Some(LostTimeout) else None;
    }

    static method ApplyTo(conn: IoConnection, op: Op)
      requires op.OutputOp? || op.RunOp?
      modifies conn
      ensures conn.State() == Apply(old(conn.State()), op)
    {
      match op
      case OutputOp(bytes) => conn.SetOutput(bytes);
      case RunOp(run) => conn.SetRun(run);
    }

    /** Changes nothing when the id is not held. */
    method ApplyOn(id: u32, op: Op)
      requires Valid() && (op.OutputOp? || op.RunOp?)
      modifies conns.Values
      ensures Valid()
      ensures View() == if id in old(View()) then old(View())[id := Apply(old(View())[id], op)] else old(View())
    {
      if id in conns {
        ApplyTo(conns[id], op);
        OneChanged(id);
      }
    }

    /** Takes a fresh connection in, in place of whatever stood under its id. */
    method Put(p: Params, created: nat)
      requires Valid()
      modifies this
      ensures Valid()
      ensures View() == old(View())[p.t2oId := NewConn(p, created)]
    {
      ghost var before := View();
      var conn := new IoConnection(p, created);
      conns := conns[p.t2oId := conn];
      assert conn.State() == NewConn(p, created);
      assert forall id :: id in before ==> before[id] == old(conns[id].State());
      assert View() == before[p.t2oId := NewConn(p, created)];
    }

    method Drop(id: u32)
      requires Valid()
      modifies this
      ensures Valid() && conns == old(conns) - {id}
      ensures View() == old(View()) - {id}
    {
      ghost var before := View();
      conns := conns - {id};
      forall other | other in conns ensures conns[other].State() == before[other] {
      }
      assert View() == before - {id};
    }

    method ParseDatagram(buf: Bytes) returns (r: Option<(Cpf.SeqAddr, Bytes)>)
      ensures r == Addressed(buf)
    {
      var decoded := Cpf.DecodeBuffer(buf);
      if decoded.Err? {
        return None;
      }
      var addrItem, dataItem := Cpf.Find(decoded.value, Cpf.SequencedAddress), Cpf.Find(decoded.value, Cpf.ConnectedData);
      if addrItem.None? || dataItem.None? {
        return None;
      }
      var addr := Cpf.DecodeSeqAddr(addrItem.value);
      r := if addr.Err? then None else Some((addr.value, dataItem.value));
    }
  }
}
