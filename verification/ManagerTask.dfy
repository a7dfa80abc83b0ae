/** The manager task over its routing table and sender map: each branch of its loop does what `Manager.ManagerStep` says (io.rs). */
module ManagerTask {
  import opened Prelude
  import opened ConnectionState
  import opened EventQueue
  import opened SocketErrors
  import opened Manager
  import opened Registry

  /** Routing looks only at the table and its counters. */
  lemma RouteElsewhere(m: Mgr, buf: Bytes, src: Ip, now: nat, conns: map<u32, Conn>, stats: Stats, r: Routed)
    requires RouteGives(RoutingState(m.conns, m.stats), buf, src, now, conns, stats, r)
    ensures Route(m, buf, src, now) == (m.(conns := conns, stats := stats), r)
  {
  }

  /** A pass over the rest of the connections, after what the first ones gave. */
  function After(expired: seq<(u32, LostReason)>, frames: seq<Produced>, rest: TickPass): TickPass {
    TickPass(rest.m, expired + rest.expired, frames + rest.frames)
  }

  lemma AfterNothing(rest: TickPass)
    ensures After([], [], rest) == rest
  {
    assert [] + rest.expired == rest.expired && [] + rest.frames == rest.frames;
  }

  lemma AfterOneMore(e: seq<(u32, LostReason)>, f: seq<Produced>, e': seq<(u32, LostReason)>, f': seq<Produced>, rest: TickPass)
    ensures After(e, f, After(e', f', rest)) == After(e + e', f + f', rest)
  {
    assert e + (e' + rest.expired) == (e + e') + rest.expired;
    assert f + (f' + rest.frames) == (f + f') + rest.frames;
  }

  /** Arming writes both maps at the id and keeps what stood there for the accounts. */
  lemma Inserted(m: Mgr, p: Params, created: nat)
    ensures var after := Manager.Insert(m, p, created);
            after == m.(conns := m.conns[p.t2oId := NewConn(p, created)], events := m.events[p.t2oId := []],
                        ended := after.ended, retired := after.retired)
  {
    UpdateIgnoresRemoval(m.conns, p.t2oId, NewConn(p, created));
    UpdateIgnoresRemoval(m.events, p.t2oId, []);
  }

  lemma UpdateIgnoresRemoval<V>(m: map<u32, V>, id: u32, v: V)
    ensures (m - {id})[id := v] == m[id := v]
  {
  }

  class Task {
    const table: RoutingTable
    const policy: RecvErrorPolicy
    var events: map<u32, seq<Event>>
    var running: bool
    // what removal drops, for whole-run accounts
    ghost var ended: seq<Ended>
    ghost var retired: seq<Conn>

    ghost predicate Valid()
      reads this, table
    {
      table.Valid()
    }

    ghost function State(): Mgr
      reads this, table, policy, table.stats, table.conns.Values
    {
      Mgr(table.View(), events, ended, retired, table.stats.Snapshot(), policy.consecutiveFatal, running)
    }

    constructor ()
      ensures Valid() && State() == INITIAL
    {
      var stats := new ManagerCounters();
      table := new RoutingTable(stats);
      policy := new RecvErrorPolicy();
      events, running, ended, retired := map[], true, [], [];
    }

    method Send(id: u32, ev: Event)
      modifies this`events
      ensures State() == SendTo(old(State()), id, ev)
    {
      if id in events {
        events := events[id := events[id] + [ev]];
      }
    }

    method Unregister(id: u32)
      requires Valid()
      modifies this, table
      ensures Valid() && table.conns == old(table.conns) - {id}
      ensures State() == RemoveConnection(old(State()), id)
    {
      ghost var goal := RemoveConnection(State(), id);
      table.Drop(id);
      SetStreams(events - {id}, goal);
    }

    /** Writes the sender map, and what the accounts keep of a removal. */
    method SetStreams(live: map<u32, seq<Event>>, ghost goal: Mgr)
      modifies this
      ensures State() == old(State()).(events := live, ended := goal.ended, retired := goal.retired)
    {
      events := live;
      ended, retired := goal.ended, goal.retired;
    }

    method Lose(id: u32, reason: LostReason)
      requires Valid()
      modifies this, table
      ensures Valid() && table.conns == old(table.conns) - {id}
      ensures State() == LoseOne(old(State()), id, reason)
    {
      Send(id, Lost(reason));
      Unregister(id);
    }

    method OnAdd(p: Params, created: nat, joinOk: bool, openerAlive: bool) returns (reply: Reply)
      requires Valid() && running
      modifies this, table
      ensures Valid()
      ensures (State(), reply) == ManagerStep(old(State()), Add(p, created, joinOk, openerAlive))
    {
      if p.group.Some? && !joinOk {
        return JoinRefused;
      }
      Arm(p, created);
      if !openerAlive {
        Unregister(p.t2oId);
        return Abandoned;
      }
      reply := Armed;
    }

    method Arm(p: Params, created: nat)
      requires Valid()
      modifies this, table
      ensures Valid() && State() == Manager.Insert(old(State()), p, created)
    {
      ghost var m := State();
      ghost var goal := Manager.Insert(m, p, created);
      Inserted(m, p, created);
      table.Put(p, created);
      SetStreams(events[p.t2oId := []], goal);
    }

    /** The only place a producer buffer changes, so an expired command dies here. */
    method OnSetOutput(h: Handle, bytes: Bytes, deadline: Option<nat>, now: nat) returns (reply: Reply)
      requires Valid() && running
      modifies table.conns.Values
      ensures Valid()
      ensures (State(), reply) == ManagerStep(old(State()), SetOutput(h, bytes, deadline, now))
    {
      if h.id !in table.conns {
        return StagingClosed;
      }
      if Manager.Expired(deadline, now) {
        return StagingTimeout;
      }
      table.ApplyOn(h.id, OutputOp(bytes));
      reply := Staged;
    }

    method OnSetRun(id: u32, run: bool) returns (reply: Reply)
      requires Valid() && running
      modifies table.conns.Values
      ensures Valid()
      ensures (State(), reply) == ManagerStep(old(State()), SetRun(id, run))
    {
      table.ApplyOn(id, RunOp(run));
      reply := Done;
    }

    method OnRemove(id: u32) returns (reply: Reply)
      requires Valid() && running
      modifies this, table
      ensures Valid()
      ensures (State(), reply) == ManagerStep(old(State()), Remove(id))
    {
      Unregister(id);
      reply := Done;
    }

    method OnDatagram(buf: Bytes, src: Ip, now: nat) returns (reply: Reply)
      requires Valid() && running
      modifies this, policy, table.stats, table.conns.Values
      ensures Valid()
      ensures (State(), reply) == ManagerStep(old(State()), Datagram(buf, src, now))
    {
      policy.OnRecvOk();
      var routed := RouteIn(buf, src, now);
      DeliverRouted(routed);
      reply := Received(routed);
    }

    method RouteIn(buf: Bytes, src: Ip, now: nat) returns (routed: Routed)
      requires Valid()
      modifies table.stats, table.conns.Values
      ensures Valid()
      ensures (State(), routed) == Route(old(State()), buf, src, now)
    {
      ghost var m := State();
      routed := table.ConsumeDatagram(buf, src, now);
      RouteElsewhere(m, buf, src, now, table.View(), table.stats.Snapshot(), routed);
    }

    method DeliverRouted(routed: Routed)
      modifies this`events
      ensures State() == Delivered(old(State()), routed)
    {
      if routed.RoutedTo? {
        DeliverUpdate(routed.id, routed.first, routed.update);
      }
    }

    method DeliverUpdate(id: u32, first: bool, update: Update)
      modifies this`events
      ensures State() == Deliver(old(State()), id, first, update)
    {
      if first && id in table.conns {
        Send(id, Up(table.conns[id].params.o2tApi, table.conns[id].params.t2oApi));
      }
      Send(id, Data(update));
    }

    method OnRecvFailure(kind: ErrorKind, order: seq<u32>) returns (reply: Reply)
      requires Valid() && running
      modifies this, table, policy, table.stats
      ensures Valid()
      ensures (State(), reply) == ManagerStep(old(State()), RecvFailure(kind, order))
    {
      var action := CountRecvError(kind);
      if action.Continue? {
        return Survived;
      }
      LoseEvery(order);
      running := false;
      reply := SocketDead;
    }

    method CountRecvError(kind: ErrorKind) returns (action: RecvAction)
      modifies policy, table.stats
      ensures var (streak, verdict) := OnRecv(old(State()).streak, RecvErr(kind));
              && action == verdict
              && State() == old(State()).(streak := streak, stats := old(State()).stats.(recvErrors := old(State()).stats.recvErrors + 1))
    {
      table.stats.recvErrors := table.stats.recvErrors + 1;
      action := policy.OnRecvError(kind);
    }

    method LoseEvery(order: seq<u32>)
      requires Valid()
      modifies this, table
      ensures Valid() && State() == FanOutLost(old(State()), order)
    {
      ghost var goal := FanOutLost(State(), order);
      var i := 0;
      while i < |order|
        invariant 0 <= i <= |order| && Valid()
        invariant goal == FanOutLost(State(), order[i..])
        invariant table.conns.Values <= old(table.conns.Values)
      {
        if order[i] in table.conns {
          Lose(order[i], LostIo);
        }
        i := i + 1;
      }
    }

    method OnTick(now: nat, order: seq<u32>, sends: map<u32, SendResult>) returns (reply: Reply)
      requires Valid() && running
      modifies this, table, table.conns.Values
      ensures Valid()
      ensures (State(), reply) == ManagerStep(old(State()), Tick(now, order, sends))
    {
      var expired, frames := TickEach(now, order, sends);
      LoseExpired(expired);
      reply := Ticked(frames);
    }

    method TickEach(now: nat, order: seq<u32>, sends: map<u32, SendResult>) returns (expired: seq<(u32, LostReason)>, frames: seq<Produced>)
      requires Valid()
      modifies table.conns.Values
      ensures Valid()
      ensures TickPass(State(), expired, frames) == TickAll(old(State()), now, order, sends)
    {
      ghost var goal := TickAll(State(), now, order, sends);
      expired, frames := [], [];
      AfterNothing(goal);
      var i := 0;
      while i < |order|
        invariant 0 <= i <= |order| && Valid()
        invariant goal == After(expired, frames, TickAll(State(), now, order[i..], sends))
      {
        var id := order[i];
        if id in table.conns {
          var newExpired, newFrames := TickOne(id, now, SendFor(sends, id));
          AfterOneMore(expired, frames, newExpired, newFrames, TickAll(State(), now, order[i + 1..], sends));
          expired, frames := expired + newExpired, frames + newFrames;
        }
        i := i + 1;
      }
      assert expired + [] == expired && frames + [] == frames;
    }

    method TickOne(id: u32, now: nat, send: SendResult) returns (expired: seq<(u32, LostReason)>, frames: seq<Produced>)
      requires Valid() && id in table.conns
      modifies table.conns.Values
      ensures Valid()
      ensures var (c, datagram, lost) := TickConn(old(State()).conns[id], now, send);
              && State() == SetConn(old(State()), id, c)
              && expired == (if lost.Some? then [(id, lost.value)] else [])
              && frames == (if datagram.Some? then [Produced(id, datagram.value)] else [])
    {
      var datagram, lost := table.TickOn(id, now, send);
      expired := if lost.Some? then [(id, lost.value)] else [];
      frames := if datagram.Some? then [Produced(id, datagram.value)] else [];
    }

    method LoseExpired(expired: seq<(u32, LostReason)>)
      requires Valid()
      modifies this, table
      ensures Valid() && State() == LoseAll(old(State()), expired)
    {
      ghost var goal := LoseAll(State(), expired);
      var i := 0;
      while i < |expired|
        invariant 0 <= i <= |expired| && Valid()
        invariant goal == LoseAll(State(), expired[i..])
      {
        Lose(expired[i].0, expired[i].1);
        i := i + 1;
      }
    }
  }
}
