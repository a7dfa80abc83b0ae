/** From one end of a connection to the other: what a producer numbers and prints, lost, copied and reordered on the way, then routed and consumed (io.rs). */
module EndToEnd {
  import opened Prelude
  import opened Frame
  import opened ConnectionState
  import opened Channel
  import opened EventQueue
  import opened Manager
  import opened ManagerStreams
  import opened ManagerLives
  import Cadence
  import Cpf

  // ----- the sending end -----

  /** The operation at `i` is a poll that fires and whose datagram could be built. */
  predicate PutsOut(c0: Conn, ops: seq<Op>, i: nat) {
    && i < |ops| && ops[i].ProduceOp?
    && var (_, datagram) := PollProduce(Run(c0, ops[..i]), ops[i].now);
       datagram.Some? && datagram.value.Ok?
  }

  function DatagramAt(c0: Conn, ops: seq<Op>, i: nat): Bytes
    requires PutsOut(c0, ops, i)
  {
    PollProduce(Run(c0, ops[..i]), ops[i].now).1.value.value
  }

  /** The frame that datagram is: its number among all frames built, and what the connection held then. */
  function FrameAt(c0: Conn, ops: seq<Op>, i: nat, now: nat): Delivery
    requires i < |ops|
  {
    var c, k := Run(c0, ops[..i]), Cadence.Fires(c0, ops[..i + 1]);
    Delivery(k, c.run, if c.params.o2tFormat.CarriesData() then c.output else [], k % 0x1_0000_0000, now)
  }

  /** A printed datagram is addressed to its connection and carries exactly its frame. */
  lemma DatagramParses(c: Conn)
    requires ProduceFrame(c).1.Ok?
    ensures var next := Advance(c);
            Addressed(ProduceFrame(c).1.value)
            == Some((Cpf.SeqAddr(c.params.o2tId, next.encapSeq), EncodeFrame(c.params.o2tFormat, CurrentFrame(next))))
  {
    DatagramItemsFound(c);
    Cpf.SeqAddrRoundTrip(Cpf.SeqAddr(c.params.o2tId, Advance(c).encapSeq));
  }

  lemma DatagramIsFrame(c0: Conn, ops: seq<Op>, i: nat, now: nat)
    requires c0.class1Seq == 0 && c0.encapSeq == 0 && c0.params.o2tFormat.HasSequence() && PutsOut(c0, ops, i)
    ensures var d := FrameAt(c0, ops, i, now);
            d.k > 0 && Addressed(DatagramAt(c0, ops, i)) == Some((Cpf.SeqAddr(c0.params.o2tId, d.encap), Payload(c0.params.o2tFormat, d)))
  {
    var before, upTo, due := Run(c0, ops[..i]), ops[..i + 1], ops[i].now;
    assert upTo[..|upTo| - 1] == ops[..i];
    assert Cadence.FiresLast(c0, upTo);
    ProducedSequences(c0, upTo);
    Cadence.FiringPoll(before, due);
    DatagramParses(Rearm(before, due));
  }

  // ----- the receiving end -----

  /** A datagram sent at operation `tick` comes in at `now`. */
  datatype Arrival = Arrival(tick: nat, now: nat)

  predicate AllPutOut(c0: Conn, ops: seq<Op>, arrivals: seq<Arrival>) {
    forall i :: 0 <= i < |arrivals| ==> PutsOut(c0, ops, arrivals[i].tick)
  }

  function Frames(c0: Conn, ops: seq<Op>, arrivals: seq<Arrival>): (ds: seq<Delivery>)
    requires AllPutOut(c0, ops, arrivals)
    ensures |ds| == |arrivals|
  {
    seq(|arrivals|, i requires 0 <= i < |arrivals| => FrameAt(c0, ops, arrivals[i].tick, arrivals[i].now))
  }

  /** The task after every datagram that came in. */
  function FeedAll(m: Mgr, c0: Conn, ops: seq<Op>, arrivals: seq<Arrival>, src: Ip): Mgr
    requires AllPutOut(c0, ops, arrivals)
  {
    if arrivals == [] then m
    else
      var last := arrivals[|arrivals| - 1];
      ManagerStep(FeedAll(m, c0, ops, arrivals[..|arrivals| - 1], src), Datagram(DatagramAt(c0, ops, last.tick), src, last.now)).0
  }

  /** A running task with the connection a producer sends to: its id, its format, its source. */
  predicate Listens(m: Mgr, c0: Conn, src: Ip) {
    && m.running
    && c0.params.o2tId in m.conns && c0.params.o2tId in m.events
    && m.conns[c0.params.o2tId].params.t2oFormat == c0.params.o2tFormat
    && m.conns[c0.params.o2tId].params.expectedSource == src
  }

  /** One connection and its stream moved on; what was received ended any run of receive errors. */
  function MovedOn(m: Mgr, id: u32, c: Conn, log: seq<Event>, received: bool): Mgr {
    m.(conns := m.conns[id := c], events := m.events[id := log], streak := if received then 0 else m.streak)
  }

  lemma MovedTwice(m: Mgr, id: u32, a: Conn, b: Conn, x: seq<Event>, y: seq<Event>, received: bool)
    ensures MovedOn(MovedOn(m, id, a, x, received), id, b, y, true) == MovedOn(m, id, b, y, true)
  {
    assert m.conns[id := a][id := b] == m.conns[id := b];
    assert m.events[id := x][id := y] == m.events[id := y];
  }

  lemma FeedOne(m: Mgr, c0: Conn, ops: seq<Op>, a: Arrival, src: Ip)
    requires c0.class1Seq == 0 && c0.encapSeq == 0 && c0.params.o2tFormat.HasSequence()
    requires PutsOut(c0, ops, a.tick) && Listens(m, c0, src)
    ensures var id, d := c0.params.o2tId, FrameAt(c0, ops, a.tick, a.now);
            var op := ConsumeOp(Payload(c0.params.o2tFormat, d), d.encap, a.now);
            TakeIn(m, DatagramAt(c0, ops, a.tick), src, a.now).0
            == MovedOn(m, id, Apply(m.conns[id], op), m.events[id] + OpEvents(m.conns[id], op), true)
  {
    DatagramIsFrame(c0, ops, a.tick, a.now);
    DatagramConsumed(m, DatagramAt(c0, ops, a.tick), src, a.now, c0.params.o2tId);
  }

  /** Feeding the task what a producer sent is consuming its frames and announcing what is accepted, one by one, and touches nothing else. */
  lemma {:induction false} FeedAllConsumes(m: Mgr, c0: Conn, ops: seq<Op>, arrivals: seq<Arrival>, src: Ip)
    requires c0.class1Seq == 0 && c0.encapSeq == 0 && c0.params.o2tFormat.HasSequence()
    requires AllPutOut(c0, ops, arrivals) && Listens(m, c0, src)
    ensures var id := c0.params.o2tId;
            var done := Ops(c0.params.o2tFormat, Frames(c0, ops, arrivals));
            FeedAll(m, c0, ops, arrivals, src)
            == MovedOn(m, id, Run(m.conns[id], done), m.events[id] + EventsOf(m.conns[id], done), arrivals != [])
    decreases |arrivals|
  {
    var id, format, ds := c0.params.o2tId, c0.params.o2tFormat, Frames(c0, ops, arrivals);
    var c, log := m.conns[id], m.events[id];
    if arrivals == [] {
      assert log + [] == log;
      assert m.conns == m.conns[id := c] && m.events == m.events[id := log];
    } else {
      var early, last := arrivals[..|arrivals| - 1], arrivals[|arrivals| - 1];
      var soFar := Ops(format, Frames(c0, ops, early));
      FeedAllConsumes(m, c0, ops, early, src);
      var mid := MovedOn(m, id, Run(c, soFar), log + EventsOf(c, soFar), early != []);
      DatagramStep(mid, DatagramAt(c0, ops, last.tick), src, last.now);
      FeedOne(mid, c0, ops, last, src);
      FramesFront(c0, ops, arrivals);
      OneMoreFrame(c, format, ds);
      OneMoreAnnounced(c, format, ds);
      var op := ConsumeOp(Payload(format, ds[|ds| - 1]), ds[|ds| - 1].encap, last.now);
      Regroup(log, EventsOf(c, soFar), OpEvents(Run(c, soFar), op));
      MovedTwice(m, id, Run(c, soFar), Run(c, Ops(format, ds)), log + EventsOf(c, soFar), log + EventsOf(c, Ops(format, ds)), early != []);
    }
  }

  lemma FramesFront(c0: Conn, ops: seq<Op>, arrivals: seq<Arrival>)
    requires AllPutOut(c0, ops, arrivals) && arrivals != []
    ensures Frames(c0, ops, arrivals)[..|arrivals| - 1] == Frames(c0, ops, arrivals[..|arrivals| - 1])
  {
  }

  lemma OneMoreAnnounced(c: Conn, format: Format, ds: seq<Delivery>)
    requires ds != []
    ensures var d, front := ds[|ds| - 1], Ops(format, ds[..|ds| - 1]);
            EventsOf(c, Ops(format, ds)) == EventsOf(c, front) + OpEvents(Run(c, front), ConsumeOp(Payload(format, d), d.encap, d.now))
  {
    assert Ops(format, ds)[..|ds| - 1] == Ops(format, ds[..|ds| - 1]);
  }

  // ----- what is delivered -----

  /** The stream a run over the channel should give: one `Up`, then for every fresh frame, in order of arrival, exactly that frame's sample. */
  function StreamOf(p: Params, ds: seq<Delivery>): seq<Event> {
    if ds == [] then []
    else
      var before, d := ds[..|ds| - 1], ds[|ds| - 1];
      StreamOf(p, before)
      + if d.k <= Newest(before) then []
        else (if before == [] then [Up(p.o2tApi, p.t2oApi)] else []) + [Data(SampleOf(p.t2oFormat, d))]
  }

  lemma {:induction false} ChannelStream(p: Params, created: nat, ds: seq<Delivery>)
    requires p.t2oFormat.HasSequence() && SizesMatch(p, ds) && Lossy(ds)
    ensures EventsOf(NewConn(p, created), Ops(p.t2oFormat, ds)) == StreamOf(p, ds)
    decreases |ds|
  {
    if ds != [] {
      var before := ds[..|ds| - 1];
      Snoc(ds);
      ChannelStream(p, created, before);
      ChannelRun(p, created, before);
      OneMoreAnnounced(NewConn(p, created), p.t2oFormat, ds);
      DeliverOne(Run(NewConn(p, created), Ops(p.t2oFormat, before)), p, before, ds[|ds| - 1]);
    }
  }

  /**
   * Whatever a producer does, and whatever the network loses, copies and reorders of its datagrams within the window, the task
   * delivers one `Up` and then every fresh frame, in order, with exactly the data, number, run bit and arrival time it came with;
   * it refuses every copy, and the gap count is the frames lost plus the zeros skipped.
   */
  lemma ProducerToConsumer(m: Mgr, c0: Conn, ops: seq<Op>, arrivals: seq<Arrival>, src: Ip, p: Params, created: nat)
    requires c0.class1Seq == 0 && c0.encapSeq == 0 && c0.params.o2tFormat.HasSequence()
    requires AllPutOut(c0, ops, arrivals) && Listens(m, c0, src)
    requires m.conns[c0.params.o2tId] == NewConn(p, created) && m.events[c0.params.o2tId] == []
    requires Lossy(Frames(c0, ops, arrivals)) && SizesMatch(p, Frames(c0, ops, arrivals))
    ensures var id, ds, after := c0.params.o2tId, Frames(c0, ops, arrivals), FeedAll(m, c0, ops, arrivals, src);
            && id in after.conns && Accounts(after.conns[id], ds)
            && id in after.events && after.events[id] == StreamOf(p, ds)
            && after == MovedOn(m, id, after.conns[id], after.events[id], arrivals != [])
  {
    FeedAllConsumes(m, c0, ops, arrivals, src);
    ChannelRun(p, created, Frames(c0, ops, arrivals));
    ChannelStream(p, created, Frames(c0, ops, arrivals));
  }
}
