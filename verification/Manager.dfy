/** The manager task as atomic steps: one command, one datagram, one receive error, one tick (io.rs). */
module Manager {
  import opened Prelude
  import opened Errors
  import opened ConnectionState
  import opened EventQueue
  import opened SocketErrors
  import Cpf

  datatype Stats = Stats(malformed: nat, unknownConnection: nat, sourceMismatch: nat, recvErrors: nat)

  /** The stream of one registration after its sender is gone. */
  datatype Ended = Ended(id: u32, log: seq<Event>)

  /**
   * `conns` is the registry and `events` the sender map, each live stream standing for the events sent on it so far.
   * `ended` and `retired` keep what removal drops, so that whole runs can be accounted for.
   */
  datatype Mgr = Mgr(
    conns: map<u32, Conn>, events: map<u32, seq<Event>>,
    ended: seq<Ended>, retired: seq<Conn>,
    stats: Stats, streak: nat, running: bool)

  const INITIAL: Mgr := Mgr(map[], map[], [], [], Stats(0, 0, 0, 0), 0, true)

  /** What a handle knows of its connection; its staging calls are validated against it. */
  datatype Handle = Handle(id: u32, o2tSize: nat, o2tFixed: bool, carriesData: bool)

  function HandleOf(p: Params): Handle {
    Handle(p.t2oId, p.o2tSize, p.o2tFixed, p.o2tFormat.CarriesData())
  }

  datatype Input =
    | Add(params: Params, created: nat, joinOk: bool, openerAlive: bool)
    | SetOutput(handle: Handle, bytes: Bytes, deadline: Option<nat>, now: nat)
    | SetRun(id: u32, run: bool)
    | Remove(id: u32)
    | Shutdown
    | Datagram(buf: Bytes, src: Ip, now: nat)
    | RecvFailure(kind: ErrorKind, order: seq<u32>)
    | Tick(now: nat, order: seq<u32>, sends: map<u32, SendResult>)

  datatype Routed =
    | RoutedTo(id: u32, first: bool, update: Update)
    | NotRouted(addressed: Option<u32>, reason: DropReason)

  datatype Produced = Produced(id: u32, datagram: Result<Bytes, EnipError>)

  datatype Reply =
    | Done | Stopped
    | Armed | JoinRefused | Abandoned
    | Staged | StagingTimeout | StagingClosed
    | Received(routed: Routed)
    | Survived | SocketDead
    | Ticked(frames: seq<Produced>)

  // ----- the two maps -----

  function SendTo(m: Mgr, id: u32, ev: Event): Mgr {
    if id in m.events then m.(events := m.events[id := m.events[id] + [ev]]) else m
  }

  function SetConn(m: Mgr, id: u32, c: Conn): Mgr {
    m.(conns := m.conns[id := c])
  }

  function RemoveConnection(m: Mgr, id: u32): Mgr {
    m.(conns := m.conns - {id}, events := m.events - {id},
       ended := if id in m.events then m.ended + [Ended(id, m.events[id])] else m.ended,
       retired := if id in m.conns then m.retired + [m.conns[id]] else m.retired)
  }

  /** Both inserts of an arming; whatever stood under the id is dropped. */
  function Insert(m: Mgr, p: Params, created: nat): Mgr {
    var gone := RemoveConnection(m, p.t2oId);
    gone.(conns := gone.conns[p.t2oId := NewConn(p, created)], events := gone.events[p.t2oId := []])
  }

  // ----- one datagram -----

  function CountMalformed(m: Mgr): Mgr {
    m.(stats := m.stats.(malformed := m.stats.malformed + 1))
  }

  /** The address and payload of a well-formed class-1 datagram. */
  function Addressed(buf: Bytes): Option<(Cpf.SeqAddr, Bytes)> {
    match Cpf.Decode(buf)
    case Err(_) => None
    case Ok(items) =>
      var addrItem, dataItem := Cpf.Find(items, Cpf.SequencedAddress), Cpf.Find(items, Cpf.ConnectedData);
      if addrItem.None? || dataItem.None? then None
      else match Cpf.DecodeSeqAddr(addrItem.value)
        case Err(_) => None
        case Ok(addr) => Some((addr, dataItem.value))
  }

  /** The routing decision: parse, look the connection up, check the source, then consume. */
  function Route(m: Mgr, buf: Bytes, src: Ip, now: nat): (Mgr, Routed) {
    match Addressed(buf)
    case None => (CountMalformed(m), NotRouted(None, MalformedDatagram))
    case Some((addr, payload)) =>
      var id := addr.connectionId;
      if id !in m.conns then
        (m.(stats := m.stats.(unknownConnection := m.stats.unknownConnection + 1)), NotRouted(Some(id), UnknownConnection))
      else if src != m.conns[id].params.expectedSource then
        (m.(stats := m.stats.(sourceMismatch := m.stats.sourceMismatch + 1)), NotRouted(Some(id), SourceMismatch))
      else
        var (c, out) := Consume(m.conns[id], payload, addr.encapSequence, now);
        (SetConn(m, id, c),
         match out
         case Accepted(first, update) => RoutedTo(id, first, update)
         case DroppedFrame(reason) => NotRouted(Some(id), reason))
  }

  function Deliver(m: Mgr, id: u32, first: bool, update: Update): Mgr {
    var upped := if first && id in m.conns then SendTo(m, id, Up(m.conns[id].params.o2tApi, m.conns[id].params.t2oApi)) else m;
    SendTo(upped, id, Data(update))
  }

  /** What is accepted is delivered. */
  function Delivered(m: Mgr, result: Routed): Mgr {
    if result.RoutedTo? then Deliver(m, result.id, result.first, result.update) else m
  }

  /** A received datagram ends a run of receive errors, and is routed and delivered. */
  function TakeIn(m: Mgr, buf: Bytes, src: Ip, now: nat): (Mgr, Routed) {
    var (routed, result) := Route(m.(streak := OnRecv(m.streak, RecvOk).0), buf, src, now);
    (Delivered(routed, result), result)
  }

  // ----- one tick -----

  /** Produce, account the send, then look at the watchdog. */
  function TickConn(c: Conn, now: nat, send: SendResult): (Conn, Option<Result<Bytes, EnipError>>, Option<LostReason>) {
    var (polled, datagram) := PollProduce(c, now);
    match datagram
    case None => (polled, None, if PollWatchdog(polled, now) then Some(LostTimeout) else None)
    case Some(built) =>
      var (sent, outcome) := RecordSend(polled, if built.Ok? then send else SendErr(InvalidData));
      (sent, Some(built),
       if outcome.ConnectionDead? then Some(LostIo) else if PollWatchdog(sent, now) then Some(LostTimeout) else None)
  }

  /** How the send of a connection's frame went. */
  function SendFor(sends: map<u32, SendResult>, id: u32): SendResult {
    if id in sends then sends[id] else SendOk
  }

  datatype TickPass = TickPass(m: Mgr, expired: seq<(u32, LostReason)>, frames: seq<Produced>)

  /** First pass: every connection in the map's iteration order. */
  function TickAll(m: Mgr, now: nat, order: seq<u32>, sends: map<u32, SendResult>): TickPass
    decreases order
  {
    if order == [] then TickPass(m, [], [])
    else if order[0] !in m.conns then TickAll(m, now, order[1..], sends)
    else
      var id := order[0];
      var (c, datagram, lost) := TickConn(m.conns[id], now, SendFor(sends, id));
      var rest := TickAll(SetConn(m, id, c), now, order[1..], sends);
      TickPass(rest.m,
               (if lost.Some? then [(id, lost.value)] else []) + rest.expired,
               (if datagram.Some? then [Produced(id, datagram.value)] else []) + rest.frames)
  }

  function LoseOne(m: Mgr, id: u32, reason: LostReason): Mgr {
    RemoveConnection(SendTo(m, id, Lost(reason)), id)
  }

  /** Second pass: lose what expired. */
  function LoseAll(m: Mgr, expired: seq<(u32, LostReason)>): Mgr
    decreases expired
  {
    if expired == [] then m else LoseAll(LoseOne(m, expired[0].0, expired[0].1), expired[1..])
  }

  function TickStep(m: Mgr, now: nat, order: seq<u32>, sends: map<u32, SendResult>): Mgr {
    var pass := TickAll(m, now, order, sends);
    LoseAll(pass.m, pass.expired)
  }

  function FanOutLost(m: Mgr, order: seq<u32>): Mgr
    decreases order
  {
    if order == [] then m
    else if order[0] !in m.conns then FanOutLost(m, order[1..])
    else FanOutLost(LoseOne(m, order[0], LostIo), order[1..])
  }

  // ----- one step -----

  predicate Expired(deadline: Option<nat>, now: nat) {
    deadline.Some? && now >= deadline.value
  }

  function ManagerStep(m: Mgr, input: Input): (Mgr, Reply) {
    if !m.running then (m, Stopped)
    else match input
      case Add(p, created, joinOk, openerAlive) =>
        if p.group.Some? && !joinOk then (m, JoinRefused)
        else if openerAlive then (Insert(m, p, created), Armed)
        else (RemoveConnection(Insert(m, p, created), p.t2oId), Abandoned)
      case SetOutput(h, bytes, deadline, now) =>
        if h.id !in m.conns then (m, StagingClosed)
        else if Expired(deadline, now) then (m, StagingTimeout)
        else (SetConn(m, h.id, m.conns[h.id].(output := bytes)), Staged)
      case SetRun(id, run) =>
        (if id in m.conns then SetConn(m, id, m.conns[id].(run := run)) else m, Done)
      case Remove(id) => (RemoveConnection(m, id), Done)
      case Shutdown => (m.(running := false), Stopped)
      case Datagram(buf, src, now) =>
        var (after, result) := TakeIn(m, buf, src, now);
        (after, Received(result))
      case RecvFailure(kind, order) =>
        var (streak, action) := OnRecv(m.streak, RecvErr(kind));
        var counted := m.(streak := streak, stats := m.stats.(recvErrors := m.stats.recvErrors + 1));
        if action.FatalSocket? then (FanOutLost(counted, order).(running := false), SocketDead) else (counted, Survived)
      case Tick(now, order, sends) =>
        (TickStep(m, now, order, sends), Ticked(TickAll(m, now, order, sends).frames))
  }

  /** The manager after a whole run. */
  function ManagerRun(inputs: seq<Input>): Mgr {
    if inputs == [] then INITIAL else ManagerStep(ManagerRun(inputs[..|inputs| - 1]), inputs[|inputs| - 1]).0
  }
}
