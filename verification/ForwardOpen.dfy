/** Opening a class-1 connection: building the request, checking the reply, arming the task, and closing what could not be armed (io.rs). */
module ForwardOpen {
  import opened Prelude
  import opened Wire
  import opened Errors
  import opened Frame
  import opened ConnectionState
  import opened ConnectionManager
  import opened Watchdog
  import opened Manager
  import Cpf

  // ----- building the request -----

  datatype DirectionSpec = DirectionSpec(
    rpi: nat, dataSize: nat, format: Format, connType: ConnType, priority: Priority, variable: bool)

  /** `path` is the encoded connection path, route segments included. */
  datatype OpenSpec = OpenSpec(
    path: Path, t2o: DirectionSpec, o2t: DirectionSpec, timeout: TimeoutCode, trigger: byte, vendor: u16)

  datatype Ids = Ids(t2oId: u32, serial: u16, originatorSerial: u32)

  const LARGE_FORWARD_OPEN_THRESHOLD: nat := 505

  function OnWireSize(d: DirectionSpec): Result<u16, EnipError> {
    var total := d.format.Overhead() + if d.format.CarriesData() then d.dataSize else 0;
    if total > U16_MAX then Err(TooLarge(U16_MAX)) else Ok(total)
  }

  /** The size of a frame that carries the direction's data. */
  function FrameSize(d: DirectionSpec): nat {
    match d.format
    case Modeless => 2 + d.dataSize
    case Header32Bit => 6 + d.dataSize
    case Heartbeat => 2
    case ZeroLength => 0
  }

  /** The size announced is that of the frames printed, for every frame of the direction's own data size. */
  lemma FrameSizeIsPrinted(d: DirectionSpec, f: IoFrame)
    requires |f.data| == if d.format.CarriesData() then d.dataSize else 0
    ensures |EncodeFrame(d.format, f)| == FrameSize(d)
  {
  }

  function Micros(d: nat): Result<u32, EnipError> {
    if d / 1000 > U32_MAX then Err(TooLarge(U32_MAX)) else Ok(d / 1000)
  }

  function ParamsFor(d: DirectionSpec, size: u16): Ncp {
    Ncp(size, d.variable, d.priority, d.connType, false)
  }

  function BuildClass1Open(spec: OpenSpec, ids: Ids): Result<OpenRequest, EnipError> {
    var o2tSize :- OnWireSize(spec.o2t);
    var t2oSize :- OnWireSize(spec.t2o);
    var o2tRpi :- Micros(spec.o2t.rpi);
    var t2oRpi :- Micros(spec.t2o.rpi);
    Ok(OpenRequest(0x0A, 0x0E, 0, ids.t2oId, ids.serial, spec.vendor, ids.originatorSerial, spec.timeout,
                   o2tRpi, ParamsFor(spec.o2t, o2tSize), t2oRpi, ParamsFor(spec.t2o, t2oSize),
                   spec.trigger, spec.path,
                   o2tSize > LARGE_FORWARD_OPEN_THRESHOLD || t2oSize > LARGE_FORWARD_OPEN_THRESHOLD))
  }

  /** The threshold stays under the 9-bit limit, so both parameter words fit the form it chooses. */
  lemma BuiltParamsFit(spec: OpenSpec, ids: Ids)
    requires BuildClass1Open(spec, ids).Ok?
    ensures var o := BuildClass1Open(spec, ids).value;
            && NcpWord(o.large, o.o2tParams).Ok? && NcpWord(o.large, o.t2oParams).Ok?
            && (o.large <==> FrameSize(spec.o2t) > 505 || FrameSize(spec.t2o) > 505)
  {
    var o := BuildClass1Open(spec, ids).value;
    if !o.large {
      NcpRoundTrip(o.o2tParams);
      NcpRoundTrip(o.t2oParams);
    }
  }

  /** Whatever sizes are asked for, a request that builds also encodes, unless its path is too long, and the target reads back everything that was specified. */
  lemma BuiltOpenIsUnderstood(spec: OpenSpec, ids: Ids)
    requires BuildClass1Open(spec, ids).Ok?
    ensures var o := BuildClass1Open(spec, ids).value;
            && (EncodeOpen(o).Ok? <==> |spec.path| / 2 <= 255)
            && (EncodeOpen(o).Ok? ==>
                  && ParseOpen(o.large, EncodeOpen(o).value).Ok?
                  && var p := ParseOpen(o.large, EncodeOpen(o).value).value;
                     && p.o2tParams == Ncp(FrameSize(spec.o2t), spec.o2t.variable, spec.o2t.priority, spec.o2t.connType, false)
                     && p.t2oParams == Ncp(FrameSize(spec.t2o), spec.t2o.variable, spec.t2o.priority, spec.t2o.connType, false)
                     && p.priorityTick == 0x0A && p.timeoutTicks == 0x0E
                     && p.o2tRpi == spec.o2t.rpi / 1000 && p.t2oRpi == spec.t2o.rpi / 1000
                     && p.o2tId == 0 && p.t2oId == ids.t2oId
                     && p.serial == ids.serial && p.originatorSerial == ids.originatorSerial && p.vendor == spec.vendor
                     && p.timeout == spec.timeout && p.trigger == spec.trigger && p.path == spec.path)
  {
    var o := BuildClass1Open(spec, ids).value;
    BuiltParamsFit(spec, ids);
    if EncodeOpen(o).Ok? {
      OpenRoundTrip(o);
    }
  }

  /** A request builds exactly when both frames fit a 16-bit size and both intervals fit 32 bits of microseconds. */
  lemma BuildsIff(spec: OpenSpec, ids: Ids)
    ensures BuildClass1Open(spec, ids).Ok? <==>
              && FrameSize(spec.o2t) <= 0xFFFF && FrameSize(spec.t2o) <= 0xFFFF
              && spec.o2t.rpi < 1000 * 0x1_0000_0000 && spec.t2o.rpi < 1000 * 0x1_0000_0000
  {
  }

  // ----- reading the reply -----

  datatype MessageReply = MessageReply(service: byte, status: byte, data: Bytes)

  function DecodeReply(buf: Bytes): Result<MessageReply, WireError> {
    var head :- TakeAt(buf, 0, 4);
    var extended: nat := head[3];
    if 4 + 2 * extended > |buf| then Err(Truncated(2 * extended, |buf| - 4))
    else Ok(MessageReply(head[0], head[2], buf[4 + 2 * extended..]))
  }

  /** `request | 0x80` for a request code below it. */
  function ReplyCode(service: byte): byte
    requires service < 0x80
  {
    service + 0x80
  }

  const NO_DATA_ITEM := "forward-open reply missing data item"
  const WRONG_SERVICE := "reply service does not match request | 0x80"
  const API_OUT_OF_RANGE := "forward-open reply API out of range"
  const NO_TX_ADDRESS := "no O-T transmit address available"
  const UNREQUESTED_MULTICAST := "multicast T-O sockaddr on a connection that did not request one"

  /** The reply as far as a decoded success record. */
  function DecodedSuccess(open: OpenRequest, reply: Result<seq<Cpf.Item>, EnipError>): Result<OpenSuccess, EnipError> {
    var items :- reply;
    match Cpf.Find(items, Cpf.UnconnectedData)
    case None => Err(ProtocolViolation(NO_DATA_ITEM))
    case Some(data) =>
      match DecodeReply(data)
      case Err(e) => Err(WireFault(e))
      case Ok(mr) =>
        if mr.service != ReplyCode(open.Service()) then Err(ProtocolViolation(WRONG_SERVICE))
        else if mr.status != 0 then Err(ForwardOpenRejected(mr.status, RemainingPath(mr.data)))
        else match DecodeSuccess(mr.data)
          case Err(e) => Err(WireFault(e))
          case Ok(s) => Ok(s)
  }

  /** The routing hint of a refusal, when the refusal is long enough to carry it. */
  function RemainingPath(data: Bytes): Option<nat> {
    if |data| >= 9 then Some(data[8]) else None
  }

  /** What an UnconnectedData item with a reply of at least four bytes is read as: the service first, then the status, with any extended status words skipped. */
  lemma ReplyIsReadAs(open: OpenRequest, items: seq<Cpf.Item>, service: byte, reserved: byte, status: byte, ext: Bytes, body: Bytes)
    requires |ext| % 2 == 0 && |ext| / 2 < 256
    requires Cpf.Find(items, Cpf.UnconnectedData) == Some([service, reserved, status, |ext| / 2] + ext + body)
    ensures DecodedSuccess(open, Ok(items))
         == if service != (if open.large then 0xDB else 0xD4) then Err(ProtocolViolation(WRONG_SERVICE))
            else if status != 0 then Err(ForwardOpenRejected(status, if |body| >= 9 then Some(body[8]) else None))
            else if DecodeSuccess(body).Ok? then Ok(DecodeSuccess(body).value)
            else Err(WireFault(DecodeSuccess(body).error))
  {
    var data := [service, reserved, status, |ext| / 2] + ext + body;
    assert data[0..4] == [service, reserved, status, |ext| / 2];
    assert data[4 + |ext|..] == body;
  }

  /** A reply without the item, a session that failed, and an item too short for a reply are errors of their own. */
  lemma NoReplyToRead(open: OpenRequest, items: seq<Cpf.Item>, e: EnipError)
    ensures DecodedSuccess(open, Err(e)) == Err(e)
    ensures Cpf.Find(items, Cpf.UnconnectedData).None? ==> DecodedSuccess(open, Ok(items)) == Err(ProtocolViolation(NO_DATA_ITEM))
    ensures Cpf.Find(items, Cpf.UnconnectedData).Some? && |Cpf.Find(items, Cpf.UnconnectedData).value| < 4 ==>
              DecodedSuccess(open, Ok(items)).Err? && DecodedSuccess(open, Ok(items)).error.WireFault?
  {
  }

  /** The target accepted the open: the success record, under the reply code of the request and status 0. */
  ghost predicate Accepts(open: OpenRequest, reply: Result<seq<Cpf.Item>, EnipError>, s: OpenSuccess) {
    reply.Ok? && exists reserved: byte, pad: byte, ext: Bytes, trailing: Bytes ::
      AcceptsWith(open, reply.value, s, reserved, pad, ext, trailing)
  }

  predicate AcceptsWith(open: OpenRequest, items: seq<Cpf.Item>, s: OpenSuccess, reserved: byte, pad: byte, ext: Bytes, trailing: Bytes) {
    && |ext| % 2 == 0 && |ext| / 2 < 256 && |s.appData| % 2 == 0 && |s.appData| / 2 < 256
    && Cpf.Find(items, Cpf.UnconnectedData)
       == Some([if open.large then 0xDB else 0xD4, pad, 0, |ext| / 2] + ext + (PrintSuccess(s, reserved) + trailing))
  }

  /** Whatever accepts the open is decoded to exactly its success record. */
  lemma AcceptedIsDecoded(open: OpenRequest, reply: Result<seq<Cpf.Item>, EnipError>, s: OpenSuccess)
    requires Accepts(open, reply, s)
    ensures DecodedSuccess(open, reply) == Ok(s)
  {
    var reserved, pad, ext, trailing :| AcceptsWith(open, reply.value, s, reserved, pad, ext, trailing);
    ReplyIsReadAs(open, reply.value, if open.large then 0xDB else 0xD4, pad, 0, ext, PrintSuccess(s, reserved) + trailing);
    SuccessRoundTrip(s, reserved, trailing);
  }

  function ApiNanos(micros: u32): nat {
    1000 * micros
  }

  predicate ApisValid(s: OpenSuccess) {
    && MIN_REPLY_API <= ApiNanos(s.o2tApi) <= MAX_REPLY_API
    && MIN_REPLY_API <= ApiNanos(s.t2oApi) <= MAX_REPLY_API
  }

  datatype Disposition = Direct | PortOnly | Honored | RefusedForeign(ip: Ip)

  const IO_UDP_PORT: u16 := 2222

  /** The reply names an address other than the target's. */
  predicate NamesForeign(sock: Option<Cpf.SockAddr>, target: Option<Ip>) {
    sock.Some? && sock.value.addr != 0 && Some(V4(sock.value.addr)) != target
  }

  /** The address is always the target's own; the reply may only move the port. */
  function ResolveTx(sock: Option<Cpf.SockAddr>, target: Option<Ip>): (r: Result<(Endpoint, Disposition), EnipError>)
    ensures r.Ok? <==> target.Some?
    ensures r.Ok? ==> r.value.0.ip == target.value
    ensures r.Ok? ==> r.value.0.port == if sock.Some? && sock.value.port != 0 then sock.value.port else 2222
    ensures r.Ok? ==>
              && (r.value.1.Direct? <==> sock.None?)
              && (r.value.1.PortOnly? <==> sock.Some? && sock.value.addr == 0)
              && (r.value.1.Honored? <==> sock.Some? && sock.value.addr != 0 && V4(sock.value.addr) == target.value)
              && (r.value.1.RefusedForeign? <==> NamesForeign(sock, target))
  {
    match target
    case None => Err(ProtocolViolation(NO_TX_ADDRESS))
    case Some(ip) =>
      match sock
      case None => Ok((Endpoint(ip, IO_UDP_PORT), Direct))
      case Some(s) =>
        var port := if s.port != 0 then s.port else IO_UDP_PORT;
        Ok((Endpoint(ip, port),
            if s.addr == 0 then PortOnly else if V4(s.addr) == ip then Honored else RefusedForeign(V4(s.addr))))
  }

  /** 224.0.0.0 to 239.255.255.255. */
  lemma MulticastRange(addr: u32)
    ensures IsMulticast(addr) <==> 0xE000_0000 <= addr <= 0xEFFF_FFFF
  {
  }

  /** 224.0.0.0/4 */
  predicate IsMulticast(addr: u32) {
    addr / 0x1000_0000 == 14
  }

  function ResolveGroup(sock: Option<Cpf.SockAddr>, requested: ConnType): (r: Result<Option<u32>, EnipError>)
    ensures r.Err? <==> sock.Some? && IsMulticast(sock.value.addr) && !requested.Multicast?
    ensures r.Ok? ==> r.value == if sock.Some? && IsMulticast(sock.value.addr) then Some(sock.value.addr) else None
    ensures r.Ok? && r.value.Some? ==> requested.Multicast?
  {
    if sock.None? || !IsMulticast(sock.value.addr) then Ok(None)
    else if requested.Multicast? then Ok(Some(sock.value.addr))
    else Err(ProtocolViolation(UNREQUESTED_MULTICAST))
  }

  function SockIn(reply: Result<seq<Cpf.Item>, EnipError>, typ: Cpf.ItemType): Option<Cpf.SockAddr> {
    match reply
    case Err(_) => None
    case Ok(items) =>
      match Cpf.Find(items, typ)
      case None => None
      case Some(data) => (match Cpf.DecodeSock(data) case Ok(s) => Some(s) case Err(_) => None)
  }

  /** A sockaddr item is found by its id and read whole; a missing or garbled one is no sockaddr. */
  lemma SockIsFound(items: seq<Cpf.Item>, typ: Cpf.ItemType, s: Cpf.SockAddr)
    requires |s.zero| == 8
    ensures Cpf.Find(items, typ) == Some(Cpf.EncodeSock(s)) ==> SockIn(Ok(items), typ) == Some(s)
    ensures Cpf.Find(items, typ).None? ==> SockIn(Ok(items), typ) == None
    ensures Cpf.Find(items, typ).Some? && |Cpf.Find(items, typ).value| != 16 ==> SockIn(Ok(items), typ) == None
  {
    Cpf.SockRoundTrip(s, []);
  }

  // ----- the procedure -----

  datatype Request = Request(service: byte, data: Bytes, extra: seq<Cpf.Item>)

  datatype Opened = Opened(handle: Handle, params: Params, redirectRefused: bool)

  /** What arrives from outside: the session's reply, the target's address, the task when it takes the command, and whether the group can be joined. */
  datatype World = World(reply: Result<seq<Cpf.Item>, EnipError>, target: Option<Ip>, recvPort: u16, task: Mgr, joinOk: bool, now: nat)

  function ConnParams(spec: OpenSpec, ids: Ids, s: OpenSuccess, tx: Endpoint, group: Option<u32>): Params {
    Params(s.o2tId, ids.t2oId, ApiNanos(s.o2tApi), ApiNanos(s.t2oApi), Multiplier(spec.timeout),
           spec.o2t.format, spec.t2o.format, spec.o2t.dataSize, spec.t2o.dataSize, !spec.o2t.variable, !spec.t2o.variable,
           tx, tx.ip, group)
  }

  /** Every condition on which an open succeeds once the target's success record is decoded. */
  predicate Acceptable(spec: OpenSpec, open: OpenRequest, s: OpenSuccess, w: World) {
    && VerifyEcho(open, s).Ok?
    && 100 <= s.o2tApi <= 600_000_000 && 100 <= s.t2oApi <= 600_000_000
    && w.target.Some?
    && ResolveGroup(SockIn(w.reply, Cpf.SockAddrTtoO), spec.t2o.connType).Ok?
    && w.task.running
    && (ResolveGroup(SockIn(w.reply, Cpf.SockAddrTtoO), spec.t2o.connType).value.Some? ==> w.joinOk)
  }

  /** What a decoded success that is not acceptable is refused with: the first fault found, in the order echo, intervals, address, group, task, join. */
  predicate RefusedWith(spec: OpenSpec, open: OpenRequest, s: OpenSuccess, w: World, e: EnipError) {
    var group := ResolveGroup(SockIn(w.reply, Cpf.SockAddrTtoO), spec.t2o.connType);
    if VerifyEcho(open, s).Err? then e == VerifyEcho(open, s).error
    else if !(100 <= s.o2tApi <= 600_000_000 && 100 <= s.t2oApi <= 600_000_000) then e == ProtocolViolation(API_OUT_OF_RANGE)
    else if w.target.None? then e == ProtocolViolation(NO_TX_ADDRESS)
    else if group.Err? then e == ProtocolViolation(UNREQUESTED_MULTICAST)
    else if !w.task.running then e == Closed
    else e == Io && group.value.Some? && !w.joinOk
  }

  /** The connection handed to the task is the one negotiated: the target's id and intervals, the requested shape, the target's address. */
  predicate Negotiated(spec: OpenSpec, ids: Ids, s: OpenSuccess, w: World, p: Params) {
    && p.o2tId == s.o2tId && p.t2oId == ids.t2oId
    && p.o2tApi == 1000 * s.o2tApi && p.t2oApi == 1000 * s.t2oApi
    && p.multiplier == 4 * PowerOfTwo(spec.timeout)
    && p.o2tFormat == spec.o2t.format && p.t2oFormat == spec.t2o.format
    && p.o2tSize == spec.o2t.dataSize && p.t2oSize == spec.t2o.dataSize
    && p.o2tFixed == !spec.o2t.variable && p.t2oFixed == !spec.t2o.variable
    && Some(p.txEndpoint.ip) == w.target && Some(p.expectedSource) == w.target
    && (var sock := SockIn(w.reply, Cpf.SockAddrOtoT);
        p.txEndpoint.port == if sock.Some? && sock.value.port != 0 then sock.value.port else 2222)
    && (var sock := SockIn(w.reply, Cpf.SockAddrTtoO);
        p.group == if sock.Some? && IsMulticast(sock.value.addr) then Some(sock.value.addr) else None)
  }

  /** The target understands the request as this open, and is told where to send. */
  predicate Asks(request: Request, open: OpenRequest, port: u16) {
    && request.service == (if open.large then 0x5B else 0x54)
    && ParseOpen(open.large, request.data) == Ok(open)
    && AsksFor(request.extra, port)
  }

  lemma AsksAsBuilt(open: OpenRequest, data: Bytes, extra: seq<Cpf.Item>, port: u16)
    requires EncodeOpen(open) == Ok(data) && |open.path| % 2 == 0
    requires extra == [Cpf.Item(Cpf.SockAddrOtoT, Cpf.EncodeSock(Cpf.Ipv4Sock(0, port))),
                       Cpf.Item(Cpf.SockAddrTtoO, Cpf.EncodeSock(Cpf.Ipv4Sock(0, port)))]
    ensures Asks(Request(open.Service(), data, extra), open, port)
  {
    OpenRoundTrip(open);
    Cpf.SockRoundTrip(Cpf.Ipv4Sock(0, port), []);
  }

  /** Both sockaddr items of the open ask for the port this end receives on, at whatever address the session comes from. */
  predicate AsksFor(extra: seq<Cpf.Item>, port: u16) {
    && |extra| == 2
    && extra[0].typ == Cpf.SockAddrOtoT && Cpf.DecodeSock(extra[0].data) == Ok(Cpf.Ipv4Sock(0, port))
    && extra[1].typ == Cpf.SockAddrTtoO && Cpf.DecodeSock(extra[1].data) == Ok(Cpf.Ipv4Sock(0, port))
  }

  /** Exactly one close went out, after the open, and it names the connection the open named. */
  predicate ClosedOnce(requests: seq<Request>, open: OpenRequest) {
    && |requests| == 2
    && requests[1].service == 0x4E
    && ParseClose(requests[1].data)
       == Ok(CloseRequest(open.priorityTick, open.timeoutTicks, open.serial, open.vendor, open.originatorSerial, open.path))
    && requests[1].extra == []
  }

  method BestEffortClose(open: OpenRequest, sent: seq<Request>) returns (requests: seq<Request>)
    requires EncodeOpen(open).Ok? && |open.path| % 2 == 0 && |sent| == 1 && sent[0].service == open.Service()
    ensures ClosedOnce(requests, open) && requests[0] == sent[0]
  {
    CloseRoundTrip(open);
    var data := EncodeClose(CloseFor(open));
    requests := sent;
    if data.Ok? {
      requests := requests + [Request(FORWARD_CLOSE, data.value, [])];
    }
  }

  /** What an open that succeeded leaves behind: one request, the negotiated connection in the task, and its handle. */
  predicate Established(spec: OpenSpec, ids: Ids, s: OpenSuccess, w: World, o: Opened, after: Mgr) {
    var p := o.params;
    && Negotiated(spec, ids, s, w, p)
    && ManagerStep(w.task, Add(p, w.now, w.joinOk, true)) == (after, Armed)
    && ids.t2oId in after.conns && after.conns[ids.t2oId] == NewConn(p, w.now)
    && o.handle == HandleOf(p)
    && ValidTiming(p)
    && (p.group.Some? ==> spec.t2o.connType.Multicast?)
    && (o.redirectRefused <==> NamesForeign(SockIn(w.reply, Cpf.SockAddrOtoT), w.target))
  }

  lemma ArmedIsEstablished(spec: OpenSpec, ids: Ids, open: OpenRequest, s: OpenSuccess, w: World, tx: Endpoint, refused: bool)
    requires VerifyEcho(open, s).Ok? && ApisValid(s) && w.target.Some? && w.task.running
    requires ResolveTx(SockIn(w.reply, Cpf.SockAddrOtoT), w.target).Ok?
    requires ResolveTx(SockIn(w.reply, Cpf.SockAddrOtoT), w.target).value.0 == tx
    requires refused == ResolveTx(SockIn(w.reply, Cpf.SockAddrOtoT), w.target).value.1.RefusedForeign?
    requires ResolveGroup(SockIn(w.reply, Cpf.SockAddrTtoO), spec.t2o.connType).Ok?
    ensures var group := ResolveGroup(SockIn(w.reply, Cpf.SockAddrTtoO), spec.t2o.connType).value;
            var p := ConnParams(spec, ids, s, tx, group);
            var (armed, verdict) := ManagerStep(w.task, Add(p, w.now, w.joinOk, true));
            if group.Some? && !w.joinOk then verdict.JoinRefused?
            else verdict.Armed? && Established(spec, ids, s, w, Opened(HandleOf(p), p, refused), armed)
  {
  }

  method Open(spec: OpenSpec, ids: Ids, w: World)
    returns (r: Result<Opened, EnipError>, requests: seq<Request>, after: Mgr)
    // nothing is sent when the request cannot be built or printed
    ensures var built := BuildClass1Open(spec, ids);
            if built.Err? then r == Err(built.error) && requests == [] && after == w.task
            else if EncodeOpen(built.value).Err? then r == Err(EncodeOpen(built.value).error) && requests == [] && after == w.task
            else
              var open := built.value;
              var s := DecodedSuccess(open, w.reply);
              && requests != [] && Asks(requests[0], open, w.recvPort)
              // without a decoded success there is nothing to close
              && (s.Err? ==> r == Err(s.error) && |requests| == 1)
              // with one, the open succeeds exactly when everything about it is acceptable
              && (s.Ok? ==> (r.Ok? <==> Acceptable(spec, open, s.value, w)))
              // which for a reply that accepts the open means its own success record
              && (forall s :: Accepts(open, w.reply, s) ==> (r.Ok? <==> Acceptable(spec, open, s, w)))
              // and every failure has the first fault as its error and closes the connection exactly once, while a success never does
              && (s.Ok? && r.Err? ==> RefusedWith(spec, open, s.value, w, r.error) && ClosedOnce(requests, open))
              && (r.Ok? ==> |requests| == 1 && Established(spec, ids, s.value, w, r.value, after))
    ensures r.Err? ==> after == w.task
  {
    requests, after := [], w.task;
    var built := BuildClass1Open(spec, ids);
    if built.Err? {
      return Err(built.error), requests, after;
    }
    var open := built.value;
    var data := EncodeOpen(open);
    if data.Err? {
      return Err(data.error), requests, after;
    }
    var extra := [Cpf.Item(Cpf.SockAddrOtoT, Cpf.EncodeSock(Cpf.Ipv4Sock(0, w.recvPort))),
                  Cpf.Item(Cpf.SockAddrTtoO, Cpf.EncodeSock(Cpf.Ipv4Sock(0, w.recvPort)))];
    AsksAsBuilt(open, data.value, extra, w.recvPort);
    requests := [Request(open.Service(), data.value, extra)];
    forall s | Accepts(open, w.reply, s) ensures DecodedSuccess(open, w.reply) == Ok(s) {
      AcceptedIsDecoded(open, w.reply, s);
    }
    var decoded := DecodedSuccess(open, w.reply);
    if decoded.Err? {
      return Err(decoded.error), requests, after;
    }
    r, requests, after := FinishOpen(spec, ids, open, decoded.value, w, requests);
  }

  /** From a decoded success on: check everything, arm the task, and close on any failure. */
  method FinishOpen(spec: OpenSpec, ids: Ids, open: OpenRequest, success: OpenSuccess, w: World, sent: seq<Request>)
    returns (r: Result<Opened, EnipError>, requests: seq<Request>, after: Mgr)
    requires EncodeOpen(open).Ok? && |open.path| % 2 == 0 && |sent| == 1 && sent[0].service == open.Service()
    ensures requests != [] && requests[0] == sent[0]
    ensures r.Ok? <==> Acceptable(spec, open, success, w)
    ensures if r.Ok? then requests == sent && Established(spec, ids, success, w, r.value, after)
            else RefusedWith(spec, open, success, w, r.error) && ClosedOnce(requests, open) && after == w.task
  {
    requests, after := sent, w.task;
    var echo := VerifyEcho(open, success);
    if echo.Err? {
      requests := BestEffortClose(open, requests);
      return Err(echo.error), requests, after;
    }
    if !ApisValid(success) {
      requests := BestEffortClose(open, requests);
      return Err(ProtocolViolation(API_OUT_OF_RANGE)), requests, after;
    }
    var tx := ResolveTx(SockIn(w.reply, Cpf.SockAddrOtoT), w.target);
    if tx.Err? {
      requests := BestEffortClose(open, requests);
      return Err(tx.error), requests, after;
    }
    var group := ResolveGroup(SockIn(w.reply, Cpf.SockAddrTtoO), spec.t2o.connType);
    if group.Err? {
      requests := BestEffortClose(open, requests);
      return Err(group.error), requests, after;
    }
    var params := ConnParams(spec, ids, success, tx.value.0, group.value);
    var (armed, verdict) := ManagerStep(w.task, Add(params, w.now, w.joinOk, true));
    if verdict.Stopped? {
      requests := BestEffortClose(open, requests);
      return Err(Closed), requests, after;
    }
    ArmedIsEstablished(spec, ids, open, success, w, tx.value.0, tx.value.1.RefusedForeign?);
    if verdict.JoinRefused? {
      requests := BestEffortClose(open, requests);
      return Err(Io), requests, after;
    }
    after := armed;
    r := Ok(Opened(HandleOf(params), params, tx.value.1.RefusedForeign?));
  }
}
