/** What each operation of the class-1 connection state machine does to its state (io.rs). Times are nanoseconds. */
module ConnectionState {
  import opened Prelude
  import opened Wire
  import opened Errors
  import opened Frame
  import Cpf

  // ----- clock arithmetic -----

  const SECOND: nat := 1_000_000_000

  /** The last representable instant and the longest duration of the platform clock. */
  const INSTANT_MAX: nat := 0x7FFF_FFFF_FFFF_FFFF * SECOND + 999_999_999
  const DURATION_MAX: nat := U64_MAX * SECOND + 999_999_999

  function CheckedAdd(t: nat, d: nat): Option<nat> {
    if t + d <= INSTANT_MAX then Some(t + d) else None
  }

  // ----- socket outcomes -----

  datatype ErrorKind =
    | ConnectionReset | ConnectionRefused | ConnectionAborted | Interrupted | WouldBlock
    | InvalidData
    | OtherKind(code: nat)

  predicate IsPerDatagram(kind: ErrorKind) {
    kind.ConnectionReset? || kind.ConnectionRefused? || kind.ConnectionAborted? || kind.Interrupted? || kind.WouldBlock?
  }

  /** The kinds a datagram socket survives; any other counts towards its death. */
  lemma SurvivableKinds(kind: ErrorKind)
    ensures IsPerDatagram(ConnectionReset) && IsPerDatagram(ConnectionRefused) && IsPerDatagram(ConnectionAborted)
    ensures IsPerDatagram(Interrupted) && IsPerDatagram(WouldBlock)
    ensures !IsPerDatagram(InvalidData) && (kind.OtherKind? ==> !IsPerDatagram(kind))
  {
  }

  datatype SendResult = SendOk | SendErr(kind: ErrorKind)
  datatype SendOutcome = Sent | Dropped | ConnectionDead

  const MAX_CONSECUTIVE_SEND_ERRORS: nat := 3

  function SaturatingInc32(n: nat): nat {
    if n >= U32_MAX then U32_MAX else n + 1
  }

  // ----- the state -----

  datatype Ip = V4(addr: u32) | V6(id: nat)
  datatype Endpoint = Endpoint(ip: Ip, port: u16)

  datatype Params = Params(
    o2tId: u32, t2oId: u32,
    o2tApi: nat, t2oApi: nat, multiplier: nat,
    o2tFormat: Format, t2oFormat: Format,
    o2tSize: nat, t2oSize: nat, o2tFixed: bool, t2oFixed: bool,
    txEndpoint: Endpoint, expectedSource: Ip, group: Option<u32>)

  datatype Counters = Counters(
    framesAccepted: nat, framesProduced: nat, sizeMismatch: nat, staleFrames: nat,
    sequenceGaps: nat, produceOverruns: nat, sendErrors: nat)

  const ZERO: Counters := Counters(0, 0, 0, 0, 0, 0, 0)

  datatype Conn = Conn(
    params: Params,
    class1Seq: u16, encapSeq: u32, output: Bytes, run: bool, nextProduceAt: nat, sendStreak: nat,
    lastSeq: Option<u16>, up: bool, deadline: nat, counters: Counters)

  /** `multiplier` times the T-to-O interval, saturating at the longest duration. */
  function WatchdogTimeout(p: Params): nat {
    Min(p.multiplier * p.t2oApi, DURATION_MAX)
  }

  function DeadlineFrom(p: Params, now: nat): nat {
    CheckedAdd(now, WatchdogTimeout(p)).UnwrapOr(now)
  }

  function NewConn(p: Params, now: nat): Conn {
    Conn(p, 0, 0, [], true, CheckedAdd(now, p.o2tApi).UnwrapOr(now), 0, None, false, DeadlineFrom(p, now), ZERO)
  }

  // ----- consuming -----

  datatype Update = Update(data: Bytes, sequence: u16, encapSequence: u32, runMode: bool, receivedAt: nat)
  datatype DropReason = MalformedDatagram | UnknownConnection | SourceMismatch | SizeMismatch | Stale
  datatype ConsumeOutcome = Accepted(first: bool, update: Update) | DroppedFrame(reason: DropReason)

  /** The wrapping difference `arrived - last`, an unsigned 16-bit word. */
  function Delta(arrived: u16, last: u16): u16 {
    (arrived - last) % 0x1_0000
  }

  /** The difference, read as a signed word, is not positive. */
  predicate IsStale(arrived: u16, last: u16) {
    Delta(arrived, last) == 0 || Delta(arrived, last) >= 0x8000
  }

  predicate BadSize(p: Params, len: nat) {
    if p.t2oFixed then len != p.t2oSize else len > p.t2oSize
  }

  function CountSizeMismatch(c: Conn): Conn {
    c.(counters := c.counters.(sizeMismatch := c.counters.sizeMismatch + 1))
  }

  function CountStale(c: Conn): Conn {
    c.(counters := c.counters.(staleFrames := c.counters.staleFrames + 1))
  }

  function Accept(c: Conn, f: IoFrame, now: nat): Conn {
    var gap := if f.sequence.Some? && c.lastSeq.Some? then Delta(f.sequence.value, c.lastSeq.value) - 1 else 0;
    c.(lastSeq := if f.sequence.Some? then f.sequence else c.lastSeq,
       up := true,
       deadline := DeadlineFrom(c.params, now),
       counters := c.counters.(framesAccepted := c.counters.framesAccepted + 1,
                               sequenceGaps := c.counters.sequenceGaps + Max(gap, 0)))
  }

  function Consume(c: Conn, payload: Bytes, encap: u32, now: nat): (Conn, ConsumeOutcome) {
    match DecodeFrame(c.params.t2oFormat, payload)
    case Err(_) => (CountSizeMismatch(c), DroppedFrame(SizeMismatch))
    case Ok(f) =>
      if BadSize(c.params, |f.data|) then (CountSizeMismatch(c), DroppedFrame(SizeMismatch))
      else if f.sequence.Some? && c.lastSeq.Some? && IsStale(f.sequence.value, c.lastSeq.value) then (CountStale(c), DroppedFrame(Stale))
      else (Accept(c, f, now), Accepted(!c.up, Update(f.data, f.sequence.UnwrapOr(0), encap, f.runMode.UnwrapOr(true), now)))
  }

  /** Size first: a fixed connection takes exactly the negotiated size, a variable one at most that, and neither a payload too short for its format; then the window. Each verdict is on exactly one counter. */
  lemma ConsumeVerdicts(c: Conn, payload: Bytes, encap: u32, now: nat)
    ensures var (d, out) := Consume(c, payload, encap, now);
            var before := c.params.t2oFormat.Overhead();
            var tooShort := |payload| < before;
            var wrongSize := if c.params.t2oFixed then |payload| - before != c.params.t2oSize else |payload| - before > c.params.t2oSize;
            && (out == DroppedFrame(SizeMismatch) <==> tooShort || wrongSize)
            && (out == DroppedFrame(SizeMismatch) ==> d == c.(counters := c.counters.(sizeMismatch := c.counters.sizeMismatch + 1)))
            && (out == DroppedFrame(Stale) ==> d == c.(counters := c.counters.(staleFrames := c.counters.staleFrames + 1)))
            && (out.DroppedFrame? ==> out.reason == SizeMismatch || out.reason == Stale)
            && (out.Accepted? ==>
                  && d.counters.framesAccepted == c.counters.framesAccepted + 1
                  && d.counters.sizeMismatch == c.counters.sizeMismatch && d.counters.staleFrames == c.counters.staleFrames
                  && d.counters.framesProduced == c.counters.framesProduced && d.counters.sendErrors == c.counters.sendErrors
                  && d.counters.produceOverruns == c.counters.produceOverruns)
            && (out == DroppedFrame(Stale) <==> !tooShort && !wrongSize && c.params.t2oFormat.HasSequence() && c.lastSeq.Some?
                                                && IsStale(FromLe(payload[0..2]), c.lastSeq.value))
  {
    Widths();
    if c.params.t2oFormat.HasSequence() && |payload| >= 2 {
      assert U16At(payload, 0) == Ok(FromLe(payload[0..2]));
    }
  }

  // ----- producing -----

  function NextSeq(current: u16): u16 {
    if current == U16_MAX then 1 else current + 1
  }

  function Advance(c: Conn): Conn {
    c.(encapSeq := (c.encapSeq + 1) % 0x1_0000_0000, class1Seq := NextSeq(c.class1Seq))
  }

  /** The frame a connection would print with its current sequence, run bit and buffer. */
  function CurrentFrame(c: Conn): IoFrame {
    var format := c.params.o2tFormat;
    IoFrame(if format.HasSequence() then Some(c.class1Seq) else None,
            if format.HasHeader() then Some(c.run) else None,
            if format.CarriesData() then c.output else [])
  }

  function DatagramItems(c: Conn): seq<Cpf.Item> {
    [Cpf.Item(Cpf.SequencedAddress, Cpf.EncodeSeqAddr(Cpf.SeqAddr(c.params.o2tId, c.encapSeq))),
     Cpf.Item(Cpf.ConnectedData, EncodeFrame(c.params.o2tFormat, CurrentFrame(c)))]
  }

  /** Sequences advance first, so a datagram that cannot be encoded still uses one up. */
  function ProduceFrame(c: Conn): (Conn, Result<Bytes, EnipError>) {
    var next := Advance(c);
    match Cpf.Encode(DatagramItems(next))
    case Ok(b) => (next, Ok(b))
    case Err(e) => (next, Err(WireFault(e)))
  }

  function Period(c: Conn): (p: nat)
    ensures p > 0
  {
    Max(c.params.o2tApi, 1)
  }

  /** Whole periods that lapsed since the tick that is due. */
  function Skipped(c: Conn, now: nat): nat
    requires c.nextProduceAt <= now
  {
    (now - c.nextProduceAt) / Period(c)
  }

  /** The guard of the arithmetic re-arm: no step of it clamps or overflows. */
  predicate Rearmable(c: Conn, now: nat)
    requires c.nextProduceAt <= now
  {
    var steps := Skipped(c, now) + 1;
    steps <= U32_MAX && Period(c) * steps <= DURATION_MAX && c.nextProduceAt + Period(c) * steps <= INSTANT_MAX
  }

  /** Schedule and overrun count after the tick due at `now` fired. */
  function Rearm(c: Conn, now: nat): Conn
    requires c.nextProduceAt <= now
  {
    var steps := Skipped(c, now) + 1;
    var counted := if c.params.o2tApi == 0 then Min(steps - 1, 1) else steps - 1;
    c.(nextProduceAt := if Rearmable(c, now) then c.nextProduceAt + Period(c) * steps
                        else CheckedAdd(now, Period(c)).UnwrapOr(now),
       counters := c.counters.(produceOverruns := c.counters.produceOverruns + Min(counted, U64_MAX)))
  }

  function PollProduce(c: Conn, now: nat): (Conn, Option<Result<Bytes, EnipError>>) {
    if now < c.nextProduceAt then (c, None)
    else
      var (next, datagram) := ProduceFrame(Rearm(c, now));
      (next, Some(datagram))
  }

  function RecordSend(c: Conn, r: SendResult): (Conn, SendOutcome) {
    match r
    case SendOk =>
      (c.(sendStreak := 0, counters := c.counters.(framesProduced := c.counters.framesProduced + 1)), Sent)
    case SendErr(kind) =>
      var counted := c.(counters := c.counters.(sendErrors := c.counters.sendErrors + 1));
      if IsPerDatagram(kind) then (counted, Dropped)
      else
        var streak := SaturatingInc32(c.sendStreak);
        (counted.(sendStreak := streak), if streak >= MAX_CONSECUTIVE_SEND_ERRORS then ConnectionDead else Dropped)
  }

  predicate PollWatchdog(c: Conn, now: nat) {
    now >= c.deadline
  }

  // ----- runs -----

  datatype Op =
    | ConsumeOp(payload: Bytes, encap: u32, now: nat)
    | ProduceOp(now: nat)
    | SendOp(result: SendResult)
    | OutputOp(bytes: Bytes)
    | RunOp(run: bool)

  function Apply(c: Conn, op: Op): (r: Conn)
    ensures r.params == c.params
  {
    match op
    case ConsumeOp(payload, encap, now) => Consume(c, payload, encap, now).0
    case ProduceOp(now) => PollProduce(c, now).0
    case SendOp(result) => RecordSend(c, result).0
    case OutputOp(bytes) => c.(output := bytes)
    case RunOp(run) => c.(run := run)
  }

  /** The state after a whole history of operations. */
  function Run(c: Conn, ops: seq<Op>): (r: Conn)
    ensures r.params == c.params
  {
    if ops == [] then c else Apply(Run(c, ops[..|ops| - 1]), ops[|ops| - 1])
  }
}
