/** The two socket-error policies over whole outcome histories (io.rs). */
module SocketErrors {
  import opened Prelude
  import opened ConnectionState

  // ----- sending -----

  predicate FatalSend(r: SendResult) {
    r.SendErr? && !IsPerDatagram(r.kind)
  }

  /** Non-survivable send errors since the last successful send; per-datagram errors do not reset it. */
  function FatalSinceOk(ops: seq<Op>): nat {
    if ops == [] then 0
    else
      var op, before := ops[|ops| - 1], ops[..|ops| - 1];
      if !op.SendOp? then FatalSinceOk(before)
      else if op.result.SendOk? then 0
      else FatalSinceOk(before) + if FatalSend(op.result) then 1 else 0
  }

  function CountSends(ops: seq<Op>, ok: bool): nat {
    if ops == [] then 0
    else CountSends(ops[..|ops| - 1], ok) + if ops[|ops| - 1].SendOp? && ops[|ops| - 1].result.SendOk? == ok then 1 else 0
  }

  lemma {:induction false} SendAccounting(c: Conn, ops: seq<Op>)
    requires c.sendStreak == 0
    ensures Run(c, ops).sendStreak == Min(FatalSinceOk(ops), U32_MAX)
    ensures Run(c, ops).counters.framesProduced == c.counters.framesProduced + CountSends(ops, true)
    ensures Run(c, ops).counters.sendErrors == c.counters.sendErrors + CountSends(ops, false)
    decreases |ops|
  {
    if ops != [] {
      SendAccounting(c, ops[..|ops| - 1]);
      OneSend(Run(c, ops[..|ops| - 1]), ops[|ops| - 1]);
    }
  }

  lemma OneSend(c: Conn, op: Op)
    ensures var d := Apply(c, op);
            if !op.SendOp? then d.sendStreak == c.sendStreak && d.counters.framesProduced == c.counters.framesProduced && d.counters.sendErrors == c.counters.sendErrors
            else if op.result.SendOk? then d.sendStreak == 0 && d.counters.framesProduced == c.counters.framesProduced + 1 && d.counters.sendErrors == c.counters.sendErrors
            else d.sendStreak == (if FatalSend(op.result) then SaturatingInc32(c.sendStreak) else c.sendStreak)
                 && d.counters.framesProduced == c.counters.framesProduced && d.counters.sendErrors == c.counters.sendErrors + 1
  {
  }

  /** A send kills the connection exactly when it fails for good and is at least the third such failure since the last success. */
  lemma ConnectionDeadExact(p: Params, created: nat, ops: seq<Op>, r: SendResult)
    ensures RecordSend(Run(NewConn(p, created), ops), r).1 == ConnectionDead
       <==> FatalSend(r) && FatalSinceOk(ops + [SendOp(r)]) >= 3
  {
    SendAccounting(NewConn(p, created), ops);
    var longer := ops + [SendOp(r)];
    assert longer[..|longer| - 1] == ops;
  }

  // ----- receiving -----

  const MAX_CONSECUTIVE_FATAL_RECV_ERRORS: nat := 3

  datatype RecvOutcome = RecvOk | RecvErr(kind: ErrorKind)
  datatype RecvAction = Continue | FatalSocket

  predicate FatalRecv(o: RecvOutcome) {
    o.RecvErr? && !IsPerDatagram(o.kind)
  }

  function OnRecv(streak: nat, o: RecvOutcome): (nat, RecvAction) {
    if !FatalRecv(o) then (0, Continue)
    else
      var next := SaturatingInc32(streak);
      (next, if next >= MAX_CONSECUTIVE_FATAL_RECV_ERRORS then FatalSocket else Continue)
  }

  function StreakAfter(h: seq<RecvOutcome>): nat {
    if h == [] then 0 else OnRecv(StreakAfter(h[..|h| - 1]), h[|h| - 1]).0
  }

  /** The streak is long exactly when that many outcomes at the end were all fatal. */
  lemma {:induction false} StreakMeansSuffix(h: seq<RecvOutcome>, n: nat)
    requires n <= U32_MAX
    ensures StreakAfter(h) >= n <==> |h| >= n && forall i :: |h| - n <= i < |h| ==> FatalRecv(h[i])
    decreases |h|
  {
    if h != [] && n > 0 {
      var before := h[..|h| - 1];
      StreakMeansSuffix(before, n - 1);
      assert h == before + [h[|h| - 1]];
      if FatalRecv(h[|h| - 1]) {
        assert (forall i :: |h| - n <= i < |h| && i >= 0 ==> FatalRecv(h[i])) <==> forall i :: |before| - (n - 1) <= i < |before| && i >= 0 ==> FatalRecv(before[i]) by {
          assert forall i :: 0 <= i < |before| ==> before[i] == h[i];
        }
      } else {
        assert !FatalRecv(h[|h| - 1]);
      }
    }
  }

  /** The socket is declared dead exactly when the last three outcomes were all fatal. */
  lemma {:induction false} FatalSocketExact(h: seq<RecvOutcome>, o: RecvOutcome)
    ensures OnRecv(StreakAfter(h), o).1 == FatalSocket
       <==> var all := h + [o];
            |all| >= 3 && FatalRecv(all[|all| - 1]) && FatalRecv(all[|all| - 2]) && FatalRecv(all[|all| - 3])
  {
    var all := h + [o];
    assert all[..|all| - 1] == h;
    StreakMeansSuffix(all, 3);
  }

  class RecvErrorPolicy {
    var consecutiveFatal: nat

    constructor ()
      ensures consecutiveFatal == 0
    {
      consecutiveFatal := 0;
    }

    method OnRecvError(kind: ErrorKind) returns (action: RecvAction)
      modifies this
      ensures (consecutiveFatal, action) == OnRecv(old(consecutiveFatal), RecvErr(kind))
    {
      if IsPerDatagram(kind) {
        consecutiveFatal := 0;
        return Continue;
      }
      consecutiveFatal := SaturatingInc32(consecutiveFatal);
      action := if consecutiveFatal >= MAX_CONSECUTIVE_FATAL_RECV_ERRORS then FatalSocket else Continue;
    }

    method OnRecvOk()
      modifies this
      ensures consecutiveFatal == OnRecv(old(consecutiveFatal), RecvOk).0
    {
      consecutiveFatal := 0;
    }
  }
}
