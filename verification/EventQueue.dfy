/** One connection's event stream: a queue that evicts the oldest sample to admit the newest (io.rs). */
module EventQueue {
  import opened Prelude
  import opened ConnectionState

  datatype LostReason = LostTimeout | ClosedByPeer | LostIo

  datatype Event =
    | Up(o2tApi: nat, t2oApi: nat)
    | Data(update: Update)
    | Lost(reason: LostReason)

  datatype PushOutcome = Queued | EvictedOldest | ReceiverGone
  datatype TryRecvError = Empty | Disconnected

  datatype Queue = Queue(deque: seq<Event>, capacity: nat, dataLen: nat, txClosed: bool, rxClosed: bool)

  function NewQueue(capacity: nat): Queue {
    Queue([], Max(capacity, 1), 0, false, false)
  }

  function CountData(q: seq<Event>): nat {
    if q == [] then 0 else (if q[0].Data? then 1 else 0) + CountData(q[1..])
  }

  /** Index of the first `Data` event, or the length when there is none. */
  function FirstData(q: seq<Event>): (k: nat)
    ensures k <= |q|
    ensures forall i :: 0 <= i < k ==> !q[i].Data?
    ensures k < |q| ==> q[k].Data?
  {
    if q == [] || q[0].Data? then 0 else 1 + FirstData(q[1..])
  }

  function Without(q: seq<Event>, k: nat): seq<Event>
    requires k < |q|
  {
    q[..k] + q[k + 1..]
  }

  function Push(q: Queue, ev: Event): (Queue, PushOutcome) {
    if q.rxClosed then (q, ReceiverGone)
    else if !ev.Data? then (q.(deque := q.deque + [ev]), Queued)
    else if q.dataLen >= q.capacity && FirstData(q.deque) < |q.deque| then
      (q.(deque := Without(q.deque, FirstData(q.deque)) + [ev], dataLen := Max(q.dataLen - 1, 0) + 1), EvictedOldest)
    else (q.(deque := q.deque + [ev], dataLen := q.dataLen + 1), Queued)
  }

  function Pop(q: Queue): (Queue, Option<Event>) {
    if q.deque == [] then (q, None)
    else (q.(deque := q.deque[1..], dataLen := if q.deque[0].Data? then Max(q.dataLen - 1, 0) else q.dataLen), Some(q.deque[0]))
  }

  // ----- runs of sends, receives and closes, with the log they stand for -----

  datatype QueueOp = Send(ev: Event) | Receive | CloseRx | CloseTx

  /** A queue with its history: everything sent while the receiver lived, and which of it is where. Entries of the last three are positions in `sent`. */
  datatype Trace = Trace(q: Queue, sent: seq<Event>, queued: seq<nat>, popped: seq<nat>, evicted: seq<nat>)

  function Start(capacity: nat): Trace {
    Trace(NewQueue(capacity), [], [], [], [])
  }

  function Step(t: Trace, op: QueueOp): Trace {
    match op
    case Send(ev) =>
      var (q, out) := Push(t.q, ev);
      var n := |t.sent|;
      (match out
       case ReceiverGone => t
       case Queued => t.(q := q, sent := t.sent + [ev], queued := t.queued + [n])
       case EvictedOldest =>
         var k := FirstData(t.q.deque);
         if k < |t.queued| then
           t.(q := q, sent := t.sent + [ev], queued := t.queued[..k] + t.queued[k + 1..] + [n], evicted := t.evicted + [t.queued[k]])
         else t.(q := q, sent := t.sent + [ev], queued := t.queued + [n]))
    case Receive =>
      if t.queued == [] then t.(q := Pop(t.q).0)
      else t.(q := Pop(t.q).0, queued := t.queued[1..], popped := t.popped + [t.queued[0]])
    case CloseRx => t.(q := t.q.(rxClosed := true))
    case CloseTx => t.(q := t.q.(txClosed := true))
  }

  function Trail(capacity: nat, ops: seq<QueueOp>): Trace {
    if ops == [] then Start(capacity) else Step(Trail(capacity, ops[..|ops| - 1]), ops[|ops| - 1])
  }

  predicate Increasing(s: seq<nat>) {
    forall i, j :: 0 <= i < j < |s| ==> s[i] < s[j]
  }

  predicate Inside(s: seq<nat>, n: nat) {
    forall i :: 0 <= i < |s| ==> s[i] < n
  }

  /** The drop-oldest log the queue implements. */
  ghost predicate DropOldestLog(t: Trace) {
    // the census
    && t.q.dataLen == CountData(t.q.deque) <= t.q.capacity
    && t.q.capacity > 0
    // the queue holds the queued part of the log, in order, and everything received was sent before it
    && |t.queued| == |t.q.deque|
    && Inside(t.queued, |t.sent|) && Inside(t.popped, |t.sent|) && Inside(t.evicted, |t.sent|)
    && (forall i :: 0 <= i < |t.queued| ==> t.q.deque[i] == t.sent[t.queued[i]])
    && Increasing(t.popped + t.queued)
    // only samples are evicted, and every queued sample is newer than every evicted or received one
    && (forall i :: 0 <= i < |t.evicted| ==> t.sent[t.evicted[i]].Data?)
    && Increasing(t.evicted)
    && (forall i, j :: 0 <= i < |t.evicted| && 0 <= j < |t.queued| && t.q.deque[j].Data? ==> t.evicted[i] < t.queued[j])
    // nothing sent is lost without a trace, and nothing is in two places
    && (forall n :: 0 <= n < |t.sent| ==> n in t.popped || n in t.queued || n in t.evicted)
    && (forall n :: n in t.evicted ==> n !in t.popped && n !in t.queued)
    && |t.sent| == |t.popped| + |t.queued| + |t.evicted|
  }

  lemma {:induction false} CountAppend(a: seq<Event>, b: seq<Event>)
    ensures CountData(a + b) == CountData(a) + CountData(b)
  {
    if a == [] {
      assert a + b == b;
    } else {
      CountAppend(a[1..], b);
      assert (a + b)[1..] == a[1..] + b;
    }
  }

  lemma CountWithout(q: seq<Event>, k: nat)
    requires k < |q|
    ensures CountData(Without(q, k)) == CountData(q) - if q[k].Data? then 1 else 0
  {
    CountAppend(q[..k], q[k + 1..]);
    CountAppend(q[..k], q[k..]);
    assert q[..k] + q[k..] == q;
    assert q[k..][1..] == q[k + 1..];
  }

  lemma {:induction false} NoDataNoCount(q: seq<Event>)
    requires FirstData(q) == |q|
    ensures CountData(q) == 0
  {
    if q != [] {
      NoDataNoCount(q[1..]);
    }
  }

  /** At capacity there is always a sample to evict: the fall-through is unreachable. */
  lemma EvictionFindsData(t: Trace)
    requires DropOldestLog(t) && t.q.dataLen >= t.q.capacity
    ensures FirstData(t.q.deque) < |t.q.deque|
  {
    if FirstData(t.q.deque) == |t.q.deque| {
      NoDataNoCount(t.q.deque);
    }
  }

  lemma AppendKeepsLog(t: Trace, ev: Event)
    requires DropOldestLog(t) && !t.q.rxClosed
    requires ev.Data? ==> t.q.dataLen < t.q.capacity
    ensures DropOldestLog(Step(t, Send(ev)))
  {
    CountAppend(t.q.deque, [ev]);
    IncreasingAppend(t.popped, t.queued, |t.sent|);
    AppendMatches(t, ev);
    AppendCovers(t, ev);
    AppendSeparates(t, ev);
  }

  lemma AppendSeparates(t: Trace, ev: Event)
    requires |t.queued| == |t.q.deque| && Inside(t.evicted, |t.sent|)
    requires forall i, j :: 0 <= i < |t.evicted| && 0 <= j < |t.queued| && t.q.deque[j].Data? ==> t.evicted[i] < t.queued[j]
    requires forall n :: n in t.evicted ==> n !in t.popped && n !in t.queued
    ensures var deque, queued := t.q.deque + [ev], t.queued + [|t.sent|];
            && (forall i, j :: 0 <= i < |t.evicted| && 0 <= j < |queued| && deque[j].Data? ==> t.evicted[i] < queued[j])
            && (forall n :: n in t.evicted ==> n !in t.popped && n !in queued)
  {
  }

  lemma IncreasingAppend(a: seq<nat>, b: seq<nat>, n: nat)
    requires Increasing(a + b) && Inside(a, n) && Inside(b, n)
    ensures Increasing(a + (b + [n]))
  {
    var s := a + b;
    assert a + (b + [n]) == s + [n];
    forall i | 0 <= i < |s| ensures s[i] < n {
      assert s[i] == if i < |a| then a[i] else b[i - |a|];
    }
  }

  lemma AppendMatches(t: Trace, ev: Event)
    requires |t.queued| == |t.q.deque| && Inside(t.queued, |t.sent|)
    requires forall i :: 0 <= i < |t.queued| ==> t.q.deque[i] == t.sent[t.queued[i]]
    ensures var deque, queued, sent := t.q.deque + [ev], t.queued + [|t.sent|], t.sent + [ev];
            forall i :: 0 <= i < |queued| ==> queued[i] < |sent| && deque[i] == sent[queued[i]]
  {
  }

  lemma AppendCovers(t: Trace, ev: Event)
    requires forall n :: 0 <= n < |t.sent| ==> n in t.popped || n in t.queued || n in t.evicted
    ensures forall n :: 0 <= n <= |t.sent| ==> n in t.popped || n in t.queued + [|t.sent|] || n in t.evicted
  {
    var n := |t.sent|;
    var queued := t.queued + [n];
    forall m | 0 <= m <= n ensures m in t.popped || m in queued || m in t.evicted {
      if m == n {
        assert queued[|t.queued|] == n;
      } else if m in t.queued {
        var i :| 0 <= i < |t.queued| && t.queued[i] == m;
        assert queued[i] == m;
      }
    }
  }

  ghost predicate Full(t: Trace, ev: Event) {
    DropOldestLog(t) && !t.q.rxClosed && ev.Data? && t.q.dataLen >= t.q.capacity
  }

  /** What an eviction does to the log. */
  lemma EvictionStep(t: Trace, ev: Event)
    requires Full(t, ev)
    ensures var k := FirstData(t.q.deque);
            && k < |t.queued|
            && Push(t.q, ev).1 == EvictedOldest
            && Step(t, Send(ev)) == Trace(
                 t.q.(deque := Without(t.q.deque, k) + [ev]), t.sent + [ev],
                 t.queued[..k] + t.queued[k + 1..] + [|t.sent|], t.popped, t.evicted + [t.queued[k]])
  {
    EvictionFindsData(t);
    CountWithout(t.q.deque, FirstData(t.q.deque));
  }

  lemma EvictCensus(t: Trace, ev: Event)
    requires Full(t, ev)
    ensures var u := Step(t, Send(ev));
            u.q.dataLen == CountData(u.q.deque) <= u.q.capacity
  {
    EvictionStep(t, ev);
    var k := FirstData(t.q.deque);
    CountWithout(t.q.deque, k);
    CountAppend(Without(t.q.deque, k), [ev]);
  }

  lemma EvictOrder(t: Trace, ev: Event)
    requires Full(t, ev)
    ensures var u := Step(t, Send(ev));
            && |u.queued| == |u.q.deque|
            && (forall i :: 0 <= i < |u.queued| ==> u.q.deque[i] == u.sent[u.queued[i]])
            && Inside(u.queued, |u.sent|)
            && Increasing(u.popped + u.queued)
  {
    EvictionStep(t, ev);
    var k := FirstData(t.q.deque);
    IncreasingWithout(t.popped, t.queued, k, |t.sent|);
    QueuedMatches(t, ev, k);
  }

  lemma IncreasingWithout(a: seq<nat>, b: seq<nat>, k: nat, n: nat)
    requires Increasing(a + b) && Inside(a, n) && Inside(b, n) && k < |b|
    ensures Increasing(a + (b[..k] + b[k + 1..] + [n]))
  {
    assert Increasing(a + (b[..k] + b[k + 1..])) by {
      var s, r, p := a + b, a + (b[..k] + b[k + 1..]), |a| + k;
      forall i | 0 <= i < |r| ensures r[i] == s[if i < p then i else i + 1] {
      }
    }
    IncreasingAppend(a, b[..k] + b[k + 1..], n);
  }

  lemma QueuedMatches(t: Trace, ev: Event, k: nat)
    requires |t.queued| == |t.q.deque| && Inside(t.queued, |t.sent|) && k < |t.queued|
    requires forall i :: 0 <= i < |t.queued| ==> t.q.deque[i] == t.sent[t.queued[i]]
    ensures var deque, queued, sent := Without(t.q.deque, k) + [ev], t.queued[..k] + t.queued[k + 1..] + [|t.sent|], t.sent + [ev];
            |queued| == |deque| && forall i :: 0 <= i < |queued| ==> queued[i] < |sent| && deque[i] == sent[queued[i]]
  {
    var queued := t.queued[..k] + t.queued[k + 1..] + [|t.sent|];
    forall i | 0 <= i < |queued| - 1 ensures queued[i] == t.queued[if i < k then i else i + 1] {
    }
  }

  lemma EvictOldestFirst(t: Trace, ev: Event)
    requires Full(t, ev)
    ensures var u := Step(t, Send(ev));
            && Inside(u.evicted, |u.sent|)
            && (forall i :: 0 <= i < |u.evicted| ==> u.sent[u.evicted[i]].Data?)
            && Increasing(u.evicted)
            && (forall i, j :: 0 <= i < |u.evicted| && 0 <= j < |u.queued| && u.q.deque[j].Data? ==> u.evicted[i] < u.queued[j])
  {
    EvictionStep(t, ev);
    var k := FirstData(t.q.deque);
    NextEvicted(t, ev, k);
    EvictedBeforeWaiting(t, ev, k);
  }

  /** The sample evicted is newer than every one evicted before. */
  lemma NextEvicted(t: Trace, ev: Event, k: nat)
    requires Inside(t.evicted, |t.sent|) && Inside(t.queued, |t.sent|) && Increasing(t.evicted)
    requires k < |t.queued| == |t.q.deque| && t.q.deque[k].Data? && t.q.deque[k] == t.sent[t.queued[k]]
    requires forall i :: 0 <= i < |t.evicted| ==> t.sent[t.evicted[i]].Data?
    requires forall i, j :: 0 <= i < |t.evicted| && 0 <= j < |t.queued| && t.q.deque[j].Data? ==> t.evicted[i] < t.queued[j]
    ensures var evicted, sent := t.evicted + [t.queued[k]], t.sent + [ev];
            Increasing(evicted) && forall i :: 0 <= i < |evicted| ==> evicted[i] < |sent| && sent[evicted[i]].Data?
  {
  }

  /** And older than every one that still waits. */
  lemma EvictedBeforeWaiting(t: Trace, ev: Event, k: nat)
    requires k < |t.queued| == |t.q.deque| && t.q.deque[k].Data? && forall i :: 0 <= i < k ==> !t.q.deque[i].Data?
    requires Inside(t.evicted, |t.sent|) && Inside(t.queued, |t.sent|) && Increasing(t.popped + t.queued)
    requires forall i, j :: 0 <= i < |t.evicted| && 0 <= j < |t.queued| && t.q.deque[j].Data? ==> t.evicted[i] < t.queued[j]
    ensures var evicted, queued, deque := t.evicted + [t.queued[k]], t.queued[..k] + t.queued[k + 1..] + [|t.sent|], Without(t.q.deque, k) + [ev];
            forall i, j :: 0 <= i < |evicted| && 0 <= j < |queued| && deque[j].Data? ==> evicted[i] < queued[j]
  {
    var queued, deque := t.queued[..k] + t.queued[k + 1..] + [|t.sent|], Without(t.q.deque, k) + [ev];
    var live, p := t.popped + t.queued, |t.popped|;
    forall j | 0 <= j < |queued| && deque[j].Data?
      ensures t.queued[k] < queued[j] && forall i :: 0 <= i < |t.evicted| ==> t.evicted[i] < queued[j]
    {
      if j < |queued| - 1 {
        assert j >= k && deque[j] == t.q.deque[j + 1] && queued[j] == t.queued[j + 1];
        assert live[p + k] == t.queued[k] && live[p + j + 1] == t.queued[j + 1];
      }
    }
  }

  lemma EvictCovers(t: Trace, ev: Event)
    requires Full(t, ev)
    ensures var u := Step(t, Send(ev));
            forall m :: 0 <= m < |u.sent| ==> m in u.popped || m in u.queued || m in u.evicted
  {
    EvictionStep(t, ev);
    StillCovered(t, FirstData(t.q.deque));
  }

  lemma StillCovered(t: Trace, k: nat)
    requires k < |t.queued| && forall n :: 0 <= n < |t.sent| ==> n in t.popped || n in t.queued || n in t.evicted
    ensures var queued, evicted := t.queued[..k] + t.queued[k + 1..] + [|t.sent|], t.evicted + [t.queued[k]];
            forall n :: 0 <= n <= |t.sent| ==> n in t.popped || n in queued || n in evicted
  {
    var queued, evicted := t.queued[..k] + t.queued[k + 1..] + [|t.sent|], t.evicted + [t.queued[k]];
    forall n | 0 <= n <= |t.sent| ensures n in t.popped || n in queued || n in evicted {
      if n == |t.sent| {
        assert queued[|queued| - 1] == n;
      } else if n in t.queued {
        var i :| 0 <= i < |t.queued| && t.queued[i] == n;
        if i == k {
          assert evicted[|t.evicted|] == n;
        } else {
          assert queued[if i < k then i else i - 1] == n;
        }
      }
    }
  }

  lemma EvictSeparates(t: Trace, ev: Event)
    requires Full(t, ev)
    ensures var u := Step(t, Send(ev));
            forall m :: m in u.evicted ==> m !in u.popped && m !in u.queued
  {
    EvictionStep(t, ev);
    StillSeparate(t, FirstData(t.q.deque));
  }

  lemma StillSeparate(t: Trace, k: nat)
    requires k < |t.queued| && Increasing(t.popped + t.queued) && Inside(t.queued, |t.sent|) && Inside(t.evicted, |t.sent|)
    requires forall n :: n in t.evicted ==> n !in t.popped && n !in t.queued
    ensures var queued, evicted := t.queued[..k] + t.queued[k + 1..] + [|t.sent|], t.evicted + [t.queued[k]];
            forall n :: n in evicted ==> n !in t.popped && n !in queued
  {
    var queued, e := t.queued[..k] + t.queued[k + 1..] + [|t.sent|], t.queued[k];
    var live, p := t.popped + t.queued, |t.popped|;
    assert live[p + k] == e;
    forall i | 0 <= i < p ensures t.popped[i] != e {
      assert live[i] == t.popped[i];
    }
    forall i | 0 <= i < |queued| ensures queued[i] != e && (queued[i] == |t.sent| || queued[i] in t.queued) {
      if i < |queued| - 1 {
        assert live[p + (if i < k then i else i + 1)] == queued[i];
      }
    }
  }

  lemma EvictKeepsLog(t: Trace, ev: Event)
    requires Full(t, ev)
    ensures DropOldestLog(Step(t, Send(ev)))
  {
    EvictionStep(t, ev);
    EvictCensus(t, ev);
    EvictOrder(t, ev);
    EvictOldestFirst(t, ev);
    EvictCovers(t, ev);
    EvictSeparates(t, ev);
  }

  lemma ReceiveKeepsLog(t: Trace)
    requires DropOldestLog(t)
    ensures DropOldestLog(Step(t, Receive))
  {
    if t.queued != [] {
      var u := Step(t, Receive);
      var q := t.q.deque;
      assert CountData(q) == (if q[0].Data? then 1 else 0) + CountData(q[1..]);
      assert u.popped + u.queued == t.popped + t.queued;
      forall m | 0 <= m < |u.sent| ensures m in u.popped || m in u.queued || m in u.evicted {
        if m in t.popped {
          var i :| 0 <= i < |t.popped| && t.popped[i] == m;
          assert u.popped[i] == m;
        } else if m in t.queued {
          var i :| 0 <= i < |t.queued| && t.queued[i] == m;
          if i == 0 {
            assert u.popped[|t.popped|] == m;
          } else {
            assert u.queued[i - 1] == m;
          }
        }
      }
      forall m | m in u.evicted ensures m !in u.popped && m !in u.queued {
        assert t.queued[0] in t.queued;
      }
    }
  }

  /** Whatever is sent, received or closed in whatever order, the queue is that log. */
  lemma {:induction false} QueueRefinesDropOldest(capacity: nat, ops: seq<QueueOp>)
    ensures DropOldestLog(Trail(capacity, ops))
    decreases |ops|
  {
    if ops != [] {
      QueueRefinesDropOldest(capacity, ops[..|ops| - 1]);
      var t, op := Trail(capacity, ops[..|ops| - 1]), ops[|ops| - 1];
      match op {
        case Send(ev) =>
          if t.q.rxClosed {
          } else if ev.Data? && t.q.dataLen >= t.q.capacity {
            EvictKeepsLog(t, ev);
          } else {
            AppendKeepsLog(t, ev);
          }
        case Receive => ReceiveKeepsLog(t);
        case CloseRx =>
        case CloseTx =>
      }
    }
  }

  /** In every run, a queued sample is followed only by queued samples: what waits is the most recent samples sent, and control events leave only by being received. */
  lemma NewestSamplesWait(capacity: nat, ops: seq<QueueOp>)
    ensures var t := Trail(capacity, ops);
            && |t.queued| == |t.q.deque|
            && (forall j, n :: 0 <= j < |t.queued| && t.q.deque[j].Data? && t.queued[j] < n < |t.sent| && t.sent[n].Data? ==> n in t.queued)
            && (forall n :: 0 <= n < |t.sent| && !t.sent[n].Data? ==> n in t.popped || n in t.queued)
            && |t.q.deque| <= t.q.capacity + CountControl(t.q.deque)
  {
    QueueRefinesDropOldest(capacity, ops);
    var t := Trail(capacity, ops);
    var live := t.popped + t.queued;
    DataAndControl(t.q.deque);
    forall j, n | 0 <= j < |t.queued| && t.q.deque[j].Data? && t.queued[j] < n < |t.sent| && t.sent[n].Data?
      ensures n in t.queued
    {
      assert live[|t.popped| + j] == t.queued[j];
      assert forall i :: 0 <= i < |t.popped| ==> live[i] == t.popped[i];
    }
  }

  lemma {:induction false} CapacityFixed(capacity: nat, ops: seq<QueueOp>)
    ensures Trail(capacity, ops).q.capacity == Max(capacity, 1)
    decreases |ops|
  {
    if ops != [] {
      CapacityFixed(capacity, ops[..|ops| - 1]);
      StepKeepsCapacity(Trail(capacity, ops[..|ops| - 1]), ops[|ops| - 1]);
    }
  }

  lemma StepKeepsCapacity(t: Trace, op: QueueOp)
    ensures Step(t, op).q.capacity == t.q.capacity
  {
  }

  lemma {:induction false} ClosedExact(capacity: nat, ops: seq<QueueOp>)
    ensures Trail(capacity, ops).q.rxClosed <==> CloseRx in ops
    ensures Trail(capacity, ops).q.txClosed <==> CloseTx in ops
    decreases |ops|
  {
    if ops != [] {
      ClosedExact(capacity, ops[..|ops| - 1]);
      StepCloses(Trail(capacity, ops[..|ops| - 1]), ops[|ops| - 1]);
      InSnoc(ops, CloseRx);
      InSnoc(ops, CloseTx);
    }
  }

  lemma StepCloses(t: Trace, op: QueueOp)
    ensures Step(t, op).q.rxClosed <==> t.q.rxClosed || op == CloseRx
    ensures Step(t, op).q.txClosed <==> t.q.txClosed || op == CloseTx
  {
  }

  lemma InSnoc(ops: seq<QueueOp>, op: QueueOp)
    requires ops != []
    ensures op in ops <==> op in ops[..|ops| - 1] || op == ops[|ops| - 1]
  {
    assert ops == ops[..|ops| - 1] + [ops[|ops| - 1]];
  }

  /** The queue without its oldest sample. */
  ghost predicate LostOldest(before: seq<Event>, after: seq<Event>) {
    exists k :: 0 <= k < |before| && before[k].Data? && (forall i :: 0 <= i < k ==> !before[i].Data?) && after == before[..k] + before[k + 1..]
  }

  /** In every run a send to a queue whose receiver is gone changes nothing; any other event joins at the end, and costs the oldest sample exactly when it is a sample itself and the capacity is reached. */
  lemma SendExact(capacity: nat, ops: seq<QueueOp>, ev: Event)
    ensures var t := Trail(capacity, ops); var (q, out) := Push(t.q, ev);
            if CloseRx in ops then q == t.q && out == ReceiverGone
            else if ev.Data? && CountData(t.q.deque) == Max(capacity, 1) then
              out == EvictedOldest && q.deque != [] && q.deque[|q.deque| - 1] == ev && LostOldest(t.q.deque, q.deque[..|q.deque| - 1])
            else out == Queued && q.deque == t.q.deque + [ev]
  {
    ClosedExact(capacity, ops);
    CapacityFixed(capacity, ops);
    QueueRefinesDropOldest(capacity, ops);
    var t := Trail(capacity, ops);
    var q := Push(t.q, ev).0;
    if ev.Data? && t.q.dataLen >= t.q.capacity && !t.q.rxClosed {
      EvictionFindsData(t);
      assert q.deque[..|q.deque| - 1] == Without(t.q.deque, FirstData(t.q.deque));
    }
  }

  function CountControl(q: seq<Event>): nat {
    if q == [] then 0 else (if q[0].Data? then 0 else 1) + CountControl(q[1..])
  }

  lemma {:induction false} DataAndControl(q: seq<Event>)
    ensures CountData(q) + CountControl(q) == |q|
  {
    if q != [] {
      DataAndControl(q[1..]);
    }
  }

  // ----- the mutable queue -----

  class EventQueueState {
    var deque: seq<Event>
    var capacity: nat
    var dataLen: nat
    var txClosed: bool
    var rxClosed: bool
    var overflowedEvents: nat

    ghost function State(): Queue
      reads this
    {
      Queue(deque, capacity, dataLen, txClosed, rxClosed)
    }

    constructor (capacity: nat)
      ensures State() == NewQueue(capacity) && overflowedEvents == 0
    {
      deque, this.capacity, dataLen, txClosed, rxClosed := [], Max(capacity, 1), 0, false, false;
      overflowedEvents := 0;
    }

    method Position() returns (k: nat)
      ensures k == FirstData(deque)
    {
      k := 0;
      while k < |deque| && !deque[k].Data?
        invariant 0 <= k <= |deque|
        invariant FirstData(deque) == k + FirstData(deque[k..])
      {
        assert deque[k..][1..] == deque[k + 1..];
        k := k + 1;
      }
    }

    /** An eviction is counted where it happens. */
    method SendEvent(ev: Event) returns (out: PushOutcome)
      modifies this
      ensures (State(), out) == Push(old(State()), ev)
      ensures overflowedEvents == old(overflowedEvents) + if out == EvictedOldest then 1 else 0
    {
      if rxClosed {
        return ReceiverGone;
      }
      if !ev.Data? {
        deque := deque + [ev];
        return Queued;
      }
      if dataLen >= capacity {
        var k := Position();
        if k < |deque| {
          deque := deque[..k] + deque[k + 1..];
          dataLen := Max(dataLen - 1, 0);
          deque := deque + [ev];
          dataLen := dataLen + 1;
          overflowedEvents := overflowedEvents + 1;
          return EvictedOldest;
        }
      }
      deque := deque + [ev];
      dataLen := dataLen + 1;
      out := Queued;
    }

    /** The end of the stream is reported only once the sender is gone and the queue is drained. */
    method Take() returns (r: Result<Event, TryRecvError>)
      modifies this
      ensures State() == Pop(old(State())).0 && overflowedEvents == old(overflowedEvents)
      ensures r == match Pop(old(State())).1
                   case Some(ev) => Ok(ev)
                   case None => if old(txClosed) then Err(Disconnected) else Err(Empty)
    {
      if deque == [] {
        return if txClosed then Err(Disconnected) else Err(Empty);
      }
      var ev := deque[0];
      deque := deque[1..];
      if ev.Data? {
        dataLen := Max(dataLen - 1, 0);
      }
      r := Ok(ev);
    }
  }
}
