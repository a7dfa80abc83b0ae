/** Sequences across a lossy, reordering, duplicating channel: what a producer numbers and what a consumer accepts (io.rs). */
module Channel {
  import opened Prelude
  import opened Frame
  import opened ConnectionState
  import Cadence
  import Cpf

  /** Class-1 sequence of the `k`-th frame: 1 to 65535 and round again, never 0. */
  function SeqOf(k: nat): (s: u16)
    ensures k > 0 ==> s > 0
  {
    if k == 0 then 0 else (k - 1) % 65535 + 1
  }

  /** How many times the numbering has skipped 0 up to frame `k`. */
  function ZeroSkips(k: nat): nat
    requires k > 0
  {
    (k - 1) / 65535
  }

  // ----- the producer -----

  lemma NextSeqOf(k: nat)
    ensures NextSeq(SeqOf(k)) == SeqOf(k + 1)
  {
  }

  lemma NextMod32(k: nat)
    ensures (k % 0x1_0000_0000 + 1) % 0x1_0000_0000 == (k + 1) % 0x1_0000_0000
  {
    var q, r := k / 0x1_0000_0000, k % 0x1_0000_0000;
    if r == 0xFFFF_FFFF {
      assert k + 1 == 0x1_0000_0000 * (q + 1);
    } else {
      assert k + 1 == 0x1_0000_0000 * q + (r + 1);
    }
  }

  /** After any history, the sequences count the frames that were built. */
  lemma {:induction false} ProducedSequences(c0: Conn, ops: seq<Op>)
    requires c0.class1Seq == 0 && c0.encapSeq == 0
    ensures Run(c0, ops).class1Seq == SeqOf(Cadence.Fires(c0, ops))
    ensures Run(c0, ops).encapSeq == Cadence.Fires(c0, ops) % 0x1_0000_0000
    decreases |ops|
  {
    if ops != [] {
      var before, op := Run(c0, ops[..|ops| - 1]), ops[|ops| - 1];
      ProducedSequences(c0, ops[..|ops| - 1]);
      NextSeqOf(Cadence.Fires(c0, ops[..|ops| - 1]));
      NextMod32(Cadence.Fires(c0, ops[..|ops| - 1]));
      if Cadence.FiresLast(c0, ops) {
        Cadence.FiringPoll(before, op.now);
      } else {
        Cadence.OnlyPollsMoveSchedule(before, op);
      }
    }
  }

  /** What the receiver of a produced datagram finds in it. */
  lemma DatagramCarriesFrame(c: Conn)
    requires ProduceFrame(c).1.Ok?
    ensures var next := Advance(c);
            var items := Cpf.Decode(ProduceFrame(c).1.value);
            && items.Ok?
            && Cpf.Find(items.value, Cpf.SequencedAddress).Some?
            && Cpf.DecodeSeqAddr(Cpf.Find(items.value, Cpf.SequencedAddress).value) == Ok(Cpf.SeqAddr(c.params.o2tId, next.encapSeq))
            && Cpf.Find(items.value, Cpf.ConnectedData).Some?
            && DecodeFrame(c.params.o2tFormat, Cpf.Find(items.value, Cpf.ConnectedData).value) == Ok(CurrentFrame(next))
  {
    var next := Advance(c);
    DatagramItemsFound(c);
    Cpf.SeqAddrRoundTrip(Cpf.SeqAddr(c.params.o2tId, next.encapSeq));
    FrameRoundTrip(c.params.o2tFormat, CurrentFrame(next));
  }

  /** A printed datagram holds its two items, each found by its id. */
  lemma DatagramItemsFound(c: Conn)
    requires ProduceFrame(c).1.Ok?
    ensures var items := DatagramItems(Advance(c));
            && Cpf.Decode(ProduceFrame(c).1.value) == Ok(items)
            && Cpf.Find(items, Cpf.SequencedAddress) == Some(items[0].data)
            && Cpf.Find(items, Cpf.ConnectedData) == Some(items[1].data)
  {
    var items := DatagramItems(Advance(c));
    Cpf.EncodeThenDecode(items);
    assert items[0].typ.Canonical() && items[1].typ.Canonical();
    assert items[1..] == [items[1]];
    assert Cpf.Find(items, Cpf.ConnectedData) == Cpf.Find(items[1..], Cpf.ConnectedData) == Some(items[1].data);
  }

  /** Building fails exactly when the printed frame is longer than one item can say. */
  lemma DatagramFitsIff(c: Conn)
    ensures ProduceFrame(c).1.Ok? <==> c.params.o2tFormat.Overhead() + |CurrentFrame(c).data| <= U16_MAX
  {
    var next := Advance(c);
    var items := DatagramItems(next);
    assert CurrentFrame(next).data == CurrentFrame(c).data;
    assert |items[0].data| == 8;
    assert |items[1].data| == c.params.o2tFormat.Overhead() + |CurrentFrame(c).data|;
  }

  // ----- the signed window -----

  /** Distance from frame `i` to frame `j`, counting the skipped zeros on the way. */
  function Ahead(i: nat, j: nat): int
    requires i > 0 && j > 0
  {
    j + ZeroSkips(j) - i - ZeroSkips(i)
  }

  lemma DeltaIsDistance(i: nat, j: nat)
    requires i > 0 && j > 0
    ensures Delta(SeqOf(j), SeqOf(i)) == Ahead(i, j) % 0x1_0000
  {
    var zi: int, zj: int := ZeroSkips(i), ZeroSkips(j);
    assert SeqOf(i) == i - 65535 * zi && SeqOf(j) == j - 65535 * zj;
    WrapAway(SeqOf(j) - SeqOf(i), zj - zi);
    assert Ahead(i, j) == SeqOf(j) - SeqOf(i) + 0x1_0000 * (zj - zi);
  }

  lemma WrapAway(a: int, m: int)
    ensures (a + 0x1_0000 * m) % 0x1_0000 == a % 0x1_0000
  {
  }

  /** Exactly which frame numbers a consumer that last accepted frame `i` refuses as stale. */
  lemma StaleExact(i: nat, j: nat)
    requires i > 0 && j > 0
    ensures IsStale(SeqOf(j), SeqOf(i)) <==> Ahead(i, j) % 0x1_0000 == 0 || Ahead(i, j) % 0x1_0000 >= 0x8000
  {
    DeltaIsDistance(i, j);
  }

  const MAX_JUMP: nat := 32766
  const MAX_REPLAY: nat := 32767

  /** A frame at most 32766 numbers ahead is accepted, and the difference is the true distance. */
  lemma FreshAccepted(i: nat, j: nat)
    requires 0 < i < j <= i + MAX_JUMP
    ensures !IsStale(SeqOf(j), SeqOf(i))
    ensures Delta(SeqOf(j), SeqOf(i)) == Ahead(i, j)
  {
    DeltaIsDistance(i, j);
  }

  /** A copy of the newest frame or of any of the 32767 before it is stale. */
  lemma ReplayRefused(i: nat, j: nat)
    requires 0 < j <= i <= j + MAX_REPLAY
    ensures IsStale(SeqOf(j), SeqOf(i))
  {
    DeltaIsDistance(i, j);
    assert -0x8000 <= Ahead(i, j) <= 0;
  }

  /** Both limits are tight: one frame past either, the answer turns on whether the numbering skipped zero in between. */
  lemma LimitsAreTight(i: nat, j: nat)
    requires i > 0 && j > 0
    ensures j == i + MAX_JUMP + 1 ==> (IsStale(SeqOf(j), SeqOf(i)) <==> ZeroSkips(j) > ZeroSkips(i))
    ensures i == j + MAX_REPLAY + 1 ==> (!IsStale(SeqOf(j), SeqOf(i)) <==> ZeroSkips(i) > ZeroSkips(j))
  {
    DeltaIsDistance(i, j);
  }

  // ----- a run over the channel -----

  /** One delivered copy of frame `k`. */
  datatype Delivery = Delivery(k: nat, run: bool, data: Bytes, encap: u32, now: nat)

  function Payload(format: Format, d: Delivery): Bytes {
    EncodeFrame(format, IoFrame(Some(SeqOf(d.k)), if format.HasHeader() then Some(d.run) else None, d.data))
  }

  /** The sample a consumer should be given for that frame: its own data, number, run bit and time of arrival. */
  function SampleOf(format: Format, d: Delivery): Update {
    Update(d.data, SeqOf(d.k), d.encap, if format.HasHeader() then d.run else true, d.now)
  }

  function Ops(format: Format, ds: seq<Delivery>): (r: seq<Op>)
    ensures |r| == |ds|
  {
    seq(|ds|, i requires 0 <= i < |ds| => ConsumeOp(Payload(format, ds[i]), ds[i].encap, ds[i].now))
  }

  /** The newest frame delivered so far; 0 before any. */
  function Newest(ds: seq<Delivery>): nat {
    if ds == [] then 0 else Max(Newest(ds[..|ds| - 1]), ds[|ds| - 1].k)
  }

  /** Every delivery is either a fresh frame at most `MAX_JUMP` ahead of the newest, or a copy of one at most `MAX_REPLAY` behind it. */
  predicate Lossy(ds: seq<Delivery>) {
    ds == []
    || (var before, k := ds[..|ds| - 1], ds[|ds| - 1].k;
        Lossy(before) && k > 0 && (before != [] ==> k <= Newest(before) + MAX_JUMP && Newest(before) <= k + MAX_REPLAY))
  }

  function CountFresh(ds: seq<Delivery>): nat {
    if ds == [] then 0
    else CountFresh(ds[..|ds| - 1]) + if ds[|ds| - 1].k > Newest(ds[..|ds| - 1]) then 1 else 0
  }

  predicate SizesMatch(p: Params, ds: seq<Delivery>) {
    forall i :: 0 <= i < |ds| ==> !BadSize(p, |ds[i].data|)
  }

  lemma PayloadDecodes(format: Format, d: Delivery)
    requires format.HasSequence()
    ensures DecodeFrame(format, Payload(format, d)) == Ok(IoFrame(Some(SeqOf(d.k)), if format.HasHeader() then Some(d.run) else None, d.data))
  {
    FrameRoundTrip(format, IoFrame(Some(SeqOf(d.k)), if format.HasHeader() then Some(d.run) else None, d.data));
  }

  lemma Snoc(ds: seq<Delivery>)
    requires ds != []
    ensures ds[..|ds| - 1] + [ds[|ds| - 1]] == ds
  {
  }

  lemma OneMoreFrame(c: Conn, format: Format, ds: seq<Delivery>)
    requires ds != []
    ensures var d := ds[|ds| - 1];
            Run(c, Ops(format, ds)) == Apply(Run(c, Ops(format, ds[..|ds| - 1])), ConsumeOp(Payload(format, d), d.encap, d.now))
  {
    assert Ops(format, ds)[..|ds| - 1] == Ops(format, ds[..|ds| - 1]);
  }

  /** A format without a sequence has no window: every frame of the right size is accepted and delivered whole. */
  lemma SequencelessDelivers(c: Conn, payload: Bytes, encap: u32, now: nat)
    requires !c.params.t2oFormat.HasSequence()
    ensures var (d, out) := Consume(c, payload, encap, now);
            if BadSize(c.params, |payload|) then out == DroppedFrame(SizeMismatch)
            else out == Accepted(!c.up, Update(payload, 0, encap, true, now)) && d.lastSeq == c.lastSeq
                 && d.counters.sequenceGaps == c.counters.sequenceGaps
  {
  }

  /** What the consumer holds after a run: the newest frame accepted, every fresh frame counted, every other refused, and the losses known exactly. */
  ghost predicate Accounts(c: Conn, ds: seq<Delivery>)
    requires Lossy(ds)
  {
    && c.counters.framesAccepted == CountFresh(ds)
    && c.counters.staleFrames == |ds| - CountFresh(ds)
    && c.counters.sizeMismatch == 0
    && (c.up <==> ds != [])
    && if ds == [] then c.lastSeq == None && c.counters.sequenceGaps == 0
       else && Newest(ds) >= ds[0].k > 0
            && c.lastSeq == Some(SeqOf(Newest(ds)))
            && c.counters.sequenceGaps
               == (Newest(ds) - ds[0].k + 1 - CountFresh(ds)) + (ZeroSkips(Newest(ds)) - ZeroSkips(ds[0].k))
  }

  /** Over any lossy run the consumer accepts every fresh frame, refuses every copy, and its gap count is the frames lost plus the zeros skipped. */
  lemma {:induction false} ChannelRun(p: Params, created: nat, ds: seq<Delivery>)
    requires p.t2oFormat.HasSequence() && SizesMatch(p, ds) && Lossy(ds)
    ensures Accounts(Run(NewConn(p, created), Ops(p.t2oFormat, ds)), ds)
    decreases |ds|
  {
    if ds != [] {
      var before := ds[..|ds| - 1];
      Snoc(ds);
      ChannelRun(p, created, before);
      OneMoreFrame(NewConn(p, created), p.t2oFormat, ds);
      DeliverOne(Run(NewConn(p, created), Ops(p.t2oFormat, before)), p, before, ds[|ds| - 1]);
    }
  }

  lemma DeliverOne(c: Conn, p: Params, before: seq<Delivery>, d: Delivery)
    requires p.t2oFormat.HasSequence() && c.params == p && !BadSize(p, |d.data|)
    requires Lossy(before) && Lossy(before + [d]) && Accounts(c, before)
    ensures Accounts(Consume(c, Payload(p.t2oFormat, d), d.encap, d.now).0, before + [d])
    ensures Consume(c, Payload(p.t2oFormat, d), d.encap, d.now).1
         == if d.k > Newest(before) then Accepted(before == [], SampleOf(p.t2oFormat, d)) else DroppedFrame(Stale)
  {
    var ds := before + [d];
    assert ds[..|ds| - 1] == before;
    PayloadDecodes(p.t2oFormat, d);
    if before == [] {
      assert Newest(before) == 0;
    } else {
      assert ds[0] == before[0];
      var i, j := Newest(before), d.k;
      if j > i {
        FreshAccepted(i, j);
      } else {
        ReplayRefused(i, j);
      }
    }
  }
}
