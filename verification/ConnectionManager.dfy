/** Forward_Open and Forward_Close records and their bit packing (cm.rs). */
module ConnectionManager {
  import opened Prelude
  import opened Wire
  import opened Errors

  const FORWARD_OPEN: byte := 0x54
  const LARGE_FORWARD_OPEN: byte := 0x5B
  const FORWARD_CLOSE: byte := 0x4E

  datatype ConnType = Null | Multicast | P2P {
    function Bits(): nat {
      match this case Null => 0 case Multicast => 1 case P2P => 2
    }

    static function FromBits(bits: nat): ConnType {
      match bits % 4 case 1 => Multicast case 2 => P2P case _ => Null
    }
  }

  datatype Priority = Low | High | Scheduled | Urgent {
    function Bits(): nat {
      match this case Low => 0 case High => 1 case Scheduled => 2 case Urgent => 3
    }

    static function FromBits(bits: nat): Priority {
      match bits % 4 case 1 => High case 2 => Scheduled case 3 => Urgent case _ => Low
    }
  }

  // ----- network connection parameters -----

  datatype Ncp = Ncp(size: u16, variable: bool, priority: Priority, connType: ConnType, redundantOwner: bool)

  function Flag(b: bool): nat {
    if b then 1 else 0
  }

  /** The fields occupy disjoint bits, so OR-ing them together is adding them up. */
  function EncodeNcp16(p: Ncp): Result<u16, EnipError> {
    if p.size > 0x1FF then Err(TooLarge(0x1FF))
    else Ok(p.size + 0x200 * Flag(p.variable) + 0x400 * p.priority.Bits() + 0x2000 * p.connType.Bits() + 0x8000 * Flag(p.redundantOwner))
  }

  function EncodeNcp32(p: Ncp): u32 {
    p.size + 0x200_0000 * Flag(p.variable) + 0x400_0000 * p.priority.Bits() + 0x2000_0000 * p.connType.Bits()
    + 0x8000_0000 * Flag(p.redundantOwner)
  }

  function DecodeNcp16(v: u16): Ncp {
    Ncp(v % 0x200, v / 0x200 % 2 == 1, Priority.FromBits(v / 0x400), ConnType.FromBits(v / 0x2000), v / 0x8000 % 2 == 1)
  }

  function DecodeNcp32(v: u32): Ncp {
    Ncp(v % 0x1_0000, v / 0x200_0000 % 2 == 1, Priority.FromBits(v / 0x400_0000), ConnType.FromBits(v / 0x2000_0000),
        v / 0x8000_0000 % 2 == 1)
  }

  /** The upper fields of a 16-bit word, in units of bit 9. */
  lemma Word16(size: nat, hi: nat)
    requires size < 0x200 && hi < 0x80
    ensures var v := size + 0x200 * hi;
            v % 0x200 == size && v / 0x200 == hi && v / 0x400 == hi / 2 && v / 0x1000 == hi / 8 && v / 0x2000 == hi / 16 && v / 0x8000 == hi / 64
  {
  }

  /** The upper fields of a 32-bit word, in units of bit 25. */
  lemma Word32(size: nat, hi: nat)
    requires size < 0x1_0000 && hi < 0x80
    ensures var v := size + 0x200_0000 * hi;
            v % 0x1_0000 == size && v / 0x200_0000 == hi && v / 0x400_0000 == hi / 2 && v / 0x2000_0000 == hi / 16 && v / 0x8000_0000 == hi / 64
  {
  }

  /** And the bits between the fields. */
  lemma Word32Reserved(size: nat, hi: nat)
    requires size < 0x1_0000 && hi < 0x80
    ensures var v := size + 0x200_0000 * hi; v / 0x1_0000 % 0x200 == 0 && v / 0x1000_0000 == hi / 8
  {
    assert (size + 0x200_0000 * hi) / 0x1_0000 == 0x200 * hi;
  }

  function UpperFields(p: Ncp): (hi: nat)
    ensures hi < 0x80
    ensures hi % 2 == Flag(p.variable) && hi / 2 % 4 == p.priority.Bits() && hi / 16 % 4 == p.connType.Bits() && hi / 64 == Flag(p.redundantOwner)
    ensures hi / 8 % 2 == 0
  {
    Flag(p.variable) + 2 * p.priority.Bits() + 16 * p.connType.Bits() + 64 * Flag(p.redundantOwner)
  }

  lemma NcpRoundTrip(p: Ncp)
    ensures EncodeNcp16(p).Ok? <==> p.size <= 511
    ensures EncodeNcp16(p).Ok? ==> DecodeNcp16(EncodeNcp16(p).value) == p
    ensures DecodeNcp32(EncodeNcp32(p)) == p
  {
    var hi := UpperFields(p);
    if p.size <= 511 {
      Word16(p.size, hi);
    }
    Word32(p.size, hi);
  }

  /** Bit by bit: the size in the low 9 (or 16) bits, then framing, priority, a reserved bit, type and owner flag, in the codes of the standard. */
  lemma NcpBits(p: Ncp)
    ensures var w := EncodeNcp32(p);
            && w % 0x1_0000 == p.size && w / 0x1_0000 % 0x200 == 0
            && w / 0x200_0000 % 2 == (if p.variable then 1 else 0)
            && w / 0x400_0000 % 4 == (match p.priority case Low => 0 case High => 1 case Scheduled => 2 case Urgent => 3)
            && w / 0x1000_0000 % 2 == 0
            && w / 0x2000_0000 % 4 == (match p.connType case Null => 0 case Multicast => 1 case P2P => 2)
            && w / 0x8000_0000 == (if p.redundantOwner then 1 else 0)
    ensures p.size <= 511 ==>
              EncodeNcp16(p).Ok?
              && var w := EncodeNcp16(p).value;
                 && w % 0x200 == p.size
                 && w / 0x200 % 2 == (if p.variable then 1 else 0)
                 && w / 0x400 % 4 == (match p.priority case Low => 0 case High => 1 case Scheduled => 2 case Urgent => 3)
                 && w / 0x1000 % 2 == 0
                 && w / 0x2000 % 4 == (match p.connType case Null => 0 case Multicast => 1 case P2P => 2)
                 && w / 0x8000 == (if p.redundantOwner then 1 else 0)
  {
    var hi := UpperFields(p);
    Word32(p.size, hi);
    Word32Reserved(p.size, hi);
    assert EncodeNcp32(p) == p.size + 0x200_0000 * hi;
    if p.size <= 511 {
      Word16(p.size, hi);
      EncodedUpper(p);
    }
  }

  /** A received word is kept exactly when its reserved bit 12 is clear and its type bits are not 3. */
  lemma NcpWordRoundTrip(v: u16)
    ensures EncodeNcp16(DecodeNcp16(v)) == Ok(v) <==> v / 0x1000 % 2 == 0 && v / 0x2000 % 4 != 3
  {
    var hi, p := v / 0x200, DecodeNcp16(v);
    DecodedUpper(v);
    UpperFieldsOf(hi, p);
    EncodedUpper(p);
  }

  /** The upper fields a word decodes to, in units of bit 9. */
  lemma DecodedUpper(v: u16)
    ensures var hi, p := v / 0x200, DecodeNcp16(v);
            && hi < 0x80 && v == v % 0x200 + 0x200 * hi && p.size == v % 0x200
            && p.variable == (hi % 2 == 1) && p.redundantOwner == (hi / 64 % 2 == 1)
            && p.priority == Priority.FromBits(hi / 2) && p.connType == ConnType.FromBits(hi / 16)
            && v / 0x1000 == hi / 8 && v / 0x2000 == hi / 16
  {
    Word16(v % 0x200, v / 0x200);
  }

  lemma EncodedUpper(p: Ncp)
    requires p.size < 0x200
    ensures EncodeNcp16(p) == Ok(p.size + 0x200 * UpperFields(p))
  {
  }

  lemma UpperFieldsOf(hi: nat, p: Ncp)
    requires hi < 0x80
    requires p.variable == (hi % 2 == 1) && p.redundantOwner == (hi / 64 % 2 == 1)
    requires p.priority == Priority.FromBits(hi / 2) && p.connType == ConnType.FromBits(hi / 16)
    ensures UpperFields(p) == hi <==> hi / 8 % 2 == 0 && hi / 16 % 4 != 3
  {
    var t := hi / 16 % 4;
    UpperFieldsSum(hi, p);
    SplitUpper(hi);
    SumsMatch(hi % 2 + 2 * (hi / 2 % 4), hi / 8 % 2, t, 64 * (hi / 64));
  }

  lemma UpperFieldsSum(hi: nat, p: Ncp)
    requires hi < 0x80
    requires p.variable == (hi % 2 == 1) && p.redundantOwner == (hi / 64 % 2 == 1)
    requires p.priority == Priority.FromBits(hi / 2) && p.connType == ConnType.FromBits(hi / 16)
    ensures var t := hi / 16 % 4;
            UpperFields(p) == hi % 2 + 2 * (hi / 2 % 4) + 16 * (if t == 3 then 0 else t) + 64 * (hi / 64)
  {
    FromBitsBits(hi / 2, hi / 16);
  }

  lemma SumsMatch(low: nat, reserved: nat, t: nat, high: nat)
    requires reserved < 2 && t < 4
    ensures low + 16 * (if t == 3 then 0 else t) + high == low + 8 * reserved + 16 * t + high <==> reserved == 0 && t != 3
  {
  }

  lemma SplitUpper(hi: nat)
    requires hi < 0x80
    ensures hi == hi % 2 + 2 * (hi / 2 % 4) + 8 * (hi / 8 % 2) + 16 * (hi / 16 % 4) + 64 * (hi / 64)
  {
    assert hi / 2 / 4 == hi / 8 && hi / 8 / 2 == hi / 16 && hi / 16 / 4 == hi / 64;
  }

  lemma FromBitsBits(a: nat, b: nat)
    ensures Priority.FromBits(a).Bits() == a % 4
    ensures ConnType.FromBits(b).Bits() == if b % 4 == 3 then 0 else b % 4
  {
  }

  // ----- timeout multiplier -----

  /** A multiplier code, 0 to 7. */
  type TimeoutCode = c: int | 0 <= c < 8

  function TimeoutCodeOf(wire: byte): (code: TimeoutCode)
    ensures wire < 8 ==> code == wire
    ensures wire >= 8 ==> Multiplier(code) == 512
  {
    if wire > 7 then 7 else wire
  }

  lemma Powers()
    ensures PowerOfTwo(0) == 1 && PowerOfTwo(1) == 2 && PowerOfTwo(2) == 4 && PowerOfTwo(3) == 8
    ensures PowerOfTwo(4) == 16 && PowerOfTwo(5) == 32 && PowerOfTwo(6) == 64 && PowerOfTwo(7) == 128
  {
  }

  /** `4 << code` */
  function Multiplier(code: TimeoutCode): (m: nat)
    ensures 4 <= m <= 512 && m == 4 * PowerOfTwo(code)
  {
    Powers();
    match code
    case 0 => 4 case 1 => 8 case 2 => 16 case 3 => 32
    case 4 => 64 case 5 => 128 case 6 => 256 case _ => 512
  }

  // ----- fixed-width records -----

  /** Integers printed one after another, each `(value, width)` in `width` bytes. */
  function PrintFields(fs: seq<(nat, nat)>): Bytes {
    if fs == [] then [] else Le(fs[0].0, fs[0].1) + PrintFields(fs[1..])
  }

  function ReadFields(buf: Bytes, pos: nat, widths: seq<nat>): (r: Result<(seq<nat>, nat), WireError>)
    requires pos <= |buf|
    ensures r.Ok? ==> |r.value.0| == |widths| && pos <= r.value.1 <= |buf|
    decreases widths
  {
    if widths == [] then Ok(([], pos))
    else
      var head :- ReadAt(buf, pos, widths[0]);
      var rest :- ReadFields(buf, pos + widths[0], widths[1..]);
      Ok(([head] + rest.0, rest.1))
  }

  lemma {:induction false} ReadFieldsInRange(buf: Bytes, pos: nat, widths: seq<nat>)
    requires pos <= |buf| && ReadFields(buf, pos, widths).Ok?
    ensures forall i :: 0 <= i < |widths| ==> ReadFields(buf, pos, widths).value.0[i] < Pow256(widths[i])
    decreases widths
  {
    if widths != [] {
      ReadFieldsInRange(buf, pos + widths[0], widths[1..]);
      forall i | 0 <= i < |widths| ensures ReadFields(buf, pos, widths).value.0[i] < Pow256(widths[i]) {
        if i > 0 {
          assert widths[i] == widths[1..][i - 1];
        }
      }
    }
  }

  /** How many bytes the first `k` fields take. */
  function Before(widths: seq<nat>, k: nat): nat
    requires k <= |widths|
  {
    if k == 0 then 0 else Before(widths, k - 1) + widths[k - 1]
  }

  lemma {:induction false} BeforeCons(widths: seq<nat>, k: nat)
    requires 0 < k <= |widths|
    ensures Before(widths, k) == widths[0] + Before(widths[1..], k - 1)
  {
    if k > 1 {
      BeforeCons(widths, k - 1);
    }
  }

  /** Field `k` is read at the end of the fields before it. */
  lemma {:induction false} ReadFieldsAt(buf: Bytes, pos: nat, widths: seq<nat>, k: nat)
    requires pos <= |buf| && ReadFields(buf, pos, widths).Ok? && k < |widths|
    ensures pos + Before(widths, k) <= |buf|
    ensures ReadAt(buf, pos + Before(widths, k), widths[k]) == Ok(ReadFields(buf, pos, widths).value.0[k])
    decreases widths
  {
    if k > 0 {
      BeforeCons(widths, k);
      ReadFieldsAt(buf, pos + widths[0], widths[1..], k - 1);
    }
  }

  lemma {:induction false} ReadFieldsEnd(buf: Bytes, pos: nat, widths: seq<nat>)
    requires pos <= |buf| && ReadFields(buf, pos, widths).Ok?
    ensures ReadFields(buf, pos, widths).value.1 == pos + Before(widths, |widths|)
    decreases widths
  {
    if widths != [] {
      BeforeCons(widths, |widths|);
      ReadFieldsEnd(buf, pos + widths[0], widths[1..]);
    }
  }

  /** The value can be printed in its width. */
  predicate InWidth(f: (nat, nat)) {
    f.0 < Pow256(f.1)
  }

  function Values(fs: seq<(nat, nat)>): (r: seq<nat>)
    ensures |r| == |fs|
  {
    if fs == [] then [] else [fs[0].0] + Values(fs[1..])
  }

  function WidthsOf(fs: seq<(nat, nat)>): (r: seq<nat>)
    ensures |r| == |fs|
  {
    if fs == [] then [] else [fs[0].1] + WidthsOf(fs[1..])
  }

  lemma {:induction false} FieldsRoundTrip(fs: seq<(nat, nat)>, buf: Bytes, pos: nat)
    requires forall i :: 0 <= i < |fs| ==> InWidth(fs[i])
    requires pos <= |buf| && HasAt(buf, pos, PrintFields(fs))
    ensures ReadFields(buf, pos, WidthsOf(fs)) == Ok((Values(fs), pos + |PrintFields(fs)|))
    decreases fs
  {
    if fs != [] {
      var n, width, rest := fs[0].0, fs[0].1, fs[1..];
      FieldsUnfold(fs);
      HasAtSplit(buf, pos, Le(n, width), PrintFields(rest));
      ReadBack(buf, pos, n, width);
      assert InWidth(fs[0]);
      FieldsRoundTrip(rest, buf, pos + width);
      FieldsCons(buf, pos, n, width, Values(rest), WidthsOf(rest), pos + width + |PrintFields(rest)|);
    }
  }

  lemma FieldsUnfold(fs: seq<(nat, nat)>)
    requires fs != []
    ensures PrintFields(fs) == Le(fs[0].0, fs[0].1) + PrintFields(fs[1..])
    ensures Values(fs) == [fs[0].0] + Values(fs[1..]) && WidthsOf(fs) == [fs[0].1] + WidthsOf(fs[1..])
    ensures |PrintFields(fs)| == fs[0].1 + |PrintFields(fs[1..])|
  {
  }

  lemma FieldsCons(buf: Bytes, pos: nat, n: nat, width: nat, values: seq<nat>, widths: seq<nat>, end: nat)
    requires pos + width <= |buf| && ReadAt(buf, pos, width) == Ok(n)
    requires ReadFields(buf, pos + width, widths) == Ok((values, end))
    ensures ReadFields(buf, pos, [width] + widths) == Ok(([n] + values, end))
  {
    assert ([width] + widths)[1..] == widths;
  }

  // ----- Forward_Open -----

  /** An encoded connection path: every segment is padded to whole words. */
  type Path = p: Bytes | |p| % 2 == 0

  datatype OpenRequest = OpenRequest(
    priorityTick: byte, timeoutTicks: byte,
    o2tId: u32, t2oId: u32, serial: u16, vendor: u16, originatorSerial: u32,
    timeout: TimeoutCode,
    o2tRpi: u32, o2tParams: Ncp, t2oRpi: u32, t2oParams: Ncp,
    trigger: byte, path: Bytes, large: bool)
  {
    function Service(): byte {
      if large then LARGE_FORWARD_OPEN else FORWARD_OPEN
    }
  }

  /** One direction's parameters in the form the request chose: the word and its width. */
  function NcpWord(large: bool, p: Ncp): Result<(nat, nat), EnipError> {
    if large then Ok((EncodeNcp32(p), 4))
    else
      var v :- EncodeNcp16(p);
      Ok((v, 2))
  }

  function OpenFields(o: OpenRequest, o2t: (nat, nat), t2o: (nat, nat)): seq<(nat, nat)> {
    [(o.priorityTick, 1), (o.timeoutTicks, 1), (o.o2tId, 4), (o.t2oId, 4), (o.serial, 2), (o.vendor, 2),
     (o.originatorSerial, 4), (o.timeout, 1), (0, 1), (0, 1), (0, 1),
     (o.o2tRpi, 4), o2t, (o.t2oRpi, 4), t2o, (o.trigger, 1), (|o.path| / 2, 1)]
  }

  const MAX_PATH_WORDS: nat := 255

  function EncodeOpen(o: OpenRequest): Result<Bytes, EnipError> {
    if |o.path| / 2 > MAX_PATH_WORDS then Err(TooLarge(255))
    else
      var o2t :- NcpWord(o.large, o.o2tParams);
      var t2o :- NcpWord(o.large, o.t2oParams);
      Ok(PrintFields(OpenFields(o, o2t, t2o)) + o.path)
  }

  function OpenWidths(large: bool): seq<nat> {
    var w := if large then 4 else 2;
    [1, 1, 4, 4, 2, 2, 4, 1, 1, 1, 1, 4, w, 4, w, 1, 1]
  }

  /** Reference reader: what a target that knows which service it was sent makes of the bytes. */
  function ParseOpen(large: bool, buf: Bytes): Result<OpenRequest, WireError> {
    var p :- ReadFields(buf, 0, OpenWidths(large));
    ReadFieldsInRange(buf, 0, OpenWidths(large));
    OpenBounds(large, p.0);
    var path :- PathAt(buf, p.1, p.0[16]);
    Ok(OpenOf(large, p.0, path))
  }

  /** A path of so many words, and nothing after it. */
  function PathAt(buf: Bytes, pos: nat, words: nat): Result<Bytes, WireError>
    requires pos <= |buf|
  {
    var path :- TakeAt(buf, pos, 2 * words);
    if pos + |path| == |buf| then Ok(path) else Err(Malformed(TRAILING))
  }

  lemma PathReadBack(buf: Bytes, pos: nat, path: Bytes)
    requires pos <= |buf| && buf[pos..] == path
    ensures if |path| % 2 == 0 then PathAt(buf, pos, |path| / 2) == Ok(path) else PathAt(buf, pos, |path| / 2).Err?
  {
    if |path| % 2 == 0 {
      assert buf[pos..pos + |path|] == path;
    }
  }

  predicate OpenInRange(large: bool, v: seq<nat>) {
    && |v| == 17
    && v[0] < 256 && v[1] < 256 && v[2] <= U32_MAX && v[3] <= U32_MAX && v[4] <= U16_MAX && v[5] <= U16_MAX
    && v[6] <= U32_MAX && v[7] < 256 && v[11] <= U32_MAX && v[13] <= U32_MAX && v[15] < 256
    && v[12] <= (if large then U32_MAX else U16_MAX) && v[14] <= (if large then U32_MAX else U16_MAX)
  }

  /** The request the numbers of the fixed part and the path stand for. */
  function OpenOf(large: bool, v: seq<nat>, path: Bytes): OpenRequest
    requires OpenInRange(large, v)
  {
    OpenRequest(v[0], v[1], v[2], v[3], v[4], v[5], v[6], TimeoutCodeOf(v[7]),
                v[11], NcpOf(large, v[12]), v[13], NcpOf(large, v[14]), v[15], path, large)
  }

  function NcpOf(large: bool, w: nat): Ncp
    requires w < if large then 0x1_0000_0000 else 0x1_0000
  {
    if large then DecodeNcp32(w) else DecodeNcp16(w)
  }

  lemma OpenBounds(large: bool, v: seq<nat>)
    requires |v| == 17 && forall i :: 0 <= i < 17 ==> v[i] < Pow256(OpenWidths(large)[i])
    ensures OpenInRange(large, v)
  {
    Widths();
    var w := OpenWidths(large);
    assert w[0] == w[1] == w[7] == w[15] == 1 && w[2] == w[3] == w[6] == w[11] == w[13] == 4 && w[4] == w[5] == 2;
    assert w[12] == w[14] == if large then 4 else 2;
  }

  /** A request that encodes is understood whole, every id, both intervals, both parameter sets and the path, exactly when its path is a whole number of words. */
  lemma OpenRoundTrip(o: OpenRequest)
    requires EncodeOpen(o).Ok?
    ensures ParseOpen(o.large, EncodeOpen(o).value) == Ok(o) <==> |o.path| % 2 == 0
  {
    var o2t, t2o := NcpWord(o.large, o.o2tParams).value, NcpWord(o.large, o.t2oParams).value;
    var fs := OpenFields(o, o2t, t2o);
    OpenFixedPart(o, o2t, t2o);
    PathReadBack(EncodeOpen(o).value, |PrintFields(fs)|, o.path);
    WordReadsBack(o.large, o.o2tParams);
    WordReadsBack(o.large, o.t2oParams);
    NumbersRebuild(o, Values(fs), o2t.0, t2o.0);
  }

  lemma WordReadsBack(large: bool, p: Ncp)
    requires NcpWord(large, p).Ok?
    ensures var w := NcpWord(large, p).value;
            && w.1 == (if large then 4 else 2) && InWidth(w)
            && w.0 < (if large then 0x1_0000_0000 else 0x1_0000) && NcpOf(large, w.0) == p
  {
    Widths();
    NcpRoundTrip(p);
  }

  /** The fixed part of a printed open is read back number by number, and the path stands after it. */
  lemma OpenFixedPart(o: OpenRequest, o2t: (nat, nat), t2o: (nat, nat))
    requires EncodeOpen(o).Ok?
    requires NcpWord(o.large, o.o2tParams) == Ok(o2t) && NcpWord(o.large, o.t2oParams) == Ok(t2o)
    ensures var fs, buf := OpenFields(o, o2t, t2o), EncodeOpen(o).value;
            && |PrintFields(fs)| <= |buf| && buf[|PrintFields(fs)|..] == o.path
            && ReadFields(buf, 0, OpenWidths(o.large)) == Ok((Values(fs), |PrintFields(fs)|))
            && Values(fs) == [o.priorityTick, o.timeoutTicks, o.o2tId, o.t2oId, o.serial, o.vendor, o.originatorSerial, o.timeout, 0, 0, 0,
                              o.o2tRpi, o2t.0, o.t2oRpi, t2o.0, o.trigger, |o.path| / 2]
  {
    var fs, buf := OpenFields(o, o2t, t2o), EncodeOpen(o).value;
    WordReadsBack(o.large, o.o2tParams);
    WordReadsBack(o.large, o.t2oParams);
    FieldsInRange(o, o2t, t2o);
    assert HasAt(buf, 0, PrintFields(fs));
    FieldsRoundTrip(fs, buf, 0);
    OpenShape(o, o2t, t2o);
  }

  lemma NumbersRebuild(o: OpenRequest, v: seq<nat>, o2t: nat, t2o: nat)
    requires o2t < (if o.large then 0x1_0000_0000 else 0x1_0000) && t2o < if o.large then 0x1_0000_0000 else 0x1_0000
    requires NcpOf(o.large, o2t) == o.o2tParams && NcpOf(o.large, t2o) == o.t2oParams
    requires v == [o.priorityTick, o.timeoutTicks, o.o2tId, o.t2oId, o.serial, o.vendor, o.originatorSerial, o.timeout, 0, 0, 0,
                   o.o2tRpi, o2t, o.t2oRpi, t2o, o.trigger, |o.path| / 2]
    ensures OpenInRange(o.large, v) && OpenOf(o.large, v, o.path) == o
  {
  }

  lemma FieldsInRange(o: OpenRequest, o2t: (nat, nat), t2o: (nat, nat))
    requires |o.path| / 2 <= MAX_PATH_WORDS && o2t.0 < Pow256(o2t.1) && t2o.0 < Pow256(t2o.1)
    ensures forall i :: 0 <= i < 17 ==> InWidth(OpenFields(o, o2t, t2o)[i])
  {
    Widths();
  }

  lemma OpenShape(o: OpenRequest, o2t: (nat, nat), t2o: (nat, nat))
    requires o2t.1 == t2o.1 == if o.large then 4 else 2
    ensures WidthsOf(OpenFields(o, o2t, t2o)) == OpenWidths(o.large)
    ensures Values(OpenFields(o, o2t, t2o))
         == [o.priorityTick, o.timeoutTicks, o.o2tId, o.t2oId, o.serial, o.vendor, o.originatorSerial, o.timeout, 0, 0, 0,
             o.o2tRpi, o2t.0, o.t2oRpi, t2o.0, o.trigger, |o.path| / 2]
  {
    OpenValues(o, o2t, t2o);
    var fs := OpenFields(o, o2t, t2o);
    ValuesAt(fs);
    assert WidthsOf(fs) == OpenWidths(o.large);
  }

  lemma OpenValues(o: OpenRequest, o2t: (nat, nat), t2o: (nat, nat))
    ensures Values(OpenFields(o, o2t, t2o))
         == [o.priorityTick, o.timeoutTicks, o.o2tId, o.t2oId, o.serial, o.vendor, o.originatorSerial, o.timeout, 0, 0, 0,
             o.o2tRpi, o2t.0, o.t2oRpi, t2o.0, o.trigger, |o.path| / 2]
  {
    ValuesAt(OpenFields(o, o2t, t2o));
  }

  lemma {:induction false} ValuesAt(fs: seq<(nat, nat)>)
    ensures forall i :: 0 <= i < |fs| ==> Values(fs)[i] == fs[i].0 && WidthsOf(fs)[i] == fs[i].1
  {
    if fs != [] {
      ValuesAt(fs[1..]);
      forall i | 0 <= i < |fs| ensures Values(fs)[i] == fs[i].0 && WidthsOf(fs)[i] == fs[i].1 {
        if i > 0 {
          assert fs[i] == fs[1..][i - 1];
        }
      }
    }
  }

  lemma OpenOffsets(large: bool)
    ensures var ws, w := OpenWidths(large), if large then 4 else 2;
            && Before(ws, 0) == 0 && Before(ws, 1) == 1 && Before(ws, 2) == 2 && Before(ws, 3) == 6 && Before(ws, 4) == 10
            && Before(ws, 5) == 12 && Before(ws, 6) == 14 && Before(ws, 7) == 18 && Before(ws, 11) == 22 && Before(ws, 12) == 26
            && Before(ws, 13) == 26 + w && Before(ws, 14) == 30 + w && Before(ws, 15) == 30 + 2 * w && Before(ws, 16) == 31 + 2 * w
            && Before(ws, 17) == 32 + 2 * w
  {
    var ws, w := OpenWidths(large), if large then 4 else 2;
    assert Before(ws, 1) == 1;
    assert Before(ws, 2) == 2;
    assert Before(ws, 4) == 10;
    assert Before(ws, 6) == 14;
    assert Before(ws, 8) == 19;
    assert Before(ws, 10) == 21;
    assert Before(ws, 12) == 26;
    assert Before(ws, 14) == 30 + w;
    assert Before(ws, 16) == 31 + 2 * w;
  }

  /** Where everything of an open stands on the wire, path last. */
  lemma OpenOnWire(o: OpenRequest)
    requires EncodeOpen(o).Ok?
    ensures var b, w := EncodeOpen(o).value, if o.large then 4 else 2;
            && |b| == 32 + 2 * w + |o.path| && b[32 + 2 * w..] == o.path
            && ReadAt(b, 0, 1) == Ok(o.priorityTick) && ReadAt(b, 1, 1) == Ok(o.timeoutTicks)
            && ReadAt(b, 2, 4) == Ok(o.o2tId) && ReadAt(b, 6, 4) == Ok(o.t2oId)
            && ReadAt(b, 10, 2) == Ok(o.serial) && ReadAt(b, 12, 2) == Ok(o.vendor) && ReadAt(b, 14, 4) == Ok(o.originatorSerial)
            && ReadAt(b, 18, 1) == Ok(o.timeout)
            && ReadAt(b, 22, 4) == Ok(o.o2tRpi) && ReadAt(b, 26, w) == Ok(NcpWord(o.large, o.o2tParams).value.0)
            && ReadAt(b, 26 + w, 4) == Ok(o.t2oRpi) && ReadAt(b, 30 + w, w) == Ok(NcpWord(o.large, o.t2oParams).value.0)
            && ReadAt(b, 30 + 2 * w, 1) == Ok(o.trigger) && ReadAt(b, 31 + 2 * w, 1) == Ok(|o.path| / 2)
  {
    var o2t, t2o := NcpWord(o.large, o.o2tParams).value, NcpWord(o.large, o.t2oParams).value;
    var b, ws := EncodeOpen(o).value, OpenWidths(o.large);
    OpenFixedPart(o, o2t, t2o);
    OpenOffsets(o.large);
    ReadFieldsEnd(b, 0, ws);
    forall k | 0 <= k < 17 ensures Before(ws, k) <= |b| && ReadAt(b, Before(ws, k), ws[k]) == Ok(ReadFields(b, 0, ws).value.0[k]) {
      ReadFieldsAt(b, 0, ws, k);
    }
    var v := ReadFields(b, 0, ws).value.0;
    assert v[0] == o.priorityTick && v[1] == o.timeoutTicks && v[2] == o.o2tId && v[3] == o.t2oId;
    assert ws[0] == 1 && ws[1] == 1 && ws[2] == 4 && ws[3] == 4 && ws[4] == 2 && ws[5] == 2 && ws[6] == 4 && ws[7] == 1;
    assert ws[11] == 4 && ws[13] == 4 && ws[15] == 1 && ws[16] == 1 && ws[12] == ws[14] == if o.large then 4 else 2;
  }

  // ----- the success reply -----

  datatype OpenSuccess = OpenSuccess(
    o2tId: u32, t2oId: u32, serial: u16, vendor: u16, originatorSerial: u32,
    o2tApi: u32, t2oApi: u32, appData: Bytes)

  const SUCCESS_WIDTHS: seq<nat> := [4, 4, 2, 2, 4, 4, 4, 1, 1]

  function DecodeSuccess(data: Bytes): Result<OpenSuccess, WireError> {
    var p :- ReadFields(data, 0, SUCCESS_WIDTHS);
    ReadFieldsInRange(data, 0, SUCCESS_WIDTHS);
    Widths();
    var v := p.0;
    SuccessBounds(v);
    var app :- TakeAt(data, p.1, 2 * v[7]);
    Ok(OpenSuccess(v[0], v[1], v[2], v[3], v[4], v[5], v[6], app))
  }

  lemma SuccessBounds(v: seq<nat>)
    requires |v| == 9 && forall i :: 0 <= i < 9 ==> v[i] < Pow256(SUCCESS_WIDTHS[i])
    ensures v[0] <= U32_MAX && v[1] <= U32_MAX && v[2] <= U16_MAX && v[3] <= U16_MAX && v[4] <= U32_MAX
    ensures v[5] <= U32_MAX && v[6] <= U32_MAX && v[7] < 256
  {
    Widths();
  }

  /** Where everything of a success reply is read from. */
  lemma SuccessOnWire(data: Bytes)
    requires DecodeSuccess(data).Ok?
    ensures var s := DecodeSuccess(data).value;
            && |data| >= 26
            && ReadAt(data, 0, 4) == Ok(s.o2tId) && ReadAt(data, 4, 4) == Ok(s.t2oId)
            && ReadAt(data, 8, 2) == Ok(s.serial) && ReadAt(data, 10, 2) == Ok(s.vendor) && ReadAt(data, 12, 4) == Ok(s.originatorSerial)
            && ReadAt(data, 16, 4) == Ok(s.o2tApi) && ReadAt(data, 20, 4) == Ok(s.t2oApi)
            && ReadAt(data, 24, 1).Ok? && TakeAt(data, 26, 2 * ReadAt(data, 24, 1).value) == Ok(s.appData)
  {
    var ws := SUCCESS_WIDTHS;
    ReadFieldsEnd(data, 0, ws);
    SuccessOffsets();
    forall k | 0 <= k < 9 ensures Before(ws, k) <= |data| && ReadAt(data, Before(ws, k), ws[k]) == Ok(ReadFields(data, 0, ws).value.0[k]) {
      ReadFieldsAt(data, 0, ws, k);
    }
    assert ws[0] == ws[1] == ws[4] == ws[5] == ws[6] == 4 && ws[2] == ws[3] == 2 && ws[7] == ws[8] == 1;
  }

  lemma SuccessOffsets()
    ensures var ws := SUCCESS_WIDTHS;
            && Before(ws, 0) == 0 && Before(ws, 1) == 4 && Before(ws, 2) == 8 && Before(ws, 3) == 10 && Before(ws, 4) == 12
            && Before(ws, 5) == 16 && Before(ws, 6) == 20 && Before(ws, 7) == 24 && Before(ws, 8) == 25 && Before(ws, 9) == 26
  {
    var ws := SUCCESS_WIDTHS;
    assert Before(ws, 1) == 4;
    assert Before(ws, 2) == 8;
    assert Before(ws, 4) == 12;
    assert Before(ws, 6) == 20;
    assert Before(ws, 8) == 25;
  }

  /** Reference printer: the reply a target sends. */
  function PrintSuccess(s: OpenSuccess, reserved: byte): Bytes {
    PrintFields(SuccessFields(s, reserved)) + s.appData
  }

  function SuccessFields(s: OpenSuccess, reserved: byte): seq<(nat, nat)> {
    [(s.o2tId, 4), (s.t2oId, 4), (s.serial, 2), (s.vendor, 2), (s.originatorSerial, 4),
     (s.o2tApi, 4), (s.t2oApi, 4), (|s.appData| / 2, 1), (reserved, 1)]
  }

  /** Every whole-word reply is decoded whole, whatever the reserved byte says and whatever follows. */
  lemma SuccessRoundTrip(s: OpenSuccess, reserved: byte, trailing: Bytes)
    requires |s.appData| % 2 == 0 && |s.appData| / 2 < 256
    ensures DecodeSuccess(PrintSuccess(s, reserved) + trailing) == Ok(s)
  {
    var fs := SuccessFields(s, reserved);
    var buf := PrintSuccess(s, reserved) + trailing;
    SuccessShape(s, reserved);
    assert HasAt(buf, 0, PrintFields(fs));
    FieldsRoundTrip(fs, buf, 0);
    assert buf[|PrintFields(fs)|..|PrintFields(fs)| + |s.appData|] == s.appData;
  }

  lemma SuccessShape(s: OpenSuccess, reserved: byte)
    requires |s.appData| / 2 < 256
    ensures var fs := SuccessFields(s, reserved);
            && (forall i :: 0 <= i < |fs| ==> InWidth(fs[i]))
            && WidthsOf(fs) == SUCCESS_WIDTHS
            && Values(fs) == [s.o2tId, s.t2oId, s.serial, s.vendor, s.originatorSerial, s.o2tApi, s.t2oApi, |s.appData| / 2, reserved]
  {
    Widths();
    var fs := SuccessFields(s, reserved);
    ValuesAt(fs);
    assert WidthsOf(fs) == SUCCESS_WIDTHS;
    assert Values(fs) == [s.o2tId, s.t2oId, s.serial, s.vendor, s.originatorSerial, s.o2tApi, s.t2oApi, |s.appData| / 2, reserved];
  }

  const ID_MISMATCH := "forward-open reply t-o connection id mismatch"
  const SERIAL_MISMATCH := "forward-open reply connection serial mismatch"
  const VENDOR_MISMATCH := "forward-open reply vendor id mismatch"
  const ORIGINATOR_MISMATCH := "forward-open reply originator serial mismatch"

  /** The reply must carry our own four identity fields; the target's connection id is its own business. */
  function VerifyEcho(open: OpenRequest, s: OpenSuccess): (r: Result<(), EnipError>)
    ensures r.Ok? <==> (s.t2oId, s.serial, s.vendor, s.originatorSerial) == (open.t2oId, open.serial, open.vendor, open.originatorSerial)
  {
    if s.t2oId != open.t2oId then Err(ProtocolViolation(ID_MISMATCH))
    else if s.serial != open.serial then Err(ProtocolViolation(SERIAL_MISMATCH))
    else if s.vendor != open.vendor then Err(ProtocolViolation(VENDOR_MISMATCH))
    else if s.originatorSerial != open.originatorSerial then Err(ProtocolViolation(ORIGINATOR_MISMATCH))
    else Ok(())
  }

  // ----- Forward_Close -----

  datatype CloseRequest = CloseRequest(
    priorityTick: byte, timeoutTicks: byte, serial: u16, vendor: u16, originatorSerial: u32, path: Bytes)

  function CloseFor(o: OpenRequest): CloseRequest {
    CloseRequest(o.priorityTick, o.timeoutTicks, o.serial, o.vendor, o.originatorSerial, o.path)
  }

  function CloseFields(c: CloseRequest): seq<(nat, nat)> {
    [(c.priorityTick, 1), (c.timeoutTicks, 1), (c.serial, 2), (c.vendor, 2), (c.originatorSerial, 4), (|c.path| / 2, 1), (0, 1)]
  }

  function EncodeClose(c: CloseRequest): Result<Bytes, EnipError> {
    if |c.path| / 2 > MAX_PATH_WORDS then Err(TooLarge(255)) else Ok(PrintFields(CloseFields(c)) + c.path)
  }

  function ParseClose(buf: Bytes): Result<CloseRequest, WireError> {
    var widths: seq<nat> := [1, 1, 2, 2, 4, 1, 1];
    var p :- ReadFields(buf, 0, widths);
    ReadFieldsInRange(buf, 0, widths);
    Widths();
    var v := p.0;
    assert forall i :: 0 <= i < 7 ==> v[i] < Pow256(widths[i]);
    var path :- PathAt(buf, p.1, v[5]);
    Ok(CloseRequest(v[0], v[1], v[2], v[3], v[4], path))
  }

  lemma CloseShape(c: CloseRequest)
    requires |c.path| / 2 <= MAX_PATH_WORDS
    ensures var fs := CloseFields(c);
            && (forall i :: 0 <= i < |fs| ==> InWidth(fs[i]))
            && WidthsOf(fs) == [1, 1, 2, 2, 4, 1, 1]
            && Values(fs) == [c.priorityTick, c.timeoutTicks, c.serial, c.vendor, c.originatorSerial, |c.path| / 2, 0]
  {
    Widths();
    var fs := CloseFields(c);
    ValuesAt(fs);
    assert WidthsOf(fs) == [1, 1, 2, 2, 4, 1, 1];
    assert Values(fs) == [c.priorityTick, c.timeoutTicks, c.serial, c.vendor, c.originatorSerial, |c.path| / 2, 0];
  }

  /** Whatever could be opened can be closed, and the close is read as naming the connection the open named exactly when the path is a whole number of words. */
  lemma CloseRoundTrip(o: OpenRequest)
    requires EncodeOpen(o).Ok?
    ensures EncodeClose(CloseFor(o)).Ok?
    ensures var c := CloseRequest(o.priorityTick, o.timeoutTicks, o.serial, o.vendor, o.originatorSerial, o.path);
            ParseClose(EncodeClose(CloseFor(o)).value) == Ok(c) <==> |o.path| % 2 == 0
  {
    var c := CloseFor(o);
    var fs := CloseFields(c);
    var buf := EncodeClose(c).value;
    CloseShape(c);
    assert HasAt(buf, 0, PrintFields(fs));
    FieldsRoundTrip(fs, buf, 0);
    assert buf[|PrintFields(fs)|..] == c.path;
    PathReadBack(buf, |PrintFields(fs)|, c.path);
  }

  /** Where everything of a close stands on the wire, path last. */
  lemma CloseOnWire(c: CloseRequest)
    requires EncodeClose(c).Ok?
    ensures var b := EncodeClose(c).value;
            && |b| == 12 + |c.path| && b[12..] == c.path
            && ReadAt(b, 0, 1) == Ok(c.priorityTick) && ReadAt(b, 1, 1) == Ok(c.timeoutTicks)
            && ReadAt(b, 2, 2) == Ok(c.serial) && ReadAt(b, 4, 2) == Ok(c.vendor) && ReadAt(b, 6, 4) == Ok(c.originatorSerial)
            && ReadAt(b, 10, 1) == Ok(|c.path| / 2) && ReadAt(b, 11, 1) == Ok(0)
  {
    var b, fs, ws: seq<nat> := EncodeClose(c).value, CloseFields(c), [1, 1, 2, 2, 4, 1, 1];
    CloseShape(c);
    assert HasAt(b, 0, PrintFields(fs));
    FieldsRoundTrip(fs, b, 0);
    ReadFieldsEnd(b, 0, ws);
    CloseOffsets(ws);
    forall k | 0 <= k < 7 ensures Before(ws, k) <= |b| && ReadAt(b, Before(ws, k), ws[k]) == Ok(Values(fs)[k]) {
      ReadFieldsAt(b, 0, ws, k);
    }
    assert ws[0] == ws[1] == ws[5] == ws[6] == 1 && ws[2] == ws[3] == 2 && ws[4] == 4;
  }

  lemma CloseOffsets(ws: seq<nat>)
    requires ws == [1, 1, 2, 2, 4, 1, 1]
    ensures Before(ws, 0) == 0 && Before(ws, 1) == 1 && Before(ws, 2) == 2 && Before(ws, 3) == 4 && Before(ws, 4) == 6
    ensures Before(ws, 5) == 10 && Before(ws, 6) == 11 && Before(ws, 7) == 12
  {
    assert Before(ws, 1) == 1;
    assert Before(ws, 2) == 2;
    assert Before(ws, 4) == 6;
    assert Before(ws, 6) == 11;
  }
}
