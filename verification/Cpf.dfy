/** The Common Packet Format item list (cpf.rs). */
module Cpf {
  import opened Prelude
  import opened Wire

  datatype ItemType =
    | NullAddress
    | Identity
    | ConnectedAddress
    | ConnectedData
    | UnconnectedData
    | SockAddrOtoT
    | SockAddrTtoO
    | SequencedAddress
    | Unknown(id: u16)
  {
    static function FromCode(code: u16): ItemType {
      match code
      case 0x0000 => NullAddress
      case 0x000C => Identity
      case 0x00A1 => ConnectedAddress
      case 0x00B1 => ConnectedData
      case 0x00B2 => UnconnectedData
      case 0x8000 => SockAddrOtoT
      case 0x8001 => SockAddrTtoO
      case 0x8002 => SequencedAddress
      case other => Unknown(other)
    }

    function Code(): u16 {
      match this
      case NullAddress => 0x0000
      case Identity => 0x000C
      case ConnectedAddress => 0x00A1
      case ConnectedData => 0x00B1
      case UnconnectedData => 0x00B2
      case SockAddrOtoT => 0x8000
      case SockAddrTtoO => 0x8001
      case SequencedAddress => 0x8002
      case Unknown(id) => id
    }

    /** False only for an `Unknown` that spells a registered code. */
    predicate Canonical() {
      FromCode(Code()) == this
    }
  }

  datatype Item = Item(typ: ItemType, data: Bytes)


  // ----- printing -----

  function ItemBytes(item: Item): Bytes {
    Le(item.typ.Code(), 2) + Le(|item.data|, 2) + item.data
  }

  function ItemsBytes(items: seq<Item>): Bytes {
    if items == [] then [] else ItemBytes(items[0]) + ItemsBytes(items[1..])
  }

  predicate Encodable(items: seq<Item>) {
    |items| <= U16_MAX && forall i :: 0 <= i < |items| ==> |items[i].data| <= U16_MAX
  }

  function Encode(items: seq<Item>): Result<Bytes, WireError> {
    if Encodable(items) then Ok(Le(|items|, 2) + ItemsBytes(items)) else Err(Overflow)
  }

  /** The registered item ids. */
  lemma ItemCodes()
    ensures NullAddress.Code() == 0x0000 && Identity.Code() == 0x000C && ConnectedAddress.Code() == 0x00A1
    ensures ConnectedData.Code() == 0x00B1 && UnconnectedData.Code() == 0x00B2
    ensures SockAddrOtoT.Code() == 0x8000 && SockAddrTtoO.Code() == 0x8001 && SequencedAddress.Code() == 0x8002
    ensures forall id :: Unknown(id).Code() == id
  {
  }

  /** On the wire: the id, the length, then the data; a list starts with its count. */
  lemma ItemsOnWire(a: Item, b: Item)
    requires |a.data| <= U16_MAX && |b.data| <= U16_MAX
    ensures Encode([a, b]) == Ok([2, 0]
                                 + [a.typ.Code() % 256, a.typ.Code() / 256, |a.data| % 256, |a.data| / 256] + a.data
                                 + [b.typ.Code() % 256, b.typ.Code() / 256, |b.data| % 256, |b.data| / 256] + b.data)
  {
    LeTwo(2);
    ItemOnWire(a);
    ItemOnWire(b);
    assert [a, b][1..] == [b] && [b][1..] == [];
    assert ItemsBytes([b]) == ItemBytes(b) + ItemsBytes([b][1..]) == ItemBytes(b) + [];
    assert ItemBytes(b) + [] == ItemBytes(b);
    assert ItemsBytes([a, b]) == ItemBytes(a) + ItemBytes(b);
    var ha: Bytes := [a.typ.Code() % 256, a.typ.Code() / 256, |a.data| % 256, |a.data| / 256];
    var hb: Bytes := [b.typ.Code() % 256, b.typ.Code() / 256, |b.data| % 256, |b.data| / 256];
    Flat([2, 0], ha, a.data, hb, b.data);
  }

  lemma Flat(x: Bytes, a: Bytes, b: Bytes, c: Bytes, d: Bytes)
    ensures x + ((a + b) + (c + d)) == x + a + b + c + d
  {
  }

  lemma ItemOnWire(item: Item)
    requires |item.data| <= U16_MAX
    ensures ItemBytes(item)
         == [item.typ.Code() % 256, item.typ.Code() / 256, |item.data| % 256, |item.data| / 256] + item.data
  {
    LeTwo(item.typ.Code());
    LeTwo(|item.data|);
  }

  // ----- parsing -----

  function ItemAt(buf: Bytes, pos: nat): (r: Result<(Item, nat), WireError>)
    requires pos <= |buf|
    ensures r.Ok? ==> r.value.1 == pos + 4 + |r.value.0.data| <= |buf|
  {
    var code :- U16At(buf, pos);
    var len :- U16At(buf, pos + 2);
    var data :- TakeAt(buf, pos + 4, len);
    Ok((Item(ItemType.FromCode(code), data), pos + 4 + len))
  }

  function ItemsAt(buf: Bytes, pos: nat, n: nat): (r: Result<(seq<Item>, nat), WireError>)
    requires pos <= |buf|
    ensures r.Ok? ==> pos <= r.value.1 <= |buf|
    decreases n
  {
    if n == 0 then Ok(([], pos))
    else
      var head :- ItemAt(buf, pos);
      var rest :- ItemsAt(buf, head.1, n - 1);
      Ok(([head.0] + rest.0, rest.1))
  }

  function Decode(buf: Bytes): Result<seq<Item>, WireError> {
    var count :- U16At(buf, 0);
    var parsed :- ItemsAt(buf, 2, count);
    if parsed.1 == |buf| then Ok(parsed.0) else Err(Malformed(TRAILING))
  }

  /** The first item carrying the id, wherever it stands. */
  function Find(items: seq<Item>, typ: ItemType): (r: Option<Bytes>)
    ensures r.None? <==> forall i :: 0 <= i < |items| ==> items[i].typ != typ
    ensures r.Some? ==> exists i :: 0 <= i < |items| && items[i] == Item(typ, r.value)
                                    && forall j :: 0 <= j < i ==> items[j].typ != typ
  {
    if items == [] then None
    else if items[0].typ == typ then
      assert items[0] == Item(typ, items[0].data);
      Some(items[0].data)
    else
      var r := Find(items[1..], typ);
      assert forall i :: 0 < i < |items| ==> items[i] == items[1..][i - 1];
      assert r.Some? ==> exists i :: 0 <= i < |items| && items[i] == Item(typ, r.value)
                                     && forall j :: 0 <= j < i ==> items[j].typ != typ by {
        if r.Some? {
          var k :| 0 <= k < |items[1..]| && items[1..][k] == Item(typ, r.value)
                   && forall j :: 0 <= j < k ==> items[1..][j].typ != typ;
          assert items[k + 1] == Item(typ, r.value);
          forall j | 0 <= j < k + 1 ensures items[j].typ != typ {
            if j > 0 { assert items[j] == items[1..][j - 1]; }
          }
        }
      }
      r
  }

  // ----- the two imperative codecs, against the functions above -----

  ghost function Prepend(done: seq<Item>, r: Result<(seq<Item>, nat), WireError>): Result<(seq<Item>, nat), WireError> {
    match r
    case Ok(rest) => Ok((done + rest.0, rest.1))
    case Err(e) => Err(e)
  }

  lemma PrependNothing(r: Result<(seq<Item>, nat), WireError>)
    ensures Prepend([], r) == r
  {
    if r.Ok? {
      assert [] + r.value.0 == r.value.0;
    }
  }

  lemma PrependOneMore(done: seq<Item>, item: Item, rest: Result<(seq<Item>, nat), WireError>)
    ensures Prepend(done, Prepend([item], rest)) == Prepend(done + [item], rest)
  {
    if rest.Ok? {
      assert done + ([item] + rest.value.0) == (done + [item]) + rest.value.0;
    }
  }

  /** One more item is read before the rest. */
  lemma ItemsAtStep(buf: Bytes, pos: nat, n: nat)
    requires pos <= |buf|
    ensures var head := ItemAt(buf, pos);
            ItemsAt(buf, pos, n + 1) == if head.Ok? then Prepend([head.value.0], ItemsAt(buf, head.value.1, n)) else Err(head.error)
  {
  }

  method ReadItem(r: WireReader) returns (res: Result<Item, WireError>)
    requires r.Valid()
    modifies r
    ensures r.Valid()
    ensures var parsed := ItemAt(r.buf, old(r.pos));
            if parsed.Err? then res == Err(parsed.error)
            else res == Ok(parsed.value.0) && r.pos == parsed.value.1
  {
    var code := r.U16();
    if code.Err? {
      return Err(code.error);
    }
    var len := r.U16();
    if len.Err? {
      return Err(len.error);
    }
    var data := r.Take(len.value);
    if data.Err? {
      return Err(data.error);
    }
    res := Ok(Item(ItemType.FromCode(code.value), data.value));
  }

  method DecodeFrom(r: WireReader) returns (res: Result<seq<Item>, WireError>)
    requires r.Valid()
    modifies r
    ensures r.Valid()
    ensures var count := U16At(r.buf, old(r.pos));
            if count.Err? then res == Err(count.error)
            else var parsed := ItemsAt(r.buf, old(r.pos) + 2, count.value);
                 if parsed.Err? then res == Err(parsed.error)
                 else res == Ok(parsed.value.0) && r.pos == parsed.value.1
  {
    var count := r.U16();
    if count.Err? {
      return Err(count.error);
    }
    var items: seq<Item> := [];
    var i := 0;
    ghost var whole := ItemsAt(r.buf, r.pos, count.value);
    PrependNothing(whole);
    while i < count.value
      invariant 0 <= i <= count.value && r.Valid()
      invariant whole == Prepend(items, ItemsAt(r.buf, r.pos, count.value - i))
    {
      ItemsAtStep(r.buf, r.pos, count.value - i - 1);
      var item := ReadItem(r);
      if item.Err? {
        return Err(item.error);
      }
      PrependOneMore(items, item.value, ItemsAt(r.buf, r.pos, count.value - i - 1));
      items := items + [item.value];
      i := i + 1;
    }
    assert items + [] == items;
    res := Ok(items);
  }

  method DecodeBuffer(buf: Bytes) returns (res: Result<seq<Item>, WireError>)
    ensures res == Decode(buf)
  {
    var r := new WireReader(buf);
    res := DecodeFrom(r);
    if res.Ok? && r.Remaining() != 0 {
      res := Err(Malformed(TRAILING));
    }
  }

  lemma AppendAssoc(a: Bytes, b: Bytes, c: Bytes)
    ensures (a + b) + c == a + (b + c)
  {
  }

  method EncodeItems(items: seq<Item>) returns (res: Result<Bytes, WireError>)
    ensures res == Encode(items)
  {
    if |items| > U16_MAX {
      return Err(Overflow);
    }
    var w := new WireWriter();
    w.U16(|items|);
    var i := 0;
    while i < |items|
      invariant 0 <= i <= |items|
      invariant forall k :: 0 <= k < i ==> |items[k].data| <= U16_MAX
      invariant w.buf + ItemsBytes(items[i..]) == Le(|items|, 2) + ItemsBytes(items)
    {
      if |items[i].data| > U16_MAX {
        return Err(Overflow);
      }
      ghost var before := w.buf;
      w.U16(items[i].typ.Code());
      w.U16(|items[i].data|);
      w.PutSlice(items[i].data);
      assert w.buf == before + ItemBytes(items[i]);
      assert items[i..][1..] == items[i + 1..];
      AppendAssoc(before, ItemBytes(items[i]), ItemsBytes(items[i + 1..]));
      i := i + 1;
    }
    assert w.buf == w.buf + ItemsBytes(items[i..]);
    res := Ok(w.buf);
  }

  // ----- parsing and printing undo each other -----

  /** The bytes one item was parsed from are the bytes it prints to. */
  lemma ParsedItemPrints(buf: Bytes, pos: nat)
    requires pos <= |buf| && ItemAt(buf, pos).Ok?
    ensures var (item, end) := ItemAt(buf, pos).value;
            |item.data| <= U16_MAX && end == pos + |ItemBytes(item)| && HasAt(buf, pos, ItemBytes(item))
  {
    var code, len := U16At(buf, pos).value, U16At(buf, pos + 2).value;
    var data := TakeAt(buf, pos + 4, len).value;
    CodeOfFromCode(code);
    ReadHas(buf, pos, 2);
    ReadHas(buf, pos + 2, 2);
    HasAtSplit(buf, pos, Le(code, 2), Le(len, 2));
    HasAtSplit(buf, pos, Le(code, 2) + Le(len, 2), data);
  }

  lemma {:induction false} ParsedItemsPrint(buf: Bytes, pos: nat, n: nat)
    requires pos <= |buf| && ItemsAt(buf, pos, n).Ok?
    ensures var (items, end) := ItemsAt(buf, pos, n).value;
            && |items| == n
            && (forall i :: 0 <= i < n ==> |items[i].data| <= U16_MAX)
            && end == pos + |ItemsBytes(items)|
            && HasAt(buf, pos, ItemsBytes(items))
    decreases n
  {
    if n > 0 {
      var (item, next) := ItemAt(buf, pos).value;
      var (rest, end) := ItemsAt(buf, next, n - 1).value;
      ParsedItemPrints(buf, pos);
      ParsedItemsPrint(buf, next, n - 1);
      ItemsBytesCons(item, rest);
      HasAtSplit(buf, pos, ItemBytes(item), ItemsBytes(rest));
      assert ItemsAt(buf, pos, n).value == ([item] + rest, end);
    }
  }

  lemma ItemsBytesCons(item: Item, rest: seq<Item>)
    ensures ItemsBytes([item] + rest) == ItemBytes(item) + ItemsBytes(rest)
  {
    assert ([item] + rest)[1..] == rest;
  }

  lemma CodeOfFromCode(code: u16)
    ensures ItemType.FromCode(code).Code() == code
  {
  }

  /** Any datagram that parses prints back to the same bytes. */
  lemma DecodeThenEncode(buf: Bytes)
    requires Decode(buf).Ok?
    ensures Encode(Decode(buf).value) == Ok(buf)
  {
    var count := U16At(buf, 0).value;
    var items := Decode(buf).value;
    ParsedItemsPrint(buf, 2, count);
    ReadHas(buf, 0, 2);
    HasAtSplit(buf, 0, Le(count, 2), ItemsBytes(items));
    HasAtSlice(buf, 0, Le(count, 2) + ItemsBytes(items));
    assert buf == buf[0..|buf|];
  }

  /** What a printed list parses to: the same items with their ids normalised. */
  function Normal(items: seq<Item>): (r: seq<Item>)
    ensures |r| == |items|
  {
    seq(|items|, i requires 0 <= i < |items| => NormalItem(items[i]))
  }

  function NormalItem(item: Item): Item {
    Item(ItemType.FromCode(item.typ.Code()), item.data)
  }

  /** One printed item, standing anywhere, is read back with its id normalised. */
  lemma PrintedItemParses(buf: Bytes, pos: nat, item: Item)
    requires |item.data| <= U16_MAX && HasAt(buf, pos, ItemBytes(item))
    ensures ItemAt(buf, pos) == Ok((NormalItem(item), pos + |ItemBytes(item)|))
  {
    var code, len := item.typ.Code(), |item.data|;
    HasAtSplit(buf, pos, Le(code, 2) + Le(len, 2), item.data);
    HasAtSplit(buf, pos, Le(code, 2), Le(len, 2));
    Widths();
    ReadBack(buf, pos, code, 2);
    ReadBack(buf, pos + 2, len, 2);
    HasAtSlice(buf, pos + 4, item.data);
  }

  lemma NormalCons(items: seq<Item>)
    requires items != []
    ensures Normal(items) == [NormalItem(items[0])] + Normal(items[1..])
  {
  }

  predicate AllShort(items: seq<Item>) {
    forall i :: 0 <= i < |items| ==> |items[i].data| <= U16_MAX
  }

  lemma {:induction false} PrintedItemsParse(buf: Bytes, pos: nat, items: seq<Item>)
    requires AllShort(items)
    requires pos <= |buf| && HasAt(buf, pos, ItemsBytes(items))
    ensures ItemsAt(buf, pos, |items|) == Ok((Normal(items), pos + |ItemsBytes(items)|))
    decreases |items|
  {
    if items == [] {
      assert Normal(items) == [];
    } else {
      var item, tail, next := items[0], items[1..], pos + |ItemBytes(items[0])|;
      assert ItemsBytes(items) == ItemBytes(item) + ItemsBytes(tail);
      NormalCons(items);
      HasAtSplit(buf, pos, ItemBytes(item), ItemsBytes(tail));
      PrintedItemsParse(buf, next, tail);
      HeadThenTail(buf, pos, item, next, tail, next + |ItemsBytes(tail)|);
    }
  }

  lemma HeadThenTail(buf: Bytes, pos: nat, item: Item, next: nat, tail: seq<Item>, end: nat)
    requires |item.data| <= U16_MAX && HasAt(buf, pos, ItemBytes(item)) && next == pos + |ItemBytes(item)| <= |buf|
    requires ItemsAt(buf, next, |tail|) == Ok((Normal(tail), end))
    ensures ItemsAt(buf, pos, |tail| + 1) == Ok(([NormalItem(item)] + Normal(tail), end))
  {
    PrintedItemParses(buf, pos, item);
    ItemsAtStep(buf, pos, |tail|);
  }

  lemma EncodeThenDecodeNormal(items: seq<Item>)
    requires Encodable(items)
    ensures Decode(Encode(items).value) == Ok(Normal(items))
  {
    var buf := Encode(items).value;
    assert HasAt(buf, 0, buf);
    HasAtSplit(buf, 0, Le(|items|, 2), ItemsBytes(items));
    Widths();
    ReadBack(buf, 0, |items|, 2);
    PrintedItemsParse(buf, 2, items);
  }

  /** An encodable list survives the wire exactly when every item id is canonical. */
  lemma EncodeThenDecode(items: seq<Item>)
    requires Encode(items).Ok?
    ensures Decode(Encode(items).value) == Ok(items)
       <==> forall i :: 0 <= i < |items| ==> items[i].typ.Canonical()
  {
    EncodeThenDecodeNormal(items);
    var n := Normal(items);
    forall i | 0 <= i < |items| ensures n[i] == items[i] <==> items[i].typ.Canonical() {
    }
    if forall i :: 0 <= i < |items| ==> items[i].typ.Canonical() {
      assert n == items;
    }
  }

  /** The only spelling the wire cannot carry: `Unknown` over a registered code. */
  lemma CanonicalIffNotAliased(typ: ItemType)
    ensures typ.Canonical() <==> (typ.Unknown? ==> ItemType.FromCode(typ.id).Unknown?)
  {
  }

  // ----- the explicit reply shape -----

  datatype Shape = NotTwoItems | ClassMismatch | UnexpectedIds

  function ExpectExplicitData(items: seq<Item>): (r: Result<Bytes, Shape>)
    ensures r.Ok? <==> exists a, d :: items == [Item(NullAddress, a), Item(UnconnectedData, d)]
                                   || items == [Item(ConnectedAddress, a), Item(ConnectedData, d)]
    ensures r.Ok? ==> items[1].data == r.value
  {
    if |items| != 2 then Err(NotTwoItems)
    else
      assert items == [Item(items[0].typ, items[0].data), Item(items[1].typ, items[1].data)];
      match (items[0].typ, items[1].typ)
      case (NullAddress, UnconnectedData) => Ok(items[1].data)
      case (ConnectedAddress, ConnectedData) => Ok(items[1].data)
      case (NullAddress, ConnectedData) => Err(ClassMismatch)
      case (ConnectedAddress, UnconnectedData) => Err(ClassMismatch)
      case _ => Err(UnexpectedIds)
  }

  // ----- typed payloads -----

  datatype SeqAddr = SeqAddr(connectionId: u32, encapSequence: u32)

  function EncodeSeqAddr(a: SeqAddr): Bytes {
    Le(a.connectionId, 4) + Le(a.encapSequence, 4)
  }

  function DecodeSeqAddr(data: Bytes): (r: Result<SeqAddr, WireError>)
    ensures r.Ok? <==> |data| == 8
  {
    var id :- U32At(data, 0);
    var s :- U32At(data, 4);
    if |data| == 8 then Ok(SeqAddr(id, s)) else Err(Malformed(TRAILING))
  }

  lemma SeqAddrRoundTrip(a: SeqAddr)
    ensures DecodeSeqAddr(EncodeSeqAddr(a)) == Ok(a)
  {
    Widths();
    var b := EncodeSeqAddr(a);
    assert HasAt(b, 0, b);
    HasAtSplit(b, 0, Le(a.connectionId, 4), Le(a.encapSequence, 4));
    ReadBack(b, 0, a.connectionId, 4);
    ReadBack(b, 4, a.encapSequence, 4);
  }

  /** On the wire: the connection id, then the encapsulation sequence, both little-endian. */
  lemma SeqAddrOnWire(a: SeqAddr)
    ensures EncodeSeqAddr(a) == [a.connectionId % 256, a.connectionId / 0x100 % 256, a.connectionId / 0x1_0000 % 256, a.connectionId / 0x100_0000,
                                 a.encapSequence % 256, a.encapSequence / 0x100 % 256, a.encapSequence / 0x1_0000 % 256, a.encapSequence / 0x100_0000]
  {
    LeFour(a.connectionId);
    LeFour(a.encapSequence);
  }

  /** Sockaddr info: big-endian family, port and address, then eight bytes kept as they came. */
  datatype SockAddr = SockAddr(family: u16, port: u16, addr: u32, zero: Bytes)

  const AF_INET: u16 := 2

  function Ipv4Sock(addr: u32, port: u16): SockAddr {
    SockAddr(AF_INET, port, addr, [0, 0, 0, 0, 0, 0, 0, 0])
  }

  function EncodeSock(s: SockAddr): Bytes {
    Be(s.family, 2) + Be(s.port, 2) + Be(s.addr, 4) + s.zero
  }

  function DecodeSock(data: Bytes): (r: Result<SockAddr, WireError>)
    ensures r.Ok? <==> |data| == 16
    ensures r.Ok? ==> |r.value.zero| == 8
  {
    Widths();
    var family :- TakeAt(data, 0, 2);
    var port :- TakeAt(data, 2, 2);
    var addr :- TakeAt(data, 4, 4);
    var zero :- TakeAt(data, 8, 8);
    if |data| == 16 then Ok(SockAddr(FromBe(family), FromBe(port), FromBe(addr), zero)) else Err(Malformed(TRAILING))
  }

  lemma BeTwo(n: u16)
    ensures Be(n, 2) == [n / 256, n % 256]
  {
    LeTwo(n);
    RevAt(Le(n, 2), 0);
    RevAt(Le(n, 2), 1);
  }

  lemma BeFour(n: u32)
    ensures Be(n, 4) == [n / 0x100_0000, n / 0x1_0000 % 256, n / 0x100 % 256, n % 256]
  {
    LeFour(n);
    RevAt(Le(n, 4), 0);
    RevAt(Le(n, 4), 1);
    RevAt(Le(n, 4), 2);
    RevAt(Le(n, 4), 3);
  }

  /** On the wire: family 2, the port and the address, all big-endian, then eight zero bytes. */
  lemma SockOnWire(addr: u32, port: u16)
    ensures EncodeSock(Ipv4Sock(addr, port))
         == [0, 2, port / 256, port % 256, addr / 0x100_0000, addr / 0x1_0000 % 256, addr / 0x100 % 256, addr % 256,
             0, 0, 0, 0, 0, 0, 0, 0]
  {
    BeTwo(2);
    BeTwo(port);
    BeFour(addr);
  }

  /** Sixteen bytes and sockaddr values correspond one to one. */
  lemma SockRoundTrip(s: SockAddr, data: Bytes)
    requires |s.zero| == 8
    ensures DecodeSock(EncodeSock(s)) == Ok(s)
    ensures DecodeSock(data).Ok? ==> EncodeSock(DecodeSock(data).value) == data
  {
    Widths();
    var b := EncodeSock(s);
    BeRoundTrip(s.family, 2);
    BeRoundTrip(s.port, 2);
    BeRoundTrip(s.addr, 4);
    assert b[0..2] == Be(s.family, 2) && b[2..4] == Be(s.port, 2) && b[4..8] == Be(s.addr, 4) && b[8..16] == s.zero;
    if |data| == 16 {
      FromBeRoundTrip(data[0..2]);
      FromBeRoundTrip(data[2..4]);
      FromBeRoundTrip(data[4..8]);
      assert data == data[0..2] + data[2..4] + data[4..8] + data[8..16];
    }
  }
}
