/** Fragmented tag reads and writes (logix.rs). */
module Logix {
  import opened Prelude
  import opened Wire
  import opened Errors
  import opened Cip

  const STATUS_OK: nat := 0x00
  const STATUS_PARTIAL: nat := 0x06

  const READ_FRAGMENTED_REPLY: byte := 0xD2
  const WRITE_TAG_REPLY: byte := 0xCD
  const WRITE_FRAGMENTED_REPLY: byte := 0xD3

  /** What one request comes back with: a session error, or a Message Router reply. */
  datatype Answer = Fault(error: EnipError) | Answer(service: byte, status: nat, data: Bytes)

  const WRONG_SERVICE := "reply service does not match request | 0x80"
  const CODE_CHANGED := "fragmented read type code changed between fragments"
  const HANDLE_CHANGED := "fragmented read struct handle changed between fragments"
  const NO_PROGRESS := "fragmented read made no progress"

  // ----- reading -----

  /** Type code and, for a structure, template handle: what every fragment must repeat. */
  datatype Header = Header(code: u16, handle: Option<u16>)

  function HeaderAndValue(data: Bytes): Result<(Header, Bytes), EnipError> {
    match U16At(data, 0)
    case Err(e) => Err(WireFault(e))
    case Ok(code) =>
      if !CipType.FromCode(code).Struct? then Ok((Header(code, None), data[2..]))
      else match U16At(data, 2)
        case Err(e) => Err(WireFault(e))
        case Ok(handle) => Ok((Header(code, Some(handle)), data[4..]))
  }

  function PrintHeader(h: Header): Bytes {
    Le(h.code, 2) + if h.handle.Some? then Le(h.handle.value, 2) else []
  }

  /** The code is compared before the handle is even read. */
  function CheckedFragment(first: Option<Header>, data: Bytes): Result<(Header, Bytes), EnipError> {
    match U16At(data, 0)
    case Err(e) => Err(WireFault(e))
    case Ok(code) =>
      if first.Some? && first.value.code != code then Err(ProtocolViolation(CODE_CHANGED))
      else
        var parsed :- HeaderAndValue(data);
        if first.Some? && first.value.handle != parsed.0.handle then Err(ProtocolViolation(HANDLE_CHANGED))
        else Ok(parsed)
  }

  type Peer = (nat, nat) -> Answer

  datatype Transfer = Transfer(header: Header, bytes: Bytes)

  /** The rest of a transfer after `acc`: the peer answers the `step`-th request, which asks for offset `|acc|`. */
  function ReadFrom(peer: Peer, step: nat, acc: Bytes, first: Option<Header>, cap: nat): (r: Result<Transfer, EnipError>)
    requires |acc| <= Min(cap, U32_MAX)
    ensures r.Ok? ==> acc <= r.value.bytes && |r.value.bytes| <= Min(cap, U32_MAX)
    ensures r.Ok? && first.Some? ==> r.value.header == first.value
    decreases cap - |acc|
  {
    match peer(step, |acc|)
    case Fault(e) => Err(e)
    case Answer(service, status, data) =>
      if service != READ_FRAGMENTED_REPLY then Err(ProtocolViolation(WRONG_SERVICE))
      else if status != STATUS_OK && status != STATUS_PARTIAL then Err(EnipError.Cip(status))
      else
        var parsed :- CheckedFragment(first, data);
        var all := acc + parsed.1;
        if |all| > cap || |all| > U32_MAX then Err(TooLarge(cap))
        else if status == STATUS_OK then Ok(Transfer(parsed.0, all))
        else if parsed.1 == [] then Err(ProtocolViolation(NO_PROGRESS))
        else ReadFrom(peer, step + 1, all, Some(parsed.0), cap)
  }

  /** The loop ends against any peer, asks for strictly increasing offsets, and never holds more than the cap. */
  method ReadTagFragmented(peer: Peer, cap: nat) returns (r: Result<Transfer, EnipError>, offsets: seq<nat>)
    ensures r == ReadFrom(peer, 0, [], None, cap)
    ensures 1 <= |offsets| <= cap + 1 && offsets[0] == 0
    ensures forall i, j :: 0 <= i < j < |offsets| ==> offsets[i] < offsets[j]
    ensures forall i :: 0 <= i < |offsets| ==> offsets[i] <= Min(cap, U32_MAX)
  {
    var offset := 0;
    var acc: Bytes := [];
    var first: Option<Header> := None;
    offsets := [];
    while true
      invariant offset == |acc| <= Min(cap, U32_MAX)
      invariant ReadFrom(peer, 0, [], None, cap) == ReadFrom(peer, |offsets|, acc, first, cap)
      invariant |offsets| <= offset
      invariant offsets != [] ==> offsets[0] == 0
      invariant offsets == [] ==> offset == 0
      invariant forall i, j :: 0 <= i < j < |offsets| ==> offsets[i] < offsets[j]
      invariant forall i :: 0 <= i < |offsets| ==> offsets[i] < offset
      decreases cap - |acc|
    {
      var answer := peer(|offsets|, offset);
      offsets := offsets + [offset];
      if answer.Fault? {
        return Err(answer.error), offsets;
      }
      if answer.service != READ_FRAGMENTED_REPLY {
        return Err(ProtocolViolation(WRONG_SERVICE)), offsets;
      }
      var more := answer.status == STATUS_PARTIAL;
      if answer.status != STATUS_OK && !more {
        return Err(EnipError.Cip(answer.status)), offsets;
      }
      var fragment := CheckedFragment(first, answer.data);
      if fragment.Err? {
        return Err(fragment.error), offsets;
      }
      var value := fragment.value.1;
      first := Some(fragment.value.0);
      if |acc| + |value| > cap || |acc| + |value| > U32_MAX {
        return Err(TooLarge(cap)), offsets;
      }
      acc := acc + value;
      offset := offset + |value|;
      if !more {
        return Ok(Transfer(fragment.value.0, acc)), offsets;
      }
      if value == [] {
        return Err(ProtocolViolation(NO_PROGRESS)), offsets;
      }
    }
  }

  // ----- a device that stores a value by offset -----

  /** `cut(offset)` bytes, and at least one while any remain. */
  function Piece(mem: Bytes, cut: nat -> nat, offset: nat): Bytes
    requires offset <= |mem|
  {
    mem[offset..offset + Min(Max(cut(offset), 1), |mem| - offset)]
  }

  function Serve(mem: Bytes, h: Header, cut: nat -> nat, offset: nat): Answer {
    if offset > |mem| then Answer(READ_FRAGMENTED_REPLY, 0x13, [])
    else
      var piece := Piece(mem, cut, offset);
      Answer(READ_FRAGMENTED_REPLY, if offset + |piece| == |mem| then STATUS_OK else STATUS_PARTIAL, PrintHeader(h) + piece)
  }

  function Device(mem: Bytes, h: Header, cut: nat -> nat): Peer {
    (step: nat, offset: nat) => Serve(mem, h, cut, offset)
  }

  predicate GoodHeader(h: Header) {
    h.handle.Some? <==> CipType.FromCode(h.code).Struct?
  }

  lemma HeaderRoundTrip(h: Header, value: Bytes)
    requires GoodHeader(h)
    ensures HeaderAndValue(PrintHeader(h) + value) == Ok((h, value))
    ensures U16At(PrintHeader(h) + value, 0) == Ok(h.code)
  {
    var b := PrintHeader(h) + value;
    Widths();
    assert HasAt(b, 0, Le(h.code, 2));
    ReadBack(b, 0, h.code, 2);
    if h.handle.Some? {
      assert HasAt(b, 2, Le(h.handle.value, 2));
      ReadBack(b, 2, h.handle.value, 2);
      assert b[4..] == value;
    } else {
      assert b[2..] == value;
    }
  }

  lemma {:induction false} ReadRest(mem: Bytes, h: Header, cut: nat -> nat, step: nat, acc: Bytes, first: Option<Header>, cap: nat)
    requires GoodHeader(h) && acc <= mem && |acc| <= Min(cap, U32_MAX)
    requires first == None || first == Some(h)
    requires acc == mem ==> mem == []
    ensures ReadFrom(Device(mem, h, cut), step, acc, first, cap)
         == if |mem| <= Min(cap, U32_MAX) then Ok(Transfer(h, mem)) else Err(TooLarge(cap))
    decreases cap - |acc|
  {
    var piece := Piece(mem, cut, |acc|);
    OneFragment(mem, h, cut, step, acc, first);
    if |acc + piece| < |mem| && |acc + piece| <= Min(cap, U32_MAX) {
      ReadRest(mem, h, cut, step + 1, acc + piece, Some(h), cap);
    }
  }

  /** What the device serves next is accepted and extends what was read. */
  lemma OneFragment(mem: Bytes, h: Header, cut: nat -> nat, step: nat, acc: Bytes, first: Option<Header>)
    requires GoodHeader(h) && acc <= mem && (first == None || first == Some(h)) && (acc == mem ==> mem == [])
    ensures var piece := Piece(mem, cut, |acc|);
            && Device(mem, h, cut)(step, |acc|)
               == Answer(READ_FRAGMENTED_REPLY, if |acc + piece| == |mem| then STATUS_OK else STATUS_PARTIAL, PrintHeader(h) + piece)
            && CheckedFragment(first, PrintHeader(h) + piece) == Ok((h, piece))
            && acc + piece <= mem && (|acc + piece| == |mem| ==> acc + piece == mem)
            && (mem != [] ==> piece != [])
  {
    var piece := Piece(mem, cut, |acc|);
    HeaderRoundTrip(h, piece);
    assert acc + piece == mem[..|acc| + |piece|];
  }

  /** However the device cuts the value, the read returns all of it exactly when it fits the cap. */
  lemma ReadIsLossless(mem: Bytes, h: Header, cut: nat -> nat, cap: nat)
    requires GoodHeader(h)
    ensures ReadFrom(Device(mem, h, cut), 0, [], None, cap)
         == if |mem| <= Min(cap, U32_MAX) then Ok(Transfer(h, mem)) else Err(TooLarge(cap))
  {
    ReadRest(mem, h, cut, 0, [], None, cap);
  }

  // ----- a read against any peer -----

  function Joined(values: seq<Bytes>): Bytes {
    if values == [] then [] else Joined(values[..|values| - 1]) + values[|values| - 1]
  }

  /** The peer's first answers are good partial ones: each asked for at the offset of the bytes before it, with the right service, status 6, the same header and some bytes. */
  ghost predicate GoodPartials(peer: Peer, h: Header, values: seq<Bytes>, cap: nat) {
    && GoodHeader(h)
    && |Joined(values)| <= Min(cap, U32_MAX)
    && forall i :: 0 <= i < |values| ==>
         values[i] != [] && peer(i, |Joined(values[..i])|) == Answer(0xD2, 6, PrintHeader(h) + values[i])
  }

  lemma GoodPartialsFront(peer: Peer, h: Header, values: seq<Bytes>, cap: nat)
    requires GoodPartials(peer, h, values, cap) && values != []
    ensures GoodPartials(peer, h, values[..|values| - 1], cap)
  {
    var front := values[..|values| - 1];
    forall i | 0 <= i < |front| ensures peer(i, |Joined(front[..i])|) == Answer(0xD2, 6, PrintHeader(h) + front[i]) {
      assert front[..i] == values[..i];
    }
  }

  lemma GoodPartialsLast(peer: Peer, h: Header, values: seq<Bytes>, cap: nat)
    requires GoodPartials(peer, h, values, cap) && values != []
    ensures var front, last := values[..|values| - 1], values[|values| - 1];
            && last != [] && peer(|front|, |Joined(front)|) == Answer(0xD2, 6, PrintHeader(h) + last)
            && Joined(values) == Joined(front) + last && |Joined(front) + last| <= Min(cap, U32_MAX)
  {
  }

  /** After good partial answers the transfer holds their values joined, and asks on from there. */
  lemma {:induction false} ReadGoesOn(peer: Peer, h: Header, values: seq<Bytes>, cap: nat)
    requires GoodPartials(peer, h, values, cap)
    ensures ReadFrom(peer, 0, [], None, cap)
         == ReadFrom(peer, |values|, Joined(values), if values == [] then None else Some(h), cap)
    decreases |values|
  {
    if values != [] {
      var front, last := values[..|values| - 1], values[|values| - 1];
      GoodPartialsFront(peer, h, values, cap);
      GoodPartialsLast(peer, h, values, cap);
      ReadGoesOn(peer, h, front, cap);
      HeaderRoundTrip(h, last);
      var first := if front == [] then None else Some(h);
      PartialGoesOn(peer, |front|, Joined(front), first, h, last, cap);
    }
  }

  lemma PartialGoesOn(peer: Peer, step: nat, acc: Bytes, first: Option<Header>, h: Header, value: Bytes, cap: nat)
    requires |acc + value| <= Min(cap, U32_MAX) && value != [] && (first == None || first == Some(h))
    requires HeaderAndValue(PrintHeader(h) + value) == Ok((h, value)) && U16At(PrintHeader(h) + value, 0) == Ok(h.code)
    requires peer(step, |acc|) == Answer(0xD2, 6, PrintHeader(h) + value)
    ensures ReadFrom(peer, step, acc, first, cap) == ReadFrom(peer, step + 1, acc + value, Some(h), cap)
  {
  }

  /** How the answer after good partial ones ends the read: a fault, a wrong service or an error status with exactly that error, a final fragment with everything read, a fragment with nothing in it or too much as such. */
  lemma ReadEndsAs(peer: Peer, h: Header, values: seq<Bytes>, cap: nat)
    requires GoodPartials(peer, h, values, cap)
    ensures var a, r := peer(|values|, |Joined(values)|), ReadFrom(peer, 0, [], None, cap);
            && (a.Fault? ==> r == Err(a.error))
            && (a.Answer? && a.service != 0xD2 ==> r == Err(ProtocolViolation(WRONG_SERVICE)))
            && (a.Answer? && a.service == 0xD2 && a.status != 0 && a.status != 6 ==> r == Err(EnipError.Cip(a.status)))
            && (forall value :: a == Answer(0xD2, 0, PrintHeader(h) + value) && |Joined(values) + value| <= Min(cap, U32_MAX) ==>
                  r == Ok(Transfer(h, Joined(values) + value)))
            && (a == Answer(0xD2, 6, PrintHeader(h)) ==> r == Err(ProtocolViolation(NO_PROGRESS)))
            && (forall value :: a.Answer? && a.service == 0xD2 && a.status in {0, 6} && a.data == PrintHeader(h) + value
                                && |Joined(values) + value| > Min(cap, U32_MAX) ==>
                  r == Err(TooLarge(cap)))
  {
    ReadGoesOn(peer, h, values, cap);
    forall value ensures HeaderAndValue(PrintHeader(h) + value) == Ok((h, value)) && U16At(PrintHeader(h) + value, 0) == Ok(h.code) {
      HeaderRoundTrip(h, value);
    }
    assert PrintHeader(h) + [] == PrintHeader(h);
  }

  /** A fragment that changes the type code or the template handle ends the read, once a first fragment has named them. */
  lemma ReadRefusesChange(peer: Peer, h: Header, other: Header, values: seq<Bytes>, value: Bytes, status: nat, cap: nat)
    requires GoodPartials(peer, h, values, cap) && values != [] && GoodHeader(other) && status in {0, 6}
    requires peer(|values|, |Joined(values)|) == Answer(0xD2, status, PrintHeader(other) + value)
    ensures other.code != h.code ==> ReadFrom(peer, 0, [], None, cap) == Err(ProtocolViolation(CODE_CHANGED))
    ensures other.code == h.code && other.handle != h.handle ==> ReadFrom(peer, 0, [], None, cap) == Err(ProtocolViolation(HANDLE_CHANGED))
  {
    ReadGoesOn(peer, h, values, cap);
    HeaderRoundTrip(other, value);
  }

  /** What a fragment parsed to is what it prints to. */
  lemma ParsedHeaderPrints(data: Bytes)
    requires HeaderAndValue(data).Ok?
    ensures var (h, value) := HeaderAndValue(data).value; GoodHeader(h) && data == PrintHeader(h) + value
  {
    ReadHas(data, 0, 2);
    HasAtSlice(data, 0, Le(U16At(data, 0).value, 2));
    if CipType.FromCode(U16At(data, 0).value).Struct? {
      ReadHas(data, 2, 2);
      HasAtSlice(data, 2, Le(U16At(data, 2).value, 2));
    }
  }

  /** The rest of a successful read, as answers: good partial ones from `acc` on, then a final one. */
  ghost predicate Completes(peer: Peer, step: nat, acc: Bytes, t: Transfer, values: seq<Bytes>, last: Bytes) {
    && t.bytes == acc + Joined(values) + last
    && peer(step + |values|, |acc + Joined(values)|) == Answer(0xD2, 0, PrintHeader(t.header) + last)
    && forall i :: 0 <= i < |values| ==>
         values[i] != [] && peer(step + i, |acc + Joined(values[..i])|) == Answer(0xD2, 6, PrintHeader(t.header) + values[i])
  }

  lemma {:induction false} JoinedCons(v: Bytes, rest: seq<Bytes>)
    ensures Joined([v] + rest) == v + Joined(rest)
    decreases |rest|
  {
    if rest == [] {
      assert [v] + rest == [v] && [v][..0] == [];
      assert Joined([v]) == Joined([v][..0]) + v;
    } else {
      var all := [v] + rest;
      assert all[..|all| - 1] == [v] + rest[..|rest| - 1];
      JoinedCons(v, rest[..|rest| - 1]);
    }
  }

  lemma CompletesCons(peer: Peer, step: nat, acc: Bytes, t: Transfer, v: Bytes, values: seq<Bytes>, last: Bytes)
    requires v != [] && peer(step, |acc|) == Answer(0xD2, 6, PrintHeader(t.header) + v)
    requires Completes(peer, step + 1, acc + v, t, values, last)
    ensures Completes(peer, step, acc, t, [v] + values, last)
  {
    var all := [v] + values;
    JoinedAfter(acc, v, values);
    forall i | 0 <= i < |all|
      ensures all[i] != [] && peer(step + i, |acc + Joined(all[..i])|) == Answer(0xD2, 6, PrintHeader(t.header) + all[i])
    {
      if i == 0 {
        assert all[..0] == [] && acc + [] == acc;
      } else {
        ConsAt(v, values, i);
        JoinedAfter(acc, v, values[..i - 1]);
      }
    }
  }

  lemma ConsAt(v: Bytes, values: seq<Bytes>, i: nat)
    requires 0 < i <= |values|
    ensures ([v] + values)[..i] == [v] + values[..i - 1] && ([v] + values)[i] == values[i - 1]
  {
  }

  lemma JoinedAfter(acc: Bytes, v: Bytes, values: seq<Bytes>)
    ensures acc + Joined([v] + values) == acc + v + Joined(values)
  {
    JoinedCons(v, values);
  }

  lemma {:induction false} ReadRestCompletes(peer: Peer, step: nat, acc: Bytes, first: Option<Header>, cap: nat)
    returns (values: seq<Bytes>, last: Bytes)
    requires |acc| <= Min(cap, U32_MAX) && ReadFrom(peer, step, acc, first, cap).Ok?
    ensures Completes(peer, step, acc, ReadFrom(peer, step, acc, first, cap).value, values, last)
    decreases cap - |acc|
  {
    var a := peer(step, |acc|);
    var (h, value) := HeaderAndValue(a.data).value;
    ParsedHeaderPrints(a.data);
    if a.status == 0 {
      values, last := [], value;
      assert acc + [] == acc;
    } else {
      var rest;
      rest, last := ReadRestCompletes(peer, step + 1, acc + value, Some(h), cap);
      CompletesCons(peer, step, acc, ReadFrom(peer, step, acc, first, cap).value, value, rest, last);
      values := [value] + rest;
    }
  }

  /** Against any peer a read succeeds only on good partial answers followed by a final one, and returns exactly their values joined in order. */
  lemma ReadSucceedsOnlyThus(peer: Peer, cap: nat) returns (values: seq<Bytes>, last: Bytes)
    requires ReadFrom(peer, 0, [], None, cap).Ok?
    ensures var t := ReadFrom(peer, 0, [], None, cap).value;
            && GoodPartials(peer, t.header, values, cap)
            && peer(|values|, |Joined(values)|) == Answer(0xD2, 0, PrintHeader(t.header) + last)
            && t.bytes == Joined(values) + last
  {
    values, last := ReadRestCompletes(peer, 0, [], None, cap);
    var t := ReadFrom(peer, 0, [], None, cap).value;
    assert [] + Joined(values) == Joined(values);
    forall i | 0 <= i < |values| ensures peer(i, |Joined(values[..i])|) == Answer(0xD2, 6, PrintHeader(t.header) + values[i]) {
      assert [] + Joined(values[..i]) == Joined(values[..i]);
    }
    ReadHeaderIsGood(peer, 0, [], None, cap);
  }

  lemma {:induction false} ReadHeaderIsGood(peer: Peer, step: nat, acc: Bytes, first: Option<Header>, cap: nat)
    requires |acc| <= Min(cap, U32_MAX) && ReadFrom(peer, step, acc, first, cap).Ok?
    ensures GoodHeader(ReadFrom(peer, step, acc, first, cap).value.header)
    decreases cap - |acc|
  {
    var a := peer(step, |acc|);
    var (h, value) := HeaderAndValue(a.data).value;
    ParsedHeaderPrints(a.data);
    if a.status != 0 {
      ReadHeaderIsGood(peer, step + 1, acc + value, Some(h), cap);
    }
  }

  /** The value of a finished transfer. */
  function BuildValue(t: Transfer): Result<Value, EnipError> {
    var typ := CipType.FromCode(t.header.code);
    match typ
    case Struct => Ok(Opaque(t.header.handle.UnwrapOr(0), |t.bytes|))
    case String | Unknown(_) => Ok(Unsupported(t.header.code, |t.bytes|))
    case _ => match DecodeValue(typ, t.bytes) case Ok(v) => Ok(v) case Err(e) => Err(WireFault(e))
  }

  /** What a finished transfer becomes, by its type code. */
  lemma BuildVerdicts(t: Transfer)
    ensures t.header.code == 0x02A0 ==> BuildValue(t) == Ok(Opaque(t.header.handle.UnwrapOr(0), |t.bytes|))
    ensures t.header.code != 0x02A0 && CipType.FromCode(t.header.code).Size().None? ==> BuildValue(t) == Ok(Unsupported(t.header.code, |t.bytes|))
    ensures CipType.FromCode(t.header.code).Size().Some? ==>
              match DecodeValue(CipType.FromCode(t.header.code), t.bytes)
              case Ok(v) => BuildValue(t) == Ok(v)
              case Err(e) => BuildValue(t) == Err(WireFault(e))
  {
  }

  // ----- writing -----

  datatype WriteRequest =
    | Whole(code: u16, count: u16, data: Bytes)
    | Chunk(code: u16, count: u16, offset: u32, data: Bytes)

  function ChunkBytes(usable: nat, size: nat): (n: nat)
    requires size > 0
    ensures n >= size
  {
    var elems := Max(Max(usable - 12, 0) / size, 1);
    AtLeastOne(elems, size);
    elems * size
  }

  lemma AtLeastOne(k: nat, size: nat)
    requires k >= 1
    ensures k * size >= size
  {
  }

  /** `n` is a whole number of elements. */
  predicate WholeElements(n: nat, size: nat)
    requires size > 0
  {
    n == 0 || (n >= size && WholeElements(n - size, size))
  }

  lemma {:induction false} WholeElementsIsMultiple(n: nat, size: nat)
    requires size in {1, 2, 4, 8}
    ensures WholeElements(n, size) <==> n % size == 0
    decreases n
  {
    if n >= size {
      WholeElementsIsMultiple(n - size, size);
    }
  }

  lemma {:induction false} WholeElementsSum(a: nat, b: nat, size: nat)
    requires size > 0 && WholeElements(a, size) && WholeElements(b, size)
    ensures WholeElements(a + b, size)
    decreases a
  {
    if a > 0 {
      WholeElementsSum(a - size, b, size);
    }
  }

  lemma {:induction false} WholeElementsProduct(k: nat, size: nat)
    requires size > 0
    ensures WholeElements(k * size, size)
  {
    if k > 0 {
      WholeElementsProduct(k - 1, size);
      assert k * size == (k - 1) * size + size;
    }
  }

  /** The bytes a sequence of requests carries. */
  function Carried(requests: seq<WriteRequest>): Bytes {
    if requests == [] then [] else Carried(requests[..|requests| - 1]) + requests[|requests| - 1].data
  }

  /** Every request is a non-empty chunk at the offset of the bytes before it, at most `limit` long and starting on an element boundary. */
  ghost predicate Tiles(requests: seq<WriteRequest>, limit: nat, size: nat)
    requires size > 0
  {
    forall i :: 0 <= i < |requests| ==>
      && requests[i].Chunk?
      && 0 < |requests[i].data| <= limit
      && requests[i].offset == |Carried(requests[..i])|
      && WholeElements(requests[i].offset, size)
  }

  /** Every request carries the type code and the element count of the whole value. */
  ghost predicate Labelled(requests: seq<WriteRequest>, code: u16, count: u16) {
    forall i :: 0 <= i < |requests| ==> requests[i].code == code && requests[i].count == count
  }

  predicate Refusal(a: Answer, service: byte) {
    a.Fault? || a.service != service || a.status != STATUS_OK
  }

  function RefusalError(a: Answer, service: byte): EnipError
    requires Refusal(a, service)
  {
    if a.Fault? then a.error else if a.service != service then ProtocolViolation(WRONG_SERVICE) else EnipError.Cip(a.status)
  }

  /** The device accepted its first `n` answers' requests. */
  ghost predicate Accepted(peer: nat -> Answer, n: nat) {
    forall i :: 0 <= i < n ==> !Refusal(peer(i), WRITE_FRAGMENTED_REPLY)
  }

  ghost predicate OnBoundaries(requests: seq<WriteRequest>, size: nat)
    requires size > 0
  {
    forall i :: 0 <= i < |requests| ==> requests[i].Chunk? && requests[i].offset % size == 0
  }

  lemma TilesOnBoundaries(requests: seq<WriteRequest>, limit: nat, size: nat)
    requires size in {1, 2, 4, 8} && Tiles(requests, limit, size)
    ensures OnBoundaries(requests, size)
  {
    forall i | 0 <= i < |requests| ensures requests[i].Chunk? && requests[i].offset % size == 0 {
      WholeElementsIsMultiple(requests[i].offset, size);
    }
  }

  /** Every chunk takes as much as the limit and the bytes left allow. */
  ghost predicate Full(requests: seq<WriteRequest>, bytes: Bytes, limit: nat) {
    forall i :: 0 <= i < |requests| ==>
      requests[i].Chunk? && requests[i].offset <= |bytes| && |requests[i].data| == Min(limit, |bytes| - requests[i].offset)
  }

  /** How a chunked transfer ends: all sent and accepted, or stopped at the first refusal, or at an offset past 32 bits. */
  ghost predicate ChunkedOutcome(r: Result<(), EnipError>, requests: seq<WriteRequest>, bytes: Bytes, peer: nat -> Answer) {
    && Carried(requests) <= bytes
    && match r
       case Ok(_) => Carried(requests) == bytes && Accepted(peer, |requests|)
       case Err(e) =>
         && requests != []
         && Accepted(peer, |requests| - 1)
         && var last := peer(|requests| - 1);
            if Refusal(last, WRITE_FRAGMENTED_REPLY) then e == RefusalError(last, WRITE_FRAGMENTED_REPLY)
            else e == TooLarge(U32_MAX) && |Carried(requests)| > U32_MAX
  }

  /** The same verdicts in full: which answers let a transfer go on, and what each other one ends it with. */
  lemma ChunkedVerdicts(r: Result<(), EnipError>, requests: seq<WriteRequest>, bytes: Bytes, peer: nat -> Answer)
    requires ChunkedOutcome(r, requests, bytes, peer)
    ensures var passed := if r.Ok? then |requests| else |requests| - 1;
            forall i :: 0 <= i < passed ==> peer(i).Answer? && peer(i).service == 0xD3 && peer(i).status == 0
    ensures r.Ok? ==> Carried(requests) == bytes
    ensures r.Err? ==>
              && requests != []
              && match peer(|requests| - 1)
                 case Fault(e) => r.error == e
                 case Answer(service, status, _) =>
                   if service != 0xD3 then r.error == ProtocolViolation(WRONG_SERVICE)
                   else if status != 0 then r.error == EnipError.Cip(status)
                   else r.error == TooLarge(0xFFFF_FFFF) && |Carried(requests)| > 0xFFFF_FFFF
  {
  }

  /** What is sent is always a tiling of a prefix; success means all of it was sent and accepted, and any refusal stops the transfer with its status. */
  method WriteTag(typ: CipType, value: Value, usable: nat, peer: nat -> Answer)
    returns (r: Result<(), EnipError>, requests: seq<WriteRequest>)
    ensures typ.Size().None? ==> r == Err(UnsupportedType) && requests == []
    ensures typ.Size().Some? && EncodeValue(value).Err? ==> r == Err(WireFault(EncodeValue(value).error)) && requests == []
    ensures typ.Size().Some? && EncodeValue(value).Ok? && value.ElementCount() > U16_MAX ==> r == Err(TooLarge(U16_MAX)) && requests == []
    ensures typ.Size().Some? && EncodeValue(value).Ok? && value.ElementCount() <= U16_MAX ==>
              var bytes, size := EncodeValue(value).value, typ.Size().value;
              && Labelled(requests, typ.Code(), value.ElementCount())
              && if |bytes| + 8 <= usable then
                   && requests == [Whole(typ.Code(), value.ElementCount(), bytes)]
                   && (match peer(0)
                       case Fault(e) => r == Err(e)
                       case Answer(service, status, _) =>
                         r == if service != 0xCD then Err(ProtocolViolation(WRONG_SERVICE)) else if status != 0 then Err(EnipError.Cip(status)) else Ok(()))
                 else
                   && Tiles(requests, ChunkBytes(usable, size), size)
                   && Full(requests, bytes, ChunkBytes(usable, size))
                   && OnBoundaries(requests, size)
                   && ChunkedOutcome(r, requests, bytes, peer)
  {
    requests := [];
    if typ.Size().None? {
      return Err(UnsupportedType), requests;
    }
    var size := typ.Size().value;
    var encoded := EncodeValue(value);
    if encoded.Err? {
      return Err(WireFault(encoded.error)), requests;
    }
    var bytes := encoded.value;
    if value.ElementCount() > U16_MAX {
      return Err(TooLarge(U16_MAX)), requests;
    }
    if |bytes| + 8 <= usable {
      requests := [Whole(typ.Code(), value.ElementCount(), bytes)];
      var answer := peer(0);
      if Refusal(answer, WRITE_TAG_REPLY) {
        return Err(RefusalError(answer, WRITE_TAG_REPLY)), requests;
      }
      return Ok(()), requests;
    }
    ChunkIsWhole(usable, size);
    r, requests := WriteChunks(typ, value.ElementCount(), bytes, size, ChunkBytes(usable, size), peer);
    TilesOnBoundaries(requests, ChunkBytes(usable, size), size);
  }

  /** A chunked transfer: what every chunk is labelled with, the bytes, and where they may be cut. */
  datatype Plan = Plan(code: u16, count: u16, bytes: Bytes, size: nat, limit: nat)
  {
    ghost predicate Sound() {
      0 < size <= limit && WholeElements(limit, size)
    }
  }

  method WriteChunks(typ: CipType, count: u16, bytes: Bytes, size: nat, chunkBytes: nat, peer: nat -> Answer)
    returns (r: Result<(), EnipError>, requests: seq<WriteRequest>)
    requires 0 < size <= chunkBytes && WholeElements(chunkBytes, size)
    ensures Labelled(requests, typ.Code(), count)
    ensures Tiles(requests, chunkBytes, size) && Full(requests, bytes, chunkBytes)
    ensures ChunkedOutcome(r, requests, bytes, peer)
  {
    ghost var plan := Plan(typ.Code(), count, bytes, size, chunkBytes);
    requests := [];
    var offset := 0;
    var sent := 0;
    while sent < |bytes|
      invariant SentSoFar(plan, requests, sent, peer)
      invariant offset == sent <= U32_MAX
      decreases |bytes| - sent
    {
      var end := Min(sent + chunkBytes, |bytes|);
      var next := Chunk(typ.Code(), count, offset, bytes[sent..end]);
      var answer := peer(|requests|);
      SendOneMore(plan, requests, sent, peer, next);
      requests := requests + [next];
      if Refusal(answer, WRITE_FRAGMENTED_REPLY) {
        return Err(RefusalError(answer, WRITE_FRAGMENTED_REPLY)), requests;
      }
      if offset + |next.data| > U32_MAX {
        return Err(TooLarge(U32_MAX)), requests;
      }
      offset := offset + |next.data|;
      sent := end;
    }
    r := Ok(());
  }

  /** The requests tile the first `sent` bytes. */
  ghost predicate Laid(p: Plan, requests: seq<WriteRequest>, sent: nat)
    requires p.Sound()
  {
    && sent <= |p.bytes|
    && Carried(requests) == p.bytes[..sent]
    && Labelled(requests, p.code, p.count)
    && Tiles(requests, p.limit, p.size)
    && Full(requests, p.bytes, p.limit)
    && (sent == |p.bytes| || WholeElements(sent, p.size))
  }

  /** And every one of them was accepted. */
  ghost predicate SentSoFar(p: Plan, requests: seq<WriteRequest>, sent: nat, peer: nat -> Answer) {
    p.Sound() && Laid(p, requests, sent) && Accepted(peer, |requests|)
  }

  lemma LayOneMore(p: Plan, requests: seq<WriteRequest>, sent: nat, next: WriteRequest)
    requires p.Sound() && Laid(p, requests, sent) && sent < |p.bytes|
    requires next.Chunk? && next.code == p.code && next.count == p.count
    requires next.offset == sent && next.data == p.bytes[sent..Min(sent + p.limit, |p.bytes|)]
    ensures Laid(p, requests + [next], Min(sent + p.limit, |p.bytes|))
  {
    ExtendTiles(requests, next, p.limit, p.size);
    ExtendFull(requests, next, p.bytes, p.limit);
    ExtendLabelled(requests, next, p.code, p.count);
    if sent + p.limit <= |p.bytes| {
      WholeElementsSum(sent, p.limit, p.size);
    }
    SliceJoins(p.bytes, sent, Min(sent + p.limit, |p.bytes|));
  }

  /** After one more request the transfer stops, on a refusal or past the largest offset, or goes on. */
  lemma SendOneMore(p: Plan, requests: seq<WriteRequest>, sent: nat, peer: nat -> Answer, next: WriteRequest)
    requires SentSoFar(p, requests, sent, peer) && sent < |p.bytes|
    requires next.Chunk? && next.code == p.code && next.count == p.count
    requires next.offset == sent && next.data == p.bytes[sent..Min(sent + p.limit, |p.bytes|)]
    ensures var all, end, last := requests + [next], Min(sent + p.limit, |p.bytes|), peer(|requests|);
            && Labelled(all, p.code, p.count) && Tiles(all, p.limit, p.size) && Full(all, p.bytes, p.limit)
            && if Refusal(last, WRITE_FRAGMENTED_REPLY) then ChunkedOutcome(Err(RefusalError(last, WRITE_FRAGMENTED_REPLY)), all, p.bytes, peer)
               else SentSoFar(p, all, end, peer) && (end > U32_MAX ==> ChunkedOutcome(Err(TooLarge(U32_MAX)), all, p.bytes, peer))
  {
    LayOneMore(p, requests, sent, next);
    assert (requests + [next])[|requests|] == next;
  }

  lemma SliceJoins(bytes: Bytes, a: nat, b: nat)
    requires a <= b <= |bytes|
    ensures bytes[..a] + bytes[a..b] == bytes[..b]
  {
  }

  lemma ChunkIsWhole(usable: nat, size: nat)
    requires size > 0
    ensures WholeElements(ChunkBytes(usable, size), size)
  {
    WholeElementsProduct(Max(Max(usable - 12, 0) / size, 1), size);
  }

  lemma ExtendTiles(requests: seq<WriteRequest>, next: WriteRequest, limit: nat, size: nat)
    requires size > 0 && Tiles(requests, limit, size)
    requires next.Chunk? && 0 < |next.data| <= limit && next.offset == |Carried(requests)| && WholeElements(next.offset, size)
    ensures Tiles(requests + [next], limit, size)
    ensures Carried(requests + [next]) == Carried(requests) + next.data
  {
    var longer := requests + [next];
    assert longer[..|requests|] == requests;
    forall i | 0 <= i < |longer|
      ensures longer[i].Chunk? && 0 < |longer[i].data| <= limit && longer[i].offset == |Carried(longer[..i])| && WholeElements(longer[i].offset, size)
    {
      assert longer[..i] == requests[..i];
    }
  }

  /** With room for the 12-byte header and one element, a chunk is the most whole elements its request can carry; with less, it is one element. */
  lemma ChunksFit(usable: nat, size: nat)
    requires size in {1, 2, 4, 8}
    ensures ChunkBytes(usable, size) % size == 0
    ensures usable >= 12 + size ==> ChunkBytes(usable, size) + 12 <= usable < ChunkBytes(usable, size) + size + 12
    ensures usable < 12 + size ==> ChunkBytes(usable, size) == size
  {
  }

  // ----- a device that stores chunks by offset -----

  function Store(mem: Bytes, offset: nat, data: Bytes): Bytes {
    if offset + |data| <= |mem| then mem[..offset] + data + mem[offset + |data|..] else mem
  }

  function StoreAll(mem: Bytes, requests: seq<WriteRequest>): Bytes {
    if requests == [] then mem
    else
      var before, last := StoreAll(mem, requests[..|requests| - 1]), requests[|requests| - 1];
      if last.Chunk? then Store(before, last.offset, last.data) else Store(before, 0, last.data)
  }

  /** Tiles stored by offset lay down exactly the bytes they carry, over whatever was there. */
  lemma {:induction false} StoredTiles(mem: Bytes, requests: seq<WriteRequest>, limit: nat, size: nat)
    requires size > 0 && Tiles(requests, limit, size) && |Carried(requests)| <= |mem|
    ensures StoreAll(mem, requests) == Carried(requests) + mem[|Carried(requests)|..]
    decreases requests
  {
    if requests != [] {
      var before, last := requests[..|requests| - 1], requests[|requests| - 1];
      PrefixTiles(requests, limit, size);
      StoredTiles(mem, before, limit, size);
      StoreNext(mem, Carried(before), last.data);
    }
  }

  lemma ExtendFull(requests: seq<WriteRequest>, next: WriteRequest, bytes: Bytes, limit: nat)
    requires Full(requests, bytes, limit)
    requires next.Chunk? && next.offset <= |bytes| && |next.data| == Min(limit, |bytes| - next.offset)
    ensures Full(requests + [next], bytes, limit)
  {
  }

  lemma ExtendLabelled(requests: seq<WriteRequest>, next: WriteRequest, code: u16, count: u16)
    requires Labelled(requests, code, count) && next.code == code && next.count == count
    ensures Labelled(requests + [next], code, count)
  {
  }

  lemma PrefixTiles(requests: seq<WriteRequest>, limit: nat, size: nat)
    requires size > 0 && Tiles(requests, limit, size) && requests != []
    ensures Tiles(requests[..|requests| - 1], limit, size)
  {
    var before := requests[..|requests| - 1];
    forall i | 0 <= i < |before|
      ensures before[i].Chunk? && 0 < |before[i].data| <= limit && before[i].offset == |Carried(before[..i])| && WholeElements(before[i].offset, size)
    {
      assert before[..i] == requests[..i];
      assert before[i] == requests[i];
    }
  }

  lemma StoreNext(mem: Bytes, done: Bytes, data: Bytes)
    requires |done| + |data| <= |mem|
    ensures Store(done + mem[|done|..], |done|, data) == done + data + mem[|done + data|..]
  {
  }

  /** Written in chunks and read back in any other chunks, a canonical value is the same value. */
  lemma WriteThenRead(value: Value, mem: Bytes, requests: seq<WriteRequest>, limit: nat, cut: nat -> nat, cap: nat)
    requires Canonical(value)
    requires EncodeValue(value) == Ok(Carried(requests)) && Tiles(requests, limit, value.WireType().Size().value)
    requires |mem| == |Carried(requests)| <= Min(cap, U32_MAX)
    ensures var transfer := ReadFrom(Device(StoreAll(mem, requests), Header(value.WireType().Code(), None), cut), 0, [], None, cap);
            transfer.Ok? && BuildValue(transfer.value) == Ok(value)
  {
    CanonicalRoundTrip(value);
    var bytes := EncodeValue(value).value;
    var typ := value.WireType();
    StoredTiles(mem, requests, limit, typ.Size().value);
    assert StoreAll(mem, requests) == bytes;
    CodeRoundTrip(typ);
    ReadIsLossless(bytes, Header(typ.Code(), None), cut, cap);
  }

  lemma CodeRoundTrip(typ: CipType)
    requires typ.Size().Some?
    ensures CipType.FromCode(typ.Code()) == typ
  {
  }
}
