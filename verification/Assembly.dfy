/** Typed fields over raw assembly bytes (assembly.rs). */
module Assembly {
  import opened Prelude
  import opened Wire
  import opened Cip

  datatype Field = Field(key: nat, offset: nat, typ: CipType, bit: Option<nat>, count: nat)

  datatype Error =
    | FieldOutOfBounds(key: nat)
    | ZeroCount(key: nat)
    | InvalidBitField(key: nat)
    | NonElementaryType(key: nat)
    | DataSizeMismatch(expected: nat, actual: nat)
    | UnknownField(key: nat)
    | ValueTypeMismatch(key: nat)

  datatype Layout = Layout(fields: seq<Field>, dataSize: nat)

  // ----- construction -----

  /** The checks `new` makes on one field, in its order. */
  function CheckField(f: Field, dataSize: nat): Option<Error> {
    if f.count == 0 then Some(ZeroCount(f.key))
    else if f.typ.Size().None? then Some(NonElementaryType(f.key))
    else if f.bit.Some? && (!f.typ.Bool? || f.bit.value > 7 || f.count != 1) then Some(InvalidBitField(f.key))
    else if f.offset + f.typ.Size().value * f.count > dataSize then Some(FieldOutOfBounds(f.key))
    else None
  }

  function Span(f: Field): nat
    requires f.typ.Size().Some?
  {
    f.typ.Size().value * f.count
  }

  /** First bit of the field, and one past its last, numbering bit b of byte i as 8*i + b. */
  function BitLo(f: Field): nat {
    8 * f.offset + f.bit.UnwrapOr(0)
  }

  function BitHi(f: Field): nat
    requires f.typ.Size().Some?
  {
    if f.bit.Some? then BitLo(f) + 1 else 8 * (f.offset + Span(f))
  }

  /** A field whose bits lie inside the assembly. */
  predicate Fits(f: Field, dataSize: nat) {
    && f.typ.Size().Some?
    && f.count > 0
    && (f.bit.Some? ==> f.typ.Bool? && f.bit.value < 8 && f.count == 1)
    && BitHi(f) <= 8 * dataSize
  }

  lemma CheckFieldIffFits(f: Field, dataSize: nat)
    ensures CheckField(f, dataSize).None? <==> Fits(f, dataSize)
  {
  }

  /** Which fault a field is refused for: the first that applies, in this order. */
  lemma FieldFaults(f: Field, dataSize: nat)
    ensures CheckField(f, dataSize) == Some(ZeroCount(f.key)) <==> f.count == 0
    ensures CheckField(f, dataSize) == Some(NonElementaryType(f.key)) <==> f.count > 0 && f.typ.Size().None?
    ensures CheckField(f, dataSize) == Some(InvalidBitField(f.key)) <==>
              f.count > 0 && f.typ.Size().Some? && f.bit.Some? && !(f.typ == Bool && f.bit.value < 8 && f.count == 1)
    ensures CheckField(f, dataSize) == Some(FieldOutOfBounds(f.key)) <==>
              && f.count > 0 && f.typ.Size().Some?
              && (f.bit.Some? ==> f.typ == Bool && f.bit.value < 8 && f.count == 1)
              && 8 * dataSize < BitHi(f)
    ensures CheckField(f, dataSize).None? <==> Fits(f, dataSize)
  {
  }

  predicate ValidLayout(l: Layout) {
    forall i :: 0 <= i < |l.fields| ==> Fits(l.fields[i], l.dataSize)
  }

  predicate DistinctKeys(l: Layout) {
    forall i, j :: 0 <= i < j < |l.fields| ==> l.fields[i].key != l.fields[j].key
  }

  /** Accepts exactly the layouts whose fields all fit; otherwise names the first field that does not. */
  method NewLayout(fields: seq<Field>, dataSize: nat) returns (r: Result<Layout, Error>)
    ensures r.Ok? <==> ValidLayout(Layout(fields, dataSize))
    ensures r.Ok? ==> r.value == Layout(fields, dataSize)
    ensures r.Err? ==> exists i :: 0 <= i < |fields| && CheckField(fields[i], dataSize) == Some(r.error)
                                   && forall j :: 0 <= j < i ==> Fits(fields[j], dataSize)
  {
    var i := 0;
    while i < |fields|
      invariant 0 <= i <= |fields|
      invariant forall j :: 0 <= j < i ==> Fits(fields[j], dataSize)
    {
      var f := fields[i];
      if f.count == 0 {
        return Err(ZeroCount(f.key));
      }
      if f.typ.Size().None? {
        return Err(NonElementaryType(f.key));
      }
      if f.bit.Some? {
        if !f.typ.Bool? || f.bit.value > 7 || f.count != 1 {
          return Err(InvalidBitField(f.key));
        }
      }
      var end := f.offset + f.typ.Size().value * f.count;
      if end > dataSize {
        return Err(FieldOutOfBounds(f.key));
      }
      CheckFieldIffFits(f, dataSize);
      i := i + 1;
    }
    r := Ok(Layout(fields, dataSize));
  }

  // ----- bits -----

  /** Bit `k` of a byte. */
  predicate BitOf(b: nat, k: nat) {
    if k == 0 then b % 2 == 1 else BitOf(b / 2, k - 1)
  }

  /** `b | 1 << k` or `b & !(1 << k)`. */
  function WithBit(b: nat, k: nat, on: bool): nat {
    if k == 0 then b / 2 * 2 + (if on then 1 else 0) else 2 * WithBit(b / 2, k - 1, on) + b % 2
  }

  lemma {:induction false} BitIsDigit(b: nat, k: nat)
    ensures BitOf(b, k) <==> b / PowerOfTwo(k) % 2 == 1
    decreases k
  {
    if k > 0 {
      BitIsDigit(b / 2, k - 1);
      HalveThenDivide(b, PowerOfTwo(k - 1));
    }
  }

  lemma HalveThenDivide(b: nat, p: nat)
    requires p > 0
    ensures b / 2 / p == b / (2 * p)
  {
    DivisionBounds(b, 2);
    DivisionBounds(b / 2, p);
    var q := b / 2 / p;
    assert (2 * p) * q == 2 * (p * q);
    QuotientIs(b, 2 * p, q);
  }

  lemma {:induction false} WithBitBound(b: nat, k: nat, on: bool, width: nat)
    requires k < width && b < PowerOfTwo(width)
    ensures WithBit(b, k, on) < PowerOfTwo(width)
  {
    if k > 0 {
      WithBitBound(b / 2, k - 1, on, width - 1);
    }
  }

  lemma {:induction false} WithBitBits(b: nat, k: nat, on: bool, j: nat)
    ensures BitOf(WithBit(b, k, on), j) == if j == k then on else BitOf(b, j)
  {
    if k > 0 && j > 0 {
      WithBitBits(b / 2, k - 1, on, j - 1);
      assert WithBit(b, k, on) / 2 == WithBit(b / 2, k - 1, on);
    }
  }

  lemma {:induction false} SameBitsSameNumber(a: nat, b: nat, width: nat)
    requires a < PowerOfTwo(width) && b < PowerOfTwo(width)
    requires forall k :: 0 <= k < width ==> BitOf(a, k) == BitOf(b, k)
    ensures a == b
  {
    if width > 0 {
      assert BitOf(a, 0) == BitOf(b, 0);
      forall k | 0 <= k < width - 1 ensures BitOf(a / 2, k) == BitOf(b / 2, k) {
        assert BitOf(a, k + 1) == BitOf(b, k + 1);
      }
      SameBitsSameNumber(a / 2, b / 2, width - 1);
    }
  }

  lemma EightBits()
    ensures PowerOfTwo(8) == 256
  {
    assert PowerOfTwo(4) == 16;
    assert PowerOfTwo(6) == 64;
  }

  function SetBit(b: byte, k: nat, on: bool): byte
    requires k < 8
  {
    EightBits();
    WithBitBound(b, k, on, 8);
    WithBit(b, k, on)
  }

  /** Bit `i` of a buffer. */
  predicate Bit(buf: Bytes, i: nat)
    requires i < 8 * |buf|
  {
    BitOf(buf[i / 8], i % 8)
  }

  predicate SameBit(a: Bytes, b: Bytes, i: nat)
    requires |a| == |b|
  {
    i < 8 * |a| ==> Bit(a, i) == Bit(b, i)
  }

  lemma SameBitsSameByte(a: Bytes, b: Bytes, k: nat)
    requires |a| == |b| && k < |a|
    requires forall i :: 8 * k <= i < 8 * k + 8 ==> SameBit(a, b, i)
    ensures a[k] == b[k]
  {
    EightBits();
    forall j | 0 <= j < 8 ensures BitOf(a[k], j) == BitOf(b[k], j) {
      assert SameBit(a, b, 8 * k + j);
    }
    SameBitsSameNumber(a[k], b[k], 8);
  }

  // ----- extraction -----

  function Extract(f: Field, data: Bytes): Result<Value, Error> {
    if f.offset > |data| then Err(FieldOutOfBounds(f.key))
    else if f.bit.Some? then
      if f.offset < |data| then Ok(Scalar(Bool, if BitOf(data[f.offset], f.bit.value) then 1 else 0))
      else Err(FieldOutOfBounds(f.key))
    else if f.typ.Size().None? then Err(NonElementaryType(f.key))
    else if f.offset + Span(f) > |data| then Err(FieldOutOfBounds(f.key))
    else match DecodeValue(f.typ, data[f.offset..f.offset + Span(f)])
      case Ok(v) => Ok(v)
      case Err(_) => Err(FieldOutOfBounds(f.key))
  }

  lemma ExtractSucceeds(f: Field, data: Bytes)
    requires Fits(f, |data|)
    ensures Extract(f, data).Ok? && Canonical(Extract(f, data).value)
    ensures Extract(f, data).value.WireType() == f.typ && Extract(f, data).value.ElementCount() == f.count
  {
    if f.bit.None? {
      var size := f.typ.Size().value;
      var bytes := data[f.offset..f.offset + Span(f)];
      SpanDivides(size, f.count);
      var v := DecodeValue(f.typ, bytes).value;
      SameMultiple(size, v.ElementCount(), f.count);
    }
  }

  lemma SpanDivides(size: nat, count: nat)
    requires size in {1, 2, 4, 8}
    ensures (size * count) % size == 0
    ensures count > 0 ==> size * count > 0
  {
  }

  lemma SameMultiple(size: nat, a: nat, b: nat)
    requires size in {1, 2, 4, 8} && a * size == size * b
    ensures a == b
  {
  }

  /** What a field reads depends on its own bits only. */
  lemma ExtractReadsOwnBits(f: Field, a: Bytes, b: Bytes)
    requires |a| == |b| && Fits(f, |a|)
    requires forall i :: BitLo(f) <= i < BitHi(f) ==> SameBit(a, b, i)
    ensures Extract(f, a) == Extract(f, b)
  {
    if f.bit.Some? {
      assert SameBit(a, b, BitLo(f));
    } else {
      forall k | f.offset <= k < f.offset + Span(f) ensures a[k] == b[k] {
        SameBitsSameByte(a, b, k);
      }
      assert a[f.offset..f.offset + Span(f)] == b[f.offset..f.offset + Span(f)];
    }
  }

  method DecodeFields(l: Layout, data: Bytes) returns (r: Result<seq<(nat, Value)>, Error>)
    requires ValidLayout(l)
    ensures r == if |data| == l.dataSize then Ok(Decoded(l, data)) else Err(DataSizeMismatch(l.dataSize, |data|))
  {
    if |data| != l.dataSize {
      return Err(DataSizeMismatch(l.dataSize, |data|));
    }
    var out: seq<(nat, Value)> := [];
    var i := 0;
    while i < |l.fields|
      invariant 0 <= i <= |l.fields| && |out| == i
      invariant forall j :: 0 <= j < i ==> Extract(l.fields[j], data) == Ok(out[j].1) && out[j].0 == l.fields[j].key
    {
      ExtractSucceeds(l.fields[i], data);
      var v := Extract(l.fields[i], data);
      out := out + [(l.fields[i].key, v.value)];
      i := i + 1;
    }
    r := Ok(out);
    assert out == Decoded(l, data);
  }

  /** Every field's value in declaration order: an accepted layout never fails on a buffer of its size. */
  function Decoded(l: Layout, data: Bytes): (out: seq<(nat, Value)>)
    requires ValidLayout(l) && |data| == l.dataSize
    ensures |out| == |l.fields|
    ensures forall j :: 0 <= j < |out| ==> out[j].0 == l.fields[j].key && Extract(l.fields[j], data) == Ok(out[j].1)
  {
    seq(|l.fields|, j requires 0 <= j < |l.fields| =>
      ExtractSucceeds(l.fields[j], data);
      (l.fields[j].key, Extract(l.fields[j], data).value))
  }

  // ----- insertion -----

  function Insert(f: Field, v: Value, buf: Bytes): (r: Result<Bytes, Error>)
    requires f.bit.Some? ==> f.bit.value < 8
    ensures r.Ok? ==> |r.value| == |buf|
  {
    if f.bit.Some? then
      if !(v.Scalar? && v.typ.Bool?) then Err(ValueTypeMismatch(f.key))
      else if f.offset >= |buf| then Err(FieldOutOfBounds(f.key))
      else Ok(buf[f.offset := SetBit(buf[f.offset], f.bit.value, v.n != 0)])
    else if v.WireType() != f.typ || v.ElementCount() != f.count then Err(ValueTypeMismatch(f.key))
    else match EncodeValue(v)
      case Err(_) => Err(ValueTypeMismatch(f.key))
      case Ok(bytes) =>
        if f.offset + |bytes| > |buf| then Err(FieldOutOfBounds(f.key))
        else Ok(buf[..f.offset] + bytes + buf[f.offset + |bytes|..])
  }

  /** A canonical value is accepted exactly when it has the field's type and count, and refused as a mismatch otherwise. */
  lemma InsertAccepts(f: Field, v: Value, buf: Bytes)
    requires Fits(f, |buf|) && Canonical(v)
    ensures Insert(f, v, buf).Ok? <==> v.WireType() == f.typ && v.ElementCount() == f.count
    ensures Insert(f, v, buf).Err? ==> Insert(f, v, buf).error == ValueTypeMismatch(f.key)
  {
    CanonicalRoundTrip(v);
  }

  /** Any value at all: past the type and count checks it is refused only when it does not encode, or when its bytes run past the buffer. */
  lemma InsertRefuses(f: Field, v: Value, buf: Bytes)
    requires Fits(f, |buf|) && Insert(f, v, buf).Err?
    ensures var e := Insert(f, v, buf).error;
            if f.bit.None? && v.WireType() == f.typ && v.ElementCount() == f.count && EncodeValue(v).Ok?
            then e == FieldOutOfBounds(f.key) && f.offset + |EncodeValue(v).value| > |buf|
            else e == ValueTypeMismatch(f.key)
    ensures f.bit.Some? ==> !exists n :: v == Scalar(Bool, n)
  {
  }

  /** The value's bytes are no more than the field spans. */
  predicate StaysInside(f: Field, v: Value) {
    f.bit.None? ==> f.typ.Size().Some? && EncodeValue(v).Ok? && |EncodeValue(v).value| <= Span(f)
  }

  lemma CanonicalStaysInside(f: Field, v: Value, buf: Bytes)
    requires Fits(f, |buf|) && Insert(f, v, buf).Ok? && Canonical(v)
    ensures StaysInside(f, v)
  {
    CanonicalRoundTrip(v);
  }

  /** Insertion touches no bit outside the field. */
  lemma InsertKeepsOtherBits(f: Field, v: Value, buf: Bytes, i: nat)
    requires Fits(f, |buf|) && Insert(f, v, buf).Ok? && StaysInside(f, v)
    requires i < BitLo(f) || BitHi(f) <= i
    ensures SameBit(Insert(f, v, buf).value, buf, i)
  {
    if f.bit.Some? && i < 8 * |buf| && i / 8 == f.offset {
      WithBitBits(buf[f.offset], f.bit.value, v.n != 0, i % 8);
    }
  }

  /** Whether insertion succeeds depends on the buffer's length alone. */
  lemma InsertNeedsOnlyRoom(f: Field, v: Value, a: Bytes, b: Bytes)
    requires (f.bit.Some? ==> f.bit.value < 8) && |a| == |b|
    ensures Insert(f, v, a).Ok? <==> Insert(f, v, b).Ok?
  {
  }

  ghost predicate KeepsOutside(f: Field, v: Value, buf: Bytes)
    requires Fits(f, |buf|) && Insert(f, v, buf).Ok?
  {
    forall i :: 0 <= i && (i < BitLo(f) || BitHi(f) <= i) ==> SameBit(Insert(f, v, buf).value, buf, i)
  }

  /** A buffer of the same length whose byte at `k` is not `b`. */
  function Differing(buf: Bytes, k: nat, b: byte): (d: Bytes)
    requires k < |buf|
    ensures |d| == |buf| && d[k] != b
  {
    buf[k := (b + 1) % 256]
  }

  /** A value longer than its field changes the byte right after it, unless that byte happens to be the same. */
  lemma LongerSpills(f: Field, v: Value, buf: Bytes)
    requires Fits(f, |buf|) && Insert(f, v, buf).Ok? && !StaysInside(f, v)
    ensures exists d: Bytes :: |d| == |buf| && Insert(f, v, d).Ok? && !KeepsOutside(f, v, d)
  {
    var bytes, past := EncodeValue(v).value, f.offset + Span(f);
    var d := Differing(buf, past, bytes[Span(f)]);
    InsertNeedsOnlyRoom(f, v, buf, d);
    var out := Insert(f, v, d).value;
    assert out[past] == bytes[Span(f)];
    if KeepsOutside(f, v, d) {
      forall i | 8 * past <= i < 8 * past + 8 ensures SameBit(out, d, i) {
      }
      SameBitsSameByte(out, d, past);
      assert false;
    }
  }

  /** An insertion that succeeds keeps every bit outside its field, whatever the buffer holds, if and only if the value is no longer than the field. */
  lemma InsertionConfinedIff(f: Field, v: Value, buf: Bytes)
    requires Fits(f, |buf|) && Insert(f, v, buf).Ok?
    ensures StaysInside(f, v) <==> forall d: Bytes :: |d| == |buf| && Insert(f, v, d).Ok? ==> KeepsOutside(f, v, d)
  {
    if StaysInside(f, v) {
      forall d: Bytes | |d| == |buf| && Insert(f, v, d).Ok? ensures KeepsOutside(f, v, d) {
        forall i | 0 <= i && (i < BitLo(f) || BitHi(f) <= i) ensures SameBit(Insert(f, v, d).value, d, i) {
          InsertKeepsOtherBits(f, v, d, i);
        }
      }
    } else {
      LongerSpills(f, v, buf);
    }
  }

  /** Reading a field right after writing it returns the value exactly when the value is canonical. */
  lemma InsertThenExtract(f: Field, v: Value, buf: Bytes)
    requires Fits(f, |buf|) && Insert(f, v, buf).Ok?
    ensures Extract(f, Insert(f, v, buf).value) == Ok(v) <==> Canonical(v)
  {
    var out := Insert(f, v, buf).value;
    ExtractSucceeds(f, out);
    if Canonical(v) {
      if f.bit.Some? {
        WithBitBits(buf[f.offset], f.bit.value, v.n != 0, f.bit.value);
      } else {
        CanonicalRoundTrip(v);
        var bytes := EncodeValue(v).value;
        assert out[f.offset..f.offset + |bytes|] == bytes;
      }
    }
  }

  // ----- encode_into -----

  /** The first field with the key. */
  function FindField(fields: seq<Field>, key: nat): (r: Option<Field>)
    ensures r.Some? ==> exists i :: 0 <= i < |fields| && fields[i] == r.value && r.value.key == key && forall j :: 0 <= j < i ==> fields[j].key != key
    ensures r.None? ==> forall f :: f in fields ==> f.key != key
  {
    if fields == [] then None
    else if fields[0].key == key then Some(fields[0])
    else FindField(fields[1..], key)
  }

  /** The buffer after writing the values in order, and the error that stopped the walk, if any. */
  function InsertAll(l: Layout, values: seq<(nat, Value)>, buf: Bytes): (r: (Bytes, Option<Error>))
    requires ValidLayout(l)
    ensures |r.0| == |buf|
    decreases values
  {
    if values == [] then (buf, None)
    else match FindField(l.fields, values[0].0)
      case None => (buf, Some(UnknownField(values[0].0)))
      case Some(f) =>
        match Insert(f, values[0].1, buf)
        case Err(e) => (buf, Some(e))
        case Ok(next) => InsertAll(l, values[1..], next)
  }

  /** Values up to one that fails are written and stay written; what comes after it is not. */
  lemma {:induction false} EncodeStopsAt(l: Layout, values: seq<(nat, Value)>, k: nat, buf: Bytes)
    requires ValidLayout(l) && k < |values| && InsertAll(l, values[..k], buf).1.None?
    ensures var before, field, out := InsertAll(l, values[..k], buf).0, FindField(l.fields, values[k].0), InsertAll(l, values, buf);
            && (field.None? ==> out == (before, Some(UnknownField(values[k].0))))
            && (field.Some? && Insert(field.value, values[k].1, before).Err? ==>
                  out == (before, Some(Insert(field.value, values[k].1, before).error)))
    decreases k
  {
    if k > 0 {
      assert values[..k][0] == values[0] && values[..k][1..] == values[1..][..k - 1];
      EncodeStopsAt(l, values[1..], k - 1, Insert(FindField(l.fields, values[0].0).value, values[0].1, buf).value);
    } else {
      assert values[..0] == [];
    }
  }

  method EncodeInto(l: Layout, values: seq<(nat, Value)>, buf: array<byte>) returns (r: Result<(), Error>)
    requires ValidLayout(l)
    modifies buf
    ensures buf.Length != l.dataSize ==> r == Err(DataSizeMismatch(l.dataSize, buf.Length)) && buf[..] == old(buf[..])
    ensures buf.Length == l.dataSize ==>
              var spec := InsertAll(l, values, old(buf[..]));
              buf[..] == spec.0 && r == if spec.1.None? then Ok(()) else Err(spec.1.value)
  {
    if buf.Length != l.dataSize {
      return Err(DataSizeMismatch(l.dataSize, buf.Length));
    }
    var i := 0;
    while i < |values|
      invariant 0 <= i <= |values|
      invariant InsertAll(l, values, old(buf[..])) == InsertAll(l, values[i..], buf[..])
    {
      assert values[i..][1..] == values[i + 1..];
      var field := FindField(l.fields, values[i].0);
      if field.None? {
        return Err(UnknownField(values[i].0));
      }
      var e := InsertField(field.value, values[i].1, buf);
      if e.Some? {
        return Err(e.value);
      }
      i := i + 1;
    }
    r := Ok(());
  }

  method InsertField(f: Field, v: Value, buf: array<byte>) returns (e: Option<Error>)
    requires f.bit.Some? ==> f.bit.value < 8
    modifies buf
    ensures match Insert(f, v, old(buf[..]))
            case Ok(next) => e == None && buf[..] == next
            case Err(err) => e == Some(err) && buf[..] == old(buf[..])
  {
    if f.bit.Some? {
      if !(v.Scalar? && v.typ.Bool?) {
        return Some(ValueTypeMismatch(f.key));
      }
      if f.offset >= buf.Length {
        return Some(FieldOutOfBounds(f.key));
      }
      buf[f.offset] := SetBit(buf[f.offset], f.bit.value, v.n != 0);
      return None;
    }
    if v.WireType() != f.typ {
      return Some(ValueTypeMismatch(f.key));
    }
    if v.ElementCount() != f.count {
      return Some(ValueTypeMismatch(f.key));
    }
    var bytes := EncodeValue(v);
    if bytes.Err? {
      return Some(ValueTypeMismatch(f.key));
    }
    var src := bytes.value;
    if f.offset + |src| > buf.Length {
      return Some(FieldOutOfBounds(f.key));
    }
    ghost var was := buf[..];
    forall k | 0 <= k < |src| {
      buf[f.offset + k] := src[k];
    }
    assert buf[..] == was[..f.offset] + src + was[f.offset + |src|..];
    e := None;
  }

  // ----- writing disjoint fields and reading them back -----

  /** The field each value is written to. */
  predicate Resolved(l: Layout, values: seq<(nat, Value)>, fields: seq<Field>) {
    && |fields| == |values|
    && forall i :: 0 <= i < |values| ==> FindField(l.fields, values[i].0) == Some(fields[i])
  }

  predicate Disjoint(f: Field, g: Field)
    requires f.typ.Size().Some? && g.typ.Size().Some?
  {
    BitHi(f) <= BitLo(g) || BitHi(g) <= BitLo(f)
  }

  predicate PairwiseDisjoint(fields: seq<Field>)
    requires forall i :: 0 <= i < |fields| ==> fields[i].typ.Size().Some?
  {
    forall i, j :: 0 <= i < j < |fields| ==> Disjoint(fields[i], fields[j])
  }

  lemma ResolvedFits(l: Layout, values: seq<(nat, Value)>, fields: seq<Field>)
    requires ValidLayout(l) && Resolved(l, values, fields)
    ensures forall i :: 0 <= i < |fields| ==> Fits(fields[i], l.dataSize)
  {
  }

  /** Every value is no longer than the field it is written to. */
  predicate AllInside(values: seq<(nat, Value)>, fields: seq<Field>)
    requires |values| == |fields|
  {
    forall k :: 0 <= k < |values| ==> StaysInside(fields[k], values[k].1)
  }

  /** Bits no written field covers keep their value. */
  lemma {:induction false} UnwrittenBitsKept(l: Layout, values: seq<(nat, Value)>, fields: seq<Field>, buf: Bytes, i: nat)
    requires ValidLayout(l) && |buf| == l.dataSize && Resolved(l, values, fields)
    requires InsertAll(l, values, buf).1.None? && AllInside(values, fields)
    requires forall k :: 0 <= k < |fields| ==> i < BitLo(fields[k]) || BitHi(fields[k]) <= i
    ensures SameBit(InsertAll(l, values, buf).0, buf, i)
    decreases values
  {
    ResolvedFits(l, values, fields);
    if values != [] {
      var next := Insert(fields[0], values[0].1, buf).value;
      InsertKeepsOtherBits(fields[0], values[0].1, buf, i);
      UnwrittenBitsKept(l, values[1..], fields[1..], next, i);
    }
  }

  /** A field disjoint from everything written reads as before. */
  lemma UnwrittenFieldKept(l: Layout, values: seq<(nat, Value)>, fields: seq<Field>, buf: Bytes, f: Field)
    requires ValidLayout(l) && |buf| == l.dataSize && Resolved(l, values, fields)
    requires InsertAll(l, values, buf).1.None? && AllInside(values, fields)
    requires Fits(f, l.dataSize)
    requires forall k :: 0 <= k < |fields| ==> Disjoint(f, fields[k])
    ensures Extract(f, InsertAll(l, values, buf).0) == Extract(f, buf)
  {
    var out := InsertAll(l, values, buf).0;
    forall i | BitLo(f) <= i < BitHi(f) ensures SameBit(out, buf, i) {
      UnwrittenBitsKept(l, values, fields, buf, i);
    }
    ExtractReadsOwnBits(f, out, buf);
  }

  /** Of values written inside disjoint fields, exactly the canonical ones are read back. */
  lemma {:induction false} WrittenFieldsRead(l: Layout, values: seq<(nat, Value)>, fields: seq<Field>, buf: Bytes, i: nat)
    requires ValidLayout(l) && |buf| == l.dataSize && Resolved(l, values, fields)
    requires InsertAll(l, values, buf).1.None? && AllInside(values, fields)
    requires PairwiseDisjoint(fields)
    requires i < |values|
    ensures Extract(fields[i], InsertAll(l, values, buf).0) == Ok(values[i].1) <==> Canonical(values[i].1)
    decreases values
  {
    ResolvedFits(l, values, fields);
    var next := Insert(fields[0], values[0].1, buf).value;
    if i == 0 {
      InsertThenExtract(fields[0], values[0].1, buf);
      UnwrittenFieldKept(l, values[1..], fields[1..], next, fields[0]);
    } else {
      WrittenFieldsRead(l, values[1..], fields[1..], next, i - 1);
    }
  }

  /** After a successful write inside disjoint fields, decoding returns a written value at its key if and only if the value is canonical, whatever the others are. */
  lemma EncodeThenDecode(l: Layout, values: seq<(nat, Value)>, fields: seq<Field>, buf: Bytes, i: nat)
    requires ValidLayout(l) && DistinctKeys(l) && |buf| == l.dataSize && Resolved(l, values, fields)
    requires InsertAll(l, values, buf).1.None? && AllInside(values, fields)
    requires PairwiseDisjoint(fields)
    requires i < |values|
    ensures exists j :: 0 <= j < |l.fields| && l.fields[j].key == values[i].0
    ensures forall j :: 0 <= j < |l.fields| && l.fields[j].key == values[i].0 ==>
              (Decoded(l, InsertAll(l, values, buf).0)[j] == values[i] <==> Canonical(values[i].1))
  {
    WrittenFieldsRead(l, values, fields, buf, i);
    DecodedAtKey(l, InsertAll(l, values, buf).0, fields[i], values[i]);
  }

  lemma {:induction false} AllCanonicalInside(l: Layout, values: seq<(nat, Value)>, fields: seq<Field>, buf: Bytes)
    requires ValidLayout(l) && |buf| == l.dataSize && Resolved(l, values, fields)
    requires InsertAll(l, values, buf).1.None?
    requires forall k :: 0 <= k < |values| ==> Canonical(values[k].1)
    ensures AllInside(values, fields)
    decreases values
  {
    ResolvedFits(l, values, fields);
    if values != [] {
      CanonicalStaysInside(fields[0], values[0].1, buf);
      AllCanonicalInside(l, values[1..], fields[1..], Insert(fields[0], values[0].1, buf).value);
      forall k | 0 <= k < |values| ensures StaysInside(fields[k], values[k].1) {
        if k > 0 {
          assert StaysInside(fields[1..][k - 1], values[1..][k - 1].1);
        }
      }
    }
  }

  /** Canonical values written to disjoint fields all decode at their keys. */
  lemma CanonicalValuesDecode(l: Layout, values: seq<(nat, Value)>, fields: seq<Field>, buf: Bytes)
    requires ValidLayout(l) && DistinctKeys(l) && |buf| == l.dataSize && Resolved(l, values, fields)
    requires InsertAll(l, values, buf).1.None?
    requires PairwiseDisjoint(fields)
    requires forall k :: 0 <= k < |values| ==> Canonical(values[k].1)
    ensures forall i, j :: 0 <= i < |values| && 0 <= j < |l.fields| && l.fields[j].key == values[i].0 ==>
              Decoded(l, InsertAll(l, values, buf).0)[j] == values[i]
  {
    AllCanonicalInside(l, values, fields, buf);
    forall i | 0 <= i < |values|
      ensures forall j :: 0 <= j < |l.fields| && l.fields[j].key == values[i].0 ==> Decoded(l, InsertAll(l, values, buf).0)[j] == values[i]
    {
      EncodeThenDecode(l, values, fields, buf, i);
    }
  }

  lemma DecodedAtKey(l: Layout, out: Bytes, f: Field, value: (nat, Value))
    requires ValidLayout(l) && DistinctKeys(l) && |out| == l.dataSize
    requires FindField(l.fields, value.0) == Some(f)
    ensures exists j :: 0 <= j < |l.fields| && l.fields[j].key == value.0
    ensures forall j :: 0 <= j < |l.fields| && l.fields[j].key == value.0 ==>
              (Decoded(l, out)[j] == value <==> Extract(f, out) == Ok(value.1))
  {
    var j :| 0 <= j < |l.fields| && l.fields[j] == f;
    forall k | 0 <= k < |l.fields| && l.fields[k].key == value.0 ensures k == j {
    }
  }

  /** A value that is not canonical never reads back, whatever else is written. */
  lemma NonCanonicalLost(l: Layout, f: Field, data: Bytes, v: Value)
    requires Fits(f, |data|) && !Canonical(v)
    ensures Extract(f, data) != Ok(v)
  {
    ExtractSucceeds(f, data);
  }

  /** A nested array passes every check of `insert_field` and still writes past its field. */
  lemma NestedArraySpills()
    ensures var f := Field(0, 0, Usint, None, 1);
            var v := Array(Usint, [Array(Usint, [Scalar(Usint, 1), Scalar(Usint, 2)])]);
            var buf: Bytes := [0, 0];
            Fits(f, 2) && Insert(f, v, buf) == Ok([1, 2])
  {
    var one, two := Scalar(Usint, 1), Scalar(Usint, 2);
    var inner := Array(Usint, [one, two]);
    assert Pow256(1) == 256;
    assert Le(1, 1) == [1] + Le(0, 0) == [1] && Le(2, 1) == [2] + Le(0, 0) == [2];
    assert EncodeValue(one) == Ok([1]) && EncodeValue(two) == Ok([2]);
    assert [one, two][1..] == [two] && [two][1..] == [] && [inner][1..] == [];
    var b1: Bytes, b2: Bytes, b12: Bytes, buf: Bytes := [1], [2], [1, 2], [0, 0];
    assert b2 + [] == b2 && b1 + b2 == b12 && b12 + [] == b12;
    assert EncodeElems([two]) == Ok(b2);
    assert EncodeElems([one, two]) == Ok(b12);
    assert EncodeElems([inner]) == Ok(b12);
    assert EncodeValue(Array(Usint, [inner])) == Ok(b12);
    assert buf[..0] + b12 + buf[2..] == b12;
  }
}
