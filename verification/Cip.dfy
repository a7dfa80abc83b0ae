/** CIP elementary types and values (cip/types.rs): fixed-width little-endian integers; REAL and LREAL are raw bits. */
module Cip {
  import opened Prelude
  import opened Wire

  datatype CipType =
    | Bool | Sint | Int | Dint | Lint
    | Usint | Uint | Udint | Ulint
    | Real | Lreal
    | Byte | Word | Dword | Lword
    | String | Struct | Unknown(id: u16)
  {
    static function FromCode(code: u16): CipType {
      match code
      case 0xC1 => Bool case 0xC2 => Sint case 0xC3 => Int case 0xC4 => Dint case 0xC5 => Lint
      case 0xC6 => Usint case 0xC7 => Uint case 0xC8 => Udint case 0xC9 => Ulint
      case 0xCA => Real case 0xCB => Lreal
      case 0xD1 => Byte case 0xD2 => Word case 0xD3 => Dword case 0xD4 => Lword
      case 0xD0 => String case 0x02A0 => Struct
      case other => Unknown(other)
    }

    function Code(): u16 {
      match this
      case Bool => 0xC1 case Sint => 0xC2 case Int => 0xC3 case Dint => 0xC4 case Lint => 0xC5
      case Usint => 0xC6 case Uint => 0xC7 case Udint => 0xC8 case Ulint => 0xC9
      case Real => 0xCA case Lreal => 0xCB
      case Byte => 0xD1 case Word => 0xD2 case Dword => 0xD3 case Lword => 0xD4
      case String => 0xD0 case Struct => 0x02A0
      case Unknown(id) => id
    }

    /** Bytes of one element; `None` for the types the crate does not decode. */
    function Size(): (r: Option<nat>)
      ensures r.Some? ==> r.value in {1, 2, 4, 8}
    {
      match this
      case Bool | Sint | Usint | Byte => Some(1)
      case Int | Uint | Word => Some(2)
      case Dint | Udint | Real | Dword => Some(4)
      case Lint | Ulint | Lreal | Lword => Some(8)
      case String | Struct | Unknown(_) => None
    }

    predicate Signed() {
      Sint? || Int? || Dint? || Lint?
    }
  }

  /** The type codes of the elementary types, and how many bytes one element takes. */
  lemma TypeCodes()
    ensures Bool.Code() == 0xC1 && Sint.Code() == 0xC2 && Int.Code() == 0xC3 && Dint.Code() == 0xC4 && Lint.Code() == 0xC5
    ensures Usint.Code() == 0xC6 && Uint.Code() == 0xC7 && Udint.Code() == 0xC8 && Ulint.Code() == 0xC9
    ensures Real.Code() == 0xCA && Lreal.Code() == 0xCB
    ensures Byte.Code() == 0xD1 && Word.Code() == 0xD2 && Dword.Code() == 0xD3 && Lword.Code() == 0xD4
    ensures String.Code() == 0xD0 && Struct.Code() == 0x02A0
    ensures forall code: u16 :: CipType.FromCode(code).Code() == code
    ensures Bool.Size() == Sint.Size() == Usint.Size() == Byte.Size() == Some(1)
    ensures Int.Size() == Uint.Size() == Word.Size() == Some(2)
    ensures Dint.Size() == Udint.Size() == Real.Size() == Dword.Size() == Some(4)
    ensures Lint.Size() == Ulint.Size() == Lreal.Size() == Lword.Size() == Some(8)
    ensures String.Size() == Struct.Size() == None && forall id :: CipType.Unknown(id).Size() == None
  {
  }

  datatype Value =
    | Scalar(typ: CipType, n: int)
    | Array(elemType: CipType, elems: seq<Value>)
    | Opaque(handle: u16, structLen: nat)
    | Unsupported(typeCode: u16, valueLen: nat)
  {
    function WireType(): CipType {
      match this
      case Scalar(t, _) => t
      case Array(t, _) => t
      case Opaque(_, _) => Struct
      case Unsupported(c, _) => CipType.FromCode(c)
    }

    function ElementCount(): nat {
      if Array? then |elems| else 1
    }
  }

  /** The integers a scalar variant can hold. */
  predicate InRange(t: CipType, n: int) {
    match t.Size()
    case None => false
    case Some(size) =>
      if t.Bool? then n == 0 || n == 1
      else if t.Signed() then -(Pow256(size) / 2) <= n < Pow256(size) / 2
      else 0 <= n < Pow256(size)
  }

  predicate GoodScalar(v: Value, t: CipType) {
    v.Scalar? && v.typ == t && InRange(t, v.n)
  }

  /** A scalar, or an array of at least two scalars of its declared type: the values a decode can return. */
  predicate Canonical(v: Value) {
    match v
    case Scalar(t, _) => GoodScalar(v, t)
    case Array(t, elems) => |elems| >= 2 && t.Size().Some? && forall i :: 0 <= i < |elems| ==> GoodScalar(elems[i], t)
    case _ => false
  }

  /** What each elementary type can hold. */
  lemma Ranges(n: int)
    ensures InRange(Bool, n) <==> n == 0 || n == 1
    ensures InRange(Sint, n) <==> -0x80 <= n <= 0x7F
    ensures InRange(Int, n) <==> -0x8000 <= n <= 0x7FFF
    ensures InRange(Dint, n) <==> -0x8000_0000 <= n <= 0x7FFF_FFFF
    ensures InRange(Lint, n) <==> -0x8000_0000_0000_0000 <= n <= 0x7FFF_FFFF_FFFF_FFFF
    ensures InRange(Usint, n) <==> 0 <= n <= 0xFF
    ensures InRange(Byte, n) <==> 0 <= n <= 0xFF
    ensures InRange(Uint, n) <==> 0 <= n <= 0xFFFF
    ensures InRange(Word, n) <==> 0 <= n <= 0xFFFF
    ensures InRange(Udint, n) <==> 0 <= n <= 0xFFFF_FFFF
    ensures InRange(Real, n) <==> 0 <= n <= 0xFFFF_FFFF
    ensures InRange(Dword, n) <==> 0 <= n <= 0xFFFF_FFFF
    ensures InRange(Ulint, n) <==> 0 <= n <= 0xFFFF_FFFF_FFFF_FFFF
    ensures InRange(Lreal, n) <==> 0 <= n <= 0xFFFF_FFFF_FFFF_FFFF
    ensures InRange(Lword, n) <==> 0 <= n <= 0xFFFF_FFFF_FFFF_FFFF
  {
    SignedRanges(n);
    UnsignedRanges(n);
  }

  lemma SignedRanges(n: int)
    ensures InRange(Bool, n) <==> n == 0 || n == 1
    ensures InRange(Sint, n) <==> -0x80 <= n <= 0x7F
    ensures InRange(Int, n) <==> -0x8000 <= n <= 0x7FFF
    ensures InRange(Dint, n) <==> -0x8000_0000 <= n <= 0x7FFF_FFFF
    ensures InRange(Lint, n) <==> -0x8000_0000_0000_0000 <= n <= 0x7FFF_FFFF_FFFF_FFFF
  {
    Widths();
  }

  lemma UnsignedRanges(n: int)
    ensures InRange(Usint, n) <==> 0 <= n <= 0xFF
    ensures InRange(Byte, n) <==> 0 <= n <= 0xFF
    ensures InRange(Uint, n) <==> 0 <= n <= 0xFFFF
    ensures InRange(Word, n) <==> 0 <= n <= 0xFFFF
    ensures InRange(Udint, n) <==> 0 <= n <= 0xFFFF_FFFF
    ensures InRange(Real, n) <==> 0 <= n <= 0xFFFF_FFFF
    ensures InRange(Dword, n) <==> 0 <= n <= 0xFFFF_FFFF
    ensures InRange(Ulint, n) <==> 0 <= n <= 0xFFFF_FFFF_FFFF_FFFF
    ensures InRange(Lreal, n) <==> 0 <= n <= 0xFFFF_FFFF_FFFF_FFFF
    ensures InRange(Lword, n) <==> 0 <= n <= 0xFFFF_FFFF_FFFF_FFFF
  {
    Widths();
  }

  // ----- encoding -----

  function ScalarBytes(t: CipType, n: int): (b: Bytes)
    requires t.Size().Some?
    ensures |b| == t.Size().value
  {
    if t.Bool? then [if n != 0 then 0xFF else 0x00]
    else Le(n % Pow256(t.Size().value), t.Size().value)
  }

  const UNENCODABLE := "cannot encode struct/unsupported value"
  const NOT_ELEMENTARY := "type has no fixed element size"
  const RAGGED := "value length not a multiple of element size"

  function EncodeValue(v: Value): Result<Bytes, WireError>
    decreases v
  {
    match v
    case Scalar(t, n) => if t.Size().Some? then Ok(ScalarBytes(t, n)) else Err(Malformed(UNENCODABLE))
    case Array(_, elems) => EncodeElems(elems)
    case _ => Err(Malformed(UNENCODABLE))
  }

  function EncodeElems(elems: seq<Value>): Result<Bytes, WireError>
    decreases elems
  {
    if elems == [] then Ok([])
    else
      var head :- EncodeValue(elems[0]);
      var tail :- EncodeElems(elems[1..]);
      Ok(head + tail)
  }

  /** A BOOL is 0xFF or 0x00; a number is its little-endian two's complement. */
  lemma ScalarsOnWire()
    ensures ScalarBytes(Bool, 1) == [0xFF] && ScalarBytes(Bool, 0) == [0x00]
    ensures ScalarBytes(Uint, 0x1234) == [0x34, 0x12]
    ensures ScalarBytes(Int, -2) == [0xFE, 0xFF]
    ensures ScalarBytes(Udint, 0x1122_3344) == [0x44, 0x33, 0x22, 0x11]
  {
    TwoByteScalars();
    FourByteScalar();
  }

  lemma TwoByteScalars()
    ensures ScalarBytes(Uint, 0x1234) == [0x34, 0x12]
    ensures ScalarBytes(Int, -2) == [0xFE, 0xFF]
  {
    Widths();
    LeTwo(0x1234);
    LeTwo(0xFFFE);
    assert -2 % 0x1_0000 == 0xFFFE;
  }

  lemma FourByteScalar()
    ensures ScalarBytes(Udint, 0x1122_3344) == [0x44, 0x33, 0x22, 0x11]
  {
    Widths();
    LeFour(0x1122_3344);
  }

  // ----- decoding -----

  function DecodeScalar(t: CipType, b: Bytes): (v: Value)
    requires t.Size() == Some(|b|)
    ensures GoodScalar(v, t)
  {
    var u := FromLe(b);
    if t.Bool? then Scalar(t, if u != 0 then 1 else 0)
    else if t.Signed() && u >= Pow256(|b|) / 2 then HalfIsWhole(|b|); Scalar(t, u - Pow256(|b|))
    else Scalar(t, u)
  }

  lemma HalfIsWhole(size: nat)
    requires size > 0
    ensures Pow256(size) / 2 * 2 == Pow256(size)
  {
  }

  function DecodeElems(t: CipType, b: Bytes): (r: seq<Value>)
    requires t.Size().Some? && |b| % t.Size().value == 0
    ensures |r| * t.Size().value == |b|
    ensures forall i :: 0 <= i < |r| ==> GoodScalar(r[i], t)
  {
    var size := t.Size().value;
    if b == [] then []
    else
      StepDown(|b|, size);
      var rest := DecodeElems(t, b[size..]);
      MultipleStep(|rest|, size);
      [DecodeScalar(t, b[..size])] + rest
  }

  lemma StepDown(n: nat, size: nat)
    requires size in {1, 2, 4, 8} && n > 0 && n % size == 0
    ensures n >= size && (n - size) % size == 0
  {
  }

  /** One element yields a scalar, more yield an array, none is an error. */
  function DecodeValue(t: CipType, b: Bytes): (r: Result<Value, WireError>)
    ensures r.Ok? <==> t.Size().Some? && b != [] && |b| % t.Size().value == 0
    ensures r.Ok? ==> Canonical(r.value) && r.value.WireType() == t && r.value.ElementCount() * t.Size().value == |b|
  {
    match t.Size()
    case None => Err(Malformed(NOT_ELEMENTARY))
    case Some(size) =>
      if |b| % size != 0 then Err(Malformed(RAGGED))
      else if b == [] then Err(Truncated(size, 0))
      else
        var elems := DecodeElems(t, b);
        if |elems| == 1 then Ok(elems[0]) else Ok(Array(t, elems))
  }

  // ----- round trip -----

  lemma ScalarRoundTrip(t: CipType, n: int)
    requires InRange(t, n)
    ensures DecodeScalar(t, ScalarBytes(t, n)) == Scalar(t, n)
  {
    var size := t.Size().value;
    if t.Bool? {
      BoolBytes();
    } else {
      var wrapped := n % Pow256(size);
      WrapsOnce(n, size);
      LeRoundTrip(wrapped, size);
      assert FromLe(ScalarBytes(t, n)) == wrapped;
    }
  }

  lemma BoolBytes()
    ensures FromLe([0xFF]) == 0xFF && FromLe([0x00]) == 0
  {
  }

  /** Two's complement: a negative number wraps to itself plus the modulus. */
  lemma WrapsOnce(n: int, size: nat)
    requires size in {1, 2, 4, 8} && -(Pow256(size) as int) <= n < Pow256(size)
    ensures n % Pow256(size) == if n < 0 then n + Pow256(size) else n
    ensures Pow256(size) / 2 * 2 == Pow256(size)
  {
    Widths();
    var p := Pow256(size);
    if size == 1 { assert p == 0x100; }
    else if size == 2 { assert p == 0x1_0000; }
    else if size == 4 { assert p == 0x1_0000_0000; }
    else { assert p == 0x1_0000_0000_0000_0000; }
  }

  lemma {:induction false} ElemsEncode(t: CipType, elems: seq<Value>)
    requires t.Size().Some?
    requires forall i :: 0 <= i < |elems| ==> GoodScalar(elems[i], t)
    ensures EncodeElems(elems).Ok?
    ensures |EncodeElems(elems).value| == |elems| * t.Size().value && |EncodeElems(elems).value| % t.Size().value == 0
  {
    if elems != [] {
      ElemsEncode(t, elems[1..]);
      assert EncodeValue(elems[0]) == Ok(ScalarBytes(t, elems[0].n));
      assert EncodeElems(elems).value == ScalarBytes(t, elems[0].n) + EncodeElems(elems[1..]).value;
      MultipleStep(|elems| - 1, t.Size().value);
    }
  }

  lemma {:induction false} ElemsRoundTrip(t: CipType, elems: seq<Value>)
    requires t.Size().Some?
    requires forall i :: 0 <= i < |elems| ==> GoodScalar(elems[i], t)
    ensures EncodeElems(elems).Ok? && |EncodeElems(elems).value| % t.Size().value == 0
    ensures DecodeElems(t, EncodeElems(elems).value) == elems
  {
    ElemsEncode(t, elems);
    if elems != [] {
      var first, others := elems[0], elems[1..];
      ElemsEncode(t, others);
      ElemsRoundTrip(t, others);
      ScalarRoundTrip(t, first.n);
      DecodeOneMore(t, ScalarBytes(t, first.n), EncodeElems(others).value);
      assert elems == [first] + others;
    }
  }

  lemma DecodeOneMore(t: CipType, head: Bytes, tail: Bytes)
    requires t.Size() == Some(|head|) && |tail| % |head| == 0 && |head + tail| % |head| == 0
    ensures DecodeElems(t, head + tail) == [DecodeScalar(t, head)] + DecodeElems(t, tail)
  {
    var b := head + tail;
    assert b[..|head|] == head && b[|head|..] == tail;
  }

  lemma MultipleStep(k: nat, size: nat)
    requires size in {1, 2, 4, 8}
    ensures (k + 1) * size == size + k * size
    ensures ((k + 1) * size) % size == 0
  {
  }

  lemma DecodeOne(t: CipType, b: Bytes)
    requires t.Size() == Some(|b|)
    ensures DecodeElems(t, b) == [DecodeScalar(t, b)]
  {
    assert b[..|b|] == b && b[|b|..] == [];
  }

  /** A value that encodes comes back from its own bytes exactly when it is canonical. */
  lemma ValueRoundTrip(v: Value)
    requires EncodeValue(v).Ok?
    ensures DecodeValue(v.WireType(), EncodeValue(v).value) == Ok(v) <==> Canonical(v)
  {
    if Canonical(v) {
      CanonicalRoundTrip(v);
    }
  }

  lemma CanonicalRoundTrip(v: Value)
    requires Canonical(v)
    ensures v.WireType().Size().Some? && EncodeValue(v).Ok?
    ensures |EncodeValue(v).value| == v.WireType().Size().value * v.ElementCount()
    ensures DecodeValue(v.WireType(), EncodeValue(v).value) == Ok(v)
  {
    match v
    case Scalar(t, n) =>
      ScalarRoundTrip(t, n);
      Spans(1, t.Size().value);
      DecodeOne(t, ScalarBytes(t, n));
    case Array(t, elems) =>
      ElemsEncode(t, elems);
      ElemsRoundTrip(t, elems);
      Spans(|elems|, t.Size().value);
  }

  lemma Spans(k: nat, size: nat)
    requires size in {1, 2, 4, 8} && k > 0
    ensures k * size == size * k >= size && size % size == 0
  {
  }
}
