/** Well-formed UTF-8 (RFC 3629, section 4): the check a symbol's name must pass. */
module Utf8 {
  import opened Prelude

  predicate Tail(b: byte) {
    0x80 <= b < 0xC0
  }

  /** Bytes of the well-formed character at the front; 0 when there is none. */
  function FrontChar(b: Bytes): (k: nat)
    requires b != []
    ensures k <= |b|
  {
    if b[0] < 0x80 then 1
    else if |b| >= 2 && 0xC2 <= b[0] < 0xE0 && Tail(b[1]) then 2
    else if |b| >= 3 && 0xE0 <= b[0] < 0xF0 && Tail(b[1]) && Tail(b[2])
            && (b[0] == 0xE0 ==> b[1] >= 0xA0) && (b[0] == 0xED ==> b[1] < 0xA0) then 3
    else if |b| >= 4 && 0xF0 <= b[0] < 0xF5 && Tail(b[1]) && Tail(b[2]) && Tail(b[3])
            && (b[0] == 0xF0 ==> b[1] >= 0x90) && (b[0] == 0xF4 ==> b[1] < 0x90) then 4
    else 0
  }

  predicate ValidUtf8(b: Bytes) {
    b == [] || (FrontChar(b) > 0 && ValidUtf8(b[FrontChar(b)..]))
  }

  /** A Unicode scalar value: a code point that is not a surrogate. */
  type Scalar = c: int | 0 <= c < 0xD800 || 0xE000 <= c < 0x11_0000

  function Utf8Of(c: Scalar): (b: Bytes)
    ensures b != []
  {
    if c < 0x80 then [c]
    else if c < 0x800 then [0xC0 + c / 0x40, 0x80 + c % 0x40]
    else if c < 0x1_0000 then [0xE0 + c / 0x1000, 0x80 + c / 0x40 % 0x40, 0x80 + c % 0x40]
    else [0xF0 + c / 0x4_0000, 0x80 + c / 0x1000 % 0x40, 0x80 + c / 0x40 % 0x40, 0x80 + c % 0x40]
  }

  function Utf8OfAll(cs: seq<Scalar>): Bytes {
    if cs == [] then [] else Utf8Of(cs[0]) + Utf8OfAll(cs[1..])
  }

  /** The scalar a well-formed character stands for. */
  function FrontScalar(b: Bytes): Scalar
    requires b != [] && FrontChar(b) > 0
  {
    var at := (i: nat) requires i < |b| => b[i] as int;
    match FrontChar(b)
    case 1 => at(0)
    case 2 => 0x40 * (at(0) - 0xC0) + (at(1) - 0x80)
    case 3 => 0x40 * (0x40 * (at(0) - 0xE0) + (at(1) - 0x80)) + (at(2) - 0x80)
    case _ => 0x40 * (0x40 * (0x40 * (at(0) - 0xF0) + (at(1) - 0x80)) + (at(2) - 0x80)) + (at(3) - 0x80)
  }

  /** Six-bit digits come apart again. */
  lemma Digits(a: nat, b: nat, c: nat, d: nat)
    requires b < 0x40 && c < 0x40 && d < 0x40
    ensures var n := 0x40 * (0x40 * (0x40 * a + b) + c) + d;
            n / 0x4_0000 == a && n / 0x1000 % 0x40 == b && n / 0x40 % 0x40 == c && n % 0x40 == d && n / 0x1000 == 0x40 * a + b
  {
    var high, middle := 0x40 * a + b, 0x40 * (0x40 * a + b) + c;
    var n := 0x40 * middle + d;
    assert n / 0x40 == middle && middle / 0x40 == high && high / 0x40 == a;
    assert n / 0x1000 == n / 0x40 / 0x40;
    assert n / 0x4_0000 == n / 0x1000 / 0x40;
  }

  lemma FrontScalarPrints(b: Bytes)
    requires b != [] && FrontChar(b) > 0
    ensures Utf8Of(FrontScalar(b)) == b[..FrontChar(b)]
  {
    var k := FrontChar(b);
    if k == 2 {
      Digits(0, 0, b[0] - 0xC0, b[1] - 0x80);
    } else if k == 3 {
      Digits(0, b[0] - 0xE0, b[1] - 0x80, b[2] - 0x80);
    } else if k == 4 {
      FourBytesPrint(b);
    }
  }

  lemma FourBytesPrint(b: Bytes)
    requires b != [] && FrontChar(b) == 4
    ensures Utf8Of(FrontScalar(b)) == b[..4]
  {
    Digits(b[0] - 0xF0, b[1] - 0x80, b[2] - 0x80, b[3] - 0x80);
  }

  lemma PrintedFront(c: Scalar, rest: Bytes)
    ensures FrontChar(Utf8Of(c) + rest) == |Utf8Of(c)|
    ensures (Utf8Of(c) + rest)[|Utf8Of(c)|..] == rest
  {
  }

  function Scalars(b: Bytes): seq<Scalar>
    requires ValidUtf8(b)
  {
    if b == [] then [] else [FrontScalar(b)] + Scalars(b[FrontChar(b)..])
  }

  lemma {:induction false} ValidPrints(b: Bytes)
    requires ValidUtf8(b)
    ensures Utf8OfAll(Scalars(b)) == b
  {
    if b != [] {
      FrontScalarPrints(b);
      ValidPrints(b[FrontChar(b)..]);
    }
  }

  lemma {:induction false} PrintedIsValid(cs: seq<Scalar>)
    ensures ValidUtf8(Utf8OfAll(cs))
  {
    if cs != [] {
      PrintedIsValid(cs[1..]);
      PrintedFront(cs[0], Utf8OfAll(cs[1..]));
    }
  }

  /** A byte string passes the check exactly when it is the encoding of some text. */
  lemma ValidIffText(b: Bytes)
    ensures ValidUtf8(b) <==> exists cs :: Utf8OfAll(cs) == b
  {
    if ValidUtf8(b) {
      ValidPrints(b);
    }
    if cs :| Utf8OfAll(cs) == b {
      PrintedIsValid(cs);
    }
  }
}
