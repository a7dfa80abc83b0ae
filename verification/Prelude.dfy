/** Shared vocabulary: optional values, results, and the machine integer widths of the wire. */
module Prelude {

  datatype Option<+T> = None | Some(value: T) {
    function UnwrapOr(default: T): T {
      match this
      case Some(v) => v
      case None => default
    }
  }

  /** A success value or a typed error; usable with `:-`. */
  datatype Result<+T, +E> = Ok(value: T) | Err(error: E) {
    predicate IsFailure() {
      Err?
    }

    function PropagateFailure<U>(): Result<U, E>
      requires Err?
    {
      Err(error)
    }

    function Extract(): T
      requires Ok?
    {
      value
    }
  }

  const U16_MAX: nat := 0xFFFF
  const U32_MAX: nat := 0xFFFF_FFFF
  const U64_MAX: nat := 0xFFFF_FFFF_FFFF_FFFF

  type byte = x: int | 0 <= x < 256
  type u16 = x: int | 0 <= x < 0x1_0000
  type u32 = x: int | 0 <= x < 0x1_0000_0000

  type Bytes = seq<byte>

  function Min(a: int, b: int): int {
    if a <= b then a else b
  }

  function Max(a: int, b: int): int {
    if a >= b then a else b
  }

  function PowerOfTwo(k: nat): (r: nat)
    ensures r > 0
  {
    if k == 0 then 1 else 2 * PowerOfTwo(k - 1)
  }

  lemma DivisionBounds(e: nat, p: nat)
    requires p > 0
    ensures p * (e / p) <= e < p * (e / p + 1)
    ensures p * (e / p + 1) == p * (e / p) + p
    ensures e % p == e - p * (e / p)
  {
  }

  lemma QuotientIs(e: nat, p: nat, q: nat)
    requires p > 0 && p * q <= e < p * q + p
    ensures e / p == q
  {
    DivisionBounds(e, p);
    if e / p < q {
      assert p * (e / p + 1) <= p * q by { MulMonotone(p, e / p + 1, q); }
    } else if e / p > q {
      MulMonotone(p, q + 1, e / p);
    }
  }

  lemma MulMonotone(p: nat, a: nat, b: nat)
    requires a <= b
    ensures p * a <= p * b
  {
  }
}
