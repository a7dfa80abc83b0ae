/** The checked cursor and the append-only writer every codec rests on (wire.rs). */
module Wire {
  import opened Prelude

  datatype WireError =
    | Truncated(needed: nat, remaining: nat)
    | Overflow
    | Malformed(detail: string)
    | InvalidUtf8

  const TRAILING := "trailing bytes after expected end"

  // ----- little-endian integers -----

  function Pow256(k: nat): (r: nat)
    ensures r > 0
  {
    if k == 0 then 1 else 256 * Pow256(k - 1)
  }

  /** The low `size` bytes of `n`, least significant first. */
  function Le(n: nat, size: nat): (b: Bytes)
    ensures |b| == size
  {
    if size == 0 then [] else [n % 256] + Le(n / 256, size - 1)
  }

  function FromLe(b: Bytes): (n: nat)
    ensures n < Pow256(|b|)
  {
    if b == [] then 0 else b[0] + 256 * FromLe(b[1..])
  }

  function Rev(b: Bytes): (r: Bytes)
    ensures |r| == |b|
  {
    if b == [] then [] else Rev(b[1..]) + [b[0]]
  }

  /** Big-endian: the sockaddr exception only. */
  function Be(n: nat, size: nat): (b: Bytes)
    ensures |b| == size
  {
    Rev(Le(n, size))
  }

  function FromBe(b: Bytes): (n: nat)
    ensures n < Pow256(|b|)
  {
    FromLe(Rev(b))
  }

  /** Printing then parsing keeps exactly the low `size` bytes of the number. */
  lemma {:induction false} LeRoundTrip(n: nat, size: nat)
    requires n < Pow256(size)
    ensures FromLe(Le(n, size)) == n
  {
    if size > 0 {
      LeRoundTrip(n / 256, size - 1);
    }
  }

  lemma LeIsOneToOne(a: nat, b: nat, size: nat)
    requires a < Pow256(size) && b < Pow256(size)
    ensures Le(a, size) == Le(b, size) <==> a == b
  {
    LeRoundTrip(a, size);
    LeRoundTrip(b, size);
  }

  lemma {:induction false} FromLeRoundTrip(b: Bytes)
    ensures Le(FromLe(b), |b|) == b
  {
    if b != [] {
      FromLeRoundTrip(b[1..]);
      LowByte(b[0], FromLe(b[1..]));
    }
  }

  lemma LowByte(x: byte, rest: nat)
    ensures (x + 256 * rest) % 256 == x && (x + 256 * rest) / 256 == rest
  {
  }

  lemma {:induction false} RevRev(b: Bytes)
    ensures Rev(Rev(b)) == b
  {
    if b != [] {
      RevRev(b[1..]);
      RevSnoc(Rev(b[1..]), b[0]);
    }
  }

  lemma {:induction false} RevSnoc(b: Bytes, x: byte)
    ensures Rev(b + [x]) == [x] + Rev(b)
  {
    if b != [] {
      RevSnoc(b[1..], x);
      assert (b + [x])[1..] == b[1..] + [x];
    }
  }

  lemma BeRoundTrip(n: nat, size: nat)
    requires n < Pow256(size)
    ensures FromBe(Be(n, size)) == n
  {
    RevRev(Le(n, size));
    LeRoundTrip(n, size);
  }

  lemma FromBeRoundTrip(b: Bytes)
    ensures Be(FromBe(b), |b|) == b
  {
    FromLeRoundTrip(Rev(b));
    RevRev(b);
  }

  lemma Widths()
    ensures Pow256(1) == 0x100 && Pow256(2) == 0x1_0000 && Pow256(4) == 0x1_0000_0000
    ensures Pow256(8) == 0x1_0000_0000_0000_0000
  {
    assert Pow256(3) == 0x100_0000;
    assert Pow256(5) == 0x100_0000_0000;
    assert Pow256(6) == 0x1_0000_0000_0000;
    assert Pow256(7) == 0x100_0000_0000_0000;
  }

  /** Byte `i` of the little-endian form is digit `i` to base 256, least significant first. */
  lemma {:induction false} LeDigits(n: nat, size: nat, i: nat)
    requires i < size
    ensures Le(n, size)[i] == n / Pow256(i) % 256
    decreases size
  {
    if i > 0 {
      LeDigits(n / 256, size - 1, i - 1);
      DivideTwice(n, Pow256(i - 1));
    }
  }

  lemma DivideTwice(n: nat, p: nat)
    requires p > 0
    ensures n / 256 / p == n / (256 * p)
  {
    var q, r := n / 256 / p, n / 256 % p;
    assert n / 256 == p * q + r;
    assert n == 256 * (p * q + r) + n % 256;
    assert 256 * (p * q) == (256 * p) * q;
    assert 0 <= 256 * r + n % 256 < 256 * p;
    QuotientIs(n, 256 * p, q);
  }

  lemma LeTwo(n: u16)
    ensures Le(n, 2) == [n % 256, n / 256]
  {
    Widths();
    LeDigits(n, 2, 0);
    LeDigits(n, 2, 1);
    assert Le(n, 2)[1] == n / 256 % 256;
  }

  lemma LeFour(n: u32)
    ensures Le(n, 4) == [n % 256, n / 0x100 % 256, n / 0x1_0000 % 256, n / 0x100_0000]
  {
    Widths();
    assert Pow256(3) == 0x100_0000;
    LeDigits(n, 4, 0);
    LeDigits(n, 4, 1);
    LeDigits(n, 4, 2);
    LeDigits(n, 4, 3);
  }

  /** The big-endian form is the same digits, most significant first. */
  lemma {:induction false} RevAt(b: Bytes, i: nat)
    requires i < |b|
    ensures Rev(b)[i] == b[|b| - 1 - i]
    decreases |b|
  {
    if i < |b| - 1 {
      RevAt(b[1..], i);
    }
  }

  // ----- reading at a position -----

  function TakeAt(buf: Bytes, pos: nat, n: nat): (r: Result<Bytes, WireError>)
    requires pos <= |buf|
    ensures r.Ok? <==> pos + n <= |buf|
    ensures r.Ok? ==> |r.value| == n
  {
    if pos + n <= |buf| then Ok(buf[pos..pos + n]) else Err(Truncated(n, |buf| - pos))
  }

  function ReadAt(buf: Bytes, pos: nat, size: nat): (r: Result<nat, WireError>)
    requires pos <= |buf|
    ensures r.Ok? <==> pos + size <= |buf|
    ensures r.Ok? ==> r.value < Pow256(size)
  {
    var b :- TakeAt(buf, pos, size);
    Ok(FromLe(b))
  }

  function U16At(buf: Bytes, pos: nat): (r: Result<u16, WireError>)
    requires pos <= |buf|
    ensures r.Ok? <==> pos + 2 <= |buf|
  {
    Widths();
    var v :- ReadAt(buf, pos, 2);
    Ok(v)
  }

  function U32At(buf: Bytes, pos: nat): (r: Result<u32, WireError>)
    requires pos <= |buf|
    ensures r.Ok? <==> pos + 4 <= |buf|
  {
    Widths();
    var v :- ReadAt(buf, pos, 4);
    Ok(v)
  }

  /** `chunk` stands in `buf` at `pos`. */
  ghost predicate HasAt(buf: Bytes, pos: nat, chunk: Bytes) {
    pos + |chunk| <= |buf| && forall i {:trigger chunk[i]} :: 0 <= i < |chunk| ==> buf[pos + i] == chunk[i]
  }

  lemma HasAtSlice(buf: Bytes, pos: nat, chunk: Bytes)
    requires pos + |chunk| <= |buf|
    ensures HasAt(buf, pos, chunk) <==> buf[pos..pos + |chunk|] == chunk
  {
    if buf[pos..pos + |chunk|] == chunk {
      forall i | 0 <= i < |chunk| ensures buf[pos + i] == chunk[i] {
        assert chunk[i] == buf[pos..pos + |chunk|][i];
      }
    }
  }

  lemma HasAtSplit(buf: Bytes, pos: nat, a: Bytes, b: Bytes)
    ensures HasAt(buf, pos, a + b) <==> HasAt(buf, pos, a) && HasAt(buf, pos + |a|, b)
  {
    if HasAt(buf, pos, a + b) {
      forall i | 0 <= i < |a| ensures buf[pos + i] == a[i] {
        assert a[i] == (a + b)[i];
      }
      forall i | 0 <= i < |b| ensures buf[pos + |a| + i] == b[i] {
        assert b[i] == (a + b)[|a| + i];
      }
    }
    if HasAt(buf, pos, a) && HasAt(buf, pos + |a|, b) {
      forall i | 0 <= i < |a + b| ensures buf[pos + i] == (a + b)[i] {
        assert (a + b)[i] == if i < |a| then a[i] else b[i - |a|];
      }
    }
  }

  /** A printed integer is read back wherever it stands in a buffer. */
  lemma ReadBack(buf: Bytes, pos: nat, n: nat, size: nat)
    requires n < Pow256(size) && HasAt(buf, pos, Le(n, size))
    ensures ReadAt(buf, pos, size) == Ok(n)
  {
    ReadChunk(buf, pos, Le(n, size));
    LeRoundTrip(n, size);
  }

  lemma ReadChunk(buf: Bytes, pos: nat, chunk: Bytes)
    requires HasAt(buf, pos, chunk)
    ensures TakeAt(buf, pos, |chunk|) == Ok(chunk) && ReadAt(buf, pos, |chunk|) == Ok(FromLe(chunk))
  {
    HasAtSlice(buf, pos, chunk);
  }

  /** A read integer prints back to the bytes it was read from. */
  lemma ReadHas(buf: Bytes, pos: nat, size: nat)
    requires pos + size <= |buf|
    ensures HasAt(buf, pos, Le(ReadAt(buf, pos, size).value, size))
  {
    FromLeRoundTrip(buf[pos..pos + size]);
    HasAtSlice(buf, pos, buf[pos..pos + size]);
  }

  // ----- the cursor -----

  class WireReader {
    const buf: Bytes
    var pos: nat

    ghost predicate Valid()
      reads this
    {
      pos <= |buf|
    }

    constructor (buf: Bytes)
      ensures Valid() && this.buf == buf && pos == 0
    {
      this.buf := buf;
      pos := 0;
    }

    function Remaining(): nat
      requires Valid()
      reads this
    {
      |buf| - pos
    }

    /** A failed take consumes nothing. */
    method Take(n: nat) returns (r: Result<Bytes, WireError>)
      requires Valid()
      modifies this
      ensures Valid()
      ensures r == TakeAt(buf, old(pos), n)
      ensures pos == if r.Ok? then old(pos) + n else old(pos)
    {
      var end := pos + n;
      if end > |buf| {
        return Err(Truncated(n, |buf| - pos));
      }
      r := Ok(buf[pos..end]);
      pos := end;
    }

    method Skip(n: nat) returns (r: Result<(), WireError>)
      requires Valid()
      modifies this
      ensures Valid()
      ensures r == if old(pos) + n <= |buf| then Ok(()) else Err(Truncated(n, |buf| - old(pos)))
      ensures pos == if r.Ok? then old(pos) + n else old(pos)
    {
      var t := Take(n);
      r := if t.Ok? then Ok(()) else Err(t.error);
    }

    method TakeRest() returns (rest: Bytes)
      requires Valid()
      modifies this
      ensures Valid()
      ensures rest == buf[old(pos)..] && pos == |buf|
    {
      rest := buf[pos..];
      pos := |buf|;
    }

    method U16() returns (r: Result<u16, WireError>)
      requires Valid()
      modifies this
      ensures Valid()
      ensures r == U16At(buf, old(pos))
      ensures pos == if r.Ok? then old(pos) + 2 else old(pos)
    {
      Widths();
      var t := Take(2);
      r := if t.Ok? then Ok(FromLe(t.value)) else Err(t.error);
    }

    method U32() returns (r: Result<u32, WireError>)
      requires Valid()
      modifies this
      ensures Valid()
      ensures r == U32At(buf, old(pos))
      ensures pos == if r.Ok? then old(pos) + 4 else old(pos)
    {
      Widths();
      var t := Take(4);
      r := if t.Ok? then Ok(FromLe(t.value)) else Err(t.error);
    }
  }

  class WireWriter {
    var buf: Bytes

    constructor ()
      ensures buf == []
    {
      buf := [];
    }

    method PutSlice(b: Bytes)
      modifies this
      ensures buf == old(buf) + b
    {
      buf := buf + b;
    }

    method U16(v: u16)
      modifies this
      ensures buf == old(buf) + Le(v, 2)
    {
      buf := buf + Le(v, 2);
    }

    method U32(v: u32)
      modifies this
      ensures buf == old(buf) + Le(v, 4)
    {
      buf := buf + Le(v, 4);
    }
  }
}
