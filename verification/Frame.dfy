/** The class-1 real-time frame: sequence, then run/idle header, then data (io.rs). */
module Frame {
  import opened Prelude
  import opened Wire

  datatype Format = Modeless | Header32Bit | Heartbeat | ZeroLength {
    predicate HasSequence() {
      !ZeroLength?
    }

    predicate HasHeader() {
      Header32Bit?
    }

    predicate CarriesData() {
      Modeless? || Header32Bit?
    }

    function Overhead(): nat {
      (if HasSequence() then 2 else 0) + (if HasHeader() then 4 else 0)
    }
  }

  datatype IoFrame = IoFrame(sequence: Option<u16>, runMode: Option<bool>, data: Bytes)

  function EncodeFrame(format: Format, f: IoFrame): (b: Bytes)
    ensures |b| == format.Overhead() + |f.data|
  {
    (if format.HasSequence() then Le(f.sequence.UnwrapOr(0), 2) else [])
    + (if format.HasHeader() then Le(if f.runMode.UnwrapOr(true) then 1 else 0, 4) else [])
    + f.data
  }

  function DecodeFrame(format: Format, buf: Bytes): (r: Result<IoFrame, WireError>)
    ensures r.Ok? <==> format.Overhead() <= |buf|
    ensures r.Ok? ==> Shaped(format, r.value) && r.value.data == buf[format.Overhead()..]
  {
    if !format.HasSequence() then Ok(IoFrame(None, None, buf))
    else
      var s :- U16At(buf, 0);
      if !format.HasHeader() then Ok(IoFrame(Some(s), None, buf[2..]))
      else
        var header :- U32At(buf, 2);
        Ok(IoFrame(Some(s), Some(header % 2 == 1), buf[6..]))
  }

  /** The four formats: which carry a sequence, a run/idle header and data, and how many bytes come before the data. */
  lemma Formats()
    ensures Modeless.HasSequence() && !Modeless.HasHeader() && Modeless.CarriesData() && Modeless.Overhead() == 2
    ensures Header32Bit.HasSequence() && Header32Bit.HasHeader() && Header32Bit.CarriesData() && Header32Bit.Overhead() == 6
    ensures Heartbeat.HasSequence() && !Heartbeat.HasHeader() && !Heartbeat.CarriesData() && Heartbeat.Overhead() == 2
    ensures !ZeroLength.HasSequence() && !ZeroLength.HasHeader() && !ZeroLength.CarriesData() && ZeroLength.Overhead() == 0
  {
  }

  /** On the wire: the sequence in two bytes, then the header with the run bit lowest, then the data; a frame without the fields its format needs prints sequence 0 and run. */
  lemma FrameOnWire(s: u16, run: bool, data: Bytes)
    ensures EncodeFrame(Modeless, IoFrame(Some(s), None, data)) == [s % 256, s / 256] + data
    ensures EncodeFrame(Heartbeat, IoFrame(Some(s), None, data)) == [s % 256, s / 256] + data
    ensures EncodeFrame(Header32Bit, IoFrame(Some(s), Some(run), data)) == [s % 256, s / 256, if run then 1 else 0, 0, 0, 0] + data
    ensures EncodeFrame(ZeroLength, IoFrame(None, None, data)) == data
    ensures EncodeFrame(Header32Bit, IoFrame(None, None, data)) == [0, 0, 1, 0, 0, 0] + data
  {
    LeTwo(s);
    HeaderOnWire(s, run, data);
    HeaderOnWire(0, true, data);
    var bare, full := IoFrame(None, None, data), IoFrame(Some(0), Some(true), data);
    assert EncodeFrame(Header32Bit, bare) == EncodeFrame(Header32Bit, full);
  }

  lemma HeaderOnWire(s: u16, run: bool, data: Bytes)
    ensures EncodeFrame(Header32Bit, IoFrame(Some(s), Some(run), data)) == [s % 256, s / 256, if run then 1 else 0, 0, 0, 0] + data
  {
    var bit := if run then 1 else 0;
    LeTwo(s);
    LeFour(bit);
    assert Le(s, 2) + Le(bit, 4) == [s % 256, s / 256, bit, 0, 0, 0];
  }

  /** Field presence follows the format. */
  predicate Shaped(format: Format, f: IoFrame) {
    && (f.sequence.Some? <==> format.HasSequence())
    && (f.runMode.Some? <==> format.HasHeader())
  }

  lemma FrameRoundTrip(format: Format, f: IoFrame)
    requires Shaped(format, f)
    ensures DecodeFrame(format, EncodeFrame(format, f)) == Ok(f)
  {
    var b := EncodeFrame(format, f);
    Widths();
    if format.HasSequence() {
      var s := Le(f.sequence.value, 2);
      assert HasAt(b, 0, s);
      ReadBack(b, 0, f.sequence.value, 2);
      if format.HasHeader() {
        var h := if f.runMode.value then 1 else 0;
        assert HasAt(b, 2, Le(h, 4));
        ReadBack(b, 2, h, 4);
      }
    }
  }

  /** A received frame prints back to its own bytes exactly when its reserved header bits are zero. */
  lemma DecodedFramePrints(format: Format, buf: Bytes)
    requires DecodeFrame(format, buf).Ok?
    ensures EncodeFrame(format, DecodeFrame(format, buf).value) == buf
       <==> (format.HasHeader() ==> U32At(buf, 2).value <= 1)
  {
    if format.HasHeader() {
      HeaderFramePrints(buf);
    } else if format.HasSequence() {
      Widths();
      FromLeRoundTrip(buf[0..2]);
      assert buf == buf[0..2] + buf[2..];
    }
  }

  lemma HeaderFramePrints(buf: Bytes)
    requires |buf| >= 6
    ensures EncodeFrame(Header32Bit, DecodeFrame(Header32Bit, buf).value) == buf <==> U32At(buf, 2).value <= 1
  {
    var header := U32At(buf, 2).value;
    Widths();
    FromLeRoundTrip(buf[0..2]);
    assert EncodeFrame(Header32Bit, DecodeFrame(Header32Bit, buf).value) == buf[0..2] + Le(header % 2, 4) + buf[6..];
    HeaderBits(buf, header);
  }

  lemma HeaderBits(buf: Bytes, header: u32)
    requires |buf| >= 6 && header == FromLe(buf[2..6])
    ensures buf[0..2] + Le(header % 2, 4) + buf[6..] == buf <==> header <= 1
  {
    Widths();
    FromLeRoundTrip(buf[2..6]);
    LeIsOneToOne(header % 2, header, 4);
    assert buf == buf[0..2] + Le(header, 4) + buf[6..];
    MiddleDecides(buf[0..2], Le(header % 2, 4), Le(header, 4), buf[6..]);
  }

  lemma MiddleDecides(a: Bytes, x: Bytes, y: Bytes, c: Bytes)
    requires |x| == |y|
    ensures a + x + c == a + y + c <==> x == y
  {
    if a + x + c == a + y + c {
      assert x == (a + x + c)[|a|..|a| + |x|] == y;
    }
  }
}
