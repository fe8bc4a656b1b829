/**
 * Properties of the raster codec: what the pixels hide after encoding, the
 * round trip through the decoder that stops at the length asked for, and
 * the two ways the program's decoder fails (the count stepping over the
 * length, and capacities that count key entries 0 as one bit).
 */
module RasterProofs {
  import opened Wrappers
  import opened BitStrings
  import opened RasterPixel
  import opened RasterCodec
  import opened RasterDecode
  import Capacity
  import StegoKey
  import opened Streams

  // ---------------------------------------------------------------------------
  // The digits an image hides

  /** The digits of a range of pixels are those of a first part followed by those of the rest. */
  lemma ReadStreamSplit(image: seq<Pixel>, key: seq<bv8>, from: nat, mid: nat, stop: nat)
    requires KeyFits(key) && from <= mid <= stop <= |image|
    ensures ReadStream(image, key, from, stop) == ReadStream(image, key, from, mid) + ReadStream(image, key, mid, stop)
  {
    StreamSplit(PixelDigits(image, key), from, mid, stop);
  }

  /** The digits of a non-empty range start with those of its first pixel. */
  lemma ReadStreamFront(image: seq<Pixel>, key: seq<bv8>, from: nat, stop: nat)
    requires KeyFits(key) && from < stop <= |image|
    ensures ReadStream(image, key, from, stop)
      == ReadPixel(image[from], KeyAt(key, from)) + ReadStream(image, key, from + 1, stop)
  {
    StreamFront(PixelDigits(image, key), from, stop);
  }

  /** Images that agree on a range of pixels hide the same digits there. */
  lemma ReadStreamFrame(a: seq<Pixel>, b: seq<Pixel>, key: seq<bv8>, from: nat, stop: nat)
    requires KeyFits(key) && stop <= |a| && stop <= |b|
    requires forall p :: from <= p < stop ==> a[p] == b[p]
    ensures ReadStream(a, key, from, stop) == ReadStream(b, key, from, stop)
  {
    var da, db := PixelDigits(a, key), PixelDigits(b, key);
    forall p | from <= p < stop
      ensures da[p] == db[p]
    {
      assert a[p] == b[p];
    }
    StreamFrame(da, db, from, stop);
  }

  /** The first n pixels hide Load(key, n) digits. */
  lemma {:induction false} ReadStreamLength(image: seq<Pixel>, key: seq<bv8>, n: nat)
    requires KeyFits(key) && n <= |image|
    ensures |ReadStream(image, key, 0, n)| == Load(key, n)
  {
    if n > 0 {
      ReadStreamLength(image, key, n - 1);
      var d := PixelDigits(image, key);
      assert Stream(d, 0, n) == Stream(d, 0, n - 1) + d[n - 1];
      assert |d[n - 1]| == 3 * KeyAt(key, n - 1);
      LoadStep(key, n - 1);
    }
  }

  /** One more pixel adds three times its key entry. */
  lemma LoadStep(key: seq<bv8>, n: nat)
    requires KeyFits(key)
    ensures Load(key, n + 1) == Load(key, n) + 3 * KeyAt(key, n)
  {
    Capacity.CycleSumStep(key, n, PixelShare);
  }

  /** More pixels never hide fewer digits. */
  lemma {:induction false} LoadMonotone(key: seq<bv8>, a: nat, b: nat)
    requires |key| > 0 && a <= b
    ensures Load(key, a) <= Load(key, b)
    decreases b
  {
    if a < b {
      LoadMonotone(key, a, b - 1);
    }
  }

  // ---------------------------------------------------------------------------
  // Encoding

  /** The inner loop run again from where it stopped, with more digits after what it kept. */
  function FillThen(r: Option<Cursor>, t: Bits, key: seq<bv8>): Option<Cursor>
    requires KeyFits(key)
  {
    match r
    case None => None
    case Some(d) => Fill(Cursor(d.image, d.stream + t, d.pos), key)
  }

  /** Writing a stream with more digits after it takes the same pixels as the stream alone, then goes on. */
  lemma {:induction false} FillAppend(c: Cursor, t: Bits, key: seq<bv8>)
    requires KeyFits(key)
    ensures Fill(Cursor(c.image, c.stream + t, c.pos), key) == FillThen(Fill(c, key), t, key)
    decreases |c.image| - c.pos
  {
    var k := KeyAt(key, c.pos);
    if |c.stream| >= 3 * k && c.pos < |c.image| {
      var next := Advance(c, key);
      assert Fill(Cursor(c.image, c.stream + t, c.pos), key) == Fill(Cursor(next.image, next.stream + t, next.pos), key) by {
        AdvanceAppend(c, t, key);
        FillStep(Cursor(c.image, c.stream + t, c.pos), key);
      }
      FillStep(c, key);
      FillAppend(next, t, key);
    }
  }

  /** One pixel written by the inner loop. */
  lemma FillStep(c: Cursor, key: seq<bv8>)
    requires KeyFits(key) && c.pos < |c.image| && 3 * KeyAt(key, c.pos) <= |c.stream|
    ensures Fill(c, key) == Fill(Advance(c, key), key)
  {
  }

  /** A pixel write takes the same bits from a stream with more digits after it, and leaves those digits at the end. */
  lemma AdvanceAppend(c: Cursor, t: Bits, key: seq<bv8>)
    requires KeyFits(key) && c.pos < |c.image| && 3 * KeyAt(key, c.pos) <= |c.stream|
    ensures Advance(Cursor(c.image, c.stream + t, c.pos), key)
      == Cursor(Advance(c, key).image, Advance(c, key).stream + t, c.pos + 1)
  {
    var k := KeyAt(key, c.pos);
    WritePixelPrefix(c.image[c.pos], k, c.stream, t);
    DropOfAppend(c.stream, t, 3 * k);
  }

  /** Appending byte by byte and writing as soon as possible writes the digits of all the bytes as one stream. */
  lemma {:induction false} MainPhaseBits(image: seq<Pixel>, key: seq<bv8>, data: seq<bv8>)
    requires KeyFits(key) && |data| > 0
    ensures MainPhase(image, key, data) == Fill(Cursor(image, DataBits(data), 0), key)
    decreases |data|
  {
    var init := data[..|data| - 1];
    var last := ByteBits(data[|data| - 1]);
    if |init| == 0 {
      assert DataBits(data) == [] + last;
    } else {
      MainPhaseBits(image, key, init);
      FillAppend(Cursor(image, DataBits(init), 0), last, key);
    }
  }

  /**
   * The inner loop moves forward over the pixels, keeps the end of the stream
   * it has not written, and leaves the pixels before pos and from d.pos on
   * alone; what it keeps is too short for pixel d.pos.
   */
  lemma {:induction false} FillShape(c: Cursor, key: seq<bv8>) returns (d: Cursor)
    requires KeyFits(key) && c.pos <= |c.image| && Fill(c, key).Some?
    ensures Fill(c, key) == Some(d)
    ensures |d.image| == |c.image| && c.pos <= d.pos <= |c.image| && |d.stream| <= |c.stream|
    ensures forall p :: 0 <= p < |c.image| && (p < c.pos || d.pos <= p) ==> d.image[p] == c.image[p]
    ensures |d.stream| < 3 * KeyAt(key, d.pos)
    decreases |c.image| - c.pos
  {
    if |c.stream| < 3 * KeyAt(key, c.pos) {
      d := c;
    } else {
      d := FillShape(Advance(c, key), key);
    }
  }

  /** What the inner loop keeps of the stream is its end. */
  lemma {:induction false} FillKeepsEnd(c: Cursor, key: seq<bv8>)
    requires KeyFits(key) && Fill(c, key).Some?
    ensures EndsWith(c.stream, Fill(c, key).value.stream)
    decreases |c.image| - c.pos
  {
    var k := KeyAt(key, c.pos);
    if |c.stream| >= 3 * k {
      var next := Advance(c, key);
      FillKeepsEnd(next, key);
      EndsWithDrop(c.stream, next.stream, Fill(c, key).value.stream, 3 * k);
    }
  }

  /** The pixels the inner loop writes hide the front of the stream, the part it does not keep. */
  lemma {:induction false} FillReads(c: Cursor, key: seq<bv8>) returns (d: Cursor)
    requires KeyFits(key) && c.pos <= |c.image| && Fill(c, key).Some?
    ensures Fill(c, key) == Some(d)
    ensures |d.image| == |c.image| && c.pos <= d.pos <= |c.image| && |d.stream| <= |c.stream|
    ensures ReadStream(d.image, key, c.pos, d.pos) == c.stream[..|c.stream| - |d.stream|]
    decreases |c.image| - c.pos
  {
    d := FillShape(c, key);
    if |c.stream| >= 3 * KeyAt(key, c.pos) {
      var next := Advance(c, key);
      assert Fill(next, key) == Some(d);
      assert next.pos <= d.pos && |d.stream| <= |next.stream|
        && ReadStream(d.image, key, next.pos, d.pos) == next.stream[..|next.stream| - |d.stream|] by {
        var _ := FillReads(next, key);
      }
      assert ReadPixel(d.image[c.pos], KeyAt(key, c.pos)) == c.stream[..3 * KeyAt(key, c.pos)] by {
        var _ := FillShape(next, key);
        ReadWritePixel(c.image[c.pos], KeyAt(key, c.pos), c.stream);
      }
      FillReadsStep(c, key, next, d);
    }
  }

  /** One step of the inner loop: the pixel it writes hides the 3k digits it takes off the stream. */
  lemma FillReadsStep(c: Cursor, key: seq<bv8>, next: Cursor, d: Cursor)
    requires KeyFits(key) && c.pos < |c.image| && 3 * KeyAt(key, c.pos) <= |c.stream|
    requires next.pos == c.pos + 1 && next.stream == c.stream[3 * KeyAt(key, c.pos)..]
    requires |d.image| == |c.image| && next.pos <= d.pos <= |c.image| && |d.stream| <= |next.stream|
    requires ReadPixel(d.image[c.pos], KeyAt(key, c.pos)) == c.stream[..3 * KeyAt(key, c.pos)]
    requires ReadStream(d.image, key, next.pos, d.pos) == next.stream[..|next.stream| - |d.stream|]
    ensures ReadStream(d.image, key, c.pos, d.pos) == c.stream[..|c.stream| - |d.stream|]
  {
    var k := KeyAt(key, c.pos);
    ReadStreamFront(d.image, key, c.pos, d.pos);
    TakeJoin(c.stream, 3 * k, next.stream, |next.stream| - |d.stream|, |c.stream| - |d.stream|,
      ReadStream(d.image, key, c.pos, d.pos), ReadStream(d.image, key, next.pos, d.pos));
  }

  /** The last loop moves forward over the pixels and leaves the pixels before pos and from d.pos on alone. */
  lemma {:induction false} DrainShape(c: Cursor, key: seq<bv8>) returns (d: Cursor)
    requires KeyFits(key) && c.pos <= |c.image| && Drain(c, key).Some?
    ensures Drain(c, key) == Some(d)
    ensures |d.image| == |c.image| && c.pos <= d.pos <= |c.image|
    ensures forall p :: 0 <= p < |c.image| && (p < c.pos || d.pos <= p) ==> d.image[p] == c.image[p]
    decreases |c.image| - c.pos
  {
    if |c.stream| == 0 {
      d := c;
    } else {
      d := DrainShape(Advance(c, key), key);
    }
  }

  /** The last loop writes pixels pos.. d.pos-1 so that they hide the whole stream. */
  lemma {:induction false} DrainReads(c: Cursor, key: seq<bv8>) returns (d: Cursor)
    requires KeyFits(key) && c.pos <= |c.image| && Drain(c, key).Some?
    ensures Drain(c, key) == Some(d)
    ensures |d.image| == |c.image| && c.pos <= d.pos <= |c.image|
    ensures ReadStream(d.image, key, c.pos, d.pos) == c.stream
    decreases |c.image| - c.pos
  {
    d := DrainShape(c, key);
    if |c.stream| != 0 {
      var next := Advance(c, key);
      var rest := DrainReads(next, key);
      var _ := DrainShape(next, key);
      assert d.image[c.pos] == next.image[c.pos];
      ReadWritePixel(c.image[c.pos], KeyAt(key, c.pos), c.stream);
      DrainReadsStep(c, key, next, d);
    }
  }

  /** One step of the last loop: the pixel it writes hides the 3k digits it takes off the stream. */
  lemma DrainReadsStep(c: Cursor, key: seq<bv8>, next: Cursor, d: Cursor)
    requires KeyFits(key) && c.pos < |c.image| && 3 * KeyAt(key, c.pos) <= |c.stream|
    requires next.pos == c.pos + 1 && next.stream == c.stream[3 * KeyAt(key, c.pos)..]
    requires |d.image| == |c.image| && next.pos <= d.pos <= |c.image|
    requires ReadPixel(d.image[c.pos], KeyAt(key, c.pos)) == c.stream[..3 * KeyAt(key, c.pos)]
    requires ReadStream(d.image, key, next.pos, d.pos) == next.stream
    ensures ReadStream(d.image, key, c.pos, d.pos) == c.stream
  {
    ReadStreamFront(d.image, key, c.pos, d.pos);
    TakeDrop(c.stream, 3 * KeyAt(key, c.pos));
  }

  /** The outcome of the main loop is that of the inner loop over the digits of all the data. */
  lemma MainPhaseFill(image: seq<Pixel>, key: seq<bv8>, data: seq<bv8>, c: Cursor)
    requires KeyFits(key) && |data| > 0 && MainPhase(image, key, data) == Some(c)
    ensures Fill(Cursor(image, DataBits(data), 0), key) == Some(c)
  {
    MainPhaseBits(image, key, data);
  }

  /** What the inner loop leaves when it starts at the first pixel with the stream bits. */
  lemma FillFacts(image: seq<Pixel>, bits: Bits, key: seq<bv8>, c: Cursor)
    requires KeyFits(key) && Fill(Cursor(image, bits, 0), key) == Some(c)
    ensures |c.image| == |image| && c.pos <= |image| && EndsWith(bits, c.stream)
    ensures ReadStream(c.image, key, 0, c.pos) == bits[..|bits| - |c.stream|]
    ensures forall p :: c.pos <= p < |image| ==> c.image[p] == image[p]
  {
    var start := Cursor(image, bits, 0);
    var _ := FillShape(start, key);
    var _ := FillReads(start, key);
    FillKeepsEnd(start, key);
  }



  /** What encoding does: the main loop, then the last loop over the rest of the stream padded with '0' digits. */
  lemma EncodedSteps(image: seq<Pixel>, key: seq<bv8>, data: seq<bv8>) returns (c: Cursor, zeros: Bits, d: Cursor)
    requires KeyFits(key) && Encoded(image, key, data).Some?
    ensures MainPhase(image, key, data) == Some(c) && KeyAt(key, c.pos) > 0
    ensures zeros == Zeros(PadBits(|c.stream|, 3 * KeyAt(key, c.pos)))
    ensures Drain(Cursor(c.image, c.stream + zeros, c.pos), key) == Some(d)
    ensures Encoded(image, key, data) == Some(d.image)
  {
    c := MainPhase(image, key, data).value;
    zeros := Zeros(PadBits(|c.stream|, 3 * KeyAt(key, c.pos)));
    d := Drain(Cursor(c.image, c.stream + zeros, c.pos), key).value;
  }

  /**
   * After encoding data that is not empty, the first m pixels hide the digits
   * of the data (followed by the '0' padding), and every later pixel is as it was.
   */
  lemma EncodeReads(image: seq<Pixel>, key: seq<bv8>, data: seq<bv8>) returns (out: seq<Pixel>, m: nat)
    requires KeyFits(key) && |data| > 0 && Encoded(image, key, data).Some?
    ensures Encoded(image, key, data) == Some(out)
    ensures |out| == |image| && m <= |image|
    ensures 8 * |data| <= |ReadStream(out, key, 0, m)| && ReadStream(out, key, 0, m)[..8 * |data|] == DataBits(data)
    ensures forall p :: m <= p < |image| ==> out[p] == image[p]
  {
    var c, zeros, d := EncodedSteps(image, key, data);
    MainPhaseFill(image, key, data, c);
    FillDrainReads(image, key, DataBits(data), zeros, c, d);
    out, m := d.image, d.pos;
    assert (DataBits(data) + zeros)[..8 * |data|] == DataBits(data);
  }

  /**
   * The inner loop from the first pixel over a stream of bits, then the last
   * loop over what it keeps padded with zeros: the pixels up to where it stops
   * hide the bits and the padding, and every later pixel is as it was.
   */
  lemma FillDrainReads(image: seq<Pixel>, key: seq<bv8>, bits: Bits, zeros: Bits, c: Cursor, d: Cursor)
    requires KeyFits(key) && Fill(Cursor(image, bits, 0), key) == Some(c)
    requires Drain(Cursor(c.image, c.stream + zeros, c.pos), key) == Some(d)
    ensures |d.image| == |image| && d.pos <= |image|
    ensures ReadStream(d.image, key, 0, d.pos) == bits + zeros
    ensures forall p :: d.pos <= p < |image| ==> d.image[p] == image[p]
  {
    FillFacts(image, bits, key, c);
    DrainFacts(c, zeros, key, d);
    Assembled(image, key, bits, zeros, c, d.image, d.pos);
  }

  /** What the last loop leaves when it starts from c with the padding appended, for a given outcome d. */
  lemma DrainFacts(c: Cursor, zeros: Bits, key: seq<bv8>, d: Cursor)
    requires KeyFits(key) && c.pos <= |c.image| && Drain(Cursor(c.image, c.stream + zeros, c.pos), key) == Some(d)
    ensures |d.image| == |c.image| && c.pos <= d.pos <= |c.image|
    ensures ReadStream(d.image, key, c.pos, d.pos) == c.stream + zeros
    ensures forall p :: 0 <= p < |c.image| && (p < c.pos || d.pos <= p) ==> d.image[p] == c.image[p]
  {
    var start := Cursor(c.image, c.stream + zeros, c.pos);
    var _ := DrainReads(start, key);
    var _ := DrainShape(start, key);
  }

  /** The facts of the main loop and the last loop, put together. */
  lemma Assembled(image: seq<Pixel>, key: seq<bv8>, bits: Bits, zeros: Bits, c: Cursor, out: seq<Pixel>, m: nat)
    requires KeyFits(key) && |c.image| == |image| && c.pos <= |image| && EndsWith(bits, c.stream)
    requires ReadStream(c.image, key, 0, c.pos) == bits[..|bits| - |c.stream|]
    requires forall p :: c.pos <= p < |image| ==> c.image[p] == image[p]
    requires |out| == |c.image| && c.pos <= m <= |c.image|
    requires ReadStream(out, key, c.pos, m) == c.stream + zeros
    requires forall p :: 0 <= p < |c.image| && (p < c.pos || m <= p) ==> out[p] == c.image[p]
    ensures |out| == |image| && m <= |image|
    ensures ReadStream(out, key, 0, m) == bits + zeros
    ensures forall p :: m <= p < |image| ==> out[p] == image[p]
  {
    EncodedStream(key, bits, zeros, c, out, m);
  }

  /** The pixels before pos still hide what the main loop wrote, and the last loop's pixels hide the rest and the padding. */
  lemma EncodedStream(key: seq<bv8>, bits: Bits, zeros: Bits, c: Cursor, out: seq<Pixel>, m: nat)
    requires KeyFits(key) && |out| == |c.image| && c.pos <= m <= |out|
    requires EndsWith(bits, c.stream) && ReadStream(c.image, key, 0, c.pos) == bits[..|bits| - |c.stream|]
    requires forall p :: 0 <= p < c.pos ==> out[p] == c.image[p]
    requires ReadStream(out, key, c.pos, m) == c.stream + zeros
    ensures ReadStream(out, key, 0, m) == bits + zeros
  {
    ReadStreamFrame(out, c.image, key, 0, c.pos);
    ReadStreamSplit(out, key, 0, c.pos, m);
    FrontThenRest(bits, c.stream, zeros, ReadStream(out, key, 0, c.pos), ReadStream(out, key, c.pos, m), ReadStream(out, key, 0, m));
  }

  /** With data to hide, the padding step never divides by zero: the main loop stops only at a pixel with a non-zero share. */
  lemma PaddingUnitPositive(image: seq<Pixel>, key: seq<bv8>, data: seq<bv8>)
    requires KeyFits(key) && |data| > 0 && MainPhase(image, key, data).Some?
    ensures KeyAt(key, MainPhase(image, key, data).value.pos) > 0
  {
    MainPhaseBits(image, key, data);
    var d := FillShape(Cursor(image, DataBits(data), 0), key);
  }

  // ---------------------------------------------------------------------------
  // Decoding

  /**
   * The decoder that stops at len, started with the digits of the first pos
   * pixels taken in, returns the first len bytes of the digits of the first n
   * pixels when those hold at least len bytes.
   */
  lemma {:induction false} DecodeFromReads(image: seq<Pixel>, key: seq<bv8>, len: nat, found: seq<bv8>, str: Bits, pos: nat, n: nat)
    returns (x: seq<bv8>)
    requires KeyFits(key) && pos <= n <= |image|
    requires DataBits(found) + str == ReadStream(image, key, 0, pos)
    requires |str| < 8 && |found| < len && 8 * len <= |ReadStream(image, key, 0, n)|
    ensures DecodeFrom(image, key, len, true, found, str, pos) == Some(x)
    ensures |x| == len && DataBits(x) == ReadStream(image, key, 0, n)[..8 * len]
    decreases n - pos
  {
    assert pos < n by {
      ReadStreamSplit(image, key, 0, pos, n);
    }
    var s := str + ReadPixel(image[pos], KeyAt(key, pos));
    assert DataBits(found) + s == ReadStream(image, key, 0, pos + 1) by {
      ReadStreamSnoc(image, key, pos);
      Assoc(DataBits(found), str, ReadPixel(image[pos], KeyAt(key, pos)));
    }
    assert DecodeFrom(image, key, len, true, found, str, pos) == Pending(image, key, len, true, found, s, pos + 1);
    if |s| < 8 {
      x := DecodeFromReads(image, key, len, found, s, pos + 1, n);
    } else {
      assert Pending(image, key, len, true, found, s, pos + 1) == Settle(image, key, len, true, found, s, pos + 1);
      var e := Emit(s);
      var count := found + e.0;
      assert DataBits(count) + e.1 == ReadStream(image, key, 0, pos + 1) by {
        DataBitsAppend(found, e.0);
        Assoc(DataBits(found), DataBits(e.0), e.1);
      }
      if |count| >= len {
        x := count[..len];
        assert DataBits(x) == ReadStream(image, key, 0, n)[..8 * len] by {
          DataBitsPrefix(count, len);
          ReadStreamSplit(image, key, 0, pos + 1, n);
          FrontOfBoth(DataBits(count), e.1, ReadStream(image, key, 0, pos + 1), ReadStream(image, key, pos + 1, n),
            ReadStream(image, key, 0, n), 8 * len);
        }
      } else {
        x := DecodeFromReads(image, key, len, count, e.1, pos + 1, n);
      }
    }
  }

  /** The digits of the first pos + 1 pixels: those of the first pos, then those of pixel pos. */
  lemma ReadStreamSnoc(image: seq<Pixel>, key: seq<bv8>, pos: nat)
    requires KeyFits(key) && pos < |image|
    ensures ReadStream(image, key, 0, pos + 1) == ReadStream(image, key, 0, pos) + ReadPixel(image[pos], KeyAt(key, pos))
  {
    var d := PixelDigits(image, key);
    assert Stream(d, 0, pos + 1) == Stream(d, 0, pos) + d[pos];
  }

  /** When the first n pixels hide at least len bytes, the decoder stopping at len returns the first len of them. */
  lemma DecodeReads(image: seq<Pixel>, key: seq<bv8>, len: nat, n: nat) returns (x: seq<bv8>)
    requires KeyFits(key) && n <= |image| && 8 * len <= |ReadStream(image, key, 0, n)|
    ensures DecodedTruncated(image, key, len) == Some(x)
    ensures |x| == len && DataBits(x) == ReadStream(image, key, 0, n)[..8 * len]
  {
    if len == 0 {
      x := [];
    } else {
      x := DecodeFromReads(image, key, len, [], [], 0, n);
    }
  }

  /** Decoding (stopping at the length) what bmpEncode wrote gives back the bytes hidden. */
  lemma RoundTrip(image: seq<Pixel>, key: seq<bv8>, data: seq<bv8>)
    requires KeyFits(key) && Encoded(image, key, data).Some?
    ensures DecodedTruncated(Encoded(image, key, data).value, key, |data|) == Some(data)
  {
    if |data| == 0 {
      var x := DecodeReads(Encoded(image, key, data).value, key, 0, 0);
    } else {
      var out, m := EncodeReads(image, key, data);
      var x := DecodeReads(out, key, |data|, m);
      DataBitsInjective(x, data);
    }
  }

  // ---------------------------------------------------------------------------
  // The program's decoder

  /**
   * While the decoder that compares with != is running, it has taken in the
   * digits of the first pos pixels and turned all complete bytes into
   * bytes; if no count of complete bytes along the way equals len, it reads
   * until the pixels run out.
   */
  lemma {:induction false} MissedLength(image: seq<Pixel>, key: seq<bv8>, len: nat, found: seq<bv8>, str: Bits, pos: nat)
    requires KeyFits(key) && pos <= |image|
    requires 8 * |found| + |str| == Load(key, pos) && |str| < 8 && |found| != len
    requires forall p :: pos < p <= |image| ==> Load(key, p) / 8 != len
    ensures DecodeFrom(image, key, len, false, found, str, pos) == None
    decreases |image| - pos
  {
    if pos < |image| {
      var count, rest := DecodeStep(image, key, len, false, found, str, pos);
      MissedLength(image, key, len, count, rest, pos + 1);
    }
  }

  /**
   * One pixel of either decoder when the count it reaches does not stop it:
   * the complete bytes of the digits of the first pos + 1 pixels are taken,
   * the rest is pending.
   */
  lemma DecodeStep(image: seq<Pixel>, key: seq<bv8>, len: nat, truncate: bool, found: seq<bv8>, str: Bits, pos: nat)
    returns (count: seq<bv8>, rest: Bits)
    requires KeyFits(key) && pos < |image| && 8 * |found| + |str| == Load(key, pos) && |str| < 8
    requires if truncate then Load(key, pos + 1) / 8 < len else Load(key, pos + 1) / 8 != len
    ensures DecodeFrom(image, key, len, truncate, found, str, pos) == DecodeFrom(image, key, len, truncate, count, rest, pos + 1)
    ensures 8 * |count| + |rest| == Load(key, pos + 1) && |rest| < 8 && |count| == Load(key, pos + 1) / 8
  {
    var s := str + ReadPixel(image[pos], KeyAt(key, pos));
    assert 8 * |found| + |s| == Load(key, pos + 1) by {
      LoadStep(key, pos);
    }
    assert DecodeFrom(image, key, len, truncate, found, str, pos) == Pending(image, key, len, truncate, found, s, pos + 1);
    if |s| < 8 {
      count, rest := found, s;
    } else {
      assert Pending(image, key, len, truncate, found, s, pos + 1) == Settle(image, key, len, truncate, found, s, pos + 1);
      count, rest := found + Emit(s).0, Emit(s).1;
      EmitCount(found, s, Load(key, pos + 1));
    }
    Quotient(|count|, |rest|, Load(key, pos + 1));
  }

  /** Emitting keeps the count of digits: eight for every byte, plus those left over. */
  lemma EmitCount(found: seq<bv8>, s: Bits, total: nat)
    requires 8 * |found| + |s| == total
    ensures 8 * |found + Emit(s).0| + |Emit(s).1| == total
  {
    var e := Emit(s);
    assert |DataBits(e.0)| + |e.1| == |s|;
  }

  /** The whole bytes of L digits, when q bytes and r < 8 digits make L. */
  lemma Quotient(q: nat, r: nat, total: nat)
    requires 8 * q + r == total && r < 8
    ensures total / 8 == q
  {
  }

  /** bmpDecode fails on every image when no prefix of its pixels hides exactly len complete bytes. */
  lemma DecodedMissesLength(image: seq<Pixel>, key: seq<bv8>, len: nat)
    requires KeyFits(key) && len > 0
    requires forall p :: 0 < p <= |image| ==> Load(key, p) / 8 != len
    ensures Decoded(image, key, len) == None
  {
    MissedLength(image, key, len, [], [], 0);
  }

  /** Both decoders fail when the whole image hides fewer than len bytes. */
  lemma {:induction false} ShortImage(image: seq<Pixel>, key: seq<bv8>, len: nat, truncate: bool, found: seq<bv8>, str: Bits, pos: nat)
    requires KeyFits(key) && pos <= |image|
    requires 8 * |found| + |str| == Load(key, pos) && |str| < 8
    requires Load(key, |image|) < 8 * len
    ensures DecodeFrom(image, key, len, truncate, found, str, pos) == None
    decreases |image| - pos
  {
    if pos < |image| {
      LoadMonotone(key, pos + 1, |image|);
      var count, rest := DecodeStep(image, key, len, truncate, found, str, pos);
      ShortImage(image, key, len, truncate, count, rest, pos + 1);
    }
  }

  // ---------------------------------------------------------------------------
  // The passphrase "?"

  /** The passphrase "?" (U+003F) gives the key 3, 3, 3, 0. */
  lemma QuestionMarkKey()
    ensures StegoKey.DerivedKey([0x3F]) == [3, 3, 3, 0]
  {
    assert StegoKey.DerivedKey([0x3F]) == StegoKey.DerivedKey([]) + StegoKey.Entries(0x3F);
  }

  /** Under the key 3, 3, 3, 0 every prefix of pixels hides a multiple of nine digits. */
  lemma {:induction false} NineDigitSteps(p: nat)
    ensures Load([3, 3, 3, 0], p) % 9 == 0
  {
    if p > 0 {
      NineDigitSteps(p - 1);
      var key: seq<bv8> := [3, 3, 3, 0];
      var e := key[(p - 1) % 4];
      assert e == 3 || e == 0;
    }
  }

  /**
   * With the passphrase "?", bmpDecode asked for 8 bytes fails on every
   * image: 63 digits give 7 bytes and the next pixel brings 72, 9 bytes.
   */
  lemma OvershootFails(image: seq<Pixel>)
    ensures KeyFits(StegoKey.DerivedKey([0x3F]))
    ensures Decoded(image, StegoKey.DerivedKey([0x3F]), 8) == None
  {
    QuestionMarkKey();
    var key: seq<bv8> := [3, 3, 3, 0];
    forall p | 0 < p <= |image|
      ensures Load(key, p) / 8 != 8
    {
      NineDigitSteps(p);
    }
    DecodedMissesLength(image, key, 8);
  }

  /** The first ten pixels hide 72 digits under the key 3, 3, 3, 0. */
  lemma TenPixels()
    ensures Load([3, 3, 3, 0], 10) == 72
  {
    var key: seq<bv8> := [3, 3, 3, 0];
    assert Load(key, 0) == 0;
    LoadStep(key, 0);
    assert KeyAt(key, 0) == 3 && Load(key, 1) == 9;
    LoadStep(key, 1);
    assert KeyAt(key, 1) == 3 && Load(key, 2) == 18;
    LoadStep(key, 2);
    assert KeyAt(key, 2) == 3 && Load(key, 3) == 27;
    LoadStep(key, 3);
    assert KeyAt(key, 3) == 0 && Load(key, 4) == 27;
    LoadStep(key, 4);
    assert KeyAt(key, 4) == 3 && Load(key, 5) == 36;
    LoadStep(key, 5);
    assert KeyAt(key, 5) == 3 && Load(key, 6) == 45;
    LoadStep(key, 6);
    assert KeyAt(key, 6) == 3 && Load(key, 7) == 54;
    LoadStep(key, 7);
    assert KeyAt(key, 7) == 0 && Load(key, 8) == 54;
    LoadStep(key, 8);
    assert KeyAt(key, 8) == 3 && Load(key, 9) == 63;
    LoadStep(key, 9);
    assert KeyAt(key, 9) == 3 && Load(key, 10) == 72;
  }

  /** The decoder stopping at the length returns 8 bytes from any image of at least ten pixels under the passphrase "?". */
  lemma OvershootCorrected(image: seq<Pixel>)
    requires |image| >= 10
    ensures KeyFits(StegoKey.DerivedKey([0x3F]))
    ensures DecodedTruncated(image, StegoKey.DerivedKey([0x3F]), 8).Some?
  {
    QuestionMarkKey();
    var key: seq<bv8> := [3, 3, 3, 0];
    TenPixels();
    ReadStreamLength(image, key, 10);
    var x := DecodeReads(image, key, 8, 10);
  }

  // ---------------------------------------------------------------------------
  // Capacities

  /** What an image of n pixels can give back: the complete bytes of the digits its pixels hide. */
  function ReadableCapacity(key: seq<bv8>, n: nat): (capacity: nat)
    requires KeyFits(key)
    ensures capacity <= Capacity.ImageCapacity(key, n)
  {
    CapacityAtMost(key, n);
    Load(key, n) / 8
  }

  /** A share never exceeds the bits the panel's count assumes for entries up to 8. */
  lemma {:induction false} CapacityAtMost(key: seq<bv8>, n: nat)
    requires KeyFits(key)
    ensures Load(key, n) <= Capacity.CycleSum(key, n, Capacity.PixelBits)
  {
    if n > 0 {
      CapacityAtMost(key, n - 1);
      var e := key[(n - 1) % |key|];
      assert PixelShare(e) <= Capacity.PixelBits(e);
    }
  }

  /** The decoder stopping at the length returns as many bytes as the readable capacity from every image. */
  lemma ReadableCapacityDecodes(image: seq<Pixel>, key: seq<bv8>)
    requires KeyFits(key)
    ensures DecodedTruncated(image, key, ReadableCapacity(key, |image|)).Some?
  {
    ReadStreamLength(image, key, |image|);
    var x := DecodeReads(image, key, ReadableCapacity(key, |image|), |image|);
  }

  /**
   * The panel's capacity of an eight-pixel image under the passphrase "?"
   * is 7 bytes, but the pixels hide 54 digits: both decoders fail when asked
   * for 7 bytes, which is what the extraction asks for.
   */
  lemma CapacityOvercount(image: seq<Pixel>)
    requires |image| == 8
    ensures KeyFits(StegoKey.DerivedKey([0x3F]))
    ensures Capacity.ImageCapacity(StegoKey.DerivedKey([0x3F]), 8) == 7
    ensures Decoded(image, StegoKey.DerivedKey([0x3F]), 7) == None
    ensures DecodedTruncated(image, StegoKey.DerivedKey([0x3F]), 7) == None
  {
    QuestionMarkKey();
    var key: seq<bv8> := [3, 3, 3, 0];
    assert Capacity.CycleSum(key, 4, Capacity.PixelBits) == 30;
    assert Capacity.CycleSum(key, 8, Capacity.PixelBits) == 60;
    assert Load(key, 4) == 27;
    assert Load(key, 8) == 54;
    ShortImage(image, key, 7, false, [], [], 0);
    ShortImage(image, key, 7, true, [], [], 0);
  }
}
