/**
 * Properties of the audio codec: what the frames hide after encoding, and
 * the round trip through the decoder, for files whose frames are exactly
 * the samples the codec uses (a mono file with one sample per frame, a
 * stereo file with two, whole bytes each) and keys whose entries fit in a
 * sample.
 */
module WaveProofs {
  import opened Wrappers
  import opened BitStrings
  import opened WaveHeader
  import opened WaveFrame
  import opened WaveCodec
  import opened Streams

  /** Every frame is exactly the used samples. */
  predicate Regular(frames: seq<Frame>, l: Layout)
  {
    forall p :: 0 <= p < |frames| ==> Interleaved(|frames[p]|, l.w, l.used)
  }

  /** No key entry hides more bits than a sample has. */
  predicate KeyWithin(key: seq<bv8>, l: Layout)
  {
    |key| > 0 && forall i :: 0 <= i < |key| ==> key[i] as nat <= l.w
  }

  /** The digits each frame hides under the key, frame by frame (none from a frame the loops cannot read). */
  function FrameDigits(frames: seq<Frame>, l: Layout, key: seq<bv8>): (d: seq<Bits>)
    requires |key| > 0
    ensures |d| == |frames|
  {
    seq(|frames|, p requires 0 <= p < |frames| =>
      if ReadFits(|frames[p]|, l.w, l.used, KeyAt(key, p)) then ReadFrame(frames[p], l.w, l.used, KeyAt(key, p)) else [])
  }

  /** The digits frames from..to-1 hide, in frame order. */
  function ReadStream(frames: seq<Frame>, l: Layout, key: seq<bv8>, from: nat, to: nat): Bits
    requires |key| > 0 && to <= |frames|
  {
    Stream(FrameDigits(frames, l, key), from, to)
  }

  /** Under a fitting key every frame of a regular file can be read and written. */
  lemma RegularFits(frames: seq<Frame>, l: Layout, key: seq<bv8>, p: nat)
    requires Regular(frames, l) && KeyWithin(key, l) && p < |frames|
    ensures WriteFits(|frames[p]|, l.w, l.used, KeyAt(key, p)) && ReadFits(|frames[p]|, l.w, l.used, KeyAt(key, p))
  {
    assert Interleaved(|frames[p]|, l.w, l.used);
    assert 0 <= p % |key| < |key|;
  }

  // ---------------------------------------------------------------------------
  // The digits the frames hide

  /** The digits of a range of frames are those of a first part followed by those of the rest. */
  lemma ReadStreamSplit(frames: seq<Frame>, l: Layout, key: seq<bv8>, from: nat, mid: nat, stop: nat)
    requires |key| > 0 && from <= mid <= stop <= |frames|
    ensures ReadStream(frames, l, key, from, stop) == ReadStream(frames, l, key, from, mid) + ReadStream(frames, l, key, mid, stop)
  {
    StreamSplit(FrameDigits(frames, l, key), from, mid, stop);
  }

  /** The digits of a non-empty range start with those of its first frame. */
  lemma ReadStreamFront(frames: seq<Frame>, l: Layout, key: seq<bv8>, from: nat, stop: nat)
    requires |key| > 0 && from < stop <= |frames|
    ensures ReadStream(frames, l, key, from, stop) == FrameDigits(frames, l, key)[from] + ReadStream(frames, l, key, from + 1, stop)
  {
    StreamFront(FrameDigits(frames, l, key), from, stop);
  }

  /** The digits of the first pos + 1 frames: those of the first pos, then those of frame pos. */
  lemma ReadStreamSnoc(frames: seq<Frame>, l: Layout, key: seq<bv8>, pos: nat)
    requires |key| > 0 && pos < |frames|
    ensures ReadStream(frames, l, key, 0, pos + 1) == ReadStream(frames, l, key, 0, pos) + FrameDigits(frames, l, key)[pos]
  {
    var d := FrameDigits(frames, l, key);
    assert Stream(d, 0, pos + 1) == Stream(d, 0, pos) + d[pos];
  }

  /** Files that agree on a range of frames hide the same digits there. */
  lemma ReadStreamFrame(a: seq<Frame>, b: seq<Frame>, l: Layout, key: seq<bv8>, from: nat, stop: nat)
    requires |key| > 0 && stop <= |a| && stop <= |b|
    requires forall p :: from <= p < stop ==> a[p] == b[p]
    ensures ReadStream(a, l, key, from, stop) == ReadStream(b, l, key, from, stop)
  {
    var da, db := FrameDigits(a, l, key), FrameDigits(b, l, key);
    forall p | from <= p < stop
      ensures da[p] == db[p]
    {
      assert a[p] == b[p];
    }
    StreamFrame(da, db, from, stop);
  }

  /** A frame written with a fitting key hides the share it took. */
  lemma WrittenDigits(c: Cursor, l: Layout, key: seq<bv8>, out: seq<Frame>)
    requires |key| > 0 && Writable(c, l, key) && Share(l, key, c.pos) <= |c.stream|
    requires Interleaved(|c.frames[c.pos]|, l.w, l.used)
    requires |out| == |c.frames| && out[c.pos] == Advance(c, l, key).frames[c.pos]
    ensures FrameDigits(out, l, key)[c.pos] == c.stream[..Share(l, key, c.pos)]
  {
    var k := KeyAt(key, c.pos);
    FrameRoundTrip(c.frames[c.pos], l.w, l.used, k, c.stream);
  }

  // ---------------------------------------------------------------------------
  // Encoding

  /** A regular file stays regular when a frame is written. */
  lemma AdvanceRegular(c: Cursor, l: Layout, key: seq<bv8>)
    requires |key| > 0 && Writable(c, l, key) && Share(l, key, c.pos) <= |c.stream| && Regular(c.frames, l)
    ensures Regular(Advance(c, l, key).frames, l)
  {
    var next := Advance(c, l, key);
    forall p | 0 <= p < |next.frames|
      ensures Interleaved(|next.frames[p]|, l.w, l.used)
    {
      assert |next.frames[p]| == |c.frames[p]|;
    }
  }

  /** A frame write takes the same bits from a stream with more digits after it, and leaves those digits at the end. */
  lemma AdvanceAppend(c: Cursor, t: Bits, l: Layout, key: seq<bv8>)
    requires |key| > 0 && Writable(c, l, key) && Share(l, key, c.pos) <= |c.stream|
    ensures Advance(Cursor(c.frames, c.stream + t, c.pos), l, key)
      == Cursor(Advance(c, l, key).frames, Advance(c, l, key).stream + t, c.pos + 1)
  {
    var k := KeyAt(key, c.pos);
    WriteFramePrefix(c.frames[c.pos], l.w, l.used, k, c.stream, t);
    DropOfAppend(c.stream, t, PerFrame(l.used, k));
  }

  /** Writing a stream with more digits after it writes the same frames as the stream alone, then goes on. */
  lemma {:induction false} FillAppend(c: Cursor, t: Bits, l: Layout, key: seq<bv8>)
    requires |key| > 0
    ensures Fill(Cursor(c.frames, c.stream + t, c.pos), l, key)
      == if Fill(c, l, key).None? then None
         else Fill(Cursor(Fill(c, l, key).value.frames, Fill(c, l, key).value.stream + t, Fill(c, l, key).value.pos), l, key)
    decreases |c.frames| - c.pos
  {
    if |c.stream| >= Share(l, key, c.pos) && Writable(c, l, key) {
      var next := Advance(c, l, key);
      assert Fill(Cursor(c.frames, c.stream + t, c.pos), l, key) == Fill(Cursor(next.frames, next.stream + t, next.pos), l, key) by {
        AdvanceAppend(c, t, l, key);
      }
      assert Fill(c, l, key) == Fill(next, l, key);
      FillAppend(next, t, l, key);
    }
  }

  /** Appending byte by byte and writing as soon as possible writes the digits of all the bytes as one stream. */
  lemma {:induction false} MainPhaseBits(frames: seq<Frame>, l: Layout, key: seq<bv8>, data: seq<bv8>)
    requires |key| > 0 && |data| > 0
    ensures MainPhase(frames, l, key, data) == Fill(Cursor(frames, DataBits(data), 0), l, key)
    decreases |data|
  {
    var init := data[..|data| - 1];
    var last := ByteBits(data[|data| - 1]);
    if |init| == 0 {
      assert DataBits(data) == [] + last;
    } else {
      MainPhaseBits(frames, l, key, init);
      FillAppend(Cursor(frames, DataBits(init), 0), last, l, key);
    }
  }

  /**
   * The inner loop moves forward over the frames, keeps the end of the
   * stream it has not written, keeps the file regular and leaves the frames
   * before pos and from d.pos on alone.
   */
  lemma {:induction false} FillShape(c: Cursor, l: Layout, key: seq<bv8>) returns (d: Cursor)
    requires |key| > 0 && c.pos <= |c.frames| && Regular(c.frames, l) && Fill(c, l, key).Some?
    ensures Fill(c, l, key) == Some(d)
    ensures |d.frames| == |c.frames| && c.pos <= d.pos <= |c.frames| && |d.stream| <= |c.stream| && Regular(d.frames, l)
    ensures forall p :: 0 <= p < |c.frames| && (p < c.pos || d.pos <= p) ==> d.frames[p] == c.frames[p]
    decreases |c.frames| - c.pos
  {
    if |c.stream| < Share(l, key, c.pos) {
      d := c;
    } else {
      AdvanceRegular(c, l, key);
      d := FillShape(Advance(c, l, key), l, key);
    }
  }

  /** What the inner loop keeps of the stream is its end. */
  lemma {:induction false} FillKeepsEnd(c: Cursor, l: Layout, key: seq<bv8>)
    requires |key| > 0 && Fill(c, l, key).Some?
    ensures EndsWith(c.stream, Fill(c, l, key).value.stream)
    decreases |c.frames| - c.pos
  {
    if |c.stream| >= Share(l, key, c.pos) {
      var next := Advance(c, l, key);
      FillKeepsEnd(next, l, key);
      EndsWithDrop(c.stream, next.stream, Fill(c, l, key).value.stream, Share(l, key, c.pos));
    }
  }

  /** The frames the inner loop writes hide the front of the stream, the part it does not keep. */
  lemma {:induction false} FillReads(c: Cursor, l: Layout, key: seq<bv8>) returns (d: Cursor)
    requires |key| > 0 && c.pos <= |c.frames| && Regular(c.frames, l) && Fill(c, l, key).Some?
    ensures Fill(c, l, key) == Some(d)
    ensures |d.frames| == |c.frames| && c.pos <= d.pos <= |c.frames| && |d.stream| <= |c.stream|
    ensures ReadStream(d.frames, l, key, c.pos, d.pos) == c.stream[..|c.stream| - |d.stream|]
    decreases |c.frames| - c.pos
  {
    d := FillShape(c, l, key);
    if |c.stream| >= Share(l, key, c.pos) {
      var next := Advance(c, l, key);
      AdvanceRegular(c, l, key);
      assert Fill(next, l, key) == Some(d);
      assert next.pos <= d.pos && |d.stream| <= |next.stream|
        && ReadStream(d.frames, l, key, next.pos, d.pos) == next.stream[..|next.stream| - |d.stream|] by {
        var _ := FillReads(next, l, key);
      }
      assert FrameDigits(d.frames, l, key)[c.pos] == c.stream[..Share(l, key, c.pos)] by {
        var _ := FillShape(next, l, key);
        WrittenDigits(c, l, key, d.frames);
      }
      FillReadsStep(c, l, key, next, d);
    }
  }

  /** One step of the inner loop: the frame it writes hides the bits it takes off the stream. */
  lemma FillReadsStep(c: Cursor, l: Layout, key: seq<bv8>, next: Cursor, d: Cursor)
    requires |key| > 0 && c.pos < |c.frames| && Share(l, key, c.pos) <= |c.stream|
    requires next.pos == c.pos + 1 && next.stream == c.stream[Share(l, key, c.pos)..]
    requires |d.frames| == |c.frames| && next.pos <= d.pos <= |c.frames| && |d.stream| <= |next.stream|
    requires FrameDigits(d.frames, l, key)[c.pos] == c.stream[..Share(l, key, c.pos)]
    requires ReadStream(d.frames, l, key, next.pos, d.pos) == next.stream[..|next.stream| - |d.stream|]
    ensures ReadStream(d.frames, l, key, c.pos, d.pos) == c.stream[..|c.stream| - |d.stream|]
  {
    var u := Share(l, key, c.pos);
    ReadStreamFront(d.frames, l, key, c.pos, d.pos);
    TakeJoin(c.stream, u, next.stream, |next.stream| - |d.stream|, |c.stream| - |d.stream|,
      ReadStream(d.frames, l, key, c.pos, d.pos), ReadStream(d.frames, l, key, next.pos, d.pos));
  }

  /** The last loop moves forward over the frames, keeps the file regular and leaves the frames before pos and from d.pos on alone. */
  lemma {:induction false} DrainShape(c: Cursor, l: Layout, key: seq<bv8>) returns (d: Cursor)
    requires |key| > 0 && c.pos <= |c.frames| && Regular(c.frames, l) && Drain(c, l, key).Some?
    ensures Drain(c, l, key) == Some(d)
    ensures |d.frames| == |c.frames| && c.pos <= d.pos <= |c.frames| && Regular(d.frames, l)
    ensures forall p :: 0 <= p < |c.frames| && (p < c.pos || d.pos <= p) ==> d.frames[p] == c.frames[p]
    decreases |c.frames| - c.pos
  {
    if |c.stream| == 0 {
      d := c;
    } else {
      AdvanceRegular(c, l, key);
      d := DrainShape(Advance(c, l, key), l, key);
    }
  }

  /** The last loop writes frames pos..d.pos-1 so that they hide the whole stream. */
  lemma {:induction false} DrainReads(c: Cursor, l: Layout, key: seq<bv8>) returns (d: Cursor)
    requires |key| > 0 && c.pos <= |c.frames| && Regular(c.frames, l) && Drain(c, l, key).Some?
    ensures Drain(c, l, key) == Some(d)
    ensures |d.frames| == |c.frames| && c.pos <= d.pos <= |c.frames|
    ensures ReadStream(d.frames, l, key, c.pos, d.pos) == c.stream
    decreases |c.frames| - c.pos
  {
    d := DrainShape(c, l, key);
    if |c.stream| != 0 {
      var next := Advance(c, l, key);
      AdvanceRegular(c, l, key);
      var rest := DrainReads(next, l, key);
      var _ := DrainShape(next, l, key);
      assert d.frames[c.pos] == next.frames[c.pos];
      WrittenDigits(c, l, key, d.frames);
      DrainReadsStep(c, l, key, next, d);
    }
  }

  /** One step of the last loop: the frame it writes hides the bits it takes off the stream. */
  lemma DrainReadsStep(c: Cursor, l: Layout, key: seq<bv8>, next: Cursor, d: Cursor)
    requires |key| > 0 && c.pos < |c.frames| && Share(l, key, c.pos) <= |c.stream|
    requires next.pos == c.pos + 1 && next.stream == c.stream[Share(l, key, c.pos)..]
    requires |d.frames| == |c.frames| && next.pos <= d.pos <= |c.frames|
    requires FrameDigits(d.frames, l, key)[c.pos] == c.stream[..Share(l, key, c.pos)]
    requires ReadStream(d.frames, l, key, next.pos, d.pos) == next.stream
    ensures ReadStream(d.frames, l, key, c.pos, d.pos) == c.stream
  {
    ReadStreamFront(d.frames, l, key, c.pos, d.pos);
    TakeDrop(c.stream, Share(l, key, c.pos));
  }

  /** What the inner loop leaves when it starts at the first frame with the stream bits. */
  lemma FillFacts(frames: seq<Frame>, bits: Bits, l: Layout, key: seq<bv8>, c: Cursor)
    requires |key| > 0 && Regular(frames, l) && Fill(Cursor(frames, bits, 0), l, key) == Some(c)
    ensures |c.frames| == |frames| && c.pos <= |frames| && EndsWith(bits, c.stream) && Regular(c.frames, l)
    ensures ReadStream(c.frames, l, key, 0, c.pos) == bits[..|bits| - |c.stream|]
    ensures forall p :: c.pos <= p < |frames| ==> c.frames[p] == frames[p]
  {
    var start := Cursor(frames, bits, 0);
    var _ := FillShape(start, l, key);
    var _ := FillReads(start, l, key);
    FillKeepsEnd(start, l, key);
  }

  /** What the last loop leaves when it starts from c with the padding appended, for a given outcome d. */
  lemma DrainFacts(c: Cursor, zeros: Bits, l: Layout, key: seq<bv8>, d: Cursor)
    requires |key| > 0 && c.pos <= |c.frames| && Regular(c.frames, l)
    requires Drain(Cursor(c.frames, c.stream + zeros, c.pos), l, key) == Some(d)
    ensures |d.frames| == |c.frames| && c.pos <= d.pos <= |c.frames| && Regular(d.frames, l)
    ensures ReadStream(d.frames, l, key, c.pos, d.pos) == c.stream + zeros
    ensures forall p :: 0 <= p < |c.frames| && (p < c.pos || d.pos <= p) ==> d.frames[p] == c.frames[p]
  {
    var start := Cursor(c.frames, c.stream + zeros, c.pos);
    var _ := DrainReads(start, l, key);
    var _ := DrainShape(start, l, key);
  }

  /** What encoding does: the main loop, then the last loop over the rest of the stream padded with '0' digits. */
  lemma EncodedSteps(frames: seq<Frame>, l: Layout, key: seq<bv8>, data: seq<bv8>) returns (c: Cursor, zeros: Bits, d: Cursor)
    requires |key| > 0 && Encoded(frames, l, key, data).Some?
    ensures MainPhase(frames, l, key, data) == Some(c) && Share(l, key, c.pos) > 0
    ensures zeros == Zeros(PadBits(|c.stream|, Share(l, key, c.pos)))
    ensures Drain(Cursor(c.frames, c.stream + zeros, c.pos), l, key) == Some(d)
    ensures Encoded(frames, l, key, data) == Some(d.frames)
  {
    c := MainPhase(frames, l, key, data).value;
    zeros := Zeros(PadBits(|c.stream|, Share(l, key, c.pos)));
    d := Drain(Cursor(c.frames, c.stream + zeros, c.pos), l, key).value;
  }

  /**
   * The inner loop from the first frame over a stream of bits, then the last
   * loop over what it keeps padded with zeros: the frames up to where it
   * stops hide the bits and the padding, and every later frame is as it was.
   */
  lemma FillDrainReads(frames: seq<Frame>, l: Layout, key: seq<bv8>, bits: Bits, zeros: Bits, c: Cursor, d: Cursor)
    requires |key| > 0 && Regular(frames, l) && Fill(Cursor(frames, bits, 0), l, key) == Some(c)
    requires Drain(Cursor(c.frames, c.stream + zeros, c.pos), l, key) == Some(d)
    ensures |d.frames| == |frames| && d.pos <= |frames| && Regular(d.frames, l)
    ensures ReadStream(d.frames, l, key, 0, d.pos) == bits + zeros
    ensures forall p :: d.pos <= p < |frames| ==> d.frames[p] == frames[p]
  {
    FillFacts(frames, bits, l, key, c);
    DrainFacts(c, zeros, l, key, d);
    Assembled(frames, l, key, bits, zeros, c, d.frames, d.pos);
  }

  /** The facts of the main loop and the last loop, put together. */
  lemma Assembled(frames: seq<Frame>, l: Layout, key: seq<bv8>, bits: Bits, zeros: Bits, c: Cursor, out: seq<Frame>, m: nat)
    requires |key| > 0 && |c.frames| == |frames| && c.pos <= |frames| && EndsWith(bits, c.stream)
    requires ReadStream(c.frames, l, key, 0, c.pos) == bits[..|bits| - |c.stream|]
    requires forall p :: c.pos <= p < |frames| ==> c.frames[p] == frames[p]
    requires |out| == |c.frames| && c.pos <= m <= |c.frames|
    requires ReadStream(out, l, key, c.pos, m) == c.stream + zeros
    requires forall p :: 0 <= p < |c.frames| && (p < c.pos || m <= p) ==> out[p] == c.frames[p]
    ensures |out| == |frames| && m <= |frames|
    ensures ReadStream(out, l, key, 0, m) == bits + zeros
    ensures forall p :: m <= p < |frames| ==> out[p] == frames[p]
  {
    EncodedStream(l, key, bits, zeros, c, out, m);
  }

  /** The frames before pos still hide what the main loop wrote, and the last loop's frames hide the rest and the padding. */
  lemma EncodedStream(l: Layout, key: seq<bv8>, bits: Bits, zeros: Bits, c: Cursor, out: seq<Frame>, m: nat)
    requires |key| > 0 && |out| == |c.frames| && c.pos <= m <= |out|
    requires EndsWith(bits, c.stream) && ReadStream(c.frames, l, key, 0, c.pos) == bits[..|bits| - |c.stream|]
    requires forall p :: 0 <= p < c.pos ==> out[p] == c.frames[p]
    requires ReadStream(out, l, key, c.pos, m) == c.stream + zeros
    ensures ReadStream(out, l, key, 0, m) == bits + zeros
  {
    ReadStreamFrame(out, c.frames, l, key, 0, c.pos);
    ReadStreamSplit(out, l, key, 0, c.pos, m);
    FrontThenRest(bits, c.stream, zeros, ReadStream(out, l, key, 0, c.pos), ReadStream(out, l, key, c.pos, m), ReadStream(out, l, key, 0, m));
  }

  /**
   * After encoding data that is not empty into a regular file, the first m
   * frames hide the digits of the data (followed by the '0' padding), and
   * every later frame is as it was.
   */
  lemma EncodeReads(frames: seq<Frame>, l: Layout, key: seq<bv8>, data: seq<bv8>) returns (out: seq<Frame>, m: nat)
    requires |key| > 0 && Regular(frames, l) && |data| > 0 && Encoded(frames, l, key, data).Some?
    ensures Encoded(frames, l, key, data) == Some(out)
    ensures |out| == |frames| && m <= |frames| && Regular(out, l)
    ensures 8 * |data| <= |ReadStream(out, l, key, 0, m)| && ReadStream(out, l, key, 0, m)[..8 * |data|] == DataBits(data)
    ensures forall p :: m <= p < |frames| ==> out[p] == frames[p]
  {
    var c, zeros, d := EncodedSteps(frames, l, key, data);
    MainPhaseBits(frames, l, key, data);
    FillDrainReads(frames, l, key, DataBits(data), zeros, c, d);
    out, m := d.frames, d.pos;
    assert (DataBits(data) + zeros)[..8 * |data|] == DataBits(data);
  }

  // ---------------------------------------------------------------------------
  // Decoding

  /**
   * The decoder, started with the digits of the first pos frames taken in,
   * returns at least len bytes, the first len of which are the first len
   * bytes of the digits of the first n frames, when those hold that many.
   */
  lemma {:induction false} DecodeFromReads(frames: seq<Frame>, l: Layout, key: seq<bv8>, len: nat, found: seq<bv8>, str: Bits, pos: nat, n: nat)
    returns (x: seq<bv8>)
    requires KeyWithin(key, l) && Regular(frames, l) && pos <= n <= |frames|
    requires DataBits(found) + str == ReadStream(frames, l, key, 0, pos)
    requires |str| < 8 && 8 * len <= |ReadStream(frames, l, key, 0, n)|
    ensures DecodeFrom(frames, l, key, len, found, str, pos) == Some(x)
    ensures len <= |x| && DataBits(x[..len]) == ReadStream(frames, l, key, 0, n)[..8 * len]
    decreases n - pos
  {
    if |found| >= len {
      x := found;
      DataBitsPrefix(found, len);
      ReadStreamSplit(frames, l, key, 0, pos, n);
      FrontOfBoth(DataBits(found), str, ReadStream(frames, l, key, 0, pos), ReadStream(frames, l, key, pos, n),
        ReadStream(frames, l, key, 0, n), 8 * len);
    } else {
      assert pos < n by {
        ReadStreamSplit(frames, l, key, 0, pos, n);
      }
      RegularFits(frames, l, key, pos);
      var digits := ReadFrame(frames[pos], l.w, l.used, KeyAt(key, pos));
      var e := Emit(str + digits);
      assert DataBits(found + e.0) + e.1 == ReadStream(frames, l, key, 0, pos + 1) by {
        ReadStreamSnoc(frames, l, key, pos);
        Assoc(DataBits(found), str, digits);
        DataBitsAppend(found, e.0);
        Assoc(DataBits(found), DataBits(e.0), e.1);
      }
      x := DecodeFromReads(frames, l, key, len, found + e.0, e.1, pos + 1, n);
    }
  }

  /** When the first n frames hide at least len bytes, the decoder returns at least len bytes, the first len of them first. */
  lemma DecodeReads(frames: seq<Frame>, l: Layout, key: seq<bv8>, len: nat, n: nat) returns (x: seq<bv8>)
    requires KeyWithin(key, l) && Regular(frames, l) && n <= |frames| && 8 * len <= |ReadStream(frames, l, key, 0, n)|
    ensures Decoded(frames, l, key, len) == Some(x)
    ensures len <= |x| && DataBits(x[..len]) == ReadStream(frames, l, key, 0, n)[..8 * len]
  {
    if len == 0 {
      x := [];
    } else {
      assert Stream(FrameDigits(frames, l, key), 0, 0) == [];
      x := DecodeFromReads(frames, l, key, len, [], [], 0, n);
    }
  }

  /**
   * Decoding what WavEncode wrote into a regular file with a fitting key
   * gives back the bytes hidden, followed by whatever else the last frame
   * read completes.
   */
  lemma RoundTrip(frames: seq<Frame>, l: Layout, key: seq<bv8>, data: seq<bv8>)
    requires Regular(frames, l) && KeyWithin(key, l) && Encoded(frames, l, key, data).Some?
    ensures Decoded(Encoded(frames, l, key, data).value, l, key, |data|).Some?
    ensures |data| <= |Decoded(Encoded(frames, l, key, data).value, l, key, |data|).value|
    ensures Decoded(Encoded(frames, l, key, data).value, l, key, |data|).value[..|data|] == data
  {
    if |data| > 0 {
      var out, m := EncodeReads(frames, l, key, data);
      var x := DecodeReads(out, l, key, |data|, m);
      DataBitsInjective(x[..|data|], data);
    }
  }

  // ---------------------------------------------------------------------------
  // The file

  /** Encoding a regular file keeps the number of frames, and every frame stays exactly the used samples. */
  lemma EncodedRegular(frames: seq<Frame>, l: Layout, key: seq<bv8>, data: seq<bv8>)
    requires |key| > 0 && Regular(frames, l) && Encoded(frames, l, key, data).Some?
    ensures |Encoded(frames, l, key, data).value| == |frames| && Regular(Encoded(frames, l, key, data).value, l)
  {
    if |data| > 0 {
      var out, m := EncodeReads(frames, l, key, data);
    } else {
      var c, zeros, d := EncodedSteps(frames, l, key, data);
      assert c == Cursor(frames, [], 0);
      DrainFacts(c, zeros, l, key, d);
    }
  }

  /** Two regular frame sequences of the same layout have frames of the same size. */
  lemma RegularSizes(frames: seq<Frame>, out: seq<Frame>, l: Layout, size: nat)
    requires Regular(frames, l) && Regular(out, l) && |out| == |frames|
    requires forall p :: 0 <= p < |frames| ==> |frames[p]| == size
    ensures forall p :: 0 <= p < |out| ==> |out[p]| == size
  {
    forall p | 0 <= p < |out|
      ensures |out[p]| == size
    {
      assert Interleaved(|frames[p]|, l.w, l.used) && Interleaved(|out[p]|, l.w, l.used);
    }
  }

  /** Frames of equal size written back take up that size each. */
  lemma {:induction false} FlattenLength(fs: seq<Frame>, size: nat)
    requires forall p :: 0 <= p < |fs| ==> |fs[p]| == size
    ensures |Flatten(fs)| == |fs| * size
    decreases |fs|
  {
    if |fs| > 0 {
      FlattenLength(fs[1..], size);
    }
  }

  /**
   * Regular frames of the size the audio is cut into, as many as it holds,
   * written back in its place before the bytes after the last frame, are cut
   * back into the same frames, and take up the audio's length.
   */
  lemma FramesKept(audio: seq<bv8>, size: nat, out: seq<Frame>, l: Layout)
    requires Regular(Frames(audio, size), l) && Regular(out, l) && |out| == |Frames(audio, size)|
    ensures Frames(Flatten(out) + Leftover(audio, size), size) == out
    ensures |Flatten(out) + Leftover(audio, size)| == |audio|
  {
    var frames := Frames(audio, size);
    FlattenFrames(audio, size);
    if size == 0 {
      assert frames == [] && out == [];
      assert Flatten(out) == [];
    } else {
      RegularSizes(frames, out, l, size);
      FramesOfFlatten(out, size, Leftover(audio, size));
      FlattenLength(out, size);
      FlattenLength(frames, size);
    }
  }

  /** WavEncode writes a file as long as the one it read, with the bytes before the samples unchanged. */
  lemma FileShapeKept(file: seq<bv8>, h: Header, key: seq<bv8>, data: seq<bv8>)
    requires h.dataStartPosition <= |file|
    requires Regular(Frames(file[h.dataStartPosition..], h.blockAlignBytes), LayoutOf(h))
    requires EncodedFile(file, h, key, data).Some?
    ensures |EncodedFile(file, h, key, data).value| == |file|
    ensures EncodedFile(file, h, key, data).value[..h.dataStartPosition] == file[..h.dataStartPosition]
  {
    var audio, size, l := file[h.dataStartPosition..], h.blockAlignBytes, LayoutOf(h);
    var frames := Frames(audio, size);
    var out := Encoded(frames, l, key, data).value;
    EncodedRegular(frames, l, key, data);
    FramesKept(audio, size, out, l);
  }

  /**
   * The round trip through the file: WavDecode, given the same header and
   * key, reads back from the file WavEncode wrote the bytes hidden, followed
   * by whatever else the last frame read completes.
   */
  lemma FileRoundTrip(file: seq<bv8>, h: Header, key: seq<bv8>, data: seq<bv8>)
    requires h.dataStartPosition <= |file|
    requires Regular(Frames(file[h.dataStartPosition..], h.blockAlignBytes), LayoutOf(h)) && KeyWithin(key, LayoutOf(h))
    requires EncodedFile(file, h, key, data).Some?
    ensures h.dataStartPosition <= |EncodedFile(file, h, key, data).value|
    ensures DecodedFile(EncodedFile(file, h, key, data).value, h, key, |data|).Some?
    ensures |data| <= |DecodedFile(EncodedFile(file, h, key, data).value, h, key, |data|).value|
    ensures DecodedFile(EncodedFile(file, h, key, data).value, h, key, |data|).value[..|data|] == data
  {
    var audio, size, l := file[h.dataStartPosition..], h.blockAlignBytes, LayoutOf(h);
    var frames := Frames(audio, size);
    var out := Encoded(frames, l, key, data).value;
    var written := EncodedFile(file, h, key, data).value;
    WrittenSamples(file, h, key, data);
    EncodedRegular(frames, l, key, data);
    FramesKept(audio, size, out, l);
    assert DecodedFile(written, h, key, |data|) == Decoded(out, l, key, |data|);
    RoundTrip(frames, l, key, data);
  }

  /**
   * The round trip as the program runs it: the file written is opened again,
   * its header is read afresh and is the header of the original, and the
   * decoder with that header gives back the hidden data.
   */
  lemma ReopenedRoundTrip(file: seq<bv8>, h: Header, key: seq<bv8>, data: seq<bv8>)
    requires ParseHeader(file) == Some(h)
    requires Regular(Frames(file[h.dataStartPosition..], h.blockAlignBytes), LayoutOf(h)) && KeyWithin(key, LayoutOf(h))
    requires EncodedFile(file, h, key, data).Some?
    ensures ParseHeader(EncodedFile(file, h, key, data).value) == Some(h)
    ensures DecodedFile(EncodedFile(file, h, key, data).value, h, key, |data|).Some?
    ensures |data| <= |DecodedFile(EncodedFile(file, h, key, data).value, h, key, |data|).value|
    ensures DecodedFile(EncodedFile(file, h, key, data).value, h, key, |data|).value[..|data|] == data
  {
    FileShapeKept(file, h, key, data);
    HeaderFromPrefix(file, EncodedFile(file, h, key, data).value, h);
    FileRoundTrip(file, h, key, data);
  }

  /** What follows the bytes before the samples in the file written: the frames written, then the bytes after them. */
  lemma WrittenSamples(file: seq<bv8>, h: Header, key: seq<bv8>, data: seq<bv8>)
    requires h.dataStartPosition <= |file| && EncodedFile(file, h, key, data).Some?
    ensures var audio := file[h.dataStartPosition..];
      var out := Encoded(Frames(audio, h.blockAlignBytes), LayoutOf(h), key, data).value;
      EncodedFile(file, h, key, data).value[h.dataStartPosition..] == Flatten(out) + Leftover(audio, h.blockAlignBytes)
  {
    var audio := file[h.dataStartPosition..];
    var out := Encoded(Frames(audio, h.blockAlignBytes), LayoutOf(h), key, data).value;
    var written := EncodedFile(file, h, key, data).value;
    assert written == file[..h.dataStartPosition] + (Flatten(out) + Leftover(audio, h.blockAlignBytes));
  }
}
