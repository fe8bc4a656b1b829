/**
 * One frame of the audio codec (the body of the frame loops of WavEncode and
 * WavDecode). A frame is BlockAlignBytes bytes holding one sample per
 * channel, each sample a little-endian word of BitsPerSample bits, channel 0
 * first. The codec reads the whole frame into one binary string (the frame as
 * one little-endian word, so the LAST channel's digits come first), turns the
 * string left by BitsPerSample digits BlockAlignBytes * 8 / BitsPerSample - 1
 * times, and then treats the first run of BitsPerSample digits as the first
 * used sample and the next run as the second. A mono file uses one sample per
 * frame, every other file two.
 *
 * A used sample keeps its first BitsPerSample - k digits and takes k stream
 * bits as its last k; it is written back little-endian at the frame start
 * plus c * BitsPerSample / 8 for the c-th used sample. When the frame holds
 * exactly one or two samples, the turned string starts with channel 0 (and
 * then channel 1), so what is written is what is read back. With three or
 * more channels the second run is the LAST channel, while the write goes to
 * channel 1.
 */
module WaveFrame {
  import opened BitStrings
  import opened LittleEndian
  import opened ByteCodec

  /** BlockAlignBytes bytes of audio. */
  type Frame = seq<bv8>

  /** The number of samples of a frame the codec uses. */
  type SampleCount = n: nat | n == 1 || n == 2 witness 1

  /** The samples of a frame the codec uses: one in a mono file, two otherwise. */
  function SamplesUsed(numberOfChannels: nat): (used: SampleCount)
    ensures used == 1 <==> numberOfChannels == 1
  {
    if numberOfChannels == 1 then 1 else 2
  }

  /** x digits for each used sample: used * x. */
  function PerFrame(used: nat, x: nat): nat
  {
    if used == 1 then x else 2 * x
  }

  /**
   * A frame of `size` bytes can be read with k digits per used sample:
   * samples of w > 0 digits (w = 0 divides by zero), the used samples within
   * the frame and k at most w (otherwise Substring throws).
   */
  predicate ReadFits(size: nat, w: nat, used: nat, k: nat)
  {
    0 < w && PerFrame(used, w) <= 8 * size && k <= w
  }

  /** ... and written back: the write-back loop cuts samples into whole bytes. */
  predicate WriteFits(size: nat, w: nat, used: nat, k: nat)
  {
    ReadFits(size, w, used, k) && w % 8 == 0
  }

  /** One pass of the rotation loop: the first w digits move to the end. */
  function Turn(s: Bits, w: nat): (r: Bits)
    requires w <= |s|
    ensures |r| == |s|
  {
    s[w..] + s[..w]
  }

  /** t passes of the rotation loop. */
  function Turned(s: Bits, w: nat, t: nat): (r: Bits)
    requires w <= |s|
    ensures |r| == |s|
  {
    if t == 0 then s else Turn(Turned(s, w, t - 1), w)
  }

  /** The samples a frame of `size` bytes holds: BlockAlignBytes * 8 / BitsPerSample. */
  function SlotCount(size: nat, w: nat): nat
    requires w > 0
  {
    8 * size / w
  }

  /** The frame's digits after the rotation loop, which runs SlotCount - 1 times (not at all when that is negative). */
  function Rotated(frame: Frame, w: nat): (r: Bits)
    requires 0 < w <= 8 * |frame|
    ensures |r| == 8 * |frame|
  {
    var n := SlotCount(|frame|, w);
    Turned(WordBits(frame), w, if n == 0 then 0 else n - 1)
  }

  /** A sample after hiding: its first |sample| - k digits, then the first k stream bits. */
  function Hide(sample: Bits, k: nat, bits: Bits): (s: Bits)
    requires k <= |sample| && k <= |bits|
    ensures |s| == |sample|
  {
    sample[..|sample| - k] + bits[..k]
  }

  /**
   * The frame after hiding PerFrame(used, k) stream bits: the first used sample of the
   * rotated digits hides the first k, the second the next k; each is written
   * back little-endian from the frame start on, and the rest of the frame is
   * kept.
   */
  function WriteFrame(frame: Frame, w: nat, used: SampleCount, k: nat, bits: Bits): (f: Frame)
    requires WriteFits(|frame|, w, used, k) && PerFrame(used, k) <= |bits|
    ensures |f| == |frame|
  {
    var r := Rotated(frame, w);
    var first := WordBytes(Hide(r[..w], k, bits));
    if used == 1 then first + frame[w / 8..]
    else first + WordBytes(Hide(r[w..][..w], k, bits[k..])) + frame[2 * (w / 8)..]
  }

  /** The PerFrame(used, k) digits a frame hides: the last k digits of each used sample of the rotated digits. */
  function ReadFrame(frame: Frame, w: nat, used: SampleCount, k: nat): (bits: Bits)
    requires ReadFits(|frame|, w, used, k)
    ensures |bits| == PerFrame(used, k)
  {
    var r := Rotated(frame, w);
    if used == 1 then r[..w][w - k..]
    else r[..w][w - k..] + r[w..][..w][w - k..]
  }

  // ---------------------------------------------------------------------------
  // Properties

  /** The frame is exactly the used samples: one in a mono file, two in a stereo file, whole bytes each. */
  predicate Interleaved(size: nat, w: nat, used: nat)
  {
    0 < w && w % 8 == 0 && 8 * size == PerFrame(used, w)
  }

  /** The digits of sample c (0 or 1) of a frame, as a little-endian word of w digits at byte c * w / 8. */
  function SlotBits(frame: Frame, w: nat, c: nat): (s: Bits)
    requires 0 < w && w % 8 == 0 && c < 2 && PerFrame(c + 1, w) <= 8 * |frame|
    ensures |s| == w
  {
    if c == 0 then WordBits(frame[..w / 8]) else WordBits(frame[w / 8..2 * (w / 8)])
  }

  /** In a frame of exactly the used samples, the rotation loop runs used - 1 times and a sample is w / 8 bytes. */
  lemma Geometry(size: nat, w: nat, used: SampleCount)
    requires Interleaved(size, w, used)
    ensures SlotCount(size, w) == used && 8 * (w / 8) == w && size == PerFrame(used, w / 8)
  {
    DivUnique(8 * size, w, used, 0);
  }

  /** The rotated digits of a frame start with channel 0, followed by channel 1 in a stereo frame. */
  lemma RotatedSlots(frame: Frame, w: nat, used: SampleCount)
    requires Interleaved(|frame|, w, used)
    ensures Rotated(frame, w)[..w] == SlotBits(frame, w, 0)
    ensures used == 2 ==> Rotated(frame, w)[w..][..w] == SlotBits(frame, w, 1)
  {
    Geometry(|frame|, w, used);
    var b := w / 8;
    if used == 1 {
      assert frame[..b] == frame;
    } else {
      StereoTurn(frame, frame[..b], frame[b..], w);
      assert frame[b..] == frame[b..2 * b];
    }
  }

  /** One turn of a stereo frame's digits puts channel 0 before channel 1. */
  lemma StereoTurn(frame: Frame, low: Frame, high: Frame, w: nat)
    requires frame == low + high && 8 * |low| == w && |high| == |low| && w > 0
    ensures Turned(WordBits(frame), w, 1) == WordBits(low) + WordBits(high)
  {
    WordBitsAppend(low, high);
  }

  /**
   * Writing a frame that holds whole samples: each used sample keeps its
   * first w - k digits and takes the next k stream bits as its last k, and
   * the bytes after the used samples are unchanged.
   */
  lemma WriteFrameSamples(frame: Frame, w: nat, used: SampleCount, k: nat, bits: Bits)
    requires Interleaved(|frame|, w, used) && k <= w && PerFrame(used, k) <= |bits|
    ensures var f := WriteFrame(frame, w, used, k, bits);
      SlotBits(f, w, 0) == Hide(SlotBits(frame, w, 0), k, bits) &&
      (used == 2 ==> SlotBits(f, w, 1) == Hide(SlotBits(frame, w, 1), k, bits[k..]))
  {
    Geometry(|frame|, w, used);
    RotatedSlots(frame, w, used);
    var r := Rotated(frame, w);
    var x := Hide(r[..w], k, bits);
    var y := if used == 2 then Hide(r[w..][..w], k, bits[k..]) else x;
    WholeBytes(x, w / 8);
    WholeBytes(y, w / 8);
    SplicedSlots(frame, WriteFrame(frame, w, used, k, bits), w / 8, used, x, y);
  }

  /** The used samples written into a frame read back as the digits written. */
  lemma SplicedSlots(frame: Frame, f: Frame, b: nat, used: SampleCount, x: Bits, y: Bits)
    requires |x| % 8 == 0 && |y| % 8 == 0 && |x| == 8 * b && |y| == 8 * b && |frame| == PerFrame(used, b)
    requires used == 1 ==> f == WordBytes(x) + frame[b..]
    requires used != 1 ==> f == WordBytes(x) + WordBytes(y) + frame[2 * b..]
    ensures WordBits(f[..b]) == x && (used != 1 ==> WordBits(f[b..2 * b]) == y)
  {
    WholeBytes(x, b);
    assert f[..b] == WordBytes(x);
    if used != 1 {
      WholeBytes(y, b);
      assert f[b..2 * b] == WordBytes(y);
    }
  }

  /** Reading a frame that holds whole samples: the last k digits of each used sample, channel 0 first. */
  lemma ReadFrameSamples(frame: Frame, w: nat, used: SampleCount, k: nat)
    requires Interleaved(|frame|, w, used) && k <= w
    ensures ReadFrame(frame, w, used, k)
      == SlotBits(frame, w, 0)[w - k..] + (if used == 2 then SlotBits(frame, w, 1)[w - k..] else [])
  {
    Geometry(|frame|, w, used);
    RotatedSlots(frame, w, used);
  }

  /** Reading a frame just written gives back the PerFrame(used, k) stream bits it took. */
  lemma FrameRoundTrip(frame: Frame, w: nat, used: SampleCount, k: nat, bits: Bits)
    requires Interleaved(|frame|, w, used) && k <= w && PerFrame(used, k) <= |bits|
    ensures ReadFrame(WriteFrame(frame, w, used, k, bits), w, used, k) == bits[..PerFrame(used, k)]
  {
    Geometry(|frame|, w, used);
    var f := WriteFrame(frame, w, used, k, bits);
    WriteFrameSamples(frame, w, used, k, bits);
    ReadFrameSamples(f, w, used, k);
    HiddenTail(SlotBits(frame, w, 0), k, bits);
    if used == 2 {
      HiddenTail(SlotBits(frame, w, 1), k, bits[k..]);
      TakeTwo(bits, k);
    }
  }

  /** The first 2k bits are the first k, then the next k. */
  lemma TakeTwo(bits: Bits, k: nat)
    requires 2 * k <= |bits|
    ensures bits[..2 * k] == bits[..k] + bits[k..][..k]
  {
  }

  /** The last k digits of a sample after hiding are the k stream bits. */
  lemma HiddenTail(sample: Bits, k: nat, bits: Bits)
    requires k <= |sample| && k <= |bits|
    ensures Hide(sample, k, bits)[|sample| - k..] == bits[..k]
  {
  }

  /** Only the first PerFrame(used, k) stream bits matter to a frame write. */
  lemma WriteFramePrefix(frame: Frame, w: nat, used: SampleCount, k: nat, bits: Bits, more: Bits)
    requires WriteFits(|frame|, w, used, k) && PerFrame(used, k) <= |bits|
    ensures WriteFrame(frame, w, used, k, bits + more) == WriteFrame(frame, w, used, k, bits)
  {
    var r := Rotated(frame, w);
    var all := bits + more;
    assert all[..k] == bits[..k];
    assert Hide(r[..w], k, all) == Hide(r[..w], k, bits);
    if used == 2 {
      assert all[k..][..k] == bits[k..][..k];
      assert Hide(r[w..][..w], k, all[k..]) == Hide(r[w..][..w], k, bits[k..]);
    }
  }

  // ---------------------------------------------------------------------------
  // Frames of three or more channels

  /**
   * Three samples of b bytes each, turned twice as the rotation loop does
   * for a three-sample frame: channel 0, then the LAST channel, then channel 1.
   */
  lemma {:induction false} RotatedThree(a: Frame, b: Frame, c: Frame, w: nat)
    requires |a| == |b| == |c| && w == 8 * |a| && w > 0
    ensures Rotated(a + b + c, w) == WordBits(a) + WordBits(c) + WordBits(b)
  {
    WordBitsThree(a, b, c);
    SlotCountThree(|a|, w);
    RotatedTwice(a + b + c, w);
    TurnTwice(WordBits(a), WordBits(b), WordBits(c), w);
  }

  /** The digits of three runs of bytes, one after another: the last run's digits first. */
  lemma WordBitsThree(a: seq<bv8>, b: seq<bv8>, c: seq<bv8>)
    ensures WordBits(a + b + c) == WordBits(c) + WordBits(b) + WordBits(a)
  {
    WordBitsAppend(a + b, c);
    WordBitsAppend(a, b);
  }

  /** With three slots the rotation loop turns the digits twice. */
  lemma RotatedTwice(f: Frame, w: nat)
    requires 0 < w <= 8 * |f| && SlotCount(|f|, w) == 3
    ensures Rotated(f, w) == Turned(WordBits(f), w, 2)
  {
  }

  /** A frame of three samples of w digits has three slots. */
  lemma SlotCountThree(n: nat, w: nat)
    requires w == 8 * n && w > 0
    ensures SlotCount(3 * n, w) == 3
  {
    DivUnique(8 * (3 * n), w, 3, 0);
  }

  /** Two turns by w of three runs of w digits z, y, x give x, z, y. */
  lemma {:induction false} TurnTwice(x: Bits, y: Bits, z: Bits, w: nat)
    requires |x| == |y| == |z| == w
    ensures Turned(z + y + x, w, 2) == x + z + y
  {
    var s := z + y + x;
    assert Turned(s, w, 1) == Turn(s, w);
    assert Turn(s, w) == y + x + z by {
      assert s[..w] == z && s[w..] == y + x;
    }
    assert Turn(y + x + z, w) == x + z + y by {
      assert (y + x + z)[..w] == y && (y + x + z)[w..] == x + z;
    }
  }

  /**
   * With three samples per frame, the second run of hidden bits is written
   * into channel 1, but the reader takes its second run from the last
   * channel, which the write leaves as it was.
   */
  lemma {:induction false} ThreeChannelsMisread(a: Frame, b: Frame, c: Frame, w: nat, k: nat, bits: Bits)
    requires |a| == |b| == |c| && w == 8 * |a| && w > 0 && k <= w && 2 * k <= |bits|
    ensures WriteFits(|a + b + c|, w, 2, k)
    ensures ReadFrame(WriteFrame(a + b + c, w, 2, k, bits), w, 2, k)[k..] == WordBits(c)[w - k..]
  {
    RotatedThree(a, b, c, w);
    var x := Hide(WordBits(a), k, bits);
    var y := Hide(WordBits(c), k, bits[k..]);
    WholeBytes(x, |a|);
    WholeBytes(y, |a|);
    WrittenThree(a, b, c, w, k, bits, x, y);
    RotatedThree(WordBytes(x), WordBytes(y), c, w);
    SecondRun(WordBytes(x) + WordBytes(y) + c, w, k, WordBits(WordBytes(x)), WordBits(c), WordBits(WordBytes(y)));
  }

  /** Writing a three-sample frame: channel 0 hides the first k bits, channel 1 takes the last channel's digits with the next k hidden. */
  lemma WrittenThree(a: Frame, b: Frame, c: Frame, w: nat, k: nat, bits: Bits, x: Bits, y: Bits)
    requires |a| == |b| == |c| && w == 8 * |a| && w > 0 && k <= w && 2 * k <= |bits|
    requires Rotated(a + b + c, w) == WordBits(a) + WordBits(c) + WordBits(b)
    requires x == Hide(WordBits(a), k, bits) && y == Hide(WordBits(c), k, bits[k..])
    ensures WriteFits(|a + b + c|, w, 2, k)
    ensures WriteFrame(a + b + c, w, 2, k, bits) == WordBytes(x) + WordBytes(y) + c
  {
    var r := Rotated(a + b + c, w);
    assert r[..w] == WordBits(a) && r[w..][..w] == WordBits(c);
    assert w / 8 == |a|;
    assert (a + b + c)[2 * (w / 8)..] == c;
  }

  /** The second run of digits the reader takes from a two-sample read is the second run of the rotated digits. */
  lemma SecondRun(f: Frame, w: nat, k: nat, x: Bits, y: Bits, z: Bits)
    requires 0 < w && 2 * w <= 8 * |f| && k <= w && |x| == w && |y| == w && Rotated(f, w) == x + y + z
    ensures ReadFrame(f, w, 2, k)[k..] == y[w - k..]
  {
    var r := Rotated(f, w);
    assert r[..w] == x && r[w..][..w] == y;
  }

  /** A three-channel frame of silence: two bits hidden, but the second one is not what is read back. */
  lemma ThreeChannelsCounterexample()
    ensures WriteFits(3, 8, 2, 1) && ReadFits(3, 8, 2, 1)
    ensures ReadFrame(WriteFrame([0, 0, 0], 8, 2, 1, [true, true]), 8, 2, 1) != [true, true]
  {
    ThreeChannelsMisread([0], [0], [0], 8, 1, [true, true]);
    assert [0 as bv8] + [0] + [0] == [0, 0, 0];
    assert ByteBits(0) == Zeros(7) + [false];
    assert WordBits([0]) == ByteBits(0);
  }

  /** The used samples read at their own places: the last k digits of channel 0, then those of channel 1. */
  function ReadSlots(frame: Frame, w: nat, used: SampleCount, k: nat): (bits: Bits)
    requires 0 < w && w % 8 == 0 && PerFrame(used, w) <= 8 * |frame| && k <= w
    ensures |bits| == PerFrame(used, k)
  {
    if used == 1 then SlotBits(frame, w, 0)[w - k..]
    else SlotBits(frame, w, 0)[w - k..] + SlotBits(frame, w, 1)[w - k..]
  }

  /** The used samples written at their own places, each hiding the next k stream bits; the rest of the frame is kept. */
  function WriteSlots(frame: Frame, w: nat, used: SampleCount, k: nat, bits: Bits): (f: Frame)
    requires 0 < w && w % 8 == 0 && PerFrame(used, w) <= 8 * |frame| && k <= w && PerFrame(used, k) <= |bits|
    ensures |f| == |frame|
  {
    var first := WordBytes(Hide(SlotBits(frame, w, 0), k, bits));
    if used == 1 then first + frame[w / 8..]
    else first + WordBytes(Hide(SlotBits(frame, w, 1), k, bits[k..])) + frame[2 * (w / 8)..]
  }

  /** Reading the used samples at their own places gives back what was written there, whatever the number of channels. */
  lemma {:induction false} SlotsRoundTrip(frame: Frame, w: nat, used: SampleCount, k: nat, bits: Bits)
    requires 0 < w && w % 8 == 0 && PerFrame(used, w) <= 8 * |frame| && k <= w && PerFrame(used, k) <= |bits|
    ensures ReadSlots(WriteSlots(frame, w, used, k, bits), w, used, k) == bits[..PerFrame(used, k)]
  {
    WrittenSlots(frame, w, used, k, bits);
    HiddenTail(SlotBits(frame, w, 0), k, bits);
    if used == 2 {
      HiddenTail(SlotBits(frame, w, 1), k, bits[k..]);
      TakeTwo(bits, k);
    }
  }

  /** After writing at their own places, each used sample holds its digits with the next k stream bits hidden. */
  lemma WrittenSlots(frame: Frame, w: nat, used: SampleCount, k: nat, bits: Bits)
    requires 0 < w && w % 8 == 0 && PerFrame(used, w) <= 8 * |frame| && k <= w && PerFrame(used, k) <= |bits|
    ensures SlotBits(WriteSlots(frame, w, used, k, bits), w, 0) == Hide(SlotBits(frame, w, 0), k, bits)
    ensures used == 2 ==> SlotBits(WriteSlots(frame, w, used, k, bits), w, 1) == Hide(SlotBits(frame, w, 1), k, bits[k..])
  {
    var f := WriteSlots(frame, w, used, k, bits);
    var x := Hide(SlotBits(frame, w, 0), k, bits);
    if used == 1 {
      WordAt(f, WordBytes(x), frame[w / 8..], x, w);
    } else {
      var y := Hide(SlotBits(frame, w, 1), k, bits[k..]);
      WordPairAt(f, WordBytes(x), WordBytes(y), frame[2 * (w / 8)..], x, y, w);
    }
  }

  /** A word of w digits written at the frame start reads back as sample 0. */
  lemma WordAt(f: Frame, word: seq<bv8>, rest: seq<bv8>, x: Bits, w: nat)
    requires 0 < w && w % 8 == 0 && |x| == w && |x| % 8 == 0 && word == WordBytes(x) && f == word + rest
    ensures PerFrame(1, w) <= 8 * |f| && SlotBits(f, w, 0) == x
  {
    WholeBytes(x, w / 8);
    assert f[..w / 8] == word;
  }

  /** Two words of w digits written at the frame start read back as samples 0 and 1. */
  lemma WordPairAt(f: Frame, first: seq<bv8>, second: seq<bv8>, rest: seq<bv8>, x: Bits, y: Bits, w: nat)
    requires 0 < w && w % 8 == 0 && |x| == w && |y| == w && |x| % 8 == 0 && |y| % 8 == 0
    requires first == WordBytes(x) && second == WordBytes(y) && f == first + second + rest
    ensures PerFrame(2, w) <= 8 * |f| && SlotBits(f, w, 0) == x && SlotBits(f, w, 1) == y
  {
    var b := w / 8;
    WholeBytes(x, b);
    WholeBytes(y, b);
    assert f[..b] == first;
    assert f[b..2 * b] == second;
  }

  /** On a frame of exactly the used samples, the rotating reader and writer read and write the samples at their own places. */
  lemma SlotsAgree(frame: Frame, w: nat, used: SampleCount, k: nat, bits: Bits)
    requires Interleaved(|frame|, w, used) && k <= w && PerFrame(used, k) <= |bits|
    ensures ReadFrame(frame, w, used, k) == ReadSlots(frame, w, used, k)
    ensures WriteFrame(frame, w, used, k, bits) == WriteSlots(frame, w, used, k, bits)
  {
    Geometry(|frame|, w, used);
    RotatedSlots(frame, w, used);
    ReadFrameSamples(frame, w, used, k);
  }
}
