/**
 * The audio codec (WavEncode and WavDecode) over the frames of a file.
 *
 * The bytes to hide become one bit stream, eight digits per byte. Frame p,
 * counted from the first sample, hides key[p mod n] bits in each sample it
 * uses (PerFrame(used, k) in all). The encoder writes whole frames while the
 * stream holds enough bits for the next one; at the end it pads the stream
 * with '0' to a multiple of the next frame's share and writes the rest out.
 * The decoder reads frames until it has at least the number of bytes asked
 * for, turning every eight digits into a byte after each frame, and returns
 * every byte it has made, which can be more than asked for.
 *
 * A frame past the end of the file, a sample size the frame loops cannot
 * handle, a key entry larger than a sample, an empty key, and the division
 * by zero of the padding step all make the program throw; that is the
 * outcome None.
 */
module WaveCodec {
  import opened Wrappers
  import opened BitStrings
  import opened WaveHeader
  import opened WaveFrame
  import opened Streams

  /** What the frame loops take from the header: BitsPerSample and the samples used per frame. */
  datatype Layout = Layout(w: nat, used: SampleCount)

  /** The layout of a parsed header. */
  function LayoutOf(h: Header): (l: Layout)
    ensures l.w == h.bitsPerSample && (l.used == 1 <==> h.numberOfChannels == 1)
  {
    Layout(h.bitsPerSample, SamplesUsed(h.numberOfChannels))
  }

  /** The bits per sample of frame p: the key is used cyclically from the first frame on. */
  function KeyAt(key: seq<bv8>, p: nat): nat
    requires |key| > 0
  {
    key[p % |key|] as nat
  }

  /** The stream bits frame p takes. */
  function Share(l: Layout, key: seq<bv8>, p: nat): nat
    requires |key| > 0
  {
    PerFrame(l.used, KeyAt(key, p))
  }

  // ---------------------------------------------------------------------------
  // The frames of the audio data

  /** The complete frames of `size` bytes the audio data holds, in order; none when size is 0. */
  function Frames(audio: seq<bv8>, size: nat): (frames: seq<Frame>)
    ensures forall p :: 0 <= p < |frames| ==> |frames[p]| == size
    decreases |audio|
  {
    if size == 0 || |audio| < size then [] else [audio[..size]] + Frames(audio[size..], size)
  }

  /** The bytes after the last complete frame. */
  function Leftover(audio: seq<bv8>, size: nat): (rest: seq<bv8>)
    ensures size > 0 ==> |rest| < size
    decreases |audio|
  {
    if size == 0 || |audio| < size then audio else Leftover(audio[size..], size)
  }

  /** The frames written back one after the other. */
  function Flatten(frames: seq<Frame>): seq<bv8>
  {
    if |frames| == 0 then [] else frames[0] + Flatten(frames[1..])
  }

  // ---------------------------------------------------------------------------
  // The encoder

  /** The encoder's state: the frames so far, the bits not yet written, the next frame. */
  datatype Cursor = Cursor(frames: seq<Frame>, stream: Bits, pos: nat)

  /** The next frame exists and its loops can hide the share of the next frame in it. */
  predicate Writable(c: Cursor, l: Layout, key: seq<bv8>)
    requires |key| > 0
  {
    c.pos < |c.frames| && WriteFits(|c.frames[c.pos]|, l.w, l.used, KeyAt(key, c.pos))
  }

  /** The cursor after writing the next frame with its share of the stream. */
  function Advance(c: Cursor, l: Layout, key: seq<bv8>): (next: Cursor)
    requires |key| > 0 && Writable(c, l, key) && Share(l, key, c.pos) <= |c.stream|
    ensures |next.frames| == |c.frames| && next.pos == c.pos + 1
  {
    var k := KeyAt(key, c.pos);
    Cursor(c.frames[c.pos := WriteFrame(c.frames[c.pos], l.w, l.used, k, c.stream)], c.stream[PerFrame(l.used, k)..], c.pos + 1)
  }

  /**
   * The inner loop of the encoder: while the stream holds the bits the next
   * frame takes, that frame is written. None when the frames run out or a
   * frame cannot be written.
   */
  function Fill(c: Cursor, l: Layout, key: seq<bv8>): Option<Cursor>
    requires |key| > 0
    decreases |c.frames| - c.pos
  {
    if |c.stream| < Share(l, key, c.pos) then Some(c)
    else if !Writable(c, l, key) then None
    else Fill(Advance(c, l, key), l, key)
  }

  /** The main loop of the encoder: each byte's digits are appended to the stream, then whole frames are written. */
  function MainPhase(frames: seq<Frame>, l: Layout, key: seq<bv8>, data: seq<bv8>): Option<Cursor>
    requires |key| > 0
  {
    if |data| == 0 then Some(Cursor(frames, [], 0))
    else match MainPhase(frames, l, key, data[..|data| - 1])
      case None => None
      case Some(c) => Fill(Cursor(c.frames, c.stream + ByteBits(data[|data| - 1]), c.pos), l, key)
  }

  /**
   * The last loop of the encoder: frames are written while the stream is not
   * empty; a stream shorter than the next frame's share makes Substring throw.
   */
  function Drain(c: Cursor, l: Layout, key: seq<bv8>): Option<Cursor>
    requires |key| > 0
    decreases |c.frames| - c.pos
  {
    if |c.stream| == 0 then Some(c)
    else if !Writable(c, l, key) || |c.stream| < Share(l, key, c.pos) then None
    else Drain(Advance(c, l, key), l, key)
  }

  /**
   * The frames WavEncode produces: the main loop, then the stream padded with
   * '0' to a multiple of the next frame's share (a share of 0 divides by
   * zero), then the padded rest written out. An empty key divides by zero.
   */
  function Encoded(frames: seq<Frame>, l: Layout, key: seq<bv8>, data: seq<bv8>): Option<seq<Frame>>
  {
    if |key| == 0 then None
    else match MainPhase(frames, l, key, data)
      case None => None
      case Some(c) =>
        var unit := Share(l, key, c.pos);
        if unit == 0 then None
        else
          var d := Drain(Cursor(c.frames, c.stream + Zeros(PadBits(|c.stream|, unit)), c.pos), l, key);
          if d.None? then None else Some(d.value.frames)
  }

  /** The file WavEncode writes: the bytes before the samples, the frames written, and the bytes after the last frame. */
  function EncodedFile(file: seq<bv8>, h: Header, key: seq<bv8>, data: seq<bv8>): Option<seq<bv8>>
    requires h.dataStartPosition <= |file|
  {
    var audio := file[h.dataStartPosition..];
    match Encoded(Frames(audio, h.blockAlignBytes), LayoutOf(h), key, data)
    case None => None
    case Some(frames) => Some(file[..h.dataStartPosition] + Flatten(frames) + Leftover(audio, h.blockAlignBytes))
  }

  // ---------------------------------------------------------------------------
  // The decoder

  /**
   * The read loop from frame pos on, with `found` bytes made and `str`
   * digits pending: it stops once at least len bytes are made; otherwise the
   * frame's digits are appended and every complete byte is taken off.
   */
  function DecodeFrom(frames: seq<Frame>, l: Layout, key: seq<bv8>, len: nat, found: seq<bv8>, str: Bits, pos: nat): Option<seq<bv8>>
    requires |key| > 0
    decreases |frames| - pos
  {
    if |found| >= len then Some(found)
    else if pos >= |frames| || !ReadFits(|frames[pos]|, l.w, l.used, KeyAt(key, pos)) then None
    else
      var e := Emit(str + ReadFrame(frames[pos], l.w, l.used, KeyAt(key, pos)));
      DecodeFrom(frames, l, key, len, found + e.0, e.1, pos + 1)
  }

  /** WavDecode: the bytes made once there are at least len of them; None when the program throws. */
  function Decoded(frames: seq<Frame>, l: Layout, key: seq<bv8>, len: nat): Option<seq<bv8>>
  {
    if len == 0 then Some([])
    else if |key| == 0 then None
    else DecodeFrom(frames, l, key, len, [], [], 0)
  }

  /** WavDecode on a file whose header has been read. */
  function DecodedFile(file: seq<bv8>, h: Header, key: seq<bv8>, len: nat): Option<seq<bv8>>
    requires h.dataStartPosition <= |file|
  {
    Decoded(Frames(file[h.dataStartPosition..], h.blockAlignBytes), LayoutOf(h), key, len)
  }

  // ---------------------------------------------------------------------------
  // Properties of the frames

  /** The frames and the bytes after them make up the audio data. */
  lemma {:induction false} FlattenFrames(audio: seq<bv8>, size: nat)
    ensures Flatten(Frames(audio, size)) + Leftover(audio, size) == audio
    decreases |audio|
  {
    if size > 0 && |audio| >= size {
      var fs := Frames(audio, size);
      assert fs[1..] == Frames(audio[size..], size);
      FlattenFrames(audio[size..], size);
      assert audio[..size] + audio[size..] == audio;
    }
  }

  /** Cutting equal frames written back, followed by fewer bytes than a frame, gives the frames and those bytes. */
  lemma {:induction false} FramesOfFlatten(fs: seq<Frame>, size: nat, rest: seq<bv8>)
    requires size > 0 && |rest| < size
    requires forall p :: 0 <= p < |fs| ==> |fs[p]| == size
    ensures Frames(Flatten(fs) + rest, size) == fs && Leftover(Flatten(fs) + rest, size) == rest
    decreases |fs|
  {
    if |fs| > 0 {
      var all := Flatten(fs) + rest;
      assert all == fs[0] + (Flatten(fs[1..]) + rest);
      assert all[..size] == fs[0] && all[size..] == Flatten(fs[1..]) + rest;
      FramesOfFlatten(fs[1..], size, rest);
      assert [fs[0]] + fs[1..] == fs;
    }
  }

  /** The frames written back are the first p of them, then the others. */
  lemma {:induction false} FlattenSplit(fs: seq<Frame>, p: nat)
    requires p <= |fs|
    ensures Flatten(fs) == Flatten(fs[..p]) + Flatten(fs[p..])
    decreases p
  {
    if p == 0 {
      assert fs[..0] == [] && fs[0..] == fs;
    } else {
      FlattenSplit(fs[1..], p - 1);
      assert fs[1..][..p - 1] == fs[..p][1..] && fs[1..][p - 1..] == fs[p..];
    }
  }

  /** One more frame written back goes at the end. */
  lemma FlattenSnoc(fs: seq<Frame>, f: Frame)
    ensures Flatten(fs + [f]) == Flatten(fs) + f
  {
    FlattenSplit(fs + [f], |fs|);
    assert (fs + [f])[..|fs|] == fs && (fs + [f])[|fs|..] == [f];
    assert Flatten([f]) == f + Flatten([]);
  }

  /** The frames of audio data with a frame cut off in front are the other frames. */
  lemma FramesAfter(audio: seq<bv8>, size: nat)
    requires 0 < size <= |audio|
    ensures Frames(audio, size) == [audio[..size]] + Frames(audio[size..], size)
    ensures Leftover(audio, size) == Leftover(audio[size..], size)
  {
  }

  /** Once the main loop fails on a prefix of the data it fails on the whole. */
  lemma {:induction false} MainPhaseFails(frames: seq<Frame>, l: Layout, key: seq<bv8>, data: seq<bv8>, i: nat)
    requires |key| > 0 && i <= |data|
    requires MainPhase(frames, l, key, data[..i]) == None
    ensures MainPhase(frames, l, key, data) == None
    decreases |data| - i
  {
    if i < |data| {
      assert data[..i + 1][..i] == data[..i];
      MainPhaseFails(frames, l, key, data, i + 1);
    } else {
      assert data[..i] == data;
    }
  }

  /** One step of the inner encoder loop, once the stream holds the next frame's share. */
  lemma FillStep(c: Cursor, l: Layout, key: seq<bv8>)
    requires |key| > 0 && Share(l, key, c.pos) <= |c.stream|
    ensures !Writable(c, l, key) ==> Fill(c, l, key) == None
    ensures Writable(c, l, key) ==> Fill(c, l, key) == Fill(Advance(c, l, key), l, key)
  {
  }

  /** One step of the last encoder loop, while the stream is not empty. */
  lemma DrainStep(c: Cursor, l: Layout, key: seq<bv8>)
    requires |key| > 0 && |c.stream| > 0
    ensures !Writable(c, l, key) || |c.stream| < Share(l, key, c.pos) ==> Drain(c, l, key) == None
    ensures Writable(c, l, key) && Share(l, key, c.pos) <= |c.stream| ==> Drain(c, l, key) == Drain(Advance(c, l, key), l, key)
  {
  }

  /** The read loop fails at a frame that is missing or cannot be read while fewer than len bytes are made. */
  lemma DecodeStop(frames: seq<Frame>, l: Layout, key: seq<bv8>, len: nat, found: seq<bv8>, str: Bits, pos: nat)
    requires |key| > 0 && |found| < len
    requires pos >= |frames| || !ReadFits(|frames[pos]|, l.w, l.used, KeyAt(key, pos))
    ensures DecodeFrom(frames, l, key, len, found, str, pos) == None
  {
  }

  /** One step of the read loop: frame pos is read and every complete byte is taken off. */
  lemma DecodeStep(frames: seq<Frame>, l: Layout, key: seq<bv8>, len: nat, found: seq<bv8>, str: Bits, pos: nat,
                   frame: Frame, found': seq<bv8>, str': Bits, pos': nat)
    requires |key| > 0 && |found| < len && pos < |frames| && frames[pos] == frame && pos' == pos + 1
    requires ReadFits(|frame|, l.w, l.used, KeyAt(key, pos))
    requires found' == found + Emit(str + ReadFrame(frame, l.w, l.used, KeyAt(key, pos))).0
    requires str' == Emit(str + ReadFrame(frame, l.w, l.used, KeyAt(key, pos))).1
    ensures DecodeFrom(frames, l, key, len, found, str, pos) == DecodeFrom(frames, l, key, len, found', str', pos')
  {
  }

  /** One pass of the main encoder loop: byte i's digits are appended and whole frames are written. */
  lemma MainPhaseNext(frames: seq<Frame>, l: Layout, key: seq<bv8>, data: seq<bv8>, i: nat, c: Cursor)
    requires |key| > 0 && i < |data| && MainPhase(frames, l, key, data[..i]) == Some(c)
    ensures MainPhase(frames, l, key, data[..i + 1]) == Fill(Cursor(c.frames, c.stream + ByteBits(data[i]), c.pos), l, key)
  {
    assert data[..i + 1][..i] == data[..i];
  }

  /** The cursor after the next frame is written, given the frame written and the stream left. */
  lemma AdvanceTo(c: Cursor, l: Layout, key: seq<bv8>, f: Frame, rest: Bits, next: seq<Frame>, pos': nat)
    requires |key| > 0 && Writable(c, l, key) && Share(l, key, c.pos) <= |c.stream|
    requires f == WriteFrame(c.frames[c.pos], l.w, l.used, KeyAt(key, c.pos), c.stream)
    requires rest == c.stream[Share(l, key, c.pos)..] && next == c.frames[c.pos := f] && pos' == c.pos + 1
    ensures Advance(c, l, key) == Cursor(next, rest, pos')
  {
  }
}
