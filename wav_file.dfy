/**
 * The WAV class: the header fields the constructor reads and the bytes of the
 * file, which WavEncode changes in place frame by frame. Each method is
 * proved against the functions of WaveHeader and WaveCodec.
 *
 * The file is given as a byte array (the constructor's File.ReadAllBytes and
 * the encoder's File.WriteAllBytes are left to the caller). The outcome of a
 * run that throws is `null` from Open, `false` from WavEncode and None from
 * WavDecode.
 */
module WaveFile {
  import opened Wrappers
  import opened ByteCodec
  import opened BitStrings
  import opened LittleEndian
  import opened WaveHeader
  import opened WaveFrame
  import opened WaveCodec
  import opened Streams
  import opened Sequences

  /**
   * How far the encoder has come: the bytes before the sample position are
   * the bytes before the samples followed by the frames written so far, the
   * bytes from the sample position on are the original ones, and the frames
   * still to come are the original frames from there on.
   */
  ghost predicate Laid(orig: seq<bv8>, start: nat, size: nat, now: seq<bv8>, fs: seq<Frame>, pos: nat, sp: nat)
  {
    start <= sp <= |now| == |orig| && pos <= |fs|
    && now[..sp] == orig[..start] + Flatten(fs[..pos])
    && now[sp..] == orig[sp..]
    && Frames(orig[sp..], size) == fs[pos..]
    && Leftover(orig[sp..], size) == Leftover(orig[start..], size)
  }

  /** Nothing is written yet when the encoder starts. */
  lemma LaidStart(orig: seq<bv8>, start: nat, size: nat)
    requires start <= |orig|
    ensures Laid(orig, start, size, orig, Frames(orig[start..], size), 0, start)
  {
    assert orig[..start] + Flatten([]) == orig[..start];
  }

  /** When no frame fits between the sample position and the end, every frame has been written. */
  lemma LaidMissing(orig: seq<bv8>, start: nat, size: nat, now: seq<bv8>, fs: seq<Frame>, pos: nat, sp: nat)
    requires Laid(orig, start, size, now, fs, pos, sp)
    requires size == 0 || sp + size > |now|
    ensures pos == |fs|
  {
    assert |fs[pos..]| == 0;
  }

  /** Otherwise the next frame is the one at the sample position. */
  lemma LaidFrame(orig: seq<bv8>, start: nat, size: nat, now: seq<bv8>, fs: seq<Frame>, pos: nat, sp: nat)
    requires Laid(orig, start, size, now, fs, pos, sp)
    requires 0 < size && sp + size <= |now|
    ensures pos < |fs| && fs[pos] == now[sp..sp + size]
    ensures Frames(orig[sp + size..], size) == fs[pos + 1..]
    ensures Leftover(orig[sp + size..], size) == Leftover(orig[sp..], size)
  {
    var audio := orig[sp..];
    FramesAfter(audio, size);
    assert audio[size..] == orig[sp + size..];
    assert fs[pos..][0] == fs[pos] && fs[pos..][1..] == fs[pos + 1..];
    assert now[sp..][..size] == now[sp..sp + size];
  }

  /** Writing the next frame in place moves the sample position one frame on. */
  lemma LaidNext(orig: seq<bv8>, start: nat, size: nat, now: seq<bv8>, fs: seq<Frame>, pos: nat, sp: nat,
                 f: Frame, after: seq<bv8>, fs': seq<Frame>, pos': nat, sp': nat)
    requires Laid(orig, start, size, now, fs, pos, sp)
    requires 0 < size && sp + size <= |now| && |f| == size
    requires after == now[..sp] + f + now[sp + size..]
    requires pos < |fs| && fs' == fs[pos := f] && pos' == pos + 1 && sp' == sp + size
    ensures Laid(orig, start, size, after, fs', pos', sp')
  {
    LaidFrame(orig, start, size, now, fs, pos, sp);
    var next := fs[pos := f];
    assert next[..pos + 1] == fs[..pos] + [f];
    FlattenSnoc(fs[..pos], f);
    assert after[..sp + size] == now[..sp] + f;
    assert after[sp + size..] == now[sp + size..];
    assert next[pos + 1..] == fs[pos + 1..];
  }

  /** Once the encoder stops, the bytes are the bytes before the samples, all frames and the bytes after them. */
  lemma LaidEnd(orig: seq<bv8>, start: nat, size: nat, now: seq<bv8>, fs: seq<Frame>, pos: nat, sp: nat)
    requires Laid(orig, start, size, now, fs, pos, sp)
    ensures now == orig[..start] + Flatten(fs) + Leftover(orig[start..], size)
  {
    var rest, tail := Flatten(fs[pos..]), Leftover(orig[start..], size);
    FlattenSplit(fs, pos);
    FlattenFrames(orig[sp..], size);
    assert now[sp..] == rest + tail;
    Regroup(now, sp, orig[..start], Flatten(fs[..pos]), rest, tail);
  }

  /** The decoder's view of the frames: those from the sample position on are the frames still to read. */
  lemma FramesNext(file: seq<bv8>, size: nat, fs: seq<Frame>, pos: nat, sp: nat, sp': nat)
    requires sp <= |file| && pos <= |fs| && Frames(file[sp..], size) == fs[pos..] && sp' == sp + size
    ensures (size == 0 || sp' > |file|) ==> pos == |fs|
    ensures 0 < size && sp' <= |file| ==>
      pos < |fs| && fs[pos] == file[sp..sp'] && Frames(file[sp'..], size) == fs[pos + 1..]
  {
    if 0 < size && sp + size <= |file| {
      FramesAfter(file[sp..], size);
      assert file[sp..][size..] == file[sp + size..];
      assert fs[pos..][1..] == fs[pos + 1..];
    } else {
      assert |fs[pos..]| == 0;
    }
  }

  /** Writing back one more piece of a sample: the byte of the eight digits before the c bytes written so far. */
  lemma WordBytesStep(s: Bits, bitIndex: nat, c: nat)
    requires 8 <= bitIndex <= |s| && |s| - bitIndex == 8 * c
    ensures |s[bitIndex..]| % 8 == 0 && |s[bitIndex - 8..]| % 8 == 0 && |WordBytes(s[bitIndex..])| == c
    ensures WordBytes(s[bitIndex - 8..]) == WordBytes(s[bitIndex..]) + [ToByte(s[bitIndex - 8..bitIndex])]
  {
    WholeBytes(s[bitIndex..], c);
    WholeBytes(s[bitIndex - 8..], c + 1);
    assert s[bitIndex - 8..][8..] == s[bitIndex..];
    assert s[bitIndex - 8..][..8] == s[bitIndex - 8..bitIndex];
  }

  /** Storing one more byte after the bytes written so far. */
  lemma SpliceStep(orig: seq<bv8>, before: seq<bv8>, after: seq<bv8>, position: nat, next: nat, done: seq<bv8>, b: bv8)
    requires next == position + |done| && next < |orig| && before == orig[..position] + done + orig[next..]
    requires after == before[next := b]
    ensures after == orig[..position] + (done + [b]) + orig[next + 1..]
  {
    assert after == before[..next] + [b] + before[next + 1..];
    assert before[next + 1..] == orig[next + 1..];
  }

  /** A sample written right after the bytes written so far. */
  lemma SpliceNext(orig: seq<bv8>, start: nat, done: seq<bv8>, piece: seq<bv8>, p1: nat, p2: nat,
                   before: seq<bv8>, after: seq<bv8>)
    requires p1 == start + |done| && p2 == p1 + |piece| && p2 <= |orig|
    requires before == orig[..start] + done + orig[p1..]
    requires after == before[..p1] + piece + before[p2..]
    ensures after == orig[..start] + (done + piece) + orig[p2..]
  {
    assert before[..p1] == orig[..start] + done;
    assert before[p2..] == orig[p2..];
  }

  /** One used sample after hiding k stream bits, as the write-back loop stores it: little-endian bytes. */
  function Sample(r: Bits, w: nat, k: nat, bits: Bits): (bytes: seq<bv8>)
    requires w % 8 == 0 && w <= |r| && k <= w && k <= |bits|
    ensures 8 * |bytes| == w
  {
    WordBytes(Hide(r[..w], k, bits))
  }

  /** The bytes the channel loop of the encoder writes: the used samples of the rotated digits, one after the other. */
  function Stored(r: Bits, w: nat, used: SampleCount, k: nat, bits: Bits): (stored: seq<bv8>)
    requires w % 8 == 0 && PerFrame(used, w) <= |r| && k <= w && PerFrame(used, k) <= |bits|
    ensures 8 * |stored| == PerFrame(used, w)
  {
    Sample(r, w, k, bits) + (if used == 2 then Sample(r[w..], w, k, bits[k..]) else [])
  }

  /** The write-back loop: the digits are cut into bytes from the end and stored from `position` on. */
  method StoreSample(a: array<bv8>, position: nat, channelBits: Bits) returns (next: nat)
    requires |channelBits| % 8 == 0 && 8 * position + |channelBits| <= 8 * a.Length
    modifies a
    ensures next == position + |WordBytes(channelBits)|
    ensures a[..] == old(a[..position]) + WordBytes(channelBits) + old(a[next..])
  {
    ghost var o := a[..];
    ghost var m := |channelBits| / 8;
    ghost var n := m;
    next := position;
    var bitIndex := |channelBits|;
    while bitIndex > 0
      invariant 0 <= n <= m && bitIndex == 8 * n && 8 * m == |channelBits|
      invariant |channelBits[bitIndex..]| % 8 == 0 && next == position + (m - n)
      invariant a[..] == o[..position] + WordBytes(channelBits[bitIndex..]) + o[next..]
    {
      var piece := channelBits[bitIndex - 8..bitIndex];
      WordBytesStep(channelBits, bitIndex, m - n);
      ghost var before := a[..];
      a[next] := ToByte(piece);
      SpliceStep(o, before, a[..], position, next, WordBytes(channelBits[bitIndex..]), ToByte(piece));
      next := next + 1;
      bitIndex := bitIndex - 8;
      n := n - 1;
    }
    assert channelBits[0..] == channelBits;
  }

  /** One pass of the channel loop of the encoder: the sample keeps its first digits, takes k stream bits and is written back. */
  method HideSample(a: array<bv8>, w: nat, position: nat, sampleBits: Bits, k: nat, dataBitBuffer: Bits)
    returns (next: nat, bitsAfter: Bits, bufferAfter: Bits, ghost piece: seq<bv8>)
    requires w % 8 == 0 && w <= |sampleBits| && k <= w && k <= |dataBitBuffer|
    requires 8 * position + w <= 8 * a.Length
    modifies a
    ensures piece == Sample(sampleBits, w, k, dataBitBuffer) && next == position + |piece|
    ensures a[..] == old(a[..position]) + piece + old(a[next..])
    ensures bitsAfter == sampleBits[w..] && bufferAfter == dataBitBuffer[k..]
  {
    var channelBits := sampleBits[..w];
    channelBits := channelBits[..|channelBits| - k] + dataBitBuffer[..k];
    bufferAfter := dataBitBuffer[k..];
    next := StoreSample(a, position, channelBits);
    piece := WordBytes(channelBits);
    bitsAfter := sampleBits[w..];
  }

  /**
   * The channel loop of the encoder: the first used sample of the rotated
   * digits hides the first k stream bits and is written at the frame
   * start, the second (in a file of more than one channel) hides the next k
   * and is written right after it.
   */
  method HideSamples(a: array<bv8>, w: nat, samplePosition: nat, sampleBits: Bits, used: SampleCount, k: nat, dataBitBuffer: Bits)
    returns (rest: Bits)
    requires 0 < w && w % 8 == 0 && PerFrame(used, w) <= |sampleBits|
    requires k <= w && PerFrame(used, k) <= |dataBitBuffer|
    requires 8 * samplePosition + PerFrame(used, w) <= 8 * a.Length
    modifies a
    ensures rest == dataBitBuffer[PerFrame(used, k)..]
    ensures var stored := Stored(sampleBits, w, used, k, dataBitBuffer);
      a[..] == old(a[..samplePosition]) + stored + old(a[samplePosition + |stored|..])
  {
    ghost var o := a[..];
    ghost var done: seq<bv8> := [];
    var position, bits := samplePosition, sampleBits;
    rest := dataBitBuffer;
    for channel := 0 to used
      invariant position == samplePosition + |done| && position <= |o| && a[..] == o[..samplePosition] + done + o[position..]
      invariant channel == 0 ==> done == [] && bits == sampleBits && rest == dataBitBuffer
      invariant channel == 1 ==> done == Sample(sampleBits, w, k, dataBitBuffer) && bits == sampleBits[w..] && rest == dataBitBuffer[k..]
      invariant channel == 2 ==> done == Stored(sampleBits, w, 2, k, dataBitBuffer) && rest == dataBitBuffer[2 * k..]
    {
      ghost var before, from, piece := a[..], position, [];
      if channel == 1 {
        assert dataBitBuffer[k..][k..] == dataBitBuffer[2 * k..];
      }
      position, bits, rest, piece := HideSample(a, w, position, bits, k, rest);
      SpliceNext(o, samplePosition, done, piece, from, position, before, a[..]);
      done := done + piece;
    }
  }

  /** The rotation loop: the first w digits move to the end, totalSamples times (not at all when that is negative). */
  method Rotate(sampleBits: Bits, w: nat, totalSamples: int) returns (r: Bits)
    requires w <= |sampleBits|
    ensures r == Turned(sampleBits, w, if totalSamples < 0 then 0 else totalSamples)
  {
    r := sampleBits;
    var i := 0;
    while i < totalSamples
      invariant 0 <= i && (totalSamples >= 0 ==> i <= totalSamples) && (totalSamples < 0 ==> i == 0)
      invariant r == Turned(sampleBits, w, i)
    {
      r := r[w..] + r[..w];
      i := i + 1;
    }
  }

  /** The frame read and the rotation loop: the frame's digits in the order the channel loops take them. */
  method ReadRotated(a: array<bv8>, samplePosition: nat, blockAlignBytes: nat, w: nat) returns (sampleBits: Bits)
    requires samplePosition + blockAlignBytes <= a.Length && 0 < w <= 8 * blockAlignBytes
    ensures sampleBits == Rotated(a[samplePosition..samplePosition + blockAlignBytes], w)
  {
    sampleBits := ReadWord(a, samplePosition, blockAlignBytes);
    var totalSamples := blockAlignBytes * 8 / w - 1;
    sampleBits := Rotate(sampleBits, w, totalSamples);
  }

  /** The frame WriteFrame makes is the bytes the channel loop stores, then the rest of the frame. */
  lemma WriteFrameStored(frame: Frame, w: nat, used: SampleCount, k: nat, bits: Bits)
    requires WriteFits(|frame|, w, used, k) && PerFrame(used, k) <= |bits|
    ensures var stored := Stored(Rotated(frame, w), w, used, k, bits);
      |stored| <= |frame| && WriteFrame(frame, w, used, k, bits) == stored + frame[|stored|..]
  {
    var r := Rotated(frame, w);
    var first := Sample(r, w, k, bits);
    assert 8 * |first| == w;
    if used == 2 {
      assert r[w..][..w] == r[w..][..w];
      var second := Sample(r[w..], w, k, bits[k..]);
      assert first + second + frame[2 * (w / 8)..] == (first + second) + frame[|first + second|..];
    }
  }

  /** Bytes stored from the start of a frame leave the rest of the frame and the bytes after it as they were. */
  lemma SpliceFrame(o: seq<bv8>, sp: nat, size: nat, stored: seq<bv8>, after: seq<bv8>)
    requires sp + size <= |o| && |stored| <= size
    requires after == o[..sp] + stored + o[sp + |stored|..]
    ensures after == o[..sp] + (stored + o[sp..sp + size][|stored|..]) + o[sp + size..]
  {
    SliceJoin(o, sp, |stored|, sp + size);
  }

  /**
   * One frame of the encoder: read, rotated, its used samples hide
   * PerFrame(used, k) stream bits and are written back in place; the bytes
   * outside the frame are unchanged.
   */
  method WriteFrameAt(a: array<bv8>, samplePosition: nat, blockAlignBytes: nat, w: nat, used: SampleCount, k: nat,
                      dataBitBuffer: Bits) returns (rest: Bits)
    requires samplePosition + blockAlignBytes <= a.Length && WriteFits(blockAlignBytes, w, used, k)
    requires PerFrame(used, k) <= |dataBitBuffer|
    modifies a
    ensures a[..] == old(a[..])[..samplePosition]
      + WriteFrame(old(a[..])[samplePosition..samplePosition + blockAlignBytes], w, used, k, dataBitBuffer)
      + old(a[..])[samplePosition + blockAlignBytes..]
    ensures rest == dataBitBuffer[PerFrame(used, k)..]
  {
    ghost var o := a[..];
    ghost var frame := a[samplePosition..samplePosition + blockAlignBytes];
    var sampleBits := ReadRotated(a, samplePosition, blockAlignBytes, w);
    WriteFrameStored(frame, w, used, k, dataBitBuffer);
    rest := HideSamples(a, w, samplePosition, sampleBits, used, k, dataBitBuffer);
    SpliceFrame(o, samplePosition, blockAlignBytes, Stored(sampleBits, w, used, k, dataBitBuffer), a[..]);
  }

  /**
   * One frame of the decoder: read, rotated, and the last k digits of each
   * used sample appended to the digits pending.
   */
  method ReadFrameAt(a: array<bv8>, samplePosition: nat, blockAlignBytes: nat, w: nat, used: SampleCount, k: nat,
                     extractBitBuffer: Bits) returns (buffer: Bits)
    requires samplePosition + blockAlignBytes <= a.Length && ReadFits(blockAlignBytes, w, used, k)
    ensures buffer == extractBitBuffer + ReadFrame(a[samplePosition..samplePosition + blockAlignBytes], w, used, k)
  {
    var sampleBits := ReadRotated(a, samplePosition, blockAlignBytes, w);
    ghost var r := sampleBits;
    buffer := extractBitBuffer;
    for channel := 0 to used
      invariant channel == 0 ==> buffer == extractBitBuffer && sampleBits == r
      invariant channel == 1 ==> buffer == extractBitBuffer + r[..w][w - k..] && sampleBits == r[w..]
      invariant channel == 2 ==> buffer == extractBitBuffer + (r[..w][w - k..] + r[w..][..w][w - k..])
    {
      var channelBits := sampleBits[..w];
      buffer := buffer + channelBits[|channelBits| - k..];
      sampleBits := sampleBits[w..];
    }
  }

  class Wav {
    var NumberOfChannels: nat
    var BlockAlignBytes: nat
    var BitsPerSample: nat
    var DataStartPosition: nat
    var AudioDataLength: nat
    var wavData: array<bv8>

    /** The fields the constructor read. */
    function Header(): (h: Header)
      reads this
      ensures h.numberOfChannels == NumberOfChannels && h.blockAlignBytes == BlockAlignBytes
      ensures h.bitsPerSample == BitsPerSample && h.dataStartPosition == DataStartPosition
      ensures h.audioDataLength == AudioDataLength
    {
      WaveHeader.Header(NumberOfChannels, BlockAlignBytes, BitsPerSample, DataStartPosition, AudioDataLength)
    }

    /** The samples start within the file. */
    ghost predicate Valid()
      reads this
    {
      DataStartPosition <= wavData.Length
    }

    constructor (channels: nat, blockAlign: nat, bits: nat, start: nat, length: nat, data: array<bv8>)
      ensures NumberOfChannels == channels && BlockAlignBytes == blockAlign && BitsPerSample == bits
      ensures DataStartPosition == start && AudioDataLength == length && wavData == data
    {
      NumberOfChannels, BlockAlignBytes, BitsPerSample := channels, blockAlign, bits;
      DataStartPosition, AudioDataLength, wavData := start, length, data;
    }

    /**
     * The constructor on the bytes of a file: the three header fields, the
     * search for "data", the length after it and the first sample; null
     * where the constructor throws.
     */
    static method Open(file: array<bv8>) returns (wav: Wav?)
      ensures wav == null <==> ParseHeader(file[..]).None?
      ensures wav != null ==> fresh(wav) && wav.wavData == file && wav.Valid() && wav.Header() == ParseHeader(file[..]).value
    {
      if file.Length < 36 {
        return null;
      }
      var channels := ReadField(file, 22, 2);
      var blockAlign := ReadField(file, 32, 2);
      var bits := ReadField(file, 34, 2);
      var cursorPosition := SeekData(file);
      cursorPosition := cursorPosition + 4;
      if cursorPosition + 4 > file.Length {
        return null;
      }
      var length := ReadField(file, cursorPosition, 4);
      wav := new Wav(channels, blockAlign, bits, cursorPosition + 4, length, file);
    }

    /**
     * WavEncode: the bytes are hidden in the samples in place; false where
     * the program throws (the file is then not written).
     */
    method WavEncode(hiddenData: seq<bv8>, key: seq<bv8>) returns (ok: bool)
      requires Valid()
      modifies wavData
      ensures ok <==> EncodedFile(old(wavData[..]), Header(), key, hiddenData).Some?
      ensures ok ==> wavData[..] == EncodedFile(old(wavData[..]), Header(), key, hiddenData).value
    {
      ghost var orig := wavData[..];
      var sampleCount := SamplesUsed(NumberOfChannels);
      if |key| == 0 {
        return false;
      }
      LaidStart(orig, DataStartPosition, BlockAlignBytes);
      var dataBitBuffer, samplePosition, keyPosition;
      ghost var fs;
      ok, dataBitBuffer, samplePosition, keyPosition, fs := EncodeBytes(orig, hiddenData, sampleCount, key);
      if !ok {
        return;
      }
      var unit := PerFrame(sampleCount, key[keyPosition % |key|] as nat);
      if unit == 0 {
        return false;
      }
      dataBitBuffer := PadStream(dataBitBuffer, unit);
      ghost var pos, sp;
      ok, fs, pos, sp := WriteRest(orig, sampleCount, key, dataBitBuffer, samplePosition, keyPosition, fs);
      if ok {
        LaidEnd(orig, DataStartPosition, BlockAlignBytes, wavData[..], fs, pos, sp);
      }
    }

    /** The main loop of WavEncode: the state it leaves is the one MainPhase describes. */
    method EncodeBytes(ghost orig: seq<bv8>, hiddenData: seq<bv8>, used: SampleCount, key: seq<bv8>)
      returns (ok: bool, dataBitBuffer: Bits, samplePosition: nat, keyPosition: nat, ghost fs: seq<Frame>)
      requires |key| > 0 && DataStartPosition <= |orig|
      requires Laid(orig, DataStartPosition, BlockAlignBytes, wavData[..], Frames(orig[DataStartPosition..], BlockAlignBytes), 0, DataStartPosition)
      modifies wavData
      ensures var frames := Frames(orig[DataStartPosition..], BlockAlignBytes);
        ok <==> MainPhase(frames, Layout(BitsPerSample, used), key, hiddenData).Some?
      ensures ok ==> (MainPhase(Frames(orig[DataStartPosition..], BlockAlignBytes), Layout(BitsPerSample, used), key, hiddenData)
        == Some(Cursor(fs, dataBitBuffer, keyPosition)))
      ensures ok ==> Laid(orig, DataStartPosition, BlockAlignBytes, wavData[..], fs, keyPosition, samplePosition)
    {
      ghost var frames := Frames(orig[DataStartPosition..], BlockAlignBytes);
      ghost var l := Layout(BitsPerSample, used);
      dataBitBuffer, samplePosition, keyPosition, fs := [], DataStartPosition, 0, frames;
      for i := 0 to |hiddenData|
        invariant MainPhase(frames, l, key, hiddenData[..i]) == Some(Cursor(fs, dataBitBuffer, keyPosition))
        invariant Laid(orig, DataStartPosition, BlockAlignBytes, wavData[..], fs, keyPosition, samplePosition)
      {
        ok, dataBitBuffer, samplePosition, keyPosition, fs := EncodeByte(orig, hiddenData, i, used, key, dataBitBuffer, samplePosition, keyPosition, fs);
        if !ok {
          MainPhaseFails(frames, l, key, hiddenData, i + 1);
          return;
        }
      }
      assert hiddenData[..|hiddenData|] == hiddenData;
      ok := true;
    }

    /** One pass of the main loop of WavEncode: the byte's eight digits are appended to the stream and whole frames are written. */
    method EncodeByte(ghost orig: seq<bv8>, hiddenData: seq<bv8>, i: nat, used: SampleCount, key: seq<bv8>,
                      stream: Bits, sp: nat, pos: nat, ghost fs0: seq<Frame>)
      returns (ok: bool, dataBitBuffer: Bits, samplePosition: nat, keyPosition: nat, ghost fs: seq<Frame>)
      requires |key| > 0 && i < |hiddenData| && DataStartPosition <= |orig|
      requires MainPhase(Frames(orig[DataStartPosition..], BlockAlignBytes), Layout(BitsPerSample, used), key, hiddenData[..i])
        == Some(Cursor(fs0, stream, pos))
      requires Laid(orig, DataStartPosition, BlockAlignBytes, wavData[..], fs0, pos, sp)
      modifies wavData
      ensures var phase := MainPhase(Frames(orig[DataStartPosition..], BlockAlignBytes), Layout(BitsPerSample, used), key, hiddenData[..i + 1]);
        (ok <==> phase.Some?) && (ok ==> phase == Some(Cursor(fs, dataBitBuffer, keyPosition)))
      ensures ok ==> Laid(orig, DataStartPosition, BlockAlignBytes, wavData[..], fs, keyPosition, samplePosition)
    {
      MainPhaseNext(Frames(orig[DataStartPosition..], BlockAlignBytes), Layout(BitsPerSample, used), key, hiddenData, i, Cursor(fs0, stream, pos));
      var byteString := AutoAddByte(Binary(hiddenData[i] as nat), 8);
      ok, dataBitBuffer, samplePosition, keyPosition, fs := WriteFrames(orig, used, key, stream + byteString, sp, pos, fs0);
    }

    /** The inner loop of WavEncode: frames are written while the stream holds the bits the next frame takes. */
    method WriteFrames(ghost orig: seq<bv8>, used: SampleCount, key: seq<bv8>, stream: Bits, sp: nat, pos: nat, ghost fs0: seq<Frame>)
      returns (ok: bool, dataBitBuffer: Bits, samplePosition: nat, keyPosition: nat, ghost fs: seq<Frame>)
      requires |key| > 0 && Laid(orig, DataStartPosition, BlockAlignBytes, wavData[..], fs0, pos, sp)
      modifies wavData
      ensures ok <==> Fill(Cursor(fs0, stream, pos), Layout(BitsPerSample, used), key).Some?
      ensures ok ==> Fill(Cursor(fs0, stream, pos), Layout(BitsPerSample, used), key) == Some(Cursor(fs, dataBitBuffer, keyPosition))
      ensures ok ==> Laid(orig, DataStartPosition, BlockAlignBytes, wavData[..], fs, keyPosition, samplePosition)
    {
      ghost var l := Layout(BitsPerSample, used);
      dataBitBuffer, samplePosition, keyPosition, fs := stream, sp, pos, fs0;
      while |dataBitBuffer| >= PerFrame(used, key[keyPosition % |key|] as nat)
        invariant Laid(orig, DataStartPosition, BlockAlignBytes, wavData[..], fs, keyPosition, samplePosition)
        invariant Fill(Cursor(fs, dataBitBuffer, keyPosition), l, key) == Fill(Cursor(fs0, stream, pos), l, key)
        decreases wavData.Length - samplePosition
      {
        FillStep(Cursor(fs, dataBitBuffer, keyPosition), l, key);
        ok, dataBitBuffer, samplePosition, keyPosition, fs := WriteNext(orig, used, key, dataBitBuffer, samplePosition, keyPosition, fs);
        if !ok {
          return;
        }
      }
      ok := true;
    }

    /** The last loop of WavEncode: frames are written until the stream is empty. */
    method WriteRest(ghost orig: seq<bv8>, used: SampleCount, key: seq<bv8>, stream: Bits, sp: nat, pos: nat, ghost fs0: seq<Frame>)
      returns (ok: bool, ghost fs: seq<Frame>, ghost framesDone: nat, ghost bytesDone: nat)
      requires |key| > 0 && Laid(orig, DataStartPosition, BlockAlignBytes, wavData[..], fs0, pos, sp)
      modifies wavData
      ensures ok <==> Drain(Cursor(fs0, stream, pos), Layout(BitsPerSample, used), key).Some?
      ensures ok ==> Drain(Cursor(fs0, stream, pos), Layout(BitsPerSample, used), key).value.frames == fs
      ensures ok ==> Laid(orig, DataStartPosition, BlockAlignBytes, wavData[..], fs, framesDone, bytesDone)
    {
      ghost var l := Layout(BitsPerSample, used);
      var dataBitBuffer: Bits, samplePosition: nat, keyPosition: nat := stream, sp, pos;
      fs := fs0;
      while |dataBitBuffer| > 0
        invariant Laid(orig, DataStartPosition, BlockAlignBytes, wavData[..], fs, keyPosition, samplePosition)
        invariant Drain(Cursor(fs, dataBitBuffer, keyPosition), l, key) == Drain(Cursor(fs0, stream, pos), l, key)
        decreases wavData.Length - samplePosition
      {
        DrainStep(Cursor(fs, dataBitBuffer, keyPosition), l, key);
        if |dataBitBuffer| < PerFrame(used, key[keyPosition % |key|] as nat) {
          // Substring throws on the short stream
          ok := NextFrame(orig, used, key, dataBitBuffer, samplePosition, keyPosition, fs);
          return false, fs, keyPosition, samplePosition;
        }
        ok, dataBitBuffer, samplePosition, keyPosition, fs := WriteNext(orig, used, key, dataBitBuffer, samplePosition, keyPosition, fs);
        if !ok {
          return false, fs, keyPosition, samplePosition;
        }
      }
      ok, framesDone, bytesDone := true, keyPosition, samplePosition;
    }

    /** One pass of either encoder loop: the next frame, if it can be written, hides the next frame's share of the stream in place. */
    method WriteNext(ghost orig: seq<bv8>, used: SampleCount, key: seq<bv8>, stream: Bits, samplePosition: nat, keyPosition: nat, ghost fs: seq<Frame>)
      returns (ok: bool, rest: Bits, nextSample: nat, nextKey: nat, ghost next: seq<Frame>)
      requires |key| > 0 && Laid(orig, DataStartPosition, BlockAlignBytes, wavData[..], fs, keyPosition, samplePosition)
      requires Share(Layout(BitsPerSample, used), key, keyPosition) <= |stream|
      modifies wavData
      ensures ok <==> Writable(Cursor(fs, stream, keyPosition), Layout(BitsPerSample, used), key)
      ensures ok ==> Advance(Cursor(fs, stream, keyPosition), Layout(BitsPerSample, used), key) == Cursor(next, rest, nextKey)
      ensures ok ==> nextKey == keyPosition + 1 && nextSample == samplePosition + BlockAlignBytes && 0 < BlockAlignBytes
      ensures ok ==> Laid(orig, DataStartPosition, BlockAlignBytes, wavData[..], next, nextKey, nextSample)
    {
      ok := NextFrame(orig, used, key, stream, samplePosition, keyPosition, fs);
      if !ok {
        return ok, stream, samplePosition, keyPosition, fs;
      }
      rest, nextSample, nextKey, next := WriteAt(orig, used, key, stream, samplePosition, keyPosition, fs);
    }

    /** The next frame, which can be written, hides its share of the stream in place. */
    method WriteAt(ghost orig: seq<bv8>, used: SampleCount, key: seq<bv8>, stream: Bits, samplePosition: nat, keyPosition: nat, ghost fs: seq<Frame>)
      returns (rest: Bits, nextSample: nat, nextKey: nat, ghost next: seq<Frame>)
      requires |key| > 0 && Laid(orig, DataStartPosition, BlockAlignBytes, wavData[..], fs, keyPosition, samplePosition)
      requires Share(Layout(BitsPerSample, used), key, keyPosition) <= |stream|
      requires Writable(Cursor(fs, stream, keyPosition), Layout(BitsPerSample, used), key)
      requires samplePosition + BlockAlignBytes <= wavData.Length && 0 < BlockAlignBytes
      requires fs[keyPosition] == wavData[samplePosition..samplePosition + BlockAlignBytes]
      modifies wavData
      ensures Advance(Cursor(fs, stream, keyPosition), Layout(BitsPerSample, used), key) == Cursor(next, rest, nextKey)
      ensures nextKey == keyPosition + 1 && nextSample == samplePosition + BlockAlignBytes
      ensures Laid(orig, DataStartPosition, BlockAlignBytes, wavData[..], next, nextKey, nextSample)
    {
      ghost var now := wavData[..];
      ghost var frame := now[samplePosition..samplePosition + BlockAlignBytes];
      var k := key[keyPosition % |key|] as nat;
      ghost var f := WriteFrame(frame, BitsPerSample, used, k, stream);
      rest := WriteFrameAt(wavData, samplePosition, BlockAlignBytes, BitsPerSample, used, k, stream);
      next, nextSample, nextKey := fs[keyPosition := f], samplePosition + BlockAlignBytes, keyPosition + 1;
      LaidNext(orig, DataStartPosition, BlockAlignBytes, now, fs, keyPosition, samplePosition, f, wavData[..], next, nextKey, nextSample);
      AdvanceTo(Cursor(fs, stream, keyPosition), Layout(BitsPerSample, used), key, f, rest, next, nextKey);
    }

    /**
     * Whether the next frame can be written: it lies within the file (the
     * frame read throws otherwise) and its loops can hide the key entry's
     * bits in it.
     */
    method NextFrame(ghost orig: seq<bv8>, used: SampleCount, key: seq<bv8>, stream: Bits, samplePosition: nat, keyPosition: nat, ghost fs: seq<Frame>)
      returns (ok: bool)
      requires |key| > 0 && Laid(orig, DataStartPosition, BlockAlignBytes, wavData[..], fs, keyPosition, samplePosition)
      ensures ok <==> Writable(Cursor(fs, stream, keyPosition), Layout(BitsPerSample, used), key)
      ensures ok ==> samplePosition + BlockAlignBytes <= wavData.Length && 0 < BlockAlignBytes
      ensures ok ==> fs[keyPosition] == wavData[samplePosition..samplePosition + BlockAlignBytes]
      ensures ok ==> WriteFits(BlockAlignBytes, BitsPerSample, used, KeyAt(key, keyPosition))
    {
      if samplePosition + BlockAlignBytes > wavData.Length || BlockAlignBytes == 0 {
        LaidMissing(orig, DataStartPosition, BlockAlignBytes, wavData[..], fs, keyPosition, samplePosition);
        return false;
      }
      LaidFrame(orig, DataStartPosition, BlockAlignBytes, wavData[..], fs, keyPosition, samplePosition);
      ok := WriteFits(BlockAlignBytes, BitsPerSample, used, key[keyPosition % |key|] as nat);
    }

    /** WavDecode: the bytes made once there are at least byteCount of them; None where the program throws. */
    method WavDecode(byteCount: nat, key: seq<bv8>) returns (extracted: Option<seq<bv8>>)
      requires Valid()
      ensures extracted == DecodedFile(wavData[..], Header(), key, byteCount)
    {
      var samplePosition: nat := DataStartPosition;
      var keyPosition: nat := 0;
      var extractedData: seq<bv8> := [];
      var extractBitBuffer: Bits := [];
      var sampleCount := SamplesUsed(NumberOfChannels);
      if |key| == 0 {
        // the first key access divides by zero, unless the loop does not run
        return if byteCount == 0 then Some([]) else None;
      }
      ghost var l := Layout(BitsPerSample, sampleCount);
      ghost var file := wavData[..];
      ghost var fs := Frames(file[DataStartPosition..], BlockAlignBytes);
      while |extractedData| < byteCount
        invariant DataStartPosition <= samplePosition <= |file| && keyPosition <= |fs|
        invariant Frames(file[samplePosition..], BlockAlignBytes) == fs[keyPosition..]
        invariant DecodeFrom(fs, l, key, byteCount, extractedData, extractBitBuffer, keyPosition)
          == DecodeFrom(fs, l, key, byteCount, [], [], 0)
        decreases wavData.Length - samplePosition
      {
        var ok;
        ok, extractedData, extractBitBuffer, samplePosition, keyPosition := ReadNext(byteCount, key, sampleCount, extractedData, extractBitBuffer, samplePosition, keyPosition, file, fs);
        if !ok {
          return None;
        }
      }
      extracted := Some(extractedData);
    }

    /** One pass of the read loop: the next frame, if it lies within the file and can be read, gives its digits, and every complete byte is taken off. */
    method ReadNext(byteCount: nat, key: seq<bv8>, used: SampleCount, extractedData: seq<bv8>, extractBitBuffer: Bits,
                    samplePosition: nat, keyPosition: nat, ghost file: seq<bv8>, ghost fs: seq<Frame>)
      returns (ok: bool, found: seq<bv8>, pending: Bits, nextSample: nat, nextKey: nat)
      requires |key| > 0 && |extractedData| < byteCount && file == wavData[..]
      requires samplePosition <= |file| && keyPosition <= |fs|
      requires Frames(file[samplePosition..], BlockAlignBytes) == fs[keyPosition..]
      ensures var l := Layout(BitsPerSample, used);
        !ok ==> DecodeFrom(fs, l, key, byteCount, extractedData, extractBitBuffer, keyPosition) == None
      ensures var l := Layout(BitsPerSample, used);
        ok ==> (DecodeFrom(fs, l, key, byteCount, extractedData, extractBitBuffer, keyPosition)
          == DecodeFrom(fs, l, key, byteCount, found, pending, nextKey))
      ensures ok ==> nextKey == keyPosition + 1 && nextSample == samplePosition + BlockAlignBytes && 0 < BlockAlignBytes
      ensures ok ==> nextSample <= |file| && nextKey <= |fs|
      ensures ok ==> Frames(file[nextSample..], BlockAlignBytes) == fs[nextKey..]
    {
      ghost var l := Layout(BitsPerSample, used);
      nextSample, nextKey := samplePosition + BlockAlignBytes, keyPosition + 1;
      FramesNext(file, BlockAlignBytes, fs, keyPosition, samplePosition, nextSample);
      if nextSample > wavData.Length || BlockAlignBytes == 0 {
        DecodeStop(fs, l, key, byteCount, extractedData, extractBitBuffer, keyPosition);
        return false, extractedData, extractBitBuffer, samplePosition, keyPosition;
      }
      var bitsToExtract := key[keyPosition % |key|] as nat;
      if !ReadFits(BlockAlignBytes, BitsPerSample, used, bitsToExtract) {
        DecodeStop(fs, l, key, byteCount, extractedData, extractBitBuffer, keyPosition);
        return false, extractedData, extractBitBuffer, samplePosition, keyPosition;
      }
      var buffer := ReadFrameAt(wavData, samplePosition, BlockAlignBytes, BitsPerSample, used, bitsToExtract, extractBitBuffer);
      found, pending := EmitBytes(extractedData, buffer);
      ok := true;
      DecodeStep(fs, l, key, byteCount, extractedData, extractBitBuffer, keyPosition, file[samplePosition..nextSample], found, pending, nextKey);
    }
  }
}
