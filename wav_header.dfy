/**
 * The header of a RIFF/WAVE file as the audio codec reads it (the WAV
 * constructor). Three 16-bit little-endian fields sit at fixed offsets: the
 * number of channels at 22, the block alignment (bytes per frame) at 32 and
 * the bits per sample at 34. The ASCII tag "data" is then searched for from
 * offset 34 on, one byte at a time, while the offset is below the length
 * minus 4. The program takes the audio length from the four bytes starting
 * five bytes after the tag and the first sample from nine bytes after it;
 * in a RIFF file the length field starts four bytes after the tag and the
 * samples eight bytes after it (`CanonicalHeader`).
 *
 * A file too short for a field, or without the tag, makes the program read
 * past the end of the array and throw; that is the outcome None.
 */
module WaveHeader {
  import opened Wrappers
  import opened ByteCodec
  import opened BitStrings
  import opened LittleEndian

  /** The fields the WAV class keeps. */
  datatype Header = Header(numberOfChannels: nat, blockAlignBytes: nat, bitsPerSample: nat,
                           dataStartPosition: nat, audioDataLength: nat)

  /** The ASCII codes of "data". */
  const DataTag: seq<bv8> := [0x64, 0x61, 0x74, 0x61]

  /** The four bytes at p spell "data". */
  predicate TagAt(file: seq<bv8>, p: nat)
  {
    p + 4 <= |file| && file[p..p + 4] == DataTag
  }

  /** The search loop from offset q: the first tag at an offset below |file| - 4. */
  function ScanFrom(file: seq<bv8>, q: nat): Option<nat>
    decreases |file| - q
  {
    if q + 4 >= |file| then None
    else if TagAt(file, q) then Some(q)
    else ScanFrom(file, q + 1)
  }

  /** Where the constructor finds the tag: the search starts at offset 34. */
  function FindData(file: seq<bv8>): Option<nat>
  {
    ScanFrom(file, 34)
  }

  /** The unsigned little-endian field of `width` bytes at `at`. */
  function Field(file: seq<bv8>, at: nat, width: nat): nat
    requires at + width <= |file|
  {
    ReadLittleEndian(file[at..at + width])
  }

  /** The header the constructor reads; None where it throws. */
  function ParseHeader(file: seq<bv8>): Option<Header>
  {
    if |file| < 36 then None
    else match FindData(file)
      case None => None
      case Some(p) =>
        if p + 9 > |file| then None
        else Some(Header(Field(file, 22, 2), Field(file, 32, 2), Field(file, 34, 2), p + 9, Field(file, p + 5, 4)))
  }

  /** The header a RIFF reader takes from the same tag: the length right after the tag, the samples after the length. */
  function CanonicalHeader(file: seq<bv8>): Option<Header>
  {
    if |file| < 36 then None
    else match FindData(file)
      case None => None
      case Some(p) =>
        if p + 8 > |file| then None
        else Some(Header(Field(file, 22, 2), Field(file, 32, 2), Field(file, 34, 2), p + 8, Field(file, p + 4, 4)))
  }

  // ---------------------------------------------------------------------------
  // The constructor's loops

  /** A run of bytes read as one word: each byte's eight digits are put in front of the digits read so far. */
  method ReadWord(wavData: array<bv8>, cursorPosition: nat, width: nat) returns (bitBuffer: Bits)
    requires cursorPosition + width <= wavData.Length
    ensures bitBuffer == WordBits(wavData[cursorPosition..cursorPosition + width])
  {
    bitBuffer := [];
    for i := cursorPosition to cursorPosition + width
      invariant bitBuffer == WordBits(wavData[cursorPosition..i])
    {
      var byteString := AutoAddByte(Binary(wavData[i] as nat), 8);
      assert wavData[cursorPosition..i + 1] == wavData[cursorPosition..i] + [wavData[i]];
      WordBitsSnoc(wavData[cursorPosition..i], wavData[i]);
      bitBuffer := byteString + bitBuffer;
    }
  }

  /** One header field: the bytes read as one word, and the string read in base 2. */
  method ReadField(wavData: array<bv8>, cursorPosition: nat, width: nat) returns (value: nat)
    requires cursorPosition + width <= wavData.Length
    ensures value == Field(wavData[..], cursorPosition, width)
  {
    var bitBuffer := ReadWord(wavData, cursorPosition, width);
    WordBitsValue(wavData[cursorPosition..cursorPosition + width]);
    value := Value(bitBuffer);
  }

  /**
   * The search loop: the last four bytes read are kept, and the loop stops
   * once they spell "data" or the offset reaches the length minus 4. The
   * offset returned is one past the tag when it was found.
   */
  method SeekData(wavData: array<bv8>) returns (cursorPosition: nat)
    ensures FindData(wavData[..]).Some? ==> cursorPosition == FindData(wavData[..]).value + 1
    ensures FindData(wavData[..]).None? ==> cursorPosition + 4 >= wavData.Length && cursorPosition >= 34
  {
    var bitBuffer: seq<bv8> := [];
    cursorPosition := 34;
    while bitBuffer != DataTag && cursorPosition + 4 < wavData.Length
      invariant cursorPosition >= 34
      invariant bitBuffer == DataTag ==> cursorPosition >= 35 && FindData(wavData[..]) == Some(cursorPosition - 1)
      invariant bitBuffer != DataTag ==> FindData(wavData[..]) == ScanFrom(wavData[..], cursorPosition)
      decreases wavData.Length - cursorPosition
    {
      bitBuffer := wavData[cursorPosition..cursorPosition + 4];
      cursorPosition := cursorPosition + 1;
    }
  }

  // ---------------------------------------------------------------------------
  // Properties

  /** The search returns the first tag at or after q below |file| - 4, and nothing when there is none. */
  lemma {:induction false} ScanFromFirst(file: seq<bv8>, q: nat)
    ensures ScanFrom(file, q).Some? ==>
      var p := ScanFrom(file, q).value;
      q <= p && p + 4 < |file| && TagAt(file, p) && forall r :: q <= r < p ==> !TagAt(file, r)
    ensures ScanFrom(file, q).None? ==> forall r :: q <= r && r + 4 < |file| ==> !TagAt(file, r)
    decreases |file| - q
  {
    if q + 4 < |file| && !TagAt(file, q) {
      ScanFromFirst(file, q + 1);
    }
  }

  /** A tag with no tag before it from q on is the one the search finds. */
  lemma {:induction false} ScanFinds(file: seq<bv8>, q: nat, p: nat)
    requires q <= p && p + 4 < |file| && TagAt(file, p)
    requires forall r :: q <= r < p ==> !TagAt(file, r)
    ensures ScanFrom(file, q) == Some(p)
    decreases p - q
  {
    if q < p {
      ScanFinds(file, q + 1, p);
    }
  }

  /** Two sequences that agree on their first n elements agree on every slice inside them. */
  lemma SameSlice(a: seq<bv8>, b: seq<bv8>, n: nat, i: nat, j: nat)
    requires n <= |a| && n <= |b| && a[..n] == b[..n] && i <= j <= n
    ensures a[i..j] == b[i..j]
  {
    forall k | 0 <= k < j - i
      ensures a[i..j][k] == b[i..j][k]
    {
      assert a[..n][i + k] == b[..n][i + k];
    }
  }

  /**
   * The header reads nothing from the samples on: a file of the same length
   * that keeps every byte before the samples has the same header.
   */
  lemma HeaderFromPrefix(file: seq<bv8>, file': seq<bv8>, h: Header)
    requires ParseHeader(file) == Some(h) && |file'| == |file|
    requires h.dataStartPosition <= |file| && file'[..h.dataStartPosition] == file[..h.dataStartPosition]
    ensures ParseHeader(file') == Some(h)
  {
    var p := FindData(file).value;
    var n := p + 9;
    assert n == h.dataStartPosition;
    ScanFromFirst(file, 34);
    forall r | 34 <= r <= p
      ensures TagAt(file', r) == TagAt(file, r)
    {
      SameSlice(file', file, n, r, r + 4);
    }
    ScanFinds(file', 34, p);
    SameSlice(file', file, n, 22, 24);
    SameSlice(file', file, n, 32, 34);
    SameSlice(file', file, n, 34, 36);
    SameSlice(file', file, n, p + 5, p + 9);
  }

  /**
   * In a file laid out as prefix, "data", a 4-byte size and the samples,
   * with no earlier tag from offset 34 on, the program takes the samples
   * from their second byte on and reads the length from the last three size
   * bytes and the first sample byte.
   */
  lemma DataOffsetAsWritten(prefix: seq<bv8>, size: seq<bv8>, samples: seq<bv8>)
    requires |prefix| >= 34 && |size| == 4 && |samples| >= 1
    requires forall r :: 34 <= r < |prefix| ==> !TagAt(prefix + DataTag + size + samples, r)
    ensures ParseHeader(prefix + DataTag + size + samples).Some?
    ensures ParseHeader(prefix + DataTag + size + samples).value.dataStartPosition == |prefix| + 9
    ensures ParseHeader(prefix + DataTag + size + samples).value.audioDataLength == ReadLittleEndian(size[1..] + samples[..1])
  {
    var file := prefix + DataTag + size + samples;
    var p := |prefix|;
    assert file[p..p + 4] == DataTag;
    ScanFinds(file, 34, p);
    assert file[p + 5..p + 9] == size[1..] + samples[..1];
  }

  /** The RIFF reading of the same file: the length is the size field and the samples start right after it. */
  lemma DataOffsetCanonical(prefix: seq<bv8>, size: seq<bv8>, samples: seq<bv8>)
    requires |prefix| >= 34 && |size| == 4
    requires forall r :: 34 <= r < |prefix| ==> !TagAt(prefix + DataTag + size + samples, r)
    ensures CanonicalHeader(prefix + DataTag + size + samples).Some?
    ensures CanonicalHeader(prefix + DataTag + size + samples).value.dataStartPosition == |prefix| + 8
    ensures (prefix + DataTag + size + samples)[|prefix| + 8..] == samples
    ensures CanonicalHeader(prefix + DataTag + size + samples).value.audioDataLength == ReadLittleEndian(size)
  {
    var file := prefix + DataTag + size + samples;
    var p := |prefix|;
    assert file[p..p + 4] == DataTag;
    ScanFinds(file, 34, p);
    assert file[p + 4..p + 8] == size;
    assert file[p + 8..] == samples;
  }

  /** A data chunk of four bytes declared with size 4: the program reads the length as 0x11000000 instead of 4. */
  lemma DataLengthMisread(prefix: seq<bv8>)
    requires |prefix| >= 34
    requires forall r :: 34 <= r < |prefix| ==> !TagAt(prefix + DataTag + [4, 0, 0, 0] + [0x11, 0x22, 0x33, 0x44], r)
    ensures ParseHeader(prefix + DataTag + [4, 0, 0, 0] + [0x11, 0x22, 0x33, 0x44]).Some?
    ensures CanonicalHeader(prefix + DataTag + [4, 0, 0, 0] + [0x11, 0x22, 0x33, 0x44]).Some?
    ensures ParseHeader(prefix + DataTag + [4, 0, 0, 0] + [0x11, 0x22, 0x33, 0x44]).value.audioDataLength == 0x1100_0000
    ensures CanonicalHeader(prefix + DataTag + [4, 0, 0, 0] + [0x11, 0x22, 0x33, 0x44]).value.audioDataLength == 4
  {
    var size, samples: seq<bv8> := [4, 0, 0, 0], [0x11, 0x22, 0x33, 0x44];
    DataOffsetAsWritten(prefix, size, samples);
    DataOffsetCanonical(prefix, size, samples);
    assert size[1..] + samples[..1] == [0, 0, 0, 0x11];
    LittleEndianExamples();
  }

  lemma LittleEndianExamples()
    ensures ReadLittleEndian([0, 0, 0, 0x11]) == 0x1100_0000
    ensures ReadLittleEndian([4, 0, 0, 0]) == 4
  {
    var high: seq<bv8> := [0x11];
    var zeros: seq<bv8> := [0, 0, 0];
    assert ReadLittleEndian(high) == 0x11 by {
      assert high[1..] == [];
    }
    assert ReadLittleEndian([0] + high) == 0x1100 by {
      assert ([0] + high)[1..] == high;
    }
    assert ReadLittleEndian([0, 0] + high) == 0x11_0000 by {
      assert ([0, 0] + high)[1..] == [0] + high;
    }
    assert ReadLittleEndian(zeros + high) == 0x1100_0000 by {
      assert (zeros + high)[1..] == [0, 0] + high;
    }
    assert zeros + high == [0, 0, 0, 0x11];
    assert ReadLittleEndian(zeros) == 0 by {
      assert zeros[1..] == [0, 0] && [0, 0][1..] == [0] && [0][1..] == [];
    }
    assert [4, 0, 0, 0][1..] == zeros;
  }
}
