/**
 * Little-endian words as the audio codec handles them. The codec reads a run
 * of bytes into one binary string by putting each byte's eight digits in
 * FRONT of the digits read so far, so the string is the word's digits, most
 * significant first; it writes a word back by cutting the string into eight
 * digit pieces from the end, least significant piece first.
 */
module LittleEndian {
  import opened ByteCodec
  import opened BitStrings

  /** The digits of a little-endian word: the last byte's eight digits first, the first byte's last. */
  function WordBits(bytes: seq<bv8>): (s: Bits)
    ensures |s| == 8 * |bytes|
  {
    if |bytes| == 0 then [] else WordBits(bytes[1..]) + ByteBits(bytes[0])
  }

  /** The bytes a digit string is written back as: the last eight digits first, then the eight before them, and so on. */
  function WordBytes(s: Bits): (bytes: seq<bv8>)
    requires |s| % 8 == 0
    ensures 8 * |bytes| == |s|
  {
    if |s| == 0 then [] else WordBytes(s[8..]) + [ToByte(s[..8])]
  }

  // ---------------------------------------------------------------------------
  // Properties

  /** The digits of two runs of bytes, the second after the first, are the second's digits, then the first's. */
  lemma {:induction false} WordBitsAppend(a: seq<bv8>, b: seq<bv8>)
    ensures WordBits(a + b) == WordBits(b) + WordBits(a)
    decreases |a|
  {
    if |a| == 0 {
      assert a + b == b;
    } else {
      assert (a + b)[1..] == a[1..] + b;
      WordBitsAppend(a[1..], b);
    }
  }

  /** Reading one more byte puts its eight digits in front. */
  lemma WordBitsSnoc(bytes: seq<bv8>, b: bv8)
    ensures WordBits(bytes + [b]) == ByteBits(b) + WordBits(bytes)
  {
    WordBitsAppend(bytes, [b]);
    assert WordBits([b]) == WordBits([]) + ByteBits(b);
  }

  /** A word's digits denote the word's little-endian value. */
  lemma {:induction false} WordBitsValue(bytes: seq<bv8>)
    ensures Value(WordBits(bytes)) == ReadLittleEndian(bytes)
    decreases |bytes|
  {
    if |bytes| > 0 {
      var high, low := WordBits(bytes[1..]), ByteBits(bytes[0]);
      WordBitsValue(bytes[1..]);
      ValueAppend(high, low);
      ByteBitsFacts(bytes[0]);
      PowByte();
      assert Value(high + low) == Value(high) * 256 + Value(low);
    }
  }

  /** Writing a digit string back and reading the bytes gives the digits. */
  lemma {:induction false} WordBitsOfBytes(s: Bits)
    requires |s| % 8 == 0
    ensures WordBits(WordBytes(s)) == s
    decreases |s|
  {
    if |s| > 0 {
      WordBitsOfBytes(s[8..]);
      WordBitsAppend(WordBytes(s[8..]), [ToByte(s[..8])]);
      assert WordBits([ToByte(s[..8])]) == WordBits([]) + ByteBits(ToByte(s[..8]));
      ByteBitsOfByte(s[..8]);
      assert s[..8] + s[8..] == s;
    }
  }

  /** A string of n whole bytes is written back as n bytes that read as the string. */
  lemma WholeBytes(s: Bits, n: nat)
    requires |s| == 8 * n
    ensures |s| % 8 == 0 && |WordBytes(s)| == n && WordBits(WordBytes(s)) == s
  {
    WordBitsOfBytes(s);
  }

  /** Reading bytes and writing the digits back gives the bytes. */
  lemma {:induction false} WordBytesOfBits(bytes: seq<bv8>)
    ensures WordBytes(WordBits(bytes)) == bytes
    decreases |bytes|
  {
    if |bytes| > 0 {
      var init, last := bytes[..|bytes| - 1], bytes[|bytes| - 1];
      assert bytes == init + [last];
      WordBitsSnoc(init, last);
      var s := WordBits(bytes);
      assert s[8..] == WordBits(init) && s[..8] == ByteBits(last);
      WordBytesOfBits(init);
      ByteOfByteBits(last);
    }
  }
}
