/**
 * The capacities the panel shows for a container, in bytes, computed from
 * the stego key when the container is added.
 *
 * Raster images: every pixel i carries 3 * b_i bits, where b_i is the key
 * entry i mod n taken as 1 when it is 0 and as 8 when it is above 8.
 * Audio: every frame i carries key[i mod n] bits per used channel, one
 * channel for mono files and two otherwise.
 */
module Capacity {
  import opened ByteCodec
  import opened Wrappers

  /** The bits per channel the capacity count assumes for a key entry: 0 counts as 1, and at most 8. */
  function BitsPerChannel(entry: bv8): (bits: nat)
    ensures 1 <= bits <= 8
    ensures 0 < entry <= 8 ==> bits == entry as nat
  {
    var bits := if entry == 0 then 1 else entry as nat;
    if bits > 8 then 8 else bits
  }

  /** The bits of a pixel whose key entry is the given one. */
  function PixelBits(entry: bv8): nat
  {
    3 * BitsPerChannel(entry)
  }

  /** The bits of an audio frame channel whose key entry is the given one. */
  function FrameBits(entry: bv8): nat
  {
    entry as nat
  }

  /** The sum of weight(key[i mod n]) over i < count: the key is repeated cyclically. */
  function CycleSum(key: seq<bv8>, count: nat, weight: bv8 -> nat): nat
    requires |key| > 0
  {
    if count == 0 then 0 else CycleSum(key, count - 1, weight) + weight(key[(count - 1) % |key|])
  }

  /** The capacity of a raster image of the given pixel count. */
  function ImageCapacity(key: seq<bv8>, pixelCount: nat): nat
    requires |key| > 0
  {
    CycleSum(key, pixelCount, PixelBits) / 8
  }

  /** The capacity of an audio file of the given frame count and channel count. */
  function AudioCapacity(key: seq<bv8>, frameCount: nat, channels: int): nat
    requires |key| > 0
  {
    var bits := CycleSum(key, frameCount, FrameBits);
    if channels == 1 then bits / 8 else (bits * 2) / 8
  }

  /** The capacity loop over the pixels of a bitmap of the given width and height. */
  method BmpCapacity(key: seq<bv8>, width: nat, height: nat) returns (capacity: nat)
    requires |key| > 0
    ensures capacity == ImageCapacity(key, width * height)
  {
    var info := 0;
    for i := 0 to width * height
      invariant info == CycleSum(key, i, PixelBits)
    {
      var keyByte := key[i % |key|];
      var bitsPerChannel := if keyByte == 0 then 1 else keyByte as nat;
      if bitsPerChannel > 8 {
        bitsPerChannel := 8;
      }
      info := info + 3 * bitsPerChannel;
    }
    capacity := info / 8;
  }

  /**
   * The capacity loop over the frames of an audio file: the audio data length
   * divided by the frame size gives the frame count. A frame size of 0, read
   * unchecked from the header, makes the division throw; the panel catches
   * that and adds no row, which is None here.
   */
  method WavCapacity(key: seq<bv8>, audioDataLength: nat, blockAlignBytes: nat, numberOfChannels: int) returns (capacity: Option<nat>)
    requires |key| > 0
    ensures capacity.None? <==> blockAlignBytes == 0
    ensures blockAlignBytes > 0 ==> capacity == Some(AudioCapacity(key, audioDataLength / blockAlignBytes, numberOfChannels))
  {
    if blockAlignBytes == 0 {
      return None;
    }
    var info := 0;
    var i := 0;
    while i < audioDataLength / blockAlignBytes
      invariant i <= audioDataLength / blockAlignBytes
      invariant info == CycleSum(key, i, FrameBits)
    {
      info := info + key[i % |key|] as nat;
      i := i + 1;
    }
    if numberOfChannels == 1 {
      capacity := Some(info / 8);
    } else {
      capacity := Some((info * 2) / 8);
    }
  }

  // ---------------------------------------------------------------------------
  // Properties

  /** Summing over whole repetitions of the key: m rounds count m times one round. */
  lemma {:induction false} CycleSumRounds(key: seq<bv8>, rounds: nat, weight: bv8 -> nat)
    requires |key| > 0
    ensures CycleSum(key, rounds * |key|, weight) == rounds * CycleSum(key, |key|, weight)
    decreases rounds
  {
    if rounds > 0 {
      var start := (rounds - 1) * |key|;
      CycleSumRounds(key, rounds - 1, weight);
      ModUnique(start, |key|, rounds - 1, 0);
      CycleSumShift(key, start, |key|, weight);
      Distribute(rounds - 1, |key|, CycleSum(key, |key|, weight));
    }
  }

  /** One more entry adds the weight of the key entry it sees. */
  lemma CycleSumStep(key: seq<bv8>, count: nat, weight: bv8 -> nat)
    requires |key| > 0
    ensures CycleSum(key, count + 1, weight) == CycleSum(key, count, weight) + weight(key[count % |key|])
  {
  }

  lemma Distribute(a: int, n: int, s: int)
    ensures a * n + n == (a + 1) * n
    ensures a * s + s == (a + 1) * s
  {
  }

  /** The sum over start + count entries: the first start, then count more, which see the key from start mod n on. */
  lemma {:induction false} CycleSumShift(key: seq<bv8>, start: nat, count: nat, weight: bv8 -> nat)
    requires |key| > 0 && start % |key| == 0
    ensures CycleSum(key, start + count, weight) == CycleSum(key, start, weight) + CycleSum(key, count, weight)
    decreases count
  {
    if count > 0 {
      CycleSumShift(key, start, count - 1, weight);
      ModShift(start, count - 1, |key|);
    }
  }

  lemma ModShift(start: nat, i: nat, n: nat)
    requires n > 0 && start % n == 0
    ensures (start + i) % n == i % n
  {
    var q, a, r := start / n, i / n, i % n;
    assert start == q * n;
    assert i == a * n + r;
    Distribute2(q, a, n, r);
    ModUnique(start + i, n, q + a, r);
  }

  lemma Distribute2(q: int, a: int, n: int, r: int)
    ensures q * n + (a * n + r) == (q + a) * n + r
  {
  }

  /** Sums whose terms lie between lo and hi lie between count * lo and count * hi. */
  lemma {:induction false} CycleSumBounds(key: seq<bv8>, count: nat, weight: bv8 -> nat, lo: nat, hi: nat)
    requires |key| > 0
    requires forall e :: lo <= weight(e) <= hi
    ensures count * lo <= CycleSum(key, count, weight) <= count * hi
  {
    if count > 0 {
      CycleSumBounds(key, count - 1, weight, lo, hi);
      var w := weight(key[(count - 1) % |key|]);
      assert (count - 1) * lo + lo == count * lo;
      assert (count - 1) * hi + hi == count * hi;
    }
  }

  /** A raster image holds between 3 bits and 3 bytes per pixel. */
  lemma ImageCapacityBounds(key: seq<bv8>, pixelCount: nat)
    requires |key| > 0
    ensures (3 * pixelCount) / 8 <= ImageCapacity(key, pixelCount) <= 3 * pixelCount
  {
    CycleSumBounds(key, pixelCount, PixelBits, 3, 24);
  }
}
