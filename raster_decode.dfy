/**
 * The raster decoder (bmpDecode). Pixels are read in row-major order, pixel
 * p giving the last key[p mod n] digits of its red, green and blue channels;
 * whenever eight or more digits have been collected, every complete byte is
 * taken off the front. The decoder stops when the byte count equals the
 * length asked for, and fails (GetPixel throws) when the pixels run out.
 *
 * `Decoded` is the decoder as the program has it: it compares the count
 * with `!=`, and one pixel can complete two bytes at once, so the count can
 * step over the length. `DecodedTruncated` stops as soon as the count
 * reaches the length and keeps the first `len` bytes.
 */
module RasterDecode {
  import opened Wrappers
  import opened BitStrings
  import opened RasterPixel
  import opened RasterCodec
  import Capacity
  import opened Streams

  /** The digits each pixel hides under the key, pixel by pixel. */
  function PixelDigits(image: seq<Pixel>, key: seq<bv8>): (d: seq<Bits>)
    requires KeyFits(key)
    ensures |d| == |image|
  {
    seq(|image|, p requires 0 <= p < |image| => ReadPixel(image[p], KeyAt(key, p)))
  }

  /** The digits pixels from..to-1 of an image hide, in pixel order. */
  function ReadStream(image: seq<Pixel>, key: seq<bv8>, from: nat, to: nat): (bits: Bits)
    requires KeyFits(key) && to <= |image|
  {
    Stream(PixelDigits(image, key), from, to)
  }

  /** The digits of one pixel whose key entry is e. */
  function PixelShare(e: bv8): nat
  {
    3 * e as nat
  }

  /** The digits the first count pixels hide under the key. */
  function Load(key: seq<bv8>, count: nat): nat
    requires |key| > 0
  {
    Capacity.CycleSum(key, count, PixelShare)
  }

  /**
   * The read loop: pixel pos is read into the pending digits; None when
   * there is no pixel pos. `truncate` selects the corrected stop.
   */
  function DecodeFrom(image: seq<Pixel>, key: seq<bv8>, len: nat, truncate: bool, found: seq<bv8>, str: Bits, pos: nat): Option<seq<bv8>>
    requires KeyFits(key)
    decreases |image| - pos, 2
  {
    if pos >= |image| then None
    else Pending(image, key, len, truncate, found, str + ReadPixel(image[pos], KeyAt(key, pos)), pos + 1)
  }

  /** After a pixel: fewer than eight pending digits send the decoder back to reading, eight or more to the emit loop. */
  function Pending(image: seq<Pixel>, key: seq<bv8>, len: nat, truncate: bool, found: seq<bv8>, s: Bits, next: nat): Option<seq<bv8>>
    requires KeyFits(key) && next <= |image|
    decreases |image| - next + 1, 1
  {
    if |s| < 8 then DecodeFrom(image, key, len, truncate, found, s, next)
    else Settle(image, key, len, truncate, found, s, next)
  }

  /**
   * The emit loop and the count test: every complete byte is appended; the
   * program stops when the count equals len, the corrected decoder when it
   * reaches len, keeping the first len bytes.
   */
  function Settle(image: seq<Pixel>, key: seq<bv8>, len: nat, truncate: bool, found: seq<bv8>, s: Bits, next: nat): Option<seq<bv8>>
    requires KeyFits(key) && next <= |image|
    decreases |image| - next + 1, 0
  {
    var e := Emit(s);
    var count := found + e.0;
    if truncate && |count| >= len then Some(count[..len])
    else if !truncate && |count| == len then Some(count)
    else DecodeFrom(image, key, len, truncate, count, e.1, next)
  }

  /** bmpDecode as written: the bytes read when the count first equals len; None when the pixels run out first. */
  function Decoded(image: seq<Pixel>, key: seq<bv8>, len: nat): Option<seq<bv8>>
    requires KeyFits(key)
  {
    if len == 0 then Some([]) else DecodeFrom(image, key, len, false, [], [], 0)
  }

  /** bmpDecode stopping at len: the first len bytes once at least len have been read. */
  function DecodedTruncated(image: seq<Pixel>, key: seq<bv8>, len: nat): Option<seq<bv8>>
    requires KeyFits(key)
  {
    if len == 0 then Some([]) else DecodeFrom(image, key, len, true, [], [], 0)
  }

  // ---------------------------------------------------------------------------
  // The decoder

  /** ReadFromBitmap: the last arrColor digits of red, green and blue of pixel pos. */
  method ReadFromBitmap(image: array<Pixel>, width: nat, pos: nat, arrColor: nat) returns (retStr: Bits)
    requires 0 < width && pos < image.Length && arrColor <= 8
    ensures retStr == ReadPixel(image[pos], arrColor)
  {
    var posY := pos / width;
    var posX := pos - posY * width;
    var pixel := image[posY * width + posX];
    var pixelColor := [pixel.r, pixel.g, pixel.b];
    retStr := [];
    for j := 0 to 3
      invariant retStr == if j == 0 then [] else if j == 1 then ExtractChannel(pixel.r, arrColor)
        else if j == 2 then ExtractChannel(pixel.r, arrColor) + ExtractChannel(pixel.g, arrColor)
        else ReadPixel(pixel, arrColor)
    {
      var str := ByteBits(pixelColor[j]);
      str := str[8 - arrColor..];
      retStr := retStr + str;
    }
  }

  /** bmpDecode on the pixels of a bitmap of the given width; None where the program throws. */
  method BmpDecode(image: array<Pixel>, width: nat, len: nat, key: seq<bv8>) returns (r: Option<seq<bv8>>)
    requires 0 < width && KeyFits(key)
    ensures r == Decoded(image[..], key, len)
  {
    var findInfo: seq<bv8> := [];
    var bmpPos := 0;
    var strInfo: Bits := [];
    while |findInfo| != len
      invariant |strInfo| < 8 && bmpPos <= image.Length
      invariant |findInfo| != len ==> Decoded(image[..], key, len) == DecodeFrom(image[..], key, len, false, findInfo, strInfo, bmpPos)
      invariant |findInfo| == len ==> Decoded(image[..], key, len) == Some(findInfo)
      decreases image.Length - bmpPos
    {
      var ok;
      ok, strInfo, bmpPos := ReadPixels(image, width, len, key, findInfo, strInfo, bmpPos);
      if !ok {
        return None;
      }
      findInfo, strInfo := EmitBytes(findInfo, strInfo);
    }
    r := Some(findInfo);
  }

  /** The read loop of bmpDecode: pixels are read until eight digits are pending; false when the pixels run out. */
  method ReadPixels(image: array<Pixel>, width: nat, len: nat, key: seq<bv8>, findInfo: seq<bv8>, str: Bits, pos: nat)
    returns (ok: bool, strInfo: Bits, bmpPos: nat)
    requires 0 < width && KeyFits(key) && |str| < 8 && pos <= image.Length
    ensures !ok ==> DecodeFrom(image[..], key, len, false, findInfo, str, pos) == None
    ensures ok ==> pos < bmpPos <= image.Length && |strInfo| >= 8
    ensures ok ==> DecodeFrom(image[..], key, len, false, findInfo, str, pos) == Settle(image[..], key, len, false, findInfo, strInfo, bmpPos)
  {
    ghost var img := image[..];
    ghost var target := DecodeFrom(img, key, len, false, findInfo, str, pos);
    strInfo, bmpPos := str, pos;
    while |strInfo| < 8 && bmpPos < image.Length
      invariant pos <= bmpPos <= |img|
      invariant bmpPos == pos ==> strInfo == str
      invariant bmpPos > pos ==> target == Pending(img, key, len, false, findInfo, strInfo, bmpPos)
      decreases |img| - bmpPos
    {
      var bits := ReadFromBitmap(image, width, bmpPos, KeyAt(key, bmpPos));
      ReadOneMore(img, key, len, findInfo, str, pos, strInfo, bmpPos, bits);
      strInfo := strInfo + bits;
      bmpPos := bmpPos + 1;
    }
    ok := |strInfo| >= 8;
  }

  /** One more pixel read while fewer than eight digits are pending: the decoder goes on from the longer pending digits. */
  lemma ReadOneMore(img: seq<Pixel>, key: seq<bv8>, len: nat, findInfo: seq<bv8>, str: Bits, pos: nat,
                    strInfo: Bits, bmpPos: nat, bits: Bits)
    requires KeyFits(key) && pos <= bmpPos < |img| && |strInfo| < 8
    requires bmpPos == pos ==> strInfo == str
    requires bmpPos > pos ==> DecodeFrom(img, key, len, false, findInfo, str, pos) == Pending(img, key, len, false, findInfo, strInfo, bmpPos)
    requires bits == ReadPixel(img[bmpPos], KeyAt(key, bmpPos))
    ensures DecodeFrom(img, key, len, false, findInfo, str, pos) == Pending(img, key, len, false, findInfo, strInfo + bits, bmpPos + 1)
  {
  }
}
