/**
 * The raster encoder (bmpEncode). The bytes to hide become one bit stream,
 * eight digits per byte; pixel p, in row-major order, hides 3 * key[p mod n]
 * bits of it, where key is the stego key. Whole pixels are written while
 * the stream holds enough bits for the next one; at the end the stream is
 * padded with '0' to a multiple of the next pixel's share and written out.
 *
 * The bitmap is a row-major array of pixels of a given width: pixel (x, y)
 * is entry y * width + x. A pixel index past the last pixel makes GetPixel
 * throw; every such failure, and the division by zero of the padding step,
 * is an outcome None of the specification and `false` from the method.
 */
module RasterCodec {
  import opened Wrappers
  import opened ByteCodec
  import opened BitStrings
  import opened RasterPixel
  import opened Streams
  import opened Sequences

  /** A key the codec can use: non-empty, no entry above 8 bits per channel (larger ones make Substring throw). */
  predicate KeyFits(key: seq<bv8>)
  {
    |key| > 0 && forall i :: 0 <= i < |key| ==> key[i] <= 8
  }

  /** The bits per channel of pixel p: the key is used cyclically from pixel 0 on. */
  function KeyAt(key: seq<bv8>, p: nat): (k: nat)
    requires KeyFits(key)
    ensures k <= 8
  {
    key[p % |key|] as nat
  }

  /** The encoder's state: the image so far, the bits not yet written, the next pixel. */
  datatype Cursor = Cursor(image: seq<Pixel>, stream: Bits, pos: nat)

  /** The cursor after writing the next pixel with its share of the stream. */
  function Advance(c: Cursor, key: seq<bv8>): (next: Cursor)
    requires KeyFits(key) && c.pos < |c.image| && 3 * KeyAt(key, c.pos) <= |c.stream|
    ensures |next.image| == |c.image| && next.pos == c.pos + 1
  {
    var k := KeyAt(key, c.pos);
    Cursor(c.image[c.pos := WritePixel(c.image[c.pos], k, c.stream)], c.stream[3 * k..], c.pos + 1)
  }

  /**
   * The inner loop of the encoder: while the stream holds the 3k bits the
   * next pixel takes, that pixel is written. None when the pixels run out.
   */
  function Fill(c: Cursor, key: seq<bv8>): Option<Cursor>
    requires KeyFits(key)
    decreases |c.image| - c.pos
  {
    var k := KeyAt(key, c.pos);
    if |c.stream| < 3 * k then Some(c)
    else if c.pos >= |c.image| then None
    else Fill(Advance(c, key), key)
  }

  /** The main loop of the encoder: each byte's digits are appended to the stream, then whole pixels are written. */
  function MainPhase(image: seq<Pixel>, key: seq<bv8>, data: seq<bv8>): Option<Cursor>
    requires KeyFits(key)
  {
    if |data| == 0 then Some(Cursor(image, [], 0))
    else match MainPhase(image, key, data[..|data| - 1])
      case None => None
      case Some(c) => Fill(Cursor(c.image, c.stream + ByteBits(data[|data| - 1]), c.pos), key)
  }

  /** The last loop of the encoder: pixels are written while the stream is non-empty. */
  function Drain(c: Cursor, key: seq<bv8>): Option<Cursor>
    requires KeyFits(key)
    decreases |c.image| - c.pos
  {
    if |c.stream| == 0 then Some(c)
    else if c.pos >= |c.image| then None
    else
      var k := KeyAt(key, c.pos);
      if |c.stream| < 3 * k then None
      else Drain(Advance(c, key), key)
  }

  /**
   * The image bmpEncode produces: the main loop, then the stream padded with
   * '0' to a multiple of the next pixel's share (a share of 0 divides by
   * zero), then the padded rest written out.
   */
  function Encoded(image: seq<Pixel>, key: seq<bv8>, data: seq<bv8>): Option<seq<Pixel>>
    requires KeyFits(key)
  {
    match MainPhase(image, key, data)
    case None => None
    case Some(c) =>
      var unit := 3 * KeyAt(key, c.pos);
      if unit == 0 then None
      else
        var d := Drain(Cursor(c.image, c.stream + Zeros(PadBits(|c.stream|, unit)), c.pos), key);
        if d.None? then None else Some(d.value.image)
  }

  // ---------------------------------------------------------------------------
  // The encoder

  /**
   * WriteToBitmap: pixel pos, found at column pos - (pos / width) * width of
   * row pos / width, hides the first 3 * arrColor bits of the stream, which
   * the method returns without them.
   */
  method WriteToBitmap(image: array<Pixel>, width: nat, pos: nat, arrColor: nat, hideStr: Bits) returns (rest: Bits)
    requires 0 < width && pos < image.Length
    requires arrColor <= 8 && 3 * arrColor <= |hideStr|
    modifies image
    ensures image[..] == old(image[..])[pos := WritePixel(old(image[pos]), arrColor, hideStr)]
    ensures rest == hideStr[3 * arrColor..]
  {
    var posY := pos / width;
    var posX := pos - posY * width;
    var pixel := image[posY * width + posX];
    var pixelColor := new bv8[3];
    pixelColor[0], pixelColor[1], pixelColor[2] := pixel.r, pixel.g, pixel.b;
    rest := HideInChannels(pixelColor, arrColor, hideStr);
    image[posY * width + posX] := Pixel(255, pixelColor[0], pixelColor[1], pixelColor[2]);
  }

  /** The channel loop of WriteToBitmap: channel j keeps its first 8 - arrColor digits and takes the next arrColor stream bits. */
  method HideInChannels(pixelColor: array<bv8>, arrColor: nat, hideStr: Bits) returns (rest: Bits)
    requires pixelColor.Length == 3
    requires arrColor <= 8 && 3 * arrColor <= |hideStr|
    modifies pixelColor
    ensures pixelColor[0] == EmbedChannel(old(pixelColor[0]), arrColor, hideStr)
    ensures pixelColor[1] == EmbedChannel(old(pixelColor[1]), arrColor, hideStr[arrColor..])
    ensures pixelColor[2] == EmbedChannel(old(pixelColor[2]), arrColor, hideStr[2 * arrColor..])
    ensures rest == hideStr[3 * arrColor..]
  {
    ghost var starts := [0, arrColor, 2 * arrColor, 3 * arrColor];
    var pending := hideStr;
    for j := 0 to 3
      invariant pending == hideStr[starts[j]..]
      invariant pixelColor[0] == if j > 0 then EmbedChannel(old(pixelColor[0]), arrColor, hideStr) else old(pixelColor[0])
      invariant pixelColor[1] == if j > 1 then EmbedChannel(old(pixelColor[1]), arrColor, hideStr[arrColor..]) else old(pixelColor[1])
      invariant pixelColor[2] == if j > 2 then EmbedChannel(old(pixelColor[2]), arrColor, hideStr[2 * arrColor..]) else old(pixelColor[2])
    {
      HideInChannel(pixelColor, j, arrColor, pending);
      DropDrop(hideStr, starts[j], arrColor);
      pending := pending[arrColor..];
    }
    assert hideStr[starts[0]..] == hideStr;
    rest := pending;
  }

  /** One pass of the channel loop: channel j keeps its first 8 - arrColor digits and takes the first arrColor pending bits. */
  method HideInChannel(pixelColor: array<bv8>, j: nat, arrColor: nat, pending: Bits)
    requires j < pixelColor.Length && arrColor <= 8 && arrColor <= |pending|
    modifies pixelColor
    ensures pixelColor[..] == old(pixelColor[..])[j := EmbedChannel(old(pixelColor[j]), arrColor, pending)]
  {
    var str := ByteBits(pixelColor[j]);
    str := str[..8 - arrColor];
    str := str + pending[..arrColor];
    pixelColor[j] := ToByte(str);
  }

  /** The inner loop of bmpEncode, from the stream of one more byte on. */
  method WritePixels(image: array<Pixel>, width: nat, stegoKey: seq<bv8>, stream: Bits, pos: nat)
    returns (ok: bool, rest: Bits, next: nat)
    requires 0 < width && KeyFits(stegoKey)
    modifies image
    ensures ok <==> Fill(Cursor(old(image[..]), stream, pos), stegoKey).Some?
    ensures ok ==> Fill(Cursor(old(image[..]), stream, pos), stegoKey) == Some(Cursor(image[..], rest, next))
  {
    rest, next := stream, pos;
    while |rest| >= 3 * KeyAt(stegoKey, next)
      invariant Fill(Cursor(image[..], rest, next), stegoKey) == Fill(Cursor(old(image[..]), stream, pos), stegoKey)
      decreases image.Length - next
    {
      if next >= image.Length {
        return false, rest, next;
      }
      ghost var before := Cursor(image[..], rest, next);
      rest := WriteToBitmap(image, width, next, KeyAt(stegoKey, next), rest);
      next := next + 1;
      assert Cursor(image[..], rest, next) == Advance(before, stegoKey);
    }
    ok := true;
  }

  /** The last loop of bmpEncode: pixels are written until the stream is empty. */
  method WriteRest(image: array<Pixel>, width: nat, stegoKey: seq<bv8>, stream: Bits, pos: nat) returns (ok: bool)
    requires 0 < width && KeyFits(stegoKey)
    modifies image
    ensures ok <==> Drain(Cursor(old(image[..]), stream, pos), stegoKey).Some?
    ensures ok ==> Drain(Cursor(old(image[..]), stream, pos), stegoKey).value.image == image[..]
  {
    var rest, next := stream, pos;
    while |rest| != 0
      invariant Drain(Cursor(image[..], rest, next), stegoKey) == Drain(Cursor(old(image[..]), stream, pos), stegoKey)
      decreases image.Length - next
    {
      if next >= image.Length || |rest| < 3 * KeyAt(stegoKey, next) {
        return false;
      }
      ghost var before := Cursor(image[..], rest, next);
      rest := WriteToBitmap(image, width, next, KeyAt(stegoKey, next), rest);
      next := next + 1;
      assert Cursor(image[..], rest, next) == Advance(before, stegoKey);
    }
    ok := true;
  }

  /** bmpEncode on the pixels of a bitmap of the given width; false where the program throws. */
  method BmpEncode(dataToEmbed: seq<bv8>, image: array<Pixel>, width: nat, stegoKey: seq<bv8>) returns (ok: bool)
    requires 0 < width && KeyFits(stegoKey)
    modifies image
    ensures ok <==> Encoded(old(image[..]), stegoKey, dataToEmbed).Some?
    ensures ok ==> image[..] == Encoded(old(image[..]), stegoKey, dataToEmbed).value
  {
    var dataBitStream, currentPixelIndex;
    ok, dataBitStream, currentPixelIndex := EncodeBytes(dataToEmbed, image, width, stegoKey);
    if !ok {
      return;
    }
    var unit := 3 * KeyAt(stegoKey, currentPixelIndex);
    if unit == 0 {
      return false;
    }
    dataBitStream := PadStream(dataBitStream, unit);
    ok := WriteRest(image, width, stegoKey, dataBitStream, currentPixelIndex);
  }

  /** The main loop of bmpEncode: the state it leaves is the one MainPhase describes. */
  method EncodeBytes(dataToEmbed: seq<bv8>, image: array<Pixel>, width: nat, stegoKey: seq<bv8>)
    returns (ok: bool, dataBitStream: Bits, currentPixelIndex: nat)
    requires 0 < width && KeyFits(stegoKey)
    modifies image
    ensures ok <==> MainPhase(old(image[..]), stegoKey, dataToEmbed).Some?
    ensures ok ==> MainPhase(old(image[..]), stegoKey, dataToEmbed) == Some(Cursor(image[..], dataBitStream, currentPixelIndex))
  {
    currentPixelIndex := 0;
    dataBitStream := [];
    for dataByteIndex := 0 to |dataToEmbed|
      invariant MainPhase(old(image[..]), stegoKey, dataToEmbed[..dataByteIndex])
        == Some(Cursor(image[..], dataBitStream, currentPixelIndex))
    {
      assert dataToEmbed[..dataByteIndex + 1][..dataByteIndex] == dataToEmbed[..dataByteIndex];
      dataBitStream := dataBitStream + ByteBits(dataToEmbed[dataByteIndex]);
      ok, dataBitStream, currentPixelIndex := WritePixels(image, width, stegoKey, dataBitStream, currentPixelIndex);
      if !ok {
        MainPhaseFails(old(image[..]), stegoKey, dataToEmbed, dataByteIndex + 1);
        return;
      }
    }
    assert dataToEmbed[..|dataToEmbed|] == dataToEmbed;
    ok := true;
  }

  /** Once the main loop fails on a prefix of the data it fails on the whole. */
  lemma {:induction false} MainPhaseFails(image: seq<Pixel>, key: seq<bv8>, data: seq<bv8>, i: nat)
    requires KeyFits(key) && i <= |data|
    requires MainPhase(image, key, data[..i]) == None
    ensures MainPhase(image, key, data) == None
    decreases |data| - i
  {
    if i < |data| {
      assert data[..i + 1][..i] == data[..i];
      MainPhaseFails(image, key, data, i + 1);
    } else {
      assert data[..i] == data;
    }
  }
}
