/**
 * One pixel of the raster codec. A pixel hides k bits in each of its red,
 * green and blue channels: the channel's eight binary digits keep their
 * first 8 - k digits and take the next k stream bits as their last k. The
 * pixel is stored back as an opaque colour (alpha 255).
 */
module RasterPixel {
  import opened BitStrings

  /** A colour as System.Drawing.Color holds it. */
  datatype Pixel = Pixel(a: bv8, r: bv8, g: bv8, b: bv8)

  /** A channel after hiding: its first 8 - k digits, then the first k stream bits, read as a byte. */
  function EmbedChannel(c: bv8, k: nat, bits: Bits): bv8
    requires k <= 8 && k <= |bits|
  {
    ToByte(ByteBits(c)[..8 - k] + bits[..k])
  }

  /** The bits a channel hides: its last k digits. */
  function ExtractChannel(c: bv8, k: nat): (bits: Bits)
    requires k <= 8
    ensures |bits| == k
  {
    ByteBits(c)[8 - k..]
  }

  /** The pixel after hiding 3k stream bits: k in red, then k in green, then k in blue; alpha becomes 255. */
  function WritePixel(p: Pixel, k: nat, bits: Bits): Pixel
    requires k <= 8 && 3 * k <= |bits|
  {
    Pixel(255, EmbedChannel(p.r, k, bits), EmbedChannel(p.g, k, bits[k..]), EmbedChannel(p.b, k, bits[2 * k..]))
  }

  /** The 3k bits a pixel hides: the last k digits of red, green and blue. */
  function ReadPixel(p: Pixel, k: nat): (bits: Bits)
    requires k <= 8
    ensures |bits| == 3 * k
  {
    ExtractChannel(p.r, k) + ExtractChannel(p.g, k) + ExtractChannel(p.b, k)
  }

  // ---------------------------------------------------------------------------
  // Properties

  /** A channel keeps its first 8 - k digits and hides exactly the first k stream bits. */
  lemma EmbedChannelFacts(c: bv8, k: nat, bits: Bits)
    requires k <= 8 && k <= |bits|
    ensures ByteBits(EmbedChannel(c, k, bits))[..8 - k] == ByteBits(c)[..8 - k]
    ensures ExtractChannel(EmbedChannel(c, k, bits), k) == bits[..k]
  {
    var digits := ByteBits(c)[..8 - k] + bits[..k];
    ByteBitsOfByte(digits);
  }

  /** Hiding zero bits leaves the channel as it was. */
  lemma EmbedNothing(c: bv8, bits: Bits)
    ensures EmbedChannel(c, 0, bits) == c
  {
    assert ByteBits(c)[..8] + bits[..0] == ByteBits(c);
    ByteOfByteBits(c);
  }

  /** Reading a pixel just written gives back the 3k bits written. */
  lemma ReadWritePixel(p: Pixel, k: nat, bits: Bits)
    requires k <= 8 && 3 * k <= |bits|
    ensures ReadPixel(WritePixel(p, k, bits), k) == bits[..3 * k]
  {
    var q := WritePixel(p, k, bits);
    var red, green, blue := bits[..k], bits[k..][..k], bits[2 * k..][..k];
    assert ExtractChannel(q.r, k) == red by {
      EmbedChannelFacts(p.r, k, bits);
    }
    assert ExtractChannel(q.g, k) == green by {
      EmbedChannelFacts(p.g, k, bits[k..]);
    }
    assert ExtractChannel(q.b, k) == blue by {
      EmbedChannelFacts(p.b, k, bits[2 * k..]);
    }
    SplitThree(bits, k);
  }

  lemma SplitThree(bits: Bits, k: nat)
    requires 3 * k <= |bits|
    ensures bits[..3 * k] == bits[..k] + bits[k..][..k] + bits[2 * k..][..k]
  {
    var whole, parts := bits[..3 * k], bits[..k] + bits[k..][..k] + bits[2 * k..][..k];
    assert |whole| == |parts|;
    forall i | 0 <= i < 3 * k
      ensures whole[i] == parts[i]
    {
      if i < k {
      } else if i < 2 * k {
        assert parts[i] == bits[k..][..k][i - k];
      } else {
        assert parts[i] == bits[2 * k..][..k][i - 2 * k];
      }
    }
  }

  /** Only the first 3k stream bits matter to a pixel write. */
  lemma WritePixelPrefix(p: Pixel, k: nat, bits: Bits, more: Bits)
    requires k <= 8 && 3 * k <= |bits|
    ensures WritePixel(p, k, bits + more) == WritePixel(p, k, bits)
  {
    var all := bits + more;
    assert all[..k] == bits[..k];
    assert all[k..][..k] == bits[k..][..k];
    assert all[2 * k..][..k] == bits[2 * k..][..k];
  }
}
