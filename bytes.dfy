/**
 * Byte-level number encodings shared by the payload frame and the audio codec:
 * a small natural number as a byte, fixed-width big-endian and little-endian
 * unsigned integers, and the 32-bit signed reading of an unsigned value (the
 * C# `(int)` cast).
 */
module ByteCodec {

  /** The byte whose unsigned value is n (the C# `(byte)n` for n below 256). */
  function ByteOf(n: nat): (b: bv8)
    requires n < 256
    ensures b as int == n
  {
    if n == 0 then 0 else ByteOf(n - 1) + 1
  }

  /** 256 to the power k. */
  function Pow256(k: nat): (p: nat)
    ensures p > 0
  {
    if k == 0 then 1 else 256 * Pow256(k - 1)
  }

  /** The low `width` bytes of n, most significant first: byte j is (n >> 8 * (width - 1 - j)) & 0xFF. */
  function BigEndian(n: nat, width: nat): (bytes: seq<bv8>)
    ensures |bytes| == width
  {
    if width == 0 then [] else BigEndian(n / 256, width - 1) + [ByteOf(n % 256)]
  }

  /** The unsigned value of bytes read most significant first, as `value = (value << 8) | b`. */
  function ReadBigEndian(bytes: seq<bv8>): (value: nat)
    ensures value < Pow256(|bytes|)
  {
    if |bytes| == 0 then 0
    else
      var high := ReadBigEndian(bytes[..|bytes| - 1]);
      assert high * 256 + 256 <= Pow256(|bytes|) by {
        assert high + 1 <= Pow256(|bytes| - 1);
      }
      high * 256 + bytes[|bytes| - 1] as nat
  }

  /** The unsigned value of bytes read least significant first. */
  function ReadLittleEndian(bytes: seq<bv8>): (value: nat)
    ensures value < Pow256(|bytes|)
  {
    if |bytes| == 0 then 0
    else
      var high := ReadLittleEndian(bytes[1..]);
      assert high * 256 + 256 <= Pow256(|bytes|) by {
        assert high + 1 <= Pow256(|bytes| - 1);
      }
      bytes[0] as nat + 256 * high
  }

  /** The C# `(int)` cast of a non-negative value: its low 32 bits read as a two's-complement number. */
  function AsInt32(n: nat): (r: int)
    ensures -0x8000_0000 <= r < 0x8000_0000
    ensures n < 0x8000_0000 ==> r == n
  {
    var low := n % 0x1_0000_0000;
    if low < 0x8000_0000 then low else low - 0x1_0000_0000
  }

  lemma MulAtLeast(k: int, m: int)
    requires m > 0 && k >= 1
    ensures k * m >= m
  {
  }

  /** n % m is the remainder of any decomposition n == a * m + c with 0 <= c < m. */
  lemma ModUnique(n: int, m: int, a: int, c: int)
    requires m > 0 && n == a * m + c && 0 <= c < m
    ensures n % m == c
  {
    var q, r := n / m, n % m;
    assert (a - q) * m == r - c;
    if a > q {
      MulAtLeast(a - q, m);
    } else if a < q {
      assert (q - a) * m == c - r;
      MulAtLeast(q - a, m);
    }
  }

  /** n / m is the quotient of any decomposition n == a * m + c with 0 <= c < m. */
  lemma DivUnique(n: int, m: int, a: int, c: int)
    requires m > 0 && n == a * m + c && 0 <= c < m
    ensures n / m == a
  {
    var q, r := n / m, n % m;
    assert (a - q) * m == r - c;
    if a > q {
      MulAtLeast(a - q, m);
    } else if a < q {
      assert (q - a) * m == c - r;
      MulAtLeast(q - a, m);
    }
  }

  lemma ModStep(n: nat, m: nat)
    requires m > 0
    ensures (n / 256 % m) * 256 + n % 256 == n % (256 * m)
  {
    var q := n / 256;
    var r := n % 256;
    var a := q / m;
    var b := q % m;
    assert n == a * (256 * m) + (b * 256 + r) by {
      assert q == a * m + b;
      assert n == q * 256 + r;
    }
    assert b * 256 + r < 256 * m by {
      assert b * 256 <= (m - 1) * 256;
    }
    ModUnique(n, 256 * m, a, b * 256 + r);
  }

  /** Reading back the big-endian bytes of n gives n modulo 256^width. */
  lemma {:induction false} BigEndianRoundTrip(n: nat, width: nat)
    ensures ReadBigEndian(BigEndian(n, width)) == n % Pow256(width)
  {
    if width > 0 {
      var bytes := BigEndian(n, width);
      assert bytes[..width - 1] == BigEndian(n / 256, width - 1);
      BigEndianRoundTrip(n / 256, width - 1);
      ModStep(n, Pow256(width - 1));
    }
  }

  /** A value below 256^width survives its big-endian bytes unchanged. */
  lemma BigEndianExact(n: nat, width: nat)
    requires n < Pow256(width)
    ensures ReadBigEndian(BigEndian(n, width)) == n
  {
    assert ReadBigEndian(BigEndian(n, width)) == n % Pow256(width) by {
      BigEndianRoundTrip(n, width);
    }
    ModUnique(n, Pow256(width), 0, n);
  }
}
