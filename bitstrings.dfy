/**
 * The binary strings the codecs work with. The program keeps bits as .NET
 * strings of '0' and '1' characters; here a binary string is a sequence of
 * booleans, true standing for '1'. The operations are the ones the codecs
 * use: `Convert.ToString(n, 2)`, `HelpTools.AutoAddByte` (left padding
 * with '0'), and `Convert.ToByte` / `Convert.ToInt32` with base 2.
 */
module BitStrings {
  import opened ByteCodec

  /** A binary string: its digits, most significant first; true is '1'. */
  type Bits = seq<bool>

  /** 2 to the power k. */
  function Pow2(k: nat): (p: nat)
    ensures p > 0
  {
    if k == 0 then 1 else 2 * Pow2(k - 1)
  }

  function Digit(b: bool): nat
  {
    if b then 1 else 0
  }

  /** The number a binary string denotes (`Convert.ToInt32(s, 2)` for strings shorter than 32 digits). */
  function Value(s: Bits): (v: nat)
    ensures v < Pow2(|s|)
  {
    if |s| == 0 then 0 else 2 * Value(s[..|s| - 1]) + Digit(s[|s| - 1])
  }

  /** `Convert.ToString(n, 2)`: the digits of n without leading zeros, "0" for zero. */
  function Binary(n: nat): (s: Bits)
    ensures |s| > 0
    decreases n
  {
    if n < 2 then [n == 1] else Binary(n / 2) + [n % 2 == 1]
  }

  /** n copies of '0'. */
  function Zeros(n: nat): (s: Bits)
    ensures |s| == n && forall i :: 0 <= i < n ==> !s[i]
  {
    seq(n, _ => false)
  }

  /** What AutoAddByte returns: the string, preceded by enough '0' to reach the target length. */
  function LeftPad(s: Bits, targetLength: int): Bits
  {
    if |s| >= targetLength then s else Zeros(targetLength - |s|) + s
  }

  /** HelpTools.AutoAddByte: '0' is prepended while the string is shorter than the target length. */
  method AutoAddByte(binaryString: Bits, targetLength: int) returns (r: Bits)
    ensures r == LeftPad(binaryString, targetLength)
    ensures |r| == if |binaryString| >= targetLength then |binaryString| else targetLength
    ensures r[|r| - |binaryString|..] == binaryString
    ensures forall i :: 0 <= i < |r| - |binaryString| ==> !r[i]
  {
    r := binaryString;
    while |r| < targetLength
      invariant |binaryString| <= |r|
      invariant |r| > |binaryString| ==> |r| <= targetLength
      invariant r == Zeros(|r| - |binaryString|) + binaryString
      decreases targetLength - |r|
    {
      r := [false] + r;
    }
  }

  // ---------------------------------------------------------------------------
  // Values of binary strings

  /** Leading zeros do not change the value. */
  lemma {:induction false} ValueLeadingZeros(n: nat, s: Bits)
    ensures Value(Zeros(n) + s) == Value(s)
    decreases |s|
  {
    if |s| == 0 {
      ZerosValue(n);
      assert Zeros(n) + s == Zeros(n);
    } else {
      var t := Zeros(n) + s;
      assert t[..|t| - 1] == Zeros(n) + s[..|s| - 1];
      ValueLeadingZeros(n, s[..|s| - 1]);
    }
  }

  lemma {:induction false} ZerosValue(n: nat)
    ensures Value(Zeros(n)) == 0
  {
    if n > 0 {
      assert Zeros(n)[..n - 1] == Zeros(n - 1);
      ZerosValue(n - 1);
    }
  }

  /** Padding keeps the value and the digits, and pads to at least the target length; padding twice pads once. */
  lemma LeftPadFacts(s: Bits, targetLength: int)
    ensures Value(LeftPad(s, targetLength)) == Value(s)
    ensures LeftPad(LeftPad(s, targetLength), targetLength) == LeftPad(s, targetLength)
  {
    if |s| < targetLength {
      ValueLeadingZeros(targetLength - |s|, s);
    }
  }

  /** The value of a concatenation: the first part shifted left by the length of the second. */
  lemma {:induction false} ValueAppend(a: Bits, b: Bits)
    ensures Value(a + b) == Value(a) * Pow2(|b|) + Value(b)
    decreases |b|
  {
    if |b| == 0 {
      assert a + b == a;
    } else {
      var t := a + b;
      var init := b[..|b| - 1];
      var last := Digit(b[|b| - 1]);
      assert t[..|t| - 1] == a + init;
      ValueAppend(a, init);
      assert Value(b) == 2 * Value(init) + last;
      ShiftStep(Value(a), Value(init), Pow2(|init|), last);
    }
  }

  lemma ShiftStep(high: int, low: int, p: int, last: int)
    ensures 2 * (high * p + low) + last == high * (2 * p) + (2 * low + last)
  {
  }

  /** A string starting with '1' is worth at least 2^(length-1). */
  lemma {:induction false} LeadingOne(s: Bits)
    requires |s| > 0 && s[0]
    ensures Value(s) >= Pow2(|s| - 1)
    decreases |s|
  {
    if |s| > 1 {
      assert s[..|s| - 1][0];
      LeadingOne(s[..|s| - 1]);
    }
  }

  /** Binary(n) denotes n and has no leading zero unless n is zero. */
  lemma {:induction false} BinaryFacts(n: nat)
    ensures Value(Binary(n)) == n
    ensures n > 0 ==> Binary(n)[0]
    decreases n
  {
    if n >= 2 {
      BinaryFacts(n / 2);
      var s := Binary(n);
      assert s[..|s| - 1] == Binary(n / 2);
    }
  }

  /** Binary(n) fits in any width whose power of two exceeds n. */
  lemma BinaryFits(n: nat, width: nat)
    requires n < Pow2(width)
    ensures |Binary(n)| <= width || (n == 0 && width == 0)
  {
    BinaryFacts(n);
    if n > 0 {
      LeadingOne(Binary(n));
      PowOrder(|Binary(n)| - 1, width);
    }
  }

  /** Powers of two are ordered as their exponents. */
  lemma PowOrder(a: nat, b: nat)
    ensures Pow2(a) < Pow2(b) ==> a < b
  {
    if a >= b {
      PowMonotone(b, a);
    }
  }

  lemma {:induction false} PowMonotone(a: nat, b: nat)
    requires a <= b
    ensures Pow2(a) <= Pow2(b)
    decreases b
  {
    if a < b {
      PowMonotone(a, b - 1);
    }
  }

  // ---------------------------------------------------------------------------
  // Fixed-width strings

  /** The low `width` bits of n, most significant first. */
  function FixedBits(n: nat, width: nat): (s: Bits)
    ensures |s| == width
  {
    if width == 0 then [] else FixedBits(n / 2, width - 1) + [n % 2 == 1]
  }

  /** A string is the fixed-width digits of its own value. */
  lemma {:induction false} FixedBitsOfValue(s: Bits)
    ensures FixedBits(Value(s), |s|) == s
    decreases |s|
  {
    if |s| > 0 {
      var init := s[..|s| - 1];
      FixedBitsOfValue(init);
      assert Value(s) / 2 == Value(init);
      assert s == init + [s[|s| - 1]];
    }
  }

  /** Fixed-width digits read back as the number when it fits. */
  lemma FixedBitsValue(n: nat, width: nat)
    requires n < Pow2(width)
    ensures Value(FixedBits(n, width)) == n
  {
    var s := LeftPad(Binary(n), width);
    BinaryFits(n, width);
    BinaryFacts(n);
    LeftPadFacts(Binary(n), width);
    if width == 0 {
      assert FixedBits(n, width) == [];
    } else {
      assert |s| == width;
      FixedBitsOfValue(s);
    }
  }

  /** Two strings of one length with one value are equal. */
  lemma ValueInjective(s: Bits, t: Bits)
    requires |s| == |t| && Value(s) == Value(t)
    ensures s == t
  {
    FixedBitsOfValue(s);
    FixedBitsOfValue(t);
  }

  // ---------------------------------------------------------------------------
  // Bytes as eight digits

  lemma PowByte()
    ensures Pow2(8) == 256
  {
  }

  /** Two bytes with one value are one byte. */
  lemma SameByte(a: bv8, b: bv8)
    requires a as nat == b as nat
    ensures a == b
  {
  }

  /** The eight digits a codec makes of a byte: AutoAddByte(Convert.ToString(b, 2), 8). */
  function ByteBits(b: bv8): (s: Bits)
    ensures |s| == 8
  {
    ByteBinaryFits(b);
    LeftPad(Binary(b as nat), 8)
  }

  /** The binary digits of a byte are at most eight. */
  lemma ByteBinaryFits(b: bv8)
    ensures |Binary(b as nat)| <= 8
  {
    PowByte();
    BinaryFits(b as nat, 8);
  }

  /** `Convert.ToByte(s, 2)` of an eight-digit string. */
  function ToByte(s: Bits): (b: bv8)
    requires |s| == 8
    ensures b as nat == Value(s)
  {
    ByteOf(Value(s))
  }

  /** A byte's eight digits denote the byte and are its fixed-width digits. */
  lemma ByteBitsFacts(b: bv8)
    ensures Value(ByteBits(b)) == b as nat
    ensures ByteBits(b) == FixedBits(b as nat, 8)
  {
    BinaryFacts(b as nat);
    LeftPadFacts(Binary(b as nat), 8);
    FixedBitsOfValue(ByteBits(b));
  }

  /** A byte survives the trip through its eight digits. */
  lemma ByteOfByteBits(b: bv8)
    ensures ToByte(ByteBits(b)) == b
  {
    ByteBitsFacts(b);
    SameByte(ToByte(ByteBits(b)), b);
  }

  /** Eight digits survive the trip through the byte they denote. */
  lemma ByteBitsOfByte(s: Bits)
    requires |s| == 8
    ensures ByteBits(ToByte(s)) == s
  {
    var b := ToByte(s);
    ByteBitsFacts(b);
    assert Value(ByteBits(b)) == Value(s);
    ValueInjective(ByteBits(b), s);
  }
}
