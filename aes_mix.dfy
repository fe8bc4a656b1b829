/**
 * The algebra behind MixColumns and InvMixColumns.
 *
 * Addition in GF(2^8) is xor. It is written here as the function `Add`, and
 * its laws (commutativity, associativity) are proved once. Every regrouping
 * of a sum is then a chain of instances of those laws, which keeps the
 * solver from falling back to bit-level parity reasoning.
 *
 * MixColumns multiplies each column by the circulant matrix (2 3 1 1) and
 * InvMixColumns by (14 11 13 9). Both are linear, so the two products are
 * the identity once they are the identity on columns with a single
 * non-zero byte. That is checked byte by byte on closed forms built from
 * XTime.
 */
module AesMix {
  import opened GaloisField

  /** Field addition: bitwise exclusive or. */
  function Add(a: bv8, b: bv8): bv8
  {
    a ^ b
  }

  /** a + b + c. */
  function Sum3(a: bv8, b: bv8, c: bv8): bv8
  {
    Add(Add(a, b), c)
  }

  /** (a + b) + (c + d). */
  function Sum4(a: bv8, b: bv8, c: bv8, d: bv8): bv8
  {
    Add(Add(a, b), Add(c, d))
  }

  lemma AddComm(a: bv8, b: bv8)
    ensures Add(a, b) == Add(b, a)
  {
  }

  lemma AddAssoc(a: bv8, b: bv8, c: bv8)
    ensures Add(Add(a, b), c) == Add(a, Add(b, c))
  {
  }

  /** (a + b) + (c + d) == (a + c) + (b + d), from the two laws above. */
  lemma Interchange(a: bv8, b: bv8, c: bv8, d: bv8)
    ensures Add(Add(a, b), Add(c, d)) == Add(Add(a, c), Add(b, d))
  {
    AddAssoc(a, b, Add(c, d));
    AddAssoc(b, c, d);
    AddComm(b, c);
    AddAssoc(c, b, d);
    AddAssoc(a, c, Add(b, d));
  }

  /** Adding two four-term sums term by term. */
  lemma SumAdd4(a1: bv8, a2: bv8, a3: bv8, a4: bv8, b1: bv8, b2: bv8, b3: bv8, b4: bv8)
    ensures Add(Sum4(a1, a2, a3, a4), Sum4(b1, b2, b3, b4)) == Sum4(Add(a1, b1), Add(a2, b2), Add(a3, b3), Add(a4, b4))
  {
    Interchange(Add(a1, a2), Add(a3, a4), Add(b1, b2), Add(b3, b4));
    Interchange(a1, a2, b1, b2);
    Interchange(a3, a4, b3, b4);
  }

  /** A sum of four four-term sums may be added up by columns instead of rows. */
  lemma Transpose(a1: bv8, a2: bv8, a3: bv8, a4: bv8, b1: bv8, b2: bv8, b3: bv8, b4: bv8, c1: bv8, c2: bv8, c3: bv8, c4: bv8, d1: bv8, d2: bv8, d3: bv8, d4: bv8)
    ensures Sum4(Sum4(a1, a2, a3, a4), Sum4(b1, b2, b3, b4), Sum4(c1, c2, c3, c4), Sum4(d1, d2, d3, d4))
         == Sum4(Sum4(a1, b1, c1, d1), Sum4(a2, b2, c2, d2), Sum4(a3, b3, c3, d3), Sum4(a4, b4, c4, d4))
  {
    SumAdd4(a1, a2, a3, a4, b1, b2, b3, b4);
    SumAdd4(c1, c2, c3, c4, d1, d2, d3, d4);
    SumAdd4(Add(a1, b1), Add(a2, b2), Add(a3, b3), Add(a4, b4), Add(c1, d1), Add(c2, d2), Add(c3, d3), Add(c4, d4));
  }

  /** Multiplication by x distributes over field addition. */
  lemma XTimeLinear(a: bv8, b: bv8)
    ensures XTime(Add(a, b)) == Add(XTime(a), XTime(b))
  {
  }

  lemma XTimeLinear4(a: bv8, b: bv8, c: bv8, d: bv8)
    ensures XTime(Sum4(a, b, c, d)) == Sum4(XTime(a), XTime(b), XTime(c), XTime(d))
  {
    XTimeLinear(Add(a, b), Add(c, d));
    XTimeLinear(a, b);
    XTimeLinear(c, d);
  }

  /** Multiplication by x^2 and by x^3. */
  function X2(a: bv8): bv8 { XTime(XTime(a)) }
  function X3(a: bv8): bv8 { XTime(XTime(XTime(a))) }

  /** Multiplication by the constants of MixColumns and InvMixColumns, written with XTime. */
  function Mul2(a: bv8): bv8 { XTime(a) }
  function Mul3(a: bv8): bv8 { Add(XTime(a), a) }
  function Mul9(a: bv8): bv8 { Add(X3(a), a) }
  function Mul11(a: bv8): bv8 { Sum3(X3(a), XTime(a), a) }
  function Mul13(a: bv8): bv8 { Sum3(X3(a), X2(a), a) }
  function Mul14(a: bv8): bv8 { Sum3(X3(a), X2(a), XTime(a)) }

  lemma X3Linear4(a: bv8, b: bv8, c: bv8, d: bv8)
    ensures X2(Sum4(a, b, c, d)) == Sum4(X2(a), X2(b), X2(c), X2(d))
    ensures X3(Sum4(a, b, c, d)) == Sum4(X3(a), X3(b), X3(c), X3(d))
  {
    XTimeLinear4(a, b, c, d);
    XTimeLinear4(XTime(a), XTime(b), XTime(c), XTime(d));
    XTimeLinear4(X2(a), X2(b), X2(c), X2(d));
  }

  /** Each constant multiplication distributes over a four-term sum. */
  lemma Mul3Linear4(a: bv8, b: bv8, c: bv8, d: bv8)
    ensures Mul3(Sum4(a, b, c, d)) == Sum4(Mul3(a), Mul3(b), Mul3(c), Mul3(d))
  {
    XTimeLinear4(a, b, c, d);
    SumAdd4(XTime(a), XTime(b), XTime(c), XTime(d), a, b, c, d);
  }

  lemma Mul9Linear4(a: bv8, b: bv8, c: bv8, d: bv8)
    ensures Mul9(Sum4(a, b, c, d)) == Sum4(Mul9(a), Mul9(b), Mul9(c), Mul9(d))
  {
    X3Linear4(a, b, c, d);
    SumAdd4(X3(a), X3(b), X3(c), X3(d), a, b, c, d);
  }

  lemma Mul11Linear4(a: bv8, b: bv8, c: bv8, d: bv8)
    ensures Mul11(Sum4(a, b, c, d)) == Sum4(Mul11(a), Mul11(b), Mul11(c), Mul11(d))
  {
    XTimeLinear4(a, b, c, d);
    X3Linear4(a, b, c, d);
    SumAdd4(X3(a), X3(b), X3(c), X3(d), XTime(a), XTime(b), XTime(c), XTime(d));
    SumAdd4(Add(X3(a), XTime(a)), Add(X3(b), XTime(b)), Add(X3(c), XTime(c)), Add(X3(d), XTime(d)), a, b, c, d);
  }

  lemma Mul13Linear4(a: bv8, b: bv8, c: bv8, d: bv8)
    ensures Mul13(Sum4(a, b, c, d)) == Sum4(Mul13(a), Mul13(b), Mul13(c), Mul13(d))
  {
    X3Linear4(a, b, c, d);
    SumAdd4(X3(a), X3(b), X3(c), X3(d), X2(a), X2(b), X2(c), X2(d));
    SumAdd4(Add(X3(a), X2(a)), Add(X3(b), X2(b)), Add(X3(c), X2(c)), Add(X3(d), X2(d)), a, b, c, d);
  }

  lemma Mul14Linear4(a: bv8, b: bv8, c: bv8, d: bv8)
    ensures Mul14(Sum4(a, b, c, d)) == Sum4(Mul14(a), Mul14(b), Mul14(c), Mul14(d))
  {
    XTimeLinear4(a, b, c, d);
    X3Linear4(a, b, c, d);
    SumAdd4(X3(a), X3(b), X3(c), X3(d), X2(a), X2(b), X2(c), X2(d));
    SumAdd4(Add(X3(a), X2(a)), Add(X3(b), X2(b)), Add(X3(c), X2(c)), Add(X3(d), X2(d)), XTime(a), XTime(b), XTime(c), XTime(d));
  }

  /** One output byte of MixColumns: 2a + 3b + c + d. */
  function MixByte(a: bv8, b: bv8, c: bv8, d: bv8): bv8
  {
    Sum4(Mul2(a), Mul3(b), c, d)
  }

  /** One output byte of InvMixColumns: 14a + 11b + 13c + 9d. */
  function InvMixByte(a: bv8, b: bv8, c: bv8, d: bv8): bv8
  {
    Sum4(Mul14(a), Mul11(b), Mul13(c), Mul9(d))
  }

  /** The first byte of InvMixColumns applied to MixColumns of the column (a, b, c, d). */
  function RoundTrip(a: bv8, b: bv8, c: bv8, d: bv8): bv8
  {
    InvMixByte(MixByte(a, b, c, d), MixByte(b, c, d, a), MixByte(c, d, a, b), MixByte(d, a, b, c))
  }

  /** The MixColumns byte is linear in each argument. */
  lemma MixByteLinear4(a1: bv8, a2: bv8, a3: bv8, a4: bv8, b1: bv8, b2: bv8, b3: bv8, b4: bv8, c1: bv8, c2: bv8, c3: bv8, c4: bv8, d1: bv8, d2: bv8, d3: bv8, d4: bv8)
    ensures MixByte(Sum4(a1, a2, a3, a4), Sum4(b1, b2, b3, b4), Sum4(c1, c2, c3, c4), Sum4(d1, d2, d3, d4))
         == Sum4(MixByte(a1, b1, c1, d1), MixByte(a2, b2, c2, d2), MixByte(a3, b3, c3, d3), MixByte(a4, b4, c4, d4))
  {
    XTimeLinear4(a1, a2, a3, a4);
    Mul3Linear4(b1, b2, b3, b4);
    Transpose(Mul2(a1), Mul2(a2), Mul2(a3), Mul2(a4), Mul3(b1), Mul3(b2), Mul3(b3), Mul3(b4), c1, c2, c3, c4, d1, d2, d3, d4);
  }

  /** The InvMixColumns byte is linear in each argument. */
  lemma InvMixByteLinear4(a1: bv8, a2: bv8, a3: bv8, a4: bv8, b1: bv8, b2: bv8, b3: bv8, b4: bv8, c1: bv8, c2: bv8, c3: bv8, c4: bv8, d1: bv8, d2: bv8, d3: bv8, d4: bv8)
    ensures InvMixByte(Sum4(a1, a2, a3, a4), Sum4(b1, b2, b3, b4), Sum4(c1, c2, c3, c4), Sum4(d1, d2, d3, d4))
         == Sum4(InvMixByte(a1, b1, c1, d1), InvMixByte(a2, b2, c2, d2), InvMixByte(a3, b3, c3, d3), InvMixByte(a4, b4, c4, d4))
  {
    Mul14Linear4(a1, a2, a3, a4);
    Mul11Linear4(b1, b2, b3, b4);
    Mul13Linear4(c1, c2, c3, c4);
    Mul9Linear4(d1, d2, d3, d4);
    Transpose(Mul14(a1), Mul14(a2), Mul14(a3), Mul14(a4), Mul11(b1), Mul11(b2), Mul11(b3), Mul11(b4),
              Mul13(c1), Mul13(c2), Mul13(c3), Mul13(c4), Mul9(d1), Mul9(d2), Mul9(d3), Mul9(d4));
  }

  /** Hence so is their composition. */
  lemma RoundTripLinear4(a1: bv8, a2: bv8, a3: bv8, a4: bv8, b1: bv8, b2: bv8, b3: bv8, b4: bv8, c1: bv8, c2: bv8, c3: bv8, c4: bv8, d1: bv8, d2: bv8, d3: bv8, d4: bv8)
    ensures RoundTrip(Sum4(a1, a2, a3, a4), Sum4(b1, b2, b3, b4), Sum4(c1, c2, c3, c4), Sum4(d1, d2, d3, d4))
         == Sum4(RoundTrip(a1, b1, c1, d1), RoundTrip(a2, b2, c2, d2), RoundTrip(a3, b3, c3, d3), RoundTrip(a4, b4, c4, d4))
  {
    MixByteLinear4(a1, a2, a3, a4, b1, b2, b3, b4, c1, c2, c3, c4, d1, d2, d3, d4);
    MixByteLinear4(b1, b2, b3, b4, c1, c2, c3, c4, d1, d2, d3, d4, a1, a2, a3, a4);
    MixByteLinear4(c1, c2, c3, c4, d1, d2, d3, d4, a1, a2, a3, a4, b1, b2, b3, b4);
    MixByteLinear4(d1, d2, d3, d4, a1, a2, a3, a4, b1, b2, b3, b4, c1, c2, c3, c4);
    InvMixByteLinear4(
      MixByte(a1, b1, c1, d1), MixByte(a2, b2, c2, d2), MixByte(a3, b3, c3, d3), MixByte(a4, b4, c4, d4),
      MixByte(b1, c1, d1, a1), MixByte(b2, c2, d2, a2), MixByte(b3, c3, d3, a3), MixByte(b4, c4, d4, a4),
      MixByte(c1, d1, a1, b1), MixByte(c2, d2, a2, b2), MixByte(c3, d3, a3, b3), MixByte(c4, d4, a4, b4),
      MixByte(d1, a1, b1, c1), MixByte(d2, a2, b2, c2), MixByte(d3, a3, b3, c3), MixByte(d4, a4, b4, c4));
  }

  /** The composition on columns with a single non-zero byte, checked on all 256 values. */
  lemma RoundTripFirst(a: bv8)
    ensures RoundTrip(a, 0, 0, 0) == a
  {
  }

  lemma RoundTripSecond(b: bv8)
    ensures RoundTrip(0, b, 0, 0) == 0
  {
  }

  lemma RoundTripThird(c: bv8)
    ensures RoundTrip(0, 0, c, 0) == 0
  {
  }

  lemma RoundTripFourth(d: bv8)
    ensures RoundTrip(0, 0, 0, d) == 0
  {
  }

  /** A byte is the sum of itself and zeros. */
  lemma Split(a: bv8, b: bv8, c: bv8, d: bv8)
    ensures Sum4(a, 0, 0, 0) == a && Sum4(0, b, 0, 0) == b && Sum4(0, 0, c, 0) == c && Sum4(0, 0, 0, d) == d
    ensures Sum4(a, 0, 0, 0) == a && Sum4(0, 0, 0, 0) == 0
  {
  }

  /** InvMixColumns undoes MixColumns on every column. */
  lemma MixInverse(a: bv8, b: bv8, c: bv8, d: bv8)
    ensures RoundTrip(a, b, c, d) == a
  {
    Split(a, b, c, d);
    RoundTripLinear4(a, 0, 0, 0, 0, b, 0, 0, 0, 0, c, 0, 0, 0, 0, d);
    RoundTripFirst(a);
    RoundTripSecond(b);
    RoundTripThird(c);
    RoundTripFourth(d);
  }

  /** The first byte of MixColumns applied to InvMixColumns of the column (a, b, c, d). */
  function RoundTripBack(a: bv8, b: bv8, c: bv8, d: bv8): bv8
  {
    MixByte(InvMixByte(a, b, c, d), InvMixByte(b, c, d, a), InvMixByte(c, d, a, b), InvMixByte(d, a, b, c))
  }

  /** The composition in the other order is linear too. */
  lemma RoundTripBackLinear4(a1: bv8, a2: bv8, a3: bv8, a4: bv8, b1: bv8, b2: bv8, b3: bv8, b4: bv8, c1: bv8, c2: bv8, c3: bv8, c4: bv8, d1: bv8, d2: bv8, d3: bv8, d4: bv8)
    ensures RoundTripBack(Sum4(a1, a2, a3, a4), Sum4(b1, b2, b3, b4), Sum4(c1, c2, c3, c4), Sum4(d1, d2, d3, d4))
         == Sum4(RoundTripBack(a1, b1, c1, d1), RoundTripBack(a2, b2, c2, d2), RoundTripBack(a3, b3, c3, d3), RoundTripBack(a4, b4, c4, d4))
  {
    InvMixByteLinear4(a1, a2, a3, a4, b1, b2, b3, b4, c1, c2, c3, c4, d1, d2, d3, d4);
    InvMixByteLinear4(b1, b2, b3, b4, c1, c2, c3, c4, d1, d2, d3, d4, a1, a2, a3, a4);
    InvMixByteLinear4(c1, c2, c3, c4, d1, d2, d3, d4, a1, a2, a3, a4, b1, b2, b3, b4);
    InvMixByteLinear4(d1, d2, d3, d4, a1, a2, a3, a4, b1, b2, b3, b4, c1, c2, c3, c4);
    MixByteLinear4(
      InvMixByte(a1, b1, c1, d1), InvMixByte(a2, b2, c2, d2), InvMixByte(a3, b3, c3, d3), InvMixByte(a4, b4, c4, d4),
      InvMixByte(b1, c1, d1, a1), InvMixByte(b2, c2, d2, a2), InvMixByte(b3, c3, d3, a3), InvMixByte(b4, c4, d4, a4),
      InvMixByte(c1, d1, a1, b1), InvMixByte(c2, d2, a2, b2), InvMixByte(c3, d3, a3, b3), InvMixByte(c4, d4, a4, b4),
      InvMixByte(d1, a1, b1, c1), InvMixByte(d2, a2, b2, c2), InvMixByte(d3, a3, b3, c3), InvMixByte(d4, a4, b4, c4));
  }

  /** The composition in the other order on columns with a single non-zero byte. */
  lemma RoundTripBackFirst(a: bv8)
    ensures RoundTripBack(a, 0, 0, 0) == a
  {
  }

  lemma RoundTripBackSecond(b: bv8)
    ensures RoundTripBack(0, b, 0, 0) == 0
  {
  }

  lemma RoundTripBackThird(c: bv8)
    ensures RoundTripBack(0, 0, c, 0) == 0
  {
  }

  lemma RoundTripBackFourth(d: bv8)
    ensures RoundTripBack(0, 0, 0, d) == 0
  {
  }

  /** MixColumns undoes InvMixColumns on every column. */
  lemma InvMixInverse(a: bv8, b: bv8, c: bv8, d: bv8)
    ensures RoundTripBack(a, b, c, d) == a
  {
    Split(a, b, c, d);
    RoundTripBackLinear4(a, 0, 0, 0, 0, b, 0, 0, 0, 0, c, 0, 0, 0, 0, d);
    RoundTripBackFirst(a);
    RoundTripBackSecond(b);
    RoundTripBackThird(c);
    RoundTripBackFourth(d);
  }

  /** The field products by the MixColumns and InvMixColumns constants equal the closed forms above. */
  lemma Mul2Bridge(a: bv8)
    ensures GMul(a, 2) == Mul2(a)
  {
    GMul2(a);
  }

  lemma Mul3Bridge(a: bv8)
    ensures GMul(a, 3) == Mul3(a)
  {
    GMul3(a);
  }

  lemma Mul9Bridge(a: bv8)
    ensures GMul(a, 9) == Mul9(a)
  {
    GMul9(a);
  }

  lemma Mul11Bridge(a: bv8)
    ensures GMul(a, 11) == Mul11(a)
  {
    GMul11(a);
  }

  lemma Mul13Bridge(a: bv8)
    ensures GMul(a, 13) == Mul13(a)
  {
    GMul13(a);
  }

  lemma Mul14Bridge(a: bv8)
    ensures GMul(a, 14) == Mul14(a)
  {
    GMul14(a);
  }

  /** The xor of four bytes, grouped left to right as `w ^ x ^ y ^ z` is in C#. */
  function Chain4(w: bv8, x: bv8, y: bv8, z: bv8): bv8
  {
    Add(Add(Add(w, x), y), z)
  }

  /** Regrouping a left-to-right chain as a four-term sum. */
  lemma ChainSum(w: bv8, x: bv8, y: bv8, z: bv8)
    ensures Chain4(w, x, y, z) == Sum4(w, x, y, z)
  {
    AddAssoc(Add(w, x), y, z);
  }

  /** A four-term sum is invariant under rotation of its terms. */
  lemma Rotate(a: bv8, x: bv8, y: bv8, z: bv8)
    ensures Sum4(a, x, y, z) == Sum4(x, y, z, a)
  {
    AddAssoc(a, x, Add(y, z));
    AddComm(a, Add(x, Add(y, z)));
    AddAssoc(x, Add(y, z), a);
    AddAssoc(y, z, a);
    AddAssoc(x, y, Add(z, a));
  }

  /**
   * Row `row` of the MixColumns output for the column (a, b, c, d), in the source's
   * grouping, with each field product written in closed form; the lemmas below
   * show that the source's gmul products give the same bytes.
   */
  function MixColumnByte(row: nat, a: bv8, b: bv8, c: bv8, d: bv8): bv8
    requires row < 4
  {
    if row == 0 then Chain4(Mul2(a), Mul3(b), c, d)
    else if row == 1 then Chain4(a, Mul2(b), Mul3(c), d)
    else if row == 2 then Chain4(a, b, Mul2(c), Mul3(d))
    else Chain4(Mul3(a), b, c, Mul2(d))
  }

  /** Row `row` of the InvMixColumns output for the column (a, b, c, d), likewise. */
  function InvMixColumnByte(row: nat, a: bv8, b: bv8, c: bv8, d: bv8): bv8
    requires row < 4
  {
    if row == 0 then Chain4(Mul14(a), Mul11(b), Mul13(c), Mul9(d))
    else if row == 1 then Chain4(Mul9(a), Mul14(b), Mul11(c), Mul13(d))
    else if row == 2 then Chain4(Mul13(a), Mul9(b), Mul14(c), Mul11(d))
    else Chain4(Mul11(a), Mul13(b), Mul9(c), Mul14(d))
  }

  /** A left-to-right chain is the xor of its four bytes in that grouping. */
  lemma ChainXor(w: bv8, x: bv8, y: bv8, z: bv8)
    ensures Chain4(w, x, y, z) == w ^ x ^ y ^ z
  {
  }

  /** Each row of the source's MixColumns, computed from the four field products it needs. */
  lemma MixProducts0(a: bv8, b: bv8, c: bv8, d: bv8, a2: bv8, b3: bv8)
    requires a2 == GMul(a, 2) && b3 == GMul(b, 3)
    ensures a2 ^ b3 ^ c ^ d == MixColumnByte(0, a, b, c, d)
  {
    Mul2Bridge(a);
    Mul3Bridge(b);
    ChainXor(a2, b3, c, d);
  }

  lemma MixProducts1(a: bv8, b: bv8, c: bv8, d: bv8, b2: bv8, c3: bv8)
    requires b2 == GMul(b, 2) && c3 == GMul(c, 3)
    ensures a ^ b2 ^ c3 ^ d == MixColumnByte(1, a, b, c, d)
  {
    Mul2Bridge(b);
    Mul3Bridge(c);
    ChainXor(a, b2, c3, d);
  }

  lemma MixProducts2(a: bv8, b: bv8, c: bv8, d: bv8, c2: bv8, d3: bv8)
    requires c2 == GMul(c, 2) && d3 == GMul(d, 3)
    ensures a ^ b ^ c2 ^ d3 == MixColumnByte(2, a, b, c, d)
  {
    Mul2Bridge(c);
    Mul3Bridge(d);
    ChainXor(a, b, c2, d3);
  }

  lemma MixProducts3(a: bv8, b: bv8, c: bv8, d: bv8, a3: bv8, d2: bv8)
    requires a3 == GMul(a, 3) && d2 == GMul(d, 2)
    ensures a3 ^ b ^ c ^ d2 == MixColumnByte(3, a, b, c, d)
  {
    Mul3Bridge(a);
    Mul2Bridge(d);
    ChainXor(a3, b, c, d2);
  }

  /** Each row of the source's InvMixColumns, computed from the four field products it needs. */
  lemma InvMixProducts0(a: bv8, b: bv8, c: bv8, d: bv8, w: bv8, x: bv8, y: bv8, z: bv8)
    requires w == GMul(a, 14) && x == GMul(b, 11) && y == GMul(c, 13) && z == GMul(d, 9)
    ensures w ^ x ^ y ^ z == InvMixColumnByte(0, a, b, c, d)
  {
    Mul14Bridge(a);
    Mul11Bridge(b);
    Mul13Bridge(c);
    Mul9Bridge(d);
    ChainXor(w, x, y, z);
  }

  lemma InvMixProducts1(a: bv8, b: bv8, c: bv8, d: bv8, w: bv8, x: bv8, y: bv8, z: bv8)
    requires w == GMul(a, 9) && x == GMul(b, 14) && y == GMul(c, 11) && z == GMul(d, 13)
    ensures w ^ x ^ y ^ z == InvMixColumnByte(1, a, b, c, d)
  {
    Mul9Bridge(a);
    Mul14Bridge(b);
    Mul11Bridge(c);
    Mul13Bridge(d);
    ChainXor(w, x, y, z);
  }

  lemma InvMixProducts2(a: bv8, b: bv8, c: bv8, d: bv8, w: bv8, x: bv8, y: bv8, z: bv8)
    requires w == GMul(a, 13) && x == GMul(b, 9) && y == GMul(c, 14) && z == GMul(d, 11)
    ensures w ^ x ^ y ^ z == InvMixColumnByte(2, a, b, c, d)
  {
    Mul13Bridge(a);
    Mul9Bridge(b);
    Mul14Bridge(c);
    Mul11Bridge(d);
    ChainXor(w, x, y, z);
  }

  lemma InvMixProducts3(a: bv8, b: bv8, c: bv8, d: bv8, w: bv8, x: bv8, y: bv8, z: bv8)
    requires w == GMul(a, 11) && x == GMul(b, 13) && y == GMul(c, 9) && z == GMul(d, 14)
    ensures w ^ x ^ y ^ z == InvMixColumnByte(3, a, b, c, d)
  {
    Mul11Bridge(a);
    Mul13Bridge(b);
    Mul9Bridge(c);
    Mul14Bridge(d);
    ChainXor(w, x, y, z);
  }

  /** Each row of the source's MixColumns is the MixColumns byte of a rotation of the column. */
  lemma MixRow0(a: bv8, b: bv8, c: bv8, d: bv8)
    ensures MixColumnByte(0, a, b, c, d) == MixByte(a, b, c, d)
  {
    ChainSum(Mul2(a), Mul3(b), c, d);
  }

  lemma MixRow1(a: bv8, b: bv8, c: bv8, d: bv8)
    ensures MixColumnByte(1, a, b, c, d) == MixByte(b, c, d, a)
  {
    ChainSum(a, Mul2(b), Mul3(c), d);
    Rotate(a, Mul2(b), Mul3(c), d);
  }

  lemma MixRow2(a: bv8, b: bv8, c: bv8, d: bv8)
    ensures MixColumnByte(2, a, b, c, d) == MixByte(c, d, a, b)
  {
    ChainSum(a, b, Mul2(c), Mul3(d));
    AddComm(Add(a, b), Add(Mul2(c), Mul3(d)));
  }

  lemma MixRow3(a: bv8, b: bv8, c: bv8, d: bv8)
    ensures MixColumnByte(3, a, b, c, d) == MixByte(d, a, b, c)
  {
    ChainSum(Mul3(a), b, c, Mul2(d));
    Rotate(Mul2(d), Mul3(a), b, c);
  }

  /** Each row of the source's InvMixColumns is the InvMixColumns byte of a rotation of the column. */
  lemma InvMixRow0(a: bv8, b: bv8, c: bv8, d: bv8)
    ensures InvMixColumnByte(0, a, b, c, d) == InvMixByte(a, b, c, d)
  {
    ChainSum(Mul14(a), Mul11(b), Mul13(c), Mul9(d));
  }

  lemma InvMixRow1(a: bv8, b: bv8, c: bv8, d: bv8)
    ensures InvMixColumnByte(1, a, b, c, d) == InvMixByte(b, c, d, a)
  {
    ChainSum(Mul9(a), Mul14(b), Mul11(c), Mul13(d));
    Rotate(Mul9(a), Mul14(b), Mul11(c), Mul13(d));
  }

  lemma InvMixRow2(a: bv8, b: bv8, c: bv8, d: bv8)
    ensures InvMixColumnByte(2, a, b, c, d) == InvMixByte(c, d, a, b)
  {
    ChainSum(Mul13(a), Mul9(b), Mul14(c), Mul11(d));
    AddComm(Add(Mul13(a), Mul9(b)), Add(Mul14(c), Mul11(d)));
  }

  lemma InvMixRow3(a: bv8, b: bv8, c: bv8, d: bv8)
    ensures InvMixColumnByte(3, a, b, c, d) == InvMixByte(d, a, b, c)
  {
    ChainSum(Mul11(a), Mul13(b), Mul9(c), Mul14(d));
    Rotate(Mul14(d), Mul11(a), Mul13(b), Mul9(c));
  }

  /** InvMixColumns restores a column that MixColumns produced, row by row. */
  lemma ColumnRoundTrip(a: bv8, b: bv8, c: bv8, d: bv8)
    ensures var m0, m1, m2, m3 := MixColumnByte(0, a, b, c, d), MixColumnByte(1, a, b, c, d), MixColumnByte(2, a, b, c, d), MixColumnByte(3, a, b, c, d);
      InvMixColumnByte(0, m0, m1, m2, m3) == a && InvMixColumnByte(1, m0, m1, m2, m3) == b &&
      InvMixColumnByte(2, m0, m1, m2, m3) == c && InvMixColumnByte(3, m0, m1, m2, m3) == d
  {
    MixRow0(a, b, c, d);
    MixRow1(a, b, c, d);
    MixRow2(a, b, c, d);
    MixRow3(a, b, c, d);
    var m0, m1, m2, m3 := MixByte(a, b, c, d), MixByte(b, c, d, a), MixByte(c, d, a, b), MixByte(d, a, b, c);
    InvMixRow0(m0, m1, m2, m3);
    InvMixRow1(m0, m1, m2, m3);
    InvMixRow2(m0, m1, m2, m3);
    InvMixRow3(m0, m1, m2, m3);
    MixInverse(a, b, c, d);
    MixInverse(b, c, d, a);
    MixInverse(c, d, a, b);
    MixInverse(d, a, b, c);
  }

  /** MixColumns restores a column that InvMixColumns produced, row by row. */
  lemma ColumnRoundTripBack(a: bv8, b: bv8, c: bv8, d: bv8)
    ensures var m0, m1, m2, m3 := InvMixColumnByte(0, a, b, c, d), InvMixColumnByte(1, a, b, c, d), InvMixColumnByte(2, a, b, c, d), InvMixColumnByte(3, a, b, c, d);
      MixColumnByte(0, m0, m1, m2, m3) == a && MixColumnByte(1, m0, m1, m2, m3) == b &&
      MixColumnByte(2, m0, m1, m2, m3) == c && MixColumnByte(3, m0, m1, m2, m3) == d
  {
    InvMixRow0(a, b, c, d);
    InvMixRow1(a, b, c, d);
    InvMixRow2(a, b, c, d);
    InvMixRow3(a, b, c, d);
    var m0, m1, m2, m3 := InvMixByte(a, b, c, d), InvMixByte(b, c, d, a), InvMixByte(c, d, a, b), InvMixByte(d, a, b, c);
    MixRow0(m0, m1, m2, m3);
    MixRow1(m0, m1, m2, m3);
    MixRow2(m0, m1, m2, m3);
    MixRow3(m0, m1, m2, m3);
    InvMixInverse(a, b, c, d);
    InvMixInverse(b, c, d, a);
    InvMixInverse(c, d, a, b);
    InvMixInverse(d, a, b, c);
  }
}
