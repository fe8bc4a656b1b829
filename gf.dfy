/**
 * Multiplication in GF(2^8) modulo the AES polynomial, as gmul computes it for
 * MixColumns and InvMixColumns.
 *
 * The specification GMul is a carry-less product followed by a reduction that
 * clears bits 14 down to 8 one at a time. The methods follow gmul instead: a
 * shift-and-xor loop over the binary digits of the first operand, then a loop
 * that repeatedly cancels the leading term of the running sum. Bit operations
 * are written without branches (a bit becomes an all-ones or all-zeros mask),
 * and facts that depend on a degree are proved one degree at a time, which
 * keeps each proof small for the solver.
 */
module GaloisField {
  /** The irreducible polynomial x^8 + x^4 + x^3 + x + 1 that every MixColumns call passes to gmul. */
  const Modulus: bv16 := 0x11B
  /** The degree of Modulus, i.e. the integer part of its base-2 logarithm. */
  const ModulusDegree: bv16 := 8

  /** All ones when bit k of x is set, zero otherwise. */
  function MaskOf(x: bv16, k: bv16): bv16
    requires k < 16
  {
    0 - ((x >> k) & 1)
  }

  /** Whether bit k of a is set: the digit at distance k from the end of a's binary string. */
  function Bit(a: bv8, k: bv16): bool
    requires k < 8
  {
    ((a as bv16) >> k) & 1 == 1
  }

  /** What bit k of a contributes to the carry-less product: b shifted left by k, or nothing. */
  function Term(a: bv8, b: bv8, k: bv16): bv16
    requires k < 8
  {
    ((b as bv16) << k) & MaskOf(a as bv16, k)
  }

  /** The carry-less product of b with the lowest n bits of a. */
  function PartialProduct(a: bv8, b: bv8, n: bv16): bv16
    requires n <= 8
    decreases n
  {
    if n == 0 then 0 else PartialProduct(a, b, n - 1) ^ Term(a, b, n - 1)
  }

  /** The carry-less (polynomial) product of two bytes, of degree at most 14. */
  function ClMul(a: bv8, b: bv8): bv16
  {
    PartialProduct(a, b, 8)
  }

  /** ClMul written out as one xor of its eight terms; used only for the constant operands. */
  function Terms(a: bv8, b: bv8): bv16
  {
    Term(a, b, 0) ^ Term(a, b, 1) ^ Term(a, b, 2) ^ Term(a, b, 3) ^ Term(a, b, 4) ^ Term(a, b, 5) ^ Term(a, b, 6) ^ Term(a, b, 7)
  }

  /** One reduction step: clear bit k, if set, by adding the modulus shifted to degree k. */
  function Stage(p: bv16, k: bv16): bv16
    requires 8 <= k <= 14
  {
    p ^ ((Modulus << (k - 8)) & MaskOf(p, k))
  }

  /** Clear bits k, k-1, ..., 8 of p in turn. */
  function ReduceFrom(p: bv16, k: bv16): bv16
    requires 7 <= k <= 14
    decreases k
  {
    if k == 7 then p else ReduceFrom(Stage(p, k), k - 1)
  }

  /** The remainder of a product of degree at most 14 modulo Modulus. */
  function Reduce(p: bv16): bv8
  {
    (ReduceFrom(p, 14) & 0xFF) as bv8
  }

  /** ReduceFrom(p, 14) written out as seven nested stages. */
  function StageChain(p: bv16): bv16
  {
    Stage(Stage(Stage(Stage(Stage(Stage(Stage(p, 14), 13), 12), 11), 10), 9), 8)
  }

  lemma ReduceUnfold(p: bv16, k: bv16)
    requires 8 <= k <= 14
    ensures ReduceFrom(p, k) == ReduceFrom(Stage(p, k), k - 1)
  {
  }

  lemma ReduceChain(p: bv16)
    ensures ReduceFrom(p, 14) == StageChain(p)
  {
    var p14 := Stage(p, 14);
    var p13 := Stage(p14, 13);
    var p12 := Stage(p13, 12);
    var p11 := Stage(p12, 11);
    var p10 := Stage(p11, 10);
    var p9 := Stage(p10, 9);
    ReduceUnfold(p, 14); ReduceUnfold(p14, 13); ReduceUnfold(p13, 12); ReduceUnfold(p12, 11);
    ReduceUnfold(p11, 10); ReduceUnfold(p10, 9); ReduceUnfold(p9, 8);
  }

  /** Multiplication in GF(2^8): the reduced carry-less product. */
  function GMul(a: bv8, b: bv8): bv8
  {
    Reduce(ClMul(a, b))
  }

  /** Multiplication by x (the byte 2): shift left and fold the carry back in. */
  function XTime(a: bv8): bv8
  {
    (a << 1) ^ (0x1B & (0 - (a >> 7)))
  }

  /** Sets every bit below the highest set bit. */
  function Smear(x: bv16): bv16
  {
    var x := x | (x >> 1);
    var x := x | (x >> 2);
    var x := x | (x >> 4);
    x | (x >> 8)
  }

  /** Number of set bits. */
  function PopCount(x: bv16): bv16
  {
    var x := x - ((x >> 1) & 0x5555);
    var x := (x & 0x3333) + ((x >> 2) & 0x3333);
    var x := (x + (x >> 4)) & 0x0F0F;
    (x + (x >> 8)) & 0x001F
  }

  /** Integer part of the base-2 logarithm (0 for 0 and 1): the degree of p as a polynomial. */
  function Log2(p: bv16): bv16
  {
    PopCount(Smear(p >> 1))
  }

  lemma Log2IsDegree(p: bv16)
    requires p != 0
    ensures Log2(p) < 16 && p >> Log2(p) == 1
  {
  }

  lemma ProductUnfold(a: bv8, b: bv8, n: bv16)
    requires 0 < n <= 8
    ensures PartialProduct(a, b, n) == PartialProduct(a, b, n - 1) ^ Term(a, b, n - 1)
  {
  }

  lemma TermIs(a: bv8, b: bv8, k: bv16)
    requires k < 8
    ensures Term(a, b, k) == if Bit(a, k) then (b as bv16) << k else 0
  {
  }

  lemma ProductNext(a: bv8, b: bv8, k: bv16)
    requires k < 8
    ensures PartialProduct(a, b, k + 1) == PartialProduct(a, b, k) ^ Term(a, b, k)
  {
  }

  lemma ProductStepSet(a: bv8, b: bv8, k: bv16, s: bv16, k': bv16, s': bv16)
    requires k < 8 && s == PartialProduct(a, b, k) && Bit(a, k)
    requires k' == k + 1 && s' == s ^ ((b as bv16) << k)
    ensures s' == PartialProduct(a, b, k')
  {
    ProductNext(a, b, k);
    TermIs(a, b, k);
  }

  lemma ProductStepClear(a: bv8, b: bv8, k: bv16, s: bv16, k': bv16)
    requires k < 8 && s == PartialProduct(a, b, k) && !Bit(a, k)
    requires k' == k + 1
    ensures s == PartialProduct(a, b, k')
  {
    ProductNext(a, b, k);
    TermIs(a, b, k);
  }

  lemma ProductBy1(a: bv8)
    ensures ClMul(a, 1) == Terms(a, 1)
  {
    ProductUnfold(a, 1, 1); ProductUnfold(a, 1, 2); ProductUnfold(a, 1, 3); ProductUnfold(a, 1, 4);
    ProductUnfold(a, 1, 5); ProductUnfold(a, 1, 6); ProductUnfold(a, 1, 7); ProductUnfold(a, 1, 8);
  }

  lemma Closed1(a: bv8)
    ensures (StageChain(Terms(a, 1)) & 0xFF) as bv8 == a
  {
    var t := a >> 5; if t == 0 {} else if t == 1 {} else if t == 2 {} else if t == 3 {} else if t == 4 {} else if t == 5 {} else if t == 6 {} else {}
  }

  lemma GMul1(a: bv8)
    ensures GMul(a, 1) == a
  {
    ProductBy1(a);
    ReduceChain(Terms(a, 1));
    Closed1(a);
  }

  lemma ProductBy2(a: bv8)
    ensures ClMul(a, 2) == Terms(a, 2)
  {
    ProductUnfold(a, 2, 1); ProductUnfold(a, 2, 2); ProductUnfold(a, 2, 3); ProductUnfold(a, 2, 4);
    ProductUnfold(a, 2, 5); ProductUnfold(a, 2, 6); ProductUnfold(a, 2, 7); ProductUnfold(a, 2, 8);
  }

  lemma Closed2(a: bv8)
    ensures (StageChain(Terms(a, 2)) & 0xFF) as bv8 == XTime(a)
  {
    var t := a >> 5; if t == 0 {} else if t == 1 {} else if t == 2 {} else if t == 3 {} else if t == 4 {} else if t == 5 {} else if t == 6 {} else {}
  }

  lemma GMul2(a: bv8)
    ensures GMul(a, 2) == XTime(a)
  {
    ProductBy2(a);
    ReduceChain(Terms(a, 2));
    Closed2(a);
  }

  lemma ProductBy3(a: bv8)
    ensures ClMul(a, 3) == Terms(a, 3)
  {
    ProductUnfold(a, 3, 1); ProductUnfold(a, 3, 2); ProductUnfold(a, 3, 3); ProductUnfold(a, 3, 4);
    ProductUnfold(a, 3, 5); ProductUnfold(a, 3, 6); ProductUnfold(a, 3, 7); ProductUnfold(a, 3, 8);
  }

  lemma Closed3(a: bv8)
    ensures (StageChain(Terms(a, 3)) & 0xFF) as bv8 == XTime(a) ^ a
  {
    var t := a >> 5; if t == 0 {} else if t == 1 {} else if t == 2 {} else if t == 3 {} else if t == 4 {} else if t == 5 {} else if t == 6 {} else {}
  }

  lemma GMul3(a: bv8)
    ensures GMul(a, 3) == XTime(a) ^ a
  {
    ProductBy3(a);
    ReduceChain(Terms(a, 3));
    Closed3(a);
  }

  lemma ProductBy9(a: bv8)
    ensures ClMul(a, 9) == Terms(a, 9)
  {
    ProductUnfold(a, 9, 1); ProductUnfold(a, 9, 2); ProductUnfold(a, 9, 3); ProductUnfold(a, 9, 4);
    ProductUnfold(a, 9, 5); ProductUnfold(a, 9, 6); ProductUnfold(a, 9, 7); ProductUnfold(a, 9, 8);
  }

  lemma Closed9(a: bv8)
    ensures (StageChain(Terms(a, 9)) & 0xFF) as bv8 == XTime(XTime(XTime(a))) ^ a
  {
    var t := a >> 5; if t == 0 {} else if t == 1 {} else if t == 2 {} else if t == 3 {} else if t == 4 {} else if t == 5 {} else if t == 6 {} else {}
  }

  lemma GMul9(a: bv8)
    ensures GMul(a, 9) == XTime(XTime(XTime(a))) ^ a
  {
    ProductBy9(a);
    ReduceChain(Terms(a, 9));
    Closed9(a);
  }

  lemma ProductBy11(a: bv8)
    ensures ClMul(a, 11) == Terms(a, 11)
  {
    ProductUnfold(a, 11, 1); ProductUnfold(a, 11, 2); ProductUnfold(a, 11, 3); ProductUnfold(a, 11, 4);
    ProductUnfold(a, 11, 5); ProductUnfold(a, 11, 6); ProductUnfold(a, 11, 7); ProductUnfold(a, 11, 8);
  }

  lemma Closed11(a: bv8)
    ensures (StageChain(Terms(a, 11)) & 0xFF) as bv8 == XTime(XTime(XTime(a))) ^ XTime(a) ^ a
  {
    var t := a >> 5; if t == 0 {} else if t == 1 {} else if t == 2 {} else if t == 3 {} else if t == 4 {} else if t == 5 {} else if t == 6 {} else {}
  }

  lemma GMul11(a: bv8)
    ensures GMul(a, 11) == XTime(XTime(XTime(a))) ^ XTime(a) ^ a
  {
    ProductBy11(a);
    ReduceChain(Terms(a, 11));
    Closed11(a);
  }

  lemma ProductBy13(a: bv8)
    ensures ClMul(a, 13) == Terms(a, 13)
  {
    ProductUnfold(a, 13, 1); ProductUnfold(a, 13, 2); ProductUnfold(a, 13, 3); ProductUnfold(a, 13, 4);
    ProductUnfold(a, 13, 5); ProductUnfold(a, 13, 6); ProductUnfold(a, 13, 7); ProductUnfold(a, 13, 8);
  }

  lemma Closed13(a: bv8)
    ensures (StageChain(Terms(a, 13)) & 0xFF) as bv8 == XTime(XTime(XTime(a))) ^ XTime(XTime(a)) ^ a
  {
    var t := a >> 5; if t == 0 {} else if t == 1 {} else if t == 2 {} else if t == 3 {} else if t == 4 {} else if t == 5 {} else if t == 6 {} else {}
  }

  lemma GMul13(a: bv8)
    ensures GMul(a, 13) == XTime(XTime(XTime(a))) ^ XTime(XTime(a)) ^ a
  {
    ProductBy13(a);
    ReduceChain(Terms(a, 13));
    Closed13(a);
  }

  lemma ProductBy14(a: bv8)
    ensures ClMul(a, 14) == Terms(a, 14)
  {
    ProductUnfold(a, 14, 1); ProductUnfold(a, 14, 2); ProductUnfold(a, 14, 3); ProductUnfold(a, 14, 4);
    ProductUnfold(a, 14, 5); ProductUnfold(a, 14, 6); ProductUnfold(a, 14, 7); ProductUnfold(a, 14, 8);
  }

  lemma Closed14(a: bv8)
    ensures (StageChain(Terms(a, 14)) & 0xFF) as bv8 == XTime(XTime(XTime(a))) ^ XTime(XTime(a)) ^ XTime(a)
  {
    var t := a >> 5; if t == 0 {} else if t == 1 {} else if t == 2 {} else if t == 3 {} else if t == 4 {} else if t == 5 {} else if t == 6 {} else {}
  }

  lemma GMul14(a: bv8)
    ensures GMul(a, 14) == XTime(XTime(XTime(a))) ^ XTime(XTime(a)) ^ XTime(a)
  {
    ProductBy14(a);
    ReduceChain(Terms(a, 14));
    Closed14(a);
  }

  lemma ProductAtLength1(a: bv8, b: bv8, n: bv16)
    requires n == 1 && n == Log2(a as bv16) + 1
    ensures PartialProduct(a, b, n) == ClMul(a, b)
  {
    ProductUnfold(a, b, 2); ProductUnfold(a, b, 3); ProductUnfold(a, b, 4); ProductUnfold(a, b, 5); ProductUnfold(a, b, 6); ProductUnfold(a, b, 7); ProductUnfold(a, b, 8);
  }

  lemma ProductAtLength2(a: bv8, b: bv8, n: bv16)
    requires n == 2 && n == Log2(a as bv16) + 1
    ensures PartialProduct(a, b, n) == ClMul(a, b)
  {
    ProductUnfold(a, b, 3); ProductUnfold(a, b, 4); ProductUnfold(a, b, 5); ProductUnfold(a, b, 6); ProductUnfold(a, b, 7); ProductUnfold(a, b, 8);
  }

  lemma ProductAtLength3(a: bv8, b: bv8, n: bv16)
    requires n == 3 && n == Log2(a as bv16) + 1
    ensures PartialProduct(a, b, n) == ClMul(a, b)
  {
    ProductUnfold(a, b, 4); ProductUnfold(a, b, 5); ProductUnfold(a, b, 6); ProductUnfold(a, b, 7); ProductUnfold(a, b, 8);
  }

  lemma ProductAtLength4(a: bv8, b: bv8, n: bv16)
    requires n == 4 && n == Log2(a as bv16) + 1
    ensures PartialProduct(a, b, n) == ClMul(a, b)
  {
    ProductUnfold(a, b, 5); ProductUnfold(a, b, 6); ProductUnfold(a, b, 7); ProductUnfold(a, b, 8);
  }

  lemma ProductAtLength5(a: bv8, b: bv8, n: bv16)
    requires n == 5 && n == Log2(a as bv16) + 1
    ensures PartialProduct(a, b, n) == ClMul(a, b)
  {
    ProductUnfold(a, b, 6); ProductUnfold(a, b, 7); ProductUnfold(a, b, 8);
  }

  lemma ProductAtLength6(a: bv8, b: bv8, n: bv16)
    requires n == 6 && n == Log2(a as bv16) + 1
    ensures PartialProduct(a, b, n) == ClMul(a, b)
  {
    ProductUnfold(a, b, 7); ProductUnfold(a, b, 8);
  }

  lemma ProductAtLength7(a: bv8, b: bv8, n: bv16)
    requires n == 7 && n == Log2(a as bv16) + 1
    ensures PartialProduct(a, b, n) == ClMul(a, b)
  {
    ProductUnfold(a, b, 8);
  }

  lemma ProductAtLength8(a: bv8, b: bv8, n: bv16)
    requires n == 8 && n == Log2(a as bv16) + 1
    ensures PartialProduct(a, b, n) == ClMul(a, b)
  {
    
  }

  lemma ProductAtLength(a: bv8, b: bv8, n: bv16)
    requires n == Log2(a as bv16) + 1
    ensures n <= 8 && PartialProduct(a, b, n) == ClMul(a, b)
  {
    assert n <= 8;
    if n == 1 { ProductAtLength1(a, b, n); } else if n == 2 { ProductAtLength2(a, b, n); }
    else if n == 3 { ProductAtLength3(a, b, n); } else if n == 4 { ProductAtLength4(a, b, n); }
    else if n == 5 { ProductAtLength5(a, b, n); } else if n == 6 { ProductAtLength6(a, b, n); }
    else if n == 7 { ProductAtLength7(a, b, n); } else { ProductAtLength8(a, b, n); }
  }

  lemma DropTop8(p: bv16, d: bv16)
    requires d == 8 && Log2(p) == d
    ensures Stage(p, d) == p ^ (Modulus << (d - 8)) && Log2(p ^ (Modulus << (d - 8))) < d && p ^ (Modulus << (d - 8)) < p
  {
  }

  lemma DropTop9(p: bv16, d: bv16)
    requires d == 9 && Log2(p) == d
    ensures Stage(p, d) == p ^ (Modulus << (d - 8)) && Log2(p ^ (Modulus << (d - 8))) < d && p ^ (Modulus << (d - 8)) < p
  {
  }

  lemma DropTop10(p: bv16, d: bv16)
    requires d == 10 && Log2(p) == d
    ensures Stage(p, d) == p ^ (Modulus << (d - 8)) && Log2(p ^ (Modulus << (d - 8))) < d && p ^ (Modulus << (d - 8)) < p
  {
  }

  lemma DropTop11(p: bv16, d: bv16)
    requires d == 11 && Log2(p) == d
    ensures Stage(p, d) == p ^ (Modulus << (d - 8)) && Log2(p ^ (Modulus << (d - 8))) < d && p ^ (Modulus << (d - 8)) < p
  {
  }

  lemma DropTop12(p: bv16, d: bv16)
    requires d == 12 && Log2(p) == d
    ensures Stage(p, d) == p ^ (Modulus << (d - 8)) && Log2(p ^ (Modulus << (d - 8))) < d && p ^ (Modulus << (d - 8)) < p
  {
  }

  lemma DropTop13(p: bv16, d: bv16)
    requires d == 13 && Log2(p) == d
    ensures Stage(p, d) == p ^ (Modulus << (d - 8)) && Log2(p ^ (Modulus << (d - 8))) < d && p ^ (Modulus << (d - 8)) < p
  {
  }

  lemma DropTop14(p: bv16, d: bv16)
    requires d == 14 && Log2(p) == d
    ensures Stage(p, d) == p ^ (Modulus << (d - 8)) && Log2(p ^ (Modulus << (d - 8))) < d && p ^ (Modulus << (d - 8)) < p
  {
  }

  lemma ReduceJump8(p: bv16, d: bv16, q: bv16)
    requires d == 8 && Log2(p) == d && q == p ^ (Modulus << (d - 8))
    ensures ReduceFrom(q, 14) == ReduceFrom(p, 14) && q < p
  {
    DropTop8(p, d);
    ReduceSkip(p, 14, d);
    ReduceSkip(q, 14, d - 1);
  }

  lemma ReduceJump9(p: bv16, d: bv16, q: bv16)
    requires d == 9 && Log2(p) == d && q == p ^ (Modulus << (d - 8))
    ensures ReduceFrom(q, 14) == ReduceFrom(p, 14) && q < p
  {
    DropTop9(p, d);
    ReduceSkip(p, 14, d);
    ReduceSkip(q, 14, d - 1);
  }

  lemma ReduceJump10(p: bv16, d: bv16, q: bv16)
    requires d == 10 && Log2(p) == d && q == p ^ (Modulus << (d - 8))
    ensures ReduceFrom(q, 14) == ReduceFrom(p, 14) && q < p
  {
    DropTop10(p, d);
    ReduceSkip(p, 14, d);
    ReduceSkip(q, 14, d - 1);
  }

  lemma ReduceJump11(p: bv16, d: bv16, q: bv16)
    requires d == 11 && Log2(p) == d && q == p ^ (Modulus << (d - 8))
    ensures ReduceFrom(q, 14) == ReduceFrom(p, 14) && q < p
  {
    DropTop11(p, d);
    ReduceSkip(p, 14, d);
    ReduceSkip(q, 14, d - 1);
  }

  lemma ReduceJump12(p: bv16, d: bv16, q: bv16)
    requires d == 12 && Log2(p) == d && q == p ^ (Modulus << (d - 8))
    ensures ReduceFrom(q, 14) == ReduceFrom(p, 14) && q < p
  {
    DropTop12(p, d);
    ReduceSkip(p, 14, d);
    ReduceSkip(q, 14, d - 1);
  }

  lemma ReduceJump13(p: bv16, d: bv16, q: bv16)
    requires d == 13 && Log2(p) == d && q == p ^ (Modulus << (d - 8))
    ensures ReduceFrom(q, 14) == ReduceFrom(p, 14) && q < p
  {
    DropTop13(p, d);
    ReduceSkip(p, 14, d);
    ReduceSkip(q, 14, d - 1);
  }

  lemma ReduceJump14(p: bv16, d: bv16, q: bv16)
    requires d == 14 && Log2(p) == d && q == p ^ (Modulus << (d - 8))
    ensures ReduceFrom(q, 14) == ReduceFrom(p, 14) && q < p
  {
    DropTop14(p, d);
    ReduceSkip(p, 14, d);
    ReduceSkip(q, 14, d - 1);
  }

  lemma StageNoop(p: bv16, k: bv16)
    requires 8 <= k <= 14 && Log2(p) < k
    ensures Stage(p, k) == p
  {
    if k == 8 { StageNoop8(p, k); } else if k == 9 { StageNoop9(p, k); } else if k == 10 { StageNoop10(p, k); }
    else if k == 11 { StageNoop11(p, k); } else if k == 12 { StageNoop12(p, k); } else if k == 13 { StageNoop13(p, k); }
    else { StageNoop14(p, k); }
  }

  lemma StageNoop8(p: bv16, k: bv16)
    requires k == 8 && Log2(p) < k
    ensures Stage(p, k) == p
  {
  }

  lemma StageNoop9(p: bv16, k: bv16)
    requires k == 9 && Log2(p) < k
    ensures Stage(p, k) == p
  {
  }

  lemma StageNoop10(p: bv16, k: bv16)
    requires k == 10 && Log2(p) < k
    ensures Stage(p, k) == p
  {
  }

  lemma StageNoop11(p: bv16, k: bv16)
    requires k == 11 && Log2(p) < k
    ensures Stage(p, k) == p
  {
  }

  lemma StageNoop12(p: bv16, k: bv16)
    requires k == 12 && Log2(p) < k
    ensures Stage(p, k) == p
  {
  }

  lemma StageNoop13(p: bv16, k: bv16)
    requires k == 13 && Log2(p) < k
    ensures Stage(p, k) == p
  {
  }

  lemma StageNoop14(p: bv16, k: bv16)
    requires k == 14 && Log2(p) < k
    ensures Stage(p, k) == p
  {
  }

  lemma {:induction false} ReduceSkip(p: bv16, k: bv16, j: bv16)
    requires 7 <= j <= k <= 14 && Log2(p) <= j
    ensures ReduceFrom(p, k) == ReduceFrom(p, j)
    decreases k
  {
    if k > j {
      StageNoop(p, k);
      ReduceSkip(p, k - 1, j);
    }
  }

  lemma ReduceJump(p: bv16, d: bv16, q: bv16)
    requires 8 <= d <= 14 && Log2(p) == d && q == p ^ (Modulus << (d - 8))
    ensures ReduceFrom(q, 14) == ReduceFrom(p, 14) && q < p
  {
    if d == 8 { ReduceJump8(p, d, q); } else if d == 9 { ReduceJump9(p, d, q); } else if d == 10 { ReduceJump10(p, d, q); }
    else if d == 11 { ReduceJump11(p, d, q); } else if d == 12 { ReduceJump12(p, d, q); } else if d == 13 { ReduceJump13(p, d, q); }
    else { ReduceJump14(p, d, q); }
  }

  lemma ReduceSmall(p: bv16)
    requires Log2(p) < 8
    ensures p < 0x100 && ReduceFrom(p, 14) == p
  {
    ReduceSkip(p, 14, 7);
  }

  lemma ProductDegree(p: bv16)
    requires p < 0x8000
    ensures Log2(p) <= 14
  {
  }

  /**
   * The first loop of gmul: walks the binary string of a from its last digit and
   * xors b, shifted by the digit's distance from the end, for every '1'.
   */
  method CarrylessMultiply(a: bv8, b: bv8) returns (productSum: bv16)
    ensures productSum == ClMul(a, b)
  {
    var operandB: bv16 := b as bv16;
    productSum := 0;
    var length := Log2(a as bv16) + 1;
    ProductAtLength(a, b, length);
    var bitIndex: bv16 := 0;
    while bitIndex < length
      invariant bitIndex <= length <= 8
      invariant productSum == PartialProduct(a, b, bitIndex)
    {
      var nextIndex := bitIndex + 1;
      if Bit(a, bitIndex) {
        var nextSum := productSum ^ (operandB << bitIndex);
        ProductStepSet(a, b, bitIndex, productSum, nextIndex, nextSum);
        productSum := nextSum;
      } else {
        ProductStepClear(a, b, bitIndex, productSum, nextIndex);
      }
      bitIndex := nextIndex;
    }
  }

  /**
   * The second loop of gmul: while the degree of the sum is at least that of the
   * modulus, xor in the modulus shifted up to the same degree.
   */
  method ReduceProduct(product: bv16) returns (r: bv8)
    requires product < 0x8000
    ensures r == Reduce(product)
  {
    var productSum := product;
    while productSum != 0 && Log2(productSum) >= ModulusDegree
      invariant productSum < 0x8000
      invariant ReduceFrom(productSum, 14) == ReduceFrom(product, 14)
      decreases productSum
    {
      ProductDegree(productSum);
      var degree := Log2(productSum);
      var reduced := productSum ^ (Modulus << (degree - 8));
      ReduceJump(productSum, degree, reduced);
      productSum := reduced;
    }
    ReduceSmall(productSum);
    r := productSum as bv8;
  }

  /** gmul(a, b, 283): the field product of a and b. */
  method Gmul(a: bv8, b: bv8) returns (r: bv8)
    ensures r == GMul(a, b)
  {
    var product := CarrylessMultiply(a, b);
    ProductBound(a, b);
    r := ReduceProduct(product);
  }

  lemma {:induction false} ProductBoundAt(a: bv8, b: bv8, n: bv16)
    requires n <= 8
    ensures PartialProduct(a, b, n) >> (n + 7) == 0
    decreases n
  {
    if n > 0 {
      ProductBoundAt(a, b, n - 1);
    }
  }

  lemma ProductBound(a: bv8, b: bv8)
    ensures ClMul(a, b) < 0x8000
  {
    ProductBoundAt(a, b, 8);
  }
}
