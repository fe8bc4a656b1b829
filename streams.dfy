/**
 * Streams of binary digits cut into pieces: the concatenation of pieces
 * from..to-1 of a sequence of digit strings; and the digit stream both
 * carrier codecs make of the bytes they hide (eight digits per byte, padded
 * with '0' at the end, cut back into bytes by the decoders).
 */
module Streams {
  import opened ByteCodec
  import opened BitStrings

  /** Pieces from..to-1 of d, concatenated in order. */
  function Stream(d: seq<Bits>, from: nat, to: nat): Bits
    requires to <= |d|
  {
    if to <= from then [] else Stream(d, from, to - 1) + d[to - 1]
  }

  lemma Assoc(a: Bits, b: Bits, c: Bits)
    ensures (a + b) + c == a + (b + c)
  {
  }

  /** The stream of a range is the stream of a first part followed by that of the rest. */
  lemma {:induction false} StreamSplit(d: seq<Bits>, from: nat, mid: nat, stop: nat)
    requires from <= mid <= stop <= |d|
    ensures Stream(d, from, stop) == Stream(d, from, mid) + Stream(d, mid, stop)
    decreases stop
  {
    if stop > mid {
      StreamSplit(d, from, mid, stop - 1);
      Assoc(Stream(d, from, mid), Stream(d, mid, stop - 1), d[stop - 1]);
    } else {
      assert Stream(d, mid, stop) == [];
    }
  }

  /** A non-empty range starts with its first piece. */
  lemma StreamFront(d: seq<Bits>, from: nat, stop: nat)
    requires from < stop <= |d|
    ensures Stream(d, from, stop) == d[from] + Stream(d, from + 1, stop)
  {
    StreamSplit(d, from, from + 1, stop);
    assert Stream(d, from, from) == [];
    assert Stream(d, from, from + 1) == [] + d[from];
    assert [] + d[from] == d[from];
  }

  /** Sequences with the same pieces in a range have the same stream there. */
  lemma {:induction false} StreamFrame(d: seq<Bits>, e: seq<Bits>, from: nat, stop: nat)
    requires stop <= |d| && stop <= |e|
    requires forall p :: from <= p < stop ==> d[p] == e[p]
    ensures Stream(d, from, stop) == Stream(e, from, stop)
    decreases stop
  {
    if stop > from {
      StreamFrame(d, e, from, stop - 1);
    }
  }

  /** The first a + b digits are the first a followed by the b after them. */
  lemma TakeSplit(s: Bits, a: nat, b: nat)
    requires a + b <= |s|
    ensures s[..a + b] == s[..a] + s[a..][..b]
  {
  }

  /** A prefix of the first part of a concatenation. */
  lemma TakeOfAppend(a: Bits, b: Bits, m: nat)
    requires m <= |a|
    ensures (a + b)[..m] == a[..m]
  {
  }

  /** Cutting a string and appending a tail to the second piece is appending the tail to the string. */
  lemma TakeDropAppend(s: Bits, m: nat, t: Bits)
    requires m <= |s|
    ensures s[..m] + (s[m..] + t) == s + t
  {
    assert s == s[..m] + s[m..];
  }

  /** A sequence is its first a elements followed by the rest. */
  lemma TakeDrop(s: Bits, a: nat)
    requires a <= |s|
    ensures s[..a] + s[a..] == s
  {
  }

  /** The first a elements of s, then the first m of the rest, are the first a + m. */
  lemma TakeStep(s: Bits, a: nat, t: Bits, m: nat, n: nat)
    requires n == a + m && n <= |s| && t == s[a..]
    ensures s[..a] + t[..m] == s[..n]
  {
    TakeSplit(s, a, m);
  }

  /** The first a elements of s followed by the first m of the rest are its first a + m. */
  lemma TakeJoin(s: Bits, a: nat, t: Bits, m: nat, n: nat, x: Bits, y: Bits)
    requires n == a + m && n <= |s| && t == s[a..] && y == t[..m] && x == s[..a] + y
    ensures x == s[..n]
  {
    TakeSplit(s, a, m);
  }

  /** A front of s, then the rest of s followed by t, is s followed by t. */
  lemma FrontThenRest(s: Bits, keep: Bits, t: Bits, front: Bits, back: Bits, whole: Bits)
    requires EndsWith(s, keep) && front == s[..|s| - |keep|] && back == keep + t && whole == front + back
    ensures whole == s + t
  {
    EndsWithSuffix(s, keep);
    TakeDropAppend(s, |s| - |keep|, t);
  }

  /** Dropping from the front of a + b drops from a. */
  lemma DropOfAppend(a: Bits, b: Bits, m: nat)
    requires m <= |a|
    ensures (a + b)[m..] == a[m..] + b
  {
  }

  /** When a + r starts w, the first m digits of w are the first m of a, for m up to |a|. */
  lemma FrontOfBoth(a: Bits, r: Bits, p: Bits, b: Bits, w: Bits, m: nat)
    requires a + r == p && w == p + b && m <= |a|
    ensures w[..m] == a[..m]
  {
    TakeOfAppend(p, b, m);
    TakeOfAppend(a, r, m);
  }

  /** Dropping a, then b, drops a + b. */
  lemma DropDrop(s: Bits, a: nat, b: nat)
    requires a + b <= |s|
    ensures s[a..][b..] == s[a + b..]
  {
  }

  /** u is the end of s. */
  predicate EndsWith(s: Bits, u: Bits)
  {
    |u| <= |s| && forall i :: 0 <= i < |u| ==> u[i] == s[|s| - |u| + i]
  }

  /** The end of a suffix of s is an end of s. */
  lemma EndsWithDrop(s: Bits, t: Bits, u: Bits, a: nat)
    requires a <= |s| && t == s[a..] && EndsWith(t, u)
    ensures EndsWith(s, u)
  {
  }

  /** An end of s is the suffix of s of its length. */
  lemma EndsWithSuffix(s: Bits, u: Bits)
    requires EndsWith(s, u)
    ensures u == s[|s| - |u|..]
  {
  }

  // ---------------------------------------------------------------------------
  // Bytes as a digit stream

  /** The bit stream of a byte sequence: eight digits per byte, in order. */
  function DataBits(data: seq<bv8>): (bits: Bits)
    ensures |bits| == 8 * |data|
  {
    if |data| == 0 then [] else DataBits(data[..|data| - 1]) + ByteBits(data[|data| - 1])
  }

  /** The digits of two byte sequences one after the other are the digits of their concatenation. */
  lemma {:induction false} DataBitsAppend(a: seq<bv8>, b: seq<bv8>)
    ensures DataBits(a + b) == DataBits(a) + DataBits(b)
    decreases |b|
  {
    if |b| == 0 {
      assert a + b == a;
    } else {
      var init, last := b[..|b| - 1], b[|b| - 1];
      assert (a + b)[..|a + b| - 1] == a + init && (a + b)[|a + b| - 1] == last;
      assert DataBits(a + b) == DataBits(a + init) + ByteBits(last);
      assert DataBits(a + init) == DataBits(a) + DataBits(init) by {
        DataBitsAppend(a, init);
      }
      assert DataBits(b) == DataBits(init) + ByteBits(last);
      Assoc(DataBits(a), DataBits(init), ByteBits(last));
    }
  }

  /** How many '0' digits bring a length up to a multiple of unit. */
  function PadBits(length: nat, unit: nat): (pad: nat)
    requires unit > 0
    ensures pad < unit && (length + pad) % unit == 0
  {
    var r := length % unit;
    if r == 0 then 0
    else
      ModUnique(length + (unit - r), unit, length / unit + 1, 0);
      unit - r
  }

  /** No shorter padding reaches a multiple of unit. */
  lemma PadLeast(length: nat, unit: nat, d: nat)
    requires unit > 0 && d <= PadBits(length, unit)
    ensures (length + d) % unit == 0 ==> d == PadBits(length, unit)
  {
    if d < PadBits(length, unit) {
      ModUnique(length + d, unit, length / unit, length % unit + d);
    }
  }

  lemma ZerosSnoc(n: nat)
    ensures Zeros(n) + [false] == Zeros(n + 1)
  {
  }

  /** The padding loop of both encoders: '0' is appended until the length is a multiple of unit. */
  method PadStream(stream: Bits, unit: nat) returns (padded: Bits)
    requires unit > 0
    ensures padded == stream + Zeros(PadBits(|stream|, unit))
  {
    padded := stream;
    while |padded| % unit != 0
      invariant |stream| <= |padded| <= |stream| + PadBits(|stream|, unit)
      invariant padded == stream + Zeros(|padded| - |stream|)
      decreases |stream| + PadBits(|stream|, unit) - |padded|
    {
      PadLeast(|stream|, unit, |padded| - |stream|);
      ZerosSnoc(|padded| - |stream|);
      padded := padded + [false];
    }
    PadLeast(|stream|, unit, |padded| - |stream|);
  }

  /** The complete bytes at the front of a digit string, and the fewer than eight digits left over. */
  function Emit(str: Bits): (r: (seq<bv8>, Bits))
    ensures |r.1| < 8
    ensures DataBits(r.0) + r.1 == str
    decreases |str|
  {
    if |str| < 8 then ([], str)
    else
      var rest := Emit(str[8..]);
      var b := ToByte(str[..8]);
      ByteBitsOfByte(str[..8]);
      DataBitsAppend([b], rest.0);
      assert DataBits([b]) == ByteBits(b);
      ([b] + rest.0, rest.1)
  }

  /** The emit loop of both decoders: complete bytes are taken off the front of the pending digits. */
  method EmitBytes(found: seq<bv8>, str: Bits) returns (findInfo: seq<bv8>, strInfo: Bits)
    ensures findInfo == found + Emit(str).0 && strInfo == Emit(str).1
  {
    findInfo, strInfo := found, str;
    while |strInfo| >= 8
      invariant findInfo + Emit(strInfo).0 == found + Emit(str).0 && Emit(strInfo).1 == Emit(str).1
      decreases |strInfo|
    {
      findInfo := findInfo + [ToByte(strInfo[..8])];
      strInfo := strInfo[8..];
    }
  }

  /** The digits of the first L bytes are the first 8L digits. */
  lemma {:induction false} DataBitsPrefix(x: seq<bv8>, len: nat)
    requires len <= |x|
    ensures DataBits(x[..len]) == DataBits(x)[..8 * len]
    decreases |x|
  {
    if len < |x| {
      var init := x[..|x| - 1];
      DataBitsPrefix(init, len);
      assert init[..len] == x[..len];
      assert DataBits(x) == DataBits(init) + ByteBits(x[|x| - 1]);
      TakeOfAppend(DataBits(init), ByteBits(x[|x| - 1]), 8 * len);
    } else {
      assert x[..len] == x;
    }
  }

  /** Byte sequences of one length with the same digits are equal. */
  lemma {:induction false} DataBitsInjective(a: seq<bv8>, b: seq<bv8>)
    requires |a| == |b| && DataBits(a) == DataBits(b)
    ensures a == b
    decreases |a|
  {
    if |a| > 0 {
      var n := |a| - 1;
      DataBitsPrefix(a, n);
      DataBitsPrefix(b, n);
      DataBitsInjective(a[..n], b[..n]);
      assert a[n] == b[n] by {
        assert ByteBits(a[n]) == DataBits(a)[8 * n..];
        assert ByteBits(b[n]) == DataBits(b)[8 * n..];
        ByteOfByteBits(a[n]);
        ByteOfByteBits(b[n]);
      }
      SameInitAndLast(a, b);
    }
  }

  lemma SameInitAndLast(a: seq<bv8>, b: seq<bv8>)
    requires |a| == |b| > 0 && a[..|a| - 1] == b[..|b| - 1] && a[|a| - 1] == b[|b| - 1]
    ensures a == b
  {
    forall i | 0 <= i < |a|
      ensures a[i] == b[i]
    {
      if i < |a| - 1 {
        assert a[i] == a[..|a| - 1][i] && b[i] == b[..|b| - 1][i];
      }
    }
  }
}
