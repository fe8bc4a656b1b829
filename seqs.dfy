/**
 * Generic facts about sequences used by the frame and the codecs: the
 * concatenation of the images of a list, and regrouping of concatenations.
 */
module Sequences {
  import opened Wrappers

  /** f(xs[0]) + f(xs[1]) + ... + f(xs[|xs| - 1]). */
  function ConcatMap<T, U>(f: T -> seq<U>, xs: seq<T>): seq<U>
  {
    if |xs| == 0 then [] else ConcatMap(f, xs[..|xs| - 1]) + f(xs[|xs| - 1])
  }

  /** The concatenation of a non-empty list is the image of its head followed by the concatenation of its tail. */
  lemma {:induction false} ConcatMapFront<T, U>(f: T -> seq<U>, xs: seq<T>)
    requires |xs| > 0
    ensures ConcatMap(f, xs) == f(xs[0]) + ConcatMap(f, xs[1..])
    decreases |xs|
  {
    if |xs| > 1 {
      var init := xs[..|xs| - 1];
      ConcatMapFront(f, init);
      assert init[1..] == xs[1..][..|xs| - 2];
    } else {
      assert xs[..0] == [];
      assert xs[1..] == [];
    }
  }

  /** The concatenation over a one-longer prefix adds the image of the next element. */
  lemma ConcatMapPrefix<T, U>(f: T -> seq<U>, xs: seq<T>, i: nat)
    requires i < |xs|
    ensures ConcatMap(f, xs[..i + 1]) == ConcatMap(f, xs[..i]) + f(xs[i])
  {
    assert xs[..i + 1][..i] == xs[..i];
  }

  /** Appending six pieces one after another appends their concatenation. */
  lemma Append6<T>(x: seq<T>, a: seq<T>, b: seq<T>, c: seq<T>, d: seq<T>, e: seq<T>, f: seq<T>)
    ensures x + a + b + c + d + e + f == x + (a + b + c + d + e + f)
  {
  }

  /** The three pieces of a concatenation are recovered by slicing at their running offsets. */
  lemma Pieces3<T>(a: seq<T>, b: seq<T>, c: seq<T>)
    ensures (a + b + c)[..|a|] == a
    ensures (a + b + c)[|a|..|a| + |b|] == b
  {
  }

  /** Seven concatenated pieces regrouped as two, two and three; the suffix after the first two, and within it the suffix after the next two. */
  lemma Fields7<T>(a: seq<T>, b: seq<T>, c: seq<T>, d: seq<T>, e: seq<T>, f: seq<T>, g: seq<T>)
    ensures a + b + c + d + e + f + g == a + b + (c + d + (e + f + g))
    ensures (a + b + c + d + e + f + g)[|a| + |b|..] == c + d + (e + f + g)
    ensures (c + d + (e + f + g))[|c| + |d|..] == e + f + g
  {
    var s := a + b + c + d + e + f + g;
    assert s == a + b + (c + d + (e + f + g));
  }

  /** Dropping the first piece of a concatenation leaves the second. */
  lemma DropFirst<T>(a: seq<T>, b: seq<T>)
    ensures (a + b)[|a|..] == b
  {
  }

  /** A non-empty sequence is its head followed by its tail. */
  lemma HeadTail<T>(xs: seq<T>)
    requires |xs| > 0
    ensures [xs[0]] + xs[1..] == xs
  {
  }

  /**
   * Up to `count` items read one after the other by `parse`, each from what the
   * previous one left: reading stops at the end of the data, when `parse`
   * fails, or when it reports a length that is zero or more than the data holds.
   */
  function ParseMany<T, U>(parse: seq<U> -> Option<(T, nat)>, data: seq<U>, count: int): (items: seq<T>)
    ensures |items| <= if count < 0 then 0 else count
    decreases |data|
  {
    if count <= 0 || |data| == 0 then []
    else match parse(data)
      case None => []
      case Some((item, used)) =>
        if 0 < used <= |data| then [item] + ParseMany(parse, data[used..], count - 1) else []
  }

  /**
   * Reading back the concatenated encodings of items gives the items, when the
   * parser reads each encoding back whatever follows it and the count asks for
   * all of them.
   */
  lemma {:induction false} ParseManyOf<T, U>(parse: seq<U> -> Option<(T, nat)>, encode: T -> seq<U>, xs: seq<T>, count: int)
    requires forall i, rest :: 0 <= i < |xs| ==> parse(encode(xs[i]) + rest) == Some((xs[i], |encode(xs[i])|))
    requires forall i :: 0 <= i < |xs| ==> |encode(xs[i])| > 0
    requires count >= |xs|
    ensures ParseMany(parse, ConcatMap(encode, xs), count) == xs
    decreases |xs|
  {
    if |xs| == 0 {
      assert ConcatMap(encode, xs) == [];
    } else {
      var first, others := encode(xs[0]), ConcatMap(encode, xs[1..]);
      ConcatMapFront(encode, xs);
      assert parse(first + others) == Some((xs[0], |first|));
      assert (first + others)[|first|..] == others;
      ParseManyOf(parse, encode, xs[1..], count - 1);
      assert xs == [xs[0]] + xs[1..];
    }
  }

  /** A slice of a suffix is a slice of the whole, shifted by where the suffix starts. */
  lemma SliceOfSuffix<T>(s: seq<T>, start: nat, i: nat, j: nat)
    requires start <= |s| && i <= j <= |s| - start
    ensures s[start..][i..j] == s[start + i..start + j]
    ensures s[start..][i..] == s[start + i..]
  {
  }

  /** An item read at the front of the data is the first item, and reading goes on after it. */
  lemma ParseManyStep<T, U>(parse: seq<U> -> Option<(T, nat)>, data: seq<U>, count: int, item: T, used: nat)
    requires count > 0 && parse(data) == Some((item, used)) && 0 < used <= |data|
    ensures ParseMany(parse, data, count) == [item] + ParseMany(parse, data[used..], count - 1)
  {
  }

  /** Reading stops, with nothing more read, when the count is used up, the data is empty or the parser fails. */
  lemma ParseManyStop<T, U>(parse: seq<U> -> Option<(T, nat)>, data: seq<U>, count: int)
    requires count <= 0 || |data| == 0 || parse(data).None?
    ensures ParseMany(parse, data, count) == []
  {
  }

  /**
   * One more item read by a cursor: the items so far plus what remains to be
   * read from the new cursor are the items so far plus what remained before.
   */
  lemma ParseManyAdvance<T, U>(parse: seq<U> -> Option<(T, nat)>, data: seq<U>, position: nat, count: int,
                               done: seq<T>, item: T, used: nat)
    requires position <= |data| && count > 0
    requires parse(data[position..]) == Some((item, used)) && 0 < used <= |data| - position
    ensures (done + [item]) + ParseMany(parse, data[position + used..], count - 1)
         == done + ParseMany(parse, data[position..], count)
  {
    ParseManyStep(parse, data[position..], count, item, used);
    assert data[position..][used..] == data[position + used..];
  }

  /** A slice one longer is the slice followed by the next element. */
  lemma SliceSnoc<T>(s: seq<T>, i: nat, j: nat)
    requires i <= j < |s|
    ensures s[i..j + 1] == s[i..j] + [s[j]]
    ensures s[i..j + 1][..j - i] == s[i..j]
  {
  }

  /** A slice two longer is the slice followed by the next two elements. */
  lemma SliceSnoc2<T>(s: seq<T>, i: nat, j: nat)
    requires i <= j && j + 2 <= |s|
    ensures s[i..j + 2] == s[i..j] + [s[j], s[j + 1]]
  {
  }

  /** The suffix from i + m is the rest of the slice s[i..j] after m elements, then the suffix from j. */
  lemma SliceJoin<T>(s: seq<T>, i: nat, m: nat, j: nat)
    requires i + m <= j <= |s|
    ensures s[i + m..] == s[i..j][m..] + s[j..]
  {
  }

  /** A sequence cut at k, whose two parts are a + b and c + d, is a, then b + c, then d. */
  lemma Regroup<T>(s: seq<T>, k: nat, a: seq<T>, b: seq<T>, c: seq<T>, d: seq<T>)
    requires k <= |s| && s[..k] == a + b && s[k..] == c + d
    ensures s == a + (b + c) + d
  {
    assert s == s[..k] + s[k..];
  }
}
