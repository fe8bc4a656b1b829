/**
 * The Huffman tables of a JPEG file, as the DHT branch of the JPEG
 * constructor builds them. A table comes as sixteen counts (how many codes
 * are 1, 2, ..., 16 bits long) followed by the symbols; the program turns
 * the counts into codes by keeping a list of the free codes of the current
 * length: the first `count` of them are taken, and every one left over is
 * replaced by its two children (`code << 1` and `(code << 1) + 1`).
 *
 * The reference the list is proved against is the canonical code of
 * ISO/IEC 10918-1, Annex C: codes of one length are consecutive, and the
 * first code of the next length is (last code + 1) shifted left.
 */
module JpegHuffman {
  import opened Wrappers
  import opened BitStrings

  /** HuffTree: a code of a table and the symbol it stands for. */
  datatype HuffTree = HuffTree(code: nat, val: nat)

  /** A table as the program keeps it: row l holds the codes that are l + 1 bits long. */
  type Table = seq<seq<HuffTree>>

  // ---------------------------------------------------------------------------
  // The canonical code (Annex C)

  /** The first code of length l + 1. */
  function Start(counts: seq<nat>, l: nat): nat
    requires l <= |counts|
  {
    if l == 0 then 0 else 2 * (Start(counts, l - 1) + counts[l - 1])
  }

  /** How many codes of length l + 1 are free once the shorter lengths have taken theirs. */
  function Free(counts: seq<nat>, l: nat): int
    requires l <= |counts|
  {
    if l == 0 then 2 else 2 * (Free(counts, l - 1) - counts[l - 1])
  }

  /** None of the first l lengths asks for more codes than are free. */
  predicate Fits(counts: seq<nat>, l: nat)
    requires l <= |counts|
  {
    l == 0 || (Fits(counts, l - 1) && counts[l - 1] <= Free(counts, l - 1))
  }

  /** The n consecutive numbers from `from` on. */
  function Run(from: nat, n: nat): (r: seq<nat>)
    ensures |r| == n
    ensures forall i :: 0 <= i < n ==> r[i] == from + i
  {
    seq(n, i => from + i)
  }

  /** The codes of every length, in the order the table lists them. */
  function CodeRows(counts: seq<nat>): (rows: seq<seq<nat>>)
    ensures |rows| == |counts|
  {
    seq(|counts|, l requires 0 <= l < |counts| => Run(Start(counts, l), counts[l]))
  }

  /** The free codes of a length and the codes taken before it fill the whole length. */
  lemma {:induction false} FrontierSize(counts: seq<nat>, l: nat)
    requires l <= |counts|
    ensures Start(counts, l) + Free(counts, l) == Pow2(l + 1)
    decreases l
  {
    if l > 0 {
      FrontierSize(counts, l - 1);
    }
  }

  /** Counts that fit fit at every length: none asks for more codes than are free there. */
  lemma {:induction false} FitsAt(counts: seq<nat>, l: nat, j: nat)
    requires j < l <= |counts| && Fits(counts, l)
    ensures counts[j] <= Free(counts, j)
    decreases l
  {
    if j < l - 1 {
      FitsAt(counts, l - 1, j);
    }
  }

  /** While the counts fit, the free codes never run out. */
  lemma {:induction false} FreeNonNegative(counts: seq<nat>, l: nat)
    requires l <= |counts| && Fits(counts, l)
    ensures Free(counts, l) >= 0
  {
  }

  /** Every code fits in its length: code c of row l is below 2^(l+1). */
  lemma CodesFit(counts: seq<nat>, l: nat, i: nat)
    requires l < |counts| && Fits(counts, |counts|) && i < counts[l]
    ensures CodeRows(counts)[l][i] < Pow2(l + 1)
  {
    FrontierSize(counts, l);
    FitsAt(counts, |counts|, l);
  }

  /** v shifted left by k bits. */
  function Shift(v: nat, k: nat): nat
  {
    v * Pow2(k)
  }

  lemma ShiftStep(v: nat, k: nat)
    ensures Shift(v, k + 1) == 2 * Shift(v, k)
  {
    assert Pow2(k + 1) == 2 * Pow2(k);
  }

  /** A later length starts at or above the end of an earlier one, shifted by the difference. */
  lemma {:induction false} StartGrows(counts: seq<nat>, i: nat, j: nat)
    requires i < j <= |counts|
    ensures Start(counts, j) >= Shift(Start(counts, i) + counts[i], j - i)
    decreases j - i
  {
    var s := Start(counts, i) + counts[i];
    if j == i + 1 {
      ShiftStep(s, 0);
    } else {
      StartGrows(counts, i, j - 1);
      ShiftStep(s, j - 1 - i);
      assert Start(counts, j) >= 2 * Start(counts, j - 1);
    }
  }

  lemma DivAtLeast(d: nat, p: nat, m: nat)
    requires p > 0 && d >= m * p
    ensures d / p >= m
  {
    var q, r := d / p, d % p;
    assert d == q * p + r && r < p;
    if q < m {
      MulBelow(q + 1, m, p);
    }
  }

  lemma MulBelow(a: nat, b: nat, p: nat)
    requires a <= b
    ensures a * p <= b * p
  {
  }

  /**
   * The table is prefix-free: a code of a shorter length i + 1 is never the
   * leading i + 1 bits of a code of a longer length j + 1.
   */
  lemma PrefixFree(counts: seq<nat>, i: nat, x: nat, j: nat, y: nat)
    requires i < j < |counts| && x < counts[i] && y < counts[j]
    ensures CodeRows(counts)[j][y] / Pow2(j - i) != CodeRows(counts)[i][x]
  {
    var c, d, s := CodeRows(counts)[i][x], CodeRows(counts)[j][y], Start(counts, i) + counts[i];
    assert c < s by {
      assert CodeRows(counts)[i] == Run(Start(counts, i), counts[i]);
    }
    assert d >= Start(counts, j) by {
      assert CodeRows(counts)[j] == Run(Start(counts, j), counts[j]);
    }
    StartGrows(counts, i, j);
    Above(d, s, j - i);
  }

  lemma Above(d: nat, s: nat, k: nat)
    requires d >= Shift(s, k)
    ensures d / Pow2(k) >= s
  {
    DivAtLeast(d, Pow2(k), s);
  }

  /** Codes of one length are distinct and rise by one. */
  lemma Consecutive(counts: seq<nat>, l: nat, i: nat)
    requires l < |counts| && i + 1 < counts[l]
    ensures CodeRows(counts)[l][i + 1] == CodeRows(counts)[l][i] + 1
  {
  }

  /** Annex C's step to a longer length: the next length starts at (last code + 1) shifted left. */
  lemma NextLength(counts: seq<nat>, l: nat)
    requires l + 1 < |counts| && counts[l] > 0
    ensures Start(counts, l + 1) == 2 * (CodeRows(counts)[l][counts[l] - 1] + 1)
  {
  }

  // ---------------------------------------------------------------------------
  // The program's list of free codes

  /** The first loop of a length: the leading `count` free codes are taken, or the list runs out. */
  method TakeCodes(free: seq<nat>, ghost a: nat, ghost n: nat, count: nat) returns (row: seq<nat>, rest: seq<nat>, ok: bool)
    requires free == Run(a, n)
    ensures ok <==> count <= n
    ensures ok ==> row == Run(a, count) && rest == Run(a + count, n - count)
  {
    row, rest := [], free;
    var i := 0;
    while i < count
      invariant 0 <= i <= count && i <= n
      invariant row == Run(a, i)
      invariant rest == Run(a + i, n - i)
    {
      if |rest| == 0 {
        return row, rest, false;
      }
      row := row + [rest[0]];
      rest := rest[1..];
      i := i + 1;
    }
    ok := true;
  }

  /** The second loop of a length: every free code is replaced by its two children. */
  method Grow(free: seq<nat>, ghost a: nat, ghost n: nat) returns (next: seq<nat>)
    requires free == Run(a, n)
    ensures next == Run(2 * a, 2 * n)
  {
    var count := |free|;
    next := free;
    var g := 0;
    while g < count
      invariant 0 <= g <= count
      invariant next == Run(a, count) + Run(2 * a, 2 * g)
    {
      assert next[g] == a + g;
      assert Run(2 * a, 2 * g) + [2 * (a + g), 2 * (a + g) + 1] == Run(2 * a, 2 * (g + 1));
      next := next + [2 * next[g], 2 * next[g] + 1];
      g := g + 1;
    }
    next := next[count..];
  }

  /** One length more: the start and the free count of the next length. */
  lemma NextFrontier(counts: seq<nat>, l: nat)
    requires l < |counts| && Fits(counts, l) && counts[l] <= Free(counts, l)
    ensures Fits(counts, l + 1)
    ensures Start(counts, l + 1) == 2 * (Start(counts, l) + counts[l])
    ensures Free(counts, l + 1) == 2 * (Free(counts, l) - counts[l])
  {
  }

  lemma RowsStep(counts: seq<nat>, l: nat, built: seq<seq<nat>>)
    requires l < |counts| && built == CodeRows(counts)[..l]
    ensures built + [Run(Start(counts, l), counts[l])] == CodeRows(counts)[..l + 1]
  {
  }

  /**
   * The codes the constructor assigns (JPEG.cs, the DHT branch): the list
   * [0, 1] of free codes, the first `counts[l]` taken for length l + 1, the
   * rest doubled. It fails where taking a code from the empty list throws.
   */
  method BuildCodes(counts: seq<nat>) returns (rows: Option<seq<seq<nat>>>)
    ensures rows.Some? <==> Fits(counts, |counts|)
    ensures rows.Some? ==> rows.value == CodeRows(counts)
  {
    var free: seq<nat> := [0, 1];
    var built: seq<seq<nat>> := [];
    ghost var a, n := 0, 2;
    var l := 0;
    while l < |counts|
      invariant 0 <= l <= |counts|
      invariant Fits(counts, l)
      invariant a == Start(counts, l) && n == Free(counts, l) && n >= 0
      invariant free == Run(a, n)
      invariant built == CodeRows(counts)[..l]
    {
      var row, rest, ok := TakeCodes(free, a, n, counts[l]);
      if !ok {
        assert !Fits(counts, |counts|) by {
          if Fits(counts, |counts|) {
            FitsAt(counts, |counts|, l);
          }
        }
        return None;
      }
      NextFrontier(counts, l);
      RowsStep(counts, l, built);
      ghost var left: nat := n - counts[l];
      assert rest == Run(a + counts[l], left);
      free := Grow(rest, a + counts[l], left);
      built := built + [row];
      a, n := 2 * (a + counts[l]), 2 * (n - counts[l]);
      l := l + 1;
    }
    assert built == CodeRows(counts);
    rows := Some(built);
  }
}
