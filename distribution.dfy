/**
 * How the hiding panel spreads the (possibly encrypted) frame over the
 * containers, and the capacity check it makes before it starts.
 *
 * Containers are visited in order. Each receives the next
 * min(capacity, remaining) bytes from the front of what is left; a
 * container whose portion would be empty is skipped, and the visit stops
 * once nothing is left.
 */
module Distribution {
  import opened Wrappers
  import opened ByteCodec
  import opened Framing
  import opened Texts
  import opened Payload

  /** The bytes one container receives, with the container's position in the list. */
  datatype Portion = Portion(container: nat, bytes: seq<bv8>)

  /** The sum of the capacities (the panel's GetSize over the container grid). */
  function Total(capacities: seq<nat>): nat
  {
    if |capacities| == 0 then 0 else Total(capacities[..|capacities| - 1]) + capacities[|capacities| - 1]
  }

  function Min(a: nat, b: nat): nat
  {
    if a < b then a else b
  }

  /** The portions containers i, i+1, ... receive out of the buffer. */
  function Spread(buffer: seq<bv8>, capacities: seq<nat>, i: nat): seq<Portion>
    requires i <= |capacities|
    decreases |capacities| - i
  {
    if i == |capacities| || |buffer| == 0 then []
    else
      var take := Min(capacities[i], |buffer|);
      if take == 0 then Spread(buffer, capacities, i + 1)
      else [Portion(i, buffer[..take])] + Spread(buffer[take..], capacities, i + 1)
  }

  /** What is left of the buffer once containers i, i+1, ... have received their portions. */
  function Leftover(buffer: seq<bv8>, capacities: seq<nat>, i: nat): seq<bv8>
    requires i <= |capacities|
    decreases |capacities| - i
  {
    if i == |capacities| || |buffer| == 0 then buffer
    else
      var take := Min(capacities[i], |buffer|);
      if take == 0 then Leftover(buffer, capacities, i + 1)
      else Leftover(buffer[take..], capacities, i + 1)
  }

  /** The portions' bytes, one after another. */
  function Joined(portions: seq<Portion>): seq<bv8>
  {
    if |portions| == 0 then [] else portions[0].bytes + Joined(portions[1..])
  }

  /** Every portion is non-empty and fits its container, and containers appear in increasing order from i on. */
  predicate WellPlaced(portions: seq<Portion>, capacities: seq<nat>, i: nat)
  {
    (forall k :: 0 <= k < |portions| ==>
      i <= portions[k].container < |capacities| &&
      0 < |portions[k].bytes| <= capacities[portions[k].container]) &&
    (forall k, l :: 0 <= k < l < |portions| ==> portions[k].container < portions[l].container)
  }

  /** Every portion but the last fills its container. */
  predicate Greedy(portions: seq<Portion>, capacities: seq<nat>)
  {
    forall k :: 0 <= k < |portions| - 1 && portions[k].container < |capacities| ==>
      |portions[k].bytes| == capacities[portions[k].container]
  }

  // ---------------------------------------------------------------------------
  // The loop of the hiding routine

  /**
   * The distribution loop: the remaining buffer loses its first
   * min(capacity, remaining) bytes to each container in turn.
   */
  method Distribute(buffer: seq<bv8>, capacities: seq<nat>) returns (portions: seq<Portion>, remaining: seq<bv8>)
    ensures portions == Spread(buffer, capacities, 0)
    ensures remaining == Leftover(buffer, capacities, 0)
  {
    portions := [];
    remaining := buffer;
    var i := 0;
    while i < |capacities| && |remaining| > 0
      invariant i <= |capacities|
      invariant portions + Spread(remaining, capacities, i) == Spread(buffer, capacities, 0)
      invariant Leftover(remaining, capacities, i) == Leftover(buffer, capacities, 0)
      decreases |capacities| - i
    {
      var portionSize := Min(capacities[i], |remaining|);
      if portionSize == 0 {
        i := i + 1;
        continue;
      }
      var slice := remaining[..portionSize];
      SpreadStep(remaining, capacities, i);
      assert portions + [Portion(i, slice)] + Spread(remaining[portionSize..], capacities, i + 1) ==
        portions + Spread(remaining, capacities, i);
      remaining := remaining[portionSize..];
      portions := portions + [Portion(i, slice)];
      i := i + 1;
    }
  }

  /** One visit: a container without room is skipped, any other takes its portion off the front. */
  lemma SpreadStep(buffer: seq<bv8>, capacities: seq<nat>, i: nat)
    requires i < |capacities| && |buffer| > 0
    ensures var take := Min(capacities[i], |buffer|);
      take > 0 ==>
        Spread(buffer, capacities, i) == [Portion(i, buffer[..take])] + Spread(buffer[take..], capacities, i + 1) &&
        Leftover(buffer, capacities, i) == Leftover(buffer[take..], capacities, i + 1)
  {
  }

  /** GetSize over the container grid: the capacities summed in a loop. */
  method TotalCapacity(capacities: seq<nat>) returns (total: nat)
    ensures total == Total(capacities)
  {
    total := 0;
    for i := 0 to |capacities|
      invariant total == Total(capacities[..i])
    {
      assert capacities[..i + 1][..i] == capacities[..i];
      total := total + capacities[i];
    }
    assert capacities[..|capacities|] == capacities;
  }

  // ---------------------------------------------------------------------------
  // Properties of the distribution

  /** The capacities from i on: the first of them, then the rest. */
  lemma {:induction false} TotalFront(capacities: seq<nat>)
    requires |capacities| > 0
    ensures Total(capacities) == capacities[0] + Total(capacities[1..])
    decreases |capacities|
  {
    if |capacities| > 1 {
      var init := capacities[..|capacities| - 1];
      TotalFront(init);
      assert init[1..] == capacities[1..][..|capacities| - 2];
    }
  }

  /**
   * The portions are the buffer's first min(|buffer|, capacity from i on)
   * bytes, in order, and the leftover is the rest.
   */
  lemma {:induction false} SpreadPrefix(buffer: seq<bv8>, capacities: seq<nat>, i: nat)
    requires i <= |capacities|
    ensures var placed := Min(|buffer|, Total(capacities[i..]));
      Joined(Spread(buffer, capacities, i)) == buffer[..placed] &&
      Leftover(buffer, capacities, i) == buffer[placed..]
    decreases |capacities| - i
  {
    if i == |capacities| || |buffer| == 0 {
      NothingToSpread(buffer, capacities, i);
    } else {
      var later := Total(capacities[i + 1..]);
      TotalFrom(capacities, i);
      var take := Min(capacities[i], |buffer|);
      if take == 0 {
        SpreadPrefix(buffer, capacities, i + 1);
        SkipStep(buffer, capacities, i);
      } else {
        var placed := Min(|buffer| - take, later);
        SpreadPrefix(buffer[take..], capacities, i + 1);
        PrefixStep(buffer, capacities, i, take, later, placed);
        assert Min(|buffer|, Total(capacities[i..])) == take + placed;
      }
    }
  }

  /** Past the last container, or with nothing left, nothing is placed and the whole buffer is left over. */
  lemma NothingToSpread(buffer: seq<bv8>, capacities: seq<nat>, i: nat)
    requires i <= |capacities| && (i == |capacities| || |buffer| == 0)
    ensures var placed := Min(|buffer|, Total(capacities[i..]));
      Joined(Spread(buffer, capacities, i)) == buffer[..placed] &&
      Leftover(buffer, capacities, i) == buffer[placed..]
  {
    assert Spread(buffer, capacities, i) == [] && Leftover(buffer, capacities, i) == buffer;
    assert i == |capacities| ==> Total(capacities[i..]) == 0 by {
      assert i == |capacities| ==> capacities[i..] == [];
    }
    assert buffer[..Min(|buffer|, Total(capacities[i..]))] == [];
  }

  /** The capacities from i on: container i's, then those after it. */
  lemma TotalFrom(capacities: seq<nat>, i: nat)
    requires i < |capacities|
    ensures Total(capacities[i..]) == capacities[i] + Total(capacities[i + 1..])
  {
    TotalFront(capacities[i..]);
    assert capacities[i..][1..] == capacities[i + 1..];
  }

  /** The prefix property at container i when that container has no room, from the same property at i + 1. */
  lemma SkipStep(buffer: seq<bv8>, capacities: seq<nat>, i: nat)
    requires i < |capacities| && |buffer| > 0 && capacities[i] == 0
    requires Total(capacities[i..]) == capacities[i] + Total(capacities[i + 1..])
    requires var placed := Min(|buffer|, Total(capacities[i + 1..]));
      Joined(Spread(buffer, capacities, i + 1)) == buffer[..placed] &&
      Leftover(buffer, capacities, i + 1) == buffer[placed..]
    ensures var placed := Min(|buffer|, Total(capacities[i..]));
      Joined(Spread(buffer, capacities, i)) == buffer[..placed] &&
      Leftover(buffer, capacities, i) == buffer[placed..]
  {
    assert Spread(buffer, capacities, i) == Spread(buffer, capacities, i + 1);
    assert Leftover(buffer, capacities, i) == Leftover(buffer, capacities, i + 1);
  }

  /** The prefix property at container i, from the same property at i + 1 for what is left after container i's portion. */
  lemma PrefixStep(buffer: seq<bv8>, capacities: seq<nat>, i: nat, take: nat, later: nat, placed: nat)
    requires i < |capacities| && |buffer| > 0 && capacities[i] > 0
    requires take == Min(capacities[i], |buffer|) && later == Total(capacities[i + 1..])
    requires Total(capacities[i..]) == capacities[i] + later && placed == Min(|buffer| - take, later)
    requires Joined(Spread(buffer[take..], capacities, i + 1)) == buffer[take..][..placed]
    requires Leftover(buffer[take..], capacities, i + 1) == buffer[take..][placed..]
    ensures Joined(Spread(buffer, capacities, i)) == buffer[..take + placed]
    ensures Leftover(buffer, capacities, i) == buffer[take + placed..]
  {
    var rest := buffer[take..];
    assert Joined(Spread(buffer, capacities, i)) == buffer[..take] + Joined(Spread(rest, capacities, i + 1)) &&
      Leftover(buffer, capacities, i) == Leftover(rest, capacities, i + 1) by {
      SpreadFront(buffer, capacities, i);
    }
    PrefixJoin(buffer, take, rest, placed);
  }

  /** A container with room takes its portion off the front of the buffer. */
  lemma SpreadFront(buffer: seq<bv8>, capacities: seq<nat>, i: nat)
    requires i < |capacities| && |buffer| > 0 && capacities[i] > 0
    ensures var take := Min(capacities[i], |buffer|);
      Joined(Spread(buffer, capacities, i)) == buffer[..take] + Joined(Spread(buffer[take..], capacities, i + 1)) &&
      Leftover(buffer, capacities, i) == Leftover(buffer[take..], capacities, i + 1)
  {
    var take := Min(capacities[i], |buffer|);
    var tail := Spread(buffer[take..], capacities, i + 1);
    var portions := [Portion(i, buffer[..take])] + tail;
    assert Spread(buffer, capacities, i) == portions;
    assert portions[1..] == tail;
  }

  /** Two consecutive slices of a buffer make up its prefix, and what follows them is its suffix. */
  lemma PrefixJoin(buffer: seq<bv8>, take: nat, rest: seq<bv8>, placed: nat)
    requires take <= |buffer| && rest == buffer[take..] && placed <= |rest|
    ensures buffer[..take] + rest[..placed] == buffer[..take + placed]
    ensures rest[placed..] == buffer[take + placed..]
  {
    assert buffer[..take] + rest[..placed] == buffer[..take + placed];
  }

  /** Every portion is non-empty and fits its container; containers come in increasing order. */
  lemma {:induction false} SpreadWellPlaced(buffer: seq<bv8>, capacities: seq<nat>, i: nat)
    requires i <= |capacities|
    ensures WellPlaced(Spread(buffer, capacities, i), capacities, i)
    decreases |capacities| - i
  {
    if i < |capacities| && |buffer| > 0 {
      var take := Min(capacities[i], |buffer|);
      if take == 0 {
        SpreadWellPlaced(buffer, capacities, i + 1);
        WellPlacedLater(Spread(buffer, capacities, i + 1), capacities, i);
      } else {
        SpreadWellPlaced(buffer[take..], capacities, i + 1);
        WellPlacedCons(Portion(i, buffer[..take]), Spread(buffer[take..], capacities, i + 1), capacities, i);
      }
    }
  }

  /** Portions placed from container i + 1 on are placed from container i on. */
  lemma WellPlacedLater(portions: seq<Portion>, capacities: seq<nat>, i: nat)
    requires WellPlaced(portions, capacities, i + 1)
    ensures WellPlaced(portions, capacities, i)
  {
  }

  /** A portion that fits container i, in front of portions placed from container i + 1 on. */
  lemma WellPlacedCons(p: Portion, portions: seq<Portion>, capacities: seq<nat>, i: nat)
    requires p.container == i < |capacities| && 0 < |p.bytes| <= capacities[i]
    requires WellPlaced(portions, capacities, i + 1)
    ensures WellPlaced([p] + portions, capacities, i)
  {
    var all := [p] + portions;
    forall k, l | 0 <= k < l < |all|
      ensures all[k].container < all[l].container
    {
      assert all[l] == portions[l - 1];
      if k > 0 {
        assert all[k] == portions[k - 1];
      }
    }
  }

  /** Every portion but the last fills its container. */
  lemma {:induction false} SpreadGreedy(buffer: seq<bv8>, capacities: seq<nat>, i: nat)
    requires i <= |capacities|
    ensures Greedy(Spread(buffer, capacities, i), capacities)
    decreases |capacities| - i
  {
    if i < |capacities| && |buffer| > 0 {
      var take := Min(capacities[i], |buffer|);
      if take == 0 {
        SpreadGreedy(buffer, capacities, i + 1);
      } else {
        var rest := buffer[take..];
        SpreadGreedy(rest, capacities, i + 1);
        if take < capacities[i] {
          assert |rest| == 0;
        }
      }
    }
  }

  /** The whole buffer is placed exactly when the capacities add up to at least its length. */
  lemma AllPlaced(buffer: seq<bv8>, capacities: seq<nat>)
    ensures Leftover(buffer, capacities, 0) == [] <==> |buffer| <= Total(capacities)
    ensures |buffer| <= Total(capacities) ==> Joined(Spread(buffer, capacities, 0)) == buffer
  {
    SpreadPrefix(buffer, capacities, 0);
    assert capacities[0..] == capacities;
  }

  // ---------------------------------------------------------------------------
  // The capacity check before hiding

  /** Path.GetExtension without its dot: what follows the last dot unless the dot ends the name. */
  function PathExtension(fileName: Text): (ext: Text)
    ensures |ext| >= |ExtPart(fileName)|
  {
    var dot := LastIndexOf(fileName, Dot);
    if 0 <= dot < |fileName| - 1 then fileName[dot + 1..] else []
  }

  /**
   * The grid size of a file is its record size: its last dot is not its first
   * unit, and its extension has no surrogate pair the ASCII encoder folds to one '?'.
   */
  predicate GridExact(file: FileEntry)
  {
    LastIndexOf(file.fileName, Dot) != 0 && |AsciiBytes(ExtPart(file.fileName))| == |ExtPart(file.fileName)|
  }

  /**
   * The size the file grid shows for a file: one byte of name length, the
   * name part (at most 255 units) in UTF-16, one byte of extension length,
   * the extension as Path.GetExtension finds it, five bytes of body length,
   * and the body.
   */
  function RowSize(file: FileEntry): (size: nat)
    ensures size >= |Record(file)|
    ensures GridExact(file) ==> size == |Record(file)|
  {
    1 + 2 * |StoredName(file.fileName)| + 1 + |PathExtension(file.fileName)| + 5 + |file.body|
  }

  function RowSizes(files: seq<FileEntry>): nat
  {
    if |files| == 0 then 0 else RowSizes(files[..|files| - 1]) + RowSize(files[|files| - 1])
  }

  /**
   * The refusal check as written: the capacities must cover the grid sizes
   * plus the 10-byte header, whether or not the buffer is encrypted.
   */
  predicate AdmitsAsWritten(files: seq<FileEntry>, capacities: seq<nat>)
  {
    |files| > 0 ==> Total(capacities) >= RowSizes(files) + HeaderSize
  }

  /** The buffer the hiding routine spreads: the frame, or its encryption when a key is given. */
  function HiddenBuffer(files: seq<FileEntry>, key: Option<seq<bv8>>): Option<seq<bv8>>
  {
    match key
    case None => Some(Frame(files))
    case Some(k) => EncryptPayload(Frame(files), k)
  }

  /** The length of the buffer that is actually spread: the frame, padded to whole blocks when encrypted. */
  function BufferLength(frameLength: nat, encrypted: bool): (n: nat)
    ensures n >= frameLength
  {
    if encrypted then frameLength + PadLength(frameLength) else frameLength
  }

  /** The refusal check as intended: the capacities must cover the buffer that is actually spread. */
  predicate Admits(files: seq<FileEntry>, capacities: seq<nat>, encrypted: bool)
  {
    |files| > 0 ==> Total(capacities) >= BufferLength(RowSizes(files) + HeaderSize, encrypted)
  }

  /** The grid sizes never undercount the records. */
  lemma {:induction false} RowSizesCover(files: seq<FileEntry>)
    ensures RowSizes(files) >= |Records(files)|
    ensures (forall i :: 0 <= i < |files| ==> GridExact(files[i])) ==> RowSizes(files) == |Records(files)|
    decreases |files|
  {
    if |files| > 0 {
      RowSizesCover(files[..|files| - 1]);
    }
  }

  /** The encrypted buffer is the frame padded to whole blocks. */
  lemma HiddenLength(files: seq<FileEntry>, key: seq<bv8>)
    requires EncryptPayload(Frame(files), key).Some?
    ensures |EncryptPayload(Frame(files), key).value| == BufferLength(|Frame(files)|, true)
  {
  }

  /** A longer frame never pads to a shorter buffer. */
  lemma BufferLengthMonotone(a: nat, b: nat, encrypted: bool)
    requires a <= b
    ensures BufferLength(a, encrypted) <= BufferLength(b, encrypted)
  {
    if encrypted {
      assert a + PadLength(a) == 16 * (a / 16) + 16;
      assert b + PadLength(b) == 16 * (b / 16) + 16;
      assert a / 16 <= b / 16;
    }
  }

  /** The buffer that is spread is the frame, padded to whole blocks when encrypted. */
  lemma HiddenBufferLength(files: seq<FileEntry>, key: Option<seq<bv8>>)
    requires HiddenBuffer(files, key).Some?
    ensures |HiddenBuffer(files, key).value| == BufferLength(|Frame(files)|, key.Some?)
  {
    if key.Some? {
      HiddenLength(files, key.value);
    }
  }

  /** The frame is never longer than the grid sizes plus the header. */
  lemma FrameWithinGrid(files: seq<FileEntry>)
    ensures |Frame(files)| <= RowSizes(files) + HeaderSize
  {
    RowSizesCover(files);
  }

  /** The intended check guarantees room for the padded or unpadded frame. */
  lemma {:induction false} AdmittedCovers(files: seq<FileEntry>, capacities: seq<nat>, n: nat, encrypted: bool)
    requires |files| > 0 && Admits(files, capacities, encrypted)
    requires n == BufferLength(|Frame(files)|, encrypted)
    ensures n <= Total(capacities)
  {
    var frameLength, gridLength, total := |Frame(files)|, RowSizes(files) + HeaderSize, Total(capacities);
    FrameWithinGrid(files);
    CoveredBelow(frameLength, gridLength, total, encrypted);
  }

  /** Room for the buffer of a longer frame is room for the buffer of a shorter one. */
  lemma {:induction false} CoveredBelow(a: nat, b: nat, total: nat, encrypted: bool)
    requires a <= b && BufferLength(b, encrypted) <= total
    ensures BufferLength(a, encrypted) <= total
  {
    BufferLengthMonotone(a, b, encrypted);
  }

  /** With the intended check, a buffer as long as the padded or unpadded frame is placed whole. */
  lemma {:induction false} AdmittedFits(files: seq<FileEntry>, capacities: seq<nat>, buffer: seq<bv8>, encrypted: bool)
    requires |files| > 0 && Admits(files, capacities, encrypted)
    requires |buffer| == BufferLength(|Frame(files)|, encrypted)
    ensures Leftover(buffer, capacities, 0) == []
  {
    AdmittedCovers(files, capacities, |buffer|, encrypted);
    AllPlaced(buffer, capacities);
  }

  /** With the intended check, the buffer the hiding routine spreads is placed whole, encrypted or not. */
  lemma AdmittedHiddenFits(files: seq<FileEntry>, capacities: seq<nat>, key: Option<seq<bv8>>)
    requires |files| > 0 && Admits(files, capacities, key.Some?)
    requires HiddenBuffer(files, key).Some?
    ensures Leftover(HiddenBuffer(files, key).value, capacities, 0) == []
  {
    HiddenBufferLength(files, key);
    AdmittedFits(files, capacities, HiddenBuffer(files, key).value, key.Some?);
  }

  /**
   * The check as written admits containers whose total capacity equals the
   * frame length exactly; once the frame is encrypted, the padding does not
   * fit and part of the buffer is never hidden.
   */
  lemma AsWrittenLosesPadding(files: seq<FileEntry>, key: seq<bv8>)
    requires |files| > 0 && EncryptPayload(Frame(files), key).Some?
    requires forall i :: 0 <= i < |files| ==> GridExact(files[i])
    ensures AdmitsAsWritten(files, [|Frame(files)|])
    ensures Leftover(EncryptPayload(Frame(files), key).value, [|Frame(files)|], 0) != []
  {
    var capacities := [|Frame(files)|];
    RowSizesCover(files);
    assert Total(capacities) == |Frame(files)| by {
      assert capacities[..0] == [];
    }
    AllPlaced(EncryptPayload(Frame(files), key).value, capacities);
  }
}
