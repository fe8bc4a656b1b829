/**
 * Byte stuffing in the entropy-coded data of a JPEG scan (section B.1.1.5
 * of ITU-T T.81): a data byte FF is written as FF 00, so that FF followed
 * by anything else is a marker. The scan loop of JPEG.cs reads the data a
 * unit at a time (FF 00 gives one FF byte, any other byte itself) until it
 * meets the end-of-image marker FF D9, and writes each byte it emits
 * followed by 00 when the byte is FF.
 *
 * An index past the end of the array throws in the program; here each
 * reading function says None there.
 */
module JpegStuffing {
  import opened Wrappers
  import opened BitStrings
  import opened Streams

  /** What the writer puts out for one data byte. */
  function Unit(b: bv8): (u: seq<bv8>)
    ensures |u| > 0 && u[0] == b
  {
    if b == 0xFF then [0xFF, 0x00] else [b]
  }

  /** The stuffed form of a run of data bytes. */
  function Stuff(data: seq<bv8>): seq<bv8>
  {
    if |data| == 0 then [] else Unit(data[0]) + Stuff(data[1..])
  }

  /** Whether the bytes at pos are the end-of-image marker FF D9, as the refill loop asks it. */
  function AtEoi(bytes: seq<bv8>, pos: nat): (r: Option<bool>)
    ensures r.Some? <==> pos < |bytes| && (bytes[pos] == 0xFF ==> pos + 1 < |bytes|)
    ensures r == Some(true) <==> pos + 1 < |bytes| && bytes[pos] == 0xFF && bytes[pos + 1] == 0xD9
  {
    if pos >= |bytes| then None
    else if bytes[pos] != 0xFF then Some(false)
    else if pos + 1 >= |bytes| then None
    else Some(bytes[pos + 1] == 0xD9)
  }

  /** One unit of the reader: FF 00 gives the byte FF and moves two places, any other byte moves one. */
  function ReadUnit(bytes: seq<bv8>, pos: nat): (r: Option<(bv8, nat)>)
    ensures r.Some? ==> pos < r.value.1 <= pos + 2 && r.value.1 <= |bytes|
  {
    if pos >= |bytes| then None
    else if bytes[pos] != 0xFF then Some((bytes[pos], pos + 1))
    else if pos + 1 >= |bytes| then None
    else if bytes[pos + 1] == 0x00 then Some((0xFF, pos + 2))
    else Some((0xFF, pos + 1))
  }

  /** The data bytes the reader takes from pos up to the first FF D9 it meets at a unit boundary. */
  function Unstuff(bytes: seq<bv8>, pos: nat): Option<seq<bv8>>
    decreases |bytes| - pos
  {
    match AtEoi(bytes, pos)
    case None => None
    case Some(true) => Some([])
    case Some(false) =>
      match ReadUnit(bytes, pos)
      case None => None
      case Some((b, next)) =>
        match Unstuff(bytes, next)
        case None => None
        case Some(rest) => Some([b] + rest)
  }

  // ---------------------------------------------------------------------------
  // Properties of stuffing

  lemma {:induction false} StuffAppend(a: seq<bv8>, b: seq<bv8>)
    ensures Stuff(a + b) == Stuff(a) + Stuff(b)
    decreases |a|
  {
    if |a| == 0 {
      assert a + b == b;
    } else {
      assert (a + b)[0] == a[0] && (a + b)[1..] == a[1..] + b;
      StuffAppend(a[1..], b);
    }
  }

  lemma StuffOne(b: bv8)
    ensures Stuff([b]) == Unit(b)
  {
    assert Stuff([b]) == Unit(b) + Stuff([]);
  }

  /** Every FF the writer puts out is followed by 00, so the data never looks like a marker. */
  lemma {:induction false} StuffedFF(data: seq<bv8>, i: nat)
    requires i < |Stuff(data)| && Stuff(data)[i] == 0xFF
    ensures i + 1 < |Stuff(data)| && Stuff(data)[i + 1] == 0x00
    decreases |data|
  {
    var u := Unit(data[0]);
    assert Stuff(data) == u + Stuff(data[1..]);
    if i >= |u| {
      StuffedFF(data[1..], i - |u|);
    }
  }

  /** The position of the n-th unit of stuffed data written after `before`. */
  function UnitPosition(before: nat, data: seq<bv8>, n: nat): nat
    requires n <= |data|
  {
    before + |Stuff(data[..n])|
  }

  lemma UnitStep(before: nat, data: seq<bv8>, n: nat)
    requires n < |data|
    ensures UnitPosition(before, data, n + 1) == UnitPosition(before, data, n) + |Unit(data[n])|
    ensures Stuff(data) == Stuff(data[..n]) + Unit(data[n]) + Stuff(data[n + 1..])
  {
    assert data[..n + 1] == data[..n] + [data[n]];
    StuffAppend(data[..n], [data[n]]);
    StuffOne(data[n]);
    assert data == data[..n + 1] + data[n + 1..];
    StuffAppend(data[..n + 1], data[n + 1..]);
  }

  /** The file layout the reader is read against: whatever comes first, the stuffed data, FF D9, anything after. */
  predicate Laid(bytes: seq<bv8>, before: nat, data: seq<bv8>)
  {
    before + |Stuff(data)| + 2 <= |bytes|
    && bytes[before..before + |Stuff(data)|] == Stuff(data)
    && bytes[before + |Stuff(data)|] == 0xFF && bytes[before + |Stuff(data)| + 1] == 0xD9
  }

  /** On laid-out data, the n-th unit is written where the n-th unit position says. */
  lemma {:induction false} LaidUnit(bytes: seq<bv8>, before: nat, data: seq<bv8>, n: nat)
    requires Laid(bytes, before, data) && n < |data|
    ensures UnitPosition(before, data, n + 1) == UnitPosition(before, data, n) + |Unit(data[n])|
    ensures UnitPosition(before, data, n + 1) < |bytes|
    ensures bytes[UnitPosition(before, data, n)..UnitPosition(before, data, n + 1)] == Unit(data[n])
  {
    UnitStep(before, data, n);
    Middle(bytes, before, Stuff(data[..n]), Unit(data[n]), Stuff(data[n + 1..]));
  }

  /** A piece in the middle of a run of bytes found in a larger one is found there too. */
  lemma Middle<T>(bytes: seq<T>, at: nat, a: seq<T>, u: seq<T>, b: seq<T>)
    requires at + |a + u + b| <= |bytes| && bytes[at..at + |a + u + b|] == a + u + b
    ensures bytes[at + |a|..at + |a| + |u|] == u
  {
    forall i | 0 <= i < |u|
      ensures bytes[at + |a| + i] == u[i]
    {
      assert bytes[at + |a| + i] == bytes[at..at + |a + u + b|][|a| + i];
    }
  }

  /**
   * On laid-out data the reader sees, at every unit boundary before the end,
   * no end marker and the next data byte, and at the end the end marker.
   */
  lemma {:induction false} ReadLaid(bytes: seq<bv8>, before: nat, data: seq<bv8>, n: nat)
    requires Laid(bytes, before, data) && n <= |data|
    ensures n < |data| ==> AtEoi(bytes, UnitPosition(before, data, n)) == Some(false)
    ensures n < |data| ==> ReadUnit(bytes, UnitPosition(before, data, n)) == Some((data[n], UnitPosition(before, data, n + 1)))
    ensures n < |data| ==> bytes[UnitPosition(before, data, n)] == 0xFF ==> bytes[UnitPosition(before, data, n) + 1] == 0x00
    ensures n == |data| ==> AtEoi(bytes, UnitPosition(before, data, n)) == Some(true)
  {
    var p := UnitPosition(before, data, n);
    if n < |data| {
      LaidUnit(bytes, before, data, n);
      var u := Unit(data[n]);
      assert bytes[p] == u[0];
      if data[n] == 0xFF {
        assert bytes[p + 1] == u[1];
      }
    } else {
      assert data[..n] == data;
    }
  }

  /** The reader recovers the data from its stuffed form. */
  lemma {:induction false} UnstuffLaid(bytes: seq<bv8>, before: nat, data: seq<bv8>, n: nat)
    requires Laid(bytes, before, data) && n <= |data|
    ensures Unstuff(bytes, UnitPosition(before, data, n)) == Some(data[n..])
    decreases |data| - n
  {
    ReadLaid(bytes, before, data, n);
    var p := UnitPosition(before, data, n);
    if n < |data| {
      UnstuffLaid(bytes, before, data, n + 1);
      assert Unstuff(bytes, p) == Some([data[n]] + data[n + 1..]);
      assert data[n..] == [data[n]] + data[n + 1..];
    } else {
      assert Unstuff(bytes, p) == Some([]);
      assert data[n..] == [];
    }
  }

  /** The round trip of T.81 section B.1.1.5: stuffed data followed by FF D9 reads back as the data. */
  lemma UnstuffStuff(data: seq<bv8>, after: seq<bv8>)
    ensures Unstuff(Stuff(data) + [0xFF, 0xD9] + after, 0) == Some(data)
  {
    var bytes := Stuff(data) + [0xFF, 0xD9] + after;
    assert bytes[0..|Stuff(data)|] == Stuff(data);
    assert data[..0] == [];
    UnstuffLaid(bytes, 0, data, 0);
  }

  // ---------------------------------------------------------------------------
  // The writer

  lemma {:induction false} EmitStep(pending: Bits)
    requires |pending| >= 8
    ensures Emit(pending).0 == [ToByte(pending[..8])] + Emit(pending[8..]).0
    ensures Emit(pending).1 == Emit(pending[8..]).1
  {
  }

  lemma {:induction false} StuffSnoc(done: seq<bv8>, b: bv8)
    ensures Stuff(done + [b]) == Stuff(done) + Unit(b)
  {
    StuffAppend(done, [b]);
    StuffOne(b);
  }

  lemma {:induction false} StuffStep(written: seq<bv8>, output: seq<bv8>, done: seq<bv8>, b: bv8)
    requires output == written + Stuff(done)
    ensures output + Unit(b) == written + Stuff(done + [b])
  {
    StuffSnoc(done, b);
  }

  lemma {:induction false} EmitProgress(chunk: Bits, done: seq<bv8>, pending: Bits)
    requires |pending| >= 8
    requires done + Emit(pending).0 == Emit(chunk).0 && Emit(pending).1 == Emit(chunk).1
    ensures (done + [ToByte(pending[..8])]) + Emit(pending[8..]).0 == Emit(chunk).0
    ensures Emit(pending[8..]).1 == Emit(chunk).1
  {
    EmitStep(pending);
  }

  /** One byte of the output, followed by 00 when it is FF. */
  method WriteByte(output: seq<bv8>, b: bv8) returns (written: seq<bv8>)
    ensures written == output + Unit(b)
  {
    written := output + [b];
    if b == 0xFF {
      written := written + [0x00];
    }
  }

  /**
   * The emit loop of the encoder: while eight digits are pending, their
   * byte is added, followed by 00 when it is FF.
   */
  method EmitStuffed(written: seq<bv8>, chunk: Bits) returns (output: seq<bv8>, pending: Bits)
    ensures output == written + Stuff(Emit(chunk).0) && pending == Emit(chunk).1
  {
    output, pending := written, chunk;
    ghost var done: seq<bv8> := [];
    while |pending| >= 8
      invariant output == written + Stuff(done)
      invariant done + Emit(pending).0 == Emit(chunk).0
      invariant Emit(pending).1 == Emit(chunk).1
      decreases |pending|
    {
      var b := ToByte(pending[..8]);
      StuffStep(written, output, done, b);
      EmitProgress(chunk, done, pending);
      output := WriteByte(output, b);
      done := done + [b];
      pending := pending[8..];
    }
    assert done == Emit(chunk).0;
  }
}
