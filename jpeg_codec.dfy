/**
 * The JPEG class of JPEG.cs: the constructor walks the markers and fills
 * compCount, DHT_DC and DHT_AC; jpegProcessing runs the scan loop in one of
 * its three modes and leaves info and secretFiles behind (and, in the
 * Encode mode, the bytes of the new file).
 *
 * Every loop here is proved against the function of JpegMarkers or JpegScan
 * that describes it. The functions keep every digit the encoder has put out
 * and every digit the decoder has found; the program writes the complete
 * bytes of these away at the start of each pass of the coefficient loop and
 * keeps only the rest. `Behind` puts the written digits back in front, and
 * the lemmas below show that the scan never looks at them.
 */
module JpegCodec {
  import opened Wrappers
  import opened BitStrings
  import opened Streams
  import opened JpegHuffman
  import opened JpegMarkers
  import opened JpegStuffing
  import opened JpegScan

  // ---------------------------------------------------------------------------
  // Digits already written away

  /** The state with the digits already written put back in front of `out` and `hidden`. */
  function Behind(s: Scan, out: Bits, hidden: Bits): Scan
  {
    s.(out := out + s.out, hidden := hidden + s.hidden)
  }

  function BehindScan(r: Option<Scan>, out: Bits, hidden: Bits): Option<Scan>
  {
    match r
    case None => None
    case Some(t) => Some(Behind(t, out, hidden))
  }

  function BehindStep(r: Option<Step>, out: Bits, hidden: Bits): Option<Step>
  {
    match r
    case None => None
    case Some(Continue(t, k)) => Some(Continue(Behind(t, out, hidden), k))
    case Some(Eob(t)) => Some(Eob(Behind(t, out, hidden)))
  }

  function BehindPass(r: Option<Pass>, out: Bits, hidden: Bits): Option<Pass>
  {
    match r
    case None => None
    case Some(Done(t)) => Some(Done(Behind(t, out, hidden)))
    case Some(Again(t, k, idx)) => Some(Again(Behind(t, out, hidden), k, idx))
  }

  /** The mode switch never looks at the digits written before. */
  lemma EmbedBehind(s: Scan, amp: nat, mode: Mode, k: nat, data: seq<bv8>, out: Bits, hidden: Bits)
    requires amp <= |s.stream| && s.dataIndex <= |data|
    ensures Embed(Behind(s, out, hidden), amp, mode, k, data) == BehindScan(Embed(s, amp, mode, k, data), out, hidden)
  {
    var b := Behind(s, out, hidden);
    match mode
    case Info =>
    case Encode =>
      if Exhausted(s, data) {
        Assoc(out, s.out, s.stream[..amp]);
      } else {
        var (index, chunk) := WriteCode(s.dataIndex, s.dataChunk, data, k);
        if amp > k {
          if k <= |chunk| {
            Assoc(out, s.out, s.stream[..amp - k] + chunk[..k]);
            assert b.out + s.stream[..amp - k] + chunk[..k] == out + (s.out + s.stream[..amp - k] + chunk[..k]);
            Assoc(hidden, s.hidden, chunk[..k]);
          }
        } else if amp <= |chunk| {
          Assoc(out, s.out, chunk[..amp]);
          Assoc(hidden, s.hidden, chunk[..amp]);
        }
      }
    case Decode =>
      if amp > k {
        Assoc(hidden, s.hidden, s.stream[amp - k..amp]);
      } else {
        Assoc(hidden, s.hidden, s.stream[..amp]);
      }
  }

  lemma ConsumeBehind(s: Scan, n: nat, mode: Mode, out: Bits, hidden: Bits)
    requires n <= |s.stream|
    ensures Consume(Behind(s, out, hidden), n, mode) == Behind(Consume(s, n, mode), out, hidden)
  {
    if mode == Encode {
      Assoc(out, s.out, s.stream[..n]);
    }
  }

  lemma EmbeddedBehind(r: Option<Scan>, rest: Bits, next: nat, out: Bits, hidden: Bits)
    ensures Embedded(BehindScan(r, out, hidden), rest, next) == BehindStep(Embedded(r, rest, next), out, hidden)
  {
  }

  lemma MatchedBehind(r: Option<Step>, out: Bits, hidden: Bits)
    ensures Matched(BehindStep(r, out, hidden)) == BehindPass(Matched(r), out, hidden)
  {
  }

  /** The same for a matched code: consuming it, its amplitude and the key entry. */
  lemma ApplyBehind(s: Scan, e: HuffTree, len: nat, k: nat, mode: Mode, key: seq<bv8>, data: seq<bv8>, out: Bits, hidden: Bits)
    requires 0 < len <= |s.stream| && s.dataIndex <= |data|
    ensures Apply(Behind(s, out, hidden), e, len, k, mode, key, data) == BehindStep(Apply(s, e, len, k, mode, key, data), out, hidden)
  {
    var s1 := Consume(s, len, mode);
    ConsumeBehind(s, len, mode, out, hidden);
    var amp := Amplitude(e);
    if k == 0 {
      if e.val != 0 && amp <= |s1.stream| {
        ConsumeBehind(s1, amp, mode, out, hidden);
      }
    } else if e.val != 0 && !(|key| == 0 && ReadsKey(s1, mode, data)) && amp <= |s1.stream| {
      var r := Embed(s1, amp, mode, KeyEntry(key, s1.stegPos), data);
      EmbedBehind(s1, amp, mode, KeyEntry(key, s1.stegPos), data, out, hidden);
      EmbeddedBehind(r, s1.stream[amp..], k + ZeroRun(e) + 1, out, hidden);
    }
  }

  /** And for a pass after the refill. */
  lemma CodePassBehind(bytes: seq<bv8>, s: Scan, dc: Table, ac: Table, mode: Mode, key: seq<bv8>, data: seq<bv8>, k: nat, idx: nat, out: Bits, hidden: Bits)
    requires idx <= |s.stream| && s.dataIndex <= |data|
    ensures CodePass(bytes, Behind(s, out, hidden), dc, ac, mode, key, data, k, idx)
         == BehindPass(CodePass(bytes, s, dc, ac, mode, key, data, k, idx), out, hidden)
  {
    var table := if k == 0 then dc else ac;
    if idx < |s.stream| && idx < |table| {
      match FirstMatch(table[idx], Value(s.stream[..idx + 1]))
      case None =>
      case Some(e) => AppliedBehind(s, e, idx + 1, k, mode, key, data, out, hidden);
    }
  }

  /** And for a symbol matched and applied. */
  lemma AppliedBehind(s: Scan, e: HuffTree, len: nat, k: nat, mode: Mode, key: seq<bv8>, data: seq<bv8>, out: Bits, hidden: Bits)
    requires 0 < len <= |s.stream| && s.dataIndex <= |data|
    ensures Matched(Apply(Behind(s, out, hidden), e, len, k, mode, key, data))
         == BehindPass(Matched(Apply(s, e, len, k, mode, key, data)), out, hidden)
  {
    ApplyBehind(s, e, len, k, mode, key, data, out, hidden);
    MatchedBehind(Apply(s, e, len, k, mode, key, data), out, hidden);
  }

  /** And for a whole pass of the coefficient loop. */
  lemma PassBehind(bytes: seq<bv8>, s: Scan, dc: Table, ac: Table, mode: Mode, key: seq<bv8>, data: seq<bv8>, k: nat, idx: nat, out: Bits, hidden: Bits)
    requires idx <= |s.stream| && s.dataIndex <= |data|
    ensures OnePass(bytes, Behind(s, out, hidden), dc, ac, mode, key, data, k, idx)
         == BehindPass(OnePass(bytes, s, dc, ac, mode, key, data, k, idx), out, hidden)
  {
    match Fill(bytes, s.pos, s.stream)
    case None =>
    case Some((pos, stream)) =>
      var s1 := s.(pos := pos, stream := stream);
      assert Behind(s, out, hidden).(pos := pos, stream := stream) == Behind(s1, out, hidden);
      CodePassBehind(bytes, s1, dc, ac, mode, key, data, k, idx, out, hidden);
  }

  /** Writing the complete bytes of a digit string away keeps the digits the bytes and the rest stand for. */
  lemma EmitBehind(done: seq<bv8>, x: Bits)
    ensures DataBits(done + Emit(x).0) + Emit(x).1 == DataBits(done) + x
  {
    DataBitsAppend(done, Emit(x).0);
    Assoc(DataBits(done), DataBits(Emit(x).0), Emit(x).1);
  }

  lemma AppendAssoc<T>(a: seq<T>, b: seq<T>, c: seq<T>)
    ensures (a + b) + c == a + (b + c)
  {
  }

  lemma DataBitsOne(b: bv8)
    ensures DataBits([b]) == ByteBits(b)
  {
    assert [b][..0] == [];
  }

  /** The digits of a byte sequence: those of its first byte, then those of the rest. */
  lemma DataBitsCons(b: bv8, rest: seq<bv8>)
    ensures DataBits([b] + rest) == ByteBits(b) + DataBits(rest)
  {
    DataBitsAppend([b], rest);
    DataBitsOne(b);
  }

  /** Eight digits of a byte at the front of a string give that byte first. */
  lemma EmitFront(b: bv8, y: Bits)
    ensures Emit(ByteBits(b) + y).0 == [b] + Emit(y).0
    ensures Emit(ByteBits(b) + y).1 == Emit(y).1
  {
    var str := ByteBits(b) + y;
    assert str[..8] == ByteBits(b);
    assert str[8..] == y;
    EmitStep(str);
    ByteOfByteBits(b);
  }

  /** The bytes of a digit string whose front is whole bytes: those bytes, then the bytes of the rest. */
  lemma {:induction false} EmitAfter(done: seq<bv8>, x: Bits)
    ensures Emit(DataBits(done) + x).0 == done + Emit(x).0
    ensures Emit(DataBits(done) + x).1 == Emit(x).1
    decreases |done|
  {
    if |done| > 0 {
      var rest := done[1..];
      var y := DataBits(rest) + x;
      assert [done[0]] + rest == done;
      assert DataBits(done) + x == ByteBits(done[0]) + y by {
        DataBitsCons(done[0], rest);
        Assoc(ByteBits(done[0]), DataBits(rest), x);
      }
      EmitFront(done[0], y);
      EmitAfter(rest, x);
      AppendAssoc([done[0]], rest, Emit(x).0);
    } else {
      assert DataBits(done) + x == x;
    }
  }

  /**
   * What the block loop has put out so far: the bytes before the scan and the
   * stuffed complete bytes of the output digits; in the Decode mode the
   * digits found so far are the bytes of secretFiles (empty in other modes).
   */
  ghost predicate Flushed(prefix: seq<bv8>, output: seq<bv8>, done: seq<bv8>, secret: seq<bv8>, hidden: Bits, mode: Mode)
  {
    output == prefix + Stuff(done)
    && (mode == Decode ==> hidden == DataBits(secret))
    && (mode != Decode ==> secret == [])
  }

  // ---------------------------------------------------------------------------
  // The constructor's branches

  /** The SOF branch: the product of the sampling factors of three components goes to compCount. */
  method ReadSofAt(bytes: seq<bv8>, p: nat, compCount: array<int>) returns (ok: bool, next: nat)
    requires compCount.Length == 3
    modifies compCount
    ensures ok <==> ReadSof(bytes, p).Some?
    ensures ok ==> compCount[..] == ReadSof(bytes, p).value.0 && next == ReadSof(bytes, p).value.1
  {
    var position := p + 11;
    for c := 0 to 3
      invariant position == p + 11 + 3 * c
      invariant forall j :: 0 <= j < c ==> p + 11 + 3 * j < |bytes| && compCount[j] == Sampling(bytes[p + 11 + 3 * j])
    {
      if position >= |bytes| {
        return false, 0;
      }
      compCount[c] := High(bytes[position]) * Low(bytes[position]);
      position := position + 3;
    }
    next := position - 2;
    ok := true;
    assert compCount[..] == [compCount[0], compCount[1], compCount[2]];
  }

  /** Row l of a table as the program leaves it: its codes are the canonical ones and its symbols come in order after the counts. */
  ghost predicate RowRead(bytes: seq<bv8>, p: nat, counts: seq<nat>, l: nat, row: seq<HuffTree>)
    requires l < |counts|
  {
    SymbolsFrom(bytes, p + 21 + Offset(counts, l), Start(counts, l), counts[l], row)
  }

  /** n symbols from the bytes at `base` on, paired with the consecutive codes from `start`. */
  ghost predicate SymbolsFrom(bytes: seq<bv8>, base: nat, start: nat, n: nat, row: seq<HuffTree>)
  {
    |row| == n
    && forall i :: 0 <= i < n ==> base + i < |bytes| && row[i] == HuffTree(start + i, bytes[base + i] as nat)
  }

  /** Symbols read at consecutive bytes from `base`, paired with the consecutive codes from `start`. */
  lemma SymbolsAt(bytes: seq<bv8>, base: nat, start: nat, codes: seq<nat>, row: seq<HuffTree>)
    requires codes == Run(start, |codes|) && base + |codes| <= |bytes| && |row| == |codes|
    requires forall i :: 0 <= i < |codes| ==> row[i] == HuffTree(codes[i], bytes[base + i] as nat)
    ensures SymbolsFrom(bytes, base, start, |codes|, row)
  {
  }

  /** The symbol loop of one length: the byte after the position goes to each code in turn. */
  method ReadSymbols(bytes: seq<bv8>, position: nat, codes: seq<nat>) returns (row: seq<HuffTree>, ok: bool)
    requires position < |bytes|
    ensures ok <==> position + |codes| < |bytes|
    ensures ok ==> |row| == |codes|
    ensures ok ==> forall i :: 0 <= i < |codes| ==> row[i] == HuffTree(codes[i], bytes[position + 1 + i] as nat)
  {
    row := [];
    for i := 0 to |codes|
      invariant |row| == i && position + i < |bytes|
      invariant forall j :: 0 <= j < i ==> row[j] == HuffTree(codes[j], bytes[position + 1 + j] as nat)
    {
      if position + 1 + i >= |bytes| {
        return row, false;
      }
      row := row + [HuffTree(codes[i], bytes[position + 1 + i] as nat)];
    }
    ok := true;
  }

  /** A row read in order is the row of the segment's table. */
  lemma RowMatches(bytes: seq<bv8>, p: nat, counts: seq<nat>, l: nat, row: seq<HuffTree>, vals: seq<bv8>)
    requires |counts| == 16 && l < 16
    requires p + 20 + Offset(counts, 16) < |bytes| && vals == bytes[p + 21..p + 21 + Offset(counts, 16)]
    requires RowRead(bytes, p, counts, l, row)
    ensures row == TableOf(counts, vals)[l]
  {
    OffsetGrows(counts, l + 1, 16);
    var want := RowOf(counts, vals, l);
    forall i | 0 <= i < counts[l]
      ensures row[i] == want[i]
    {
      assert vals[Offset(counts, l) + i] == bytes[p + 21 + Offset(counts, l) + i];
    }
    assert row == want;
  }

  /** Rows read in order, with the last symbol inside the file, make the table of the segment. */
  lemma TableRead(bytes: seq<bv8>, p: nat, counts: seq<nat>, table: Table, vals: seq<bv8>)
    requires |counts| == 16 && |table| == 16
    requires p + 20 + Offset(counts, 16) < |bytes| && vals == bytes[p + 21..p + 21 + Offset(counts, 16)]
    requires forall l :: 0 <= l < 16 ==> RowRead(bytes, p, counts, l, table[l])
    ensures table == TableOf(counts, vals)
  {
    var want := TableOf(counts, vals);
    forall l | 0 <= l < 16
      ensures table[l] == want[l]
    {
      RowMatches(bytes, p, counts, l, table[l], vals);
    }
  }

  /** The sixteen counts after the Tc/Th byte. */
  method ReadCounts(bytes: seq<bv8>, p: nat) returns (counts: seq<nat>)
    requires p + 20 < |bytes|
    ensures counts == CountsAt(bytes, p)
  {
    counts := [];
    for l := 0 to 16
      invariant |counts| == l
      invariant forall i :: 0 <= i < l ==> counts[i] == bytes[p + 5 + i] as nat
    {
      counts := counts + [bytes[p + 5 + l] as nat];
    }
  }

  /** Appending row |table| keeps every row of the table as RowRead describes it. */
  lemma RowsGrow(bytes: seq<bv8>, p: nat, counts: seq<nat>, table: Table, row: seq<HuffTree>)
    requires |table| < |counts|
    requires forall j :: 0 <= j < |table| ==> RowRead(bytes, p, counts, j, table[j])
    requires RowRead(bytes, p, counts, |table|, row)
    ensures forall j :: 0 <= j < |table| + 1 ==> RowRead(bytes, p, counts, j, (table + [row])[j])
  {
    forall j | 0 <= j < |table| + 1
      ensures RowRead(bytes, p, counts, j, (table + [row])[j])
    {
      if j < |table| {
        assert (table + [row])[j] == table[j];
      }
    }
  }

  /** The symbol loops: the symbols of each length in turn, from the byte after the counts. */
  method ReadTable(bytes: seq<bv8>, p: nat, counts: seq<nat>, rows: seq<seq<nat>>) returns (r: Option<(Table, nat)>)
    requires |counts| == 16 && p + 20 < |bytes| && rows == CodeRows(counts)
    ensures r.Some? <==> p + 20 + Offset(counts, 16) < |bytes|
    ensures r.Some? ==> r.value.1 == p + 20 + Offset(counts, 16)
    ensures r.Some? ==> |r.value.0| == 16 && forall l :: 0 <= l < 16 ==> RowRead(bytes, p, counts, l, r.value.0[l])
  {
    var table: Table := [];
    var position := p + 20;
    for l := 0 to 16
      invariant position == p + 20 + Offset(counts, l) && position < |bytes|
      invariant |table| == l
      invariant forall j :: 0 <= j < l ==> RowRead(bytes, p, counts, j, table[j])
    {
      var codes := rows[l];
      assert codes == Run(Start(counts, l), counts[l]);
      var row, ok := ReadSymbols(bytes, position, codes);
      if !ok {
        OffsetGrows(counts, l + 1, 16);
        return None;
      }
      SymbolsAt(bytes, position + 1, Start(counts, l), codes, row);
      RowsGrow(bytes, p, counts, table, row);
      table := table + [row];
      position := position + counts[l];
    }
    r := Some((table, position));
  }

  /**
   * The DHT branch: the class from the high nibble of the byte after the
   * length, sixteen counts, the canonical codes, then the symbols length by
   * length. The counts are read before the codes are built; either step
   * failing makes the branch fail, as an exception does in the program.
   */
  method ReadDhtAt(bytes: seq<bv8>, p: nat) returns (r: Option<(bool, Table, nat)>)
    ensures r == ReadDht(bytes, p)
  {
    if p + 20 >= |bytes| {
      return None;
    }
    var isDc := High(bytes[p + 4]) == 0;
    var counts := ReadCounts(bytes, p);
    var rows := BuildCodes(counts);
    if rows.None? {
      return None;
    }
    var read := ReadTable(bytes, p, counts, rows.value);
    if read.None? {
      return None;
    }
    TableRead(bytes, p, counts, read.value.0, bytes[p + 21..p + 21 + Offset(counts, 16)]);
    r := Some((isDc, read.value.0, read.value.1));
  }

  /** One round of the constructor's loop before the EOI/SOS test: the SOF branch, then the DHT branch. */
  method SegmentsAt(bytes: seq<bv8>, p: nat, compCount: array<int>, dc: seq<Table>, ac: seq<Table>, ghost h: Header)
    returns (ok: bool, next: nat, dc': seq<Table>, ac': seq<Table>)
    requires compCount.Length == 3 && h == Header(compCount[..], dc, ac)
    modifies compCount
    ensures ok <==> Segments(bytes, p, h).Some?
    ensures ok ==> Segments(bytes, p, h).value == (next, Header(compCount[..], dc', ac'))
  {
    next, dc', ac' := p, dc, ac;
    var sof := MarkerAt(bytes, p, SofCodes);
    if sof.None? {
      return false, next, dc', ac';
    }
    if sof.value {
      ok, next := ReadSofAt(bytes, p, compCount);
      if !ok {
        return;
      }
    }
    var dht := MarkerAt(bytes, next, DhtCodes);
    if dht.None? {
      return false, next, dc', ac';
    }
    if dht.value {
      var table := ReadDhtAt(bytes, next);
      if table.None? {
        return false, next, dc', ac';
      }
      var (isDc, rows, after) := table.value;
      if isDc {
        dc' := dc + [rows];
      } else {
        ac' := ac + [rows];
      }
      next := after;
    }
    ok := true;
  }

  // ---------------------------------------------------------------------------
  // jpegProcessing before the scan

  /** The search for FF DA, one byte at a time, giving up one byte before the end. */
  method FindSosAt(bytes: seq<bv8>) returns (r: Option<Option<nat>>)
    ensures r == FindSos(bytes, 0)
  {
    var p := 0;
    while true
      invariant FindSos(bytes, p) == FindSos(bytes, 0)
      decreases |bytes| - p
    {
      var found := MarkerAt(bytes, p, {0xDA});
      if found.None? {
        return None;
      }
      if found.value {
        return Some(Some(p));
      }
      if p + 1 >= |bytes| - 1 {
        return Some(None);
      }
      p := p + 1;
    }
  }

  /** The SOS header: length, component count, one selector byte per component. */
  method ReadSosAt(bytes: seq<bv8>, q: nat) returns (r: Option<ScanHeader>)
    ensures r == ReadSos(bytes, q)
  {
    if q + 4 >= |bytes| {
      return None;
    }
    var length := (bytes[q + 2] as nat) * 256 + bytes[q + 3] as nat;
    var sel := ReadSelectorsAt(bytes, q + 6, bytes[q + 4] as nat);
    if sel.None? {
      return None;
    }
    r := Some(ScanHeader(sel.value, q + 1 + length + 1));
  }

  /** The selector bytes of the SOS header, one every two bytes from at, proved against ReadSelectors. */
  method ReadSelectorsAt(bytes: seq<bv8>, at: nat, count: nat) returns (r: Option<Selectors>)
    ensures r == ReadSelectors(bytes, at, count)
  {
    var dc: seq<nat>, ac: seq<nat> := [], [];
    var position := at;
    for c := 0 to count
      invariant position == at + 2 * c
      invariant |dc| == c && |ac| == c
      invariant forall j :: 0 <= j < c ==> at + 2 * j < |bytes| && dc[j] == High(bytes[at + 2 * j]) && ac[j] == Low(bytes[at + 2 * j])
    {
      if position >= |bytes| {
        assert at + 2 * (count - 1) >= |bytes|;
        return None;
      }
      dc := dc + [High(bytes[position])];
      ac := ac + [Low(bytes[position])];
      position := position + 2;
    }
    if count > 0 {
      assert at + 2 * (count - 1) < |bytes|;
    }
    ghost var spec := ReadSelectors(bytes, at, count);
    assert dc == spec.value.dc && ac == spec.value.ac;
    r := Some(Selectors(dc, ac));
  }

  /** The Encode mode copies the file up to the start of the scan data. */
  method CopyPrefix(bytes: seq<bv8>, start: nat) returns (output: seq<bv8>)
    requires start <= |bytes|
    ensures output == bytes[..start]
  {
    output := [];
    for i := 0 to start
      invariant output == bytes[..i]
    {
      output := output + [bytes[i]];
    }
  }

  // ---------------------------------------------------------------------------
  // The scan loop

  /** The refill loop: data bytes (FF 00 read as FF) are appended until 32 digits wait or FF D9 comes. */
  method Refill(bytes: seq<bv8>, pos: nat, stream: Bits) returns (r: Option<(nat, Bits)>)
    ensures r == Fill(bytes, pos, stream)
  {
    var position: nat, s := pos, stream;
    while |s| < 32
      invariant Fill(bytes, position, s) == Fill(bytes, pos, stream)
      decreases 32 - |s|
    {
      var eoi := AtEoi(bytes, position);
      if eoi.None? {
        return None;
      }
      if eoi.value {
        break;
      }
      if bytes[position] == 0xFF && bytes[position + 1] == 0x00 {
        s := s + ByteBits(0xFF);
        position := position + 2;
      } else {
        s := s + ByteBits(bytes[position]);
        position := position + 1;
      }
    }
    r := Some((position, s));
  }

  /** The search of a table row for the code read so far. */
  method Lookup(row: seq<HuffTree>, v: nat) returns (r: Option<HuffTree>)
    ensures r == FirstMatch(row, v)
  {
    for i := 0 to |row|
      invariant FirstMatch(row[i..], v) == FirstMatch(row, v)
    {
      assert row[i..][1..] == row[i + 1..];
      if row[i].code == v {
        return Some(row[i]);
      }
    }
    assert row[|row|..] == [];
    r := None;
  }

  /** WriteCode: the next data byte, or zeros padding a non-empty chunk to k digits once the data are used up. */
  method WriteCodeAt(dataIndex: nat, chunk: Bits, data: seq<bv8>, k: nat) returns (index: nat, written: Bits)
    requires dataIndex <= |data|
    ensures (index, written) == WriteCode(dataIndex, chunk, data, k)
  {
    index, written := dataIndex, chunk;
    if |written| < k {
      if index != |data| {
        written := written + ByteBits(data[index]);
        index := index + 1;
      } else {
        written := PadChunk(chunk, k);
      }
    }
  }

  /** The padding of WriteCode once the data are used up: zeros up to k digits, none for an empty chunk. */
  method PadChunk(chunk: Bits, k: nat) returns (written: Bits)
    requires |chunk| < k
    ensures |chunk| > 0 ==> written == chunk + Zeros(k - |chunk|)
    ensures |chunk| == 0 ==> written == []
  {
    written := chunk;
    while |written| % k != 0 && |written| < k
      invariant |chunk| <= |written| <= k
      invariant written == chunk + Zeros(|written| - |chunk|)
      invariant |chunk| == 0 ==> written == chunk
      decreases k - |written|
    {
      ZerosSnoc(|written| - |chunk|);
      written := written + [false];
    }
    if |written| > 0 && |written| < k {
      written := written + Zeros(k - |written|);
      assert written == chunk + Zeros(k - |chunk|);
    }
  }

  /** The switch on the mode for an AC symbol with a non-zero value. */
  method EmbedAt(s: Scan, amp: nat, mode: Mode, k: nat, data: seq<bv8>) returns (r: Option<Scan>)
    requires amp <= |s.stream| && s.dataIndex <= |data|
    ensures r == Embed(s, amp, mode, k, data)
  {
    match mode {
      case Info =>
        if amp > k {
          r := Some(s.(info := s.info + k));
        } else {
          r := Some(s.(info := s.info + amp));
        }
      case Encode =>
        if !Exhausted(s, data) {
          var index, chunk := WriteCodeAt(s.dataIndex, s.dataChunk, data, k);
          if amp > k {
            if k > |chunk| {
              return None;
            }
            r := Some(s.(out := s.out + s.stream[..amp - k] + chunk[..k], hidden := s.hidden + chunk[..k],
                         dataIndex := index, dataChunk := chunk[k..], info := s.info + k));
          } else {
            if amp > |chunk| {
              return None;
            }
            r := Some(s.(out := s.out + chunk[..amp], hidden := s.hidden + chunk[..amp],
                         dataIndex := index, dataChunk := chunk[amp..], info := s.info + amp));
          }
        } else {
          r := Some(s.(out := s.out + s.stream[..amp]));
        }
      case Decode =>
        if amp > k {
          r := Some(s.(hidden := s.hidden + s.stream[amp - k..amp], info := s.info + k));
        } else {
          r := Some(s.(hidden := s.hidden + s.stream[..amp], info := s.info + amp));
        }
    }
  }

  /** A matched code: it and its amplitude leave the stream; an AC symbol other than EOB goes through the mode switch. */
  method ApplyAt(s: Scan, e: HuffTree, len: nat, k: nat, mode: Mode, key: seq<bv8>, data: seq<bv8>) returns (r: Option<Step>)
    requires 0 < len <= |s.stream| && s.dataIndex <= |data|
    ensures r == Apply(s, e, len, k, mode, key, data)
  {
    var t := Consume(s, len, mode);
    var amp := Amplitude(e);
    if k == 0 {
      if e.val == 0 {
        return Some(Continue(t, 1));
      }
      if amp > |t.stream| {
        return None;
      }
      return Some(Continue(Consume(t, amp, mode), k + ZeroRun(e) + 1));
    }
    if e.val == 0 {
      return Some(Eob(t));
    }
    var entry := 0;
    if |key| > 0 {
      entry := key[t.stegPos % |key|] as nat;
    } else if ReadsKey(t, mode, data) {
      return None;
    }
    if amp > |t.stream| {
      return None;
    }
    var embedded := EmbedAt(t, amp, mode, entry, data);
    r := Embedded(embedded, t.stream[amp..], k + ZeroRun(e) + 1);
  }

  /** One pass of the coefficient loop: refill, read one more digit, look the code up. */
  method OnePassAt(bytes: seq<bv8>, s: Scan, dc: Table, ac: Table, mode: Mode, key: seq<bv8>, data: seq<bv8>, k: nat, idx: nat)
    returns (r: Option<Pass>)
    requires idx <= |s.stream| && s.dataIndex <= |data|
    ensures r == OnePass(bytes, s, dc, ac, mode, key, data, k, idx)
  {
    var filled := Refill(bytes, s.pos, s.stream);
    if filled.None? {
      return None;
    }
    r := CodePassAt(bytes, s.(pos := filled.value.0, stream := filled.value.1), dc, ac, mode, key, data, k, idx);
  }

  /** The pass after the refill, proved against CodePass. */
  method CodePassAt(bytes: seq<bv8>, s: Scan, dc: Table, ac: Table, mode: Mode, key: seq<bv8>, data: seq<bv8>, k: nat, idx: nat)
    returns (r: Option<Pass>)
    requires idx <= |s.stream| && s.dataIndex <= |data|
    ensures r == CodePass(bytes, s, dc, ac, mode, key, data, k, idx)
  {
    if |s.stream| <= idx {
      var eoi := AtEoi(bytes, s.pos);
      if eoi == Some(true) {
        return Some(Done(s));
      }
      return None;
    }
    var table := if k == 0 then dc else ac;
    if idx >= |table| {
      return None;
    }
    var found := Lookup(table[idx], Value(s.stream[..idx + 1]));
    if found.None? {
      return Some(Again(s, k, idx + 1));
    }
    var step := ApplyAt(s, found.value, idx + 1, k, mode, key, data);
    r := Matched(step);
  }

  /** Bytes written stuffed after earlier ones: the stuffed form of all of them, and the digits they stand for. */
  lemma WrittenMore(prefix: seq<bv8>, output: seq<bv8>, done: seq<bv8>, out: Bits, e: seq<bv8>, pending: Bits, output': seq<bv8>)
    requires output == prefix + Stuff(done) && output' == output + Stuff(e)
    requires DataBits(e) + pending == out
    ensures output' == prefix + Stuff(done + e)
    ensures DataBits(done + e) + pending == DataBits(done) + out
  {
    StuffAppend(done, e);
    AppendAssoc(prefix, Stuff(done), Stuff(e));
    DataBitsAppend(done, e);
    Assoc(DataBits(done), DataBits(e), pending);
  }

  /** The Encode mode's writing: the complete bytes of the output digits go out, stuffed. */
  method DrainOutput(s: Scan, output: seq<bv8>, ghost prefix: seq<bv8>, ghost done: seq<bv8>)
    returns (s': Scan, output': seq<bv8>, ghost done': seq<bv8>)
    requires output == prefix + Stuff(done)
    ensures output' == prefix + Stuff(done')
    ensures s' == s.(out := s'.out) && DataBits(done') + s'.out == DataBits(done) + s.out
  {
    var pending;
    output', pending := EmitStuffed(output, s.out);
    ghost var e := Emit(s.out).0;
    WrittenMore(prefix, output, done, s.out, e, pending, output');
    done' := done + e;
    s' := s.(out := pending);
  }

  /** The Decode mode's writing: the complete bytes of the found digits go to secretFiles. */
  method DrainFound(s: Scan, secret: seq<bv8>) returns (s': Scan, secret': seq<bv8>)
    ensures s' == s.(hidden := s'.hidden) && DataBits(secret') + s'.hidden == DataBits(secret) + s.hidden
  {
    var pending;
    secret', pending := EmitBytes(secret, s.hidden);
    EmitBehind(secret, s.hidden);
    s' := s.(hidden := pending);
  }

  /**
   * The writing at the start of each pass: in the Encode mode the complete
   * bytes of the output digits go out stuffed, in the Decode mode the
   * complete bytes of the found digits go to secretFiles. The Encode mode
   * keeps no found digits; they are only counted in `hidden`.
   */
  method Drain(s: Scan, mode: Mode, output: seq<bv8>, secret: seq<bv8>, ghost prefix: seq<bv8>, ghost done: seq<bv8>, ghost hidden: Bits)
    returns (s': Scan, output': seq<bv8>, secret': seq<bv8>, ghost done': seq<bv8>, ghost hidden': Bits)
    requires Flushed(prefix, output, done, secret, hidden, mode)
    ensures Flushed(prefix, output', done', secret', hidden', mode)
    ensures Behind(s', DataBits(done'), hidden') == Behind(s, DataBits(done), hidden)
  {
    s', output', secret', done', hidden' := s, output, secret, done, hidden;
    match mode {
      case Info =>
      case Encode =>
        s', output', done' := DrainOutput(s, output, prefix, done);
        hidden' := hidden + s.hidden;
        Assoc(hidden, s.hidden, []);
        s' := s'.(hidden := []);
      case Decode =>
        s', secret' := DrainFound(s, secret);
        hidden' := DataBits(secret');
    }
  }

  /** The coefficient loop of one block, proved against Coefficients on the state with the written digits put back. */
  method ReadBlock(bytes: seq<bv8>, s: Scan, dc: Table, ac: Table, mode: Mode, key: seq<bv8>, data: seq<bv8>,
                   output: seq<bv8>, secret: seq<bv8>, ghost prefix: seq<bv8>, ghost done: seq<bv8>, ghost hidden: Bits)
    returns (r: Option<Scan>, output': seq<bv8>, secret': seq<bv8>, ghost done': seq<bv8>, ghost hidden': Bits)
    requires s.dataIndex <= |data|
    requires Flushed(prefix, output, done, secret, hidden, mode)
    ensures Flushed(prefix, output', done', secret', hidden', mode)
    ensures r.Some? <==> Coefficients(bytes, Behind(s, DataBits(done), hidden), dc, ac, mode, key, data, 0, 0).Some?
    ensures r.Some? ==> Behind(r.value, DataBits(done'), hidden') == Coefficients(bytes, Behind(s, DataBits(done), hidden), dc, ac, mode, key, data, 0, 0).value
    ensures r.Some? ==> r.value.dataIndex <= |data|
  {
    ghost var spec := Coefficients(bytes, Behind(s, DataBits(done), hidden), dc, ac, mode, key, data, 0, 0);
    var cur, k, idx := s, 0, 0;
    output', secret', done', hidden' := output, secret, done, hidden;
    while k < 64
      invariant idx <= |cur.stream| && cur.dataIndex <= |data|
      invariant Flushed(prefix, output', done', secret', hidden', mode)
      invariant Coefficients(bytes, Behind(cur, DataBits(done'), hidden'), dc, ac, mode, key, data, k, idx) == spec
      decreases if k < 64 then 64 - k else 0, |dc| + |ac| + 1 - idx
    {
      cur, output', secret', done', hidden' := Drain(cur, mode, output', secret', prefix, done', hidden');
      var pass := OnePassAt(bytes, cur, dc, ac, mode, key, data, k, idx);
      PassBehind(bytes, cur, dc, ac, mode, key, data, k, idx, DataBits(done'), hidden');
      match pass {
        case None =>
          return None, output', secret', done', hidden';
        case Some(Done(t)) =>
          return Some(t), output', secret', done', hidden';
        case Some(Again(t, k', idx')) =>
          cur, k, idx := t, k', idx';
      }
    }
    r := Some(cur);
  }

  /** One block of the block loop, proved against Block. */
  method BlockAt(bytes: seq<bv8>, s: Scan, h: Header, sel: Selectors, mode: Mode, key: seq<bv8>, data: seq<bv8>, slot: nat,
                 output: seq<bv8>, secret: seq<bv8>, ghost prefix: seq<bv8>, ghost done: seq<bv8>, ghost hidden: Bits)
    returns (r: Option<(Scan, bool)>, output': seq<bv8>, secret': seq<bv8>, ghost done': seq<bv8>, ghost hidden': Bits)
    requires s.dataIndex <= |data|
    requires Flushed(prefix, output, done, secret, hidden, mode)
    ensures Flushed(prefix, output', done', secret', hidden', mode)
    ensures r.Some? <==> Block(bytes, Behind(s, DataBits(done), hidden), h, sel, mode, key, data, slot).Some?
    ensures r.Some? ==> (Behind(r.value.0, DataBits(done'), hidden'), r.value.1) == Block(bytes, Behind(s, DataBits(done), hidden), h, sel, mode, key, data, slot).value
    ensures r.Some? ==> r.value.0.dataIndex <= |data|
  {
    output', secret', done', hidden' := output, secret, done, hidden;
    if slot >= |sel.dc| || sel.dc[slot] >= |h.dhtDC| || slot >= |sel.ac| || sel.ac[slot] >= |h.dhtAC| {
      return None, output', secret', done', hidden';
    }
    var block;
    block, output', secret', done', hidden' := ReadBlock(bytes, s, h.dhtDC[sel.dc[slot]], h.dhtAC[sel.ac[slot]], mode, key, data,
                                                        output, secret, prefix, done, hidden);
    if block.None? {
      return None, output', secret', done', hidden';
    }
    var end := MarkerAt(bytes, block.value.pos, BlockEndCodes);
    if end.None? {
      return None, output', secret', done', hidden';
    }
    r := Some((block.value, end.value));
  }

  /** The block loop, proved against Blocks. */
  method ScanBlocks(bytes: seq<bv8>, s: Scan, h: Header, sel: Selectors, mode: Mode, key: seq<bv8>, data: seq<bv8>,
                    output: seq<bv8>, ghost prefix: seq<bv8>)
    returns (r: Option<Scan>, output': seq<bv8>, secret': seq<bv8>, ghost done': seq<bv8>, ghost hidden': Bits)
    requires |h.compCount| == 3 && s.dataIndex <= |data|
    requires output == prefix
    ensures Flushed(prefix, output', done', secret', hidden', mode)
    ensures r.Some? <==> Blocks(bytes, Behind(s, [], []), h, sel, mode, key, data, 0, 0).Some?
    ensures r.Some? ==> Behind(r.value, DataBits(done'), hidden') == Blocks(bytes, Behind(s, [], []), h, sel, mode, key, data, 0, 0).value
  {
    ghost var spec := Blocks(bytes, Behind(s, [], []), h, sel, mode, key, data, 0, 0);
    var cur, counter, component := s, 0, 0;
    output', secret', done', hidden' := output, [], [], [];
    assert Stuff([]) == [] && DataBits([]) == [];
    while true
      invariant cur.dataIndex <= |data|
      invariant Flushed(prefix, output', done', secret', hidden', mode)
      invariant Blocks(bytes, Behind(cur, DataBits(done'), hidden'), h, sel, mode, key, data, counter, component) == spec
      decreases Level(bytes, cur.pos, cur.stream)
    {
      counter, component := Advance(h, counter, component).0, Advance(h, counter, component).1;
      var block;
      block, output', secret', done', hidden' := BlockAt(bytes, cur, h, sel, mode, key, data, component % 3,
                                                        output', secret', prefix, done', hidden');
      if block.None? {
        return None, output', secret', done', hidden';
      }
      if block.value.1 {
        return Some(block.value.0), output', secret', done', hidden';
      }
      cur := block.value.0;
    }
  }

  /** The closing branch of each mode, on the real state: it gives what Finish gives on the state with the written digits put back. */
  method CloseAt(bytes: seq<bv8>, start: nat, s: Scan, mode: Mode, output: seq<bv8>, secret: seq<bv8>, ghost done: seq<bv8>, ghost hidden: Bits)
    returns (o: Outcome)
    requires mode == Encode ==> start <= |bytes| && output == bytes[..start] + Stuff(done)
    requires mode == Decode ==> hidden == DataBits(secret)
    ensures o == Finish(bytes, start, Behind(s, DataBits(done), hidden), mode)
  {
    ghost var t := Behind(s, DataBits(done), hidden);
    match mode {
      case Info =>
        o := Outcome(s.info / 8, [], None);
      case Encode =>
        FinishedEncode(bytes, start, t, s.out, output, done);
        var final, pending := EmitStuffed(output, s.out + s.stream);
        o := Outcome(s.info, [], Some(final + [0xFF, 0xD9]));
      case Decode =>
        FinishedDecode(bytes, start, t, s.hidden, secret);
        var found, pending := EmitBytes(secret, s.hidden);
        o := Outcome(s.info, found, None);
    }
  }

  /** The marker walk of the constructor, with the SOF counts read into compCount; proved against Walk. */
  method WalkAt(bytes: seq<bv8>, compCount: array<int>) returns (ok: bool, dc: seq<Table>, ac: seq<Table>)
    requires compCount.Length == 3 && compCount[..] == [0, 0, 0]
    modifies compCount
    ensures ok <==> Walk(bytes, 0, Empty).Some?
    ensures ok ==> Header(compCount[..], dc, ac) == Walk(bytes, 0, Empty).value.0
  {
    dc, ac := [], [];
    var position := 0;
    while true
      invariant compCount.Length == 3
      invariant Walk(bytes, position, Header(compCount[..], dc, ac)) == Walk(bytes, 0, Empty)
      decreases |bytes| - position
    {
      if position >= |bytes| {
        return false, dc, ac;
      }
      ghost var p, h := position, Header(compCount[..], dc, ac);
      ok, position, dc, ac := SegmentsAt(bytes, position, compCount, dc, ac, h);
      if !ok {
        return false, dc, ac;
      }
      var stop := MarkerAt(bytes, position, StopCodes);
      WalkOn(bytes, p, h, position, Header(compCount[..], dc, ac));
      if stop.None? {
        return false, dc, ac;
      }
      if stop.value {
        return true, dc, ac;
      }
      position := position + 1;
    }
  }

  /** One pass of the walk, on plain values. */
  lemma WalkOn(bytes: seq<bv8>, p: nat, h: Header, p2: nat, h2: Header)
    requires p < |bytes| && Segments(bytes, p, h) == Some((p2, h2))
    ensures MarkerAt(bytes, p2, StopCodes).None? ==> Walk(bytes, p, h).None?
    ensures MarkerAt(bytes, p2, StopCodes) == Some(true) ==> Walk(bytes, p, h) == Some((h2, p2))
    ensures MarkerAt(bytes, p2, StopCodes) == Some(false) ==> Walk(bytes, p, h) == Walk(bytes, p2 + 1, h2)
  {
  }

  /** jpegProcessing on the bytes of the file and the header the constructor read. */
  method ProcessAt(bytes: seq<bv8>, h: Header, mode: Mode, key: seq<bv8>, data: seq<bv8>) returns (r: Option<Outcome>)
    requires |h.compCount| == 3
    ensures r == Process(bytes, h, mode, key, data)
  {
    var sos := FindSosAt(bytes);
    if sos.None? {
      return None;
    }
    if sos.value.None? {
      return Some(Outcome(0, [], None));
    }
    var header := ReadSosAt(bytes, sos.value.value);
    if header.None? {
      return None;
    }
    var start := header.value.scanStart;
    var output: seq<bv8> := [];
    if mode == Encode {
      if start > |bytes| {
        return None;
      }
      output := CopyPrefix(bytes, start);
    }
    assert Behind(Initial(start), [], []) == Initial(start);
    var blocks, secret;
    ghost var done, hidden;
    blocks, output, secret, done, hidden := ScanBlocks(bytes, Initial(start), h, header.value.selectors, mode, key, data, output, output);
    if blocks.None? {
      return None;
    }
    var outcome := CloseAt(bytes, start, blocks.value, mode, output, secret, done, hidden);
    r := Some(outcome);
  }

  // ---------------------------------------------------------------------------
  // The class

  class Jpeg {
    /** Bits or bytes, as the last run of jpegProcessing left it. */
    var info: nat
    /** The bytes the last Decode run found. */
    var secretFiles: seq<bv8>
    var compCount: array<int>
    var dhtDC: seq<Table>
    var dhtAC: seq<Table>
    var arrayJpeg: seq<bv8>

    ghost predicate Valid()
      reads this
    {
      compCount.Length == 3
    }

    /** What the constructor read: the sampling products and the tables of both classes. */
    function Parsed(): (h: Header)
      reads this, compCount
      requires Valid()
      ensures |h.compCount| == 3
    {
      Header(compCount[..], dhtDC, dhtAC)
    }

    constructor Init(bytes: seq<bv8>, counts: array<int>, dc: seq<Table>, ac: seq<Table>)
      requires counts.Length == 3
      ensures Valid()
      ensures arrayJpeg == bytes && compCount == counts && dhtDC == dc && dhtAC == ac
      ensures info == 0 && secretFiles == []
    {
      info, secretFiles := 0, [];
      compCount, dhtDC, dhtAC, arrayJpeg := counts, dc, ac, bytes;
    }

    /**
     * The constructor JPEG(filePath, false) on the bytes of the file: the
     * marker walk until EOI or SOS; null where the walk throws.
     */
    static method Open(bytes: seq<bv8>) returns (jpeg: Jpeg?)
      ensures jpeg == null <==> Walk(bytes, 0, Empty).None?
      ensures jpeg != null ==> fresh(jpeg) && fresh(jpeg.compCount) && jpeg.Valid() && jpeg.arrayJpeg == bytes
      ensures jpeg != null ==> jpeg.Parsed() == Walk(bytes, 0, Empty).value.0
      ensures jpeg != null ==> jpeg.info == 0 && jpeg.secretFiles == []
    {
      var compCount := new int[3](_ => 0);
      assert compCount[..] == [0, 0, 0];
      var ok, dc, ac := WalkAt(bytes, compCount);
      if !ok {
        return null;
      }
      jpeg := new Jpeg.Init(bytes, compCount, dc, ac);
    }

    /**
     * jpegProcessing: info and secretFiles as the run leaves them, and the
     * file the Encode mode writes; ok is false where the program throws.
     */
    method Processing(key: seq<bv8>, mode: Mode, data: seq<bv8>) returns (ok: bool, written: Option<seq<bv8>>)
      requires Valid()
      modifies this`info, this`secretFiles
      ensures ok <==> Process(arrayJpeg, Parsed(), mode, key, data).Some?
      ensures ok ==> info == Process(arrayJpeg, Parsed(), mode, key, data).value.info
      ensures ok ==> secretFiles == Process(arrayJpeg, Parsed(), mode, key, data).value.secretFiles
      ensures ok ==> written == Process(arrayJpeg, Parsed(), mode, key, data).value.written
    {
      info, secretFiles := 0, [];
      var r := ProcessAt(arrayJpeg, Parsed(), mode, key, data);
      if r.None? {
        return false, None;
      }
      info, secretFiles, written := r.value.info, r.value.secretFiles, r.value.written;
      ok := true;
    }

    /** GetInfo: the Info mode; info becomes the capacity in bytes. */
    method GetInfo(key: seq<bv8>) returns (ok: bool)
      requires Valid()
      modifies this`info, this`secretFiles
      ensures ok <==> Process(arrayJpeg, Parsed(), Info, key, []).Some?
      ensures ok ==> info == Process(arrayJpeg, Parsed(), Info, key, []).value.info
    {
      var ignored;
      ok, ignored := Processing(key, Info, []);
    }

    /** jpegEncode: the Encode mode; the bytes of the new file, which the program writes to outputPath. */
    method JpegEncode(data: seq<bv8>, key: seq<bv8>) returns (ok: bool, written: seq<bv8>)
      requires Valid()
      modifies this`info, this`secretFiles
      ensures ok <==> Process(arrayJpeg, Parsed(), Encode, key, data).Some? && Process(arrayJpeg, Parsed(), Encode, key, data).value.written.Some?
      ensures ok ==> written == Process(arrayJpeg, Parsed(), Encode, key, data).value.written.value
    {
      var result;
      ok, result := Processing(key, Encode, data);
      ok := ok && result.Some?;
      written := if result.Some? then result.value else [];
    }

    /** jpegDecode: the Decode mode; secretFiles becomes the bytes found. */
    method JpegDecode(key: seq<bv8>) returns (ok: bool)
      requires Valid()
      modifies this`info, this`secretFiles
      ensures ok <==> Process(arrayJpeg, Parsed(), Decode, key, []).Some?
      ensures ok ==> secretFiles == Process(arrayJpeg, Parsed(), Decode, key, []).value.secretFiles
    {
      var ignored;
      ok, ignored := Processing(key, Decode, []);
    }
  }

  /** The last bytes written stuffed after the earlier ones, then FF D9. */
  lemma WrittenLast(head: seq<bv8>, output: seq<bv8>, done: seq<bv8>, e: seq<bv8>)
    requires output == head + Stuff(done)
    ensures head + Stuff(done + e) + [0xFF, 0xD9] == output + Stuff(e) + [0xFF, 0xD9]
  {
    StuffAppend(done, e);
    AppendAssoc(head, Stuff(done), Stuff(e));
  }

  /** The Encode mode's closing branch gives the file Finish gives on the state with the written digits put back. */
  lemma FinishedEncode(bytes: seq<bv8>, start: nat, t: Scan, out: Bits, output: seq<bv8>, done: seq<bv8>)
    requires start <= |bytes| && output == bytes[..start] + Stuff(done)
    requires t.out == DataBits(done) + out
    ensures Finish(bytes, start, t, Encode).written == Some(output + Stuff(Emit(out + t.stream).0) + [0xFF, 0xD9])
  {
    var x := out + t.stream;
    assert t.out + t.stream == DataBits(done) + x by {
      Assoc(DataBits(done), out, t.stream);
    }
    assert Emit(t.out + t.stream).0 == done + Emit(x).0 by {
      EmitAfter(done, x);
    }
    WrittenLast(bytes[..start], output, done, Emit(x).0);
  }

  /** The Decode mode's closing branch gives the bytes Finish gives. */
  lemma FinishedDecode(bytes: seq<bv8>, start: nat, t: Scan, hidden: Bits, secret: seq<bv8>)
    requires t.hidden == DataBits(secret) + hidden
    ensures Finish(bytes, start, t, Decode).secretFiles == secret + Emit(hidden).0
  {
    EmitAfter(secret, hidden);
  }
}
