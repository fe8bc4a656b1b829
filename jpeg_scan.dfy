/**
 * The scan loop of jpegProcessing (JPEG.cs): the entropy-coded data after
 * the SOS header is read as a digit string, a Huffman code at a time, block
 * after block, and every AC symbol with a non-zero value offers the low bits
 * of its amplitude to the stego key. The same loop serves three modes:
 * Info counts the bits the file can carry, Encode rewrites the amplitudes
 * with the data and writes a new file, Decode collects the bits back.
 *
 * The functions here follow the loop step for step: one call of OnePass
 * is one pass of the coefficient loop (one digit of a code), one call of
 * Blocks one pass of the block loop. An index past the end of
 * an array or string throws in the program and is None here.
 */
module JpegScan {
  import opened Wrappers
  import opened BitStrings
  import opened Streams
  import opened JpegHuffman
  import opened JpegMarkers
  import opened JpegStuffing

  /** processMode: 0, 1 and 2 in the program. */
  datatype Mode = Info | Encode | Decode

  /**
   * The variables of the scan loop: streamPosition, the digit string
   * huffmanEncodedDataStream, steganographyPosition, info, dataToEmbedIndex
   * and dataToEmbedBitChunk; `out` is every digit the encoder has put into
   * outputJpegBitChunk, `hidden` every data digit the encoder has written
   * into an amplitude or the decoder has added to extractedDataBitChunk.
   */
  datatype Scan = Scan(pos: nat, stream: Bits, stegPos: nat, info: nat,
                       dataIndex: nat, dataChunk: Bits, out: Bits, hidden: Bits)

  /** How much input is left: eight per byte still unread, one per digit not yet consumed. */
  function Level(bytes: seq<bv8>, pos: nat, stream: Bits): nat
  {
    if pos <= |bytes| then 8 * (|bytes| - pos) + |stream| else |stream|
  }

  /**
   * The refill loop: while fewer than 32 digits are waiting, the next data
   * byte is appended (FF 00 read as FF), unless FF D9 stands at the position.
   */
  function Fill(bytes: seq<bv8>, pos: nat, stream: Bits): (r: Option<(nat, Bits)>)
    ensures r.Some? ==> |stream| <= |r.value.1| && r.value.1[..|stream|] == stream
    ensures r.Some? ==> |r.value.1| >= 32 || AtEoi(bytes, r.value.0) == Some(true)
    ensures r.Some? ==> Level(bytes, r.value.0, r.value.1) <= Level(bytes, pos, stream)
    decreases if |stream| < 32 then 32 - |stream| else 0
  {
    if |stream| >= 32 then Some((pos, stream))
    else
      match AtEoi(bytes, pos)
      case None => None
      case Some(true) => Some((pos, stream))
      case Some(false) =>
        match ReadUnit(bytes, pos)
        case None => None
        case Some((b, next)) => Fill(bytes, next, stream + ByteBits(b))
  }

  /** The search of one table row for the code read so far: the first entry whose code is v. */
  function FirstMatch(row: seq<HuffTree>, v: nat): (r: Option<HuffTree>)
    ensures r.Some? ==> r.value in row && r.value.code == v
    ensures r.None? ==> forall e :: e in row ==> e.code != v
  {
    if |row| == 0 then None
    else if row[0].code == v then Some(row[0])
    else FirstMatch(row[1..], v)
  }

  /** The length of the amplitude of a symbol: its low four bits (`Val & 15`). */
  function Amplitude(e: HuffTree): nat
  {
    e.val % 16
  }

  /** The zero run of a symbol: its high bits (`Val >> 4`). */
  function ZeroRun(e: HuffTree): nat
  {
    e.val / 16
  }

  /**
   * WriteCode: when fewer than k data digits are ready, the next data byte is
   * appended; when the data are used up, a non-empty chunk is padded with
   * zeros to k digits and an empty one stays empty.
   */
  function WriteCode(dataIndex: nat, chunk: Bits, data: seq<bv8>, k: nat): (r: (nat, Bits))
    requires dataIndex <= |data|
    ensures dataIndex <= r.0 <= |data| && |chunk| <= |r.1| && r.1[..|chunk|] == chunk
    ensures r.0 == dataIndex + 1 ==> r.1 == chunk + ByteBits(data[dataIndex])
    ensures r.0 == dataIndex ==> r.1[|chunk|..] == Zeros(|r.1| - |chunk|)
    ensures |chunk| < k && dataIndex < |data| ==> r.0 == dataIndex + 1
    ensures |chunk| < k && dataIndex == |data| && |chunk| > 0 ==> |r.1| == k
    ensures |chunk| >= k || (dataIndex == |data| && |chunk| == 0) ==> r == (dataIndex, chunk)
  {
    if |chunk| < k then
      if dataIndex != |data| then (dataIndex + 1, chunk + ByteBits(data[dataIndex]))
      else if |chunk| == 0 then (dataIndex, chunk)
      else (dataIndex, chunk + Zeros(k - |chunk|))
    else (dataIndex, chunk)
  }

  /** Nothing is left to hide: every data byte is taken and no data digit is pending. */
  predicate Exhausted(s: Scan, data: seq<bv8>)
  {
    s.dataIndex == |data| && s.dataChunk == []
  }

  /**
   * Whether the mode switch reads the key entry: every mode does, except the
   * encoder once nothing is left to hide, which only copies the amplitude.
   */
  predicate ReadsKey(s: Scan, mode: Mode, data: seq<bv8>)
  {
    !(mode == Encode && Exhausted(s, data))
  }

  /**
   * The key entry at key position pos. With an empty key the program's `%`
   * throws where the entry is read; where it is not read (see ReadsKey) the
   * value does not matter, and 0 stands for it.
   */
  function KeyEntry(key: seq<bv8>, pos: nat): (r: nat)
    ensures r < 256
    ensures |key| > 0 ==> r == key[pos % |key|] as nat
  {
    if |key| == 0 then 0 else key[pos % |key|] as nat
  }

  /**
   * The switch on the mode for an AC symbol with amplitude length amp and
   * key entry k, before the amplitude is dropped from the stream.
   */
  function Embed(s: Scan, amp: nat, mode: Mode, k: nat, data: seq<bv8>): (r: Option<Scan>)
    requires amp <= |s.stream| && s.dataIndex <= |data|
    ensures r.Some? ==> r.value.pos == s.pos && r.value.stream == s.stream && r.value.stegPos == s.stegPos
    ensures r.Some? ==> r.value.dataIndex <= |data|
    ensures r.Some? && mode == Encode ==> |r.value.out| == |s.out| + amp
    ensures mode != Encode ==> r.Some? && r.value.out == s.out
  {
    match mode
    case Info => Some(s.(info := s.info + if amp > k then k else amp))
    case Encode =>
      if Exhausted(s, data) then Some(s.(out := s.out + s.stream[..amp]))
      else
        var (index, chunk) := WriteCode(s.dataIndex, s.dataChunk, data, k);
        if amp > k then
          if k > |chunk| then None
          else Some(s.(out := s.out + s.stream[..amp - k] + chunk[..k], hidden := s.hidden + chunk[..k],
                       dataIndex := index, dataChunk := chunk[k..], info := s.info + k))
        else if amp > |chunk| then None
        else Some(s.(out := s.out + chunk[..amp], hidden := s.hidden + chunk[..amp],
                     dataIndex := index, dataChunk := chunk[amp..], info := s.info + amp))
    case Decode =>
      if amp > k then Some(s.(hidden := s.hidden + s.stream[amp - k..amp], info := s.info + k))
      else Some(s.(hidden := s.hidden + s.stream[..amp], info := s.info + amp))
  }

  /**
   * The amplitude the encoder writes carries the data digits back: a decoder
   * that meets the written amplitude digits with the same key entry adds to
   * `hidden` exactly the digits the encoder hid there. Once the data and the
   * chunk are used up the encoder copies the amplitude unchanged, and this
   * does not hold.
   */
  lemma EmbedReadBack(s: Scan, amp: nat, k: nat, data: seq<bv8>, t: Scan, d: Scan, data': seq<bv8>)
    requires amp <= |s.stream| && s.dataIndex <= |data|
    requires !Exhausted(s, data)
    requires Embed(s, amp, Encode, k, data) == Some(t)
    requires amp <= |d.stream| && d.stream[..amp] == t.out[|s.out|..] && d.dataIndex <= |data'|
    ensures |s.hidden| <= |t.hidden| && t.hidden[..|s.hidden|] == s.hidden
    ensures Embed(d, amp, Decode, k, data') == Some(d.(hidden := d.hidden + t.hidden[|s.hidden|..], info := d.info + if amp > k then k else amp))
  {
    var (index, chunk) := WriteCode(s.dataIndex, s.dataChunk, data, k);
    if amp > k {
      assert t.out == s.out + s.stream[..amp - k] + chunk[..k];
      assert t.hidden == s.hidden + chunk[..k];
      assert t.out[|s.out|..] == s.stream[..amp - k] + chunk[..k];
      assert d.stream[amp - k..amp] == chunk[..k];
    } else {
      assert t.out == s.out + chunk[..amp];
      assert t.hidden == s.hidden + chunk[..amp];
      assert t.out[|s.out|..] == chunk[..amp];
    }
  }

  /** What follows a matched code: the next coefficient k, or the end of the block (EOB). */
  datatype Step = Continue(s: Scan, k: nat) | Eob(s: Scan)

  /** A code or an amplitude of n digits leaves the stream; the encoder copies it to its output. */
  function Consume(s: Scan, n: nat, mode: Mode): Scan
    requires n <= |s.stream|
  {
    s.(stream := s.stream[n..], out := if mode == Encode then s.out + s.stream[..n] else s.out)
  }

  /** After the mode switch: the key position moves on, the amplitude leaves the stream, k moves to next. */
  function Embedded(r: Option<Scan>, rest: Bits, next: nat): Option<Step>
  {
    match r
    case None => None
    case Some(s2) => Some(Continue(s2.(stegPos := s2.stegPos + 1, stream := rest), next))
  }

  /**
   * A code of length len matched the symbol e at coefficient k: the code and
   * then the amplitude are consumed (and copied by the encoder); k moves
   * past the zero run; an AC symbol with a non-zero value goes through Embed
   * and moves the key position on; the AC symbol 0 ends the block.
   */
  function Apply(s: Scan, e: HuffTree, len: nat, k: nat, mode: Mode, key: seq<bv8>, data: seq<bv8>): (r: Option<Step>)
    requires 0 < len <= |s.stream| && s.dataIndex <= |data|
    ensures r.Some? ==> r.value.s.pos == s.pos && |r.value.s.stream| + len <= |s.stream|
    ensures r.Some? ==> r.value.s.dataIndex <= |data|
    ensures r.Some? && r.value.Continue? ==> r.value.k > k
  {
    var s1 := Consume(s, len, mode);
    if k == 0 then
      if e.val == 0 then Some(Continue(s1, 1))
      else if Amplitude(e) > |s1.stream| then None
      else Some(Continue(Consume(s1, Amplitude(e), mode), k + ZeroRun(e) + 1))
    else if e.val == 0 then Some(Eob(s1))
    else if (|key| == 0 && ReadsKey(s1, mode, data)) || Amplitude(e) > |s1.stream| then None
    else Embedded(Embed(s1, Amplitude(e), mode, KeyEntry(key, s1.stegPos), data), s1.stream[Amplitude(e)..], k + ZeroRun(e) + 1)
  }

  /**
   * With an empty key, an AC symbol whose amplitude is in the stream is
   * processed exactly when the encoder has nothing left to hide; every other
   * case reads the key and fails as the program's `%` by zero does.
   */
  lemma EmptyKeyApply(s: Scan, e: HuffTree, len: nat, k: nat, mode: Mode, data: seq<bv8>)
    requires 0 < len && len + Amplitude(e) <= |s.stream| && s.dataIndex <= |data|
    requires k > 0 && e.val != 0
    ensures Apply(s, e, len, k, mode, [], data).Some? <==> mode == Encode && Exhausted(s, data)
  {
    var s1 := Consume(s, len, mode);
    assert |s1.stream| == |s.stream| - len;
    if mode == Encode && Exhausted(s, data) {
      assert Embed(s1, Amplitude(e), mode, 0, data).Some?;
    }
  }

  /** Once nothing is left to hide, a step of the encoder does not depend on the key, and nothing is left to hide after it. */
  lemma ExhaustedIgnoresKey(s: Scan, e: HuffTree, len: nat, k: nat, data: seq<bv8>, key: seq<bv8>, key': seq<bv8>)
    requires 0 < len <= |s.stream| && s.dataIndex <= |data| && Exhausted(s, data)
    ensures Apply(s, e, len, k, Encode, key, data) == Apply(s, e, len, k, Encode, key', data)
    ensures Apply(s, e, len, k, Encode, key, data).Some? ==> Exhausted(Apply(s, e, len, k, Encode, key, data).value.s, data)
  {
    var s1 := Consume(s, len, Encode);
    assert Exhausted(s1, data);
    if k > 0 && e.val != 0 && Amplitude(e) <= |s1.stream| {
      assert Embed(s1, Amplitude(e), Encode, KeyEntry(key, s1.stegPos), data) == Embed(s1, Amplitude(e), Encode, KeyEntry(key', s1.stegPos), data);
    }
  }

  /** The outcome of one pass of the coefficient loop: the block ends, or the loop goes on at k with idx digits read. */
  datatype Pass = Done(s: Scan) | Again(s: Scan, k: nat, idx: nat)

  /** After a match: EOB ends the block, any other symbol starts a new code at the next coefficient. */
  function Matched(r: Option<Step>): Option<Pass>
  {
    match r
    case None => None
    case Some(Eob(s2)) => Some(Done(s2))
    case Some(Continue(s2, k2)) => Some(Again(s2, k2, 0))
  }

  /**
   * One pass after the refill: the code digits read so far are looked up in
   * the row of their length; a match is applied, no match asks for one more
   * digit, and a stream that has run dry ends the block only at FF D9.
   */
  function CodePass(bytes: seq<bv8>, s: Scan, dc: Table, ac: Table, mode: Mode, key: seq<bv8>, data: seq<bv8>, k: nat, idx: nat): (r: Option<Pass>)
    requires idx <= |s.stream| && s.dataIndex <= |data|
    ensures r.Some? ==> r.value.s.dataIndex <= |data|
    ensures r.Some? ==> r.value.s.pos == s.pos && Level(bytes, r.value.s.pos, r.value.s.stream) <= Level(bytes, s.pos, s.stream)
    ensures r.Some? && r.value.Done? ==> Level(bytes, r.value.s.pos, r.value.s.stream) < Level(bytes, s.pos, s.stream) || AtEoi(bytes, r.value.s.pos) == Some(true)
    ensures r.Some? && r.value.Again? ==> r.value.idx <= |r.value.s.stream|
    ensures r.Some? && r.value.Again? && r.value.k == k ==> r.value.idx == idx + 1 && idx < |(if k == 0 then dc else ac)|
    ensures r.Some? && r.value.Again? && r.value.k != k ==> r.value.k > k && r.value.idx == 0 && Level(bytes, r.value.s.pos, r.value.s.stream) < Level(bytes, s.pos, s.stream)
  {
    if |s.stream| <= idx then
      if AtEoi(bytes, s.pos) == Some(true) then Some(Done(s)) else None
    else
      var table := if k == 0 then dc else ac;
      if idx >= |table| then None
      else
        match FirstMatch(table[idx], Value(s.stream[..idx + 1]))
        case None => Some(Again(s, k, idx + 1))
        case Some(e) => Matched(Apply(s, e, idx + 1, k, mode, key, data))
  }

  /**
   * One pass of the coefficient loop at coefficient k with the first idx
   * digits of the stream read as the current code: refill, stop at the end
   * marker when the stream is used up, read one more digit, look the code
   * up in the row of its length in the DC table (k = 0) or the AC table.
   */
  function OnePass(bytes: seq<bv8>, s: Scan, dc: Table, ac: Table, mode: Mode, key: seq<bv8>, data: seq<bv8>, k: nat, idx: nat): (r: Option<Pass>)
    requires idx <= |s.stream| && s.dataIndex <= |data|
    ensures r.Some? ==> r.value.s.dataIndex <= |data|
    ensures r.Some? ==> Level(bytes, r.value.s.pos, r.value.s.stream) <= Level(bytes, s.pos, s.stream)
    ensures r.Some? && r.value.Done? ==> Level(bytes, r.value.s.pos, r.value.s.stream) < Level(bytes, s.pos, s.stream) || AtEoi(bytes, r.value.s.pos) == Some(true)
    ensures r.Some? && r.value.Again? ==> r.value.idx <= |r.value.s.stream|
    ensures r.Some? && r.value.Again? && r.value.k == k ==> r.value.idx == idx + 1 && idx < |(if k == 0 then dc else ac)|
    ensures r.Some? && r.value.Again? && r.value.k != k ==> r.value.k > k && r.value.idx == 0 && Level(bytes, r.value.s.pos, r.value.s.stream) < Level(bytes, s.pos, s.stream)
  {
    match Fill(bytes, s.pos, s.stream)
    case None => None
    case Some((pos, stream)) => CodePass(bytes, s.(pos := pos, stream := stream), dc, ac, mode, key, data, k, idx)
  }

  /** The coefficient loop of one block from coefficient k, while k is below 64. */
  function Coefficients(bytes: seq<bv8>, s: Scan, dc: Table, ac: Table, mode: Mode, key: seq<bv8>, data: seq<bv8>, k: nat, idx: nat): (r: Option<Scan>)
    requires idx <= |s.stream| && s.dataIndex <= |data|
    ensures r.Some? ==> r.value.dataIndex <= |data|
    ensures r.Some? ==> Level(bytes, r.value.pos, r.value.stream) <= Level(bytes, s.pos, s.stream)
    ensures r.Some? && k < 64 ==> Level(bytes, r.value.pos, r.value.stream) < Level(bytes, s.pos, s.stream) || AtEoi(bytes, r.value.pos) == Some(true)
    decreases if k < 64 then 64 - k else 0, |dc| + |ac| + 1 - idx
  {
    if k >= 64 then Some(s)
    else
      match OnePass(bytes, s, dc, ac, mode, key, data, k, idx)
      case None => None
      case Some(Done(s1)) => Some(s1)
      case Some(Again(s1, k1, idx1)) => Coefficients(bytes, s1, dc, ac, mode, key, data, k1, idx1)
  }

  const BlockEndCodes: set<bv8> := {0xFE, 0xD9}

  /** The block counter and the component index after one pass of the block loop. */
  function Advance(h: Header, counter: int, component: nat): (r: (int, nat))
    requires |h.compCount| == 3
    ensures counter < h.compCount[component % 3] ==> r == (counter + 1, component)
    ensures counter >= h.compCount[component % 3] ==> r == (1, component + 1)
  {
    if counter < h.compCount[component % 3] then (counter + 1, component) else (1, component + 1)
  }

  /**
   * One block of the component in the given slot: its tables are selected,
   * its coefficients read, and the marker test after it says whether the
   * block loop ends.
   */
  function Block(bytes: seq<bv8>, s: Scan, h: Header, sel: Selectors, mode: Mode, key: seq<bv8>, data: seq<bv8>, slot: nat): (r: Option<(Scan, bool)>)
    requires s.dataIndex <= |data|
    ensures r.Some? ==> r.value.0.dataIndex <= |data|
    ensures r.Some? && !r.value.1 ==> Level(bytes, r.value.0.pos, r.value.0.stream) < Level(bytes, s.pos, s.stream)
  {
    if slot >= |sel.dc| || sel.dc[slot] >= |h.dhtDC| || slot >= |sel.ac| || sel.ac[slot] >= |h.dhtAC| then None
    else
      match Coefficients(bytes, s, h.dhtDC[sel.dc[slot]], h.dhtAC[sel.ac[slot]], mode, key, data, 0, 0)
      case None => None
      case Some(s1) =>
        match MarkerAt(bytes, s1.pos, BlockEndCodes)
        case None => None
        case Some(ended) => Some((s1, ended))
  }

  /**
   * The block loop from the state s: the block counter and the component
   * index move on, the tables of the component are selected, the block is
   * read, and the loop ends after the first block followed by FF FE or FF D9.
   */
  function Blocks(bytes: seq<bv8>, s: Scan, h: Header, sel: Selectors, mode: Mode, key: seq<bv8>, data: seq<bv8>, counter: int, component: nat): (r: Option<Scan>)
    requires |h.compCount| == 3 && s.dataIndex <= |data|
    ensures r.Some? ==> r.value.dataIndex <= |data|
    decreases Level(bytes, s.pos, s.stream)
  {
    var (counter', component') := Advance(h, counter, component);
    match Block(bytes, s, h, sel, mode, key, data, component' % 3)
    case None => None
    case Some((s1, true)) => Some(s1)
    case Some((s1, false)) => Blocks(bytes, s1, h, sel, mode, key, data, counter', component')
  }

  /** What jpegProcessing leaves behind: the info field, the secretFiles list and the file the encoder writes. */
  datatype Outcome = Outcome(info: nat, secretFiles: seq<bv8>, written: Option<seq<bv8>>)

  /** The first state of the scan loop: at the start of the data, nothing read. */
  function Initial(start: nat): Scan
  {
    Scan(start, [], 0, 0, 0, [], [], [])
  }

  /**
   * The closing branch of each mode: Info turns bits into bytes; Encode
   * adds what is left of the stream, writes the complete bytes stuffed and
   * closes with FF D9; Decode keeps the complete bytes of what it found.
   */
  function Finish(bytes: seq<bv8>, start: nat, s: Scan, mode: Mode): Outcome
    requires mode == Encode ==> start <= |bytes|
  {
    match mode
    case Info => Outcome(s.info / 8, [], None)
    case Encode => Outcome(s.info, [], Some(bytes[..start] + Stuff(Emit(s.out + s.stream).0) + [0xFF, 0xD9]))
    case Decode => Outcome(s.info, Emit(s.hidden).0, None)
  }

  /**
   * jpegProcessing on the bytes of a file whose header the constructor read:
   * find SOS, read its selectors, run the block loop from the data start.
   */
  function Process(bytes: seq<bv8>, h: Header, mode: Mode, key: seq<bv8>, data: seq<bv8>): (r: Option<Outcome>)
    requires |h.compCount| == 3
  {
    match FindSos(bytes, 0)
    case None => None
    case Some(None) => Some(Outcome(0, [], None))
    case Some(Some(q)) =>
      match ReadSos(bytes, q)
      case None => None
      case Some(ScanHeader(sel, start)) =>
        if mode == Encode && start > |bytes| then None
        else
          match Blocks(bytes, Initial(start), h, sel, mode, key, data, 0, 0)
          case None => None
          case Some(s) => Some(Finish(bytes, start, s, mode))
  }

  // ---------------------------------------------------------------------------
  // Nothing to hide: the encoder never reads the key

  lemma CodePassIgnoresKey(bytes: seq<bv8>, s: Scan, dc: Table, ac: Table, data: seq<bv8>, k: nat, idx: nat, key: seq<bv8>, key': seq<bv8>)
    requires idx <= |s.stream| && s.dataIndex <= |data| && Exhausted(s, data)
    ensures CodePass(bytes, s, dc, ac, Encode, key, data, k, idx) == CodePass(bytes, s, dc, ac, Encode, key', data, k, idx)
    ensures CodePass(bytes, s, dc, ac, Encode, key, data, k, idx).Some? ==> Exhausted(CodePass(bytes, s, dc, ac, Encode, key, data, k, idx).value.s, data)
  {
    if idx < |s.stream| {
      var table := if k == 0 then dc else ac;
      if idx < |table| {
        match FirstMatch(table[idx], Value(s.stream[..idx + 1]))
        case None =>
        case Some(e) => ExhaustedIgnoresKey(s, e, idx + 1, k, data, key, key');
      }
    }
  }

  lemma OnePassIgnoresKey(bytes: seq<bv8>, s: Scan, dc: Table, ac: Table, data: seq<bv8>, k: nat, idx: nat, key: seq<bv8>, key': seq<bv8>)
    requires idx <= |s.stream| && s.dataIndex <= |data| && Exhausted(s, data)
    ensures OnePass(bytes, s, dc, ac, Encode, key, data, k, idx) == OnePass(bytes, s, dc, ac, Encode, key', data, k, idx)
    ensures OnePass(bytes, s, dc, ac, Encode, key, data, k, idx).Some? ==> Exhausted(OnePass(bytes, s, dc, ac, Encode, key, data, k, idx).value.s, data)
  {
    match Fill(bytes, s.pos, s.stream)
    case None =>
    case Some((pos, stream)) => CodePassIgnoresKey(bytes, s.(pos := pos, stream := stream), dc, ac, data, k, idx, key, key');
  }

  lemma {:induction false} CoefficientsIgnoreKey(bytes: seq<bv8>, s: Scan, dc: Table, ac: Table, data: seq<bv8>, k: nat, idx: nat, key: seq<bv8>, key': seq<bv8>)
    requires idx <= |s.stream| && s.dataIndex <= |data| && Exhausted(s, data)
    ensures Coefficients(bytes, s, dc, ac, Encode, key, data, k, idx) == Coefficients(bytes, s, dc, ac, Encode, key', data, k, idx)
    ensures Coefficients(bytes, s, dc, ac, Encode, key, data, k, idx).Some? ==> Exhausted(Coefficients(bytes, s, dc, ac, Encode, key, data, k, idx).value, data)
    decreases if k < 64 then 64 - k else 0, |dc| + |ac| + 1 - idx
  {
    if k < 64 {
      OnePassIgnoresKey(bytes, s, dc, ac, data, k, idx, key, key');
      match OnePass(bytes, s, dc, ac, Encode, key, data, k, idx)
      case None =>
      case Some(Done(s1)) =>
      case Some(Again(s1, k1, idx1)) => CoefficientsIgnoreKey(bytes, s1, dc, ac, data, k1, idx1, key, key');
    }
  }

  lemma BlockIgnoresKey(bytes: seq<bv8>, s: Scan, h: Header, sel: Selectors, data: seq<bv8>, slot: nat, key: seq<bv8>, key': seq<bv8>)
    requires s.dataIndex <= |data| && Exhausted(s, data)
    ensures Block(bytes, s, h, sel, Encode, key, data, slot) == Block(bytes, s, h, sel, Encode, key', data, slot)
    ensures Block(bytes, s, h, sel, Encode, key, data, slot).Some? ==> Exhausted(Block(bytes, s, h, sel, Encode, key, data, slot).value.0, data)
  {
    if slot < |sel.dc| && sel.dc[slot] < |h.dhtDC| && slot < |sel.ac| && sel.ac[slot] < |h.dhtAC| {
      CoefficientsIgnoreKey(bytes, s, h.dhtDC[sel.dc[slot]], h.dhtAC[sel.ac[slot]], data, 0, 0, key, key');
    }
  }

  lemma {:induction false} BlocksIgnoreKey(bytes: seq<bv8>, s: Scan, h: Header, sel: Selectors, data: seq<bv8>, counter: int, component: nat, key: seq<bv8>, key': seq<bv8>)
    requires |h.compCount| == 3 && s.dataIndex <= |data| && Exhausted(s, data)
    ensures Blocks(bytes, s, h, sel, Encode, key, data, counter, component) == Blocks(bytes, s, h, sel, Encode, key', data, counter, component)
    decreases Level(bytes, s.pos, s.stream)
  {
    var (counter', component') := Advance(h, counter, component);
    BlockIgnoresKey(bytes, s, h, sel, data, component' % 3, key, key');
    match Block(bytes, s, h, sel, Encode, key, data, component' % 3)
    case None =>
    case Some((s1, true)) =>
    case Some((s1, false)) => BlocksIgnoreKey(bytes, s1, h, sel, data, counter', component', key, key');
  }

  /**
   * With no data to hide the encoder never reads the key: it copies every
   * amplitude and writes the file whatever the key is, an empty one included.
   */
  lemma EncodeNothingIgnoresKey(bytes: seq<bv8>, h: Header, key: seq<bv8>, key': seq<bv8>)
    requires |h.compCount| == 3
    ensures Process(bytes, h, Encode, key, []) == Process(bytes, h, Encode, key', [])
  {
    match FindSos(bytes, 0)
    case None =>
    case Some(None) =>
    case Some(Some(q)) =>
      match ReadSos(bytes, q)
      case None =>
      case Some(ScanHeader(sel, start)) =>
        if start <= |bytes| {
          BlocksIgnoreKey(bytes, Initial(start), h, sel, [], 0, 0, key, key');
        }
  }
}
