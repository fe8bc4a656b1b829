/**
 * The markers of a JPEG file the program reads: the JPEG constructor walks
 * the bytes from the start, taking sampling factors from SOF0/SOF1/SOF2
 * and one Huffman table from each DHT segment, until it meets EOI (FF D9)
 * or SOS (FF DA); jpegProcessing finds the SOS segment again and reads the
 * table selectors of its components. Layouts are those of ITU-T T.81,
 * sections B.2.2 (frame header), B.2.3 (scan header) and B.2.4.2 (DHT).
 *
 * The walk reads fixed offsets without looking at segment lengths, exactly
 * as the program does; an index past the end throws there and is None here.
 */
module JpegMarkers {
  import opened Wrappers
  import opened JpegHuffman

  /** What the constructor leaves in the fields compCount, DHT_DC and DHT_AC. */
  datatype Header = Header(compCount: seq<int>, dhtDC: seq<Table>, dhtAC: seq<Table>)

  /** The fields before the walk: three zero counts and no tables. */
  const Empty := Header([0, 0, 0], [], [])

  /**
   * The test `arrayJpeg[p] == 255 && arrayJpeg[p + 1] == c`: None where it
   * throws, Some(None) when p does not hold FF, else the byte after the FF.
   */
  function AfterFF(bytes: seq<bv8>, p: nat): (r: Option<Option<bv8>>)
    ensures r.Some? <==> p < |bytes| && (bytes[p] == 0xFF ==> p + 1 < |bytes|)
    ensures r.Some? && r.value.Some? ==> bytes[p] == 0xFF && r.value.value == bytes[p + 1]
    ensures r.Some? && r.value.None? ==> bytes[p] != 0xFF
  {
    if p >= |bytes| then None
    else if bytes[p] != 0xFF then Some(None)
    else if p + 1 >= |bytes| then None
    else Some(Some(bytes[p + 1]))
  }

  /** Whether FF followed by one of the given bytes stands at p (None where the test throws). */
  function MarkerAt(bytes: seq<bv8>, p: nat, codes: set<bv8>): (r: Option<bool>)
    ensures r.Some? <==> AfterFF(bytes, p).Some?
    ensures r == Some(true) <==> p + 1 < |bytes| && bytes[p] == 0xFF && bytes[p + 1] in codes
  {
    match AfterFF(bytes, p)
    case None => None
    case Some(None) => Some(false)
    case Some(Some(c)) => Some(c in codes)
  }

  // ---------------------------------------------------------------------------
  // SOF

  /** The high four bits of a byte. */
  function High(b: bv8): (r: nat)
    ensures r < 16 && r == b as nat / 16
  {
    (b >> 4) as nat
  }

  /** The low four bits of a byte. */
  function Low(b: bv8): (r: nat)
    ensures r < 16 && r == b as nat % 16
  {
    (b & 15) as nat
  }

  /** The blocks a component has in an MCU: horizontal times vertical sampling factor. */
  function Sampling(hv: bv8): int
  {
    High(hv) * Low(hv)
  }

  /** The SOF branch: the sampling byte of three components, three bytes apart from p + 11; the walk goes on at p + 18. */
  function ReadSof(bytes: seq<bv8>, p: nat): (r: Option<(seq<int>, nat)>)
    ensures r.Some? <==> p + 17 < |bytes|
    ensures r.Some? ==> |r.value.0| == 3 && r.value.1 == p + 18
  {
    if p + 17 >= |bytes| then None
    else Some(([Sampling(bytes[p + 11]), Sampling(bytes[p + 14]), Sampling(bytes[p + 17])], p + 18))
  }

  // ---------------------------------------------------------------------------
  // DHT

  /** How many symbols the lengths before l have: where the symbols of length l + 1 start. */
  function Offset(counts: seq<nat>, l: nat): nat
    requires l <= |counts|
  {
    if l == 0 then 0 else Offset(counts, l - 1) + counts[l - 1]
  }

  lemma {:induction false} OffsetGrows(counts: seq<nat>, l: nat, m: nat)
    requires l <= m <= |counts|
    ensures Offset(counts, l) <= Offset(counts, m)
    decreases m - l
  {
    if l < m {
      OffsetGrows(counts, l, m - 1);
    }
  }

  /** The symbols of the codes of length l + 1: the counts[l] values from the offset of l on. */
  function RowOf(counts: seq<nat>, vals: seq<bv8>, l: nat): (row: seq<HuffTree>)
    requires l < |counts| && Offset(counts, |counts|) <= |vals|
    ensures |row| == counts[l]
  {
    OffsetGrows(counts, l + 1, |counts|);
    seq(counts[l], i requires 0 <= i < counts[l] => HuffTree(Start(counts, l) + i, vals[Offset(counts, l) + i] as nat))
  }

  /**
   * The table of a DHT segment: row l holds the codes of length l + 1, each
   * with its symbol, the symbols taken in order after the counts.
   */
  function TableOf(counts: seq<nat>, vals: seq<bv8>): (table: Table)
    requires Offset(counts, |counts|) <= |vals|
    ensures |table| == |counts|
  {
    seq(|counts|, l requires 0 <= l < |counts| => RowOf(counts, vals, l))
  }

  /** The counts of a DHT segment: the sixteen bytes after the Tc/Th byte. */
  function CountsAt(bytes: seq<bv8>, p: nat): (counts: seq<nat>)
    requires p + 20 < |bytes|
    ensures |counts| == 16
  {
    seq(16, i requires 0 <= i < 16 => bytes[p + 5 + i] as nat)
  }

  /**
   * The DHT branch at the marker p: the class is the high nibble of the byte
   * at p + 4 (0 is DC), the counts follow, the codes are built from them and
   * the symbols are read after them; the walk goes on from the last symbol.
   */
  function ReadDht(bytes: seq<bv8>, p: nat): (r: Option<(bool, Table, nat)>)
    ensures r.Some? ==> p + 20 <= r.value.2 < |bytes|
  {
    if p + 20 >= |bytes| then None
    else
      var counts := CountsAt(bytes, p);
      if !Fits(counts, 16) then None
      else
        var total := Offset(counts, 16);
        if p + 20 + total >= |bytes| then None
        else Some((High(bytes[p + 4]) == 0, TableOf(counts, bytes[p + 21..p + 21 + total]), p + 20 + total))
  }

  /** A table goes to the DC list when its class is 0 and to the AC list otherwise. */
  function AddTable(h: Header, isDc: bool, table: Table): (h': Header)
    ensures h'.compCount == h.compCount
    ensures isDc ==> h'.dhtDC == h.dhtDC + [table] && h'.dhtAC == h.dhtAC
    ensures !isDc ==> h'.dhtAC == h.dhtAC + [table] && h'.dhtDC == h.dhtDC
  {
    if isDc then h.(dhtDC := h.dhtDC + [table]) else h.(dhtAC := h.dhtAC + [table])
  }

  // ---------------------------------------------------------------------------
  // The walk of the constructor

  const SofCodes: set<bv8> := {0xC0, 0xC1, 0xC2}
  const DhtCodes: set<bv8> := {0xC4}
  const StopCodes: set<bv8> := {0xD9, 0xDA}

  /** The SOF test and branch at p: where the walk stands afterwards and the header. */
  function SofStep(bytes: seq<bv8>, p: nat, h: Header): (r: Option<(nat, Header)>)
    ensures r.Some? ==> r.value.0 >= p
  {
    match MarkerAt(bytes, p, SofCodes)
    case None => None
    case Some(false) => Some((p, h))
    case Some(true) =>
      match ReadSof(bytes, p)
      case None => None
      case Some((counts, next)) => Some((next, h.(compCount := counts)))
  }

  /** The DHT test and branch at p. */
  function DhtStep(bytes: seq<bv8>, p: nat, h: Header): (r: Option<(nat, Header)>)
    ensures r.Some? ==> r.value.0 >= p
  {
    match MarkerAt(bytes, p, DhtCodes)
    case None => None
    case Some(false) => Some((p, h))
    case Some(true) =>
      match ReadDht(bytes, p)
      case None => None
      case Some((isDc, table, next)) => Some((next, AddTable(h, isDc, table)))
  }

  /** The SOF test and then the DHT test at p. */
  function Segments(bytes: seq<bv8>, p: nat, h: Header): (r: Option<(nat, Header)>)
    ensures r.Some? ==> r.value.0 >= p
  {
    match SofStep(bytes, p, h)
    case None => None
    case Some((p1, h1)) => DhtStep(bytes, p1, h1)
  }

  /**
   * The constructor's loop from p: SOF test, DHT test, EOI/SOS test, one
   * byte on. The header and the place of the EOI or SOS marker it stops at.
   */
  function Walk(bytes: seq<bv8>, p: nat, h: Header): (r: Option<(Header, nat)>)
    ensures r.Some? ==> p <= r.value.1 && r.value.1 + 1 < |bytes|
    ensures r.Some? ==> bytes[r.value.1] == 0xFF && bytes[r.value.1 + 1] in StopCodes
    decreases |bytes| - p
  {
    if p >= |bytes| then None
    else
      match Segments(bytes, p, h)
      case None => None
      case Some((p2, h2)) =>
        match MarkerAt(bytes, p2, StopCodes)
        case None => None
        case Some(true) => Some((h2, p2))
        case Some(false) => Walk(bytes, p2 + 1, h2)
  }

  // ---------------------------------------------------------------------------
  // The scan header, as jpegProcessing reads it

  /**
   * The search of jpegProcessing for FF DA from p on: None where a test
   * throws, Some(None) when the search gives up one byte before the end.
   */
  function FindSos(bytes: seq<bv8>, p: nat): (r: Option<Option<nat>>)
    ensures r.Some? && r.value.Some? ==> p <= r.value.value && r.value.value + 1 < |bytes|
    ensures r.Some? && r.value.Some? ==> bytes[r.value.value] == 0xFF && bytes[r.value.value + 1] == 0xDA
    decreases |bytes| - p
  {
    match MarkerAt(bytes, p, {0xDA})
    case None => None
    case Some(true) => Some(Some(p))
    case Some(false) => if p + 1 >= |bytes| - 1 then Some(None) else FindSos(bytes, p + 1)
  }

  /** The table selectors of a scan: for each component, the DC table (high nibble) and the AC table (low nibble). */
  datatype Selectors = Selectors(dc: seq<nat>, ac: seq<nat>)

  /** The selector bytes of `count` components, two bytes apart from `at`. */
  function ReadSelectors(bytes: seq<bv8>, at: nat, count: nat): (r: Option<Selectors>)
    ensures r.Some? <==> count == 0 || at + 2 * (count - 1) < |bytes|
    ensures r.Some? ==> |r.value.dc| == count && |r.value.ac| == count
    ensures r.Some? ==> forall c :: 0 <= c < count ==> r.value.dc[c] == High(bytes[at + 2 * c])
    ensures r.Some? ==> forall c :: 0 <= c < count ==> r.value.ac[c] == Low(bytes[at + 2 * c])
  {
    if count == 0 || at + 2 * (count - 1) >= |bytes| then
      if count == 0 then Some(Selectors([], [])) else None
    else
      Some(Selectors(seq(count, c requires 0 <= c < count => High(bytes[at + 2 * c])),
                     seq(count, c requires 0 <= c < count => Low(bytes[at + 2 * c]))))
  }

  /** What the SOS branch reads at the marker q: the selectors, and where the entropy-coded data starts. */
  datatype ScanHeader = ScanHeader(selectors: Selectors, scanStart: nat)

  /**
   * The SOS header at the marker q: the length Ls (two bytes), the component
   * count Ns, a selector byte for each component; the data start at q + Ls + 2.
   */
  function ReadSos(bytes: seq<bv8>, q: nat): (r: Option<ScanHeader>)
    ensures r.Some? ==> q + 4 < |bytes| && r.value.scanStart == q + 2 + (bytes[q + 2] as nat) * 256 + bytes[q + 3] as nat
    ensures r.Some? ==> |r.value.selectors.dc| == bytes[q + 4] as nat
  {
    if q + 4 >= |bytes| then None
    else
      var length := (bytes[q + 2] as nat) * 256 + bytes[q + 3] as nat;
      var count := bytes[q + 4] as nat;
      match ReadSelectors(bytes, q + 6, count)
      case None => None
      case Some(sel) => Some(ScanHeader(sel, q + 1 + length + 1))
  }
}
