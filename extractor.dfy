/**
 * The extraction step of the panel as it is written: a cursor walks the
 * extracted payload field by field. Each method is proved to compute the
 * corresponding reader of the frame parser, so the whole walk computes
 * `Unframe`.
 */
module Extractor {
  import opened Wrappers
  import opened ByteCodec
  import opened Sequences
  import opened Framing
  import opened Texts

  /** Decoding one more two-byte pair appends its code unit. */
  lemma {:induction false} DecodeNameSnoc(bytes: seq<bv8>, lo: bv8, hi: bv8)
    requires 2 * |DecodeName(bytes)| == |bytes|
    ensures DecodeName(bytes + [lo, hi]) == DecodeName(bytes) + [DecodeUnit(lo, hi)]
    decreases |bytes|
  {
    var longer := bytes + [lo, hi];
    if |bytes| >= 2 {
      assert longer[2..] == bytes[2..] + [lo, hi];
      DecodeNameSnoc(bytes[2..], lo, hi);
    } else {
      assert longer[2..] == [];
    }
  }

  /** Widening one more byte appends its character. */
  lemma {:induction false} WidenSnoc(bytes: seq<bv8>, b: bv8)
    ensures Widen(bytes + [b]) == Widen(bytes) + [b as bv16]
    decreases |bytes|
  {
    var longer := bytes + [b];
    if |bytes| > 0 {
      assert longer[1..] == bytes[1..] + [b];
      WidenSnoc(bytes[1..], b);
    } else {
      assert longer[1..] == [];
    }
  }

  /** Decodes `units` two-byte pairs starting at `from`, each pair on its own. */
  method DecodeUnitsAt(data: seq<bv8>, from: nat, units: nat) returns (name: Text)
    requires from + 2 * units <= |data|
    ensures name == DecodeName(data[from..from + 2 * units])
  {
    name := [];
    var position := from;
    for k := 0 to units
      invariant position == from + 2 * k
      invariant name == DecodeName(data[from..position])
    {
      var lo := data[position];
      var hi := data[position + 1];
      DecodeNameSnoc(data[from..position], lo, hi);
      SliceSnoc2(data, from, position);
      position := position + 2;
      name := name + [DecodeUnit(lo, hi)];
    }
  }

  /** Widens `count` bytes starting at `from`, one character per byte. */
  method WidenAt(data: seq<bv8>, from: nat, count: nat) returns (ext: Text)
    requires from + count <= |data|
    ensures ext == Widen(data[from..from + count])
  {
    ext := [];
    var position := from;
    for k := 0 to count
      invariant position == from + k
      invariant ext == Widen(data[from..position])
    {
      var b := data[position];
      WidenSnoc(data[from..position], b);
      SliceSnoc(data, from, position);
      position := position + 1;
      ext := ext + [b as bv16];
    }
  }

  /** Reads a 5-byte big-endian number starting at `from`, byte by byte. */
  method ReadNumberAt(data: seq<bv8>, from: nat) returns (value: nat)
    requires from + 5 <= |data|
    ensures value == ReadBigEndian(data[from..from + 5])
  {
    value := 0;
    for i := from to from + 5
      invariant value == ReadBigEndian(data[from..i])
    {
      SliceSnoc(data, from, i);
      value := value * 256 + data[i] as nat;
    }
  }

  /** Reads the name field at `start`: the length byte, then the name pair by pair. */
  method ReadNameAt(data: seq<bv8>, start: nat) returns (r: Option<(Text, nat)>)
    requires start <= |data|
    ensures r == ReadName(data[start..])
  {
    var position := start;
    if position + 1 > |data| {
      return None;
    }
    var nameLen := data[position] as nat;
    position := position + 1;
    if position + nameLen * 2 > |data| {
      return None;
    }
    var name := DecodeUnitsAt(data, position, nameLen);
    SliceOfSuffix(data, start, 1, 1 + 2 * nameLen);
    return Some((name, 1 + 2 * nameLen));
  }

  /** Reads the extension field at `start`: the length byte, then one character per byte. */
  method ReadExtAt(data: seq<bv8>, start: nat) returns (r: Option<(Text, nat)>)
    requires start <= |data|
    ensures r == ReadExt(data[start..])
  {
    var position := start;
    if position + 1 > |data| {
      return None;
    }
    var extLen := data[position] as nat;
    position := position + 1;
    if position + extLen > |data| {
      return None;
    }
    var ext := WidenAt(data, position, extLen);
    SliceOfSuffix(data, start, 1, 1 + extLen);
    return Some((ext, 1 + extLen));
  }

  /**
   * Reads the body at `start`: the five length bytes, the length cast to
   * `int`, then the body. A negative length makes the range read throw, which
   * stops extraction like a short body does.
   */
  method ReadBodyAt(data: seq<bv8>, start: nat) returns (r: Option<(seq<bv8>, nat)>)
    requires start <= |data|
    ensures r == ReadBody(data[start..])
  {
    var position := start;
    if position + 5 > |data| {
      return None;
    }
    var bodyLen := ReadNumberAt(data, position);
    position := position + 5;
    var length := AsInt32(bodyLen);
    SliceOfSuffix(data, start, 0, 5);
    if position + length > |data| {
      return None;
    }
    if length < 0 {
      return None;
    }
    SliceOfSuffix(data, start, 5, 5 + length);
    return Some((data[position..position + length], 5 + length));
  }

  /**
   * Reads one record at `start`, field after field. The result is stated
   * through `parse`, a ghost name for `ParseRecord` (see ReadRecords).
   */
  method ReadRecordAt(data: seq<bv8>, start: nat, ghost parse: seq<bv8> -> Option<(FileEntry, nat)>) returns (r: Option<(FileEntry, nat)>)
    requires start <= |data|
    requires forall d {:trigger ParseRecord(d)} :: parse(d) == ParseRecord(d)
    ensures r == parse(data[start..])
    ensures r.Some? ==> 7 <= r.value.1 <= |data| - start
  {
    ghost var expected := ParseRecord(data[start..]);
    ParseRecordLength(data[start..]);
    var name := ReadNameAt(data, start);
    if name.None? {
      return None;
    }
    var a := name.value.1;
    SliceOfSuffix(data, start, a, a);
    var ext := ReadExtAt(data, start + a);
    if ext.None? {
      return None;
    }
    var b := ext.value.1;
    SliceOfSuffix(data, start, a + b, a + b);
    var body := ReadBodyAt(data, start + a + b);
    if body.None? {
      return None;
    }
    return Some((FileEntry(JoinName(name.value.0, ext.value.0), body.value.0), a + b + body.value.1));
  }

  /**
   * Reads records one after the other from the start of the data until `count`
   * files are read, the data ends, or a record is incomplete. The record
   * reader is named by the ghost parameter `parse`, which the caller sets to
   * `ParseRecord`: the loop then reasons about the records only through the
   * results ReadRecordAt states, never through the reader's definition.
   */
  method ReadRecords(data: seq<bv8>, count: int, ghost parse: seq<bv8> -> Option<(FileEntry, nat)>) returns (files: seq<FileEntry>)
    requires forall d {:trigger ParseRecord(d)} :: parse(d) == ParseRecord(d)
    ensures files == ParseMany(parse, data, count)
  {
    files := [];
    var currentPosition := 0;
    var f := 0;
    assert data[0..] == data;
    while f < count
      invariant 0 <= currentPosition <= |data|
      invariant files + ParseMany(parse, data[currentPosition..], count - f) == ParseMany(parse, data, count)
      decreases count - f
    {
      if currentPosition >= |data| {
        ParseManyStop(parse, data[currentPosition..], count - f);
        break;
      }
      var record := ReadRecordAt(data, currentPosition, parse);
      if record.None? {
        ParseManyStop(parse, data[currentPosition..], count - f);
        break;
      }
      var (file, used) := record.value;
      ParseManyAdvance(parse, data, currentPosition, count - f, files, file, used);
      files := files + [file];
      currentPosition := currentPosition + used;
      f := f + 1;
    }
    if f >= count {
      ParseManyStop(parse, data[currentPosition..], count - f);
    }
  }

  /**
   * The extraction step: the two header fields are read, the declared size of
   * the records is clamped to what follows the header, and the records are
   * read up to the file count cast to `int`.
   */
  method ExtractFiles(payload: seq<bv8>) returns (r: Extraction)
    ensures r == Unframe(payload)
  {
    if |payload| < HeaderSize {
      return HeaderTooShort;
    }
    var totalPayloadSizeFromHeader := ReadNumberAt(payload, 0);
    var fileCountFromHeader := ReadNumberAt(payload, 5);
    if totalPayloadSizeFromHeader > |payload| - HeaderSize {
      totalPayloadSizeFromHeader := |payload| - HeaderSize;
    }
    var actualFilesData := payload[HeaderSize..HeaderSize + totalPayloadSizeFromHeader];
    assert payload[0..5] == payload[..5];
    assert actualFilesData == RecordArea(payload);
    var files := ReadRecords(actualFilesData, AsInt32(fileCountFromHeader), ParseRecord);
    return Extracted(fileCountFromHeader, files);
  }
}
