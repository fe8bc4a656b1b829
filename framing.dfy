/**
 * The multi-file frame the hiding panel embeds, and its parser.
 *
 * Frame layout (all numbers unsigned big-endian):
 *   5 bytes  size of all records (the 10-byte header excluded)
 *   5 bytes  number of files
 *   records, one per file:
 *     1 byte       length of the name part, cut to 255 UTF-16 code units
 *     2n bytes     the name part in UTF-16 little-endian
 *     1 byte       length of the extension (low 8 bits)
 *     m bytes      the extension, one ASCII byte per code unit
 *     5 bytes      length of the body
 *     body bytes
 *
 * Strings are .NET strings: sequences of UTF-16 code units.
 */
module Framing {
  import opened Wrappers
  import opened ByteCodec
  import opened Sequences
  import opened Texts

  const Dot: bv16 := 0x2E
  const ReplacementChar: bv16 := 0xFFFD
  const QuestionMark: bv8 := 0x3F
  const MaxNameUnits: nat := 255
  const HeaderSize: nat := 10

  /** A file as the panel handles it: its name (with extension) and its contents. */
  datatype FileEntry = FileEntry(fileName: Text, body: seq<bv8>)

  // ---------------------------------------------------------------------------
  // File names

  /** Index of the last occurrence of c in s, or -1 (String.LastIndexOf). */
  function LastIndexOf(s: Text, c: bv16): (r: int)
    ensures -1 <= r < |s|
    ensures r >= 0 ==> s[r] == c
    ensures forall j :: r < j < |s| ==> s[j] != c
  {
    if |s| == 0 then -1
    else if s[|s| - 1] == c then |s| - 1
    else LastIndexOf(s[..|s| - 1], c)
  }

  /** The name is split at its last dot when that dot is neither the first nor the last unit. */
  predicate HasExtension(fileName: Text)
  {
    var dot := LastIndexOf(fileName, Dot);
    0 < dot < |fileName| - 1
  }

  /** The part of the name before the extension (the whole name when it has none). */
  function NamePart(fileName: Text): Text
  {
    if HasExtension(fileName) then fileName[..LastIndexOf(fileName, Dot)] else fileName
  }

  /** The extension without its dot (empty when the name has none). */
  function ExtPart(fileName: Text): (ext: Text)
    ensures HasExtension(fileName) ==> |ext| > 0 && Dot !in ext
  {
    if HasExtension(fileName) then fileName[LastIndexOf(fileName, Dot) + 1..] else []
  }

  /** The name an extracted file is written under: the name part, then a dot and the extension when there is one. */
  function JoinName(name: Text, ext: Text): Text
  {
    if |ext| > 0 then name + [Dot] + ext else name
  }

  /** Splitting a file name and joining the parts again gives the name back. */
  lemma SplitJoin(fileName: Text)
    ensures JoinName(NamePart(fileName), ExtPart(fileName)) == fileName
  {
    if HasExtension(fileName) {
      var dot := LastIndexOf(fileName, Dot);
      assert fileName == fileName[..dot] + [Dot] + fileName[dot + 1..];
    }
  }

  // ---------------------------------------------------------------------------
  // Text encodings

  predicate IsSurrogate(u: bv16)
  {
    0xD800 <= u <= 0xDFFF
  }

  predicate IsHighSurrogate(u: bv16)
  {
    0xD800 <= u <= 0xDBFF
  }

  predicate IsLowSurrogate(u: bv16)
  {
    0xDC00 <= u <= 0xDFFF
  }

  /** A high surrogate followed by a low one at the front of the text. */
  predicate PairAtFront(s: Text)
  {
    |s| > 1 && IsHighSurrogate(s[0]) && IsLowSurrogate(s[1])
  }

  /** One code unit as two bytes, low byte first. */
  function UnitBytes(u: bv16): (bytes: seq<bv8>)
  {
    [(u & 0xFF) as bv8, (u >> 8) as bv8]
  }

  /**
   * Encoding.Unicode.GetBytes: each code unit as two bytes, low byte first;
   * a surrogate pair is kept, a surrogate on its own is replaced by U+FFFD.
   */
  function Utf16LE(s: Text): (bytes: seq<bv8>)
    ensures |bytes| == 2 * |s|
  {
    if |s| == 0 then []
    else if PairAtFront(s) then UnitBytes(s[0]) + UnitBytes(s[1]) + Utf16LE(s[2..])
    else if IsSurrogate(s[0]) then UnitBytes(ReplacementChar) + Utf16LE(s[1..])
    else UnitBytes(s[0]) + Utf16LE(s[1..])
  }

  /** Encoding.Unicode.GetString of one two-byte pair: a surrogate on its own decodes to U+FFFD. */
  function DecodeUnit(lo: bv8, hi: bv8): (u: bv16)
    ensures !IsSurrogate(((hi as bv16) << 8) | lo as bv16) ==> u == ((hi as bv16) << 8) | lo as bv16
  {
    var unit := ((hi as bv16) << 8) | lo as bv16;
    if IsSurrogate(unit) then ReplacementChar else unit
  }

  /** The name as the extractor rebuilds it: pair by pair, each pair decoded on its own (an odd last byte is never read). */
  function DecodeName(bytes: seq<bv8>): (s: Text)
    ensures 2 * |s| <= |bytes| < 2 * |s| + 2
  {
    if |bytes| < 2 then []
    else [DecodeUnit(bytes[0], bytes[1])] + DecodeName(bytes[2..])
  }

  /**
   * Encoding.ASCII.GetBytes: each code unit below 0x80 as itself, any other
   * as '?'; a surrogate pair is one character and becomes a single '?'.
   */
  function AsciiBytes(s: Text): (bytes: seq<bv8>)
    ensures |bytes| <= |s|
  {
    if |s| == 0 then []
    else if PairAtFront(s) then [QuestionMark] + AsciiBytes(s[2..])
    else [if s[0] < 0x80 then s[0] as bv8 else QuestionMark] + AsciiBytes(s[1..])
  }

  /** The extension as the extractor rebuilds it: each byte as the character of that code, `(char)b`. */
  function Widen(bytes: seq<bv8>): (s: Text)
    ensures |s| == |bytes|
  {
    if |bytes| == 0 then [] else [bytes[0] as bv16] + Widen(bytes[1..])
  }

  /** A text that starts with a unit outside the surrogate range encodes that unit, then the rest. */
  lemma Utf16Cons(s: Text)
    requires |s| > 0 && !IsSurrogate(s[0])
    ensures Utf16LE(s) == UnitBytes(s[0]) + Utf16LE(s[1..])
  {
    assert !PairAtFront(s);
  }

  /** A text that starts with an ASCII unit encodes that unit as itself, then the rest. */
  lemma AsciiCons(s: Text)
    requires |s| > 0 && s[0] < 0x80
    ensures AsciiBytes(s) == [s[0] as bv8] + AsciiBytes(s[1..])
  {
    assert !PairAtFront(s);
  }

  /** ASCII text encodes to one byte per unit. */
  lemma {:induction false} AsciiLength(s: Text)
    requires forall i :: 0 <= i < |s| ==> s[i] < 0x80
    ensures |AsciiBytes(s)| == |s|
  {
    if |s| > 0 {
      AsciiCons(s);
      AsciiLength(s[1..]);
    }
  }

  /** A code unit is rebuilt from its two bytes. */
  lemma UnitOfBytes(u: bv16)
    ensures ((((u >> 8) as bv8) as bv16) << 8) | ((u & 0xFF) as bv8) as bv16 == u
  {
  }

  /** Names without surrogates survive UTF-16 encoding and pairwise decoding. */
  lemma {:induction false} DecodeNameOfUtf16(s: Text)
    requires forall i :: 0 <= i < |s| ==> !IsSurrogate(s[i])
    ensures DecodeName(Utf16LE(s)) == s
  {
    if |s| > 0 {
      var lo, hi := (s[0] & 0xFF) as bv8, (s[0] >> 8) as bv8;
      var tail := Utf16LE(s[1..]);
      Utf16Cons(s);
      assert Utf16LE(s) == [lo, hi] + tail;
      assert DecodeUnit(lo, hi) == s[0] by {
        UnitOfBytes(s[0]);
      }
      assert DecodeName(tail) == s[1..] by {
        DecodeNameOfUtf16(s[1..]);
      }
      assert DecodeName([lo, hi] + tail) == [DecodeUnit(lo, hi)] + DecodeName(tail) by {
        assert ([lo, hi] + tail)[2..] == tail;
      }
      assert s == [s[0]] + s[1..];
    }
  }

  /** ASCII extensions survive ASCII encoding and widening. */
  lemma {:induction false} WidenOfAscii(s: Text)
    requires forall i :: 0 <= i < |s| ==> s[i] < 0x80
    ensures Widen(AsciiBytes(s)) == s
  {
    if |s| > 0 {
      AsciiCons(s);
      var bytes := AsciiBytes(s);
      assert bytes[1..] == AsciiBytes(s[1..]);
      WidenOfAscii(s[1..]);
    }
  }

  // ---------------------------------------------------------------------------
  // The frame

  /** The name part as it is stored: cut to its first 255 code units. */
  function StoredName(fileName: Text): (name: Text)
    ensures |name| <= MaxNameUnits
  {
    var name := NamePart(fileName);
    if |name| > MaxNameUnits then name[..MaxNameUnits] else name
  }

  /** The fields of a record: name length, name, extension length, extension, body length, body. */
  function RecordFields(name: Text, ext: Text, body: seq<bv8>): (bytes: seq<bv8>)
    requires |name| <= MaxNameUnits
    ensures |bytes| == 7 + 2 * |name| + |AsciiBytes(ext)| + |body|
  {
    [ByteOf(|name|)] + Utf16LE(name) + [ByteOf(|ext| % 256)] + AsciiBytes(ext) + BigEndian(|body|, 5) + body
  }

  /** The record of one file. */
  function Record(file: FileEntry): seq<bv8>
  {
    RecordFields(StoredName(file.fileName), ExtPart(file.fileName), file.body)
  }

  /** The records of the files, in order. */
  function Records(files: seq<FileEntry>): seq<bv8>
  {
    ConcatMap(Record, files)
  }

  /** The frame: the size of the records, the file count, then the records. */
  function Frame(files: seq<FileEntry>): (frame: seq<bv8>)
    ensures |frame| == HeaderSize + |Records(files)|
  {
    BigEndian(|Records(files)|, 5) + BigEndian(|files|, 5) + Records(files)
  }

  /**
   * Builds the frame as the hiding step does: the records are appended one by
   * one, then the header is put in front. No frame is built without files.
   */
  method BuildFrame(files: seq<FileEntry>) returns (frame: Option<seq<bv8>>)
    ensures |files| == 0 <==> frame.None?
    ensures frame.Some? ==> frame.value == Frame(files)
  {
    if |files| == 0 {
      return None;
    }
    var allFilesCombinedPayload: seq<bv8> := [];
    for i := 0 to |files|
      invariant allFilesCombinedPayload == Records(files[..i])
    {
      ghost var before := allFilesCombinedPayload;
      var file := files[i];
      var namePart := NamePart(file.fileName);
      var extPart := ExtPart(file.fileName);
      if |namePart| > MaxNameUnits {
        namePart := namePart[..MaxNameUnits];
      }
      allFilesCombinedPayload := allFilesCombinedPayload + [ByteOf(|namePart|)];
      allFilesCombinedPayload := allFilesCombinedPayload + Utf16LE(namePart);
      allFilesCombinedPayload := allFilesCombinedPayload + [ByteOf(|extPart| % 256)];
      allFilesCombinedPayload := allFilesCombinedPayload + AsciiBytes(extPart);
      allFilesCombinedPayload := allFilesCombinedPayload + BigEndian(|file.body|, 5);
      allFilesCombinedPayload := allFilesCombinedPayload + file.body;
      Append6(before, [ByteOf(|namePart|)], Utf16LE(namePart), [ByteOf(|extPart| % 256)], AsciiBytes(extPart),
        BigEndian(|file.body|, 5), file.body);
      ConcatMapPrefix(Record, files, i);
    }
    assert files[..|files|] == files;
    var dataToEmbed := BigEndian(|allFilesCombinedPayload|, 5);
    dataToEmbed := dataToEmbed + BigEndian(|files|, 5);
    dataToEmbed := dataToEmbed + allFilesCombinedPayload;
    return Some(dataToEmbed);
  }

  // ---------------------------------------------------------------------------
  // The parser

  /** The name field at the start of the data: its length byte, then that many two-byte units; with the bytes it took. */
  function ReadName(data: seq<bv8>): (r: Option<(Text, nat)>)
    ensures r.Some? ==> r.value.1 == 1 + 2 * |r.value.0| <= |data|
  {
    if |data| < 1 then None
    else
      var nameLen := data[0] as nat;
      if 1 + 2 * nameLen > |data| then None
      else Some((DecodeName(data[1..1 + 2 * nameLen]), 1 + 2 * nameLen))
  }

  /** The extension field at the start of the data: its length byte, then that many one-byte characters. */
  function ReadExt(data: seq<bv8>): (r: Option<(Text, nat)>)
    ensures r.Some? ==> r.value.1 == 1 + |r.value.0| <= |data|
  {
    if |data| < 1 then None
    else
      var extLen := data[0] as nat;
      if 1 + extLen > |data| then None
      else Some((Widen(data[1..1 + extLen]), 1 + extLen))
  }

  /** The body at the start of the data: a 5-byte length read as an `int`, then the body; None when negative or too long. */
  function ReadBody(data: seq<bv8>): (r: Option<(seq<bv8>, nat)>)
    ensures r.Some? ==> r.value.1 == 5 + |r.value.0| <= |data|
  {
    if 5 > |data| then None
    else
      var bodyLen := AsInt32(ReadBigEndian(data[..5]));
      if bodyLen < 0 || 5 + bodyLen > |data| then None
      else Some((data[5..5 + bodyLen], 5 + bodyLen))
  }

  /**
   * One record read from the start of the data: the file and the number of
   * bytes it took, or None where the extractor stops (a field runs past the
   * end of the data, or the body length read as an `int` is negative).
   */
  function ParseRecord(data: seq<bv8>): (r: Option<(FileEntry, nat)>)
  {
    match ReadName(data)
    case None => None
    case Some((name, a)) =>
      match ReadExt(data[a..])
      case None => None
      case Some((ext, b)) =>
        match ReadBody(data[a + b..])
        case None => None
        case Some((body, c)) => Some((FileEntry(JoinName(name, ext), body), a + b + c))
  }

  /** A record read takes at least the seven bytes of its fixed fields and no more than the data holds. */
  lemma ParseRecordLength(data: seq<bv8>)
    ensures ParseRecord(data).Some? ==> 7 <= ParseRecord(data).value.1 <= |data|
  {
  }

  /** Outcome of extraction. */
  datatype Extraction =
    | HeaderTooShort                                     // fewer than 10 bytes
    | Extracted(declaredCount: nat, files: seq<FileEntry>)

  /** The file count of the header. */
  function DeclaredCount(payload: seq<bv8>): nat
    requires |payload| >= HeaderSize
  {
    ReadBigEndian(payload[5..HeaderSize])
  }

  /** The records area: the declared size of the records, clamped to what follows the header. */
  function RecordArea(payload: seq<bv8>): (area: seq<bv8>)
    requires |payload| >= HeaderSize
    ensures |area| <= |payload| - HeaderSize
  {
    var declaredSize := ReadBigEndian(payload[..5]);
    var available := |payload| - HeaderSize;
    var lengthToTake := if declaredSize > available then available else declaredSize;
    payload[HeaderSize..HeaderSize + lengthToTake]
  }

  /**
   * The extractor: reads the two header fields, clamps the declared size of
   * the records to what follows the header, and reads as many records as the
   * file count (as an `int`) asks for and the data holds.
   */
  function Unframe(payload: seq<bv8>): (r: Extraction)
  {
    if |payload| < HeaderSize then HeaderTooShort
    else Extracted(DeclaredCount(payload), ParseMany(ParseRecord, RecordArea(payload), AsInt32(DeclaredCount(payload))))
  }

  // ---------------------------------------------------------------------------
  // Round trip

  /** A file the frame carries faithfully: a short name part without surrogates, a short ASCII extension, a body an `int` can measure. */
  predicate Transportable(file: FileEntry)
  {
    var name := NamePart(file.fileName);
    var ext := ExtPart(file.fileName);
    |name| <= MaxNameUnits && (forall i :: 0 <= i < |name| ==> !IsSurrogate(name[i])) &&
    |ext| <= 255 && (forall i :: 0 <= i < |ext| ==> ext[i] < 0x80) &&
    |file.body| < 0x8000_0000
  }

  /** A stored name without surrogates is read back from its field. */
  lemma ReadNameOf(name: Text, rest: seq<bv8>)
    requires |name| <= MaxNameUnits && forall i :: 0 <= i < |name| ==> !IsSurrogate(name[i])
    ensures ReadName([ByteOf(|name|)] + Utf16LE(name) + rest) == Some((name, 1 + 2 * |name|))
  {
    var field := Utf16LE(name);
    var data := [ByteOf(|name|)] + field + rest;
    assert data[0] as nat == |name| && |data| >= 1 + 2 * |name|;
    assert data[1..1 + 2 * |name|] == field by {
      Pieces3([ByteOf(|name|)], field, rest);
    }
    assert DecodeName(field) == name by {
      DecodeNameOfUtf16(name);
    }
    ReadNameFrom(data, name, field);
  }

  /** A name field is read as the name its units decode to. */
  lemma ReadNameFrom(data: seq<bv8>, name: Text, field: seq<bv8>)
    requires |data| >= 1 + 2 * |name| && data[0] as nat == |name|
    requires data[1..1 + 2 * |name|] == field && DecodeName(field) == name
    ensures ReadName(data) == Some((name, 1 + 2 * |name|))
  {
  }

  /** An ASCII extension of at most 255 characters is read back from its field. */
  lemma ReadExtOf(ext: Text, rest: seq<bv8>)
    requires |ext| <= 255 && forall i :: 0 <= i < |ext| ==> ext[i] < 0x80
    ensures ReadExt([ByteOf(|ext| % 256)] + AsciiBytes(ext) + rest) == Some((ext, 1 + |ext|))
  {
    var n := |ext|;
    assert n % 256 == n by {
      ModUnique(n, 256, 0, n);
    }
    AsciiLength(ext);
    var field := [ByteOf(n % 256)] + AsciiBytes(ext) + rest;
    assert field[0] as nat == n;
    assert field[1..1 + n] == AsciiBytes(ext) by {
      Pieces3([ByteOf(n % 256)], AsciiBytes(ext), rest);
    }
    WidenOfAscii(ext);
  }

  /** A body shorter than 2^31 bytes is read back from its field. */
  lemma ReadBodyOf(body: seq<bv8>, rest: seq<bv8>)
    requires |body| < 0x8000_0000
    ensures ReadBody(BigEndian(|body|, 5) + body + rest) == Some((body, 5 + |body|))
  {
    Pieces3(BigEndian(|body|, 5), body, rest);
    BigEndianExact(|body|, 5);
  }

  /** A record is read as the fields its three readers find one after the other. */
  lemma ParseRecordOfFields(data: seq<bv8>, afterName: seq<bv8>, afterExt: seq<bv8>, name: Text, ext: Text, body: seq<bv8>, a: nat, b: nat, c: nat)
    requires ReadName(data) == Some((name, a)) && data[a..] == afterName
    requires ReadExt(afterName) == Some((ext, b)) && afterName[b..] == afterExt
    requires ReadBody(afterExt) == Some((body, c))
    ensures ParseRecord(data) == Some((FileEntry(JoinName(name, ext), body), a + b + c))
  {
    assert ReadExt(data[a..]) == Some((ext, b));
    SliceOfSuffix(data, a, b, b);
    assert ReadBody(data[a + b..]) == Some((body, c));
    ParseRecordWhenRead(data, name, a, ext, b, body, c);
  }

  /** ParseRecord once each of its three readers is known to succeed. */
  lemma ParseRecordWhenRead(data: seq<bv8>, name: Text, a: nat, ext: Text, b: nat, body: seq<bv8>, c: nat)
    requires ReadName(data) == Some((name, a)) && a <= |data|
    requires ReadExt(data[a..]) == Some((ext, b)) && a + b <= |data|
    requires ReadBody(data[a + b..]) == Some((body, c))
    ensures ParseRecord(data) == Some((FileEntry(JoinName(name, ext), body), a + b + c))
  {
    var r := ParseRecord(data);
    assert r.Some?;
    assert r.value.1 == a + b + c;
    assert r.value.0.body == body;
    assert r.value.0.fileName == JoinName(name, ext);
  }

  /** The name field of a record is read back, and what follows it is the rest of the record. */
  lemma NameOfRecord(name: Text, ext: Text, body: seq<bv8>, rest: seq<bv8>)
    requires |name| <= MaxNameUnits && forall i :: 0 <= i < |name| ==> !IsSurrogate(name[i])
    ensures ReadName(RecordFields(name, ext, body) + rest) == Some((name, 1 + 2 * |name|))
    ensures (RecordFields(name, ext, body) + rest)[1 + 2 * |name|..]
         == [ByteOf(|ext| % 256)] + AsciiBytes(ext) + (BigEndian(|body|, 5) + body + rest)
  {
    var afterName := [ByteOf(|ext| % 256)] + AsciiBytes(ext) + (BigEndian(|body|, 5) + body + rest);
    Fields7([ByteOf(|name|)], Utf16LE(name), [ByteOf(|ext| % 256)], AsciiBytes(ext), BigEndian(|body|, 5), body, rest);
    ReadNameOf(name, afterName);
  }

  /** The fields of a name without surrogates, a short ASCII extension and a body an `int` can measure are read back as they were written. */
  lemma ParseFieldsOf(name: Text, ext: Text, body: seq<bv8>, rest: seq<bv8>)
    requires |name| <= MaxNameUnits && forall i :: 0 <= i < |name| ==> !IsSurrogate(name[i])
    requires |ext| <= 255 && forall i :: 0 <= i < |ext| ==> ext[i] < 0x80
    requires |body| < 0x8000_0000
    ensures ParseRecord(RecordFields(name, ext, body) + rest)
         == Some((FileEntry(JoinName(name, ext), body), |RecordFields(name, ext, body)|))
  {
    AsciiLength(ext);
    var afterExt := BigEndian(|body|, 5) + body + rest;
    var extField := [ByteOf(|ext| % 256)] + AsciiBytes(ext);
    NameOfRecord(name, ext, body, rest);
    ReadExtOf(ext, afterExt);
    DropFirst(extField, afterExt);
    ReadBodyOf(body, rest);
    ParseRecordOfFields(RecordFields(name, ext, body) + rest, extField + afterExt, afterExt, name, ext, body,
      1 + 2 * |name|, 1 + |ext|, 5 + |body|);
  }

  /** A transportable file's record is read back as the file, whatever follows it. */
  lemma ParseRecordOf(file: FileEntry, rest: seq<bv8>)
    requires Transportable(file)
    ensures ParseRecord(Record(file) + rest) == Some((file, |Record(file)|))
  {
    ParseFieldsOf(StoredName(file.fileName), ExtPart(file.fileName), file.body, rest);
    SplitJoin(file.fileName);
  }

  /** The header of a frame is read back: the file count, and the records area is exactly the records. */
  lemma FrameHeader(files: seq<FileEntry>)
    requires |Records(files)| < Pow256(5) && |files| < Pow256(5)
    ensures DeclaredCount(Frame(files)) == |files|
    ensures RecordArea(Frame(files)) == Records(files)
  {
    var records := Records(files);
    var frame := Frame(files);
    Pieces3(BigEndian(|records|, 5), BigEndian(|files|, 5), records);
    DropFirst(BigEndian(|records|, 5) + BigEndian(|files|, 5), records);
    BigEndianExact(|records|, 5);
    BigEndianExact(|files|, 5);
    assert frame[HeaderSize..HeaderSize + |records|] == records;
  }

  /** Extracting the frame of transportable files gives back every file, name and body. */
  lemma UnframeFrame(files: seq<FileEntry>)
    requires forall i :: 0 <= i < |files| ==> Transportable(files[i])
    requires |files| < 0x8000_0000 && |Records(files)| < Pow256(5)
    ensures Unframe(Frame(files)) == Extracted(|files|, files)
  {
    FrameHeader(files);
    forall i, rest | 0 <= i < |files|
      ensures ParseRecord(Record(files[i]) + rest) == Option<(FileEntry, nat)>.Some((files[i], |Record(files[i])|))
    {
      ParseRecordOf(files[i], rest);
    }
    ParseManyOf(ParseRecord, Record, files, |files|);
  }
}
