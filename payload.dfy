/**
 * The payload wrapper of the hiding panel (`AesHelper`): PKCS#7 padding to
 * 16-byte blocks, its removal, and encryption of the padded payload block by
 * block (ECB) with the AES cipher of the tool, keyed by a master key whose
 * length selects AES-128, AES-192 or AES-256.
 */
module Payload {
  import opened Wrappers
  import opened AesSpec
  import opened ByteCodec

  /** The block size the wrapper pads to. */
  const BlockSize: nat := 16

  /** Number of padding bytes added to a payload of the given length: 1 to 16, a whole block when aligned. */
  function PadLength(length: nat): (padLen: nat)
    ensures 1 <= padLen <= BlockSize
    ensures (length + padLen) % BlockSize == 0
  {
    BlockSize - length % BlockSize
  }

  /** The pad length as a byte. */
  function PadByte(length: nat): (b: bv8)
    ensures b as nat == PadLength(length)
  {
    PadLength(length) as bv8
  }

  /** The payload followed by PadLength copies of the byte PadLength. */
  function Padded(data: seq<bv8>): seq<bv8>
  {
    data + seq(PadLength(|data|), _ => PadByte(|data|))
  }

  /** The last byte names a pad length 1..16, no longer than the data, and the last that many bytes all equal it. */
  predicate ValidPadding(data: seq<bv8>)
  {
    |data| > 0 &&
    var padLen := data[|data| - 1] as nat;
    0 < padLen <= BlockSize && padLen <= |data| &&
    forall i :: |data| - padLen <= i < |data| ==> data[i] == data[|data| - 1]
  }

  /** The data without its padding when the padding is valid, else the data unchanged. */
  function Unpadded(data: seq<bv8>): seq<bv8>
  {
    if ValidPadding(data) then data[..|data| - data[|data| - 1] as nat] else data
  }

  /** Pads into a fresh buffer: the payload is copied, then the padding bytes are filled in. */
  method Pad(data: seq<bv8>) returns (padded: seq<bv8>)
    ensures |padded| % BlockSize == 0 && |data| < |padded| <= |data| + BlockSize
    ensures padded[..|data|] == data
    ensures forall i :: |data| <= i < |padded| ==> padded[i] as nat == |padded| - |data|
    ensures padded == Padded(data)
  {
    var padLen := BlockSize - |data| % BlockSize;
    var padByte := PadByte(|data|);
    var buffer := new bv8[|data| + padLen];
    for i := 0 to |data|
      invariant buffer[..i] == data[..i]
    {
      buffer[i] := data[i];
    }
    for i := |data| to buffer.Length
      invariant buffer[..|data|] == data
      invariant forall j :: |data| <= j < i ==> buffer[j] == padByte
    {
      buffer[i] := padByte;
    }
    padded := buffer[..];
    assert padded == Padded(data);
  }

  /** Removes the padding: the pad bytes are checked from the end and the data is returned unchanged when any differs. */
  method Unpad(data: seq<bv8>) returns (unpadded: seq<bv8>)
    ensures unpadded == Unpadded(data)
    ensures ValidPadding(data) ==> |unpadded| < |data| && unpadded == data[..|unpadded|]
    ensures !ValidPadding(data) ==> unpadded == data
  {
    if |data| == 0 {
      return [];
    }
    var padLength := data[|data| - 1];
    if 0 < padLength as nat <= BlockSize && padLength as nat <= |data| {
      var isValidPadding := true;
      var i := 1;
      while i <= padLength as nat
        invariant 1 <= i <= padLength as nat + 1
        invariant isValidPadding <==> forall j :: |data| - i < j < |data| ==> data[j] == padLength
        invariant !isValidPadding ==> !ValidPadding(data)
      {
        if data[|data| - i] != padLength {
          isValidPadding := false;
          break;
        }
        i := i + 1;
      }
      if isValidPadding {
        return data[..|data| - padLength as nat];
      }
    }
    return data;
  }

  /** Padding is always valid, and removing it gives the payload back. */
  lemma UnpadPad(data: seq<bv8>)
    ensures ValidPadding(Padded(data))
    ensures Unpadded(Padded(data)) == data
  {
    var padded := Padded(data);
    assert padded[|padded| - 1] == PadByte(|data|);
    assert padded[..|data|] == data;
  }

  /** A block-aligned buffer with valid padding is the padding of what unpadding leaves. */
  lemma PadUnpad(data: seq<bv8>)
    requires |data| % BlockSize == 0 && ValidPadding(data)
    ensures Padded(Unpadded(data)) == data
  {
    var padLen := data[|data| - 1] as nat;
    var rest := data[..|data| - padLen];
    var blocks := |data| / BlockSize;
    assert |data| == BlockSize * blocks;
    if padLen < BlockSize {
      ModUnique(|rest|, BlockSize, blocks - 1, BlockSize - padLen);
    } else {
      ModUnique(|rest|, BlockSize, blocks - 1, 0);
    }
    assert PadLength(|rest|) == padLen;
    assert PadByte(|rest|) == data[|data| - 1];
    assert Padded(rest) == data;
  }

  // ---------------------------------------------------------------------------
  // ECB over the block cipher

  /** Each 16-byte block enciphered in turn under the master key. */
  function EcbEncrypt(data: seq<bv8>, key: seq<bv8>, sh: Shape): (out: seq<bv8>)
    requires |data| % BlockSize == 0 && KeyFits(key, sh)
    ensures |out| == |data|
    decreases |data|
  {
    if |data| == 0 then []
    else AesSpec.Cipher(data[..16], key, sh) + EcbEncrypt(data[16..], key, sh)
  }

  /** Each 16-byte block deciphered in turn under the master key. */
  function EcbDecrypt(data: seq<bv8>, key: seq<bv8>, sh: Shape): (out: seq<bv8>)
    requires |data| % BlockSize == 0 && KeyFits(key, sh)
    ensures |out| == |data|
    decreases |data|
  {
    if |data| == 0 then []
    else AesSpec.InvCipher(data[..16], key, sh) + EcbDecrypt(data[16..], key, sh)
  }

  /** Deciphering the blocks undoes enciphering them. */
  lemma {:induction false} EcbRoundTrip(data: seq<bv8>, key: seq<bv8>, sh: Shape)
    requires |data| % BlockSize == 0 && KeyFits(key, sh)
    ensures EcbDecrypt(EcbEncrypt(data, key, sh), key, sh) == data
    decreases |data|
  {
    if |data| > 0 {
      var first: Block := data[..16];
      var enc, restEnc := EcbEncrypt(data, key, sh), EcbEncrypt(data[16..], key, sh);
      var c := AesSpec.Cipher(first, key, sh);
      assert enc == c + restEnc;
      assert enc[..16] == c && enc[16..] == restEnc;
      EcbDecryptFront(enc, key, sh);
      InvCipherOfCipher(first, key, sh);
      EcbRoundTrip(data[16..], key, sh);
      assert data == first + data[16..];
    }
  }

  /** Deciphering a non-empty ciphertext: its first block, then the rest. */
  lemma EcbDecryptFront(data: seq<bv8>, key: seq<bv8>, sh: Shape)
    requires |data| % BlockSize == 0 && |data| > 0 && KeyFits(key, sh)
    ensures EcbDecrypt(data, key, sh) == AesSpec.InvCipher(data[..16], key, sh) + EcbDecrypt(data[16..], key, sh)
  {
  }

  /** Outcome of decrypting a payload. */
  datatype Decrypted =
    | NotBlockAligned          // the ciphertext length is not a multiple of 16
    | BadKeyLength             // the master key is not 16, 24 or 32 bytes
    | Plain(bytes: seq<bv8>)

  /** Encryption of a payload: padding, then ECB under the key; None when the key length is not an AES key length. */
  function EncryptPayload(plain: seq<bv8>, key: seq<bv8>): (r: Option<seq<bv8>>)
    ensures r.Some? <==> ShapeOf(|key|).Some?
    ensures r.Some? ==> |r.value| % BlockSize == 0 && |plain| < |r.value| <= |plain| + BlockSize
  {
    match ShapeOf(|key|)
    case None => None
    case Some(sh) => Some(EcbEncrypt(Padded(plain), key, sh))
  }

  /** Decryption of a payload: the length check first, then the empty case, then the key, then ECB and unpadding. */
  function DecryptPayload(cipher: seq<bv8>, key: seq<bv8>): (r: Decrypted)
    ensures r == NotBlockAligned <==> |cipher| % BlockSize != 0
    ensures |cipher| == 0 ==> r == Plain([])
    ensures r == BadKeyLength <==> |cipher| > 0 && |cipher| % BlockSize == 0 && ShapeOf(|key|).None?
  {
    if |cipher| % BlockSize != 0 then NotBlockAligned
    else if |cipher| == 0 then Plain([])
    else match ShapeOf(|key|)
      case None => BadKeyLength
      case Some(sh) => Plain(Unpadded(EcbDecrypt(cipher, key, sh)))
  }

  /** Decrypting an encrypted payload under the same key gives the payload back. */
  lemma PayloadRoundTrip(plain: seq<bv8>, key: seq<bv8>)
    requires ShapeOf(|key|).Some?
    ensures EncryptPayload(plain, key).Some?
    ensures DecryptPayload(EncryptPayload(plain, key).value, key) == Plain(plain)
  {
    var sh := ShapeOf(|key|).value;
    EcbRoundTrip(Padded(plain), key, sh);
    UnpadPad(plain);
  }
  /**
   * The extraction panel's repair of the collected ciphertext: a length that
   * is not a multiple of 16 is cut down to whole blocks, unless that leaves
   * nothing, in which case the data go to decryption as they are.
   */
  function TrimToBlocks(data: seq<bv8>): (r: seq<bv8>)
    ensures |data| < BlockSize || |data| % BlockSize == 0 ==> r == data
    ensures |data| >= BlockSize ==> |r| % BlockSize == 0 && |data| - BlockSize < |r| <= |data| && r == data[..|r|]
  {
    var newLength := (|data| / BlockSize) * BlockSize;
    if |data| % BlockSize != 0 && newLength < |data| && newLength > 0 then data[..newLength] else data
  }

  /** At least one whole block followed by fewer than 16 bytes is trimmed back to the blocks. */
  lemma TrimAppended(blocks: seq<bv8>, extra: seq<bv8>)
    requires |blocks| > 0 && |blocks| % BlockSize == 0 && |extra| < BlockSize
    ensures TrimToBlocks(blocks + extra) == blocks
  {
    var q := |blocks| / BlockSize;
    assert |blocks| == q * BlockSize;
    ModUnique(|blocks + extra|, BlockSize, q, |extra|);
    DivUnique(|blocks + extra|, BlockSize, q, |extra|);
    if |extra| > 0 {
      assert (blocks + extra)[..|blocks|] == blocks;
    } else {
      assert blocks + extra == blocks;
    }
  }

  /**
   * A ciphertext followed by fewer than 16 further bytes (what a container
   * gives back beyond the hidden data) is trimmed back to the ciphertext,
   * and decrypts to the payload.
   */
  lemma TrimmedRoundTrip(plain: seq<bv8>, key: seq<bv8>, extra: seq<bv8>)
    requires ShapeOf(|key|).Some? && |extra| < BlockSize
    ensures EncryptPayload(plain, key).Some?
    ensures TrimToBlocks(EncryptPayload(plain, key).value + extra) == EncryptPayload(plain, key).value
    ensures DecryptPayload(TrimToBlocks(EncryptPayload(plain, key).value + extra), key) == Plain(plain)
  {
    PayloadRoundTrip(plain, key);
    TrimAppended(EncryptPayload(plain, key).value, extra);
  }
}
