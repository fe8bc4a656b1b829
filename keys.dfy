/**
 * The stego key of the main form: every character of the passphrase, cut to
 * its low byte, becomes four 2-bit entries, least significant pair first.
 * The entries say how many low bits of a pixel channel, an audio sample or
 * a JPEG coefficient carry hidden data.
 */
module StegoKey {
  import opened Texts

  /** The C# `(byte)c` cast: the low 8 bits of a code unit. */
  function LowByte(c: bv16): bv8
  {
    (c & 0xFF) as bv8
  }

  /** The four entries of one character: bits 2j and 2j+1 of its low byte, for j = 0..3. */
  function Entries(c: bv16): (entries: seq<bv8>)
    ensures |entries| == 4
    ensures forall j :: 0 <= j < 4 ==> entries[j] < 4
  {
    var b := LowByte(c);
    [b & 3, (b >> 2) & 3, (b >> 4) & 3, (b >> 6) & 3]
  }

  /** The key of a passphrase: the entries of its characters, in order. */
  function DerivedKey(passphrase: Text): (key: seq<bv8>)
    ensures |key| == 4 * |passphrase|
  {
    if |passphrase| == 0 then [] else DerivedKey(passphrase[..|passphrase| - 1]) + Entries(passphrase[|passphrase| - 1])
  }

  /** A byte shifted right by two, j times. */
  function Shifted(b: bv8, j: nat): bv8
  {
    if j == 0 then b else Shifted(b, j - 1) >> 2
  }

  /** Entry j of a character is the low two bits of its low byte shifted right by 2j. */
  lemma EntryBits(c: bv16, j: nat)
    requires j < 4
    ensures Entries(c)[j] == Shifted(LowByte(c), j) & 3
  {
    var b := LowByte(c);
    assert Shifted(b, 1) == b >> 2;
    assert Shifted(b, 2) == (b >> 2) >> 2;
    assert Shifted(b, 3) == ((b >> 2) >> 2) >> 2;
  }

  /**
   * The inner loop of KeyStringToLSBByte: four entries of one character are
   * stored from keyIndex on, the character's byte shifted right by two after
   * each.
   */
  method StoreEntries(keyByte: array<bv8>, keyIndex: nat, c: bv16)
    requires keyIndex + 4 <= keyByte.Length
    modifies keyByte
    ensures keyByte[..keyIndex] == old(keyByte[..keyIndex])
    ensures keyByte[keyIndex..keyIndex + 4] == Entries(c)
  {
    var bt := LowByte(c);
    for j := 0 to 4
      invariant bt == Shifted(LowByte(c), j)
      invariant keyByte[..keyIndex] == old(keyByte[..keyIndex])
      invariant forall k :: 0 <= k < j ==> keyByte[keyIndex + k] == Entries(c)[k]
    {
      EntryBits(c, j);
      keyByte[keyIndex + j] := bt & 3;
      bt := bt >> 2;
    }
  }

  /**
   * KeyStringToLSBByte: a key buffer four times the passphrase length, filled
   * character by character through a running index.
   */
  method KeyStringToLSBByte(passphrase: Text) returns (key: seq<bv8>)
    ensures key == DerivedKey(passphrase)
  {
    var keyByte := new bv8[|passphrase| * 4];
    var keyIndex := 0;
    for i := 0 to |passphrase|
      invariant keyIndex == 4 * i
      invariant keyByte[..keyIndex] == DerivedKey(passphrase[..i])
    {
      assert passphrase[..i + 1][..i] == passphrase[..i];
      StoreEntries(keyByte, keyIndex, passphrase[i]);
      assert keyByte[..keyIndex + 4] == keyByte[..keyIndex] + keyByte[keyIndex..keyIndex + 4];
      keyIndex := keyIndex + 4;
    }
    assert passphrase[..|passphrase|] == passphrase;
    key := keyByte[..];
  }

  /** Entry 4i+j of the key is entry j of character i. */
  lemma {:induction false} DerivedKeyEntry(passphrase: Text, i: nat, j: nat)
    requires i < |passphrase| && j < 4
    ensures DerivedKey(passphrase)[4 * i + j] == Entries(passphrase[i])[j]
    decreases |passphrase|
  {
    var n := |passphrase| - 1;
    if i < n {
      assert passphrase[..n][i] == passphrase[i];
      DerivedKeyEntry(passphrase[..n], i, j);
    }
  }

  /** Every key entry is in 0..3. */
  lemma {:induction false} EntriesBounded(passphrase: Text)
    ensures forall k :: 0 <= k < |DerivedKey(passphrase)| ==> DerivedKey(passphrase)[k] < 4
    decreases |passphrase|
  {
    if |passphrase| > 0 {
      EntriesBounded(passphrase[..|passphrase| - 1]);
    }
  }

  /** The four entries of a character, weighted by 1, 4, 16 and 64, add up to its low byte. */
  lemma Reassemble(c: bv16)
    ensures var e := Entries(c);
      e[0] as nat + 4 * e[1] as nat + 16 * e[2] as nat + 64 * e[3] as nat == LowByte(c) as nat
  {
    var b := LowByte(c);
    var e := Entries(c);
    assert b == e[0] + 4 * e[1] + 16 * e[2] + 64 * e[3];
  }

  /** The entries of a character put back together, the first as the lowest pair. */
  function Combine(e: seq<bv8>): bv8
    requires |e| == 4
  {
    e[0] | (e[1] << 2) | (e[2] << 4) | (e[3] << 6)
  }

  /** A character's entries put back together give its low byte. */
  lemma CombineEntries(c: bv16)
    ensures Combine(Entries(c)) == LowByte(c)
  {
  }

  /** Equal keys give character i the same entries, hence the same low byte. */
  lemma SameLowByte(a: Text, b: Text, i: nat)
    requires DerivedKey(a) == DerivedKey(b) && i < |a|
    ensures LowByte(a[i]) == LowByte(b[i])
  {
    forall j | 0 <= j < 4
      ensures Entries(a[i])[j] == Entries(b[i])[j]
    {
      DerivedKeyEntry(a, i, j);
      DerivedKeyEntry(b, i, j);
    }
    assert Entries(a[i]) == Entries(b[i]);
    CombineEntries(a[i]);
    CombineEntries(b[i]);
  }

  /** The key determines the length and every low byte of the passphrase. */
  lemma DerivedKeyInjective(a: Text, b: Text)
    requires DerivedKey(a) == DerivedKey(b)
    ensures |a| == |b|
    ensures forall i :: 0 <= i < |a| ==> LowByte(a[i]) == LowByte(b[i])
  {
    forall i | 0 <= i < |a|
      ensures LowByte(a[i]) == LowByte(b[i])
    {
      SameLowByte(a, b, i);
    }
  }

  // ---------------------------------------------------------------------------
  // The passphrase check

  /** ValidateKey: a passphrase is accepted when it is non-empty and every character is in U+0000..U+007F. */
  predicate Accepted(passphrase: Text)
  {
    |passphrase| > 0 && forall i :: 0 <= i < |passphrase| ==> passphrase[i] < 0x80
  }

  /** An accepted passphrase yields a non-empty key whose every fourth entry (bits 6 and 7) is 0 or 1. */
  lemma AcceptedTopEntries(passphrase: Text)
    requires Accepted(passphrase)
    ensures |DerivedKey(passphrase)| > 0
    ensures forall i :: 0 <= i < |passphrase| ==> DerivedKey(passphrase)[4 * i + 3] <= 1
  {
    forall i | 0 <= i < |passphrase|
      ensures DerivedKey(passphrase)[4 * i + 3] <= 1
    {
      DerivedKeyEntry(passphrase, i, 3);
    }
  }
}
