/**
 * AES-128/192/256 on one 16-byte block, as functions on byte sequences.
 *
 * A block holds the state column by column: the byte at row r and column c is
 * at index r + 4c, which is how the cipher loads and stores its state. The
 * round transformations, the key schedule and the two block functions follow
 * the class `AES` of the tool step for step; the lemmas show that each
 * decryption step undoes its encryption step and that decryption and
 * encryption under the same key are inverse permutations of the blocks.
 */
module AesSpec {
  import opened Wrappers
  import opened AesTables
  import opened AesMix

  type Block = s: seq<bv8> | |s| == 16 witness seq(16, _ => 0)

  type Word = w: seq<bv8> | |w| == 4 witness [0, 0, 0, 0]

  /** Shape of the cipher: key length in 32-bit words (Nk) and number of rounds (Nr). */
  datatype Shape = Shape(nk: nat, nr: nat)

  /** The three shapes of AES-128, AES-192 and AES-256. */
  predicate ValidShape(sh: Shape)
  {
    sh == Shape(4, 10) || sh == Shape(6, 12) || sh == Shape(8, 14)
  }

  /** The shape chosen from the length of the master key; None where the constructor throws. */
  function ShapeOf(keyLength: nat): (r: Option<Shape>)
    ensures r.Some? <==> keyLength == 16 || keyLength == 24 || keyLength == 32
    ensures r.Some? ==> ValidShape(r.value) && 4 * r.value.nk == keyLength && r.value.nr == r.value.nk + 6
  {
    if keyLength == 16 then Some(Shape(4, 10))
    else if keyLength == 24 then Some(Shape(6, 12))
    else if keyLength == 32 then Some(Shape(8, 14))
    else None
  }

  // ---------------------------------------------------------------------------
  // Round transformations

  /** Row of the state byte at block index i. */
  function Row(i: nat): nat
  {
    i % 4
  }

  /** Column of the state byte at block index i. */
  function Col(i: nat): nat
  {
    i / 4
  }

  /** Block index of the state byte at row r and column c. */
  function Index(r: nat, c: nat): nat
  {
    r + 4 * c
  }

  lemma IndexOf(r: nat, c: nat)
    requires r < 4 && c < 4
    ensures Row(Index(r, c)) == r && Col(Index(r, c)) == c && Index(r, c) < 16
  {
  }

  lemma RowCol(i: nat)
    requires i < 16
    ensures Row(i) < 4 && Col(i) < 4 && Index(Row(i), Col(i)) == i
  {
  }

  /** Block index of the byte that ShiftRows moves to index i, as the source's swaps do. */
  function ShiftedFrom(i: nat): nat
  {
    match i
    case 1 => 5 case 5 => 9 case 9 => 13 case 13 => 1
    case 2 => 10 case 6 => 14 case 10 => 2 case 14 => 6
    case 3 => 15 case 7 => 3 case 11 => 7 case 15 => 11
    case _ => i
  }

  /** Block index of the byte that InvShiftRows moves to index i, as the source's swaps do. */
  function UnshiftedFrom(i: nat): nat
  {
    match i
    case 1 => 13 case 5 => 1 case 9 => 5 case 13 => 9
    case 2 => 10 case 6 => 14 case 10 => 2 case 14 => 6
    case 3 => 7 case 7 => 11 case 11 => 15 case 15 => 3
    case _ => i
  }

  /** The two index maps are inverse permutations of 0..15. */
  lemma ShiftIndices(i: nat)
    requires i < 16
    ensures ShiftedFrom(i) < 16 && UnshiftedFrom(i) < 16
    ensures ShiftedFrom(UnshiftedFrom(i)) == i && UnshiftedFrom(ShiftedFrom(i)) == i
  {
  }

  /** ShiftRows rotates row r left by r places: the byte at column c comes from column c + r (mod 4). */
  lemma ShiftRotatesLeft(r: nat, c: nat)
    requires r < 4 && c < 4
    ensures ShiftedFrom(Index(r, c)) == Index(r, if c + r < 4 then c + r else c + r - 4)
  {
    if c == 0 {
      assert Index(r, 0) == r;
    } else if c == 1 {
      assert Index(r, 1) == r + 4;
    } else if c == 2 {
      assert Index(r, 2) == r + 8;
    } else {
      assert Index(r, 3) == r + 12;
    }
  }

  /** InvShiftRows rotates row r right by r places: the byte at column c comes from column c - r (mod 4). */
  lemma UnshiftRotatesRight(r: nat, c: nat)
    requires r < 4 && c < 4
    ensures UnshiftedFrom(Index(r, c)) == Index(r, if c >= r then c - r else c + 4 - r)
  {
    if c == 0 {
      assert Index(r, 0) == r;
    } else if c == 1 {
      assert Index(r, 1) == r + 4;
    } else if c == 2 {
      assert Index(r, 2) == r + 8;
    } else {
      assert Index(r, 3) == r + 12;
    }
  }

  function SubBytes(s: Block): Block
  {
    seq(16, i requires 0 <= i < 16 => SBox(s[i]))
  }

  function InvSubBytes(s: Block): Block
  {
    seq(16, i requires 0 <= i < 16 => InvSBox(s[i]))
  }

  /** Row r is rotated left by r places: the new byte at column c is the old byte at column c + r. */
  function ShiftRows(s: Block): Block
  {
    seq(16, i requires 0 <= i < 16 => s[ShiftedFrom(i)])
  }

  /** Row r is rotated right by r places: the new byte at column c is the old byte at column c - r. */
  function InvShiftRows(s: Block): Block
  {
    seq(16, i requires 0 <= i < 16 => s[UnshiftedFrom(i)])
  }

  function MixColumns(s: Block): Block
  {
    seq(16, i requires 0 <= i < 16 =>
      var c := Col(i);
      MixColumnByte(Row(i), s[Index(0, c)], s[Index(1, c)], s[Index(2, c)], s[Index(3, c)]))
  }

  function InvMixColumns(s: Block): Block
  {
    seq(16, i requires 0 <= i < 16 =>
      var c := Col(i);
      InvMixColumnByte(Row(i), s[Index(0, c)], s[Index(1, c)], s[Index(2, c)], s[Index(3, c)]))
  }

  function AddRoundKey(s: Block, roundKey: Block): Block
  {
    seq(16, i requires 0 <= i < 16 => s[i] ^ roundKey[i])
  }

  // ---------------------------------------------------------------------------
  // Each round transformation and its inverse

  lemma SubBytesInverse(s: Block)
    ensures InvSubBytes(SubBytes(s)) == s
    ensures SubBytes(InvSubBytes(s)) == s
  {
    forall i | 0 <= i < 16
      ensures InvSubBytes(SubBytes(s))[i] == s[i] && SubBytes(InvSubBytes(s))[i] == s[i]
    {
      SBoxInverse(s[i]);
      InvSBoxInverse(s[i]);
    }
  }

  lemma ShiftRowsInverse(s: Block)
    ensures InvShiftRows(ShiftRows(s)) == s
    ensures ShiftRows(InvShiftRows(s)) == s
  {
    forall i | 0 <= i < 16
      ensures InvShiftRows(ShiftRows(s))[i] == s[i] && ShiftRows(InvShiftRows(s))[i] == s[i]
    {
      ShiftIndices(i);
    }
  }

  /** ShiftRows rotates row r of the state left by r places and InvShiftRows rotates it right by r places. */
  lemma ShiftRowsRotate(s: Block, r: nat, c: nat)
    requires r < 4 && c < 4
    ensures ShiftRows(s)[Index(r, c)] == s[Index(r, if c + r < 4 then c + r else c + r - 4)]
    ensures InvShiftRows(s)[Index(r, c)] == s[Index(r, if c >= r then c - r else c + 4 - r)]
  {
    ShiftRotatesLeft(r, c);
    UnshiftRotatesRight(r, c);
  }

  lemma MixColumnsAt(s: Block, r: nat, c: nat)
    requires r < 4 && c < 4
    ensures MixColumns(s)[Index(r, c)] == MixColumnByte(r, s[Index(0, c)], s[Index(1, c)], s[Index(2, c)], s[Index(3, c)])
    ensures InvMixColumns(s)[Index(r, c)] == InvMixColumnByte(r, s[Index(0, c)], s[Index(1, c)], s[Index(2, c)], s[Index(3, c)])
  {
    IndexOf(r, c);
  }

  /** InvMixColumns(MixColumns(s)) agrees with s on column c. */
  lemma MixColumnsInverseAt(s: Block, c: nat)
    requires c < 4
    ensures InvMixColumns(MixColumns(s))[Index(0, c)] == s[Index(0, c)]
    ensures InvMixColumns(MixColumns(s))[Index(1, c)] == s[Index(1, c)]
    ensures InvMixColumns(MixColumns(s))[Index(2, c)] == s[Index(2, c)]
    ensures InvMixColumns(MixColumns(s))[Index(3, c)] == s[Index(3, c)]
  {
    var m := MixColumns(s);
    MixColumnsAt(s, 0, c);
    MixColumnsAt(s, 1, c);
    MixColumnsAt(s, 2, c);
    MixColumnsAt(s, 3, c);
    MixColumnsAt(m, 0, c);
    MixColumnsAt(m, 1, c);
    MixColumnsAt(m, 2, c);
    MixColumnsAt(m, 3, c);
    ColumnRoundTrip(s[Index(0, c)], s[Index(1, c)], s[Index(2, c)], s[Index(3, c)]);
  }

  /** MixColumns(InvMixColumns(s)) agrees with s on column c. */
  lemma InvMixColumnsInverseAt(s: Block, c: nat)
    requires c < 4
    ensures MixColumns(InvMixColumns(s))[Index(0, c)] == s[Index(0, c)]
    ensures MixColumns(InvMixColumns(s))[Index(1, c)] == s[Index(1, c)]
    ensures MixColumns(InvMixColumns(s))[Index(2, c)] == s[Index(2, c)]
    ensures MixColumns(InvMixColumns(s))[Index(3, c)] == s[Index(3, c)]
  {
    var n := InvMixColumns(s);
    MixColumnsAt(s, 0, c);
    MixColumnsAt(s, 1, c);
    MixColumnsAt(s, 2, c);
    MixColumnsAt(s, 3, c);
    MixColumnsAt(n, 0, c);
    MixColumnsAt(n, 1, c);
    MixColumnsAt(n, 2, c);
    MixColumnsAt(n, 3, c);
    ColumnRoundTripBack(s[Index(0, c)], s[Index(1, c)], s[Index(2, c)], s[Index(3, c)]);
  }

  /** Every block index is the index of one of the four rows of its column. */
  lemma SameCell(i: nat)
    requires i < 16
    ensures i == Index(0, Col(i)) || i == Index(1, Col(i)) || i == Index(2, Col(i)) || i == Index(3, Col(i))
  {
  }

  lemma MixColumnsInverse(s: Block)
    ensures InvMixColumns(MixColumns(s)) == s
    ensures MixColumns(InvMixColumns(s)) == s
  {
    forall i | 0 <= i < 16
      ensures InvMixColumns(MixColumns(s))[i] == s[i] && MixColumns(InvMixColumns(s))[i] == s[i]
    {
      RowCol(i);
      MixColumnsInverseAt(s, Col(i));
      InvMixColumnsInverseAt(s, Col(i));
      SameCell(i);
    }
  }

  /** Adding the same round key twice gives the state back. */
  lemma AddRoundKeyInvolution(s: Block, roundKey: Block)
    ensures AddRoundKey(AddRoundKey(s, roundKey), roundKey) == s
  {
    forall i | 0 <= i < 16
      ensures AddRoundKey(AddRoundKey(s, roundKey), roundKey)[i] == s[i]
    {
      AddComm(s[i], roundKey[i]);
      AddAssoc(s[i], roundKey[i], roundKey[i]);
    }
  }

  // ---------------------------------------------------------------------------
  // Key schedule

  /** The source reads the first 4 * Nk bytes of the master key and nothing else. */
  predicate KeyFits(key: seq<bv8>, sh: Shape)
  {
    ValidShape(sh) && |key| >= 4 * sh.nk
  }

  /** Number of 32-bit words in the expanded key: Nb * (Nr + 1) with Nb = 4. */
  function WordCount(sh: Shape): nat
  {
    4 * (sh.nr + 1)
  }

  /** Cyclic rotation of a word by one byte to the left. */
  function RotWord(w: Word): Word
  {
    [w[1], w[2], w[3], w[0]]
  }

  function SubWord(w: Word): Word
  {
    [SBox(w[0]), SBox(w[1]), SBox(w[2]), SBox(w[3])]
  }

  function XorWord(a: Word, b: Word): Word
  {
    [a[0] ^ b[0], a[1] ^ b[1], a[2] ^ b[2], a[3] ^ b[3]]
  }

  /** Every round constant index the schedule uses is inside the table. */
  lemma RconIndex(sh: Shape, i: nat)
    requires ValidShape(sh) && i < WordCount(sh)
    ensures 0 <= i / sh.nk < |Rcon|
  {
  }

  /** The value of the temporary word for word i, computed from the previous word. */
  function ScheduleTemp(prev: Word, i: nat, sh: Shape): Word
    requires ValidShape(sh) && sh.nk <= i < WordCount(sh)
  {
    if i % sh.nk == 0 then
      RconIndex(sh, i);
      var t := SubWord(RotWord(prev));
      [t[0] ^ Rcon[i / sh.nk], t[1], t[2], t[3]]
    else if sh.nk > 6 && i % sh.nk == 4 then
      SubWord(prev)
    else
      prev
  }

  /** At the start of each key length the temporary word is SubWord(RotWord) of the previous word with the round constant in its first byte. */
  lemma TempAtKeyStart(prev: Word, i: nat, sh: Shape, t: Word)
    requires ValidShape(sh) && sh.nk <= i < WordCount(sh) && i % sh.nk == 0
    requires t == SubWord(RotWord(prev))
    ensures 0 <= i / sh.nk < |Rcon|
    ensures ScheduleTemp(prev, i, sh) == [t[0] ^ Rcon[i / sh.nk], t[1], t[2], t[3]]
  {
    RconIndex(sh, i);
  }

  /** Word i of the expanded key. */
  function KeyWord(key: seq<bv8>, sh: Shape, i: nat): Word
    requires KeyFits(key, sh) && i < WordCount(sh)
    decreases i
  {
    if i < sh.nk then key[4 * i .. 4 * i + 4]
    else XorWord(KeyWord(key, sh, i - sh.nk), ScheduleTemp(KeyWord(key, sh, i - 1), i, sh))
  }

  /** Round key `round`: words 4 * round to 4 * round + 3, one per column. */
  function RoundKey(key: seq<bv8>, sh: Shape, round: nat): Block
    requires KeyFits(key, sh) && round <= sh.nr
  {
    seq(16, j requires 0 <= j < 16 => KeyWord(key, sh, 4 * round + Col(j))[Row(j)])
  }

  /** The Nr + 1 round keys. */
  function RoundKeys(key: seq<bv8>, sh: Shape): (keys: seq<Block>)
    requires KeyFits(key, sh)
    ensures |keys| == sh.nr + 1
  {
    seq(sh.nr + 1, round requires 0 <= round <= sh.nr => RoundKey(key, sh, round))
  }

  // ---------------------------------------------------------------------------
  // The block cipher, for any sequence of round keys (Nr = |keys| - 1)

  /** The state after the round key of round k has been added (0 <= k < Nr). */
  function EncryptRounds(block: Block, keys: seq<Block>, k: nat): Block
    requires k < |keys| - 1
    decreases k
  {
    if k == 0 then AddRoundKey(block, keys[0])
    else AddRoundKey(MixColumns(ShiftRows(SubBytes(EncryptRounds(block, keys, k - 1)))), keys[k])
  }

  /** Encryption of one block: Nr - 1 full rounds followed by a final round without MixColumns. */
  function EncryptBlock(block: Block, keys: seq<Block>): Block
    requires |keys| >= 2
  {
    AddRoundKey(ShiftRows(SubBytes(EncryptRounds(block, keys, |keys| - 2))), keys[|keys| - 1])
  }

  /** The decryption state once rounds Nr down to k have been undone (1 <= k <= Nr). */
  function DecryptRounds(block: Block, keys: seq<Block>, k: nat): Block
    requires 1 <= k < |keys|
    decreases |keys| - k
  {
    if k == |keys| - 1 then AddRoundKey(block, keys[k])
    else InvMixColumns(AddRoundKey(InvSubBytes(InvShiftRows(DecryptRounds(block, keys, k + 1))), keys[k]))
  }

  /** Decryption of one block: the rounds in reverse order with the inverse transformations. */
  function DecryptBlock(block: Block, keys: seq<Block>): Block
    requires |keys| >= 2
  {
    AddRoundKey(InvSubBytes(InvShiftRows(DecryptRounds(block, keys, 1))), keys[0])
  }

  /** AES encryption of one block under a master key of the given shape. */
  function Cipher(block: Block, key: seq<bv8>, sh: Shape): Block
    requires KeyFits(key, sh)
  {
    EncryptBlock(block, RoundKeys(key, sh))
  }

  /** AES decryption of one block under a master key of the given shape. */
  function InvCipher(block: Block, key: seq<bv8>, sh: Shape): Block
    requires KeyFits(key, sh)
  {
    DecryptBlock(block, RoundKeys(key, sh))
  }

  /** The decryption round undoes an encryption round with the same round key. */
  lemma RoundUndo(prev: Block, roundKey: Block)
    ensures InvMixColumns(AddRoundKey(InvSubBytes(InvShiftRows(ShiftRows(SubBytes(AddRoundKey(MixColumns(prev), roundKey))))), roundKey)) == prev
  {
    var e := AddRoundKey(MixColumns(prev), roundKey);
    ShiftRowsInverse(SubBytes(e));
    SubBytesInverse(e);
    AddRoundKeyInvolution(MixColumns(prev), roundKey);
    MixColumnsInverse(prev);
  }

  /** The encryption round undoes a decryption round with the same round key. */
  lemma RoundRedo(next: Block, roundKey: Block)
    ensures AddRoundKey(MixColumns(ShiftRows(SubBytes(InvSubBytes(InvShiftRows(InvMixColumns(AddRoundKey(next, roundKey))))))), roundKey) == next
  {
    var d := InvMixColumns(AddRoundKey(next, roundKey));
    SubBytesInverse(InvShiftRows(d));
    ShiftRowsInverse(d);
    MixColumnsInverse(AddRoundKey(next, roundKey));
    AddRoundKeyInvolution(next, roundKey);
  }

  /** The rounds computed up to equal indices are equal. */
  lemma EncryptRoundsAt(block: Block, keys: seq<Block>, i: nat, j: nat)
    requires i == j < |keys| - 1
    ensures EncryptRounds(block, keys, i) == EncryptRounds(block, keys, j)
  {
  }

  /** The round keys at equal indices are equal. */
  lemma KeyAt(keys: seq<Block>, i: nat, j: nat)
    requires i == j < |keys|
    ensures keys[i] == keys[j]
  {
  }

  /** Undoing the last round of an encrypted block leaves the state of round Nr - 1 after SubBytes and ShiftRows. */
  lemma DecryptLastOfEncrypt(block: Block, keys: seq<Block>, k: nat)
    requires 1 <= k == |keys| - 1
    ensures DecryptRounds(EncryptBlock(block, keys), keys, k) == ShiftRows(SubBytes(EncryptRounds(block, keys, k - 1)))
  {
    EncryptRoundsAt(block, keys, k - 1, |keys| - 2);
    KeyAt(keys, k, |keys| - 1);
    AddRoundKeyInvolution(ShiftRows(SubBytes(EncryptRounds(block, keys, k - 1))), keys[k]);
  }

  /** Undoing rounds Nr down to k of an encrypted block leaves the state of round k - 1 after SubBytes and ShiftRows. */
  lemma {:induction false} DecryptRoundsOfEncrypt(block: Block, keys: seq<Block>, k: nat)
    requires 1 <= k < |keys|
    ensures DecryptRounds(EncryptBlock(block, keys), keys, k) == ShiftRows(SubBytes(EncryptRounds(block, keys, k - 1)))
    decreases |keys| - k
  {
    if k == |keys| - 1 {
      DecryptLastOfEncrypt(block, keys, k);
    } else {
      forall j | k < j < |keys|
        ensures DecryptRounds(EncryptBlock(block, keys), keys, j) == ShiftRows(SubBytes(EncryptRounds(block, keys, j - 1)))
      {
        DecryptRoundsOfEncrypt(block, keys, j);
      }
      RoundUndo(ShiftRows(SubBytes(EncryptRounds(block, keys, k - 1))), keys[k]);
    }
  }

  /** DecryptBlock undoes EncryptBlock under the same round keys. */
  lemma DecryptOfEncrypt(block: Block, keys: seq<Block>)
    requires |keys| >= 2
    ensures DecryptBlock(EncryptBlock(block, keys), keys) == block
  {
    DecryptRoundsOfEncrypt(block, keys, 1);
    var e := EncryptRounds(block, keys, 0);
    ShiftRowsInverse(SubBytes(e));
    SubBytesInverse(e);
    AddRoundKeyInvolution(block, keys[0]);
  }

  /** Encrypting a decrypted block: the state after round k is the decryption state of round k + 1 with ShiftRows and SubBytes undone. */
  lemma {:induction false} EncryptRoundsOfDecrypt(block: Block, keys: seq<Block>, k: nat)
    requires k < |keys| - 1
    ensures EncryptRounds(DecryptBlock(block, keys), keys, k) == InvSubBytes(InvShiftRows(DecryptRounds(block, keys, k + 1)))
    decreases k
  {
    if k == 0 {
      AddRoundKeyInvolution(InvSubBytes(InvShiftRows(DecryptRounds(block, keys, 1))), keys[0]);
    } else {
      forall j: nat | j < k
        ensures EncryptRounds(DecryptBlock(block, keys), keys, j) == InvSubBytes(InvShiftRows(DecryptRounds(block, keys, j + 1)))
      {
        EncryptRoundsOfDecrypt(block, keys, j);
      }
      RoundRedo(InvSubBytes(InvShiftRows(DecryptRounds(block, keys, k + 1))), keys[k]);
    }
  }

  /** EncryptBlock undoes DecryptBlock under the same round keys. */
  lemma EncryptOfDecrypt(block: Block, keys: seq<Block>)
    requires |keys| >= 2
    ensures EncryptBlock(DecryptBlock(block, keys), keys) == block
  {
    forall k | k == |keys| - 2
      ensures EncryptRounds(DecryptBlock(block, keys), keys, k) == InvSubBytes(InvShiftRows(DecryptRounds(block, keys, k + 1)))
    {
      EncryptRoundsOfDecrypt(block, keys, k);
    }
    SubBytesInverse(InvShiftRows(DecryptRounds(block, keys, |keys| - 1)));
    ShiftRowsInverse(DecryptRounds(block, keys, |keys| - 1));
    AddRoundKeyInvolution(block, keys[|keys| - 1]);
  }

  /** InvCipher undoes Cipher under the same master key. */
  lemma InvCipherOfCipher(block: Block, key: seq<bv8>, sh: Shape)
    requires KeyFits(key, sh)
    ensures InvCipher(Cipher(block, key, sh), key, sh) == block
  {
    DecryptOfEncrypt(block, RoundKeys(key, sh));
  }

  /** Cipher undoes InvCipher under the same master key: for each key the cipher is a permutation of the blocks. */
  lemma CipherOfInvCipher(block: Block, key: seq<bv8>, sh: Shape)
    requires KeyFits(key, sh)
    ensures Cipher(InvCipher(block, key, sh), key, sh) == block
  {
    EncryptOfDecrypt(block, RoundKeys(key, sh));
  }
}
