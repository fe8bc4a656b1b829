/**
 * Known-answer checks of the block cipher against FIPS-197.
 *
 * Appendix C.1 of FIPS-197 lists every intermediate state of AES-128
 * for the key 00 01 .. 0F and the plaintext 00 11 22 .. FF; the lemmas
 * below follow that listing round by round, and the last one states the
 * published ciphertext 69 C4 E0 D8 .. C5 5A. The second vector is the
 * all-zero key with the all-zero block, whose ciphertext begins 66 E9 4B D4.
 * Agreement with these vectors shows that the S-box, the round constants,
 * the byte order of the state and the order of the round steps are the
 * standard ones, which the inverse lemmas alone cannot show: any
 * permutation and its inverse undo each other.
 *
 * The master key is a parameter of which only the first sixteen bytes are
 * fixed (the cipher reads no more of it), so that the solver unfolds the
 * key schedule one word at a time instead of evaluating it whole. Each
 * round step is a separate lemma on literal states.
 */
module AesKnownAnswer {
  import opened AesTables
  import opened AesMix
  import opened AesSpec

  const Aes128: Shape := Shape(4, 10)

  // ---------------------------------------------------------------------------
  // A state given cell by cell

  /** A block is the display of its sixteen cells. */
  lemma SixteenCells(x: Block, b0: bv8, b1: bv8, b2: bv8, b3: bv8, b4: bv8, b5: bv8, b6: bv8, b7: bv8, b8: bv8, b9: bv8, b10: bv8, b11: bv8, b12: bv8, b13: bv8, b14: bv8, b15: bv8)
    requires x[0] == b0 && x[1] == b1 && x[2] == b2 && x[3] == b3
    requires x[4] == b4 && x[5] == b5 && x[6] == b6 && x[7] == b7
    requires x[8] == b8 && x[9] == b9 && x[10] == b10 && x[11] == b11
    requires x[12] == b12 && x[13] == b13 && x[14] == b14 && x[15] == b15
    ensures x == [b0, b1, b2, b3, b4, b5, b6, b7, b8, b9, b10, b11, b12, b13, b14, b15]
  {
  }

  /** A byte function applied to sixteen given bytes, cell by cell. */
  lemma MapCells(f: bv8 -> bv8, a0: bv8, a1: bv8, a2: bv8, a3: bv8, a4: bv8, a5: bv8, a6: bv8, a7: bv8, a8: bv8, a9: bv8, a10: bv8, a11: bv8, a12: bv8, a13: bv8, a14: bv8, a15: bv8, b0: bv8, b1: bv8, b2: bv8, b3: bv8, b4: bv8, b5: bv8, b6: bv8, b7: bv8, b8: bv8, b9: bv8, b10: bv8, b11: bv8, b12: bv8, b13: bv8, b14: bv8, b15: bv8)
    requires f(a0) == b0 && f(a1) == b1 && f(a2) == b2 && f(a3) == b3
    requires f(a4) == b4 && f(a5) == b5 && f(a6) == b6 && f(a7) == b7
    requires f(a8) == b8 && f(a9) == b9 && f(a10) == b10 && f(a11) == b11
    requires f(a12) == b12 && f(a13) == b13 && f(a14) == b14 && f(a15) == b15
    ensures seq(16, i requires 0 <= i < 16 => f([a0, a1, a2, a3, a4, a5, a6, a7, a8, a9, a10, a11, a12, a13, a14, a15][i])) == [b0, b1, b2, b3, b4, b5, b6, b7, b8, b9, b10, b11, b12, b13, b14, b15]
  {
  }

  lemma SubBytesOf(a0: bv8, a1: bv8, a2: bv8, a3: bv8, a4: bv8, a5: bv8, a6: bv8, a7: bv8, a8: bv8, a9: bv8, a10: bv8, a11: bv8, a12: bv8, a13: bv8, a14: bv8, a15: bv8, b0: bv8, b1: bv8, b2: bv8, b3: bv8, b4: bv8, b5: bv8, b6: bv8, b7: bv8, b8: bv8, b9: bv8, b10: bv8, b11: bv8, b12: bv8, b13: bv8, b14: bv8, b15: bv8)
    requires SBox(a0) == b0 && SBox(a1) == b1 && SBox(a2) == b2 && SBox(a3) == b3
    requires SBox(a4) == b4 && SBox(a5) == b5 && SBox(a6) == b6 && SBox(a7) == b7
    requires SBox(a8) == b8 && SBox(a9) == b9 && SBox(a10) == b10 && SBox(a11) == b11
    requires SBox(a12) == b12 && SBox(a13) == b13 && SBox(a14) == b14 && SBox(a15) == b15
    ensures SubBytes([a0, a1, a2, a3, a4, a5, a6, a7, a8, a9, a10, a11, a12, a13, a14, a15]) == [b0, b1, b2, b3, b4, b5, b6, b7, b8, b9, b10, b11, b12, b13, b14, b15]
  {
    MapCells(SBox, a0, a1, a2, a3, a4, a5, a6, a7, a8, a9, a10, a11, a12, a13, a14, a15, b0, b1, b2, b3, b4, b5, b6, b7, b8, b9, b10, b11, b12, b13, b14, b15);
  }

  /** The cell at row r and column c of MixColumns depends on column c alone. */
  lemma MixColumnsCell(s: Block, r: nat, c: nat)
    requires r < 4 && c < 4
    ensures MixColumns(s)[Index(r, c)] == MixColumnByte(r, s[Index(0, c)], s[Index(1, c)], s[Index(2, c)], s[Index(3, c)])
  {
    assert Row(Index(r, c)) == r && Col(Index(r, c)) == c;
  }

  lemma MixColumnsCells(s: Block)
    ensures MixColumns(s) == [MixColumnByte(0, s[0], s[1], s[2], s[3]), MixColumnByte(1, s[0], s[1], s[2], s[3]), MixColumnByte(2, s[0], s[1], s[2], s[3]), MixColumnByte(3, s[0], s[1], s[2], s[3]), MixColumnByte(0, s[4], s[5], s[6], s[7]), MixColumnByte(1, s[4], s[5], s[6], s[7]), MixColumnByte(2, s[4], s[5], s[6], s[7]), MixColumnByte(3, s[4], s[5], s[6], s[7]), MixColumnByte(0, s[8], s[9], s[10], s[11]), MixColumnByte(1, s[8], s[9], s[10], s[11]), MixColumnByte(2, s[8], s[9], s[10], s[11]), MixColumnByte(3, s[8], s[9], s[10], s[11]), MixColumnByte(0, s[12], s[13], s[14], s[15]), MixColumnByte(1, s[12], s[13], s[14], s[15]), MixColumnByte(2, s[12], s[13], s[14], s[15]), MixColumnByte(3, s[12], s[13], s[14], s[15])]
  {
    MixColumnsCell(s, 0, 0);
    MixColumnsCell(s, 1, 0);
    MixColumnsCell(s, 2, 0);
    MixColumnsCell(s, 3, 0);
    MixColumnsCell(s, 0, 1);
    MixColumnsCell(s, 1, 1);
    MixColumnsCell(s, 2, 1);
    MixColumnsCell(s, 3, 1);
    MixColumnsCell(s, 0, 2);
    MixColumnsCell(s, 1, 2);
    MixColumnsCell(s, 2, 2);
    MixColumnsCell(s, 3, 2);
    MixColumnsCell(s, 0, 3);
    MixColumnsCell(s, 1, 3);
    MixColumnsCell(s, 2, 3);
    MixColumnsCell(s, 3, 3);
    SixteenCells(MixColumns(s), MixColumnByte(0, s[0], s[1], s[2], s[3]), MixColumnByte(1, s[0], s[1], s[2], s[3]), MixColumnByte(2, s[0], s[1], s[2], s[3]), MixColumnByte(3, s[0], s[1], s[2], s[3]), MixColumnByte(0, s[4], s[5], s[6], s[7]), MixColumnByte(1, s[4], s[5], s[6], s[7]), MixColumnByte(2, s[4], s[5], s[6], s[7]), MixColumnByte(3, s[4], s[5], s[6], s[7]), MixColumnByte(0, s[8], s[9], s[10], s[11]), MixColumnByte(1, s[8], s[9], s[10], s[11]), MixColumnByte(2, s[8], s[9], s[10], s[11]), MixColumnByte(3, s[8], s[9], s[10], s[11]), MixColumnByte(0, s[12], s[13], s[14], s[15]), MixColumnByte(1, s[12], s[13], s[14], s[15]), MixColumnByte(2, s[12], s[13], s[14], s[15]), MixColumnByte(3, s[12], s[13], s[14], s[15]));
  }

  lemma AddRoundKeyCells(s: Block, k: Block)
    ensures AddRoundKey(s, k) == [s[0] ^ k[0], s[1] ^ k[1], s[2] ^ k[2], s[3] ^ k[3], s[4] ^ k[4], s[5] ^ k[5], s[6] ^ k[6], s[7] ^ k[7], s[8] ^ k[8], s[9] ^ k[9], s[10] ^ k[10], s[11] ^ k[11], s[12] ^ k[12], s[13] ^ k[13], s[14] ^ k[14], s[15] ^ k[15]]
  {
    assert AddRoundKey(s, k)[0] == s[0] ^ k[0];
    assert AddRoundKey(s, k)[1] == s[1] ^ k[1];
    assert AddRoundKey(s, k)[2] == s[2] ^ k[2];
    assert AddRoundKey(s, k)[3] == s[3] ^ k[3];
    assert AddRoundKey(s, k)[4] == s[4] ^ k[4];
    assert AddRoundKey(s, k)[5] == s[5] ^ k[5];
    assert AddRoundKey(s, k)[6] == s[6] ^ k[6];
    assert AddRoundKey(s, k)[7] == s[7] ^ k[7];
    assert AddRoundKey(s, k)[8] == s[8] ^ k[8];
    assert AddRoundKey(s, k)[9] == s[9] ^ k[9];
    assert AddRoundKey(s, k)[10] == s[10] ^ k[10];
    assert AddRoundKey(s, k)[11] == s[11] ^ k[11];
    assert AddRoundKey(s, k)[12] == s[12] ^ k[12];
    assert AddRoundKey(s, k)[13] == s[13] ^ k[13];
    assert AddRoundKey(s, k)[14] == s[14] ^ k[14];
    assert AddRoundKey(s, k)[15] == s[15] ^ k[15];
    SixteenCells(AddRoundKey(s, k), s[0] ^ k[0], s[1] ^ k[1], s[2] ^ k[2], s[3] ^ k[3], s[4] ^ k[4], s[5] ^ k[5], s[6] ^ k[6], s[7] ^ k[7], s[8] ^ k[8], s[9] ^ k[9], s[10] ^ k[10], s[11] ^ k[11], s[12] ^ k[12], s[13] ^ k[13], s[14] ^ k[14], s[15] ^ k[15]);
  }

  // ---------------------------------------------------------------------------
  // The AES-128 key schedule, a word and a round key at a time

  /** Word i of the expanded key from words i - 4 and i - 1 (i >= Nk = 4). */
  lemma KeyWordStep(key: seq<bv8>, i: nat)
    requires KeyFits(key, Aes128) && 4 <= i < 44
    ensures KeyWord(key, Aes128, i) == XorWord(KeyWord(key, Aes128, i - 4), ScheduleTemp(KeyWord(key, Aes128, i - 1), i, Aes128))
  {
  }

  /** Word c < Nk of the expanded key is bytes 4c to 4c + 3 of the master key. */
  lemma FirstWord(key: seq<bv8>, c: nat, k0: bv8, k1: bv8, k2: bv8, k3: bv8)
    requires c < 4 && |key| >= 16
    requires key[4 * c] == k0 && key[4 * c + 1] == k1 && key[4 * c + 2] == k2 && key[4 * c + 3] == k3
    ensures KeyWord(key, Aes128, c) == [k0, k1, k2, k3]
  {
    var w := KeyWord(key, Aes128, c);
    assert w == key[4 * c .. 4 * c + 4];
    assert w[0] == k0 && w[1] == k1 && w[2] == k2 && w[3] == k3;
  }

  /** Cell i of round key r: byte i % 4 of word 4r + i / 4. */
  lemma RoundKeyCell(key: seq<bv8>, r: nat, i: nat)
    requires KeyFits(key, Aes128) && r <= 10 && i < 16
    ensures RoundKey(key, Aes128, r)[i] == KeyWord(key, Aes128, 4 * r + i / 4)[i % 4]
  {
  }

  // ---------------------------------------------------------------------------
  // FIPS-197 Appendix C.1

  const AppendixKey: seq<bv8> := [0x00, 0x01, 0x02, 0x03, 0x04, 0x05, 0x06, 0x07, 0x08, 0x09, 0x0A, 0x0B, 0x0C, 0x0D, 0x0E, 0x0F]
  const AppendixPlain: Block := [0x00, 0x11, 0x22, 0x33, 0x44, 0x55, 0x66, 0x77, 0x88, 0x99, 0xAA, 0xBB, 0xCC, 0xDD, 0xEE, 0xFF]

  /** Words 0 to 3 of the expanded key are the master key. */
  lemma AppendixWords0(key: seq<bv8>)
    requires |key| >= 16 && key[..16] == AppendixKey
    ensures KeyWord(key, Aes128, 0) == [0x00, 0x01, 0x02, 0x03]
    ensures KeyWord(key, Aes128, 1) == [0x04, 0x05, 0x06, 0x07]
    ensures KeyWord(key, Aes128, 2) == [0x08, 0x09, 0x0A, 0x0B]
    ensures KeyWord(key, Aes128, 3) == [0x0C, 0x0D, 0x0E, 0x0F]
  {
    assert key[0] == key[..16][0];
    assert key[1] == key[..16][1];
    assert key[2] == key[..16][2];
    assert key[3] == key[..16][3];
    assert key[4] == key[..16][4];
    assert key[5] == key[..16][5];
    assert key[6] == key[..16][6];
    assert key[7] == key[..16][7];
    assert key[8] == key[..16][8];
    assert key[9] == key[..16][9];
    assert key[10] == key[..16][10];
    assert key[11] == key[..16][11];
    assert key[12] == key[..16][12];
    assert key[13] == key[..16][13];
    assert key[14] == key[..16][14];
    assert key[15] == key[..16][15];
    FirstWord(key, 0, 0x00, 0x01, 0x02, 0x03);
    FirstWord(key, 1, 0x04, 0x05, 0x06, 0x07);
    FirstWord(key, 2, 0x08, 0x09, 0x0A, 0x0B);
    FirstWord(key, 3, 0x0C, 0x0D, 0x0E, 0x0F);
  }

  lemma AppendixRoundKey0(key: seq<bv8>)
    requires |key| >= 16 && key[..16] == AppendixKey
    ensures RoundKey(key, Aes128, 0) == [0x00, 0x01, 0x02, 0x03, 0x04, 0x05, 0x06, 0x07, 0x08, 0x09, 0x0A, 0x0B, 0x0C, 0x0D, 0x0E, 0x0F]
  {
    AppendixWords0(key);
    RoundKeyCell(key, 0, 0);
    RoundKeyCell(key, 0, 1);
    RoundKeyCell(key, 0, 2);
    RoundKeyCell(key, 0, 3);
    RoundKeyCell(key, 0, 4);
    RoundKeyCell(key, 0, 5);
    RoundKeyCell(key, 0, 6);
    RoundKeyCell(key, 0, 7);
    RoundKeyCell(key, 0, 8);
    RoundKeyCell(key, 0, 9);
    RoundKeyCell(key, 0, 10);
    RoundKeyCell(key, 0, 11);
    RoundKeyCell(key, 0, 12);
    RoundKeyCell(key, 0, 13);
    RoundKeyCell(key, 0, 14);
    RoundKeyCell(key, 0, 15);
    SixteenCells(RoundKey(key, Aes128, 0), 0x00, 0x01, 0x02, 0x03, 0x04, 0x05, 0x06, 0x07, 0x08, 0x09, 0x0A, 0x0B, 0x0C, 0x0D, 0x0E, 0x0F);
  }

  lemma AppendixAddRoundKey0()
    ensures AddRoundKey(AppendixPlain, [0x00, 0x01, 0x02, 0x03, 0x04, 0x05, 0x06, 0x07, 0x08, 0x09, 0x0A, 0x0B, 0x0C, 0x0D, 0x0E, 0x0F]) == [0x00, 0x10, 0x20, 0x30, 0x40, 0x50, 0x60, 0x70, 0x80, 0x90, 0xA0, 0xB0, 0xC0, 0xD0, 0xE0, 0xF0]
  {
    AddRoundKeyCells(AppendixPlain, [0x00, 0x01, 0x02, 0x03, 0x04, 0x05, 0x06, 0x07, 0x08, 0x09, 0x0A, 0x0B, 0x0C, 0x0D, 0x0E, 0x0F]);
  }

  /** The state at the start of round 1: the plaintext with round key 0 added. */
  lemma AppendixState0(key: seq<bv8>)
    requires |key| >= 16 && key[..16] == AppendixKey
    ensures EncryptRounds(AppendixPlain, RoundKeys(key, Aes128), 0) == [0x00, 0x10, 0x20, 0x30, 0x40, 0x50, 0x60, 0x70, 0x80, 0x90, 0xA0, 0xB0, 0xC0, 0xD0, 0xE0, 0xF0]
  {
    AppendixRoundKey0(key);
    AppendixAddRoundKey0();
  }

  lemma AppendixSchedule1()
    ensures XorWord([0x00, 0x01, 0x02, 0x03], ScheduleTemp([0x0C, 0x0D, 0x0E, 0x0F], 4, Aes128)) == [0xD6, 0xAA, 0x74, 0xFD]
    ensures XorWord([0x04, 0x05, 0x06, 0x07], ScheduleTemp([0xD6, 0xAA, 0x74, 0xFD], 5, Aes128)) == [0xD2, 0xAF, 0x72, 0xFA]
    ensures XorWord([0x08, 0x09, 0x0A, 0x0B], ScheduleTemp([0xD2, 0xAF, 0x72, 0xFA], 6, Aes128)) == [0xDA, 0xA6, 0x78, 0xF1]
    ensures XorWord([0x0C, 0x0D, 0x0E, 0x0F], ScheduleTemp([0xDA, 0xA6, 0x78, 0xF1], 7, Aes128)) == [0xD6, 0xAB, 0x76, 0xFE]
  {
  }

  /** Words 4 to 7 of the expanded key. */
  lemma AppendixWords1(key: seq<bv8>)
    requires |key| >= 16 && key[..16] == AppendixKey
    ensures KeyWord(key, Aes128, 4) == [0xD6, 0xAA, 0x74, 0xFD]
    ensures KeyWord(key, Aes128, 5) == [0xD2, 0xAF, 0x72, 0xFA]
    ensures KeyWord(key, Aes128, 6) == [0xDA, 0xA6, 0x78, 0xF1]
    ensures KeyWord(key, Aes128, 7) == [0xD6, 0xAB, 0x76, 0xFE]
  {
    AppendixWords0(key);
    AppendixSchedule1();
    KeyWordStep(key, 4);
    KeyWordStep(key, 5);
    KeyWordStep(key, 6);
    KeyWordStep(key, 7);
  }

  lemma AppendixRoundKey1(key: seq<bv8>)
    requires |key| >= 16 && key[..16] == AppendixKey
    ensures RoundKey(key, Aes128, 1) == [0xD6, 0xAA, 0x74, 0xFD, 0xD2, 0xAF, 0x72, 0xFA, 0xDA, 0xA6, 0x78, 0xF1, 0xD6, 0xAB, 0x76, 0xFE]
  {
    AppendixWords1(key);
    RoundKeyCell(key, 1, 0);
    RoundKeyCell(key, 1, 1);
    RoundKeyCell(key, 1, 2);
    RoundKeyCell(key, 1, 3);
    RoundKeyCell(key, 1, 4);
    RoundKeyCell(key, 1, 5);
    RoundKeyCell(key, 1, 6);
    RoundKeyCell(key, 1, 7);
    RoundKeyCell(key, 1, 8);
    RoundKeyCell(key, 1, 9);
    RoundKeyCell(key, 1, 10);
    RoundKeyCell(key, 1, 11);
    RoundKeyCell(key, 1, 12);
    RoundKeyCell(key, 1, 13);
    RoundKeyCell(key, 1, 14);
    RoundKeyCell(key, 1, 15);
    SixteenCells(RoundKey(key, Aes128, 1), 0xD6, 0xAA, 0x74, 0xFD, 0xD2, 0xAF, 0x72, 0xFA, 0xDA, 0xA6, 0x78, 0xF1, 0xD6, 0xAB, 0x76, 0xFE);
  }

  lemma AppendixSubBytes1()
    ensures SubBytes([0x00, 0x10, 0x20, 0x30, 0x40, 0x50, 0x60, 0x70, 0x80, 0x90, 0xA0, 0xB0, 0xC0, 0xD0, 0xE0, 0xF0]) == [0x63, 0xCA, 0xB7, 0x04, 0x09, 0x53, 0xD0, 0x51, 0xCD, 0x60, 0xE0, 0xE7, 0xBA, 0x70, 0xE1, 0x8C]
  {
    SubBytesOf(0x00, 0x10, 0x20, 0x30, 0x40, 0x50, 0x60, 0x70, 0x80, 0x90, 0xA0, 0xB0, 0xC0, 0xD0, 0xE0, 0xF0, 0x63, 0xCA, 0xB7, 0x04, 0x09, 0x53, 0xD0, 0x51, 0xCD, 0x60, 0xE0, 0xE7, 0xBA, 0x70, 0xE1, 0x8C);
  }

  lemma AppendixShiftRows1()
    ensures ShiftRows([0x63, 0xCA, 0xB7, 0x04, 0x09, 0x53, 0xD0, 0x51, 0xCD, 0x60, 0xE0, 0xE7, 0xBA, 0x70, 0xE1, 0x8C]) == [0x63, 0x53, 0xE0, 0x8C, 0x09, 0x60, 0xE1, 0x04, 0xCD, 0x70, 0xB7, 0x51, 0xBA, 0xCA, 0xD0, 0xE7]
  {
  }

  lemma AppendixMixColumns1()
    ensures MixColumns([0x63, 0x53, 0xE0, 0x8C, 0x09, 0x60, 0xE1, 0x04, 0xCD, 0x70, 0xB7, 0x51, 0xBA, 0xCA, 0xD0, 0xE7]) == [0x5F, 0x72, 0x64, 0x15, 0x57, 0xF5, 0xBC, 0x92, 0xF7, 0xBE, 0x3B, 0x29, 0x1D, 0xB9, 0xF9, 0x1A]
  {
    MixColumnsCells([0x63, 0x53, 0xE0, 0x8C, 0x09, 0x60, 0xE1, 0x04, 0xCD, 0x70, 0xB7, 0x51, 0xBA, 0xCA, 0xD0, 0xE7]);
  }

  lemma AppendixAddRoundKey1()
    ensures AddRoundKey([0x5F, 0x72, 0x64, 0x15, 0x57, 0xF5, 0xBC, 0x92, 0xF7, 0xBE, 0x3B, 0x29, 0x1D, 0xB9, 0xF9, 0x1A], [0xD6, 0xAA, 0x74, 0xFD, 0xD2, 0xAF, 0x72, 0xFA, 0xDA, 0xA6, 0x78, 0xF1, 0xD6, 0xAB, 0x76, 0xFE]) == [0x89, 0xD8, 0x10, 0xE8, 0x85, 0x5A, 0xCE, 0x68, 0x2D, 0x18, 0x43, 0xD8, 0xCB, 0x12, 0x8F, 0xE4]
  {
    AddRoundKeyCells([0x5F, 0x72, 0x64, 0x15, 0x57, 0xF5, 0xBC, 0x92, 0xF7, 0xBE, 0x3B, 0x29, 0x1D, 0xB9, 0xF9, 0x1A], [0xD6, 0xAA, 0x74, 0xFD, 0xD2, 0xAF, 0x72, 0xFA, 0xDA, 0xA6, 0x78, 0xF1, 0xD6, 0xAB, 0x76, 0xFE]);
  }

  /** The state at the start of round 2. */
  lemma AppendixState1(key: seq<bv8>)
    requires |key| >= 16 && key[..16] == AppendixKey
    ensures EncryptRounds(AppendixPlain, RoundKeys(key, Aes128), 1) == [0x89, 0xD8, 0x10, 0xE8, 0x85, 0x5A, 0xCE, 0x68, 0x2D, 0x18, 0x43, 0xD8, 0xCB, 0x12, 0x8F, 0xE4]
  {
    AppendixState0(key);
    AppendixRoundKey1(key);
    AppendixSubBytes1();
    AppendixShiftRows1();
    AppendixMixColumns1();
    AppendixAddRoundKey1();
  }

  lemma AppendixSchedule2()
    ensures XorWord([0xD6, 0xAA, 0x74, 0xFD], ScheduleTemp([0xD6, 0xAB, 0x76, 0xFE], 8, Aes128)) == [0xB6, 0x92, 0xCF, 0x0B]
    ensures XorWord([0xD2, 0xAF, 0x72, 0xFA], ScheduleTemp([0xB6, 0x92, 0xCF, 0x0B], 9, Aes128)) == [0x64, 0x3D, 0xBD, 0xF1]
    ensures XorWord([0xDA, 0xA6, 0x78, 0xF1], ScheduleTemp([0x64, 0x3D, 0xBD, 0xF1], 10, Aes128)) == [0xBE, 0x9B, 0xC5, 0x00]
    ensures XorWord([0xD6, 0xAB, 0x76, 0xFE], ScheduleTemp([0xBE, 0x9B, 0xC5, 0x00], 11, Aes128)) == [0x68, 0x30, 0xB3, 0xFE]
  {
  }

  /** Words 8 to 11 of the expanded key. */
  lemma AppendixWords2(key: seq<bv8>)
    requires |key| >= 16 && key[..16] == AppendixKey
    ensures KeyWord(key, Aes128, 8) == [0xB6, 0x92, 0xCF, 0x0B]
    ensures KeyWord(key, Aes128, 9) == [0x64, 0x3D, 0xBD, 0xF1]
    ensures KeyWord(key, Aes128, 10) == [0xBE, 0x9B, 0xC5, 0x00]
    ensures KeyWord(key, Aes128, 11) == [0x68, 0x30, 0xB3, 0xFE]
  {
    AppendixWords1(key);
    AppendixSchedule2();
    KeyWordStep(key, 8);
    KeyWordStep(key, 9);
    KeyWordStep(key, 10);
    KeyWordStep(key, 11);
  }

  lemma AppendixRoundKey2(key: seq<bv8>)
    requires |key| >= 16 && key[..16] == AppendixKey
    ensures RoundKey(key, Aes128, 2) == [0xB6, 0x92, 0xCF, 0x0B, 0x64, 0x3D, 0xBD, 0xF1, 0xBE, 0x9B, 0xC5, 0x00, 0x68, 0x30, 0xB3, 0xFE]
  {
    AppendixWords2(key);
    RoundKeyCell(key, 2, 0);
    RoundKeyCell(key, 2, 1);
    RoundKeyCell(key, 2, 2);
    RoundKeyCell(key, 2, 3);
    RoundKeyCell(key, 2, 4);
    RoundKeyCell(key, 2, 5);
    RoundKeyCell(key, 2, 6);
    RoundKeyCell(key, 2, 7);
    RoundKeyCell(key, 2, 8);
    RoundKeyCell(key, 2, 9);
    RoundKeyCell(key, 2, 10);
    RoundKeyCell(key, 2, 11);
    RoundKeyCell(key, 2, 12);
    RoundKeyCell(key, 2, 13);
    RoundKeyCell(key, 2, 14);
    RoundKeyCell(key, 2, 15);
    SixteenCells(RoundKey(key, Aes128, 2), 0xB6, 0x92, 0xCF, 0x0B, 0x64, 0x3D, 0xBD, 0xF1, 0xBE, 0x9B, 0xC5, 0x00, 0x68, 0x30, 0xB3, 0xFE);
  }

  lemma AppendixSubBytes2()
    ensures SubBytes([0x89, 0xD8, 0x10, 0xE8, 0x85, 0x5A, 0xCE, 0x68, 0x2D, 0x18, 0x43, 0xD8, 0xCB, 0x12, 0x8F, 0xE4]) == [0xA7, 0x61, 0xCA, 0x9B, 0x97, 0xBE, 0x8B, 0x45, 0xD8, 0xAD, 0x1A, 0x61, 0x1F, 0xC9, 0x73, 0x69]
  {
    SubBytesOf(0x89, 0xD8, 0x10, 0xE8, 0x85, 0x5A, 0xCE, 0x68, 0x2D, 0x18, 0x43, 0xD8, 0xCB, 0x12, 0x8F, 0xE4, 0xA7, 0x61, 0xCA, 0x9B, 0x97, 0xBE, 0x8B, 0x45, 0xD8, 0xAD, 0x1A, 0x61, 0x1F, 0xC9, 0x73, 0x69);
  }

  lemma AppendixShiftRows2()
    ensures ShiftRows([0xA7, 0x61, 0xCA, 0x9B, 0x97, 0xBE, 0x8B, 0x45, 0xD8, 0xAD, 0x1A, 0x61, 0x1F, 0xC9, 0x73, 0x69]) == [0xA7, 0xBE, 0x1A, 0x69, 0x97, 0xAD, 0x73, 0x9B, 0xD8, 0xC9, 0xCA, 0x45, 0x1F, 0x61, 0x8B, 0x61]
  {
  }

  lemma AppendixMixColumns2()
    ensures MixColumns([0xA7, 0xBE, 0x1A, 0x69, 0x97, 0xAD, 0x73, 0x9B, 0xD8, 0xC9, 0xCA, 0x45, 0x1F, 0x61, 0x8B, 0x61]) == [0xFF, 0x87, 0x96, 0x84, 0x31, 0xD8, 0x6A, 0x51, 0x64, 0x51, 0x51, 0xFA, 0x77, 0x3A, 0xD0, 0x09]
  {
    MixColumnsCells([0xA7, 0xBE, 0x1A, 0x69, 0x97, 0xAD, 0x73, 0x9B, 0xD8, 0xC9, 0xCA, 0x45, 0x1F, 0x61, 0x8B, 0x61]);
  }

  lemma AppendixAddRoundKey2()
    ensures AddRoundKey([0xFF, 0x87, 0x96, 0x84, 0x31, 0xD8, 0x6A, 0x51, 0x64, 0x51, 0x51, 0xFA, 0x77, 0x3A, 0xD0, 0x09], [0xB6, 0x92, 0xCF, 0x0B, 0x64, 0x3D, 0xBD, 0xF1, 0xBE, 0x9B, 0xC5, 0x00, 0x68, 0x30, 0xB3, 0xFE]) == [0x49, 0x15, 0x59, 0x8F, 0x55, 0xE5, 0xD7, 0xA0, 0xDA, 0xCA, 0x94, 0xFA, 0x1F, 0x0A, 0x63, 0xF7]
  {
    AddRoundKeyCells([0xFF, 0x87, 0x96, 0x84, 0x31, 0xD8, 0x6A, 0x51, 0x64, 0x51, 0x51, 0xFA, 0x77, 0x3A, 0xD0, 0x09], [0xB6, 0x92, 0xCF, 0x0B, 0x64, 0x3D, 0xBD, 0xF1, 0xBE, 0x9B, 0xC5, 0x00, 0x68, 0x30, 0xB3, 0xFE]);
  }

  /** The state at the start of round 3. */
  lemma AppendixState2(key: seq<bv8>)
    requires |key| >= 16 && key[..16] == AppendixKey
    ensures EncryptRounds(AppendixPlain, RoundKeys(key, Aes128), 2) == [0x49, 0x15, 0x59, 0x8F, 0x55, 0xE5, 0xD7, 0xA0, 0xDA, 0xCA, 0x94, 0xFA, 0x1F, 0x0A, 0x63, 0xF7]
  {
    AppendixState1(key);
    AppendixRoundKey2(key);
    AppendixSubBytes2();
    AppendixShiftRows2();
    AppendixMixColumns2();
    AppendixAddRoundKey2();
  }

  lemma AppendixSchedule3()
    ensures XorWord([0xB6, 0x92, 0xCF, 0x0B], ScheduleTemp([0x68, 0x30, 0xB3, 0xFE], 12, Aes128)) == [0xB6, 0xFF, 0x74, 0x4E]
    ensures XorWord([0x64, 0x3D, 0xBD, 0xF1], ScheduleTemp([0xB6, 0xFF, 0x74, 0x4E], 13, Aes128)) == [0xD2, 0xC2, 0xC9, 0xBF]
    ensures XorWord([0xBE, 0x9B, 0xC5, 0x00], ScheduleTemp([0xD2, 0xC2, 0xC9, 0xBF], 14, Aes128)) == [0x6C, 0x59, 0x0C, 0xBF]
    ensures XorWord([0x68, 0x30, 0xB3, 0xFE], ScheduleTemp([0x6C, 0x59, 0x0C, 0xBF], 15, Aes128)) == [0x04, 0x69, 0xBF, 0x41]
  {
  }

  /** Words 12 to 15 of the expanded key. */
  lemma AppendixWords3(key: seq<bv8>)
    requires |key| >= 16 && key[..16] == AppendixKey
    ensures KeyWord(key, Aes128, 12) == [0xB6, 0xFF, 0x74, 0x4E]
    ensures KeyWord(key, Aes128, 13) == [0xD2, 0xC2, 0xC9, 0xBF]
    ensures KeyWord(key, Aes128, 14) == [0x6C, 0x59, 0x0C, 0xBF]
    ensures KeyWord(key, Aes128, 15) == [0x04, 0x69, 0xBF, 0x41]
  {
    AppendixWords2(key);
    AppendixSchedule3();
    KeyWordStep(key, 12);
    KeyWordStep(key, 13);
    KeyWordStep(key, 14);
    KeyWordStep(key, 15);
  }

  lemma AppendixRoundKey3(key: seq<bv8>)
    requires |key| >= 16 && key[..16] == AppendixKey
    ensures RoundKey(key, Aes128, 3) == [0xB6, 0xFF, 0x74, 0x4E, 0xD2, 0xC2, 0xC9, 0xBF, 0x6C, 0x59, 0x0C, 0xBF, 0x04, 0x69, 0xBF, 0x41]
  {
    AppendixWords3(key);
    RoundKeyCell(key, 3, 0);
    RoundKeyCell(key, 3, 1);
    RoundKeyCell(key, 3, 2);
    RoundKeyCell(key, 3, 3);
    RoundKeyCell(key, 3, 4);
    RoundKeyCell(key, 3, 5);
    RoundKeyCell(key, 3, 6);
    RoundKeyCell(key, 3, 7);
    RoundKeyCell(key, 3, 8);
    RoundKeyCell(key, 3, 9);
    RoundKeyCell(key, 3, 10);
    RoundKeyCell(key, 3, 11);
    RoundKeyCell(key, 3, 12);
    RoundKeyCell(key, 3, 13);
    RoundKeyCell(key, 3, 14);
    RoundKeyCell(key, 3, 15);
    SixteenCells(RoundKey(key, Aes128, 3), 0xB6, 0xFF, 0x74, 0x4E, 0xD2, 0xC2, 0xC9, 0xBF, 0x6C, 0x59, 0x0C, 0xBF, 0x04, 0x69, 0xBF, 0x41);
  }

  lemma AppendixSubBytes3()
    ensures SubBytes([0x49, 0x15, 0x59, 0x8F, 0x55, 0xE5, 0xD7, 0xA0, 0xDA, 0xCA, 0x94, 0xFA, 0x1F, 0x0A, 0x63, 0xF7]) == [0x3B, 0x59, 0xCB, 0x73, 0xFC, 0xD9, 0x0E, 0xE0, 0x57, 0x74, 0x22, 0x2D, 0xC0, 0x67, 0xFB, 0x68]
  {
    SubBytesOf(0x49, 0x15, 0x59, 0x8F, 0x55, 0xE5, 0xD7, 0xA0, 0xDA, 0xCA, 0x94, 0xFA, 0x1F, 0x0A, 0x63, 0xF7, 0x3B, 0x59, 0xCB, 0x73, 0xFC, 0xD9, 0x0E, 0xE0, 0x57, 0x74, 0x22, 0x2D, 0xC0, 0x67, 0xFB, 0x68);
  }

  lemma AppendixShiftRows3()
    ensures ShiftRows([0x3B, 0x59, 0xCB, 0x73, 0xFC, 0xD9, 0x0E, 0xE0, 0x57, 0x74, 0x22, 0x2D, 0xC0, 0x67, 0xFB, 0x68]) == [0x3B, 0xD9, 0x22, 0x68, 0xFC, 0x74, 0xFB, 0x73, 0x57, 0x67, 0xCB, 0xE0, 0xC0, 0x59, 0x0E, 0x2D]
  {
  }

  lemma AppendixMixColumns3()
    ensures MixColumns([0x3B, 0xD9, 0x22, 0x68, 0xFC, 0x74, 0xFB, 0x73, 0x57, 0x67, 0xCB, 0xE0, 0xC0, 0x59, 0x0E, 0x2D]) == [0x4C, 0x9C, 0x1E, 0x66, 0xF7, 0x71, 0xF0, 0x76, 0x2C, 0x3F, 0x86, 0x8E, 0x53, 0x4D, 0xF2, 0x56]
  {
    MixColumnsCells([0x3B, 0xD9, 0x22, 0x68, 0xFC, 0x74, 0xFB, 0x73, 0x57, 0x67, 0xCB, 0xE0, 0xC0, 0x59, 0x0E, 0x2D]);
  }

  lemma AppendixAddRoundKey3()
    ensures AddRoundKey([0x4C, 0x9C, 0x1E, 0x66, 0xF7, 0x71, 0xF0, 0x76, 0x2C, 0x3F, 0x86, 0x8E, 0x53, 0x4D, 0xF2, 0x56], [0xB6, 0xFF, 0x74, 0x4E, 0xD2, 0xC2, 0xC9, 0xBF, 0x6C, 0x59, 0x0C, 0xBF, 0x04, 0x69, 0xBF, 0x41]) == [0xFA, 0x63, 0x6A, 0x28, 0x25, 0xB3, 0x39, 0xC9, 0x40, 0x66, 0x8A, 0x31, 0x57, 0x24, 0x4D, 0x17]
  {
    AddRoundKeyCells([0x4C, 0x9C, 0x1E, 0x66, 0xF7, 0x71, 0xF0, 0x76, 0x2C, 0x3F, 0x86, 0x8E, 0x53, 0x4D, 0xF2, 0x56], [0xB6, 0xFF, 0x74, 0x4E, 0xD2, 0xC2, 0xC9, 0xBF, 0x6C, 0x59, 0x0C, 0xBF, 0x04, 0x69, 0xBF, 0x41]);
  }

  /** The state at the start of round 4. */
  lemma AppendixState3(key: seq<bv8>)
    requires |key| >= 16 && key[..16] == AppendixKey
    ensures EncryptRounds(AppendixPlain, RoundKeys(key, Aes128), 3) == [0xFA, 0x63, 0x6A, 0x28, 0x25, 0xB3, 0x39, 0xC9, 0x40, 0x66, 0x8A, 0x31, 0x57, 0x24, 0x4D, 0x17]
  {
    AppendixState2(key);
    AppendixRoundKey3(key);
    AppendixSubBytes3();
    AppendixShiftRows3();
    AppendixMixColumns3();
    AppendixAddRoundKey3();
  }

  lemma AppendixSchedule4()
    ensures XorWord([0xB6, 0xFF, 0x74, 0x4E], ScheduleTemp([0x04, 0x69, 0xBF, 0x41], 16, Aes128)) == [0x47, 0xF7, 0xF7, 0xBC]
    ensures XorWord([0xD2, 0xC2, 0xC9, 0xBF], ScheduleTemp([0x47, 0xF7, 0xF7, 0xBC], 17, Aes128)) == [0x95, 0x35, 0x3E, 0x03]
    ensures XorWord([0x6C, 0x59, 0x0C, 0xBF], ScheduleTemp([0x95, 0x35, 0x3E, 0x03], 18, Aes128)) == [0xF9, 0x6C, 0x32, 0xBC]
    ensures XorWord([0x04, 0x69, 0xBF, 0x41], ScheduleTemp([0xF9, 0x6C, 0x32, 0xBC], 19, Aes128)) == [0xFD, 0x05, 0x8D, 0xFD]
  {
  }

  /** Words 16 to 19 of the expanded key. */
  lemma AppendixWords4(key: seq<bv8>)
    requires |key| >= 16 && key[..16] == AppendixKey
    ensures KeyWord(key, Aes128, 16) == [0x47, 0xF7, 0xF7, 0xBC]
    ensures KeyWord(key, Aes128, 17) == [0x95, 0x35, 0x3E, 0x03]
    ensures KeyWord(key, Aes128, 18) == [0xF9, 0x6C, 0x32, 0xBC]
    ensures KeyWord(key, Aes128, 19) == [0xFD, 0x05, 0x8D, 0xFD]
  {
    AppendixWords3(key);
    AppendixSchedule4();
    KeyWordStep(key, 16);
    KeyWordStep(key, 17);
    KeyWordStep(key, 18);
    KeyWordStep(key, 19);
  }

  lemma AppendixRoundKey4(key: seq<bv8>)
    requires |key| >= 16 && key[..16] == AppendixKey
    ensures RoundKey(key, Aes128, 4) == [0x47, 0xF7, 0xF7, 0xBC, 0x95, 0x35, 0x3E, 0x03, 0xF9, 0x6C, 0x32, 0xBC, 0xFD, 0x05, 0x8D, 0xFD]
  {
    AppendixWords4(key);
    RoundKeyCell(key, 4, 0);
    RoundKeyCell(key, 4, 1);
    RoundKeyCell(key, 4, 2);
    RoundKeyCell(key, 4, 3);
    RoundKeyCell(key, 4, 4);
    RoundKeyCell(key, 4, 5);
    RoundKeyCell(key, 4, 6);
    RoundKeyCell(key, 4, 7);
    RoundKeyCell(key, 4, 8);
    RoundKeyCell(key, 4, 9);
    RoundKeyCell(key, 4, 10);
    RoundKeyCell(key, 4, 11);
    RoundKeyCell(key, 4, 12);
    RoundKeyCell(key, 4, 13);
    RoundKeyCell(key, 4, 14);
    RoundKeyCell(key, 4, 15);
    SixteenCells(RoundKey(key, Aes128, 4), 0x47, 0xF7, 0xF7, 0xBC, 0x95, 0x35, 0x3E, 0x03, 0xF9, 0x6C, 0x32, 0xBC, 0xFD, 0x05, 0x8D, 0xFD);
  }

  lemma AppendixSubBytes4()
    ensures SubBytes([0xFA, 0x63, 0x6A, 0x28, 0x25, 0xB3, 0x39, 0xC9, 0x40, 0x66, 0x8A, 0x31, 0x57, 0x24, 0x4D, 0x17]) == [0x2D, 0xFB, 0x02, 0x34, 0x3F, 0x6D, 0x12, 0xDD, 0x09, 0x33, 0x7E, 0xC7, 0x5B, 0x36, 0xE3, 0xF0]
  {
    SubBytesOf(0xFA, 0x63, 0x6A, 0x28, 0x25, 0xB3, 0x39, 0xC9, 0x40, 0x66, 0x8A, 0x31, 0x57, 0x24, 0x4D, 0x17, 0x2D, 0xFB, 0x02, 0x34, 0x3F, 0x6D, 0x12, 0xDD, 0x09, 0x33, 0x7E, 0xC7, 0x5B, 0x36, 0xE3, 0xF0);
  }

  lemma AppendixShiftRows4()
    ensures ShiftRows([0x2D, 0xFB, 0x02, 0x34, 0x3F, 0x6D, 0x12, 0xDD, 0x09, 0x33, 0x7E, 0xC7, 0x5B, 0x36, 0xE3, 0xF0]) == [0x2D, 0x6D, 0x7E, 0xF0, 0x3F, 0x33, 0xE3, 0x34, 0x09, 0x36, 0x02, 0xDD, 0x5B, 0xFB, 0x12, 0xC7]
  {
  }

  lemma AppendixMixColumns4()
    ensures MixColumns([0x2D, 0x6D, 0x7E, 0xF0, 0x3F, 0x33, 0xE3, 0x34, 0x09, 0x36, 0x02, 0xDD, 0x5B, 0xFB, 0x12, 0xC7]) == [0x63, 0x85, 0xB7, 0x9F, 0xFC, 0x53, 0x8D, 0xF9, 0x97, 0xBE, 0x47, 0x8E, 0x75, 0x47, 0xD6, 0x91]
  {
    MixColumnsCells([0x2D, 0x6D, 0x7E, 0xF0, 0x3F, 0x33, 0xE3, 0x34, 0x09, 0x36, 0x02, 0xDD, 0x5B, 0xFB, 0x12, 0xC7]);
  }

  lemma AppendixAddRoundKey4()
    ensures AddRoundKey([0x63, 0x85, 0xB7, 0x9F, 0xFC, 0x53, 0x8D, 0xF9, 0x97, 0xBE, 0x47, 0x8E, 0x75, 0x47, 0xD6, 0x91], [0x47, 0xF7, 0xF7, 0xBC, 0x95, 0x35, 0x3E, 0x03, 0xF9, 0x6C, 0x32, 0xBC, 0xFD, 0x05, 0x8D, 0xFD]) == [0x24, 0x72, 0x40, 0x23, 0x69, 0x66, 0xB3, 0xFA, 0x6E, 0xD2, 0x75, 0x32, 0x88, 0x42, 0x5B, 0x6C]
  {
    AddRoundKeyCells([0x63, 0x85, 0xB7, 0x9F, 0xFC, 0x53, 0x8D, 0xF9, 0x97, 0xBE, 0x47, 0x8E, 0x75, 0x47, 0xD6, 0x91], [0x47, 0xF7, 0xF7, 0xBC, 0x95, 0x35, 0x3E, 0x03, 0xF9, 0x6C, 0x32, 0xBC, 0xFD, 0x05, 0x8D, 0xFD]);
  }

  /** The state at the start of round 5. */
  lemma AppendixState4(key: seq<bv8>)
    requires |key| >= 16 && key[..16] == AppendixKey
    ensures EncryptRounds(AppendixPlain, RoundKeys(key, Aes128), 4) == [0x24, 0x72, 0x40, 0x23, 0x69, 0x66, 0xB3, 0xFA, 0x6E, 0xD2, 0x75, 0x32, 0x88, 0x42, 0x5B, 0x6C]
  {
    AppendixState3(key);
    AppendixRoundKey4(key);
    AppendixSubBytes4();
    AppendixShiftRows4();
    AppendixMixColumns4();
    AppendixAddRoundKey4();
  }

  lemma AppendixSchedule5()
    ensures XorWord([0x47, 0xF7, 0xF7, 0xBC], ScheduleTemp([0xFD, 0x05, 0x8D, 0xFD], 20, Aes128)) == [0x3C, 0xAA, 0xA3, 0xE8]
    ensures XorWord([0x95, 0x35, 0x3E, 0x03], ScheduleTemp([0x3C, 0xAA, 0xA3, 0xE8], 21, Aes128)) == [0xA9, 0x9F, 0x9D, 0xEB]
    ensures XorWord([0xF9, 0x6C, 0x32, 0xBC], ScheduleTemp([0xA9, 0x9F, 0x9D, 0xEB], 22, Aes128)) == [0x50, 0xF3, 0xAF, 0x57]
    ensures XorWord([0xFD, 0x05, 0x8D, 0xFD], ScheduleTemp([0x50, 0xF3, 0xAF, 0x57], 23, Aes128)) == [0xAD, 0xF6, 0x22, 0xAA]
  {
  }

  /** Words 20 to 23 of the expanded key. */
  lemma AppendixWords5(key: seq<bv8>)
    requires |key| >= 16 && key[..16] == AppendixKey
    ensures KeyWord(key, Aes128, 20) == [0x3C, 0xAA, 0xA3, 0xE8]
    ensures KeyWord(key, Aes128, 21) == [0xA9, 0x9F, 0x9D, 0xEB]
    ensures KeyWord(key, Aes128, 22) == [0x50, 0xF3, 0xAF, 0x57]
    ensures KeyWord(key, Aes128, 23) == [0xAD, 0xF6, 0x22, 0xAA]
  {
    AppendixWords4(key);
    AppendixSchedule5();
    KeyWordStep(key, 20);
    KeyWordStep(key, 21);
    KeyWordStep(key, 22);
    KeyWordStep(key, 23);
  }

  lemma AppendixRoundKey5(key: seq<bv8>)
    requires |key| >= 16 && key[..16] == AppendixKey
    ensures RoundKey(key, Aes128, 5) == [0x3C, 0xAA, 0xA3, 0xE8, 0xA9, 0x9F, 0x9D, 0xEB, 0x50, 0xF3, 0xAF, 0x57, 0xAD, 0xF6, 0x22, 0xAA]
  {
    AppendixWords5(key);
    RoundKeyCell(key, 5, 0);
    RoundKeyCell(key, 5, 1);
    RoundKeyCell(key, 5, 2);
    RoundKeyCell(key, 5, 3);
    RoundKeyCell(key, 5, 4);
    RoundKeyCell(key, 5, 5);
    RoundKeyCell(key, 5, 6);
    RoundKeyCell(key, 5, 7);
    RoundKeyCell(key, 5, 8);
    RoundKeyCell(key, 5, 9);
    RoundKeyCell(key, 5, 10);
    RoundKeyCell(key, 5, 11);
    RoundKeyCell(key, 5, 12);
    RoundKeyCell(key, 5, 13);
    RoundKeyCell(key, 5, 14);
    RoundKeyCell(key, 5, 15);
    SixteenCells(RoundKey(key, Aes128, 5), 0x3C, 0xAA, 0xA3, 0xE8, 0xA9, 0x9F, 0x9D, 0xEB, 0x50, 0xF3, 0xAF, 0x57, 0xAD, 0xF6, 0x22, 0xAA);
  }

  lemma AppendixSubBytes5()
    ensures SubBytes([0x24, 0x72, 0x40, 0x23, 0x69, 0x66, 0xB3, 0xFA, 0x6E, 0xD2, 0x75, 0x32, 0x88, 0x42, 0x5B, 0x6C]) == [0x36, 0x40, 0x09, 0x26, 0xF9, 0x33, 0x6D, 0x2D, 0x9F, 0xB5, 0x9D, 0x23, 0xC4, 0x2C, 0x39, 0x50]
  {
    SubBytesOf(0x24, 0x72, 0x40, 0x23, 0x69, 0x66, 0xB3, 0xFA, 0x6E, 0xD2, 0x75, 0x32, 0x88, 0x42, 0x5B, 0x6C, 0x36, 0x40, 0x09, 0x26, 0xF9, 0x33, 0x6D, 0x2D, 0x9F, 0xB5, 0x9D, 0x23, 0xC4, 0x2C, 0x39, 0x50);
  }

  lemma AppendixShiftRows5()
    ensures ShiftRows([0x36, 0x40, 0x09, 0x26, 0xF9, 0x33, 0x6D, 0x2D, 0x9F, 0xB5, 0x9D, 0x23, 0xC4, 0x2C, 0x39, 0x50]) == [0x36, 0x33, 0x9D, 0x50, 0xF9, 0xB5, 0x39, 0x26, 0x9F, 0x2C, 0x09, 0x2D, 0xC4, 0x40, 0x6D, 0x23]
  {
  }

  lemma AppendixMixColumns5()
    ensures MixColumns([0x36, 0x33, 0x9D, 0x50, 0xF9, 0xB5, 0x39, 0x26, 0x9F, 0x2C, 0x09, 0x2D, 0xC4, 0x40, 0x6D, 0x23]) == [0xF4, 0xBC, 0xD4, 0x54, 0x32, 0xE5, 0x54, 0xD0, 0x75, 0xF1, 0xD6, 0xC5, 0x1D, 0xD0, 0x3B, 0x3C]
  {
    MixColumnsCells([0x36, 0x33, 0x9D, 0x50, 0xF9, 0xB5, 0x39, 0x26, 0x9F, 0x2C, 0x09, 0x2D, 0xC4, 0x40, 0x6D, 0x23]);
  }

  lemma AppendixAddRoundKey5()
    ensures AddRoundKey([0xF4, 0xBC, 0xD4, 0x54, 0x32, 0xE5, 0x54, 0xD0, 0x75, 0xF1, 0xD6, 0xC5, 0x1D, 0xD0, 0x3B, 0x3C], [0x3C, 0xAA, 0xA3, 0xE8, 0xA9, 0x9F, 0x9D, 0xEB, 0x50, 0xF3, 0xAF, 0x57, 0xAD, 0xF6, 0x22, 0xAA]) == [0xC8, 0x16, 0x77, 0xBC, 0x9B, 0x7A, 0xC9, 0x3B, 0x25, 0x02, 0x79, 0x92, 0xB0, 0x26, 0x19, 0x96]
  {
    AddRoundKeyCells([0xF4, 0xBC, 0xD4, 0x54, 0x32, 0xE5, 0x54, 0xD0, 0x75, 0xF1, 0xD6, 0xC5, 0x1D, 0xD0, 0x3B, 0x3C], [0x3C, 0xAA, 0xA3, 0xE8, 0xA9, 0x9F, 0x9D, 0xEB, 0x50, 0xF3, 0xAF, 0x57, 0xAD, 0xF6, 0x22, 0xAA]);
  }

  /** The state at the start of round 6. */
  lemma AppendixState5(key: seq<bv8>)
    requires |key| >= 16 && key[..16] == AppendixKey
    ensures EncryptRounds(AppendixPlain, RoundKeys(key, Aes128), 5) == [0xC8, 0x16, 0x77, 0xBC, 0x9B, 0x7A, 0xC9, 0x3B, 0x25, 0x02, 0x79, 0x92, 0xB0, 0x26, 0x19, 0x96]
  {
    AppendixState4(key);
    AppendixRoundKey5(key);
    AppendixSubBytes5();
    AppendixShiftRows5();
    AppendixMixColumns5();
    AppendixAddRoundKey5();
  }

  lemma AppendixSchedule6()
    ensures XorWord([0x3C, 0xAA, 0xA3, 0xE8], ScheduleTemp([0xAD, 0xF6, 0x22, 0xAA], 24, Aes128)) == [0x5E, 0x39, 0x0F, 0x7D]
    ensures XorWord([0xA9, 0x9F, 0x9D, 0xEB], ScheduleTemp([0x5E, 0x39, 0x0F, 0x7D], 25, Aes128)) == [0xF7, 0xA6, 0x92, 0x96]
    ensures XorWord([0x50, 0xF3, 0xAF, 0x57], ScheduleTemp([0xF7, 0xA6, 0x92, 0x96], 26, Aes128)) == [0xA7, 0x55, 0x3D, 0xC1]
    ensures XorWord([0xAD, 0xF6, 0x22, 0xAA], ScheduleTemp([0xA7, 0x55, 0x3D, 0xC1], 27, Aes128)) == [0x0A, 0xA3, 0x1F, 0x6B]
  {
  }

  /** Words 24 to 27 of the expanded key. */
  lemma AppendixWords6(key: seq<bv8>)
    requires |key| >= 16 && key[..16] == AppendixKey
    ensures KeyWord(key, Aes128, 24) == [0x5E, 0x39, 0x0F, 0x7D]
    ensures KeyWord(key, Aes128, 25) == [0xF7, 0xA6, 0x92, 0x96]
    ensures KeyWord(key, Aes128, 26) == [0xA7, 0x55, 0x3D, 0xC1]
    ensures KeyWord(key, Aes128, 27) == [0x0A, 0xA3, 0x1F, 0x6B]
  {
    AppendixWords5(key);
    AppendixSchedule6();
    KeyWordStep(key, 24);
    KeyWordStep(key, 25);
    KeyWordStep(key, 26);
    KeyWordStep(key, 27);
  }

  lemma AppendixRoundKey6(key: seq<bv8>)
    requires |key| >= 16 && key[..16] == AppendixKey
    ensures RoundKey(key, Aes128, 6) == [0x5E, 0x39, 0x0F, 0x7D, 0xF7, 0xA6, 0x92, 0x96, 0xA7, 0x55, 0x3D, 0xC1, 0x0A, 0xA3, 0x1F, 0x6B]
  {
    AppendixWords6(key);
    RoundKeyCell(key, 6, 0);
    RoundKeyCell(key, 6, 1);
    RoundKeyCell(key, 6, 2);
    RoundKeyCell(key, 6, 3);
    RoundKeyCell(key, 6, 4);
    RoundKeyCell(key, 6, 5);
    RoundKeyCell(key, 6, 6);
    RoundKeyCell(key, 6, 7);
    RoundKeyCell(key, 6, 8);
    RoundKeyCell(key, 6, 9);
    RoundKeyCell(key, 6, 10);
    RoundKeyCell(key, 6, 11);
    RoundKeyCell(key, 6, 12);
    RoundKeyCell(key, 6, 13);
    RoundKeyCell(key, 6, 14);
    RoundKeyCell(key, 6, 15);
    SixteenCells(RoundKey(key, Aes128, 6), 0x5E, 0x39, 0x0F, 0x7D, 0xF7, 0xA6, 0x92, 0x96, 0xA7, 0x55, 0x3D, 0xC1, 0x0A, 0xA3, 0x1F, 0x6B);
  }

  lemma AppendixSubBytes6()
    ensures SubBytes([0xC8, 0x16, 0x77, 0xBC, 0x9B, 0x7A, 0xC9, 0x3B, 0x25, 0x02, 0x79, 0x92, 0xB0, 0x26, 0x19, 0x96]) == [0xE8, 0x47, 0xF5, 0x65, 0x14, 0xDA, 0xDD, 0xE2, 0x3F, 0x77, 0xB6, 0x4F, 0xE7, 0xF7, 0xD4, 0x90]
  {
    SubBytesOf(0xC8, 0x16, 0x77, 0xBC, 0x9B, 0x7A, 0xC9, 0x3B, 0x25, 0x02, 0x79, 0x92, 0xB0, 0x26, 0x19, 0x96, 0xE8, 0x47, 0xF5, 0x65, 0x14, 0xDA, 0xDD, 0xE2, 0x3F, 0x77, 0xB6, 0x4F, 0xE7, 0xF7, 0xD4, 0x90);
  }

  lemma AppendixShiftRows6()
    ensures ShiftRows([0xE8, 0x47, 0xF5, 0x65, 0x14, 0xDA, 0xDD, 0xE2, 0x3F, 0x77, 0xB6, 0x4F, 0xE7, 0xF7, 0xD4, 0x90]) == [0xE8, 0xDA, 0xB6, 0x90, 0x14, 0x77, 0xD4, 0x65, 0x3F, 0xF7, 0xF5, 0xE2, 0xE7, 0x47, 0xDD, 0x4F]
  {
  }

  lemma AppendixMixColumns6()
    ensures MixColumns([0xE8, 0xDA, 0xB6, 0x90, 0x14, 0x77, 0xD4, 0x65, 0x3F, 0xF7, 0xF5, 0xE2, 0xE7, 0x47, 0xDD, 0x4F]) == [0x98, 0x16, 0xEE, 0x74, 0x00, 0xF8, 0x7F, 0x55, 0x6B, 0x2C, 0x04, 0x9C, 0x8E, 0x5A, 0xD0, 0x36]
  {
    MixColumnsCells([0xE8, 0xDA, 0xB6, 0x90, 0x14, 0x77, 0xD4, 0x65, 0x3F, 0xF7, 0xF5, 0xE2, 0xE7, 0x47, 0xDD, 0x4F]);
  }

  lemma AppendixAddRoundKey6()
    ensures AddRoundKey([0x98, 0x16, 0xEE, 0x74, 0x00, 0xF8, 0x7F, 0x55, 0x6B, 0x2C, 0x04, 0x9C, 0x8E, 0x5A, 0xD0, 0x36], [0x5E, 0x39, 0x0F, 0x7D, 0xF7, 0xA6, 0x92, 0x96, 0xA7, 0x55, 0x3D, 0xC1, 0x0A, 0xA3, 0x1F, 0x6B]) == [0xC6, 0x2F, 0xE1, 0x09, 0xF7, 0x5E, 0xED, 0xC3, 0xCC, 0x79, 0x39, 0x5D, 0x84, 0xF9, 0xCF, 0x5D]
  {
    AddRoundKeyCells([0x98, 0x16, 0xEE, 0x74, 0x00, 0xF8, 0x7F, 0x55, 0x6B, 0x2C, 0x04, 0x9C, 0x8E, 0x5A, 0xD0, 0x36], [0x5E, 0x39, 0x0F, 0x7D, 0xF7, 0xA6, 0x92, 0x96, 0xA7, 0x55, 0x3D, 0xC1, 0x0A, 0xA3, 0x1F, 0x6B]);
  }

  /** The state at the start of round 7. */
  lemma AppendixState6(key: seq<bv8>)
    requires |key| >= 16 && key[..16] == AppendixKey
    ensures EncryptRounds(AppendixPlain, RoundKeys(key, Aes128), 6) == [0xC6, 0x2F, 0xE1, 0x09, 0xF7, 0x5E, 0xED, 0xC3, 0xCC, 0x79, 0x39, 0x5D, 0x84, 0xF9, 0xCF, 0x5D]
  {
    AppendixState5(key);
    AppendixRoundKey6(key);
    AppendixSubBytes6();
    AppendixShiftRows6();
    AppendixMixColumns6();
    AppendixAddRoundKey6();
  }

  lemma AppendixSchedule7()
    ensures XorWord([0x5E, 0x39, 0x0F, 0x7D], ScheduleTemp([0x0A, 0xA3, 0x1F, 0x6B], 28, Aes128)) == [0x14, 0xF9, 0x70, 0x1A]
    ensures XorWord([0xF7, 0xA6, 0x92, 0x96], ScheduleTemp([0x14, 0xF9, 0x70, 0x1A], 29, Aes128)) == [0xE3, 0x5F, 0xE2, 0x8C]
    ensures XorWord([0xA7, 0x55, 0x3D, 0xC1], ScheduleTemp([0xE3, 0x5F, 0xE2, 0x8C], 30, Aes128)) == [0x44, 0x0A, 0xDF, 0x4D]
    ensures XorWord([0x0A, 0xA3, 0x1F, 0x6B], ScheduleTemp([0x44, 0x0A, 0xDF, 0x4D], 31, Aes128)) == [0x4E, 0xA9, 0xC0, 0x26]
  {
  }

  /** Words 28 to 31 of the expanded key. */
  lemma AppendixWords7(key: seq<bv8>)
    requires |key| >= 16 && key[..16] == AppendixKey
    ensures KeyWord(key, Aes128, 28) == [0x14, 0xF9, 0x70, 0x1A]
    ensures KeyWord(key, Aes128, 29) == [0xE3, 0x5F, 0xE2, 0x8C]
    ensures KeyWord(key, Aes128, 30) == [0x44, 0x0A, 0xDF, 0x4D]
    ensures KeyWord(key, Aes128, 31) == [0x4E, 0xA9, 0xC0, 0x26]
  {
    AppendixWords6(key);
    AppendixSchedule7();
    KeyWordStep(key, 28);
    KeyWordStep(key, 29);
    KeyWordStep(key, 30);
    KeyWordStep(key, 31);
  }

  lemma AppendixRoundKey7(key: seq<bv8>)
    requires |key| >= 16 && key[..16] == AppendixKey
    ensures RoundKey(key, Aes128, 7) == [0x14, 0xF9, 0x70, 0x1A, 0xE3, 0x5F, 0xE2, 0x8C, 0x44, 0x0A, 0xDF, 0x4D, 0x4E, 0xA9, 0xC0, 0x26]
  {
    AppendixWords7(key);
    RoundKeyCell(key, 7, 0);
    RoundKeyCell(key, 7, 1);
    RoundKeyCell(key, 7, 2);
    RoundKeyCell(key, 7, 3);
    RoundKeyCell(key, 7, 4);
    RoundKeyCell(key, 7, 5);
    RoundKeyCell(key, 7, 6);
    RoundKeyCell(key, 7, 7);
    RoundKeyCell(key, 7, 8);
    RoundKeyCell(key, 7, 9);
    RoundKeyCell(key, 7, 10);
    RoundKeyCell(key, 7, 11);
    RoundKeyCell(key, 7, 12);
    RoundKeyCell(key, 7, 13);
    RoundKeyCell(key, 7, 14);
    RoundKeyCell(key, 7, 15);
    SixteenCells(RoundKey(key, Aes128, 7), 0x14, 0xF9, 0x70, 0x1A, 0xE3, 0x5F, 0xE2, 0x8C, 0x44, 0x0A, 0xDF, 0x4D, 0x4E, 0xA9, 0xC0, 0x26);
  }

  lemma AppendixSubBytes7()
    ensures SubBytes([0xC6, 0x2F, 0xE1, 0x09, 0xF7, 0x5E, 0xED, 0xC3, 0xCC, 0x79, 0x39, 0x5D, 0x84, 0xF9, 0xCF, 0x5D]) == [0xB4, 0x15, 0xF8, 0x01, 0x68, 0x58, 0x55, 0x2E, 0x4B, 0xB6, 0x12, 0x4C, 0x5F, 0x99, 0x8A, 0x4C]
  {
    SubBytesOf(0xC6, 0x2F, 0xE1, 0x09, 0xF7, 0x5E, 0xED, 0xC3, 0xCC, 0x79, 0x39, 0x5D, 0x84, 0xF9, 0xCF, 0x5D, 0xB4, 0x15, 0xF8, 0x01, 0x68, 0x58, 0x55, 0x2E, 0x4B, 0xB6, 0x12, 0x4C, 0x5F, 0x99, 0x8A, 0x4C);
  }

  lemma AppendixShiftRows7()
    ensures ShiftRows([0xB4, 0x15, 0xF8, 0x01, 0x68, 0x58, 0x55, 0x2E, 0x4B, 0xB6, 0x12, 0x4C, 0x5F, 0x99, 0x8A, 0x4C]) == [0xB4, 0x58, 0x12, 0x4C, 0x68, 0xB6, 0x8A, 0x01, 0x4B, 0x99, 0xF8, 0x2E, 0x5F, 0x15, 0x55, 0x4C]
  {
  }

  lemma AppendixMixColumns7()
    ensures MixColumns([0xB4, 0x58, 0x12, 0x4C, 0x68, 0xB6, 0x8A, 0x01, 0x4B, 0x99, 0xF8, 0x2E, 0x5F, 0x15, 0x55, 0x4C]) == [0xC5, 0x7E, 0x1C, 0x15, 0x9A, 0x9B, 0xD2, 0x86, 0xF0, 0x5F, 0x4B, 0xE0, 0x98, 0xC6, 0x34, 0x39]
  {
    MixColumnsCells([0xB4, 0x58, 0x12, 0x4C, 0x68, 0xB6, 0x8A, 0x01, 0x4B, 0x99, 0xF8, 0x2E, 0x5F, 0x15, 0x55, 0x4C]);
  }

  lemma AppendixAddRoundKey7()
    ensures AddRoundKey([0xC5, 0x7E, 0x1C, 0x15, 0x9A, 0x9B, 0xD2, 0x86, 0xF0, 0x5F, 0x4B, 0xE0, 0x98, 0xC6, 0x34, 0x39], [0x14, 0xF9, 0x70, 0x1A, 0xE3, 0x5F, 0xE2, 0x8C, 0x44, 0x0A, 0xDF, 0x4D, 0x4E, 0xA9, 0xC0, 0x26]) == [0xD1, 0x87, 0x6C, 0x0F, 0x79, 0xC4, 0x30, 0x0A, 0xB4, 0x55, 0x94, 0xAD, 0xD6, 0x6F, 0xF4, 0x1F]
  {
    AddRoundKeyCells([0xC5, 0x7E, 0x1C, 0x15, 0x9A, 0x9B, 0xD2, 0x86, 0xF0, 0x5F, 0x4B, 0xE0, 0x98, 0xC6, 0x34, 0x39], [0x14, 0xF9, 0x70, 0x1A, 0xE3, 0x5F, 0xE2, 0x8C, 0x44, 0x0A, 0xDF, 0x4D, 0x4E, 0xA9, 0xC0, 0x26]);
  }

  /** The state at the start of round 8. */
  lemma AppendixState7(key: seq<bv8>)
    requires |key| >= 16 && key[..16] == AppendixKey
    ensures EncryptRounds(AppendixPlain, RoundKeys(key, Aes128), 7) == [0xD1, 0x87, 0x6C, 0x0F, 0x79, 0xC4, 0x30, 0x0A, 0xB4, 0x55, 0x94, 0xAD, 0xD6, 0x6F, 0xF4, 0x1F]
  {
    AppendixState6(key);
    AppendixRoundKey7(key);
    AppendixSubBytes7();
    AppendixShiftRows7();
    AppendixMixColumns7();
    AppendixAddRoundKey7();
  }

  lemma AppendixSchedule8()
    ensures XorWord([0x14, 0xF9, 0x70, 0x1A], ScheduleTemp([0x4E, 0xA9, 0xC0, 0x26], 32, Aes128)) == [0x47, 0x43, 0x87, 0x35]
    ensures XorWord([0xE3, 0x5F, 0xE2, 0x8C], ScheduleTemp([0x47, 0x43, 0x87, 0x35], 33, Aes128)) == [0xA4, 0x1C, 0x65, 0xB9]
    ensures XorWord([0x44, 0x0A, 0xDF, 0x4D], ScheduleTemp([0xA4, 0x1C, 0x65, 0xB9], 34, Aes128)) == [0xE0, 0x16, 0xBA, 0xF4]
    ensures XorWord([0x4E, 0xA9, 0xC0, 0x26], ScheduleTemp([0xE0, 0x16, 0xBA, 0xF4], 35, Aes128)) == [0xAE, 0xBF, 0x7A, 0xD2]
  {
  }

  /** Words 32 to 35 of the expanded key. */
  lemma AppendixWords8(key: seq<bv8>)
    requires |key| >= 16 && key[..16] == AppendixKey
    ensures KeyWord(key, Aes128, 32) == [0x47, 0x43, 0x87, 0x35]
    ensures KeyWord(key, Aes128, 33) == [0xA4, 0x1C, 0x65, 0xB9]
    ensures KeyWord(key, Aes128, 34) == [0xE0, 0x16, 0xBA, 0xF4]
    ensures KeyWord(key, Aes128, 35) == [0xAE, 0xBF, 0x7A, 0xD2]
  {
    AppendixWords7(key);
    AppendixSchedule8();
    KeyWordStep(key, 32);
    KeyWordStep(key, 33);
    KeyWordStep(key, 34);
    KeyWordStep(key, 35);
  }

  lemma AppendixRoundKey8(key: seq<bv8>)
    requires |key| >= 16 && key[..16] == AppendixKey
    ensures RoundKey(key, Aes128, 8) == [0x47, 0x43, 0x87, 0x35, 0xA4, 0x1C, 0x65, 0xB9, 0xE0, 0x16, 0xBA, 0xF4, 0xAE, 0xBF, 0x7A, 0xD2]
  {
    AppendixWords8(key);
    RoundKeyCell(key, 8, 0);
    RoundKeyCell(key, 8, 1);
    RoundKeyCell(key, 8, 2);
    RoundKeyCell(key, 8, 3);
    RoundKeyCell(key, 8, 4);
    RoundKeyCell(key, 8, 5);
    RoundKeyCell(key, 8, 6);
    RoundKeyCell(key, 8, 7);
    RoundKeyCell(key, 8, 8);
    RoundKeyCell(key, 8, 9);
    RoundKeyCell(key, 8, 10);
    RoundKeyCell(key, 8, 11);
    RoundKeyCell(key, 8, 12);
    RoundKeyCell(key, 8, 13);
    RoundKeyCell(key, 8, 14);
    RoundKeyCell(key, 8, 15);
    SixteenCells(RoundKey(key, Aes128, 8), 0x47, 0x43, 0x87, 0x35, 0xA4, 0x1C, 0x65, 0xB9, 0xE0, 0x16, 0xBA, 0xF4, 0xAE, 0xBF, 0x7A, 0xD2);
  }

  lemma AppendixSubBytes8()
    ensures SubBytes([0xD1, 0x87, 0x6C, 0x0F, 0x79, 0xC4, 0x30, 0x0A, 0xB4, 0x55, 0x94, 0xAD, 0xD6, 0x6F, 0xF4, 0x1F]) == [0x3E, 0x17, 0x50, 0x76, 0xB6, 0x1C, 0x04, 0x67, 0x8D, 0xFC, 0x22, 0x95, 0xF6, 0xA8, 0xBF, 0xC0]
  {
    SubBytesOf(0xD1, 0x87, 0x6C, 0x0F, 0x79, 0xC4, 0x30, 0x0A, 0xB4, 0x55, 0x94, 0xAD, 0xD6, 0x6F, 0xF4, 0x1F, 0x3E, 0x17, 0x50, 0x76, 0xB6, 0x1C, 0x04, 0x67, 0x8D, 0xFC, 0x22, 0x95, 0xF6, 0xA8, 0xBF, 0xC0);
  }

  lemma AppendixShiftRows8()
    ensures ShiftRows([0x3E, 0x17, 0x50, 0x76, 0xB6, 0x1C, 0x04, 0x67, 0x8D, 0xFC, 0x22, 0x95, 0xF6, 0xA8, 0xBF, 0xC0]) == [0x3E, 0x1C, 0x22, 0xC0, 0xB6, 0xFC, 0xBF, 0x76, 0x8D, 0xA8, 0x50, 0x67, 0xF6, 0x17, 0x04, 0x95]
  {
  }

  lemma AppendixMixColumns8()
    ensures MixColumns([0x3E, 0x1C, 0x22, 0xC0, 0xB6, 0xFC, 0xBF, 0x76, 0x8D, 0xA8, 0x50, 0x67, 0xF6, 0x17, 0x04, 0x95]) == [0xBA, 0xA0, 0x3D, 0xE7, 0xA1, 0xF9, 0xB5, 0x6E, 0xD5, 0x51, 0x2C, 0xBA, 0x5F, 0x41, 0x4D, 0x23]
  {
    MixColumnsCells([0x3E, 0x1C, 0x22, 0xC0, 0xB6, 0xFC, 0xBF, 0x76, 0x8D, 0xA8, 0x50, 0x67, 0xF6, 0x17, 0x04, 0x95]);
  }

  lemma AppendixAddRoundKey8()
    ensures AddRoundKey([0xBA, 0xA0, 0x3D, 0xE7, 0xA1, 0xF9, 0xB5, 0x6E, 0xD5, 0x51, 0x2C, 0xBA, 0x5F, 0x41, 0x4D, 0x23], [0x47, 0x43, 0x87, 0x35, 0xA4, 0x1C, 0x65, 0xB9, 0xE0, 0x16, 0xBA, 0xF4, 0xAE, 0xBF, 0x7A, 0xD2]) == [0xFD, 0xE3, 0xBA, 0xD2, 0x05, 0xE5, 0xD0, 0xD7, 0x35, 0x47, 0x96, 0x4E, 0xF1, 0xFE, 0x37, 0xF1]
  {
    AddRoundKeyCells([0xBA, 0xA0, 0x3D, 0xE7, 0xA1, 0xF9, 0xB5, 0x6E, 0xD5, 0x51, 0x2C, 0xBA, 0x5F, 0x41, 0x4D, 0x23], [0x47, 0x43, 0x87, 0x35, 0xA4, 0x1C, 0x65, 0xB9, 0xE0, 0x16, 0xBA, 0xF4, 0xAE, 0xBF, 0x7A, 0xD2]);
  }

  /** The state at the start of round 9. */
  lemma AppendixState8(key: seq<bv8>)
    requires |key| >= 16 && key[..16] == AppendixKey
    ensures EncryptRounds(AppendixPlain, RoundKeys(key, Aes128), 8) == [0xFD, 0xE3, 0xBA, 0xD2, 0x05, 0xE5, 0xD0, 0xD7, 0x35, 0x47, 0x96, 0x4E, 0xF1, 0xFE, 0x37, 0xF1]
  {
    AppendixState7(key);
    AppendixRoundKey8(key);
    AppendixSubBytes8();
    AppendixShiftRows8();
    AppendixMixColumns8();
    AppendixAddRoundKey8();
  }

  lemma AppendixSchedule9()
    ensures XorWord([0x47, 0x43, 0x87, 0x35], ScheduleTemp([0xAE, 0xBF, 0x7A, 0xD2], 36, Aes128)) == [0x54, 0x99, 0x32, 0xD1]
    ensures XorWord([0xA4, 0x1C, 0x65, 0xB9], ScheduleTemp([0x54, 0x99, 0x32, 0xD1], 37, Aes128)) == [0xF0, 0x85, 0x57, 0x68]
    ensures XorWord([0xE0, 0x16, 0xBA, 0xF4], ScheduleTemp([0xF0, 0x85, 0x57, 0x68], 38, Aes128)) == [0x10, 0x93, 0xED, 0x9C]
    ensures XorWord([0xAE, 0xBF, 0x7A, 0xD2], ScheduleTemp([0x10, 0x93, 0xED, 0x9C], 39, Aes128)) == [0xBE, 0x2C, 0x97, 0x4E]
  {
  }

  /** Words 36 to 39 of the expanded key. */
  lemma AppendixWords9(key: seq<bv8>)
    requires |key| >= 16 && key[..16] == AppendixKey
    ensures KeyWord(key, Aes128, 36) == [0x54, 0x99, 0x32, 0xD1]
    ensures KeyWord(key, Aes128, 37) == [0xF0, 0x85, 0x57, 0x68]
    ensures KeyWord(key, Aes128, 38) == [0x10, 0x93, 0xED, 0x9C]
    ensures KeyWord(key, Aes128, 39) == [0xBE, 0x2C, 0x97, 0x4E]
  {
    AppendixWords8(key);
    AppendixSchedule9();
    KeyWordStep(key, 36);
    KeyWordStep(key, 37);
    KeyWordStep(key, 38);
    KeyWordStep(key, 39);
  }

  lemma AppendixRoundKey9(key: seq<bv8>)
    requires |key| >= 16 && key[..16] == AppendixKey
    ensures RoundKey(key, Aes128, 9) == [0x54, 0x99, 0x32, 0xD1, 0xF0, 0x85, 0x57, 0x68, 0x10, 0x93, 0xED, 0x9C, 0xBE, 0x2C, 0x97, 0x4E]
  {
    AppendixWords9(key);
    RoundKeyCell(key, 9, 0);
    RoundKeyCell(key, 9, 1);
    RoundKeyCell(key, 9, 2);
    RoundKeyCell(key, 9, 3);
    RoundKeyCell(key, 9, 4);
    RoundKeyCell(key, 9, 5);
    RoundKeyCell(key, 9, 6);
    RoundKeyCell(key, 9, 7);
    RoundKeyCell(key, 9, 8);
    RoundKeyCell(key, 9, 9);
    RoundKeyCell(key, 9, 10);
    RoundKeyCell(key, 9, 11);
    RoundKeyCell(key, 9, 12);
    RoundKeyCell(key, 9, 13);
    RoundKeyCell(key, 9, 14);
    RoundKeyCell(key, 9, 15);
    SixteenCells(RoundKey(key, Aes128, 9), 0x54, 0x99, 0x32, 0xD1, 0xF0, 0x85, 0x57, 0x68, 0x10, 0x93, 0xED, 0x9C, 0xBE, 0x2C, 0x97, 0x4E);
  }

  lemma AppendixSubBytes9()
    ensures SubBytes([0xFD, 0xE3, 0xBA, 0xD2, 0x05, 0xE5, 0xD0, 0xD7, 0x35, 0x47, 0x96, 0x4E, 0xF1, 0xFE, 0x37, 0xF1]) == [0x54, 0x11, 0xF4, 0xB5, 0x6B, 0xD9, 0x70, 0x0E, 0x96, 0xA0, 0x90, 0x2F, 0xA1, 0xBB, 0x9A, 0xA1]
  {
    SubBytesOf(0xFD, 0xE3, 0xBA, 0xD2, 0x05, 0xE5, 0xD0, 0xD7, 0x35, 0x47, 0x96, 0x4E, 0xF1, 0xFE, 0x37, 0xF1, 0x54, 0x11, 0xF4, 0xB5, 0x6B, 0xD9, 0x70, 0x0E, 0x96, 0xA0, 0x90, 0x2F, 0xA1, 0xBB, 0x9A, 0xA1);
  }

  lemma AppendixShiftRows9()
    ensures ShiftRows([0x54, 0x11, 0xF4, 0xB5, 0x6B, 0xD9, 0x70, 0x0E, 0x96, 0xA0, 0x90, 0x2F, 0xA1, 0xBB, 0x9A, 0xA1]) == [0x54, 0xD9, 0x90, 0xA1, 0x6B, 0xA0, 0x9A, 0xB5, 0x96, 0xBB, 0xF4, 0x0E, 0xA1, 0x11, 0x70, 0x2F]
  {
  }

  lemma AppendixMixColumns9()
    ensures MixColumns([0x54, 0xD9, 0x90, 0xA1, 0x6B, 0xA0, 0x9A, 0xB5, 0x96, 0xBB, 0xF4, 0x0E, 0xA1, 0x11, 0x70, 0x2F]) == [0xE9, 0xF7, 0x4E, 0xEC, 0x02, 0x30, 0x20, 0xF6, 0x1B, 0xF2, 0xCC, 0xF2, 0x35, 0x3C, 0x21, 0xC7]
  {
    MixColumnsCells([0x54, 0xD9, 0x90, 0xA1, 0x6B, 0xA0, 0x9A, 0xB5, 0x96, 0xBB, 0xF4, 0x0E, 0xA1, 0x11, 0x70, 0x2F]);
  }

  lemma AppendixAddRoundKey9()
    ensures AddRoundKey([0xE9, 0xF7, 0x4E, 0xEC, 0x02, 0x30, 0x20, 0xF6, 0x1B, 0xF2, 0xCC, 0xF2, 0x35, 0x3C, 0x21, 0xC7], [0x54, 0x99, 0x32, 0xD1, 0xF0, 0x85, 0x57, 0x68, 0x10, 0x93, 0xED, 0x9C, 0xBE, 0x2C, 0x97, 0x4E]) == [0xBD, 0x6E, 0x7C, 0x3D, 0xF2, 0xB5, 0x77, 0x9E, 0x0B, 0x61, 0x21, 0x6E, 0x8B, 0x10, 0xB6, 0x89]
  {
    AddRoundKeyCells([0xE9, 0xF7, 0x4E, 0xEC, 0x02, 0x30, 0x20, 0xF6, 0x1B, 0xF2, 0xCC, 0xF2, 0x35, 0x3C, 0x21, 0xC7], [0x54, 0x99, 0x32, 0xD1, 0xF0, 0x85, 0x57, 0x68, 0x10, 0x93, 0xED, 0x9C, 0xBE, 0x2C, 0x97, 0x4E]);
  }

  /** The state at the start of round 10. */
  lemma AppendixState9(key: seq<bv8>)
    requires |key| >= 16 && key[..16] == AppendixKey
    ensures EncryptRounds(AppendixPlain, RoundKeys(key, Aes128), 9) == [0xBD, 0x6E, 0x7C, 0x3D, 0xF2, 0xB5, 0x77, 0x9E, 0x0B, 0x61, 0x21, 0x6E, 0x8B, 0x10, 0xB6, 0x89]
  {
    AppendixState8(key);
    AppendixRoundKey9(key);
    AppendixSubBytes9();
    AppendixShiftRows9();
    AppendixMixColumns9();
    AppendixAddRoundKey9();
  }

  lemma AppendixSchedule10()
    ensures XorWord([0x54, 0x99, 0x32, 0xD1], ScheduleTemp([0xBE, 0x2C, 0x97, 0x4E], 40, Aes128)) == [0x13, 0x11, 0x1D, 0x7F]
    ensures XorWord([0xF0, 0x85, 0x57, 0x68], ScheduleTemp([0x13, 0x11, 0x1D, 0x7F], 41, Aes128)) == [0xE3, 0x94, 0x4A, 0x17]
    ensures XorWord([0x10, 0x93, 0xED, 0x9C], ScheduleTemp([0xE3, 0x94, 0x4A, 0x17], 42, Aes128)) == [0xF3, 0x07, 0xA7, 0x8B]
    ensures XorWord([0xBE, 0x2C, 0x97, 0x4E], ScheduleTemp([0xF3, 0x07, 0xA7, 0x8B], 43, Aes128)) == [0x4D, 0x2B, 0x30, 0xC5]
  {
  }

  /** Words 40 to 43 of the expanded key. */
  lemma AppendixWords10(key: seq<bv8>)
    requires |key| >= 16 && key[..16] == AppendixKey
    ensures KeyWord(key, Aes128, 40) == [0x13, 0x11, 0x1D, 0x7F]
    ensures KeyWord(key, Aes128, 41) == [0xE3, 0x94, 0x4A, 0x17]
    ensures KeyWord(key, Aes128, 42) == [0xF3, 0x07, 0xA7, 0x8B]
    ensures KeyWord(key, Aes128, 43) == [0x4D, 0x2B, 0x30, 0xC5]
  {
    AppendixWords9(key);
    AppendixSchedule10();
    KeyWordStep(key, 40);
    KeyWordStep(key, 41);
    KeyWordStep(key, 42);
    KeyWordStep(key, 43);
  }

  lemma AppendixRoundKey10(key: seq<bv8>)
    requires |key| >= 16 && key[..16] == AppendixKey
    ensures RoundKey(key, Aes128, 10) == [0x13, 0x11, 0x1D, 0x7F, 0xE3, 0x94, 0x4A, 0x17, 0xF3, 0x07, 0xA7, 0x8B, 0x4D, 0x2B, 0x30, 0xC5]
  {
    AppendixWords10(key);
    RoundKeyCell(key, 10, 0);
    RoundKeyCell(key, 10, 1);
    RoundKeyCell(key, 10, 2);
    RoundKeyCell(key, 10, 3);
    RoundKeyCell(key, 10, 4);
    RoundKeyCell(key, 10, 5);
    RoundKeyCell(key, 10, 6);
    RoundKeyCell(key, 10, 7);
    RoundKeyCell(key, 10, 8);
    RoundKeyCell(key, 10, 9);
    RoundKeyCell(key, 10, 10);
    RoundKeyCell(key, 10, 11);
    RoundKeyCell(key, 10, 12);
    RoundKeyCell(key, 10, 13);
    RoundKeyCell(key, 10, 14);
    RoundKeyCell(key, 10, 15);
    SixteenCells(RoundKey(key, Aes128, 10), 0x13, 0x11, 0x1D, 0x7F, 0xE3, 0x94, 0x4A, 0x17, 0xF3, 0x07, 0xA7, 0x8B, 0x4D, 0x2B, 0x30, 0xC5);
  }

  lemma AppendixSubBytes10()
    ensures SubBytes([0xBD, 0x6E, 0x7C, 0x3D, 0xF2, 0xB5, 0x77, 0x9E, 0x0B, 0x61, 0x21, 0x6E, 0x8B, 0x10, 0xB6, 0x89]) == [0x7A, 0x9F, 0x10, 0x27, 0x89, 0xD5, 0xF5, 0x0B, 0x2B, 0xEF, 0xFD, 0x9F, 0x3D, 0xCA, 0x4E, 0xA7]
  {
    SubBytesOf(0xBD, 0x6E, 0x7C, 0x3D, 0xF2, 0xB5, 0x77, 0x9E, 0x0B, 0x61, 0x21, 0x6E, 0x8B, 0x10, 0xB6, 0x89, 0x7A, 0x9F, 0x10, 0x27, 0x89, 0xD5, 0xF5, 0x0B, 0x2B, 0xEF, 0xFD, 0x9F, 0x3D, 0xCA, 0x4E, 0xA7);
  }

  lemma AppendixShiftRows10()
    ensures ShiftRows([0x7A, 0x9F, 0x10, 0x27, 0x89, 0xD5, 0xF5, 0x0B, 0x2B, 0xEF, 0xFD, 0x9F, 0x3D, 0xCA, 0x4E, 0xA7]) == [0x7A, 0xD5, 0xFD, 0xA7, 0x89, 0xEF, 0x4E, 0x27, 0x2B, 0xCA, 0x10, 0x0B, 0x3D, 0x9F, 0xF5, 0x9F]
  {
  }

  lemma AppendixAddRoundKey10()
    ensures AddRoundKey([0x7A, 0xD5, 0xFD, 0xA7, 0x89, 0xEF, 0x4E, 0x27, 0x2B, 0xCA, 0x10, 0x0B, 0x3D, 0x9F, 0xF5, 0x9F], [0x13, 0x11, 0x1D, 0x7F, 0xE3, 0x94, 0x4A, 0x17, 0xF3, 0x07, 0xA7, 0x8B, 0x4D, 0x2B, 0x30, 0xC5]) == [0x69, 0xC4, 0xE0, 0xD8, 0x6A, 0x7B, 0x04, 0x30, 0xD8, 0xCD, 0xB7, 0x80, 0x70, 0xB4, 0xC5, 0x5A]
  {
    AddRoundKeyCells([0x7A, 0xD5, 0xFD, 0xA7, 0x89, 0xEF, 0x4E, 0x27, 0x2B, 0xCA, 0x10, 0x0B, 0x3D, 0x9F, 0xF5, 0x9F], [0x13, 0x11, 0x1D, 0x7F, 0xE3, 0x94, 0x4A, 0x17, 0xF3, 0x07, 0xA7, 0x8B, 0x4D, 0x2B, 0x30, 0xC5]);
  }

  /**
   * FIPS-197 Appendix C.1: AES-128 maps the plaintext to the published ciphertext under
   * any key whose first sixteen bytes are the vector's key, and the inverse
   * cipher maps the ciphertext back.
   */
  lemma AppendixVector(key: seq<bv8>)
    requires |key| >= 16 && key[..16] == AppendixKey
    ensures Cipher(AppendixPlain, key, Aes128) == [0x69, 0xC4, 0xE0, 0xD8, 0x6A, 0x7B, 0x04, 0x30, 0xD8, 0xCD, 0xB7, 0x80, 0x70, 0xB4, 0xC5, 0x5A]
    ensures InvCipher([0x69, 0xC4, 0xE0, 0xD8, 0x6A, 0x7B, 0x04, 0x30, 0xD8, 0xCD, 0xB7, 0x80, 0x70, 0xB4, 0xC5, 0x5A], key, Aes128) == AppendixPlain
  {
    AppendixState9(key);
    AppendixRoundKey10(key);
    AppendixSubBytes10();
    AppendixShiftRows10();
    AppendixAddRoundKey10();
    InvCipherOfCipher(AppendixPlain, key, Aes128);
  }

  // ---------------------------------------------------------------------------
  // The all-zero key and block

  const ZeroKey: seq<bv8> := [0x00, 0x00, 0x00, 0x00, 0x00, 0x00, 0x00, 0x00, 0x00, 0x00, 0x00, 0x00, 0x00, 0x00, 0x00, 0x00]
  const ZeroPlain: Block := [0x00, 0x00, 0x00, 0x00, 0x00, 0x00, 0x00, 0x00, 0x00, 0x00, 0x00, 0x00, 0x00, 0x00, 0x00, 0x00]

  /** Words 0 to 3 of the expanded key are the master key. */
  lemma ZeroWords0(key: seq<bv8>)
    requires |key| >= 16 && key[..16] == ZeroKey
    ensures KeyWord(key, Aes128, 0) == [0x00, 0x00, 0x00, 0x00]
    ensures KeyWord(key, Aes128, 1) == [0x00, 0x00, 0x00, 0x00]
    ensures KeyWord(key, Aes128, 2) == [0x00, 0x00, 0x00, 0x00]
    ensures KeyWord(key, Aes128, 3) == [0x00, 0x00, 0x00, 0x00]
  {
    assert key[0] == key[..16][0];
    assert key[1] == key[..16][1];
    assert key[2] == key[..16][2];
    assert key[3] == key[..16][3];
    assert key[4] == key[..16][4];
    assert key[5] == key[..16][5];
    assert key[6] == key[..16][6];
    assert key[7] == key[..16][7];
    assert key[8] == key[..16][8];
    assert key[9] == key[..16][9];
    assert key[10] == key[..16][10];
    assert key[11] == key[..16][11];
    assert key[12] == key[..16][12];
    assert key[13] == key[..16][13];
    assert key[14] == key[..16][14];
    assert key[15] == key[..16][15];
    FirstWord(key, 0, 0x00, 0x00, 0x00, 0x00);
    FirstWord(key, 1, 0x00, 0x00, 0x00, 0x00);
    FirstWord(key, 2, 0x00, 0x00, 0x00, 0x00);
    FirstWord(key, 3, 0x00, 0x00, 0x00, 0x00);
  }

  lemma ZeroRoundKey0(key: seq<bv8>)
    requires |key| >= 16 && key[..16] == ZeroKey
    ensures RoundKey(key, Aes128, 0) == [0x00, 0x00, 0x00, 0x00, 0x00, 0x00, 0x00, 0x00, 0x00, 0x00, 0x00, 0x00, 0x00, 0x00, 0x00, 0x00]
  {
    ZeroWords0(key);
    RoundKeyCell(key, 0, 0);
    RoundKeyCell(key, 0, 1);
    RoundKeyCell(key, 0, 2);
    RoundKeyCell(key, 0, 3);
    RoundKeyCell(key, 0, 4);
    RoundKeyCell(key, 0, 5);
    RoundKeyCell(key, 0, 6);
    RoundKeyCell(key, 0, 7);
    RoundKeyCell(key, 0, 8);
    RoundKeyCell(key, 0, 9);
    RoundKeyCell(key, 0, 10);
    RoundKeyCell(key, 0, 11);
    RoundKeyCell(key, 0, 12);
    RoundKeyCell(key, 0, 13);
    RoundKeyCell(key, 0, 14);
    RoundKeyCell(key, 0, 15);
    SixteenCells(RoundKey(key, Aes128, 0), 0x00, 0x00, 0x00, 0x00, 0x00, 0x00, 0x00, 0x00, 0x00, 0x00, 0x00, 0x00, 0x00, 0x00, 0x00, 0x00);
  }

  lemma ZeroAddRoundKey0()
    ensures AddRoundKey(ZeroPlain, [0x00, 0x00, 0x00, 0x00, 0x00, 0x00, 0x00, 0x00, 0x00, 0x00, 0x00, 0x00, 0x00, 0x00, 0x00, 0x00]) == [0x00, 0x00, 0x00, 0x00, 0x00, 0x00, 0x00, 0x00, 0x00, 0x00, 0x00, 0x00, 0x00, 0x00, 0x00, 0x00]
  {
    AddRoundKeyCells(ZeroPlain, [0x00, 0x00, 0x00, 0x00, 0x00, 0x00, 0x00, 0x00, 0x00, 0x00, 0x00, 0x00, 0x00, 0x00, 0x00, 0x00]);
  }

  /** The state at the start of round 1: the plaintext with round key 0 added. */
  lemma ZeroState0(key: seq<bv8>)
    requires |key| >= 16 && key[..16] == ZeroKey
    ensures EncryptRounds(ZeroPlain, RoundKeys(key, Aes128), 0) == [0x00, 0x00, 0x00, 0x00, 0x00, 0x00, 0x00, 0x00, 0x00, 0x00, 0x00, 0x00, 0x00, 0x00, 0x00, 0x00]
  {
    ZeroRoundKey0(key);
    ZeroAddRoundKey0();
  }

  lemma ZeroSchedule1()
    ensures XorWord([0x00, 0x00, 0x00, 0x00], ScheduleTemp([0x00, 0x00, 0x00, 0x00], 4, Aes128)) == [0x62, 0x63, 0x63, 0x63]
    ensures XorWord([0x00, 0x00, 0x00, 0x00], ScheduleTemp([0x62, 0x63, 0x63, 0x63], 5, Aes128)) == [0x62, 0x63, 0x63, 0x63]
    ensures XorWord([0x00, 0x00, 0x00, 0x00], ScheduleTemp([0x62, 0x63, 0x63, 0x63], 6, Aes128)) == [0x62, 0x63, 0x63, 0x63]
    ensures XorWord([0x00, 0x00, 0x00, 0x00], ScheduleTemp([0x62, 0x63, 0x63, 0x63], 7, Aes128)) == [0x62, 0x63, 0x63, 0x63]
  {
  }

  /** Words 4 to 7 of the expanded key. */
  lemma ZeroWords1(key: seq<bv8>)
    requires |key| >= 16 && key[..16] == ZeroKey
    ensures KeyWord(key, Aes128, 4) == [0x62, 0x63, 0x63, 0x63]
    ensures KeyWord(key, Aes128, 5) == [0x62, 0x63, 0x63, 0x63]
    ensures KeyWord(key, Aes128, 6) == [0x62, 0x63, 0x63, 0x63]
    ensures KeyWord(key, Aes128, 7) == [0x62, 0x63, 0x63, 0x63]
  {
    ZeroWords0(key);
    ZeroSchedule1();
    KeyWordStep(key, 4);
    KeyWordStep(key, 5);
    KeyWordStep(key, 6);
    KeyWordStep(key, 7);
  }

  lemma ZeroRoundKey1(key: seq<bv8>)
    requires |key| >= 16 && key[..16] == ZeroKey
    ensures RoundKey(key, Aes128, 1) == [0x62, 0x63, 0x63, 0x63, 0x62, 0x63, 0x63, 0x63, 0x62, 0x63, 0x63, 0x63, 0x62, 0x63, 0x63, 0x63]
  {
    ZeroWords1(key);
    RoundKeyCell(key, 1, 0);
    RoundKeyCell(key, 1, 1);
    RoundKeyCell(key, 1, 2);
    RoundKeyCell(key, 1, 3);
    RoundKeyCell(key, 1, 4);
    RoundKeyCell(key, 1, 5);
    RoundKeyCell(key, 1, 6);
    RoundKeyCell(key, 1, 7);
    RoundKeyCell(key, 1, 8);
    RoundKeyCell(key, 1, 9);
    RoundKeyCell(key, 1, 10);
    RoundKeyCell(key, 1, 11);
    RoundKeyCell(key, 1, 12);
    RoundKeyCell(key, 1, 13);
    RoundKeyCell(key, 1, 14);
    RoundKeyCell(key, 1, 15);
    SixteenCells(RoundKey(key, Aes128, 1), 0x62, 0x63, 0x63, 0x63, 0x62, 0x63, 0x63, 0x63, 0x62, 0x63, 0x63, 0x63, 0x62, 0x63, 0x63, 0x63);
  }

  lemma ZeroSubBytes1()
    ensures SubBytes([0x00, 0x00, 0x00, 0x00, 0x00, 0x00, 0x00, 0x00, 0x00, 0x00, 0x00, 0x00, 0x00, 0x00, 0x00, 0x00]) == [0x63, 0x63, 0x63, 0x63, 0x63, 0x63, 0x63, 0x63, 0x63, 0x63, 0x63, 0x63, 0x63, 0x63, 0x63, 0x63]
  {
    SubBytesOf(0x00, 0x00, 0x00, 0x00, 0x00, 0x00, 0x00, 0x00, 0x00, 0x00, 0x00, 0x00, 0x00, 0x00, 0x00, 0x00, 0x63, 0x63, 0x63, 0x63, 0x63, 0x63, 0x63, 0x63, 0x63, 0x63, 0x63, 0x63, 0x63, 0x63, 0x63, 0x63);
  }

  lemma ZeroShiftRows1()
    ensures ShiftRows([0x63, 0x63, 0x63, 0x63, 0x63, 0x63, 0x63, 0x63, 0x63, 0x63, 0x63, 0x63, 0x63, 0x63, 0x63, 0x63]) == [0x63, 0x63, 0x63, 0x63, 0x63, 0x63, 0x63, 0x63, 0x63, 0x63, 0x63, 0x63, 0x63, 0x63, 0x63, 0x63]
  {
  }

  lemma ZeroMixColumns1()
    ensures MixColumns([0x63, 0x63, 0x63, 0x63, 0x63, 0x63, 0x63, 0x63, 0x63, 0x63, 0x63, 0x63, 0x63, 0x63, 0x63, 0x63]) == [0x63, 0x63, 0x63, 0x63, 0x63, 0x63, 0x63, 0x63, 0x63, 0x63, 0x63, 0x63, 0x63, 0x63, 0x63, 0x63]
  {
    MixColumnsCells([0x63, 0x63, 0x63, 0x63, 0x63, 0x63, 0x63, 0x63, 0x63, 0x63, 0x63, 0x63, 0x63, 0x63, 0x63, 0x63]);
  }

  lemma ZeroAddRoundKey1()
    ensures AddRoundKey([0x63, 0x63, 0x63, 0x63, 0x63, 0x63, 0x63, 0x63, 0x63, 0x63, 0x63, 0x63, 0x63, 0x63, 0x63, 0x63], [0x62, 0x63, 0x63, 0x63, 0x62, 0x63, 0x63, 0x63, 0x62, 0x63, 0x63, 0x63, 0x62, 0x63, 0x63, 0x63]) == [0x01, 0x00, 0x00, 0x00, 0x01, 0x00, 0x00, 0x00, 0x01, 0x00, 0x00, 0x00, 0x01, 0x00, 0x00, 0x00]
  {
    AddRoundKeyCells([0x63, 0x63, 0x63, 0x63, 0x63, 0x63, 0x63, 0x63, 0x63, 0x63, 0x63, 0x63, 0x63, 0x63, 0x63, 0x63], [0x62, 0x63, 0x63, 0x63, 0x62, 0x63, 0x63, 0x63, 0x62, 0x63, 0x63, 0x63, 0x62, 0x63, 0x63, 0x63]);
  }

  /** The state at the start of round 2. */
  lemma ZeroState1(key: seq<bv8>)
    requires |key| >= 16 && key[..16] == ZeroKey
    ensures EncryptRounds(ZeroPlain, RoundKeys(key, Aes128), 1) == [0x01, 0x00, 0x00, 0x00, 0x01, 0x00, 0x00, 0x00, 0x01, 0x00, 0x00, 0x00, 0x01, 0x00, 0x00, 0x00]
  {
    ZeroState0(key);
    ZeroRoundKey1(key);
    ZeroSubBytes1();
    ZeroShiftRows1();
    ZeroMixColumns1();
    ZeroAddRoundKey1();
  }

  lemma ZeroSchedule2()
    ensures XorWord([0x62, 0x63, 0x63, 0x63], ScheduleTemp([0x62, 0x63, 0x63, 0x63], 8, Aes128)) == [0x9B, 0x98, 0x98, 0xC9]
    ensures XorWord([0x62, 0x63, 0x63, 0x63], ScheduleTemp([0x9B, 0x98, 0x98, 0xC9], 9, Aes128)) == [0xF9, 0xFB, 0xFB, 0xAA]
    ensures XorWord([0x62, 0x63, 0x63, 0x63], ScheduleTemp([0xF9, 0xFB, 0xFB, 0xAA], 10, Aes128)) == [0x9B, 0x98, 0x98, 0xC9]
    ensures XorWord([0x62, 0x63, 0x63, 0x63], ScheduleTemp([0x9B, 0x98, 0x98, 0xC9], 11, Aes128)) == [0xF9, 0xFB, 0xFB, 0xAA]
  {
  }

  /** Words 8 to 11 of the expanded key. */
  lemma ZeroWords2(key: seq<bv8>)
    requires |key| >= 16 && key[..16] == ZeroKey
    ensures KeyWord(key, Aes128, 8) == [0x9B, 0x98, 0x98, 0xC9]
    ensures KeyWord(key, Aes128, 9) == [0xF9, 0xFB, 0xFB, 0xAA]
    ensures KeyWord(key, Aes128, 10) == [0x9B, 0x98, 0x98, 0xC9]
    ensures KeyWord(key, Aes128, 11) == [0xF9, 0xFB, 0xFB, 0xAA]
  {
    ZeroWords1(key);
    ZeroSchedule2();
    KeyWordStep(key, 8);
    KeyWordStep(key, 9);
    KeyWordStep(key, 10);
    KeyWordStep(key, 11);
  }

  lemma ZeroRoundKey2(key: seq<bv8>)
    requires |key| >= 16 && key[..16] == ZeroKey
    ensures RoundKey(key, Aes128, 2) == [0x9B, 0x98, 0x98, 0xC9, 0xF9, 0xFB, 0xFB, 0xAA, 0x9B, 0x98, 0x98, 0xC9, 0xF9, 0xFB, 0xFB, 0xAA]
  {
    ZeroWords2(key);
    RoundKeyCell(key, 2, 0);
    RoundKeyCell(key, 2, 1);
    RoundKeyCell(key, 2, 2);
    RoundKeyCell(key, 2, 3);
    RoundKeyCell(key, 2, 4);
    RoundKeyCell(key, 2, 5);
    RoundKeyCell(key, 2, 6);
    RoundKeyCell(key, 2, 7);
    RoundKeyCell(key, 2, 8);
    RoundKeyCell(key, 2, 9);
    RoundKeyCell(key, 2, 10);
    RoundKeyCell(key, 2, 11);
    RoundKeyCell(key, 2, 12);
    RoundKeyCell(key, 2, 13);
    RoundKeyCell(key, 2, 14);
    RoundKeyCell(key, 2, 15);
    SixteenCells(RoundKey(key, Aes128, 2), 0x9B, 0x98, 0x98, 0xC9, 0xF9, 0xFB, 0xFB, 0xAA, 0x9B, 0x98, 0x98, 0xC9, 0xF9, 0xFB, 0xFB, 0xAA);
  }

  lemma ZeroSubBytes2()
    ensures SubBytes([0x01, 0x00, 0x00, 0x00, 0x01, 0x00, 0x00, 0x00, 0x01, 0x00, 0x00, 0x00, 0x01, 0x00, 0x00, 0x00]) == [0x7C, 0x63, 0x63, 0x63, 0x7C, 0x63, 0x63, 0x63, 0x7C, 0x63, 0x63, 0x63, 0x7C, 0x63, 0x63, 0x63]
  {
    SubBytesOf(0x01, 0x00, 0x00, 0x00, 0x01, 0x00, 0x00, 0x00, 0x01, 0x00, 0x00, 0x00, 0x01, 0x00, 0x00, 0x00, 0x7C, 0x63, 0x63, 0x63, 0x7C, 0x63, 0x63, 0x63, 0x7C, 0x63, 0x63, 0x63, 0x7C, 0x63, 0x63, 0x63);
  }

  lemma ZeroShiftRows2()
    ensures ShiftRows([0x7C, 0x63, 0x63, 0x63, 0x7C, 0x63, 0x63, 0x63, 0x7C, 0x63, 0x63, 0x63, 0x7C, 0x63, 0x63, 0x63]) == [0x7C, 0x63, 0x63, 0x63, 0x7C, 0x63, 0x63, 0x63, 0x7C, 0x63, 0x63, 0x63, 0x7C, 0x63, 0x63, 0x63]
  {
  }

  lemma ZeroMixColumns2()
    ensures MixColumns([0x7C, 0x63, 0x63, 0x63, 0x7C, 0x63, 0x63, 0x63, 0x7C, 0x63, 0x63, 0x63, 0x7C, 0x63, 0x63, 0x63]) == [0x5D, 0x7C, 0x7C, 0x42, 0x5D, 0x7C, 0x7C, 0x42, 0x5D, 0x7C, 0x7C, 0x42, 0x5D, 0x7C, 0x7C, 0x42]
  {
    MixColumnsCells([0x7C, 0x63, 0x63, 0x63, 0x7C, 0x63, 0x63, 0x63, 0x7C, 0x63, 0x63, 0x63, 0x7C, 0x63, 0x63, 0x63]);
  }

  lemma ZeroAddRoundKey2()
    ensures AddRoundKey([0x5D, 0x7C, 0x7C, 0x42, 0x5D, 0x7C, 0x7C, 0x42, 0x5D, 0x7C, 0x7C, 0x42, 0x5D, 0x7C, 0x7C, 0x42], [0x9B, 0x98, 0x98, 0xC9, 0xF9, 0xFB, 0xFB, 0xAA, 0x9B, 0x98, 0x98, 0xC9, 0xF9, 0xFB, 0xFB, 0xAA]) == [0xC6, 0xE4, 0xE4, 0x8B, 0xA4, 0x87, 0x87, 0xE8, 0xC6, 0xE4, 0xE4, 0x8B, 0xA4, 0x87, 0x87, 0xE8]
  {
    AddRoundKeyCells([0x5D, 0x7C, 0x7C, 0x42, 0x5D, 0x7C, 0x7C, 0x42, 0x5D, 0x7C, 0x7C, 0x42, 0x5D, 0x7C, 0x7C, 0x42], [0x9B, 0x98, 0x98, 0xC9, 0xF9, 0xFB, 0xFB, 0xAA, 0x9B, 0x98, 0x98, 0xC9, 0xF9, 0xFB, 0xFB, 0xAA]);
  }

  /** The state at the start of round 3. */
  lemma ZeroState2(key: seq<bv8>)
    requires |key| >= 16 && key[..16] == ZeroKey
    ensures EncryptRounds(ZeroPlain, RoundKeys(key, Aes128), 2) == [0xC6, 0xE4, 0xE4, 0x8B, 0xA4, 0x87, 0x87, 0xE8, 0xC6, 0xE4, 0xE4, 0x8B, 0xA4, 0x87, 0x87, 0xE8]
  {
    ZeroState1(key);
    ZeroRoundKey2(key);
    ZeroSubBytes2();
    ZeroShiftRows2();
    ZeroMixColumns2();
    ZeroAddRoundKey2();
  }

  lemma ZeroSchedule3()
    ensures XorWord([0x9B, 0x98, 0x98, 0xC9], ScheduleTemp([0xF9, 0xFB, 0xFB, 0xAA], 12, Aes128)) == [0x90, 0x97, 0x34, 0x50]
    ensures XorWord([0xF9, 0xFB, 0xFB, 0xAA], ScheduleTemp([0x90, 0x97, 0x34, 0x50], 13, Aes128)) == [0x69, 0x6C, 0xCF, 0xFA]
    ensures XorWord([0x9B, 0x98, 0x98, 0xC9], ScheduleTemp([0x69, 0x6C, 0xCF, 0xFA], 14, Aes128)) == [0xF2, 0xF4, 0x57, 0x33]
    ensures XorWord([0xF9, 0xFB, 0xFB, 0xAA], ScheduleTemp([0xF2, 0xF4, 0x57, 0x33], 15, Aes128)) == [0x0B, 0x0F, 0xAC, 0x99]
  {
  }

  /** Words 12 to 15 of the expanded key. */
  lemma ZeroWords3(key: seq<bv8>)
    requires |key| >= 16 && key[..16] == ZeroKey
    ensures KeyWord(key, Aes128, 12) == [0x90, 0x97, 0x34, 0x50]
    ensures KeyWord(key, Aes128, 13) == [0x69, 0x6C, 0xCF, 0xFA]
    ensures KeyWord(key, Aes128, 14) == [0xF2, 0xF4, 0x57, 0x33]
    ensures KeyWord(key, Aes128, 15) == [0x0B, 0x0F, 0xAC, 0x99]
  {
    ZeroWords2(key);
    ZeroSchedule3();
    KeyWordStep(key, 12);
    KeyWordStep(key, 13);
    KeyWordStep(key, 14);
    KeyWordStep(key, 15);
  }

  lemma ZeroRoundKey3(key: seq<bv8>)
    requires |key| >= 16 && key[..16] == ZeroKey
    ensures RoundKey(key, Aes128, 3) == [0x90, 0x97, 0x34, 0x50, 0x69, 0x6C, 0xCF, 0xFA, 0xF2, 0xF4, 0x57, 0x33, 0x0B, 0x0F, 0xAC, 0x99]
  {
    ZeroWords3(key);
    RoundKeyCell(key, 3, 0);
    RoundKeyCell(key, 3, 1);
    RoundKeyCell(key, 3, 2);
    RoundKeyCell(key, 3, 3);
    RoundKeyCell(key, 3, 4);
    RoundKeyCell(key, 3, 5);
    RoundKeyCell(key, 3, 6);
    RoundKeyCell(key, 3, 7);
    RoundKeyCell(key, 3, 8);
    RoundKeyCell(key, 3, 9);
    RoundKeyCell(key, 3, 10);
    RoundKeyCell(key, 3, 11);
    RoundKeyCell(key, 3, 12);
    RoundKeyCell(key, 3, 13);
    RoundKeyCell(key, 3, 14);
    RoundKeyCell(key, 3, 15);
    SixteenCells(RoundKey(key, Aes128, 3), 0x90, 0x97, 0x34, 0x50, 0x69, 0x6C, 0xCF, 0xFA, 0xF2, 0xF4, 0x57, 0x33, 0x0B, 0x0F, 0xAC, 0x99);
  }

  lemma ZeroSubBytes3()
    ensures SubBytes([0xC6, 0xE4, 0xE4, 0x8B, 0xA4, 0x87, 0x87, 0xE8, 0xC6, 0xE4, 0xE4, 0x8B, 0xA4, 0x87, 0x87, 0xE8]) == [0xB4, 0x69, 0x69, 0x3D, 0x49, 0x17, 0x17, 0x9B, 0xB4, 0x69, 0x69, 0x3D, 0x49, 0x17, 0x17, 0x9B]
  {
    SubBytesOf(0xC6, 0xE4, 0xE4, 0x8B, 0xA4, 0x87, 0x87, 0xE8, 0xC6, 0xE4, 0xE4, 0x8B, 0xA4, 0x87, 0x87, 0xE8, 0xB4, 0x69, 0x69, 0x3D, 0x49, 0x17, 0x17, 0x9B, 0xB4, 0x69, 0x69, 0x3D, 0x49, 0x17, 0x17, 0x9B);
  }

  lemma ZeroShiftRows3()
    ensures ShiftRows([0xB4, 0x69, 0x69, 0x3D, 0x49, 0x17, 0x17, 0x9B, 0xB4, 0x69, 0x69, 0x3D, 0x49, 0x17, 0x17, 0x9B]) == [0xB4, 0x17, 0x69, 0x9B, 0x49, 0x69, 0x17, 0x3D, 0xB4, 0x17, 0x69, 0x9B, 0x49, 0x69, 0x17, 0x3D]
  {
  }

  lemma ZeroMixColumns3()
    ensures MixColumns([0xB4, 0x17, 0x69, 0x9B, 0x49, 0x69, 0x17, 0x3D, 0xB4, 0x17, 0x69, 0x9B, 0x49, 0x69, 0x17, 0x3D]) == [0xB8, 0xBA, 0xC7, 0x94, 0x03, 0x9F, 0x49, 0xDF, 0xB8, 0xBA, 0xC7, 0x94, 0x03, 0x9F, 0x49, 0xDF]
  {
    MixColumnsCells([0xB4, 0x17, 0x69, 0x9B, 0x49, 0x69, 0x17, 0x3D, 0xB4, 0x17, 0x69, 0x9B, 0x49, 0x69, 0x17, 0x3D]);
  }

  lemma ZeroAddRoundKey3()
    ensures AddRoundKey([0xB8, 0xBA, 0xC7, 0x94, 0x03, 0x9F, 0x49, 0xDF, 0xB8, 0xBA, 0xC7, 0x94, 0x03, 0x9F, 0x49, 0xDF], [0x90, 0x97, 0x34, 0x50, 0x69, 0x6C, 0xCF, 0xFA, 0xF2, 0xF4, 0x57, 0x33, 0x0B, 0x0F, 0xAC, 0x99]) == [0x28, 0x2D, 0xF3, 0xC4, 0x6A, 0xF3, 0x86, 0x25, 0x4A, 0x4E, 0x90, 0xA7, 0x08, 0x90, 0xE5, 0x46]
  {
    AddRoundKeyCells([0xB8, 0xBA, 0xC7, 0x94, 0x03, 0x9F, 0x49, 0xDF, 0xB8, 0xBA, 0xC7, 0x94, 0x03, 0x9F, 0x49, 0xDF], [0x90, 0x97, 0x34, 0x50, 0x69, 0x6C, 0xCF, 0xFA, 0xF2, 0xF4, 0x57, 0x33, 0x0B, 0x0F, 0xAC, 0x99]);
  }

  /** The state at the start of round 4. */
  lemma ZeroState3(key: seq<bv8>)
    requires |key| >= 16 && key[..16] == ZeroKey
    ensures EncryptRounds(ZeroPlain, RoundKeys(key, Aes128), 3) == [0x28, 0x2D, 0xF3, 0xC4, 0x6A, 0xF3, 0x86, 0x25, 0x4A, 0x4E, 0x90, 0xA7, 0x08, 0x90, 0xE5, 0x46]
  {
    ZeroState2(key);
    ZeroRoundKey3(key);
    ZeroSubBytes3();
    ZeroShiftRows3();
    ZeroMixColumns3();
    ZeroAddRoundKey3();
  }

  lemma ZeroSchedule4()
    ensures XorWord([0x90, 0x97, 0x34, 0x50], ScheduleTemp([0x0B, 0x0F, 0xAC, 0x99], 16, Aes128)) == [0xEE, 0x06, 0xDA, 0x7B]
    ensures XorWord([0x69, 0x6C, 0xCF, 0xFA], ScheduleTemp([0xEE, 0x06, 0xDA, 0x7B], 17, Aes128)) == [0x87, 0x6A, 0x15, 0x81]
    ensures XorWord([0xF2, 0xF4, 0x57, 0x33], ScheduleTemp([0x87, 0x6A, 0x15, 0x81], 18, Aes128)) == [0x75, 0x9E, 0x42, 0xB2]
    ensures XorWord([0x0B, 0x0F, 0xAC, 0x99], ScheduleTemp([0x75, 0x9E, 0x42, 0xB2], 19, Aes128)) == [0x7E, 0x91, 0xEE, 0x2B]
  {
  }

  /** Words 16 to 19 of the expanded key. */
  lemma ZeroWords4(key: seq<bv8>)
    requires |key| >= 16 && key[..16] == ZeroKey
    ensures KeyWord(key, Aes128, 16) == [0xEE, 0x06, 0xDA, 0x7B]
    ensures KeyWord(key, Aes128, 17) == [0x87, 0x6A, 0x15, 0x81]
    ensures KeyWord(key, Aes128, 18) == [0x75, 0x9E, 0x42, 0xB2]
    ensures KeyWord(key, Aes128, 19) == [0x7E, 0x91, 0xEE, 0x2B]
  {
    ZeroWords3(key);
    ZeroSchedule4();
    KeyWordStep(key, 16);
    KeyWordStep(key, 17);
    KeyWordStep(key, 18);
    KeyWordStep(key, 19);
  }

  lemma ZeroRoundKey4(key: seq<bv8>)
    requires |key| >= 16 && key[..16] == ZeroKey
    ensures RoundKey(key, Aes128, 4) == [0xEE, 0x06, 0xDA, 0x7B, 0x87, 0x6A, 0x15, 0x81, 0x75, 0x9E, 0x42, 0xB2, 0x7E, 0x91, 0xEE, 0x2B]
  {
    ZeroWords4(key);
    RoundKeyCell(key, 4, 0);
    RoundKeyCell(key, 4, 1);
    RoundKeyCell(key, 4, 2);
    RoundKeyCell(key, 4, 3);
    RoundKeyCell(key, 4, 4);
    RoundKeyCell(key, 4, 5);
    RoundKeyCell(key, 4, 6);
    RoundKeyCell(key, 4, 7);
    RoundKeyCell(key, 4, 8);
    RoundKeyCell(key, 4, 9);
    RoundKeyCell(key, 4, 10);
    RoundKeyCell(key, 4, 11);
    RoundKeyCell(key, 4, 12);
    RoundKeyCell(key, 4, 13);
    RoundKeyCell(key, 4, 14);
    RoundKeyCell(key, 4, 15);
    SixteenCells(RoundKey(key, Aes128, 4), 0xEE, 0x06, 0xDA, 0x7B, 0x87, 0x6A, 0x15, 0x81, 0x75, 0x9E, 0x42, 0xB2, 0x7E, 0x91, 0xEE, 0x2B);
  }

  lemma ZeroSubBytes4()
    ensures SubBytes([0x28, 0x2D, 0xF3, 0xC4, 0x6A, 0xF3, 0x86, 0x25, 0x4A, 0x4E, 0x90, 0xA7, 0x08, 0x90, 0xE5, 0x46]) == [0x34, 0xD8, 0x0D, 0x1C, 0x02, 0x0D, 0x44, 0x3F, 0xD6, 0x2F, 0x60, 0x5C, 0x30, 0x60, 0xD9, 0x5A]
  {
    SubBytesOf(0x28, 0x2D, 0xF3, 0xC4, 0x6A, 0xF3, 0x86, 0x25, 0x4A, 0x4E, 0x90, 0xA7, 0x08, 0x90, 0xE5, 0x46, 0x34, 0xD8, 0x0D, 0x1C, 0x02, 0x0D, 0x44, 0x3F, 0xD6, 0x2F, 0x60, 0x5C, 0x30, 0x60, 0xD9, 0x5A);
  }

  lemma ZeroShiftRows4()
    ensures ShiftRows([0x34, 0xD8, 0x0D, 0x1C, 0x02, 0x0D, 0x44, 0x3F, 0xD6, 0x2F, 0x60, 0x5C, 0x30, 0x60, 0xD9, 0x5A]) == [0x34, 0x0D, 0x60, 0x5A, 0x02, 0x2F, 0xD9, 0x1C, 0xD6, 0x60, 0x0D, 0x3F, 0x30, 0xD8, 0x44, 0x5C]
  {
  }

  lemma ZeroMixColumns4()
    ensures MixColumns([0x34, 0x0D, 0x60, 0x5A, 0x02, 0x2F, 0xD9, 0x1C, 0xD6, 0x60, 0x0D, 0x3F, 0x30, 0xD8, 0x44, 0x5C]) == [0x45, 0xD4, 0x17, 0x85, 0xB0, 0x30, 0xA0, 0xC8, 0x25, 0x3E, 0xED, 0x72, 0x0B, 0x0B, 0x84, 0x74]
  {
    MixColumnsCells([0x34, 0x0D, 0x60, 0x5A, 0x02, 0x2F, 0xD9, 0x1C, 0xD6, 0x60, 0x0D, 0x3F, 0x30, 0xD8, 0x44, 0x5C]);
  }

  lemma ZeroAddRoundKey4()
    ensures AddRoundKey([0x45, 0xD4, 0x17, 0x85, 0xB0, 0x30, 0xA0, 0xC8, 0x25, 0x3E, 0xED, 0x72, 0x0B, 0x0B, 0x84, 0x74], [0xEE, 0x06, 0xDA, 0x7B, 0x87, 0x6A, 0x15, 0x81, 0x75, 0x9E, 0x42, 0xB2, 0x7E, 0x91, 0xEE, 0x2B]) == [0xAB, 0xD2, 0xCD, 0xFE, 0x37, 0x5A, 0xB5, 0x49, 0x50, 0xA0, 0xAF, 0xC0, 0x75, 0x9A, 0x6A, 0x5F]
  {
    AddRoundKeyCells([0x45, 0xD4, 0x17, 0x85, 0xB0, 0x30, 0xA0, 0xC8, 0x25, 0x3E, 0xED, 0x72, 0x0B, 0x0B, 0x84, 0x74], [0xEE, 0x06, 0xDA, 0x7B, 0x87, 0x6A, 0x15, 0x81, 0x75, 0x9E, 0x42, 0xB2, 0x7E, 0x91, 0xEE, 0x2B]);
  }

  /** The state at the start of round 5. */
  lemma ZeroState4(key: seq<bv8>)
    requires |key| >= 16 && key[..16] == ZeroKey
    ensures EncryptRounds(ZeroPlain, RoundKeys(key, Aes128), 4) == [0xAB, 0xD2, 0xCD, 0xFE, 0x37, 0x5A, 0xB5, 0x49, 0x50, 0xA0, 0xAF, 0xC0, 0x75, 0x9A, 0x6A, 0x5F]
  {
    ZeroState3(key);
    ZeroRoundKey4(key);
    ZeroSubBytes4();
    ZeroShiftRows4();
    ZeroMixColumns4();
    ZeroAddRoundKey4();
  }

  lemma ZeroSchedule5()
    ensures XorWord([0xEE, 0x06, 0xDA, 0x7B], ScheduleTemp([0x7E, 0x91, 0xEE, 0x2B], 20, Aes128)) == [0x7F, 0x2E, 0x2B, 0x88]
    ensures XorWord([0x87, 0x6A, 0x15, 0x81], ScheduleTemp([0x7F, 0x2E, 0x2B, 0x88], 21, Aes128)) == [0xF8, 0x44, 0x3E, 0x09]
    ensures XorWord([0x75, 0x9E, 0x42, 0xB2], ScheduleTemp([0xF8, 0x44, 0x3E, 0x09], 22, Aes128)) == [0x8D, 0xDA, 0x7C, 0xBB]
    ensures XorWord([0x7E, 0x91, 0xEE, 0x2B], ScheduleTemp([0x8D, 0xDA, 0x7C, 0xBB], 23, Aes128)) == [0xF3, 0x4B, 0x92, 0x90]
  {
  }

  /** Words 20 to 23 of the expanded key. */
  lemma ZeroWords5(key: seq<bv8>)
    requires |key| >= 16 && key[..16] == ZeroKey
    ensures KeyWord(key, Aes128, 20) == [0x7F, 0x2E, 0x2B, 0x88]
    ensures KeyWord(key, Aes128, 21) == [0xF8, 0x44, 0x3E, 0x09]
    ensures KeyWord(key, Aes128, 22) == [0x8D, 0xDA, 0x7C, 0xBB]
    ensures KeyWord(key, Aes128, 23) == [0xF3, 0x4B, 0x92, 0x90]
  {
    ZeroWords4(key);
    ZeroSchedule5();
    KeyWordStep(key, 20);
    KeyWordStep(key, 21);
    KeyWordStep(key, 22);
    KeyWordStep(key, 23);
  }

  lemma ZeroRoundKey5(key: seq<bv8>)
    requires |key| >= 16 && key[..16] == ZeroKey
    ensures RoundKey(key, Aes128, 5) == [0x7F, 0x2E, 0x2B, 0x88, 0xF8, 0x44, 0x3E, 0x09, 0x8D, 0xDA, 0x7C, 0xBB, 0xF3, 0x4B, 0x92, 0x90]
  {
    ZeroWords5(key);
    RoundKeyCell(key, 5, 0);
    RoundKeyCell(key, 5, 1);
    RoundKeyCell(key, 5, 2);
    RoundKeyCell(key, 5, 3);
    RoundKeyCell(key, 5, 4);
    RoundKeyCell(key, 5, 5);
    RoundKeyCell(key, 5, 6);
    RoundKeyCell(key, 5, 7);
    RoundKeyCell(key, 5, 8);
    RoundKeyCell(key, 5, 9);
    RoundKeyCell(key, 5, 10);
    RoundKeyCell(key, 5, 11);
    RoundKeyCell(key, 5, 12);
    RoundKeyCell(key, 5, 13);
    RoundKeyCell(key, 5, 14);
    RoundKeyCell(key, 5, 15);
    SixteenCells(RoundKey(key, Aes128, 5), 0x7F, 0x2E, 0x2B, 0x88, 0xF8, 0x44, 0x3E, 0x09, 0x8D, 0xDA, 0x7C, 0xBB, 0xF3, 0x4B, 0x92, 0x90);
  }

  lemma ZeroSubBytes5()
    ensures SubBytes([0xAB, 0xD2, 0xCD, 0xFE, 0x37, 0x5A, 0xB5, 0x49, 0x50, 0xA0, 0xAF, 0xC0, 0x75, 0x9A, 0x6A, 0x5F]) == [0x62, 0xB5, 0xBD, 0xBB, 0x9A, 0xBE, 0xD5, 0x3B, 0x53, 0xE0, 0x79, 0xBA, 0x9D, 0xB8, 0x02, 0xCF]
  {
    SubBytesOf(0xAB, 0xD2, 0xCD, 0xFE, 0x37, 0x5A, 0xB5, 0x49, 0x50, 0xA0, 0xAF, 0xC0, 0x75, 0x9A, 0x6A, 0x5F, 0x62, 0xB5, 0xBD, 0xBB, 0x9A, 0xBE, 0xD5, 0x3B, 0x53, 0xE0, 0x79, 0xBA, 0x9D, 0xB8, 0x02, 0xCF);
  }

  lemma ZeroShiftRows5()
    ensures ShiftRows([0x62, 0xB5, 0xBD, 0xBB, 0x9A, 0xBE, 0xD5, 0x3B, 0x53, 0xE0, 0x79, 0xBA, 0x9D, 0xB8, 0x02, 0xCF]) == [0x62, 0xBE, 0x79, 0xCF, 0x9A, 0xE0, 0x02, 0xBB, 0x53, 0xB8, 0xBD, 0x3B, 0x9D, 0xB5, 0xD5, 0xBA]
  {
  }

  lemma ZeroMixColumns5()
    ensures MixColumns([0x62, 0xBE, 0x79, 0xCF, 0x9A, 0xE0, 0x02, 0xBB, 0x53, 0xB8, 0xBD, 0x3B, 0x9D, 0xB5, 0xD5, 0xBA]) == [0xAB, 0x41, 0x64, 0xE4, 0xAD, 0xFC, 0xA8, 0x3A, 0xF3, 0xDF, 0xC7, 0x86, 0x8A, 0x32, 0x4C, 0xB3]
  {
    MixColumnsCells([0x62, 0xBE, 0x79, 0xCF, 0x9A, 0xE0, 0x02, 0xBB, 0x53, 0xB8, 0xBD, 0x3B, 0x9D, 0xB5, 0xD5, 0xBA]);
  }

  lemma ZeroAddRoundKey5()
    ensures AddRoundKey([0xAB, 0x41, 0x64, 0xE4, 0xAD, 0xFC, 0xA8, 0x3A, 0xF3, 0xDF, 0xC7, 0x86, 0x8A, 0x32, 0x4C, 0xB3], [0x7F, 0x2E, 0x2B, 0x88, 0xF8, 0x44, 0x3E, 0x09, 0x8D, 0xDA, 0x7C, 0xBB, 0xF3, 0x4B, 0x92, 0x90]) == [0xD4, 0x6F, 0x4F, 0x6C, 0x55, 0xB8, 0x96, 0x33, 0x7E, 0x05, 0xBB, 0x3D, 0x79, 0x79, 0xDE, 0x23]
  {
    AddRoundKeyCells([0xAB, 0x41, 0x64, 0xE4, 0xAD, 0xFC, 0xA8, 0x3A, 0xF3, 0xDF, 0xC7, 0x86, 0x8A, 0x32, 0x4C, 0xB3], [0x7F, 0x2E, 0x2B, 0x88, 0xF8, 0x44, 0x3E, 0x09, 0x8D, 0xDA, 0x7C, 0xBB, 0xF3, 0x4B, 0x92, 0x90]);
  }

  /** The state at the start of round 6. */
  lemma ZeroState5(key: seq<bv8>)
    requires |key| >= 16 && key[..16] == ZeroKey
    ensures EncryptRounds(ZeroPlain, RoundKeys(key, Aes128), 5) == [0xD4, 0x6F, 0x4F, 0x6C, 0x55, 0xB8, 0x96, 0x33, 0x7E, 0x05, 0xBB, 0x3D, 0x79, 0x79, 0xDE, 0x23]
  {
    ZeroState4(key);
    ZeroRoundKey5(key);
    ZeroSubBytes5();
    ZeroShiftRows5();
    ZeroMixColumns5();
    ZeroAddRoundKey5();
  }

  lemma ZeroSchedule6()
    ensures XorWord([0x7F, 0x2E, 0x2B, 0x88], ScheduleTemp([0xF3, 0x4B, 0x92, 0x90], 24, Aes128)) == [0xEC, 0x61, 0x4B, 0x85]
    ensures XorWord([0xF8, 0x44, 0x3E, 0x09], ScheduleTemp([0xEC, 0x61, 0x4B, 0x85], 25, Aes128)) == [0x14, 0x25, 0x75, 0x8C]
    ensures XorWord([0x8D, 0xDA, 0x7C, 0xBB], ScheduleTemp([0x14, 0x25, 0x75, 0x8C], 26, Aes128)) == [0x99, 0xFF, 0x09, 0x37]
    ensures XorWord([0xF3, 0x4B, 0x92, 0x90], ScheduleTemp([0x99, 0xFF, 0x09, 0x37], 27, Aes128)) == [0x6A, 0xB4, 0x9B, 0xA7]
  {
  }

  /** Words 24 to 27 of the expanded key. */
  lemma ZeroWords6(key: seq<bv8>)
    requires |key| >= 16 && key[..16] == ZeroKey
    ensures KeyWord(key, Aes128, 24) == [0xEC, 0x61, 0x4B, 0x85]
    ensures KeyWord(key, Aes128, 25) == [0x14, 0x25, 0x75, 0x8C]
    ensures KeyWord(key, Aes128, 26) == [0x99, 0xFF, 0x09, 0x37]
    ensures KeyWord(key, Aes128, 27) == [0x6A, 0xB4, 0x9B, 0xA7]
  {
    ZeroWords5(key);
    ZeroSchedule6();
    KeyWordStep(key, 24);
    KeyWordStep(key, 25);
    KeyWordStep(key, 26);
    KeyWordStep(key, 27);
  }

  lemma ZeroRoundKey6(key: seq<bv8>)
    requires |key| >= 16 && key[..16] == ZeroKey
    ensures RoundKey(key, Aes128, 6) == [0xEC, 0x61, 0x4B, 0x85, 0x14, 0x25, 0x75, 0x8C, 0x99, 0xFF, 0x09, 0x37, 0x6A, 0xB4, 0x9B, 0xA7]
  {
    ZeroWords6(key);
    RoundKeyCell(key, 6, 0);
    RoundKeyCell(key, 6, 1);
    RoundKeyCell(key, 6, 2);
    RoundKeyCell(key, 6, 3);
    RoundKeyCell(key, 6, 4);
    RoundKeyCell(key, 6, 5);
    RoundKeyCell(key, 6, 6);
    RoundKeyCell(key, 6, 7);
    RoundKeyCell(key, 6, 8);
    RoundKeyCell(key, 6, 9);
    RoundKeyCell(key, 6, 10);
    RoundKeyCell(key, 6, 11);
    RoundKeyCell(key, 6, 12);
    RoundKeyCell(key, 6, 13);
    RoundKeyCell(key, 6, 14);
    RoundKeyCell(key, 6, 15);
    SixteenCells(RoundKey(key, Aes128, 6), 0xEC, 0x61, 0x4B, 0x85, 0x14, 0x25, 0x75, 0x8C, 0x99, 0xFF, 0x09, 0x37, 0x6A, 0xB4, 0x9B, 0xA7);
  }

  lemma ZeroSubBytes6()
    ensures SubBytes([0xD4, 0x6F, 0x4F, 0x6C, 0x55, 0xB8, 0x96, 0x33, 0x7E, 0x05, 0xBB, 0x3D, 0x79, 0x79, 0xDE, 0x23]) == [0x48, 0xA8, 0x84, 0x50, 0xFC, 0x6C, 0x90, 0xC3, 0xF3, 0x6B, 0xEA, 0x27, 0xB6, 0xB6, 0x1D, 0x26]
  {
    SubBytesOf(0xD4, 0x6F, 0x4F, 0x6C, 0x55, 0xB8, 0x96, 0x33, 0x7E, 0x05, 0xBB, 0x3D, 0x79, 0x79, 0xDE, 0x23, 0x48, 0xA8, 0x84, 0x50, 0xFC, 0x6C, 0x90, 0xC3, 0xF3, 0x6B, 0xEA, 0x27, 0xB6, 0xB6, 0x1D, 0x26);
  }

  lemma ZeroShiftRows6()
    ensures ShiftRows([0x48, 0xA8, 0x84, 0x50, 0xFC, 0x6C, 0x90, 0xC3, 0xF3, 0x6B, 0xEA, 0x27, 0xB6, 0xB6, 0x1D, 0x26]) == [0x48, 0x6C, 0xEA, 0x26, 0xFC, 0x6B, 0x1D, 0x50, 0xF3, 0xB6, 0x84, 0xC3, 0xB6, 0xA8, 0x90, 0x27]
  {
  }

  lemma ZeroMixColumns6()
    ensures MixColumns([0x48, 0x6C, 0xEA, 0x26, 0xFC, 0x6B, 0x1D, 0x50, 0xF3, 0xB6, 0x84, 0xC3, 0xB6, 0xA8, 0x90, 0x27]) == [0xE8, 0x93, 0x81, 0x12, 0x13, 0x5D, 0x5D, 0xC9, 0x7B, 0xD0, 0x08, 0xA1, 0x23, 0x71, 0x4C, 0xB7]
  {
    MixColumnsCells([0x48, 0x6C, 0xEA, 0x26, 0xFC, 0x6B, 0x1D, 0x50, 0xF3, 0xB6, 0x84, 0xC3, 0xB6, 0xA8, 0x90, 0x27]);
  }

  lemma ZeroAddRoundKey6()
    ensures AddRoundKey([0xE8, 0x93, 0x81, 0x12, 0x13, 0x5D, 0x5D, 0xC9, 0x7B, 0xD0, 0x08, 0xA1, 0x23, 0x71, 0x4C, 0xB7], [0xEC, 0x61, 0x4B, 0x85, 0x14, 0x25, 0x75, 0x8C, 0x99, 0xFF, 0x09, 0x37, 0x6A, 0xB4, 0x9B, 0xA7]) == [0x04, 0xF2, 0xCA, 0x97, 0x07, 0x78, 0x28, 0x45, 0xE2, 0x2F, 0x01, 0x96, 0x49, 0xC5, 0xD7, 0x10]
  {
    AddRoundKeyCells([0xE8, 0x93, 0x81, 0x12, 0x13, 0x5D, 0x5D, 0xC9, 0x7B, 0xD0, 0x08, 0xA1, 0x23, 0x71, 0x4C, 0xB7], [0xEC, 0x61, 0x4B, 0x85, 0x14, 0x25, 0x75, 0x8C, 0x99, 0xFF, 0x09, 0x37, 0x6A, 0xB4, 0x9B, 0xA7]);
  }

  /** The state at the start of round 7. */
  lemma ZeroState6(key: seq<bv8>)
    requires |key| >= 16 && key[..16] == ZeroKey
    ensures EncryptRounds(ZeroPlain, RoundKeys(key, Aes128), 6) == [0x04, 0xF2, 0xCA, 0x97, 0x07, 0x78, 0x28, 0x45, 0xE2, 0x2F, 0x01, 0x96, 0x49, 0xC5, 0xD7, 0x10]
  {
    ZeroState5(key);
    ZeroRoundKey6(key);
    ZeroSubBytes6();
    ZeroShiftRows6();
    ZeroMixColumns6();
    ZeroAddRoundKey6();
  }

  lemma ZeroSchedule7()
    ensures XorWord([0xEC, 0x61, 0x4B, 0x85], ScheduleTemp([0x6A, 0xB4, 0x9B, 0xA7], 28, Aes128)) == [0x21, 0x75, 0x17, 0x87]
    ensures XorWord([0x14, 0x25, 0x75, 0x8C], ScheduleTemp([0x21, 0x75, 0x17, 0x87], 29, Aes128)) == [0x35, 0x50, 0x62, 0x0B]
    ensures XorWord([0x99, 0xFF, 0x09, 0x37], ScheduleTemp([0x35, 0x50, 0x62, 0x0B], 30, Aes128)) == [0xAC, 0xAF, 0x6B, 0x3C]
    ensures XorWord([0x6A, 0xB4, 0x9B, 0xA7], ScheduleTemp([0xAC, 0xAF, 0x6B, 0x3C], 31, Aes128)) == [0xC6, 0x1B, 0xF0, 0x9B]
  {
  }

  /** Words 28 to 31 of the expanded key. */
  lemma ZeroWords7(key: seq<bv8>)
    requires |key| >= 16 && key[..16] == ZeroKey
    ensures KeyWord(key, Aes128, 28) == [0x21, 0x75, 0x17, 0x87]
    ensures KeyWord(key, Aes128, 29) == [0x35, 0x50, 0x62, 0x0B]
    ensures KeyWord(key, Aes128, 30) == [0xAC, 0xAF, 0x6B, 0x3C]
    ensures KeyWord(key, Aes128, 31) == [0xC6, 0x1B, 0xF0, 0x9B]
  {
    ZeroWords6(key);
    ZeroSchedule7();
    KeyWordStep(key, 28);
    KeyWordStep(key, 29);
    KeyWordStep(key, 30);
    KeyWordStep(key, 31);
  }

  lemma ZeroRoundKey7(key: seq<bv8>)
    requires |key| >= 16 && key[..16] == ZeroKey
    ensures RoundKey(key, Aes128, 7) == [0x21, 0x75, 0x17, 0x87, 0x35, 0x50, 0x62, 0x0B, 0xAC, 0xAF, 0x6B, 0x3C, 0xC6, 0x1B, 0xF0, 0x9B]
  {
    ZeroWords7(key);
    RoundKeyCell(key, 7, 0);
    RoundKeyCell(key, 7, 1);
    RoundKeyCell(key, 7, 2);
    RoundKeyCell(key, 7, 3);
    RoundKeyCell(key, 7, 4);
    RoundKeyCell(key, 7, 5);
    RoundKeyCell(key, 7, 6);
    RoundKeyCell(key, 7, 7);
    RoundKeyCell(key, 7, 8);
    RoundKeyCell(key, 7, 9);
    RoundKeyCell(key, 7, 10);
    RoundKeyCell(key, 7, 11);
    RoundKeyCell(key, 7, 12);
    RoundKeyCell(key, 7, 13);
    RoundKeyCell(key, 7, 14);
    RoundKeyCell(key, 7, 15);
    SixteenCells(RoundKey(key, Aes128, 7), 0x21, 0x75, 0x17, 0x87, 0x35, 0x50, 0x62, 0x0B, 0xAC, 0xAF, 0x6B, 0x3C, 0xC6, 0x1B, 0xF0, 0x9B);
  }

  lemma ZeroSubBytes7()
    ensures SubBytes([0x04, 0xF2, 0xCA, 0x97, 0x07, 0x78, 0x28, 0x45, 0xE2, 0x2F, 0x01, 0x96, 0x49, 0xC5, 0xD7, 0x10]) == [0xF2, 0x89, 0x74, 0x88, 0xC5, 0xBC, 0x34, 0x6E, 0x98, 0x15, 0x7C, 0x90, 0x3B, 0xA6, 0x0E, 0xCA]
  {
    SubBytesOf(0x04, 0xF2, 0xCA, 0x97, 0x07, 0x78, 0x28, 0x45, 0xE2, 0x2F, 0x01, 0x96, 0x49, 0xC5, 0xD7, 0x10, 0xF2, 0x89, 0x74, 0x88, 0xC5, 0xBC, 0x34, 0x6E, 0x98, 0x15, 0x7C, 0x90, 0x3B, 0xA6, 0x0E, 0xCA);
  }

  lemma ZeroShiftRows7()
    ensures ShiftRows([0xF2, 0x89, 0x74, 0x88, 0xC5, 0xBC, 0x34, 0x6E, 0x98, 0x15, 0x7C, 0x90, 0x3B, 0xA6, 0x0E, 0xCA]) == [0xF2, 0xBC, 0x7C, 0xCA, 0xC5, 0x15, 0x0E, 0x88, 0x98, 0xA6, 0x74, 0x6E, 0x3B, 0x89, 0x34, 0x90]
  {
  }

  lemma ZeroMixColumns7()
    ensures MixColumns([0xF2, 0xBC, 0x7C, 0xCA, 0xC5, 0x15, 0x0E, 0x88, 0x98, 0xA6, 0x74, 0x6E, 0x3B, 0x89, 0x34, 0x90]) == [0x96, 0xDF, 0xF3, 0x42, 0x28, 0x75, 0x4F, 0x44, 0xC0, 0x3D, 0x64, 0xBD, 0x52, 0xFE, 0x71, 0xCB]
  {
    MixColumnsCells([0xF2, 0xBC, 0x7C, 0xCA, 0xC5, 0x15, 0x0E, 0x88, 0x98, 0xA6, 0x74, 0x6E, 0x3B, 0x89, 0x34, 0x90]);
  }

  lemma ZeroAddRoundKey7()
    ensures AddRoundKey([0x96, 0xDF, 0xF3, 0x42, 0x28, 0x75, 0x4F, 0x44, 0xC0, 0x3D, 0x64, 0xBD, 0x52, 0xFE, 0x71, 0xCB], [0x21, 0x75, 0x17, 0x87, 0x35, 0x50, 0x62, 0x0B, 0xAC, 0xAF, 0x6B, 0x3C, 0xC6, 0x1B, 0xF0, 0x9B]) == [0xB7, 0xAA, 0xE4, 0xC5, 0x1D, 0x25, 0x2D, 0x4F, 0x6C, 0x92, 0x0F, 0x81, 0x94, 0xE5, 0x81, 0x50]
  {
    AddRoundKeyCells([0x96, 0xDF, 0xF3, 0x42, 0x28, 0x75, 0x4F, 0x44, 0xC0, 0x3D, 0x64, 0xBD, 0x52, 0xFE, 0x71, 0xCB], [0x21, 0x75, 0x17, 0x87, 0x35, 0x50, 0x62, 0x0B, 0xAC, 0xAF, 0x6B, 0x3C, 0xC6, 0x1B, 0xF0, 0x9B]);
  }

  /** The state at the start of round 8. */
  lemma ZeroState7(key: seq<bv8>)
    requires |key| >= 16 && key[..16] == ZeroKey
    ensures EncryptRounds(ZeroPlain, RoundKeys(key, Aes128), 7) == [0xB7, 0xAA, 0xE4, 0xC5, 0x1D, 0x25, 0x2D, 0x4F, 0x6C, 0x92, 0x0F, 0x81, 0x94, 0xE5, 0x81, 0x50]
  {
    ZeroState6(key);
    ZeroRoundKey7(key);
    ZeroSubBytes7();
    ZeroShiftRows7();
    ZeroMixColumns7();
    ZeroAddRoundKey7();
  }

  lemma ZeroSchedule8()
    ensures XorWord([0x21, 0x75, 0x17, 0x87], ScheduleTemp([0xC6, 0x1B, 0xF0, 0x9B], 32, Aes128)) == [0x0E, 0xF9, 0x03, 0x33]
    ensures XorWord([0x35, 0x50, 0x62, 0x0B], ScheduleTemp([0x0E, 0xF9, 0x03, 0x33], 33, Aes128)) == [0x3B, 0xA9, 0x61, 0x38]
    ensures XorWord([0xAC, 0xAF, 0x6B, 0x3C], ScheduleTemp([0x3B, 0xA9, 0x61, 0x38], 34, Aes128)) == [0x97, 0x06, 0x0A, 0x04]
    ensures XorWord([0xC6, 0x1B, 0xF0, 0x9B], ScheduleTemp([0x97, 0x06, 0x0A, 0x04], 35, Aes128)) == [0x51, 0x1D, 0xFA, 0x9F]
  {
  }

  /** Words 32 to 35 of the expanded key. */
  lemma ZeroWords8(key: seq<bv8>)
    requires |key| >= 16 && key[..16] == ZeroKey
    ensures KeyWord(key, Aes128, 32) == [0x0E, 0xF9, 0x03, 0x33]
    ensures KeyWord(key, Aes128, 33) == [0x3B, 0xA9, 0x61, 0x38]
    ensures KeyWord(key, Aes128, 34) == [0x97, 0x06, 0x0A, 0x04]
    ensures KeyWord(key, Aes128, 35) == [0x51, 0x1D, 0xFA, 0x9F]
  {
    ZeroWords7(key);
    ZeroSchedule8();
    KeyWordStep(key, 32);
    KeyWordStep(key, 33);
    KeyWordStep(key, 34);
    KeyWordStep(key, 35);
  }

  lemma ZeroRoundKey8(key: seq<bv8>)
    requires |key| >= 16 && key[..16] == ZeroKey
    ensures RoundKey(key, Aes128, 8) == [0x0E, 0xF9, 0x03, 0x33, 0x3B, 0xA9, 0x61, 0x38, 0x97, 0x06, 0x0A, 0x04, 0x51, 0x1D, 0xFA, 0x9F]
  {
    ZeroWords8(key);
    RoundKeyCell(key, 8, 0);
    RoundKeyCell(key, 8, 1);
    RoundKeyCell(key, 8, 2);
    RoundKeyCell(key, 8, 3);
    RoundKeyCell(key, 8, 4);
    RoundKeyCell(key, 8, 5);
    RoundKeyCell(key, 8, 6);
    RoundKeyCell(key, 8, 7);
    RoundKeyCell(key, 8, 8);
    RoundKeyCell(key, 8, 9);
    RoundKeyCell(key, 8, 10);
    RoundKeyCell(key, 8, 11);
    RoundKeyCell(key, 8, 12);
    RoundKeyCell(key, 8, 13);
    RoundKeyCell(key, 8, 14);
    RoundKeyCell(key, 8, 15);
    SixteenCells(RoundKey(key, Aes128, 8), 0x0E, 0xF9, 0x03, 0x33, 0x3B, 0xA9, 0x61, 0x38, 0x97, 0x06, 0x0A, 0x04, 0x51, 0x1D, 0xFA, 0x9F);
  }

  lemma ZeroSubBytes8()
    ensures SubBytes([0xB7, 0xAA, 0xE4, 0xC5, 0x1D, 0x25, 0x2D, 0x4F, 0x6C, 0x92, 0x0F, 0x81, 0x94, 0xE5, 0x81, 0x50]) == [0xA9, 0xAC, 0x69, 0xA6, 0xA4, 0x3F, 0xD8, 0x84, 0x50, 0x4F, 0x76, 0x0C, 0x22, 0xD9, 0x0C, 0x53]
  {
    SubBytesOf(0xB7, 0xAA, 0xE4, 0xC5, 0x1D, 0x25, 0x2D, 0x4F, 0x6C, 0x92, 0x0F, 0x81, 0x94, 0xE5, 0x81, 0x50, 0xA9, 0xAC, 0x69, 0xA6, 0xA4, 0x3F, 0xD8, 0x84, 0x50, 0x4F, 0x76, 0x0C, 0x22, 0xD9, 0x0C, 0x53);
  }

  lemma ZeroShiftRows8()
    ensures ShiftRows([0xA9, 0xAC, 0x69, 0xA6, 0xA4, 0x3F, 0xD8, 0x84, 0x50, 0x4F, 0x76, 0x0C, 0x22, 0xD9, 0x0C, 0x53]) == [0xA9, 0x3F, 0x76, 0x53, 0xA4, 0x4F, 0x0C, 0xA6, 0x50, 0xD9, 0x69, 0x84, 0x22, 0xAC, 0xD8, 0x0C]
  {
  }

  lemma ZeroMixColumns8()
    ensures MixColumns([0xA9, 0x3F, 0x76, 0x53, 0xA4, 0x4F, 0x0C, 0xA6, 0x50, 0xD9, 0x69, 0x84, 0x22, 0xAC, 0xD8, 0x0C]) == [0x2D, 0x1E, 0x8F, 0x0F, 0x28, 0x88, 0x02, 0xE3, 0x3D, 0xC6, 0xCC, 0x53, 0x7F, 0x1E, 0x31, 0x0A]
  {
    MixColumnsCells([0xA9, 0x3F, 0x76, 0x53, 0xA4, 0x4F, 0x0C, 0xA6, 0x50, 0xD9, 0x69, 0x84, 0x22, 0xAC, 0xD8, 0x0C]);
  }

  lemma ZeroAddRoundKey8()
    ensures AddRoundKey([0x2D, 0x1E, 0x8F, 0x0F, 0x28, 0x88, 0x02, 0xE3, 0x3D, 0xC6, 0xCC, 0x53, 0x7F, 0x1E, 0x31, 0x0A], [0x0E, 0xF9, 0x03, 0x33, 0x3B, 0xA9, 0x61, 0x38, 0x97, 0x06, 0x0A, 0x04, 0x51, 0x1D, 0xFA, 0x9F]) == [0x23, 0xE7, 0x8C, 0x3C, 0x13, 0x21, 0x63, 0xDB, 0xAA, 0xC0, 0xC6, 0x57, 0x2E, 0x03, 0xCB, 0x95]
  {
    AddRoundKeyCells([0x2D, 0x1E, 0x8F, 0x0F, 0x28, 0x88, 0x02, 0xE3, 0x3D, 0xC6, 0xCC, 0x53, 0x7F, 0x1E, 0x31, 0x0A], [0x0E, 0xF9, 0x03, 0x33, 0x3B, 0xA9, 0x61, 0x38, 0x97, 0x06, 0x0A, 0x04, 0x51, 0x1D, 0xFA, 0x9F]);
  }

  /** The state at the start of round 9. */
  lemma ZeroState8(key: seq<bv8>)
    requires |key| >= 16 && key[..16] == ZeroKey
    ensures EncryptRounds(ZeroPlain, RoundKeys(key, Aes128), 8) == [0x23, 0xE7, 0x8C, 0x3C, 0x13, 0x21, 0x63, 0xDB, 0xAA, 0xC0, 0xC6, 0x57, 0x2E, 0x03, 0xCB, 0x95]
  {
    ZeroState7(key);
    ZeroRoundKey8(key);
    ZeroSubBytes8();
    ZeroShiftRows8();
    ZeroMixColumns8();
    ZeroAddRoundKey8();
  }

  lemma ZeroSchedule9()
    ensures XorWord([0x0E, 0xF9, 0x03, 0x33], ScheduleTemp([0x51, 0x1D, 0xFA, 0x9F], 36, Aes128)) == [0xB1, 0xD4, 0xD8, 0xE2]
    ensures XorWord([0x3B, 0xA9, 0x61, 0x38], ScheduleTemp([0xB1, 0xD4, 0xD8, 0xE2], 37, Aes128)) == [0x8A, 0x7D, 0xB9, 0xDA]
    ensures XorWord([0x97, 0x06, 0x0A, 0x04], ScheduleTemp([0x8A, 0x7D, 0xB9, 0xDA], 38, Aes128)) == [0x1D, 0x7B, 0xB3, 0xDE]
    ensures XorWord([0x51, 0x1D, 0xFA, 0x9F], ScheduleTemp([0x1D, 0x7B, 0xB3, 0xDE], 39, Aes128)) == [0x4C, 0x66, 0x49, 0x41]
  {
  }

  /** Words 36 to 39 of the expanded key. */
  lemma ZeroWords9(key: seq<bv8>)
    requires |key| >= 16 && key[..16] == ZeroKey
    ensures KeyWord(key, Aes128, 36) == [0xB1, 0xD4, 0xD8, 0xE2]
    ensures KeyWord(key, Aes128, 37) == [0x8A, 0x7D, 0xB9, 0xDA]
    ensures KeyWord(key, Aes128, 38) == [0x1D, 0x7B, 0xB3, 0xDE]
    ensures KeyWord(key, Aes128, 39) == [0x4C, 0x66, 0x49, 0x41]
  {
    ZeroWords8(key);
    ZeroSchedule9();
    KeyWordStep(key, 36);
    KeyWordStep(key, 37);
    KeyWordStep(key, 38);
    KeyWordStep(key, 39);
  }

  lemma ZeroRoundKey9(key: seq<bv8>)
    requires |key| >= 16 && key[..16] == ZeroKey
    ensures RoundKey(key, Aes128, 9) == [0xB1, 0xD4, 0xD8, 0xE2, 0x8A, 0x7D, 0xB9, 0xDA, 0x1D, 0x7B, 0xB3, 0xDE, 0x4C, 0x66, 0x49, 0x41]
  {
    ZeroWords9(key);
    RoundKeyCell(key, 9, 0);
    RoundKeyCell(key, 9, 1);
    RoundKeyCell(key, 9, 2);
    RoundKeyCell(key, 9, 3);
    RoundKeyCell(key, 9, 4);
    RoundKeyCell(key, 9, 5);
    RoundKeyCell(key, 9, 6);
    RoundKeyCell(key, 9, 7);
    RoundKeyCell(key, 9, 8);
    RoundKeyCell(key, 9, 9);
    RoundKeyCell(key, 9, 10);
    RoundKeyCell(key, 9, 11);
    RoundKeyCell(key, 9, 12);
    RoundKeyCell(key, 9, 13);
    RoundKeyCell(key, 9, 14);
    RoundKeyCell(key, 9, 15);
    SixteenCells(RoundKey(key, Aes128, 9), 0xB1, 0xD4, 0xD8, 0xE2, 0x8A, 0x7D, 0xB9, 0xDA, 0x1D, 0x7B, 0xB3, 0xDE, 0x4C, 0x66, 0x49, 0x41);
  }

  lemma ZeroSubBytes9()
    ensures SubBytes([0x23, 0xE7, 0x8C, 0x3C, 0x13, 0x21, 0x63, 0xDB, 0xAA, 0xC0, 0xC6, 0x57, 0x2E, 0x03, 0xCB, 0x95]) == [0x26, 0x94, 0x64, 0xEB, 0x7D, 0xFD, 0xFB, 0xB9, 0xAC, 0xBA, 0xB4, 0x5B, 0x31, 0x7B, 0x1F, 0x2A]
  {
    SubBytesOf(0x23, 0xE7, 0x8C, 0x3C, 0x13, 0x21, 0x63, 0xDB, 0xAA, 0xC0, 0xC6, 0x57, 0x2E, 0x03, 0xCB, 0x95, 0x26, 0x94, 0x64, 0xEB, 0x7D, 0xFD, 0xFB, 0xB9, 0xAC, 0xBA, 0xB4, 0x5B, 0x31, 0x7B, 0x1F, 0x2A);
  }

  lemma ZeroShiftRows9()
    ensures ShiftRows([0x26, 0x94, 0x64, 0xEB, 0x7D, 0xFD, 0xFB, 0xB9, 0xAC, 0xBA, 0xB4, 0x5B, 0x31, 0x7B, 0x1F, 0x2A]) == [0x26, 0xFD, 0xB4, 0x2A, 0x7D, 0xBA, 0x1F, 0xEB, 0xAC, 0x7B, 0x64, 0xB9, 0x31, 0x94, 0xFB, 0x5B]
  {
  }

  lemma ZeroMixColumns9()
    ensures MixColumns([0x26, 0xFD, 0xB4, 0x2A, 0x7D, 0xBA, 0x1F, 0xEB, 0xAC, 0x7B, 0x64, 0xB9, 0x31, 0x94, 0xFB, 0x5B]) == [0xCE, 0x2A, 0xD6, 0x77, 0xDB, 0xD8, 0xDF, 0xEF, 0x13, 0x4F, 0xCF, 0x99, 0x65, 0x4F, 0xA5, 0x8A]
  {
    MixColumnsCells([0x26, 0xFD, 0xB4, 0x2A, 0x7D, 0xBA, 0x1F, 0xEB, 0xAC, 0x7B, 0x64, 0xB9, 0x31, 0x94, 0xFB, 0x5B]);
  }

  lemma ZeroAddRoundKey9()
    ensures AddRoundKey([0xCE, 0x2A, 0xD6, 0x77, 0xDB, 0xD8, 0xDF, 0xEF, 0x13, 0x4F, 0xCF, 0x99, 0x65, 0x4F, 0xA5, 0x8A], [0xB1, 0xD4, 0xD8, 0xE2, 0x8A, 0x7D, 0xB9, 0xDA, 0x1D, 0x7B, 0xB3, 0xDE, 0x4C, 0x66, 0x49, 0x41]) == [0x7F, 0xFE, 0x0E, 0x95, 0x51, 0xA5, 0x66, 0x35, 0x0E, 0x34, 0x7C, 0x47, 0x29, 0x29, 0xEC, 0xCB]
  {
    AddRoundKeyCells([0xCE, 0x2A, 0xD6, 0x77, 0xDB, 0xD8, 0xDF, 0xEF, 0x13, 0x4F, 0xCF, 0x99, 0x65, 0x4F, 0xA5, 0x8A], [0xB1, 0xD4, 0xD8, 0xE2, 0x8A, 0x7D, 0xB9, 0xDA, 0x1D, 0x7B, 0xB3, 0xDE, 0x4C, 0x66, 0x49, 0x41]);
  }

  /** The state at the start of round 10. */
  lemma ZeroState9(key: seq<bv8>)
    requires |key| >= 16 && key[..16] == ZeroKey
    ensures EncryptRounds(ZeroPlain, RoundKeys(key, Aes128), 9) == [0x7F, 0xFE, 0x0E, 0x95, 0x51, 0xA5, 0x66, 0x35, 0x0E, 0x34, 0x7C, 0x47, 0x29, 0x29, 0xEC, 0xCB]
  {
    ZeroState8(key);
    ZeroRoundKey9(key);
    ZeroSubBytes9();
    ZeroShiftRows9();
    ZeroMixColumns9();
    ZeroAddRoundKey9();
  }

  lemma ZeroSchedule10()
    ensures XorWord([0xB1, 0xD4, 0xD8, 0xE2], ScheduleTemp([0x4C, 0x66, 0x49, 0x41], 40, Aes128)) == [0xB4, 0xEF, 0x5B, 0xCB]
    ensures XorWord([0x8A, 0x7D, 0xB9, 0xDA], ScheduleTemp([0xB4, 0xEF, 0x5B, 0xCB], 41, Aes128)) == [0x3E, 0x92, 0xE2, 0x11]
    ensures XorWord([0x1D, 0x7B, 0xB3, 0xDE], ScheduleTemp([0x3E, 0x92, 0xE2, 0x11], 42, Aes128)) == [0x23, 0xE9, 0x51, 0xCF]
    ensures XorWord([0x4C, 0x66, 0x49, 0x41], ScheduleTemp([0x23, 0xE9, 0x51, 0xCF], 43, Aes128)) == [0x6F, 0x8F, 0x18, 0x8E]
  {
  }

  /** Words 40 to 43 of the expanded key. */
  lemma ZeroWords10(key: seq<bv8>)
    requires |key| >= 16 && key[..16] == ZeroKey
    ensures KeyWord(key, Aes128, 40) == [0xB4, 0xEF, 0x5B, 0xCB]
    ensures KeyWord(key, Aes128, 41) == [0x3E, 0x92, 0xE2, 0x11]
    ensures KeyWord(key, Aes128, 42) == [0x23, 0xE9, 0x51, 0xCF]
    ensures KeyWord(key, Aes128, 43) == [0x6F, 0x8F, 0x18, 0x8E]
  {
    ZeroWords9(key);
    ZeroSchedule10();
    KeyWordStep(key, 40);
    KeyWordStep(key, 41);
    KeyWordStep(key, 42);
    KeyWordStep(key, 43);
  }

  lemma ZeroRoundKey10(key: seq<bv8>)
    requires |key| >= 16 && key[..16] == ZeroKey
    ensures RoundKey(key, Aes128, 10) == [0xB4, 0xEF, 0x5B, 0xCB, 0x3E, 0x92, 0xE2, 0x11, 0x23, 0xE9, 0x51, 0xCF, 0x6F, 0x8F, 0x18, 0x8E]
  {
    ZeroWords10(key);
    RoundKeyCell(key, 10, 0);
    RoundKeyCell(key, 10, 1);
    RoundKeyCell(key, 10, 2);
    RoundKeyCell(key, 10, 3);
    RoundKeyCell(key, 10, 4);
    RoundKeyCell(key, 10, 5);
    RoundKeyCell(key, 10, 6);
    RoundKeyCell(key, 10, 7);
    RoundKeyCell(key, 10, 8);
    RoundKeyCell(key, 10, 9);
    RoundKeyCell(key, 10, 10);
    RoundKeyCell(key, 10, 11);
    RoundKeyCell(key, 10, 12);
    RoundKeyCell(key, 10, 13);
    RoundKeyCell(key, 10, 14);
    RoundKeyCell(key, 10, 15);
    SixteenCells(RoundKey(key, Aes128, 10), 0xB4, 0xEF, 0x5B, 0xCB, 0x3E, 0x92, 0xE2, 0x11, 0x23, 0xE9, 0x51, 0xCF, 0x6F, 0x8F, 0x18, 0x8E);
  }

  lemma ZeroSubBytes10()
    ensures SubBytes([0x7F, 0xFE, 0x0E, 0x95, 0x51, 0xA5, 0x66, 0x35, 0x0E, 0x34, 0x7C, 0x47, 0x29, 0x29, 0xEC, 0xCB]) == [0xD2, 0xBB, 0xAB, 0x2A, 0xD1, 0x06, 0x33, 0x96, 0xAB, 0x18, 0x10, 0xA0, 0xA5, 0xA5, 0xCE, 0x1F]
  {
    SubBytesOf(0x7F, 0xFE, 0x0E, 0x95, 0x51, 0xA5, 0x66, 0x35, 0x0E, 0x34, 0x7C, 0x47, 0x29, 0x29, 0xEC, 0xCB, 0xD2, 0xBB, 0xAB, 0x2A, 0xD1, 0x06, 0x33, 0x96, 0xAB, 0x18, 0x10, 0xA0, 0xA5, 0xA5, 0xCE, 0x1F);
  }

  lemma ZeroShiftRows10()
    ensures ShiftRows([0xD2, 0xBB, 0xAB, 0x2A, 0xD1, 0x06, 0x33, 0x96, 0xAB, 0x18, 0x10, 0xA0, 0xA5, 0xA5, 0xCE, 0x1F]) == [0xD2, 0x06, 0x10, 0x1F, 0xD1, 0x18, 0xCE, 0x2A, 0xAB, 0xA5, 0xAB, 0x96, 0xA5, 0xBB, 0x33, 0xA0]
  {
  }

  lemma ZeroAddRoundKey10()
    ensures AddRoundKey([0xD2, 0x06, 0x10, 0x1F, 0xD1, 0x18, 0xCE, 0x2A, 0xAB, 0xA5, 0xAB, 0x96, 0xA5, 0xBB, 0x33, 0xA0], [0xB4, 0xEF, 0x5B, 0xCB, 0x3E, 0x92, 0xE2, 0x11, 0x23, 0xE9, 0x51, 0xCF, 0x6F, 0x8F, 0x18, 0x8E]) == [0x66, 0xE9, 0x4B, 0xD4, 0xEF, 0x8A, 0x2C, 0x3B, 0x88, 0x4C, 0xFA, 0x59, 0xCA, 0x34, 0x2B, 0x2E]
  {
    AddRoundKeyCells([0xD2, 0x06, 0x10, 0x1F, 0xD1, 0x18, 0xCE, 0x2A, 0xAB, 0xA5, 0xAB, 0x96, 0xA5, 0xBB, 0x33, 0xA0], [0xB4, 0xEF, 0x5B, 0xCB, 0x3E, 0x92, 0xE2, 0x11, 0x23, 0xE9, 0x51, 0xCF, 0x6F, 0x8F, 0x18, 0x8E]);
  }

  /**
   * The all-zero key and block: AES-128 maps the plaintext to the published ciphertext under
   * any key whose first sixteen bytes are the vector's key, and the inverse
   * cipher maps the ciphertext back.
   */
  lemma ZeroVector(key: seq<bv8>)
    requires |key| >= 16 && key[..16] == ZeroKey
    ensures Cipher(ZeroPlain, key, Aes128) == [0x66, 0xE9, 0x4B, 0xD4, 0xEF, 0x8A, 0x2C, 0x3B, 0x88, 0x4C, 0xFA, 0x59, 0xCA, 0x34, 0x2B, 0x2E]
    ensures InvCipher([0x66, 0xE9, 0x4B, 0xD4, 0xEF, 0x8A, 0x2C, 0x3B, 0x88, 0x4C, 0xFA, 0x59, 0xCA, 0x34, 0x2B, 0x2E], key, Aes128) == ZeroPlain
  {
    ZeroState9(key);
    ZeroRoundKey10(key);
    ZeroSubBytes10();
    ZeroShiftRows10();
    ZeroAddRoundKey10();
    InvCipherOfCipher(ZeroPlain, key, Aes128);
  }

}
