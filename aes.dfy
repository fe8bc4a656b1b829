/**
 * The class `AES` of the tool: a cipher object fixed to one key length, whose
 * round transformations overwrite a 4 x 4 state in place.
 *
 * Every method is proved against the block functions of `AesSpec`: the state,
 * read column by column, equals the specification applied to the state on
 * entry, and `Cipher` and `InvCipher` return exactly the specification's
 * `Cipher` and `InvCipher` of the first 16 input bytes.
 */
module AesCipher {
  import opened Wrappers
  import opened GaloisField
  import opened AesTables
  import opened AesMix
  import opened AesSpec

  /** A state matrix: four rows and four columns. */
  predicate IsState(state: array2<bv8>)
  {
    state.Length0 == 4 && state.Length1 == 4
  }

  /** The state as a block, column by column: row r of column c is byte r + 4c. */
  function Contents(state: array2<bv8>): (s: Block)
    requires IsState(state)
    reads state
    ensures forall r, c :: 0 <= r < 4 && 0 <= c < 4 ==> s[Index(r, c)] == state[r, c]
  {
    var s := seq(16, i requires 0 <= i < 16 reads state => state[Row(i), Col(i)]);
    forall r, c | 0 <= r < 4 && 0 <= c < 4
      ensures s[Index(r, c)] == state[r, c]
    {
      IndexOf(r, c);
    }
    s
  }

  /** Two blocks that agree at every row and column are equal. */
  lemma BlockCells(a: Block, b: Block)
    requires forall r, c :: 0 <= r < 4 && 0 <= c < 4 ==> a[Index(r, c)] == b[Index(r, c)]
    ensures a == b
  {
    forall i | 0 <= i < 16
      ensures a[i] == b[i]
    {
      var c := if i < 4 then 0 else if i < 8 then 1 else if i < 12 then 2 else 3;
      var r := i - 4 * c;
      assert i == Index(r, c);
    }
  }

  /** Copies a 16-byte block into a new state matrix column by column: byte r + 4c goes to row r, column c. */
  method LoadState(inputDataBlock: seq<bv8>) returns (currentState: array2<bv8>)
    requires |inputDataBlock| >= 16
    ensures fresh(currentState) && IsState(currentState)
    ensures Contents(currentState) == inputDataBlock[..16]
  {
    currentState := new bv8[4, 4];
    for r := 0 to 4
      invariant forall r', c' :: 0 <= r' < r && 0 <= c' < 4 ==> currentState[r', c'] == inputDataBlock[Index(r', c')]
    {
      for c := 0 to 4
        invariant forall r', c' :: 0 <= r' < 4 && 0 <= c' < 4 && (r' < r || (r' == r && c' < c)) ==>
          currentState[r', c'] == inputDataBlock[Index(r', c')]
      {
        currentState[r, c] := inputDataBlock[r + 4 * c];
      }
    }
    BlockCells(Contents(currentState), inputDataBlock[..16]);
  }

  /** Copies the state matrix out into a new 16-byte block, column by column. */
  method StoreState(currentState: array2<bv8>) returns (output: seq<bv8>)
    requires IsState(currentState)
    ensures output == Contents(currentState)
  {
    var outputDataBlock := new bv8[16];
    for r := 0 to 4
      invariant forall r', c' :: 0 <= r' < r && 0 <= c' < 4 ==> outputDataBlock[Index(r', c')] == currentState[r', c']
    {
      for c := 0 to 4
        invariant forall r', c' :: 0 <= r' < 4 && 0 <= c' < 4 && (r' < r || (r' == r && c' < c)) ==>
          outputDataBlock[Index(r', c')] == currentState[r', c']
      {
        outputDataBlock[r + 4 * c] := currentState[r, c];
      }
    }
    output := outputDataBlock[..];
    BlockCells(output, Contents(currentState));
  }

  /** One more encryption round, stated on a given previous state and round key. */
  lemma EncryptStep(block: Block, keys: seq<Block>, k: nat, previous: Block, roundKey: Block)
    requires 1 <= k < |keys| - 1 && previous == EncryptRounds(block, keys, k - 1) && roundKey == keys[k]
    ensures EncryptRounds(block, keys, k) == AesSpec.AddRoundKey(AesSpec.MixColumns(AesSpec.ShiftRows(AesSpec.SubBytes(previous))), roundKey)
  {
  }

  /** The final encryption round on the state after rounds 0 to Nr - 1 gives the encrypted block. */
  lemma EncryptLast(block: Block, keys: seq<Block>, previous: Block, roundKey: Block)
    requires |keys| >= 2 && previous == EncryptRounds(block, keys, |keys| - 2) && roundKey == keys[|keys| - 1]
    ensures EncryptBlock(block, keys) == AesSpec.AddRoundKey(AesSpec.ShiftRows(AesSpec.SubBytes(previous)), roundKey)
  {
  }

  /** The final decryption round on the state after rounds Nr down to 1 gives the decrypted block. */
  lemma DecryptLast(block: Block, keys: seq<Block>, previous: Block, roundKey: Block)
    requires |keys| >= 2 && previous == DecryptRounds(block, keys, 1) && roundKey == keys[0]
    ensures DecryptBlock(block, keys) == AesSpec.AddRoundKey(AesSpec.InvSubBytes(AesSpec.InvShiftRows(previous)), roundKey)
  {
  }

  /** Decryption starts from the block with the last round key added. */
  lemma DecryptFirst(block: Block, keys: seq<Block>, start: Block, roundKey: Block)
    requires |keys| >= 2 && roundKey == keys[|keys| - 1] && start == AesSpec.AddRoundKey(block, roundKey)
    ensures DecryptRounds(block, keys, |keys| - 1) == start
  {
  }

  /** One more decryption round (k counts down), stated on a given previous state and round key. */
  lemma DecryptStep(block: Block, keys: seq<Block>, k: nat, previous: Block, roundKey: Block)
    requires 1 <= k < |keys| - 1 && previous == DecryptRounds(block, keys, k + 1) && roundKey == keys[k]
    ensures DecryptRounds(block, keys, k) == AesSpec.InvMixColumns(AesSpec.AddRoundKey(AesSpec.InvSubBytes(AesSpec.InvShiftRows(previous)), roundKey))
  {
  }

  /** Two blocks that agree on all four rows of every column are equal. */
  lemma BlockColumns(a: Block, b: Block)
    requires forall c :: 0 <= c < 4 ==> a[Index(0, c)] == b[Index(0, c)] && a[Index(1, c)] == b[Index(1, c)]
    requires forall c :: 0 <= c < 4 ==> a[Index(2, c)] == b[Index(2, c)] && a[Index(3, c)] == b[Index(3, c)]
    ensures a == b
  {
    forall i | 0 <= i < 16
      ensures a[i] == b[i]
    {
      var c := if i < 4 then 0 else if i < 8 then 1 else if i < 12 then 2 else 3;
      var r := i - 4 * c;
      if r == 0 {
        assert i == Index(0, c);
      } else if r == 1 {
        assert i == Index(1, c);
      } else if r == 2 {
        assert i == Index(2, c);
      } else {
        assert i == Index(3, c);
      }
    }
  }

  /** A block whose every column is the Mix Columns image of the same column of s is MixColumns(s). */
  lemma MixColumnsCells(t: Block, s: Block)
    requires forall c :: 0 <= c < 4 ==>
      t[Index(0, c)] == MixColumnByte(0, s[Index(0, c)], s[Index(1, c)], s[Index(2, c)], s[Index(3, c)]) &&
      t[Index(1, c)] == MixColumnByte(1, s[Index(0, c)], s[Index(1, c)], s[Index(2, c)], s[Index(3, c)]) &&
      t[Index(2, c)] == MixColumnByte(2, s[Index(0, c)], s[Index(1, c)], s[Index(2, c)], s[Index(3, c)]) &&
      t[Index(3, c)] == MixColumnByte(3, s[Index(0, c)], s[Index(1, c)], s[Index(2, c)], s[Index(3, c)])
    ensures t == AesSpec.MixColumns(s)
  {
    forall c | 0 <= c < 4
      ensures t[Index(0, c)] == AesSpec.MixColumns(s)[Index(0, c)] && t[Index(1, c)] == AesSpec.MixColumns(s)[Index(1, c)]
      ensures t[Index(2, c)] == AesSpec.MixColumns(s)[Index(2, c)] && t[Index(3, c)] == AesSpec.MixColumns(s)[Index(3, c)]
    {
      MixColumnsAt(s, 0, c);
      MixColumnsAt(s, 1, c);
      MixColumnsAt(s, 2, c);
      MixColumnsAt(s, 3, c);
    }
    BlockColumns(t, AesSpec.MixColumns(s));
  }

  /** A block whose every column is the InvMix Columns image of the same column of s is InvMixColumns(s). */
  lemma InvMixColumnsCells(t: Block, s: Block)
    requires forall c :: 0 <= c < 4 ==>
      t[Index(0, c)] == InvMixColumnByte(0, s[Index(0, c)], s[Index(1, c)], s[Index(2, c)], s[Index(3, c)]) &&
      t[Index(1, c)] == InvMixColumnByte(1, s[Index(0, c)], s[Index(1, c)], s[Index(2, c)], s[Index(3, c)]) &&
      t[Index(2, c)] == InvMixColumnByte(2, s[Index(0, c)], s[Index(1, c)], s[Index(2, c)], s[Index(3, c)]) &&
      t[Index(3, c)] == InvMixColumnByte(3, s[Index(0, c)], s[Index(1, c)], s[Index(2, c)], s[Index(3, c)])
    ensures t == AesSpec.InvMixColumns(s)
  {
    forall c | 0 <= c < 4
      ensures t[Index(0, c)] == AesSpec.InvMixColumns(s)[Index(0, c)] && t[Index(1, c)] == AesSpec.InvMixColumns(s)[Index(1, c)]
      ensures t[Index(2, c)] == AesSpec.InvMixColumns(s)[Index(2, c)] && t[Index(3, c)] == AesSpec.InvMixColumns(s)[Index(3, c)]
    {
      MixColumnsAt(s, 0, c);
      MixColumnsAt(s, 1, c);
      MixColumnsAt(s, 2, c);
      MixColumnsAt(s, 3, c);
    }
    BlockColumns(t, AesSpec.InvMixColumns(s));
  }

  /** An expanded key: Nr + 1 round keys of four rows and four columns each. */
  predicate IsKeySet(expandedKeySet: array3<bv8>, nr: nat)
  {
    expandedKeySet.Length0 == nr + 1 && expandedKeySet.Length1 == 4 && expandedKeySet.Length2 == 4
  }

  /** Round key `round` of an expanded key, as a block. */
  function RoundKeyOf(expandedKeySet: array3<bv8>, round: nat): Block
    requires expandedKeySet.Length1 == 4 && expandedKeySet.Length2 == 4 && round < expandedKeySet.Length0
    reads expandedKeySet
  {
    seq(16, i requires 0 <= i < 16 reads expandedKeySet => expandedKeySet[round, Row(i), Col(i)])
  }

  /** Byte r + 4c of a round key is the expanded key's byte at row r and column c of that round. */
  lemma RoundKeyCells(expandedKeySet: array3<bv8>, round: nat)
    requires expandedKeySet.Length1 == 4 && expandedKeySet.Length2 == 4 && round < expandedKeySet.Length0
    ensures forall r, c :: 0 <= r < 4 && 0 <= c < 4 ==> RoundKeyOf(expandedKeySet, round)[Index(r, c)] == expandedKeySet[round, r, c]
  {
    forall r, c | 0 <= r < 4 && 0 <= c < 4
      ensures RoundKeyOf(expandedKeySet, round)[Index(r, c)] == expandedKeySet[round, r, c]
    {
      IndexOf(r, c);
    }
  }

  /** Word w of an expanded key: column w % 4 of round key w / 4, rows 0 to 3. */
  function WordOf(expandedKeySet: array3<bv8>, w: nat): Word
    requires expandedKeySet.Length1 == 4 && expandedKeySet.Length2 == 4 && w < 4 * expandedKeySet.Length0
    reads expandedKeySet
  {
    [expandedKeySet[w / 4, 0, w % 4], expandedKeySet[w / 4, 1, w % 4],
     expandedKeySet[w / 4, 2, w % 4], expandedKeySet[w / 4, 3, w % 4]]
  }

  /** Two different words of an expanded key occupy different cells. */
  lemma SlotsDiffer(v: nat, w: nat)
    requires v != w
    ensures v / 4 != w / 4 || v % 4 != w % 4
  {
  }

  /** Writes the four bytes of word w of the expanded key; every other word keeps its bytes. */
  method StoreWord(expandedKeySet: array3<bv8>, w: nat, b0: bv8, b1: bv8, b2: bv8, b3: bv8)
    requires expandedKeySet.Length1 == 4 && expandedKeySet.Length2 == 4 && w < 4 * expandedKeySet.Length0
    modifies expandedKeySet
    ensures WordOf(expandedKeySet, w) == [b0, b1, b2, b3]
    ensures forall v :: 0 <= v < 4 * expandedKeySet.Length0 && v != w ==> WordOf(expandedKeySet, v) == old(WordOf(expandedKeySet, v))
  {
    expandedKeySet[w / 4, 0, w % 4] := b0;
    expandedKeySet[w / 4, 1, w % 4] := b1;
    expandedKeySet[w / 4, 2, w % 4] := b2;
    expandedKeySet[w / 4, 3, w % 4] := b3;
    forall v | 0 <= v < 4 * expandedKeySet.Length0 && v != w
      ensures WordOf(expandedKeySet, v) == old(WordOf(expandedKeySet, v))
    {
      SlotsDiffer(v, w);
    }
  }

  /** Copies word w of the expanded key into the temporary word. */
  method LoadWord(expandedKeySet: array3<bv8>, w: nat, tempWord: array<bv8>)
    requires expandedKeySet.Length1 == 4 && expandedKeySet.Length2 == 4 && w < 4 * expandedKeySet.Length0
    requires tempWord.Length == 4
    modifies tempWord
    ensures tempWord[..] == WordOf(expandedKeySet, w)
  {
    tempWord[0] := expandedKeySet[w / 4, 0, w % 4];
    tempWord[1] := expandedKeySet[w / 4, 1, w % 4];
    tempWord[2] := expandedKeySet[w / 4, 2, w % 4];
    tempWord[3] := expandedKeySet[w / 4, 3, w % 4];
  }

  /** RotWord in place: the temporary word rotated left by one byte. */
  method RotateWord(tempWord: array<bv8>)
    requires tempWord.Length == 4
    modifies tempWord
    ensures tempWord[..] == RotWord(old(tempWord[..]))
  {
    var firstByte := tempWord[0];
    tempWord[0] := tempWord[1];
    tempWord[1] := tempWord[2];
    tempWord[2] := tempWord[3];
    tempWord[3] := firstByte;
  }

  /** SubWord in place: every byte of the temporary word replaced by its S-box image. */
  method SubstituteWord(tempWord: array<bv8>)
    requires tempWord.Length == 4
    modifies tempWord
    ensures tempWord[..] == SubWord(old(tempWord[..]))
  {
    tempWord[0] := SBox(tempWord[0]);
    tempWord[1] := SBox(tempWord[1]);
    tempWord[2] := SBox(tempWord[2]);
    tempWord[3] := SBox(tempWord[3]);
  }

  /** The round constant added to the first byte of the temporary word. */
  method AddRoundConstant(tempWord: array<bv8>, roundConstant: bv8)
    requires tempWord.Length == 4
    modifies tempWord
    ensures tempWord[..] == [old(tempWord[0]) ^ roundConstant, old(tempWord[1]), old(tempWord[2]), old(tempWord[3])]
  {
    tempWord[0] := tempWord[0] ^ roundConstant;
  }

  /**
   * Expanded-key word w from an earlier word and the temporary word. The source
   * interleaves the four reads with the four writes; it always passes an earlier word
   * (w - Nk), which occupies other cells, so reading all four bytes first gives the same result.
   */
  method XorStoreWord(expandedKeySet: array3<bv8>, w: nat, earlier: nat, tempWord: array<bv8>)
    requires expandedKeySet.Length1 == 4 && expandedKeySet.Length2 == 4
    requires w < 4 * expandedKeySet.Length0 && earlier < 4 * expandedKeySet.Length0
    requires tempWord.Length == 4
    modifies expandedKeySet
    ensures WordOf(expandedKeySet, w) == XorWord(old(WordOf(expandedKeySet, earlier)), tempWord[..])
    ensures forall v :: 0 <= v < 4 * expandedKeySet.Length0 && v != w ==> WordOf(expandedKeySet, v) == old(WordOf(expandedKeySet, v))
  {
    var b0 := expandedKeySet[earlier / 4, 0, earlier % 4] ^ tempWord[0];
    var b1 := expandedKeySet[earlier / 4, 1, earlier % 4] ^ tempWord[1];
    var b2 := expandedKeySet[earlier / 4, 2, earlier % 4] ^ tempWord[2];
    var b3 := expandedKeySet[earlier / 4, 3, earlier % 4] ^ tempWord[3];
    StoreWord(expandedKeySet, w, b0, b1, b2, b3);
  }

  /** The round keys read off an expanded key that holds the key schedule's words. */
  lemma RoundKeysFromWords(expandedKeySet: array3<bv8>, key: seq<bv8>, sh: Shape, words: seq<Word>)
    requires KeyFits(key, sh) && IsKeySet(expandedKeySet, sh.nr) && words == Schedule(key, sh)
    requires forall v :: 0 <= v < |words| ==> WordOf(expandedKeySet, v) == words[v]
    ensures forall round :: 0 <= round <= sh.nr ==> RoundKeyOf(expandedKeySet, round) == RoundKey(key, sh, round)
  {
    forall round | 0 <= round <= sh.nr
      ensures RoundKeyOf(expandedKeySet, round) == RoundKey(key, sh, round)
    {
      RoundKeyFromWords(expandedKeySet, words, round);
    }
  }

  /** One round key of an expanded key is read off four of its words, one per column. */
  lemma RoundKeyFromWords(expandedKeySet: array3<bv8>, words: seq<Word>, round: nat)
    requires expandedKeySet.Length1 == 4 && expandedKeySet.Length2 == 4 && round < expandedKeySet.Length0
    requires |words| == 4 * expandedKeySet.Length0
    requires forall v :: 0 <= v < |words| ==> WordOf(expandedKeySet, v) == words[v]
    ensures RoundKeyOf(expandedKeySet, round) == seq(16, i requires 0 <= i < 16 => words[4 * round + Col(i)][Row(i)])
  {
    forall i | 0 <= i < 16
      ensures RoundKeyOf(expandedKeySet, round)[i] == words[4 * round + Col(i)][Row(i)]
    {
      var c := if i < 4 then 0 else if i < 8 then 1 else if i < 12 then 2 else 3;
      var r := i - 4 * c;
      var v := 4 * round + c;
      assert Row(i) == r && Col(i) == c;
      assert v / 4 == round && v % 4 == c;
      assert RoundKeyOf(expandedKeySet, round)[i] == expandedKeySet[round, r, c];
      var word := WordOf(expandedKeySet, v);
      assert word == words[v];
      assert word[r] == expandedKeySet[round, r, c] by {
        if r == 0 {
        } else if r == 1 {
        } else if r == 2 {
        } else {
        }
      }
    }
  }

  /** The key schedule's words, in order. */
  function Schedule(key: seq<bv8>, sh: Shape): (words: seq<Word>)
    requires KeyFits(key, sh)
    ensures |words| == WordCount(sh)
  {
    seq(WordCount(sh), v requires 0 <= v < WordCount(sh) => KeyWord(key, sh, v))
  }

  /** Every word from Nk on is the word Nk places back XORed with the transformed previous word. */
  ghost predicate Scheduled(words: seq<Word>, sh: Shape)
    requires ValidShape(sh) && |words| == WordCount(sh)
  {
    forall v :: sh.nk <= v < |words| ==> words[v] == XorWord(words[v - sh.nk], ScheduleTemp(words[v - 1], v, sh))
  }

  /** The key schedule follows its recurrence. */
  lemma ScheduleFollows(key: seq<bv8>, sh: Shape)
    requires KeyFits(key, sh)
    ensures Scheduled(Schedule(key, sh), sh)
  {
    var words := Schedule(key, sh);
    forall v | sh.nk <= v < |words|
      ensures words[v] == XorWord(words[v - sh.nk], ScheduleTemp(words[v - 1], v, sh))
    {
      assert words[v] == KeyWord(key, sh, v);
      assert words[v - 1] == KeyWord(key, sh, v - 1) && words[v - sh.nk] == KeyWord(key, sh, v - sh.nk);
    }
  }

  /** Column c moved `shift` places to the right, wrapping around the four columns. */
  function ColumnAfter(c: nat, shift: nat): nat
  {
    if c + shift < 4 then c + shift else c + shift - 4
  }

  /** Block index of the byte that lands at index i when row r is rotated left by `shift` places. */
  function TurnedFrom(i: nat, r: nat, shift: nat): (j: nat)
    requires i < 16 && r < 4 && shift < 4
    ensures j < 16
  {
    if Row(i) == r then Index(r, ColumnAfter(Col(i), shift)) else i
  }

  /** The block with row r rotated left by `shift` places: the byte at column c comes from column c + shift. */
  function RowTurned(s: Block, r: nat, shift: nat): (t: Block)
    requires r < 4 && shift < 4
  {
    seq(16, i requires 0 <= i < 16 => s[TurnedFrom(i, r, shift)])
  }

  /** A state whose row r holds the bytes of `before` rotated left by `shift`, and whose other rows are unchanged. */
  lemma RowCells(state: array2<bv8>, before: Block, r: nat, shift: nat)
    requires IsState(state) && r < 4 && shift < 4
    requires state[r, 0] == before[Index(r, ColumnAfter(0, shift))] && state[r, 1] == before[Index(r, ColumnAfter(1, shift))]
    requires state[r, 2] == before[Index(r, ColumnAfter(2, shift))] && state[r, 3] == before[Index(r, ColumnAfter(3, shift))]
    requires forall r', c :: 0 <= r' < 4 && 0 <= c < 4 && r' != r ==> state[r', c] == before[Index(r', c)]
    ensures Contents(state) == RowTurned(before, r, shift)
  {
    var a := Contents(state);
    assert a[Index(r, 0)] == before[Index(r, ColumnAfter(0, shift))] && a[Index(r, 1)] == before[Index(r, ColumnAfter(1, shift))];
    assert a[Index(r, 2)] == before[Index(r, ColumnAfter(2, shift))] && a[Index(r, 3)] == before[Index(r, ColumnAfter(3, shift))];
    RowBlock(a, before, r, shift);
  }

  /** RowCells on a block value: row r holds the turned bytes, the other rows those of `before`. */
  lemma RowBlock(a: Block, before: Block, r: nat, shift: nat)
    requires r < 4 && shift < 4
    requires a[Index(r, 0)] == before[Index(r, ColumnAfter(0, shift))] && a[Index(r, 1)] == before[Index(r, ColumnAfter(1, shift))]
    requires a[Index(r, 2)] == before[Index(r, ColumnAfter(2, shift))] && a[Index(r, 3)] == before[Index(r, ColumnAfter(3, shift))]
    requires forall r', c :: 0 <= r' < 4 && 0 <= c < 4 && r' != r ==> a[Index(r', c)] == before[Index(r', c)]
    ensures a == RowTurned(before, r, shift)
  {
    var m := RowTurned(before, r, shift);
    forall r', c | 0 <= r' < 4 && 0 <= c < 4
      ensures a[Index(r', c)] == m[Index(r', c)]
    {
      IndexOf(r', c);
      IndexOf(r, ColumnAfter(c, shift));
      assert c == 0 || c == 1 || c == 2 || c == 3;
    }
    BlockCells(a, m);
  }

  /** Output byte (r, c) of the three row turns of ShiftRows comes from where ShiftRows takes it. */
  lemma ShiftFromRows(r: nat, c: nat)
    requires r < 4 && c < 4
    ensures TurnedFrom(TurnedFrom(TurnedFrom(Index(r, c), 3, 3), 2, 2), 1, 1) == ShiftedFrom(Index(r, c))
  {
    IndexOf(r, c);
    ShiftRotatesLeft(r, c);
    var j := Index(r, ColumnAfter(c, r));
    IndexOf(r, ColumnAfter(c, r));
    if r == 3 {
      assert TurnedFrom(Index(r, c), 3, 3) == j;
    } else {
      assert TurnedFrom(Index(r, c), 3, 3) == Index(r, c);
      if r == 2 {
        assert TurnedFrom(Index(r, c), 2, 2) == j;
      } else {
        assert TurnedFrom(Index(r, c), 2, 2) == Index(r, c);
      }
    }
  }

  /** Output byte (r, c) of the three row turns of InvShiftRows comes from where InvShiftRows takes it. */
  lemma UnshiftFromRows(r: nat, c: nat)
    requires r < 4 && c < 4
    ensures TurnedFrom(TurnedFrom(TurnedFrom(Index(r, c), 3, 1), 2, 2), 1, 3) == UnshiftedFrom(Index(r, c))
  {
    IndexOf(r, c);
    UnshiftRotatesRight(r, c);
    var j := Index(r, ColumnAfter(c, 4 - r));
    IndexOf(r, ColumnAfter(c, 4 - r));
    if r == 3 {
      assert TurnedFrom(Index(r, c), 3, 1) == j;
    } else {
      assert TurnedFrom(Index(r, c), 3, 1) == Index(r, c);
      if r == 2 {
        assert TurnedFrom(Index(r, c), 2, 2) == j;
      } else {
        assert TurnedFrom(Index(r, c), 2, 2) == Index(r, c);
      }
    }
  }

  /** ShiftRows is row 1 rotated left by one place, row 2 by two and row 3 by three. */
  lemma ShiftRowsByRows(b: Block)
    ensures RowTurned(RowTurned(RowTurned(b, 1, 1), 2, 2), 3, 3) == AesSpec.ShiftRows(b)
  {
    forall i | 0 <= i < 16
      ensures RowTurned(RowTurned(RowTurned(b, 1, 1), 2, 2), 3, 3)[i] == AesSpec.ShiftRows(b)[i]
    {
      RowCol(i);
      ShiftFromRows(Row(i), Col(i));
    }
  }

  /** InvShiftRows is row 1 rotated right by one place (left by three), row 2 by two and row 3 by three (left by one). */
  lemma InvShiftRowsByRows(b: Block)
    ensures RowTurned(RowTurned(RowTurned(b, 1, 3), 2, 2), 3, 1) == AesSpec.InvShiftRows(b)
  {
    forall i | 0 <= i < 16
      ensures RowTurned(RowTurned(RowTurned(b, 1, 3), 2, 2), 3, 1)[i] == AesSpec.InvShiftRows(b)[i]
    {
      RowCol(i);
      UnshiftFromRows(Row(i), Col(i));
    }
  }

  /** Rotates row r of the state left by one place through a temporary byte; the other rows keep their bytes. */
  method RotateRowLeft(state: array2<bv8>, r: nat)
    requires IsState(state) && r < 4
    modifies state
    ensures state[r, 0] == old(state[r, 1]) && state[r, 1] == old(state[r, 2])
    ensures state[r, 2] == old(state[r, 3]) && state[r, 3] == old(state[r, 0])
    ensures forall r', c :: 0 <= r' < 4 && 0 <= c < 4 && r' != r ==> state[r', c] == old(state[r', c])
    ensures Contents(state) == RowTurned(old(Contents(state)), r, 1)
  {
    ghost var before := Contents(state);
    var temporaryByte := state[r, 0];
    state[r, 0] := state[r, 1];
    state[r, 1] := state[r, 2];
    state[r, 2] := state[r, 3];
    state[r, 3] := temporaryByte;
    RowCells(state, before, r, 1);
  }

  /** Rotates row r of the state right by one place through a temporary byte; the other rows keep their bytes. */
  method RotateRowRight(state: array2<bv8>, r: nat)
    requires IsState(state) && r < 4
    modifies state
    ensures state[r, 0] == old(state[r, 3]) && state[r, 1] == old(state[r, 0])
    ensures state[r, 2] == old(state[r, 1]) && state[r, 3] == old(state[r, 2])
    ensures forall r', c :: 0 <= r' < 4 && 0 <= c < 4 && r' != r ==> state[r', c] == old(state[r', c])
    ensures Contents(state) == RowTurned(old(Contents(state)), r, 3)
  {
    ghost var before := Contents(state);
    var temporaryByte := state[r, 0];
    state[r, 0] := state[r, 3];
    state[r, 3] := state[r, 2];
    state[r, 2] := state[r, 1];
    state[r, 1] := temporaryByte;
    RowCells(state, before, r, 3);
  }

  /** Rotates row r of the state by two places with two swaps; the other rows keep their bytes. */
  method SwapRowHalves(state: array2<bv8>, r: nat)
    requires IsState(state) && r < 4
    modifies state
    ensures state[r, 0] == old(state[r, 2]) && state[r, 1] == old(state[r, 3])
    ensures state[r, 2] == old(state[r, 0]) && state[r, 3] == old(state[r, 1])
    ensures forall r', c :: 0 <= r' < 4 && 0 <= c < 4 && r' != r ==> state[r', c] == old(state[r', c])
    ensures Contents(state) == RowTurned(old(Contents(state)), r, 2)
  {
    ghost var before := Contents(state);
    var temporaryByte := state[r, 0];
    state[r, 0] := state[r, 2];
    state[r, 2] := temporaryByte;
    temporaryByte := state[r, 1];
    state[r, 1] := state[r, 3];
    state[r, 3] := temporaryByte;
    RowCells(state, before, r, 2);
  }

  /** The four bytes of one MixColumns output column, from the source's gmul products. */
  method MixColumnOf(a: bv8, b: bv8, c: bv8, d: bv8) returns (m0: bv8, m1: bv8, m2: bv8, m3: bv8)
    ensures m0 == MixColumnByte(0, a, b, c, d) && m1 == MixColumnByte(1, a, b, c, d)
    ensures m2 == MixColumnByte(2, a, b, c, d) && m3 == MixColumnByte(3, a, b, c, d)
  {
    var a2 := Gmul(a, 2);
    var a3 := Gmul(a, 3);
    var b2 := Gmul(b, 2);
    var b3 := Gmul(b, 3);
    var c2 := Gmul(c, 2);
    var c3 := Gmul(c, 3);
    var d2 := Gmul(d, 2);
    var d3 := Gmul(d, 3);
    m0 := a2 ^ b3 ^ c ^ d;
    m1 := a ^ b2 ^ c3 ^ d;
    m2 := a ^ b ^ c2 ^ d3;
    m3 := a3 ^ b ^ c ^ d2;
    MixProducts0(a, b, c, d, a2, b3);
    MixProducts1(a, b, c, d, b2, c3);
    MixProducts2(a, b, c, d, c2, d3);
    MixProducts3(a, b, c, d, a3, d2);
  }

  /** The four bytes of one InvMixColumns output column, from the source's gmul products. */
  method InvMixColumnOf(a: bv8, b: bv8, c: bv8, d: bv8) returns (m0: bv8, m1: bv8, m2: bv8, m3: bv8)
    ensures m0 == InvMixColumnByte(0, a, b, c, d) && m1 == InvMixColumnByte(1, a, b, c, d)
    ensures m2 == InvMixColumnByte(2, a, b, c, d) && m3 == InvMixColumnByte(3, a, b, c, d)
  {
    var a9 := Gmul(a, 9);
    var a11 := Gmul(a, 11);
    var a13 := Gmul(a, 13);
    var a14 := Gmul(a, 14);
    var b9 := Gmul(b, 9);
    var b11 := Gmul(b, 11);
    var b13 := Gmul(b, 13);
    var b14 := Gmul(b, 14);
    var c9 := Gmul(c, 9);
    var c11 := Gmul(c, 11);
    var c13 := Gmul(c, 13);
    var c14 := Gmul(c, 14);
    var d9 := Gmul(d, 9);
    var d11 := Gmul(d, 11);
    var d13 := Gmul(d, 13);
    var d14 := Gmul(d, 14);
    m0 := a14 ^ b11 ^ c13 ^ d9;
    m1 := a9 ^ b14 ^ c11 ^ d13;
    m2 := a13 ^ b9 ^ c14 ^ d11;
    m3 := a11 ^ b13 ^ c9 ^ d14;
    InvMixProducts0(a, b, c, d, a14, b11, c13, d9);
    InvMixProducts1(a, b, c, d, a9, b14, c11, d13);
    InvMixProducts2(a, b, c, d, a13, b9, c14, d11);
    InvMixProducts3(a, b, c, d, a11, b13, c9, d14);
  }

  /** Column col of the MixColumns output, written into a separate matrix. */
  method MixColumnInto(state: array2<bv8>, temporaryState: array2<bv8>, col: nat)
    requires IsState(state) && IsState(temporaryState) && state != temporaryState && col < 4
    modifies temporaryState
    ensures temporaryState[0, col] == MixColumnByte(0, state[0, col], state[1, col], state[2, col], state[3, col])
    ensures temporaryState[1, col] == MixColumnByte(1, state[0, col], state[1, col], state[2, col], state[3, col])
    ensures temporaryState[2, col] == MixColumnByte(2, state[0, col], state[1, col], state[2, col], state[3, col])
    ensures temporaryState[3, col] == MixColumnByte(3, state[0, col], state[1, col], state[2, col], state[3, col])
    ensures forall r, c :: 0 <= r < 4 && 0 <= c < 4 && c != col ==> temporaryState[r, c] == old(temporaryState[r, c])
  {
    var m0, m1, m2, m3 := MixColumnOf(state[0, col], state[1, col], state[2, col], state[3, col]);
    temporaryState[0, col] := m0;
    temporaryState[1, col] := m1;
    temporaryState[2, col] := m2;
    temporaryState[3, col] := m3;
  }

  /** Column col of the InvMixColumns output, written into a separate matrix. */
  method InvMixColumnInto(state: array2<bv8>, temporaryState: array2<bv8>, col: nat)
    requires IsState(state) && IsState(temporaryState) && state != temporaryState && col < 4
    modifies temporaryState
    ensures temporaryState[0, col] == InvMixColumnByte(0, state[0, col], state[1, col], state[2, col], state[3, col])
    ensures temporaryState[1, col] == InvMixColumnByte(1, state[0, col], state[1, col], state[2, col], state[3, col])
    ensures temporaryState[2, col] == InvMixColumnByte(2, state[0, col], state[1, col], state[2, col], state[3, col])
    ensures temporaryState[3, col] == InvMixColumnByte(3, state[0, col], state[1, col], state[2, col], state[3, col])
    ensures forall r, c :: 0 <= r < 4 && 0 <= c < 4 && c != col ==> temporaryState[r, c] == old(temporaryState[r, c])
  {
    var m0, m1, m2, m3 := InvMixColumnOf(state[0, col], state[1, col], state[2, col], state[3, col]);
    temporaryState[0, col] := m0;
    temporaryState[1, col] := m1;
    temporaryState[2, col] := m2;
    temporaryState[3, col] := m3;
  }

  /** Copies one state matrix into another, cell by cell. */
  method CopyState(source: array2<bv8>, target: array2<bv8>)
    requires IsState(source) && IsState(target) && source != target
    modifies target
    ensures forall r, c :: 0 <= r < 4 && 0 <= c < 4 ==> target[r, c] == source[r, c]
    ensures Contents(target) == Contents(source)
  {
    for r := 0 to 4
      invariant forall r', c' :: 0 <= r' < r && 0 <= c' < 4 ==> target[r', c'] == source[r', c']
    {
      for c := 0 to 4
        invariant forall r', c' :: 0 <= r' < 4 && 0 <= c' < 4 && (r' < r || (r' == r && c' < c)) ==> target[r', c'] == source[r', c']
      {
        target[r, c] := source[r, c];
      }
    }
    BlockCells(Contents(target), Contents(source));
  }

  /** The source's column loop: every column of the MixColumns output, written into a separate matrix. */
  method AllMixColumnsInto(state: array2<bv8>, temporaryState: array2<bv8>)
    requires IsState(state) && IsState(temporaryState) && state != temporaryState
    modifies temporaryState
    ensures Contents(temporaryState) == AesSpec.MixColumns(Contents(state))
  {
    for col := 0 to 4
      invariant forall c :: 0 <= c < col ==>
        temporaryState[0, c] == MixColumnByte(0, state[0, c], state[1, c], state[2, c], state[3, c]) &&
        temporaryState[1, c] == MixColumnByte(1, state[0, c], state[1, c], state[2, c], state[3, c]) &&
        temporaryState[2, c] == MixColumnByte(2, state[0, c], state[1, c], state[2, c], state[3, c]) &&
        temporaryState[3, c] == MixColumnByte(3, state[0, c], state[1, c], state[2, c], state[3, c])
    {
      MixColumnInto(state, temporaryState, col);
    }
    MixColumnsCells(Contents(temporaryState), Contents(state));
  }

  /** The source's column loop: every column of the InvMixColumns output, written into a separate matrix. */
  method AllInvMixColumnsInto(state: array2<bv8>, temporaryState: array2<bv8>)
    requires IsState(state) && IsState(temporaryState) && state != temporaryState
    modifies temporaryState
    ensures Contents(temporaryState) == AesSpec.InvMixColumns(Contents(state))
  {
    for col := 0 to 4
      invariant forall c :: 0 <= c < col ==>
        temporaryState[0, c] == InvMixColumnByte(0, state[0, c], state[1, c], state[2, c], state[3, c]) &&
        temporaryState[1, c] == InvMixColumnByte(1, state[0, c], state[1, c], state[2, c], state[3, c]) &&
        temporaryState[2, c] == InvMixColumnByte(2, state[0, c], state[1, c], state[2, c], state[3, c]) &&
        temporaryState[3, c] == InvMixColumnByte(3, state[0, c], state[1, c], state[2, c], state[3, c])
    {
      InvMixColumnInto(state, temporaryState, col);
    }
    InvMixColumnsCells(Contents(temporaryState), Contents(state));
  }

  class Aes {
    /** Number of columns of the state (always 4). */
    const nb: nat
    /** Key length in 32-bit words. */
    const nk: nat
    /** Number of rounds. */
    const nr: nat

    ghost predicate Valid()
    {
      nb == 4 && ValidShape(Shape(nk, nr))
    }

    /** Chooses Nk and Nr from the key length; any length but 16, 24 or 32 is refused (ShapeOf gives None). */
    constructor (masterKey: seq<bv8>)
      requires ShapeOf(|masterKey|).Some?
      ensures Valid() && Shape(nk, nr) == ShapeOf(|masterKey|).value
    {
      nb := 4;
      if |masterKey| == 16 {
        nk, nr := 4, 10;
      } else if |masterKey| == 24 {
        nk, nr := 6, 12;
      } else {
        nk, nr := 8, 14;
      }
    }

    /** Replaces every byte of the state by its S-box image. */
    method SubBytes(state: array2<bv8>)
      requires Valid() && IsState(state)
      modifies state
      ensures Contents(state) == AesSpec.SubBytes(old(Contents(state)))
    {
      ghost var before := Contents(state);
      for r := 0 to 4
        invariant forall r', c' :: 0 <= r' < 4 && 0 <= c' < 4 ==>
          state[r', c'] == if r' < r then SBox(before[Index(r', c')]) else before[Index(r', c')]
      {
        for c := 0 to nb
          invariant forall r', c' :: 0 <= r' < 4 && 0 <= c' < 4 ==>
            state[r', c'] == if r' < r || (r' == r && c' < c) then SBox(before[Index(r', c')]) else before[Index(r', c')]
        {
          state[r, c] := SBox(state[r, c]);
        }
      }
      BlockCells(Contents(state), AesSpec.SubBytes(before));
    }

    /** Replaces every byte of the state by its inverse S-box image. */
    method InvSubBytes(state: array2<bv8>)
      requires Valid() && IsState(state)
      modifies state
      ensures Contents(state) == AesSpec.InvSubBytes(old(Contents(state)))
    {
      ghost var before := Contents(state);
      for r := 0 to 4
        invariant forall r', c' :: 0 <= r' < 4 && 0 <= c' < 4 ==>
          state[r', c'] == if r' < r then InvSBox(before[Index(r', c')]) else before[Index(r', c')]
      {
        for c := 0 to nb
          invariant forall r', c' :: 0 <= r' < 4 && 0 <= c' < 4 ==>
            state[r', c'] == if r' < r || (r' == r && c' < c) then InvSBox(before[Index(r', c')]) else before[Index(r', c')]
        {
          state[r, c] := InvSBox(state[r, c]);
        }
      }
      BlockCells(Contents(state), AesSpec.InvSubBytes(before));
    }

    /** Rotates row 1 of the state left by one place, row 2 by two and row 3 by three. */
    method ShiftRows(state: array2<bv8>)
      requires IsState(state)
      modifies state
      ensures Contents(state) == AesSpec.ShiftRows(old(Contents(state)))
    {
      ghost var before := Contents(state);
      RotateRowLeft(state, 1);
      SwapRowHalves(state, 2);
      RotateRowRight(state, 3);
      ShiftRowsByRows(before);
    }

    /** Rotates row 1 of the state right by one place, row 2 by two and row 3 by three. */
    method InvShiftRows(state: array2<bv8>)
      requires IsState(state)
      modifies state
      ensures Contents(state) == AesSpec.InvShiftRows(old(Contents(state)))
    {
      ghost var before := Contents(state);
      RotateRowRight(state, 1);
      SwapRowHalves(state, 2);
      RotateRowLeft(state, 3);
      InvShiftRowsByRows(before);
    }

    /** Multiplies every column of the state by the MixColumns matrix over GF(2^8). */
    method MixColumns(state: array2<bv8>)
      requires IsState(state)
      modifies state
      ensures Contents(state) == AesSpec.MixColumns(old(Contents(state)))
    {
      var temporaryState := new bv8[4, 4];
      AllMixColumnsInto(state, temporaryState);
      CopyState(temporaryState, state);
    }

    /** Multiplies every column of the state by the InvMixColumns matrix over GF(2^8). */
    method InvMixColumns(state: array2<bv8>)
      requires IsState(state)
      modifies state
      ensures Contents(state) == AesSpec.InvMixColumns(old(Contents(state)))
    {
      var temporaryState := new bv8[4, 4];
      AllInvMixColumnsInto(state, temporaryState);
      CopyState(temporaryState, state);
    }

    /** The temporary word for word wordNum: RotWord, SubWord and the round constant at the start of each key length, SubWord alone halfway through a 256-bit key. */
    method TransformTemp(tempWord: array<bv8>, wordNum: nat)
      requires Valid() && tempWord.Length == 4 && nk <= wordNum < WordCount(Shape(nk, nr))
      modifies tempWord
      ensures tempWord[..] == ScheduleTemp(old(tempWord[..]), wordNum, Shape(nk, nr))
    {
      if wordNum % nk == 0 {
        KeyStartTemp(tempWord, wordNum);
      } else if nk > 6 && wordNum % nk == 4 {
        SubstituteWord(tempWord);
      }
    }

    /** The first branch of the transformation: RotWord, SubWord, then the round constant. */
    method KeyStartTemp(tempWord: array<bv8>, wordNum: nat)
      requires Valid() && tempWord.Length == 4 && nk <= wordNum < WordCount(Shape(nk, nr)) && wordNum % nk == 0
      modifies tempWord
      ensures tempWord[..] == ScheduleTemp(old(tempWord[..]), wordNum, Shape(nk, nr))
    {
      ghost var prev := tempWord[..];
      RotateWord(tempWord);
      SubstituteWord(tempWord);
      TempAtKeyStart(prev, wordNum, Shape(nk, nr), tempWord[..]);
      AddRoundConstant(tempWord, Rcon[wordNum / nk]);
    }

    /** Fills the expanded key with the Nb * (Nr + 1) words of the key schedule of the master key. */
    method KeyExpansion(masterKeyBytes: seq<bv8>, expandedKeyStorage: array3<bv8>)
      requires Valid() && KeyFits(masterKeyBytes, Shape(nk, nr)) && IsKeySet(expandedKeyStorage, nr)
      modifies expandedKeyStorage
      ensures forall round :: 0 <= round <= nr ==>
        RoundKeyOf(expandedKeyStorage, round) == RoundKey(masterKeyBytes, Shape(nk, nr), round)
    {
      ghost var words := Schedule(masterKeyBytes, Shape(nk, nr));
      CopyKeyWords(masterKeyBytes, expandedKeyStorage);
      ScheduleFollows(masterKeyBytes, Shape(nk, nr));
      ScheduleWords(expandedKeyStorage, words);
      RoundKeysFromWords(expandedKeyStorage, masterKeyBytes, Shape(nk, nr), words);
    }

    /** The first loop of the key expansion: the first Nk words are the master key's bytes, four at a time. */
    method CopyKeyWords(masterKeyBytes: seq<bv8>, expandedKeyStorage: array3<bv8>)
      requires Valid() && KeyFits(masterKeyBytes, Shape(nk, nr)) && IsKeySet(expandedKeyStorage, nr)
      modifies expandedKeyStorage
      ensures forall v :: 0 <= v < nk ==> WordOf(expandedKeyStorage, v) == Schedule(masterKeyBytes, Shape(nk, nr))[v]
    {
      for wordNum := 0 to nk
        invariant forall v :: 0 <= v < wordNum ==> WordOf(expandedKeyStorage, v) == Schedule(masterKeyBytes, Shape(nk, nr))[v]
      {
        StoreWord(expandedKeyStorage, wordNum, masterKeyBytes[4 * wordNum], masterKeyBytes[4 * wordNum + 1],
          masterKeyBytes[4 * wordNum + 2], masterKeyBytes[4 * wordNum + 3]);
      }
    }

    /**
     * The second loop of the key expansion: each later word is the word Nk
     * places back XORed with the transformed previous word.
     */
    method ScheduleWords(expandedKeyStorage: array3<bv8>, ghost words: seq<Word>)
      requires Valid() && IsKeySet(expandedKeyStorage, nr) && |words| == WordCount(Shape(nk, nr))
      requires Scheduled(words, Shape(nk, nr))
      requires forall v :: 0 <= v < nk ==> WordOf(expandedKeyStorage, v) == words[v]
      modifies expandedKeyStorage
      ensures forall v :: 0 <= v < |words| ==> WordOf(expandedKeyStorage, v) == words[v]
    {
      var tempWord := new bv8[4];
      for wordNum := nk to nb * (nr + 1)
        invariant forall v :: 0 <= v < wordNum ==> WordOf(expandedKeyStorage, v) == words[v]
      {
        var previous, earlier := wordNum - 1, wordNum - nk;
        ghost var temp := ScheduleTemp(words[previous], wordNum, Shape(nk, nr));
        assert WordOf(expandedKeyStorage, earlier) == words[earlier];
        LoadWord(expandedKeyStorage, previous, tempWord);
        TransformTemp(tempWord, wordNum);
        assert tempWord[..] == temp;
        XorStoreWord(expandedKeyStorage, wordNum, earlier, tempWord);
        assert WordOf(expandedKeyStorage, wordNum) == XorWord(words[earlier], temp);
      }
    }

    /** Allocates the expanded key (Nb * (Nr + 1) / 4 round keys of 4 x 4 bytes) and fills it from the master key. */
    method ExpandedKey(masterKey: seq<bv8>) returns (expandedKeySet: array3<bv8>)
      requires Valid() && KeyFits(masterKey, Shape(nk, nr))
      ensures fresh(expandedKeySet) && IsKeySet(expandedKeySet, nr)
      ensures forall round :: 0 <= round <= nr ==>
        RoundKeyOf(expandedKeySet, round) == RoundKeys(masterKey, Shape(nk, nr))[round]
    {
      expandedKeySet := new bv8[nb * (nr + 1) / 4, 4, 4];
      KeyExpansion(masterKey, expandedKeySet);
    }

    /** One full encryption round: SubBytes, ShiftRows, MixColumns, then the round key. */
    method EncryptRound(state: array2<bv8>, expandedKeySet: array3<bv8>, round: nat)
      requires Valid() && IsState(state) && IsKeySet(expandedKeySet, nr) && round <= nr
      modifies state
      ensures Contents(state) ==
        AesSpec.AddRoundKey(AesSpec.MixColumns(AesSpec.ShiftRows(AesSpec.SubBytes(old(Contents(state))))), RoundKeyOf(expandedKeySet, round))
    {
      SubBytes(state);
      ShiftRows(state);
      MixColumns(state);
      AddRoundKey(state, expandedKeySet, round);
    }

    /** One full decryption round: InvShiftRows, InvSubBytes, the round key, then InvMixColumns. */
    method DecryptRound(state: array2<bv8>, expandedKeySet: array3<bv8>, round: nat)
      requires Valid() && IsState(state) && IsKeySet(expandedKeySet, nr) && round <= nr
      modifies state
      ensures Contents(state) ==
        AesSpec.InvMixColumns(AesSpec.AddRoundKey(AesSpec.InvSubBytes(AesSpec.InvShiftRows(old(Contents(state)))), RoundKeyOf(expandedKeySet, round)))
    {
      InvShiftRows(state);
      InvSubBytes(state);
      AddRoundKey(state, expandedKeySet, round);
      InvMixColumns(state);
    }

    /** Encrypts the first 16 bytes of the input under the master key: AES encryption of one block. */
    method Cipher(inputDataBlock: seq<bv8>, masterKey: seq<bv8>) returns (outputDataBlock: seq<bv8>)
      requires Valid() && |inputDataBlock| >= 16 && KeyFits(masterKey, Shape(nk, nr))
      ensures outputDataBlock == AesSpec.Cipher(inputDataBlock[..16], masterKey, Shape(nk, nr))
    {
      var currentState := LoadState(inputDataBlock);
      var expandedKeySet := ExpandedKey(masterKey);
      EncryptState(currentState, expandedKeySet, RoundKeys(masterKey, Shape(nk, nr)));
      outputDataBlock := StoreState(currentState);
    }

    /** The rounds of Cipher on the state in place: round key 0, rounds 1 to Nr - 1, then the final round. */
    method EncryptState(currentState: array2<bv8>, expandedKeySet: array3<bv8>, ghost keys: seq<Block>)
      requires Valid() && IsState(currentState) && IsKeySet(expandedKeySet, nr) && |keys| == nr + 1
      requires forall round :: 0 <= round <= nr ==> RoundKeyOf(expandedKeySet, round) == keys[round]
      modifies currentState
      ensures Contents(currentState) == EncryptBlock(old(Contents(currentState)), keys)
    {
      ghost var block := Contents(currentState);
      AddRoundKey(currentState, expandedKeySet, 0);
      MiddleRounds(currentState, expandedKeySet, keys, block);
      ghost var previous := Contents(currentState);
      FinalRound(currentState, expandedKeySet);
      EncryptLast(block, keys, previous, RoundKeyOf(expandedKeySet, nr));
    }

    /** Rounds 1 to Nr - 1 of Cipher, each SubBytes, ShiftRows, MixColumns and its round key. */
    method MiddleRounds(currentState: array2<bv8>, expandedKeySet: array3<bv8>, ghost keys: seq<Block>, ghost block: Block)
      requires Valid() && IsState(currentState) && IsKeySet(expandedKeySet, nr) && |keys| == nr + 1
      requires forall round :: 0 <= round <= nr ==> RoundKeyOf(expandedKeySet, round) == keys[round]
      requires Contents(currentState) == EncryptRounds(block, keys, 0)
      modifies currentState
      ensures Contents(currentState) == EncryptRounds(block, keys, nr - 1)
    {
      var currentRound := 1;
      ghost var done: nat := 0;
      while currentRound < nr
        invariant 1 <= currentRound <= nr && done == currentRound - 1
        invariant Contents(currentState) == EncryptRounds(block, keys, done)
      {
        ghost var previous := Contents(currentState);
        EncryptRound(currentState, expandedKeySet, currentRound);
        EncryptStep(block, keys, currentRound, previous, RoundKeyOf(expandedKeySet, currentRound));
        done := currentRound;
        currentRound := currentRound + 1;
      }
      assert done == nr - 1;
    }

    /** The final encryption round: SubBytes, ShiftRows, then the last round key (no MixColumns). */
    method FinalRound(state: array2<bv8>, expandedKeySet: array3<bv8>)
      requires Valid() && IsState(state) && IsKeySet(expandedKeySet, nr)
      modifies state
      ensures Contents(state) == AesSpec.AddRoundKey(AesSpec.ShiftRows(AesSpec.SubBytes(old(Contents(state)))), RoundKeyOf(expandedKeySet, nr))
    {
      SubBytes(state);
      ShiftRows(state);
      AddRoundKey(state, expandedKeySet, nr);
    }

    /** Decrypts the first 16 bytes of the input under the master key: AES decryption of one block. */
    method InvCipher(inputDataBlock: seq<bv8>, masterKey: seq<bv8>) returns (outputDataBlock: seq<bv8>)
      requires Valid() && |inputDataBlock| >= 16 && KeyFits(masterKey, Shape(nk, nr))
      ensures outputDataBlock == AesSpec.InvCipher(inputDataBlock[..16], masterKey, Shape(nk, nr))
    {
      var currentState := LoadState(inputDataBlock);
      var expandedKeySet := ExpandedKey(masterKey);
      DecryptState(currentState, expandedKeySet, RoundKeys(masterKey, Shape(nk, nr)));
      outputDataBlock := StoreState(currentState);
    }

    /** The rounds of InvCipher on the state in place: round key Nr, rounds Nr - 1 down to 1, then the final round. */
    method DecryptState(currentState: array2<bv8>, expandedKeySet: array3<bv8>, ghost keys: seq<Block>)
      requires Valid() && IsState(currentState) && IsKeySet(expandedKeySet, nr) && |keys| == nr + 1
      requires forall round :: 0 <= round <= nr ==> RoundKeyOf(expandedKeySet, round) == keys[round]
      modifies currentState
      ensures Contents(currentState) == DecryptBlock(old(Contents(currentState)), keys)
    {
      ghost var block := Contents(currentState);
      AddRoundKey(currentState, expandedKeySet, nr);
      DecryptFirst(block, keys, Contents(currentState), RoundKeyOf(expandedKeySet, nr));
      InvMiddleRounds(currentState, expandedKeySet, keys, block);
      ghost var previous := Contents(currentState);
      InvFinalRound(currentState, expandedKeySet);
      DecryptLast(block, keys, previous, RoundKeyOf(expandedKeySet, 0));
    }

    /** Rounds Nr - 1 down to 1 of InvCipher, each InvShiftRows, InvSubBytes, its round key and InvMixColumns. */
    method InvMiddleRounds(currentState: array2<bv8>, expandedKeySet: array3<bv8>, ghost keys: seq<Block>, ghost block: Block)
      requires Valid() && IsState(currentState) && IsKeySet(expandedKeySet, nr) && |keys| == nr + 1
      requires forall round :: 0 <= round <= nr ==> RoundKeyOf(expandedKeySet, round) == keys[round]
      requires Contents(currentState) == DecryptRounds(block, keys, nr)
      modifies currentState
      ensures Contents(currentState) == DecryptRounds(block, keys, 1)
    {
      var currentRound := nr - 1;
      ghost var above: nat := nr;
      while currentRound >= 1
        invariant 0 <= currentRound < nr && above == currentRound + 1
        invariant Contents(currentState) == DecryptRounds(block, keys, above)
      {
        ghost var previous := Contents(currentState);
        DecryptRound(currentState, expandedKeySet, currentRound);
        DecryptStep(block, keys, currentRound, previous, RoundKeyOf(expandedKeySet, currentRound));
        above := currentRound;
        currentRound := currentRound - 1;
      }
      assert above == 1;
    }

    /** The final decryption round: InvShiftRows, InvSubBytes, then round key 0 (no InvMixColumns). */
    method InvFinalRound(state: array2<bv8>, expandedKeySet: array3<bv8>)
      requires Valid() && IsState(state) && IsKeySet(expandedKeySet, nr)
      modifies state
      ensures Contents(state) == AesSpec.AddRoundKey(AesSpec.InvSubBytes(AesSpec.InvShiftRows(old(Contents(state)))), RoundKeyOf(expandedKeySet, 0))
    {
      InvShiftRows(state);
      InvSubBytes(state);
      AddRoundKey(state, expandedKeySet, 0);
    }

    /** Adds (xors) round key `round` of the expanded key into the state. */
    method AddRoundKey(state: array2<bv8>, expandedKeySet: array3<bv8>, round: nat)
      requires Valid() && IsState(state) && IsKeySet(expandedKeySet, nr) && round <= nr
      modifies state
      ensures Contents(state) == AesSpec.AddRoundKey(old(Contents(state)), RoundKeyOf(expandedKeySet, round))
    {
      ghost var before := Contents(state);
      ghost var roundKey := RoundKeyOf(expandedKeySet, round);
      RoundKeyCells(expandedKeySet, round);
      for c := 0 to nb
        invariant forall r', c' :: 0 <= r' < 4 && 0 <= c' < 4 ==>
          state[r', c'] == if c' < c then before[Index(r', c')] ^ roundKey[Index(r', c')] else before[Index(r', c')]
      {
        for r := 0 to 4
          invariant forall r', c' :: 0 <= r' < 4 && 0 <= c' < 4 ==>
            state[r', c'] == if c' < c || (c' == c && r' < r) then before[Index(r', c')] ^ roundKey[Index(r', c')] else before[Index(r', c')]
        {
          state[r, c] := state[r, c] ^ expandedKeySet[round, r, c];
        }
      }
      BlockCells(Contents(state), AesSpec.AddRoundKey(before, roundKey));
    }
  }

  /**
   * `new AES(masterKey)`: the cipher object for a 16-, 24- or 32-byte key, or
   * None where the constructor throws ArgumentException for any other length.
   */
  method NewAes(masterKey: seq<bv8>) returns (r: Option<Aes>)
    ensures r.None? <==> |masterKey| != 16 && |masterKey| != 24 && |masterKey| != 32
    ensures r.Some? ==> fresh(r.value) && r.value.Valid() && Shape(r.value.nk, r.value.nr) == ShapeOf(|masterKey|).value
  {
    if |masterKey| != 16 && |masterKey| != 24 && |masterKey| != 32 {
      return None;
    }
    var aes := new Aes(masterKey);
    return Some(aes);
  }
}
