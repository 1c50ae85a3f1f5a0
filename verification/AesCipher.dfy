/**
  The AES-256 block cipher of the fallback: key schedule and cipher as loops, and the proof that
  under any fifteen round keys the inverse cipher of section 5.3 of FIPS 197 undoes it both ways.
 */
module AesCipher {
  import opened SubstitutionBox
  import opened MixColumns

  type Bytes = seq<bv8>

  const ZERO_BLOCK: Bytes := [0, 0, 0, 0, 0, 0, 0, 0, 0, 0, 0, 0, 0, 0, 0, 0]

  type Block = b: Bytes | |b| == 16 witness ZERO_BLOCK

  type RoundKeys = k: seq<Block> | |k| == 15
    witness [ZERO_BLOCK, ZERO_BLOCK, ZERO_BLOCK, ZERO_BLOCK, ZERO_BLOCK, ZERO_BLOCK, ZERO_BLOCK, ZERO_BLOCK,
             ZERO_BLOCK, ZERO_BLOCK, ZERO_BLOCK, ZERO_BLOCK, ZERO_BLOCK, ZERO_BLOCK, ZERO_BLOCK]

  /** bytes([a ^ b for a, b in zip(x, y)]): the shorter operand decides the length. */
  function XorBytes(x: Bytes, y: Bytes): (z: Bytes)
    ensures |z| == if |x| <= |y| then |x| else |y|
  {
    seq(if |x| <= |y| then |x| else |y|, i requires 0 <= i < |x| && i < |y| => x[i] ^ y[i])
  }

  // --- The four steps of a round ---

  function SubBytes(s: Bytes): (t: Bytes)
    ensures |t| == |s|
  {
    seq(|s|, i requires 0 <= i < |s| => SBox(s[i]))
  }

  function InvSubBytes(s: Bytes): (t: Bytes)
    ensures |t| == |s|
  {
    seq(|s|, i requires 0 <= i < |s| => InvSBox(s[i]))
  }

  function ShiftRows(s: Block): Block {
    [s[0], s[5], s[10], s[15],
     s[4], s[9], s[14], s[3],
     s[8], s[13], s[2], s[7],
     s[12], s[1], s[6], s[11]]
  }

  function InvShiftRows(s: Block): Block {
    [s[0], s[13], s[10], s[7],
     s[4], s[1], s[14], s[11],
     s[8], s[5], s[2], s[15],
     s[12], s[9], s[6], s[3]]
  }

  function ColumnAt(s: Bytes, c: nat): Column
    requires 4 * c + 3 < |s|
  {
    Column(s[4 * c], s[4 * c + 1], s[4 * c + 2], s[4 * c + 3])
  }

  function ByteOf(c: Column, k: nat): bv8
    requires k < 4
  {
    if k == 0 then c.s0 else if k == 1 then c.s1 else if k == 2 then c.s2 else c.s3
  }

  function MapColumns(f: Column -> Column, s: Block): Block {
    seq(16, i requires 0 <= i < 16 => ByteOf(f(ColumnAt(s, i / 4)), i % 4))
  }

  function MixBlock(s: Block): Block {
    MapColumns(MixColumn, s)
  }

  function InvMixBlock(s: Block): Block {
    MapColumns(InvMixColumn, s)
  }

  function AddRoundKey(s: Block, k: Block): Block {
    XorBytes(s, k)
  }

  // --- Cipher and inverse cipher ---

  /** The state after the initial key addition and r full rounds. */
  function Rounds(block: Block, keys: RoundKeys, r: nat): Block
    requires r <= 13
  {
    if r == 0 then AddRoundKey(block, keys[0])
    else AddRoundKey(MixBlock(ShiftRows(SubBytes(Rounds(block, keys, r - 1)))), keys[r])
  }

  function Cipher(block: Block, keys: RoundKeys): Block {
    AddRoundKey(ShiftRows(SubBytes(Rounds(block, keys, 13))), keys[14])
  }

  /** The rounds r down to 1 of the inverse cipher: InvShiftRows, InvSubBytes, AddRoundKey, InvMixColumns. */
  function InvRounds(s: Block, keys: RoundKeys, r: nat): Block
    requires r <= 13
    decreases r
  {
    hide InvMixBlock, InvSubBytes, InvShiftRows, AddRoundKey;
    if r == 0 then s
    else InvRounds(InvMixBlock(AddRoundKey(InvSubBytes(InvShiftRows(s)), keys[r])), keys, r - 1)
  }

  /** InvCipher of section 5.3 of FIPS 197. */
  function InvCipher(block: Block, keys: RoundKeys): Block {
    AddRoundKey(InvSubBytes(InvShiftRows(InvRounds(AddRoundKey(block, keys[14]), keys, 13))), keys[0])
  }

  // --- The loops ---

  method MixColumnsLoop(state: Block) returns (result: Bytes)
    ensures result == MixBlock(state)
  {
    hide MixByte, MixBlock;
    result := [];
    for c := 0 to 4
      invariant result == MixBlock(state)[..4 * c]
    {
      var s0, s1, s2, s3 := state[c * 4], state[c * 4 + 1], state[c * 4 + 2], state[c * 4 + 3];
      MixedColumn(state, c, s0, s1, s2, s3);
      var t := s0 ^ s1 ^ s2 ^ s3;
      var u := s0;
      s0 := MixByte(s0, t, s1);
      s1 := MixByte(s1, t, s2);
      s2 := MixByte(s2, t, s3);
      s3 := MixByte(s3, t, u);
      result := result + [s0, s1, s2, s3];
    }
  }

  lemma NextColumn(t: Block, c: nat)
    requires c < 4
    ensures
      var d := ColumnAt(t, c);
      t[..4 * c + 4] == t[..4 * c] + [d.s0, d.s1, d.s2, d.s3]
  {}

  lemma MixedColumn(s: Block, c: nat, s0: bv8, s1: bv8, s2: bv8, s3: bv8)
    requires c < 4 && s0 == s[4 * c] && s1 == s[4 * c + 1] && s2 == s[4 * c + 2] && s3 == s[4 * c + 3]
    ensures
      var t := s0 ^ s1 ^ s2 ^ s3;
      MixBlock(s)[..4 * (c + 1)]
        == MixBlock(s)[..4 * c] + [MixByte(s0, t, s1), MixByte(s1, t, s2), MixByte(s2, t, s3), MixByte(s3, t, s0)]
  {
    hide MixByte, MixBlock, ColumnSum;
    MixBlockAt(s, c);
    ColumnSumCode(ColumnAt(s, c));
    hide ColumnAt;
    NextColumn(MixBlock(s), c);
  }

  lemma MixBlockAt(s: Block, c: nat)
    requires c < 4
    ensures ColumnAt(MixBlock(s), c) == MixColumn(ColumnAt(s, c))
  {
    hide MixColumn, MapColumns;
    MapColumnsAt(MixColumn, s, c);
  }

  lemma MapColumnsAt(f: Column -> Column, s: Block, c: nat)
    requires c < 4
    ensures ColumnAt(MapColumns(f, s), c) == f(ColumnAt(s, c))
  {}

  lemma ColumnSumCode(c: Column)
    ensures ColumnSum(c) == c.s0 ^ c.s1 ^ c.s2 ^ c.s3
  {}

  method AesEncryptBlock(block: Block, keys: RoundKeys) returns (out: Block)
    ensures out == Cipher(block, keys)
  {
    var state := XorBytes(block, keys[0]);
    for r := 1 to 14
      invariant |state| == 16 && state == Rounds(block, keys, r - 1)
    {
      state := SubBytes(state);
      state := ShiftRows(state);
      if r < 14 {
        state := MixColumnsLoop(state);
      }
      state := XorBytes(state, keys[r]);
    }
    state := SubBytes(state);
    state := ShiftRows(state);
    state := XorBytes(state, keys[14]);
    return state;
  }

  // --- Each step is undone ---

  lemma XorTwice(x: Bytes, k: Bytes)
    requires |x| <= |k|
    ensures XorBytes(XorBytes(x, k), k) == x
  {}

  lemma SubInverse(s: Bytes)
    ensures InvSubBytes(SubBytes(s)) == s
    ensures SubBytes(InvSubBytes(s)) == s
  {
    hide SBox, InvSBox;
    forall i | 0 <= i < |s|
      ensures InvSBox(SBox(s[i])) == s[i] && SBox(InvSBox(s[i])) == s[i]
    {
      SBoxInverse(s[i]);
    }
  }

  /** ShiftRows as section 5.1.2 of FIPS 197 has it: row r moves r places left. */
  lemma ShiftRowsMovesRows(s: Block, r: nat, c: nat)
    requires r < 4 && c < 4
    ensures ShiftRows(s)[r + 4 * c] == s[r + 4 * ((c + r) % 4)]
  {}

  lemma ShiftInverse(s: Block)
    ensures InvShiftRows(ShiftRows(s)) == s
    ensures ShiftRows(InvShiftRows(s)) == s
  {}

  lemma MixBlockInverse(s: Block)
    ensures InvMixBlock(MixBlock(s)) == s
    ensures MixBlock(InvMixBlock(s)) == s
  {
    hide MixColumn, InvMixColumn;
    forall c | 0 <= c < 4
      ensures InvMixColumn(MixColumn(ColumnAt(s, c))) == ColumnAt(s, c)
      ensures MixColumn(InvMixColumn(ColumnAt(s, c))) == ColumnAt(s, c)
    {
      MixInverse(ColumnAt(s, c));
    }
    UnmapColumns(MixColumn, InvMixColumn, s);
    UnmapColumns(InvMixColumn, MixColumn, s);
  }

  lemma UnmapColumns(f: Column -> Column, g: Column -> Column, s: Block)
    requires forall c :: 0 <= c < 4 ==> g(f(ColumnAt(s, c))) == ColumnAt(s, c)
    ensures MapColumns(g, MapColumns(f, s)) == s
  {
    var t := MapColumns(f, s);
    var u := MapColumns(g, t);
    hide MapColumns;
    forall i | 0 <= i < 16
      ensures u[i] == s[i]
    {
      var c, k := i / 4, i % 4;
      MapColumnsAt(f, s, c);
      MapColumnsAt(g, t, c);
      assert ByteOf(ColumnAt(u, c), k) == ByteOf(ColumnAt(s, c), k);
    }
  }

  // --- The cipher is a permutation ---

  lemma {:induction false} RoundsUndone(block: Block, keys: RoundKeys, r: nat)
    requires r <= 13
    ensures InvRounds(ShiftRows(SubBytes(Rounds(block, keys, r))), keys, r)
         == ShiftRows(SubBytes(AddRoundKey(block, keys[0])))
  {
    hide ShiftRows, SubBytes, InvShiftRows, InvSubBytes, MixBlock, InvMixBlock, XorBytes;
    if r == 0 {
    } else {
      var s := Rounds(block, keys, r);
      var prev := ShiftRows(SubBytes(Rounds(block, keys, r - 1)));
      ShiftInverse(SubBytes(s));
      SubInverse(s);
      XorTwice(MixBlock(prev), keys[r]);
      MixBlockInverse(prev);
      RoundsUndone(block, keys, r - 1);
    }
  }

  lemma InvCipherUndoesCipher(block: Block, keys: RoundKeys)
    ensures InvCipher(Cipher(block, keys), keys) == block
  {
    hide ShiftRows, SubBytes, InvShiftRows, InvSubBytes, InvRounds, Rounds, XorBytes;
    var last := ShiftRows(SubBytes(Rounds(block, keys, 13)));
    XorTwice(last, keys[14]);
    RoundsUndone(block, keys, 13);
    var first := AddRoundKey(block, keys[0]);
    ShiftInverse(SubBytes(first));
    SubInverse(first);
    XorTwice(block, keys[0]);
  }

  lemma {:induction false} RoundsRedone(s: Block, block: Block, keys: RoundKeys, r: nat)
    requires r <= 13
    requires block == AddRoundKey(InvSubBytes(InvShiftRows(InvRounds(s, keys, r))), keys[0])
    ensures ShiftRows(SubBytes(Rounds(block, keys, r))) == s
    decreases r
  {
    hide ShiftRows, SubBytes, InvShiftRows, InvSubBytes, MixBlock, InvMixBlock, XorBytes;
    ShiftInverse(s);
    SubInverse(InvShiftRows(s));
    if r == 0 {
      XorTwice(InvSubBytes(InvShiftRows(s)), keys[0]);
    } else {
      var unkeyed := AddRoundKey(InvSubBytes(InvShiftRows(s)), keys[r]);
      RoundsRedone(InvMixBlock(unkeyed), block, keys, r - 1);
      MixBlockInverse(unkeyed);
      XorTwice(InvSubBytes(InvShiftRows(s)), keys[r]);
    }
  }

  lemma CipherUndoesInvCipher(block: Block, keys: RoundKeys)
    ensures Cipher(InvCipher(block, keys), keys) == block
  {
    hide ShiftRows, SubBytes, InvShiftRows, InvSubBytes, InvRounds, Rounds, XorBytes;
    RoundsRedone(AddRoundKey(block, keys[14]), InvCipher(block, keys), keys, 13);
    XorTwice(block, keys[14]);
  }
}
