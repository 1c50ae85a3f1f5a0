/**
  The AES-256 key schedule: the fallback's loop, the recurrence of section 5.2 of FIPS 197 that
  determines its result, and the fact that any two neighbouring round keys determine the key.
 */
module KeySchedule {
  import opened SubstitutionBox
  import opened MixColumns
  import opened AesCipher

  /** Four bytes of the schedule. */
  datatype Word = Word(b0: bv8, b1: bv8, b2: bv8, b3: bv8)

  const RCON: Bytes := [0x01, 0x02, 0x04, 0x08, 0x10, 0x20, 0x40, 0x80, 0x1b, 0x36]

  function XorWord(x: Word, y: Word): Word {
    Word(x.b0 ^ y.b0, x.b1 ^ y.b1, x.b2 ^ y.b2, x.b3 ^ y.b3)
  }

  function SubWord(w: Word): Word {
    Word(SBox(w.b0), SBox(w.b1), SBox(w.b2), SBox(w.b3))
  }

  function RotWord(w: Word): Word {
    Word(w.b1, w.b2, w.b3, w.b0)
  }

  function KeyWord(key: Bytes, i: nat): Word
    requires 4 * i + 3 < |key|
  {
    Word(key[4 * i], key[4 * i + 1], key[4 * i + 2], key[4 * i + 3])
  }

  /** What word i mixes in besides word i - 8: the previous word, transformed at every fourth place. */
  function Temp(i: nat, prev: Word): Word
    requires 8 <= i < 60
  {
    if i % 8 == 0 then
      var t := SubWord(RotWord(prev));
      t.(b0 := t.b0 ^ RCON[i / 8 - 1])
    else if i % 8 == 4 then SubWord(prev)
    else prev
  }

  /** The first n words of the schedule. */
  function Words(key: Bytes, n: nat): (w: seq<Word>)
    requires |key| >= 32 && n <= 60
    ensures |w| == n
  {
    hide Temp, XorWord;
    if n == 0 then []
    else
      var w := Words(key, n - 1);
      w + [if n <= 8 then KeyWord(key, n - 1) else XorWord(w[n - 9], Temp(n - 1, w[n - 2]))]
  }

  function WordByte(w: Word, k: nat): bv8
    requires k < 4
  {
    if k == 0 then w.b0 else if k == 1 then w.b1 else if k == 2 then w.b2 else w.b3
  }

  /** b''.join(w[4i:4i + 4]) */
  function RoundKey(w: seq<Word>, i: nat): Block
    requires 4 * i + 3 < |w|
  {
    seq(16, k requires 0 <= k < 16 => WordByte(w[4 * i + k / 4], k % 4))
  }

  function Expand(key: Bytes): RoundKeys
    requires |key| >= 32
  {
    hide Words;
    var w := Words(key, 60);
    seq(15, i requires 0 <= i < 15 => RoundKey(w, i))
  }

  method KeyExpansion(key: Bytes) returns (keys: RoundKeys)
    requires |key| >= 32
    ensures keys == Expand(key)
  {
    hide SubWord, RotWord, XorWord, RoundKey, KeyWord, Words, Expand, Temp;
    FirstWords(key, 0);
    var w: seq<Word> := [];
    for i := 0 to 8
      invariant w == Words(key, i)
    {
      FirstWords(key, i);
      w := w + [KeyWord(key, i)];
    }
    for i := 8 to 60
      invariant w == Words(key, i)
    {
      var temp := w[i - 1];
      if i % 8 == 0 {
        temp := SubWord(RotWord(temp));
        temp := temp.(b0 := temp.b0 ^ RCON[i / 8 - 1]);
      } else if i % 8 == 4 {
        temp := SubWord(temp);
      }
      TempCode(i, w[i - 1]);
      NextWord(key, i);
      w := w + [XorWord(w[i - 8], temp)];
    }
    var ks: seq<Block> := [];
    for i := 0 to 15
      invariant |ks| == i && ks == Expand(key)[..i]
    {
      ExpandAt(key, i);
      ks := ks + [RoundKey(w, i)];
    }
    keys := ks;
  }

  lemma FirstWords(key: Bytes, i: nat)
    requires |key| >= 32 && i < 8
    ensures Words(key, 0) == [] && Words(key, i + 1) == Words(key, i) + [KeyWord(key, i)]
  {
    hide KeyWord;
  }

  lemma NextWord(key: Bytes, i: nat)
    requires |key| >= 32 && 8 <= i < 60
    ensures Words(key, i + 1) == Words(key, i) + [XorWord(Words(key, i)[i - 8], Temp(i, Words(key, i)[i - 1]))]
  {
    hide Temp, XorWord;
  }

  lemma TempCode(i: nat, prev: Word)
    requires 8 <= i < 60
    ensures
      var t := SubWord(RotWord(prev));
      Temp(i, prev) == if i % 8 == 0 then t.(b0 := t.b0 ^ RCON[i / 8 - 1]) else if i % 8 == 4 then SubWord(prev) else prev
  {
    hide SubWord, RotWord;
  }

  lemma ExpandAt(key: Bytes, i: nat)
    requires |key| >= 32 && i < 15
    ensures Expand(key)[i] == RoundKey(Words(key, 60), i)
  {
    hide Words, RoundKey;
  }

  /** What the recurrence asks of word i. */
  predicate Follows(key: Bytes, w: seq<Word>, i: nat)
    requires |key| >= 32 && i < |w| <= 60
  {
    hide Temp, XorWord, KeyWord;
    w[i] == if i < 8 then KeyWord(key, i) else XorWord(w[i - 8], Temp(i, w[i - 1]))
  }

  /** The recurrence of section 5.2 of FIPS 197. */
  ghost predicate IsSchedule(key: Bytes, w: seq<Word>)
    requires |key| >= 32
  {
    |w| <= 60 && forall i :: 0 <= i < |w| ==> Follows(key, w, i)
  }

  lemma ScheduleExtends(key: Bytes, v: seq<Word>, x: Word)
    requires |key| >= 32 && |v| < 60
    ensures IsSchedule(key, v + [x]) <==> IsSchedule(key, v) && Follows(key, v + [x], |v|)
  {
    hide Follows;
    var w := v + [x];
    forall i | 0 <= i < |v|
      ensures Follows(key, v, i) <==> Follows(key, w, i)
    {
      SameBefore(key, v, w, i);
    }
    if IsSchedule(key, w) {
      forall i | 0 <= i < |v|
        ensures Follows(key, v, i)
      {
        assert Follows(key, w, i);
      }
    }
  }

  lemma SameBefore(key: Bytes, v: seq<Word>, w: seq<Word>, i: nat)
    requires |key| >= 32 && i < |v| <= |w| <= 60 && v == w[..|v|]
    ensures Follows(key, v, i) <==> Follows(key, w, i)
  {
    hide Temp, XorWord, KeyWord;
  }

  lemma {:induction false} ScheduleDetermined(key: Bytes, w: seq<Word>)
    requires |key| >= 32 && |w| <= 60
    ensures IsSchedule(key, w) <==> w == Words(key, |w|)
  {
    hide Words, IsSchedule, Temp, XorWord, KeyWord;
    if |w| == 0 {
      FirstWords(key, 0);
      NoSchedule(key);
    } else {
      var v, n := w[..|w| - 1], |w| - 1;
      ScheduleDetermined(key, v);
      ScheduleExtends(key, v, w[n]);
      assert w == v + [w[n]];
      if n < 8 {
        FirstWords(key, n);
      } else {
        NextWord(key, n);
      }
      assert w == Words(key, n + 1) ==> v == Words(key, n);
    }
  }

  lemma NoSchedule(key: Bytes)
    requires |key| >= 32
    ensures IsSchedule(key, [])
  {}

  lemma XorCancels(x: Word, y: Word, t: Word)
    requires XorWord(x, t) == XorWord(y, t)
    ensures x == y
  {}

  /** Schedules that agree on eight neighbouring words agree one word earlier, and so down to the key. */
  lemma {:induction false} WindowDetermines(k1: Bytes, v: seq<Word>, k2: Bytes, w: seq<Word>, i: nat)
    requires |k1| >= 32 && |k2| >= 32 && |v| == |w| && i + 8 <= |v|
    requires IsSchedule(k1, v) && IsSchedule(k2, w)
    requires forall j :: i <= j < i + 8 ==> v[j] == w[j]
    ensures forall j :: 0 <= j < 8 ==> v[j] == w[j]
  {
    hide Temp, XorWord, KeyWord;
    if i == 0 {
    } else {
      assert v[i + 7] == w[i + 7] && v[i + 6] == w[i + 6];
      assert Follows(k1, v, i + 7) && Follows(k2, w, i + 7);
      XorCancels(v[i - 1], w[i - 1], Temp(i + 7, v[i + 6]));
      WindowDetermines(k1, v, k2, w, i - 1);
    }
  }

  lemma RoundKeyWords(v: seq<Word>, w: seq<Word>, r: nat, j: nat)
    requires 4 * r + 3 < |v| && |v| == |w| && RoundKey(v, r) == RoundKey(w, r)
    requires 4 * r <= j < 4 * r + 4
    ensures v[j] == w[j]
  {
    forall k | 0 <= k < 4
      ensures WordByte(v[j], k) == WordByte(w[j], k)
    {
      var i := 4 * (j - 4 * r) + k;
      assert i / 4 == j - 4 * r && i % 4 == k;
      assert RoundKey(v, r)[i] == RoundKey(w, r)[i];
    }
    assert WordByte(v[j], 0) == WordByte(w[j], 0) && WordByte(v[j], 1) == WordByte(w[j], 1);
    assert WordByte(v[j], 2) == WordByte(w[j], 2) && WordByte(v[j], 3) == WordByte(w[j], 3);
  }

  lemma NeighbouringKeysDetermineKey(k1: Bytes, k2: Bytes, r: nat)
    requires |k1| >= 32 && |k2| >= 32 && r < 14
    requires Expand(k1)[r] == Expand(k2)[r] && Expand(k1)[r + 1] == Expand(k2)[r + 1]
    ensures k1[..32] == k2[..32]
  {
    hide Words, RoundKey, IsSchedule;
    var v, w := Words(k1, 60), Words(k2, 60);
    forall j | 4 * r <= j < 4 * r + 8
      ensures v[j] == w[j]
    {
      RoundKeyWords(v, w, if j < 4 * r + 4 then r else r + 1, j);
    }
    ScheduleDetermined(k1, v);
    ScheduleDetermined(k2, w);
    WindowDetermines(k1, v, k2, w, 4 * r);
    forall i | 0 <= i < 32
      ensures k1[i] == k2[i]
    {
      KeyByte(k1, v, i);
      KeyByte(k2, w, i);
    }
  }

  lemma KeyByte(key: Bytes, w: seq<Word>, i: nat)
    requires |key| >= 32 && |w| == 60 && IsSchedule(key, w) && i < 32
    ensures key[i] == WordByte(w[i / 4], i % 4)
  {
    assert Follows(key, w, i / 4);
  }

  // --- The schedule byte by byte ---

  /** Byte c of word i, where the round keys have it. */
  function ScheduleByte(key: Bytes, i: nat, c: nat): bv8
    requires |key| >= 32 && i < 60 && c < 4
  {
    hide Expand;
    Expand(key)[i / 4][4 * (i % 4) + c]
  }

  lemma ByteIs(key: Bytes, i: nat, c: nat)
    requires |key| >= 32 && i < 60 && c < 4
    ensures ScheduleByte(key, i, c) == WordByte(Words(key, 60)[i], c)
  {
    hide Words, WordByte;
    assert (4 * (i % 4) + c) / 4 == i % 4 && (4 * (i % 4) + c) % 4 == c;
    ExpandAt(key, i / 4);
  }

  /**
    Section 5.2 of FIPS 197 on the bytes of the round keys. The first 32 are the key's. Each later
    word is the word eight places back, plus the word before it: substituted and turned by one byte,
    with a power of two added, at the places divisible by eight; substituted at those four later;
    unchanged elsewhere.
   */
  lemma ScheduleBytes(key: Bytes, i: nat, c: nat)
    requires |key| >= 32 && i < 60 && c < 4
    ensures i < 8 ==> ScheduleByte(key, i, c) == key[4 * i + c]
    ensures i >= 8 ==>
      ScheduleByte(key, i, c) == Xor(ScheduleByte(key, i - 8, c),
        if i % 8 == 0 then Xor(SBox(ScheduleByte(key, i - 1, (c + 1) % 4)), if c == 0 then RoundConstant(i / 8) else 0)
        else if i % 8 == 4 then SBox(ScheduleByte(key, i - 1, c))
        else ScheduleByte(key, i - 1, c))
  {
    hide SBox, ScheduleByte, Words, IsSchedule, RoundConstant, WordByte, Xor;
    var w := Words(key, 60);
    ScheduleDetermined(key, w);
    ByteIs(key, i, c);
    if i < 8 {
      KeyByte(key, w, 4 * i + c);
      assert (4 * i + c) / 4 == i && (4 * i + c) % 4 == c;
    } else {
      ByteIs(key, i - 8, c);
      ByteIs(key, i - 1, c);
      ByteIs(key, i - 1, (c + 1) % 4);
      FollowsBytes(key, w, i, c);
    }
  }

  /** 2 to the power k - 1, for the seven that are used. */
  function RoundConstant(k: nat): bv8
    requires 1 <= k <= 7
  {
    if k == 1 then 1 else RoundConstant(k - 1) << 1
  }

  lemma FollowsBytes(key: Bytes, w: seq<Word>, i: nat, c: nat)
    requires |key| >= 32 && |w| == 60 && 8 <= i < 60 && c < 4 && IsSchedule(key, w)
    ensures
      WordByte(w[i], c) == Xor(WordByte(w[i - 8], c),
        if i % 8 == 0 then Xor(SBox(WordByte(w[i - 1], (c + 1) % 4)), if c == 0 then RoundConstant(i / 8) else 0)
        else if i % 8 == 4 then SBox(WordByte(w[i - 1], c))
        else WordByte(w[i - 1], c))
  {
    hide SBox, RoundConstant, Temp, XorWord, WordByte, Xor;
    assert Follows(key, w, i);
    XorWordByte(w[i - 8], Temp(i, w[i - 1]), c);
    TempByte(i, w[i - 1], c);
  }

  lemma XorWordIs(x: Word, y: Word)
    ensures XorWord(x, y) == Word(Xor(x.b0, y.b0), Xor(x.b1, y.b1), Xor(x.b2, y.b2), Xor(x.b3, y.b3))
  {}

  lemma XorWordByte(x: Word, y: Word, c: nat)
    requires c < 4
    ensures WordByte(XorWord(x, y), c) == Xor(WordByte(x, c), WordByte(y, c))
  {
    hide XorWord, Xor;
    XorWordIs(x, y);
  }

  lemma TempIs(i: nat, prev: Word)
    requires 8 <= i < 60
    ensures Temp(i, prev) ==
      if i % 8 == 0 then
        Word(Xor(SBox(prev.b1), RCON[i / 8 - 1]), SBox(prev.b2), SBox(prev.b3), SBox(prev.b0))
      else if i % 8 == 4 then Word(SBox(prev.b0), SBox(prev.b1), SBox(prev.b2), SBox(prev.b3))
      else prev
  {
    hide SBox, Xor;
    if i % 8 == 0 {
      XorIs(SBox(prev.b1), RCON[i / 8 - 1]);
    }
  }

  lemma XorIs(a: bv8, b: bv8)
    ensures Xor(a, b) == a ^ b
  {}

  lemma TempByte(i: nat, prev: Word, c: nat)
    requires 8 <= i < 60 && c < 4
    ensures WordByte(Temp(i, prev), c) ==
      if i % 8 == 0 then Xor(SBox(WordByte(prev, (c + 1) % 4)), if c == 0 then RoundConstant(i / 8) else 0)
      else if i % 8 == 4 then SBox(WordByte(prev, c))
      else WordByte(prev, c)
  {
    hide SBox, RoundConstant, Temp, Xor;
    TempIs(i, prev);
    if i % 8 == 0 {
      ConstantIs(i / 8);
      XorNone(SBox(WordByte(prev, (c + 1) % 4)));
    }
  }

  lemma ConstantIs(k: nat)
    requires 1 <= k <= 7
    ensures RCON[k - 1] == RoundConstant(k)
  {
    assert RoundConstant(1) == 1 && RoundConstant(2) == 2 && RoundConstant(3) == 4 && RoundConstant(4) == 8;
    assert RoundConstant(5) == 16 && RoundConstant(6) == 32 && RoundConstant(7) == 64;
  }

  lemma XorNone(a: bv8)
    ensures Xor(a, 0) == a
  {}
}
