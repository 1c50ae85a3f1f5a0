/**
  GHASH as the fallback computes it, and the polynomial in the hash subkey that section 6.4 of
  NIST SP 800-38D says it is.
 */
module Ghash {
  import opened Wrappers
  import opened GaloisField
  import opened AesCipher
  import opened ByteOrder

  datatype CryptoError = BadNonce | CounterOverflow | LengthOverflow | MacFailed

  // --- Bytes and field elements ---

  /** int.from_bytes(b, 'big') */
  function FromBlock(b: Block): Elem {
    (b[0] as Elem << 120) | (b[1] as Elem << 112) | (b[2] as Elem << 104) | (b[3] as Elem << 96)
    | (b[4] as Elem << 88) | (b[5] as Elem << 80) | (b[6] as Elem << 72) | (b[7] as Elem << 64)
    | (b[8] as Elem << 56) | (b[9] as Elem << 48) | (b[10] as Elem << 40) | (b[11] as Elem << 32)
    | (b[12] as Elem << 24) | (b[13] as Elem << 16) | (b[14] as Elem << 8) | (b[15] as Elem)
  }

  function LowByte(e: Elem): bv8 {
    (e & 0xff) as bv8
  }

  /** i.to_bytes(16, 'big') */
  function ToBlock(e: Elem): Block {
    [LowByte(e >> 120), LowByte(e >> 112), LowByte(e >> 104), LowByte(e >> 96),
     LowByte(e >> 88), LowByte(e >> 80), LowByte(e >> 72), LowByte(e >> 64),
     LowByte(e >> 56), LowByte(e >> 48), LowByte(e >> 40), LowByte(e >> 32),
     LowByte(e >> 24), LowByte(e >> 16), LowByte(e >> 8), LowByte(e)]
  }

  lemma ToFromBlock(e: Elem)
    ensures FromBlock(ToBlock(e)) == e
  {}

  function Pad(b: Bytes): (p: Bytes)
    ensures |p| % 16 == 0
  {
    b + seq((16 - |b| % 16) % 16, _ => 0)
  }

  function Blocks(p: Bytes): (xs: seq<Elem>)
    requires |p| % 16 == 0
    ensures |xs| == |p| / 16
  {
    if |p| == 0 then [] else [FromBlock(p[..16])] + Blocks(p[16..])
  }

  const MAX_PACKED := 0x1_0000_0000_0000_0000

  /** struct.pack('>QQ', aad_len * 8, ct_len * 8) */
  function LengthBlock(aadLength: nat, length: nat): Block {
    BigEndian(aadLength * 8, 8) + BigEndian(length * 8, 8)
  }

  predicate LengthsFit(aadLength: nat, length: nat) {
    aadLength * 8 < MAX_PACKED && length * 8 < MAX_PACKED
  }

  // --- The hash ---

  /** The chain of multiplications: y := (y ^ x) * h over the blocks in turn. */
  function Chain(h: Elem, xs: seq<Elem>, y: Elem): Elem {
    if |xs| == 0 then y else Chain(h, xs[1..], Product(Add(y, xs[0]), h))
  }

  /** The sum over i of block i times h to the power m + 1 - i, for m blocks counted from 1. */
  function Polynomial(h: Elem, xs: seq<Elem>): Elem {
    if |xs| == 0 then 0 else Add(Product(xs[0], Power(h, |xs|)), Polynomial(h, xs[1..]))
  }

  /** All blocks GHASH runs over: padded data, padded ciphertext, lengths. */
  function HashedBlocks(aad: Bytes, ciphertext: Bytes): seq<Elem> {
    Blocks(Pad(aad)) + Blocks(Pad(ciphertext)) + [FromBlock(LengthBlock(|aad|, |ciphertext|))]
  }

  function Hash(h: Elem, aad: Bytes, ciphertext: Bytes): Elem {
    Polynomial(h, HashedBlocks(aad, ciphertext))
  }

  /** The hash of 16 bytes by 16 bytes that the cipher object works with. */
  function HashBytes(h: Block, aad: Bytes, ciphertext: Bytes): Block {
    ToBlock(Hash(FromBlock(h), aad, ciphertext))
  }

  method AbsorbBlocks(h: Elem, y0: Elem, padded: Bytes) returns (y: Elem)
    requires |padded| % 16 == 0
    ensures y == Chain(h, Blocks(padded), y0)
  {
    hide *;
    y := y0;
    var i := 0;
    assert padded[0..] == padded;
    while i < |padded|
      invariant 0 <= i <= |padded| && i % 16 == 0
      invariant Chain(h, Blocks(padded[i..]), y) == Chain(h, Blocks(padded), y0)
    {
      AbsorbOne(h, y, padded, i);
      y := GfMult(Add(y, FromBlock(padded[i..i + 16])), h);
      i := i + 16;
    }
    AbsorbNone(h, y);
    assert padded[i..] == [];
  }

  lemma AbsorbNone(h: Elem, y: Elem)
    ensures Chain(h, Blocks([]), y) == y
  {}

  lemma AbsorbOne(h: Elem, y: Elem, padded: Bytes, i: nat)
    requires |padded| % 16 == 0 && i % 16 == 0 && i < |padded|
    ensures Chain(h, Blocks(padded[i..]), y)
         == Chain(h, Blocks(padded[i + 16..]), Product(Add(y, FromBlock(padded[i..i + 16])), h))
  {
    hide Product, Add, FromBlock;
    var p := padded[i..];
    assert p[..16] == padded[i..i + 16] && p[16..] == padded[i + 16..];
    assert Blocks(p)[0] == FromBlock(p[..16]) && Blocks(p)[1..] == Blocks(p[16..]);
  }

  method GhashLoop(h: Block, aad: Bytes, ciphertext: Bytes) returns (s: Result<Block, CryptoError>)
    ensures s == if LengthsFit(|aad|, |ciphertext|) then Ok(HashBytes(h, aad, ciphertext))
                 else Err(LengthOverflow)
  {
    hide Product, Add, FromBlock, ToBlock, LengthBlock, Chain, Hash, Blocks, Pad;
    var hInt := FromBlock(h);
    var y := AbsorbBlocks(hInt, 0, Pad(aad));
    y := AbsorbBlocks(hInt, y, Pad(ciphertext));
    if |aad| * 8 >= MAX_PACKED || |ciphertext| * 8 >= MAX_PACKED {
      return Err(LengthOverflow);
    }
    var lenBlock := LengthBlock(|aad|, |ciphertext|);
    LastBlock(hInt, aad, ciphertext);
    y := GfMult(Add(y, FromBlock(lenBlock)), hInt);
    return Ok(ToBlock(y));
  }

  lemma LastBlock(h: Elem, aad: Bytes, ciphertext: Bytes)
    ensures
      var y := Chain(h, Blocks(Pad(ciphertext)), Chain(h, Blocks(Pad(aad)), 0));
      Product(Add(y, FromBlock(LengthBlock(|aad|, |ciphertext|))), h) == Hash(h, aad, ciphertext)
  {
    hide Product, Add, FromBlock, LengthBlock, Chain, Polynomial, Blocks, Pad;
    var last := FromBlock(LengthBlock(|aad|, |ciphertext|));
    ChainEnds(h, Blocks(Pad(aad)), Blocks(Pad(ciphertext)), last);
    ChainIsPolynomial(h, HashedBlocks(aad, ciphertext));
  }

  lemma {:induction false} ChainAppend(h: Elem, xs: seq<Elem>, zs: seq<Elem>, y: Elem)
    ensures Chain(h, xs + zs, y) == Chain(h, zs, Chain(h, xs, y))
  {
    hide Product, Add;
    if |xs| == 0 {
      assert xs + zs == zs;
    } else {
      assert (xs + zs)[1..] == xs[1..] + zs;
      ChainAppend(h, xs[1..], zs, Product(Add(y, xs[0]), h));
    }
  }

  lemma ChainEnds(h: Elem, xs: seq<Elem>, zs: seq<Elem>, last: Elem)
    ensures Chain(h, xs + zs + [last], 0) == Product(Add(Chain(h, zs, Chain(h, xs, 0)), last), h)
  {
    hide Product, Add;
    ChainAppend(h, xs + zs, [last], 0);
    ChainAppend(h, xs, zs, 0);
  }

  lemma PowerShift(h: Elem, n: nat)
    ensures Product(h, Power(h, n)) == Power(h, n + 1)
  {
    hide Product;
    ProductCommutes(h, Power(h, n));
  }

  lemma ProductSum(a: Elem, b: Elem, c: Elem)
    ensures Product(Add(a, b), c) == Add(Product(a, c), Product(b, c))
  {
    hide Product, Add;
    ProductDistributes(a, b, c);
    AddIsXor(a, b);
    AddIsXor(Product(a, c), Product(b, c));
  }

  /** Section 6.4 of NIST SP 800-38D: the chain is a polynomial in the hash subkey. */
  lemma ChainIsPolynomial(h: Elem, xs: seq<Elem>)
    ensures Chain(h, xs, 0) == Polynomial(h, xs)
  {
    hide Product, Add;
    ChainWithStart(h, xs, 0);
    ProductOfZero(Power(h, |xs|));
    Zero(Polynomial(h, xs));
  }

  lemma ProductOfZero(a: Elem)
    ensures Product(0, a) == 0
  {
    hide Product;
    ProductCommutes(0, a);
    ProductZero(a);
  }

  /** The chain started at y is y times the full power, plus the polynomial. */
  lemma {:induction false} ChainWithStart(h: Elem, xs: seq<Elem>, y: Elem)
    ensures Chain(h, xs, y) == Add(Product(y, Power(h, |xs|)), Polynomial(h, xs))
    decreases |xs|
  {
    hide Product, Add;
    if |xs| == 0 {
      ProductOne(y);
      Zero(y);
    } else {
      var n, x, rest := |xs| - 1, xs[0], xs[1..];
      ChainWithStart(h, rest, Product(Add(y, x), h));
      ProductAssociates(Add(y, x), h, Power(h, n));
      PowerShift(h, n);
      ProductSum(y, x, Power(h, n + 1));
      Associate(Product(y, Power(h, n + 1)), Product(x, Power(h, n + 1)), Polynomial(h, rest));
    }
  }

  // --- What the hashed blocks stand for ---

  function Value(e: Elem): nat {
    e as nat
  }

  /** The bytes taken one after the other. */
  function Fold(b: Bytes): Elem {
    if |b| == 0 then 0 else ShiftByte(Fold(b[..|b| - 1]), b[|b| - 1])
  }

  function ShiftByte(v: Elem, b: bv8): Elem {
    (v << 8) | (b as Elem)
  }

  lemma ShiftIn(v: Elem, b: bv8)
    requires Value(v) < 0x01000000000000000000000000000000
    ensures Value(ShiftByte(v, b)) == Value(v) * 256 + b as nat
  {}

  lemma Pow256Fifteen(k: nat)
    requires k <= 15
    ensures Pow256(k) <= 0x01000000000000000000000000000000
  {
    assert Pow256(4) == 0x1_0000_0000 && Pow256(8) == 0x1_0000_0000_0000_0000;
    assert Pow256(12) == 0x1_0000_0000_0000_0000_0000_0000 && Pow256(15) == 0x01000000000000000000000000000000;
    Pow256Grows(k, 15);
  }

  lemma {:induction false} Pow256Grows(m: nat, n: nat)
    requires m <= n
    ensures Pow256(m) <= Pow256(n)
  {
    if m < n {
      Pow256Grows(m, n - 1);
    }
  }

  lemma {:induction false} FoldIsInt(b: Bytes)
    requires |b| <= 16
    ensures Value(Fold(b)) == ToInt(b)
  {
    hide Fold, ToInt, Value, ShiftByte;
    if |b| == 0 {
      FoldNone();
      ZeroValue();
      ToIntEmpty();
      assert b == [];
    } else {
      var n, init, last := |b| - 1, b[..|b| - 1], b[|b| - 1];
      FoldIsInt(init);
      BytesIntInverse(init);
      Pow256Fifteen(n);
      ShiftIn(Fold(init), last);
      LastByte(init, last);
      FoldNext(b, n);
      assert b == init + [last] && b[..n + 1] == b;
    }
  }

  lemma FoldNext(b: Bytes, k: nat)
    requires k < |b|
    ensures Fold(b[..k + 1]) == ShiftByte(Fold(b[..k]), b[k])
  {
    hide ShiftByte;
    assert b[..k + 1][..k] == b[..k];
  }

  lemma ZeroValue()
    ensures Value(0) == 0
  {}

  function ShiftFour(v: Elem, b0: bv8, b1: bv8, b2: bv8, b3: bv8): Elem {
    (v << 32) | (b0 as Elem << 24) | (b1 as Elem << 16) | (b2 as Elem << 8) | (b3 as Elem)
  }

  lemma FourBytes(v: Elem, b0: bv8, b1: bv8, b2: bv8, b3: bv8)
    ensures ShiftByte(ShiftByte(ShiftByte(ShiftByte(v, b0), b1), b2), b3) == ShiftFour(v, b0, b1, b2, b3)
  {}

  lemma FourFolds(b: Bytes, k: nat)
    requires k + 4 <= |b|
    ensures Fold(b[..k + 4]) == ShiftFour(Fold(b[..k]), b[k], b[k + 1], b[k + 2], b[k + 3])
  {
    hide Fold, ShiftByte, ShiftFour;
    FoldNext(b, k);
    FoldNext(b, k + 1);
    FoldNext(b, k + 2);
    FoldNext(b, k + 3);
    FourBytes(Fold(b[..k]), b[k], b[k + 1], b[k + 2], b[k + 3]);
  }

  /** Four bytes at a time come to the shifts of FromBlock. */
  lemma ShiftsJoin(b: Block)
    ensures
      var v4 := ShiftFour(0, b[0], b[1], b[2], b[3]);
      var v8 := ShiftFour(v4, b[4], b[5], b[6], b[7]);
      var v12 := ShiftFour(v8, b[8], b[9], b[10], b[11]);
      FromBlock(b) == ShiftFour(v12, b[12], b[13], b[14], b[15])
  {}

  /** A block as an integer is its bytes, the first the most significant. */
  lemma BlockIsInt(b: Block)
    ensures Value(FromBlock(b)) == ToInt(b)
  {
    hide Fold, ToInt, FromBlock, ShiftFour, Value;
    FourFolds(b, 0);
    FourFolds(b, 4);
    FourFolds(b, 8);
    FourFolds(b, 12);
    FoldNone();
    assert b[..0] == [] && b[..16] == b;
    FoldIsInt(b);
    ShiftsJoin(b);
  }

  lemma FoldNone()
    ensures Fold([]) == 0
  {}

  /** Padding adds only zeros, and fewer than sixteen. */
  lemma PadIs(b: Bytes)
    ensures b <= Pad(b) && |Pad(b)| < |b| + 16
    ensures forall i :: |b| <= i < |Pad(b)| ==> Pad(b)[i] == 0
  {}

  lemma {:induction false} BlocksAt(p: Bytes, i: nat)
    requires |p| % 16 == 0 && 16 * i < |p|
    ensures 16 * i + 16 <= |p| && Value(Blocks(p)[i]) == ToInt(p[16 * i..16 * i + 16])
    decreases i
  {
    hide FromBlock, ToInt, Value;
    if i == 0 {
      BlockIsInt(p[..16]);
    } else {
      BlocksAt(p[16..], i - 1);
      SliceOfTail(p, 16, 16 * (i - 1), 16 * i);
    }
  }

  lemma SliceOfTail(p: Bytes, k: nat, lo: nat, hi: nat)
    requires lo <= hi && k + hi <= |p|
    ensures p[k..][lo..hi] == p[k + lo..k + hi]
  {}

  lemma LengthBlockIs(aadLength: nat, length: nat)
    requires aadLength * 8 < 0x1_0000_0000_0000_0000 && length * 8 < 0x1_0000_0000_0000_0000
    ensures Value(FromBlock(LengthBlock(aadLength, length))) == 8 * aadLength * 0x1_0000_0000_0000_0000 + 8 * length
  {
    hide FromBlock, ToInt, BigEndian, Value;
    assert Pow256(4) == 0x1_0000_0000 && Pow256(8) == 0x1_0000_0000_0000_0000;
    BlockIsInt(LengthBlock(aadLength, length));
    IntBytesInverse(aadLength * 8, 8);
    IntBytesInverse(length * 8, 8);
    ToIntJoin(BigEndian(aadLength * 8, 8), BigEndian(length * 8, 8));
  }

  /**
    GHASH runs over the data and the ciphertext, each padded with zeros to whole blocks read as
    integers, and last over 2^64 times the bit length of the data plus that of the ciphertext.
   */
  lemma HashedBlocksAre(aad: Bytes, ciphertext: Bytes, i: nat)
    requires LengthsFit(|aad|, |ciphertext|)
    ensures
      var xs, m, n := HashedBlocks(aad, ciphertext), (|aad| + 15) / 16, (|ciphertext| + 15) / 16;
      && |xs| == m + n + 1
      && (i < m ==> 16 * i + 16 <= |Pad(aad)| && Value(xs[i]) == ToInt(Pad(aad)[16 * i..16 * i + 16]))
      && (i < n ==> 16 * i + 16 <= |Pad(ciphertext)| && Value(xs[m + i]) == ToInt(Pad(ciphertext)[16 * i..16 * i + 16]))
      && Value(xs[m + n]) == 8 * |aad| * 0x1_0000_0000_0000_0000 + 8 * |ciphertext|
  {
    hide FromBlock, ToInt, BigEndian, LengthBlock, Blocks, Pad, HashedBlocks, Value;
    PadLength(aad);
    PadLength(ciphertext);
    LengthBlockIs(|aad|, |ciphertext|);
    ThreeParts(Blocks(Pad(aad)), Blocks(Pad(ciphertext)), FromBlock(LengthBlock(|aad|, |ciphertext|)), i);
    HashedParts(aad, ciphertext);
    if i < (|aad| + 15) / 16 {
      BlocksAt(Pad(aad), i);
    }
    if i < (|ciphertext| + 15) / 16 {
      BlocksAt(Pad(ciphertext), i);
    }
  }

  lemma HashedParts(aad: Bytes, ciphertext: Bytes)
    ensures HashedBlocks(aad, ciphertext)
         == Blocks(Pad(aad)) + Blocks(Pad(ciphertext)) + [FromBlock(LengthBlock(|aad|, |ciphertext|))]
  {
    hide FromBlock, LengthBlock, Blocks, Pad;
  }

  lemma ThreeParts(xs: seq<Elem>, ys: seq<Elem>, last: Elem, i: nat)
    ensures i < |xs| ==> (xs + ys + [last])[i] == xs[i]
    ensures i < |ys| ==> (xs + ys + [last])[|xs| + i] == ys[i]
    ensures (xs + ys + [last])[|xs| + |ys|] == last
  {}

  lemma PadLength(b: Bytes)
    ensures |Pad(b)| == 16 * ((|b| + 15) / 16)
  {}

  /** Lengths are refused exactly from 2^64 bits on. */
  lemma LengthsFitExactly(aadLength: nat, length: nat)
    ensures LengthsFit(aadLength, length)
      <==> aadLength < 0x2000_0000_0000_0000 && length < 0x2000_0000_0000_0000
  {}
}
