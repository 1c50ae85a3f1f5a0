/**
  The counter mode of the AES-GCM fallback: an object whose counter advances block by block, the
  one-shot encrypt and decrypt built on it, and the proof that each inverts the other.

  The counter is a Python integer: it starts at nonce || 00000001, is never reduced, and cannot be
  written to 16 bytes once it reaches 2^128.
 */
module GcmMode {
  import opened Wrappers
  import opened AesCipher
  import opened ByteOrder
  import opened KeySchedule
  import opened Ghash

  const COUNTER_LIMIT: nat := 0x1_0000_0000_0000_0000_0000_0000_0000_0000

  function CounterBlock(counter: nat): Block {
    BigEndian(counter, 16)
  }

  function FirstCounterBlock(nonce: Bytes): Block
    requires |nonce| == 12
  {
    nonce + [0, 0, 0, 1]
  }

  /** How many counter blocks n bytes of data take. */
  function BlockCount(n: nat): nat {
    (n + 15) / 16
  }

  predicate CountersFit(counter: nat, n: nat) {
    counter + BlockCount(n) <= COUNTER_LIMIT || n == 0
  }

  /** The data with one encrypted counter after another laid over it. */
  function Stream(keys: RoundKeys, counter: nat, data: Bytes): (out: Bytes)
    ensures |out| == |data|
    decreases |data|
  {
    hide Cipher, CounterBlock;
    if |data| == 0 then []
    else
      var n := if |data| < 16 then |data| else 16;
      XorBytes(data[..n], Cipher(CounterBlock(counter), keys)) + Stream(keys, counter + 1, data[n..])
  }

  /** GHASH under the encrypted zero block, masked with the encrypted first counter. */
  function Tag(keys: RoundKeys, j0: Block, aad: Bytes, ciphertext: Bytes): Block {
    XorBytes(HashBytes(Cipher(ZERO_BLOCK, keys), aad, ciphertext), Cipher(j0, keys))
  }

  /** One cipher object: fixed key material and a counter that only moves forward. */
  class GcmCipher {
    const keys: RoundKeys
    const subkey: Block
    const j0: Block
    var counter: nat

    constructor (key: Bytes, nonce: Bytes)
      requires |key| >= 32 && |nonce| == 12
      ensures keys == Expand(key) && subkey == Cipher(ZERO_BLOCK, keys)
      ensures j0 == FirstCounterBlock(nonce) && counter == ToInt(j0)
    {
      hide Cipher, Expand, ToInt;
      var ks := KeyExpansion(key);
      var h := AesEncryptBlock(ZERO_BLOCK, ks);
      keys, subkey := ks, h;
      j0 := FirstCounterBlock(nonce);
      counter := ToInt(FirstCounterBlock(nonce));
    }

    method NextCounter() returns (block: Result<Block, CryptoError>)
      modifies this
      ensures block == if old(counter) < COUNTER_LIMIT then Ok(CounterBlock(old(counter))) else Err(CounterOverflow)
      ensures counter == if block.Ok? then old(counter) + 1 else old(counter)
    {
      if counter >= COUNTER_LIMIT {
        return Err(CounterOverflow);
      }
      block := Ok(BigEndian(counter, 16));
      counter := counter + 1;
    }

    /** The loop that encryption and decryption share. */
    method ApplyStream(data: Bytes) returns (out: Result<Bytes, CryptoError>)
      modifies this
      ensures out == if CountersFit(old(counter), |data|) then Ok(Stream(keys, old(counter), data)) else Err(CounterOverflow)
      ensures counter == if out.Ok? then old(counter) + BlockCount(|data|)
                         else if old(counter) < COUNTER_LIMIT then COUNTER_LIMIT
                         else old(counter)
    {
      hide Cipher, CounterBlock, Stream, XorBytes, CountersFit, BlockCount;
      var done: Bytes := [];
      var i := 0;
      assert data[0..] == data && [] + Stream(keys, counter, data) == Stream(keys, counter, data);
      while i < |data|
        invariant i % 16 == 0 && 0 <= i < |data| + 16
        invariant counter == old(counter) + i / 16 && (i > 0 ==> counter <= COUNTER_LIMIT)
        invariant Stream(keys, old(counter), data) == done + Stream(keys, counter, data[Clip(i, data)..])
      {
        var block := NextCounter();
        if block.Err? {
          TooMany(old(counter), |data|, i);
          return Err(CounterOverflow);
        }
        var pad := AesEncryptBlock(block.value, keys);
        var chunk := data[i..Clip(i + 16, data)];
        StreamStep(keys, old(counter) + i / 16, data, i);
        done := done + XorBytes(chunk, pad[..|chunk|]);
        i := i + 16;
      }
      Enough(old(counter), |data|, i);
      StreamEmpty(keys, counter);
      assert data[Clip(i, data)..] == [] && done + [] == done;
      return Ok(done);
    }

    method EncryptAndDigest(plaintext: Bytes, aad: Bytes) returns (r: Result<(Bytes, Block), CryptoError>)
      requires subkey == Cipher(ZERO_BLOCK, keys)
      modifies this
      ensures r == SealFrom(keys, j0, old(counter), plaintext, aad)
      ensures r.Ok? ==> counter == old(counter) + BlockCount(|plaintext|)
    {
      hide Cipher, CounterBlock, HashBytes;
      var ct := ApplyStream(plaintext);
      if ct.Err? {
        return Err(ct.error);
      }
      var s := GhashLoop(subkey, aad, ct.value);
      if s.Err? {
        return Err(s.error);
      }
      var mask := AesEncryptBlock(j0, keys);
      return Ok((ct.value, XorBytes(s.value, mask)));
    }

    method DecryptAndVerify(ciphertext: Bytes, tag: Bytes, aad: Bytes) returns (r: Result<Bytes, CryptoError>)
      requires subkey == Cipher(ZERO_BLOCK, keys)
      modifies this
      ensures r == OpenFrom(keys, j0, old(counter), ciphertext, tag, aad)
      ensures counter == if r.Ok? then old(counter) + BlockCount(|ciphertext|)
                         else if r == Err(CounterOverflow) && old(counter) < COUNTER_LIMIT then COUNTER_LIMIT
                         else old(counter)
    {
      hide Cipher, CounterBlock, HashBytes;
      var s := GhashLoop(subkey, aad, ciphertext);
      if s.Err? {
        return Err(s.error);
      }
      var mask := AesEncryptBlock(j0, keys);
      if tag != XorBytes(s.value, mask) {
        return Err(MacFailed);
      }
      r := ApplyStream(ciphertext);
    }
  }

  function SealFrom(keys: RoundKeys, j0: Block, counter: nat, plaintext: Bytes, aad: Bytes): Result<(Bytes, Block), CryptoError> {
    hide Cipher, Stream;
    if !CountersFit(counter, |plaintext|) then Err(CounterOverflow)
    else if !LengthsFit(|aad|, |plaintext|) then Err(LengthOverflow)
    else
      var ct := Stream(keys, counter, plaintext);
      Ok((ct, Tag(keys, j0, aad, ct)))
  }

  function OpenFrom(keys: RoundKeys, j0: Block, counter: nat, ciphertext: Bytes, tag: Bytes, aad: Bytes): Result<Bytes, CryptoError> {
    hide Cipher, Stream;
    if !LengthsFit(|aad|, |ciphertext|) then Err(LengthOverflow)
    else if tag != Tag(keys, j0, aad, ciphertext) then Err(MacFailed)
    else if !CountersFit(counter, |ciphertext|) then Err(CounterOverflow)
    else Ok(Stream(keys, counter, ciphertext))
  }

  function Seal(key: Bytes, plaintext: Bytes, nonce: Bytes): Result<(Bytes, Block), CryptoError>
    requires |key| >= 32
  {
    if |nonce| != 12 then Err(BadNonce)
    else
      var j0 := FirstCounterBlock(nonce);
      SealFrom(Expand(key), j0, ToInt(j0), plaintext, [])
  }

  function Open(key: Bytes, nonce: Bytes, ciphertext: Bytes, tag: Bytes): Result<Bytes, CryptoError>
    requires |key| >= 32
  {
    if |nonce| != 12 then Err(BadNonce)
    else
      var j0 := FirstCounterBlock(nonce);
      OpenFrom(Expand(key), j0, ToInt(j0), ciphertext, tag, [])
  }

  method Encrypt(key: Bytes, plaintext: Bytes, nonce: Bytes) returns (r: Result<(Bytes, Block), CryptoError>)
    requires |key| >= 32
    ensures r == Seal(key, plaintext, nonce)
  {
    hide Cipher, Expand, SealFrom;
    if |nonce| != 12 {
      return Err(BadNonce);
    }
    var c := new GcmCipher(key, nonce);
    r := c.EncryptAndDigest(plaintext, []);
  }

  method Decrypt(key: Bytes, nonce: Bytes, ciphertext: Bytes, tag: Bytes) returns (r: Result<Bytes, CryptoError>)
    requires |key| >= 32
    ensures r == Open(key, nonce, ciphertext, tag)
  {
    hide Cipher, Expand, OpenFrom;
    if |nonce| != 12 {
      return Err(BadNonce);
    }
    var c := new GcmCipher(key, nonce);
    r := c.DecryptAndVerify(ciphertext, tag, []);
  }

  // --- The loop over chunks ---

  function Clip(i: nat, data: Bytes): nat {
    if i < |data| then i else |data|
  }

  lemma StreamEmpty(keys: RoundKeys, counter: nat)
    ensures Stream(keys, counter, []) == []
  {}

  lemma StreamStep(keys: RoundKeys, counter: nat, data: Bytes, i: nat)
    requires i < |data|
    ensures
      var chunk := data[i..Clip(i + 16, data)];
      |chunk| <= 16 &&
      Stream(keys, counter, data[i..])
        == XorBytes(chunk, Cipher(CounterBlock(counter), keys)[..|chunk|]) + Stream(keys, counter + 1, data[Clip(i + 16, data)..])
  {
    hide Cipher, CounterBlock, XorBytes;
    var rest, end := data[i..], Clip(i + 16, data);
    assert rest[..end - i] == data[i..end] && rest[end - i..] == data[end..];
    XorPrefix(data[i..end], Cipher(CounterBlock(counter), keys));
  }

  lemma XorPrefix(x: Bytes, y: Bytes)
    requires |x| <= |y|
    ensures XorBytes(x, y[..|x|]) == XorBytes(x, y)
  {}

  lemma TooMany(counter: nat, n: nat, i: nat)
    requires i % 16 == 0 && i < n && counter + i / 16 >= COUNTER_LIMIT
    ensures !CountersFit(counter, n)
  {}

  lemma Enough(counter: nat, n: nat, i: nat)
    requires i % 16 == 0 && n <= i < n + 16 && (i > 0 ==> counter + i / 16 <= COUNTER_LIMIT)
    ensures CountersFit(counter, n) && i / 16 == BlockCount(n)
  {}

  // --- The keystream, byte by byte ---

  /** Byte i of the output is byte i of the input under byte i % 16 of the encryption of counter + i / 16. */
  lemma {:induction false} StreamAt(keys: RoundKeys, counter: nat, data: Bytes, i: nat)
    requires i < |data|
    ensures Stream(keys, counter, data)[i] == data[i] ^ Cipher(CounterBlock(counter + i / 16), keys)[i % 16]
    decreases |data|
  {
    hide Cipher, CounterBlock, Stream, XorBytes;
    StreamUnfolded(keys, counter, data);
    var n, block := Clip(16, data), Cipher(CounterBlock(counter), keys);
    if i < 16 {
      XorAt(data[..n], block, i);
    } else {
      XorAt(data[..n], block, 0);
      StreamAt(keys, counter + 1, data[16..], i - 16);
      assert (i - 16) / 16 == i / 16 - 1 && (i - 16) % 16 == i % 16;
      assert data[16..][i - 16] == data[i];
    }
  }

  lemma StreamUnfolded(keys: RoundKeys, counter: nat, data: Bytes)
    requires |data| > 0
    ensures
      var n := Clip(16, data);
      Stream(keys, counter, data)
        == XorBytes(data[..n], Cipher(CounterBlock(counter), keys)) + Stream(keys, counter + 1, data[n..])
  {
    hide Cipher, CounterBlock, XorBytes;
  }

  lemma XorAt(x: Bytes, y: Bytes, i: nat)
    requires i < |x| <= |y|
    ensures |XorBytes(x, y)| == |x| && XorBytes(x, y)[i] == x[i] ^ y[i]
  {}

  /** The stream is its own inverse. */
  lemma StreamTwice(keys: RoundKeys, counter: nat, data: Bytes)
    ensures Stream(keys, counter, Stream(keys, counter, data)) == data
  {
    hide Cipher, CounterBlock, Stream;
    var once := Stream(keys, counter, data);
    forall i | 0 <= i < |data|
      ensures Stream(keys, counter, once)[i] == data[i]
    {
      StreamAt(keys, counter, data, i);
      StreamAt(keys, counter, once, i);
    }
  }

  /** Each byte of a sealed text is the plaintext byte under the encryption of J0 + i; block 0 is J0 itself. */
  lemma SealedAt(key: Bytes, plaintext: Bytes, nonce: Bytes, i: nat)
    requires |key| >= 32 && Seal(key, plaintext, nonce).Ok? && i < |plaintext|
    ensures
      var ct, j0 := Seal(key, plaintext, nonce).value.0, FirstCounterBlock(nonce);
      && |ct| == |plaintext|
      && ct[i] == plaintext[i] ^ Cipher(CounterBlock(ToInt(j0) + i / 16), Expand(key))[i % 16]
      && CounterBlock(ToInt(j0)) == j0
  {
    hide Cipher, Expand, Stream, Tag, CounterBlock;
    var j0 := FirstCounterBlock(nonce);
    StreamAt(Expand(key), ToInt(j0), plaintext, i);
    CounterBlockOf(j0);
  }

  /**
    The tag is masked with the very block that the first sixteen bytes of plaintext lie under.
    Section 7.1 of NIST SP 800-38D keeps the two apart by starting the counter one later.
   */
  lemma TagSharesFirstBlock(key: Bytes, plaintext: Bytes, nonce: Bytes, ct: Bytes, tag: Block, i: nat)
    requires |key| >= 32 && |nonce| == 12 && Seal(key, plaintext, nonce) == Ok((ct, tag)) && i < 16
    ensures |ct| == |plaintext|
    ensures tag[i] == HashBytes(Subkey(key), [], ct)[i] ^ FirstMask(key, nonce)[i]
    ensures i < |ct| ==> ct[i] == plaintext[i] ^ FirstMask(key, nonce)[i]
  {
    hide Seal, HashBytes, XorBytes, CounterBlock, ToInt, FirstMask, Subkey;
    SealedTag(key, plaintext, nonce, ct, tag);
    XorAt(HashBytes(Subkey(key), [], ct), FirstMask(key, nonce), i);
    if i < |ct| {
      FirstBlockAt(key, plaintext, nonce, i);
    }
  }

  lemma SealedTag(key: Bytes, plaintext: Bytes, nonce: Bytes, ct: Bytes, tag: Block)
    requires |key| >= 32 && |nonce| == 12 && Seal(key, plaintext, nonce) == Ok((ct, tag))
    ensures |ct| == |plaintext| && tag == XorBytes(HashBytes(Subkey(key), [], ct), FirstMask(key, nonce))
  {
    hide Cipher, Expand, Stream, HashBytes, XorBytes, CountersFit, LengthsFit, ToInt;
  }

  lemma FirstBlockAt(key: Bytes, plaintext: Bytes, nonce: Bytes, i: nat)
    requires |key| >= 32 && |nonce| == 12 && Seal(key, plaintext, nonce).Ok? && i < 16 && i < |plaintext|
    ensures
      var ct := Seal(key, plaintext, nonce).value.0;
      i < |ct| && ct[i] == plaintext[i] ^ FirstMask(key, nonce)[i]
  {
    hide Seal, Cipher, Expand, CounterBlock, ToInt;
    SealedAt(key, plaintext, nonce, i);
    assert i / 16 == 0 && i % 16 == i;
  }

  function Subkey(key: Bytes): Block
    requires |key| >= 32
  {
    Cipher(ZERO_BLOCK, Expand(key))
  }

  function FirstMask(key: Bytes, nonce: Bytes): Block
    requires |key| >= 32 && |nonce| == 12
  {
    Cipher(FirstCounterBlock(nonce), Expand(key))
  }

  lemma CounterBlockOf(j0: Block)
    ensures CounterBlock(ToInt(j0)) == j0
  {
    BytesIntInverse(j0);
  }

  // --- Round trips ---

  /** Encryption succeeds exactly for 12-byte nonces and data whose counters and length fit. */
  lemma SealSucceeds(key: Bytes, plaintext: Bytes, nonce: Bytes)
    requires |key| >= 32
    ensures Seal(key, plaintext, nonce).Ok?
      <==> |nonce| == 12 && CountersFit(ToInt(nonce) * 0x1_0000_0000 + 1, |plaintext|) && |plaintext| * 8 < MAX_PACKED
  {
    hide Cipher, Expand, Stream, CountersFit;
    if |nonce| == 12 {
      FirstCounter(nonce);
    }
  }

  lemma FirstCounter(nonce: Bytes)
    requires |nonce| == 12
    ensures ToInt(FirstCounterBlock(nonce)) == ToInt(nonce) * 0x1_0000_0000 + 1
  {
    var j0 := FirstCounterBlock(nonce);
    assert j0[..15][..14] == j0[..14] && j0[..14][..13] == j0[..13] && j0[..13][..12] == j0[..12] == nonce;
    assert ToInt(j0[..13]) == ToInt(nonce) * 256;
    assert ToInt(j0[..14]) == ToInt(nonce) * 65536;
    assert ToInt(j0[..15]) == ToInt(nonce) * 16777216;
  }

  /** Decryption returns p exactly when its input is the encryption of p. */
  lemma OpenIffSealed(key: Bytes, nonce: Bytes, plaintext: Bytes, ciphertext: Bytes, tag: Bytes)
    requires |key| >= 32
    ensures Open(key, nonce, ciphertext, tag) == Ok(plaintext)
      <==> |tag| == 16 && Seal(key, plaintext, nonce) == Ok((ciphertext, tag))
  {
    hide Cipher, Expand, Stream, Tag;
    if |nonce| == 12 {
      var j0 := FirstCounterBlock(nonce);
      StreamTwice(Expand(key), ToInt(j0), ciphertext);
      StreamTwice(Expand(key), ToInt(j0), plaintext);
    }
  }

  // --- With associated data ---

  lemma SealFromTag(keys: RoundKeys, j0: Block, counter: nat, plaintext: Bytes, aad: Bytes, ct: Bytes, tag: Block)
    requires SealFrom(keys, j0, counter, plaintext, aad) == Ok((ct, tag))
    ensures ct == Stream(keys, counter, plaintext)
    ensures tag == XorBytes(HashBytes(Cipher(ZERO_BLOCK, keys), aad, ct), Cipher(j0, keys))
  {
    hide Cipher, Stream, HashBytes, XorBytes;
  }

  /** From one state of a cipher object, decryption yields p exactly for what encryption makes of p and the same associated data. */
  lemma OpenFromIffSealed(keys: RoundKeys, j0: Block, counter: nat, plaintext: Bytes, aad: Bytes, ciphertext: Bytes, tag: Bytes)
    ensures OpenFrom(keys, j0, counter, ciphertext, tag, aad) == Ok(plaintext)
      <==> |tag| == 16 && SealFrom(keys, j0, counter, plaintext, aad) == Ok((ciphertext, tag))
  {
    hide Cipher, Stream, Tag;
    StreamTwice(keys, counter, ciphertext);
    StreamTwice(keys, counter, plaintext);
  }

  // --- Errors ---

  /** The tag that a ciphertext has to carry. */
  function ExpectedTag(key: Bytes, nonce: Bytes, ciphertext: Bytes): Block
    requires |key| >= 32 && |nonce| == 12
  {
    hide Cipher, Expand, HashBytes;
    XorBytes(HashBytes(Subkey(key), [], ciphertext), FirstMask(key, nonce))
  }

  /** Decryption refuses, in this order, other nonces than of 12 bytes, lengths from 2^64 bits on, wrong tags, counters past 128 bits. */
  lemma OpenFailsExactly(key: Bytes, nonce: Bytes, ciphertext: Bytes, tag: Bytes)
    requires |key| >= 32
    ensures Open(key, nonce, ciphertext, tag) == Err(BadNonce) <==> |nonce| != 12
    ensures Open(key, nonce, ciphertext, tag) == Err(LengthOverflow) <==> |nonce| == 12 && |ciphertext| >= 0x2000_0000_0000_0000
    ensures Open(key, nonce, ciphertext, tag) == Err(MacFailed) <==>
      |nonce| == 12 && |ciphertext| < 0x2000_0000_0000_0000 && tag != ExpectedTag(key, nonce, ciphertext)
    ensures Open(key, nonce, ciphertext, tag) == Err(CounterOverflow) <==>
      && |nonce| == 12 && |ciphertext| < 0x2000_0000_0000_0000 && tag == ExpectedTag(key, nonce, ciphertext)
      && !CountersFit(ToInt(nonce) * 0x1_0000_0000 + 1, |ciphertext|)
  {
    hide Cipher, Expand, HashBytes, Stream, CountersFit, ToInt, XorBytes;
    if |nonce| == 12 {
      FirstCounter(nonce);
    }
  }

  /** Encryption refuses in the order of its steps: the nonce, the counters, the length. */
  lemma SealFailsExactly(key: Bytes, plaintext: Bytes, nonce: Bytes)
    requires |key| >= 32
    ensures Seal(key, plaintext, nonce) == Err(BadNonce) <==> |nonce| != 12
    ensures Seal(key, plaintext, nonce) == Err(CounterOverflow) <==>
      |nonce| == 12 && !CountersFit(ToInt(nonce) * 0x1_0000_0000 + 1, |plaintext|)
    ensures Seal(key, plaintext, nonce) == Err(LengthOverflow) <==>
      && |nonce| == 12 && CountersFit(ToInt(nonce) * 0x1_0000_0000 + 1, |plaintext|)
      && |plaintext| >= 0x2000_0000_0000_0000
    ensures Seal(key, plaintext, nonce) != Err(MacFailed)
  {
    hide Cipher, Expand, HashBytes, Stream, CountersFit, ToInt, XorBytes, Tag;
    if |nonce| == 12 {
      FirstCounter(nonce);
    }
  }

  /** Counters run out exactly when the last one needed is past 2^128 - 1. */
  lemma CountersFitExactly(counter: nat, n: nat)
    ensures CountersFit(counter, n)
      <==> n == 0 || counter + (n - 1) / 16 < 0x1_0000_0000_0000_0000_0000_0000_0000_0000
  {}
}
