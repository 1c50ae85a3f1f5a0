/**
  The packets of sign_item: four bytes of sequence number, twelve of nonce, the ciphertext and a
  sixteen-byte tag, with the pure-Python fallback doing the encryption.

  The nonce, random in the source, is a parameter. Parsing the payload as JSON is not part of this model.
 */
module SignItemPacket {
  import opened Wrappers
  import opened AesCipher
  import opened ByteOrder
  import opened Ghash
  import opened GcmMode

  datatype PacketError =
    | PacketTooShort
    | SequenceOverflow
    | EncryptionFailed(error: CryptoError)
    | DecryptionFailed
    | DecryptionRaised(error: CryptoError)

  const SEQUENCE_LIMIT: nat := 0x1_0000_0000

  method EncryptData(key: Bytes, plain: Bytes, seqNum: int, nonce: Bytes) returns (packet: Result<Bytes, PacketError>)
    requires |key| >= 32 && |nonce| == 12
    ensures packet == Pack(key, plain, seqNum, nonce)
  {
    hide Seal, BigEndian;
    var sealed := Encrypt(key, plain, nonce);
    if sealed.Err? {
      return Err(EncryptionFailed(sealed.error));
    }
    if seqNum < 0 || seqNum >= SEQUENCE_LIMIT {
      return Err(SequenceOverflow);
    }
    var seqBytes := BigEndian(seqNum, 4);
    return Ok(seqBytes + nonce + sealed.value.0 + sealed.value.1);
  }

  method DecryptData(key: Bytes, packet: Bytes) returns (r: Result<(nat, Bytes), PacketError>)
    requires |key| >= 32
    ensures r == Unpack(key, packet)
  {
    hide Open, ToInt;
    if |packet| < 4 + 12 + 16 {
      return Err(PacketTooShort);
    }
    var seqNum := ToInt(packet[..4]);
    var nonce := packet[4..16];
    var ciphertextTag := packet[16..];
    var tag := ciphertextTag[|ciphertextTag| - 16..];
    var ciphertext := ciphertextTag[..|ciphertextTag| - 16];
    var plain := Decrypt(key, nonce, ciphertext, tag);
    assert ciphertext == packet[16..|packet| - 16] && tag == packet[|packet| - 16..];
    if plain.Err? {
      return Err(Reported(plain.error));
    }
    return Ok((seqNum, plain.value));
  }

  function Pack(key: Bytes, plain: Bytes, seqNum: int, nonce: Bytes): Result<Bytes, PacketError>
    requires |key| >= 32 && |nonce| == 12
  {
    hide Seal, BigEndian;
    var sealed := Seal(key, plain, nonce);
    if sealed.Err? then Err(EncryptionFailed(sealed.error))
    else if seqNum < 0 || seqNum >= SEQUENCE_LIMIT then Err(SequenceOverflow)
    else Ok(BigEndian(seqNum, 4) + nonce + sealed.value.0 + sealed.value.1)
  }

  /** Only a ValueError is reported as a failed decryption; the overflow of a counter or a length escapes as it is. */
  function Reported(e: CryptoError): PacketError {
    if e == MacFailed || e == BadNonce then DecryptionFailed else DecryptionRaised(e)
  }

  function Unpack(key: Bytes, packet: Bytes): Result<(nat, Bytes), PacketError>
    requires |key| >= 32
  {
    hide Open, ToInt;
    if |packet| < 32 then Err(PacketTooShort)
    else
      var end := |packet| - 16;
      var plain := Open(key, packet[4..16], packet[16..end], packet[end..]);
      if plain.Err? then Err(Reported(plain.error)) else Ok((ToInt(packet[..4]), plain.value))
  }

  /** A packet is accepted exactly when it is the packet of what it yields, under the nonce it carries. */
  lemma UnpackIffPacked(key: Bytes, packet: Bytes, seqNum: nat, plain: Bytes)
    requires |key| >= 32
    ensures Unpack(key, packet) == Ok((seqNum, plain))
      <==> |packet| >= 32 && Pack(key, plain, seqNum, packet[4..16]) == Ok(packet)
  {
    hide Seal, Open, ToInt, BigEndian;
    if |packet| >= 32 {
      var end, nonce := |packet| - 16, packet[4..16];
      var ct, tag := packet[16..end], packet[end..];
      OpenIffSealed(key, nonce, plain, ct, tag);
      BytesIntInverse(packet[..4]);
      Pow256Four();
      assert packet == packet[..4] + nonce + ct + tag;
      if Pack(key, plain, seqNum, nonce) == Ok(packet) {
        var sealed := Seal(key, plain, nonce).value;
        var head := BigEndian(seqNum, 4);
        assert packet == head + nonce + sealed.0 + sealed.1;
        assert packet[..4] == head && packet[16..end] == sealed.0 && packet[end..] == sealed.1;
        IntBytesInverse(seqNum, 4);
      }
    }
  }

  /** Packing succeeds exactly for 32-bit sequence numbers and data whose counters and length fit. */
  lemma PackSucceeds(key: Bytes, plain: Bytes, seqNum: int, nonce: Bytes)
    requires |key| >= 32 && |nonce| == 12
    ensures Pack(key, plain, seqNum, nonce).Ok?
      <==> (&& 0 <= seqNum < SEQUENCE_LIMIT
            && |plain| * 8 < MAX_PACKED
            && CountersFit(ToInt(nonce) * 0x1_0000_0000 + 1, |plain|))
  {
    hide Seal, ToInt, CountersFit, BigEndian;
    SealSucceeds(key, plain, nonce);
  }

  /** Packets carry sequence number and payload through. */
  lemma RoundTrip(key: Bytes, plain: Bytes, seqNum: int, nonce: Bytes)
    requires |key| >= 32 && |nonce| == 12
    requires Pack(key, plain, seqNum, nonce).Ok?
    ensures Unpack(key, Pack(key, plain, seqNum, nonce).value) == Ok((seqNum, plain))
  {
    hide Seal, Open, ToInt, BigEndian, Unpack;
    var packet := Pack(key, plain, seqNum, nonce).value;
    var sealed := Seal(key, plain, nonce).value;
    assert packet[4..16] == nonce;
    UnpackIffPacked(key, packet, seqNum, plain);
  }

  // --- Layout and errors ---

  /** Four bytes of sequence number, twelve of nonce, the ciphertext, and its tag last. */
  lemma PacketLayout(key: Bytes, plain: Bytes, seqNum: int, nonce: Bytes, packet: Bytes, ct: Bytes, tag: Block)
    requires |key| >= 32 && |nonce| == 12
    requires Pack(key, plain, seqNum, nonce) == Ok(packet) && Seal(key, plain, nonce) == Ok((ct, tag))
    ensures |packet| == 16 + |ct| + 16 && |ct| == |plain|
    ensures ToInt(packet[..4]) == seqNum && packet[4..16] == nonce
    ensures packet[16..16 + |ct|] == ct && packet[16 + |ct|..] == tag
  {
    hide Seal, ToInt, BigEndian, Pow256;
    Pow256Four();
    IntBytesInverse(seqNum, 4);
    SealedLength(key, plain, nonce, ct, tag);
    FourParts(BigEndian(seqNum, 4), nonce, ct, tag);
  }

  lemma SealedLength(key: Bytes, plain: Bytes, nonce: Bytes, ct: Bytes, tag: Block)
    requires |key| >= 32 && |nonce| == 12 && Seal(key, plain, nonce) == Ok((ct, tag))
    ensures |ct| == |plain|
  {
    hide Seal;
    SealedTag(key, plain, nonce, ct, tag);
  }

  lemma FourParts(head: Bytes, nonce: Bytes, ct: Bytes, tag: Bytes)
    requires |head| == 4 && |nonce| == 12
    ensures
      var packet := head + nonce + ct + tag;
      && packet[..4] == head && packet[4..16] == nonce
      && packet[16..16 + |ct|] == ct && packet[16 + |ct|..] == tag
  {}

  /** Which error an unacceptable packet gets: too short under 32 bytes, a failed decryption for a wrong tag, else the overflow. */
  lemma UnpackFailsExactly(key: Bytes, packet: Bytes)
    requires |key| >= 32
    ensures Unpack(key, packet) == Err(PacketTooShort) <==> |packet| < 32
    ensures |packet| >= 32 ==>
      var (nonce, ct, tag) := (packet[4..16], packet[16..|packet| - 16], packet[|packet| - 16..]);
      && (Unpack(key, packet) == Err(DecryptionFailed) <==>
            |ct| < 0x2000_0000_0000_0000 && tag != ExpectedTag(key, nonce, ct))
      && (Unpack(key, packet) == Err(DecryptionRaised(LengthOverflow)) <==> |ct| >= 0x2000_0000_0000_0000)
      && (Unpack(key, packet) == Err(DecryptionRaised(CounterOverflow)) <==>
            && |ct| < 0x2000_0000_0000_0000 && tag == ExpectedTag(key, nonce, ct)
            && !CountersFit(ToInt(nonce) * 0x1_0000_0000 + 1, |ct|))
  {
    hide Open, ToInt, CountersFit, ExpectedTag;
    if |packet| >= 32 {
      OpenFailsExactly(key, packet[4..16], packet[16..|packet| - 16], packet[|packet| - 16..]);
    }
  }

  /** Packing fails as encryption does, and then for a sequence number that does not fit four bytes. */
  lemma PackFailsExactly(key: Bytes, plain: Bytes, seqNum: int, nonce: Bytes, e: CryptoError)
    requires |key| >= 32 && |nonce| == 12
    ensures Pack(key, plain, seqNum, nonce) == Err(EncryptionFailed(e)) <==> Seal(key, plain, nonce) == Err(e)
    ensures Pack(key, plain, seqNum, nonce) == Err(SequenceOverflow) <==>
      Seal(key, plain, nonce).Ok? && !(0 <= seqNum < 0x1_0000_0000)
  {
    hide Seal, BigEndian;
  }
}
