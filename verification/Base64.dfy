/**
  The pure-Python base64 fallback: encoder and decoder loops, their round trip on every byte
  string, and the exact set of texts that survive the trip the other way (section 4 of RFC 4648).

  Bytes are integers below 256 and characters below 128. The fields that the source joins with |
  never overlap, so | is addition here, and shifts and masks are division and remainder.
 */
module Base64 {
  import opened Wrappers

  datatype DecodeError = NotAscii | InvalidBase64

  ghost predicate IsBytes(d: seq<int>) {
    forall i :: 0 <= i < |d| ==> 0 <= d[i] < 256
  }

  // --- The alphabet ---

  /** ENCODE_TABLE[i] */
  function EncodeChar(i: int): char
    requires 0 <= i < 64
  {
    if i < 26 then 'A' + i as char
    else if i < 52 then 'a' + (i - 26) as char
    else if i < 62 then '0' + (i - 52) as char
    else if i == 62 then '+'
    else '/'
  }

  /** c in DECODE_TABLE */
  predicate InAlphabet(c: char) {
    'A' <= c <= 'Z' || 'a' <= c <= 'z' || '0' <= c <= '9' || c == '+' || c == '/'
  }

  /** DECODE_TABLE[c] */
  function DecodeChar(c: char): (i: int)
    requires InAlphabet(c)
    ensures 0 <= i < 64
  {
    if 'A' <= c <= 'Z' then c as int - 'A' as int
    else if 'a' <= c <= 'z' then 26 + (c as int - 'a' as int)
    else if '0' <= c <= '9' then 52 + (c as int - '0' as int)
    else if c == '+' then 62
    else 63
  }

  lemma DecodeEncodeChar(i: int)
    requires 0 <= i < 64
    ensures InAlphabet(EncodeChar(i)) && DecodeChar(EncodeChar(i)) == i
    ensures EncodeChar(i) != '=' && !IsSpace(EncodeChar(i)) && EncodeChar(i) < 128 as char
  {}

  lemma EncodeDecodeChar(c: char)
    requires InAlphabet(c)
    ensures EncodeChar(DecodeChar(c)) == c && c != '='
  {}

  // --- Encoding ---

  function Min(a: int, b: int): int {
    if a <= b then a else b
  }

  /** The 24 bits of up to three bytes, missing ones zero. */
  function ChunkBits(c: seq<int>): int
    requires 1 <= |c| <= 3
  {
    c[0] * 65536 + (if |c| >= 2 then c[1] * 256 else 0) + (if |c| == 3 then c[2] else 0)
  }

  function EncodeChunk(c: seq<int>): (s: string)
    requires 1 <= |c| <= 3
    ensures |s| == 4
  {
    var bits := ChunkBits(c);
    [EncodeChar(bits / 262144 % 64), EncodeChar(bits / 4096 % 64),
     if |c| >= 2 then EncodeChar(bits / 64 % 64) else '=',
     if |c| == 3 then EncodeChar(bits % 64) else '=']
  }

  function Encoded(d: seq<int>): string {
    if |d| == 0 then "" else EncodeChunk(d[..Min(3, |d|)]) + Encoded(d[Min(3, |d|)..])
  }

  method B64Encode(data: seq<int>) returns (result: string)
    requires IsBytes(data)
    ensures result == Encoded(data)
    ensures |result| == 4 * ((|data| + 2) / 3)
  {
    hide EncodeChar, Encoded, IsBytes;
    result := "";
    var i := 0;
    assert data[0..] == data;
    while i < |data|
      invariant 0 <= i <= |data| + 2
      invariant result + Encoded(data[Min(i, |data|)..]) == Encoded(data)
    {
      EncodedStep(data, i);
      ghost var before := result;
      var chunk := data[i..Min(i + 3, |data|)];
      i := i + 3;
      var bits := if |chunk| >= 1 then chunk[0] * 65536 else 0;
      if |chunk| >= 2 {
        bits := bits + chunk[1] * 256;
      }
      if |chunk| == 3 {
        bits := bits + chunk[2];
      }
      result := result + [EncodeChar(bits / 262144 % 64)];
      result := result + [EncodeChar(bits / 4096 % 64)];
      if |chunk| >= 2 {
        result := result + [EncodeChar(bits / 64 % 64)];
      } else {
        result := result + ['='];
      }
      if |chunk| == 3 {
        result := result + [EncodeChar(bits % 64)];
      } else {
        result := result + ['='];
      }
      assert result == before + EncodeChunk(chunk);
    }
    EncodedNone(data, i);
    EncodedLength(data);
  }

  lemma EncodedStep(d: seq<int>, i: nat)
    requires i < |d|
    ensures Encoded(d[i..]) == EncodeChunk(d[i..Min(i + 3, |d|)]) + Encoded(d[Min(i + 3, |d|)..])
  {
    var rest := d[i..];
    assert rest[..Min(3, |rest|)] == d[i..Min(i + 3, |d|)] && rest[Min(3, |rest|)..] == d[Min(i + 3, |d|)..];
  }

  lemma EncodedNone(d: seq<int>, i: nat)
    requires i >= |d|
    ensures Encoded(d[Min(i, |d|)..]) == []
  {}

  lemma {:induction false} EncodedLength(d: seq<int>)
    ensures |Encoded(d)| == 4 * ((|d| + 2) / 3)
    decreases |d|
  {
    hide EncodeChunk;
    if |d| == 0 {
    } else {
      EncodedLength(d[Min(3, |d|)..]);
    }
  }

  // --- Decoding ---

  /** str.isspace for ASCII. */
  predicate IsSpace(c: char) {
    c == ' ' || 9 <= c as int <= 13 || 28 <= c as int <= 31
  }

  function StripLeft(s: string): string {
    if |s| > 0 && IsSpace(s[0]) then StripLeft(s[1..]) else s
  }

  function StripRight(s: string): string {
    if |s| > 0 && IsSpace(s[|s| - 1]) then StripRight(s[..|s| - 1]) else s
  }

  /** s.rstrip('=') */
  function StripPadding(s: string): string {
    if |s| > 0 && s[|s| - 1] == '=' then StripPadding(s[..|s| - 1]) else s
  }

  function Payload(s: string): string {
    StripPadding(StripRight(StripLeft(s)))
  }

  predicate AllInAlphabet(s: string) {
    forall i :: 0 <= i < |s| ==> InAlphabet(s[i])
  }

  /** Three bytes from up to four characters, missing ones standing for 'A'. */
  function DecodeChunk(s: string): (d: seq<int>)
    requires 1 <= |s| <= 4 && AllInAlphabet(s)
    ensures |d| == 3
  {
    var bits := DecodeChar(s[0]) * 262144 + (if |s| >= 2 then DecodeChar(s[1]) * 4096 else 0)
      + (if |s| >= 3 then DecodeChar(s[2]) * 64 else 0) + (if |s| == 4 then DecodeChar(s[3]) else 0);
    [bits / 65536 % 256, bits / 256 % 256, bits % 256]
  }

  function DecodedChunks(s: string): seq<int>
    requires AllInAlphabet(s)
  {
    if |s| == 0 then [] else DecodeChunk(s[..Min(4, |s|)]) + DecodedChunks(s[Min(4, |s|)..])
  }

  lemma {:induction false} DecodedChunksLength(s: string)
    requires AllInAlphabet(s)
    ensures |DecodedChunks(s)| == 3 * ((|s| + 3) / 4)
    decreases |s|
  {
    hide DecodeChunk;
    if |s| == 0 {
    } else {
      DecodedChunksLength(s[Min(4, |s|)..]);
    }
  }

  function Bare(s: string): seq<int>
    requires AllInAlphabet(s)
  {
    DecodedChunksLength(s);
    DecodedChunks(s)[..|s| * 6 / 8]
  }

  predicate IsAscii(s: string) {
    forall i :: 0 <= i < |s| ==> s[i] < 128 as char
  }

  function Decoded(s: string): Result<seq<int>, DecodeError> {
    if !IsAscii(s) then Err(NotAscii)
    else if !AllInAlphabet(Payload(s)) then Err(InvalidBase64)
    else Ok(Bare(Payload(s)))
  }

  method B64Decode(data: string) returns (r: Result<seq<int>, DecodeError>)
    ensures r == Decoded(data)
  {
    hide Payload;
    if !IsAscii(data) {
      return Err(NotAscii);
    }
    var s := Payload(data);
    if !AllInAlphabet(s) {
      return Err(InvalidBase64);
    }
    var result := DecodeLoop(s);
    DecodedChunksLength(s);
    var originalBytes := |s| * 6 / 8;
    return Ok(result[..originalBytes]);
  }

  method DecodeLoop(s: string) returns (result: seq<int>)
    requires AllInAlphabet(s)
    ensures result == DecodedChunks(s)
  {
    hide DecodeChar, DecodedChunks;
    result := [];
    var i := 0;
    assert s[0..] == s;
    while i < |s|
      invariant 0 <= i <= |s| + 3
      invariant result + DecodedChunks(s[Min(i, |s|)..]) == DecodedChunks(s)
    {
      DecodedStep(s, i);
      ghost var before := result;
      var chars := s[i..Min(i + 4, |s|)];
      LetterA();
      var padded := chars + seq(4 - |chars|, _ => 'A');
      var bits := DecodeChar(padded[0]) * 262144 + DecodeChar(padded[1]) * 4096
        + DecodeChar(padded[2]) * 64 + DecodeChar(padded[3]);
      result := result + [bits / 65536 % 256, bits / 256 % 256, bits % 256];
      assert result == before + DecodeChunk(chars);
      i := i + 4;
    }
    DecodedNone(s, i);
    assert result + [] == result;
  }

  lemma LetterA()
    ensures DecodeChar('A') == 0
  {}

  lemma DecodedStep(s: string, i: nat)
    requires i < |s| && AllInAlphabet(s)
    ensures DecodedChunks(s[i..]) == DecodeChunk(s[i..Min(i + 4, |s|)]) + DecodedChunks(s[Min(i + 4, |s|)..])
  {
    var rest := s[i..];
    assert rest[..Min(4, |rest|)] == s[i..Min(i + 4, |s|)] && rest[Min(4, |rest|)..] == s[Min(i + 4, |s|)..];
  }

  lemma DecodedNone(s: string, i: nat)
    requires i >= |s|
    ensures DecodedChunks(s[Min(i, |s|)..]) == []
  {}

  // --- Every byte string comes back ---

  /** The encoding without its padding. */
  function Unpadded(d: seq<int>): string {
    if |d| == 0 then "" else EncodeChunk(d[..Min(3, |d|)])[..Min(3, |d|) + 1] + Unpadded(d[Min(3, |d|)..])
  }

  function Padding(n: nat): string {
    if n % 3 == 0 then "" else if n % 3 == 1 then "==" else "="
  }

  lemma ChunkSplits(c: seq<int>)
    requires 1 <= |c| <= 3
    ensures EncodeChunk(c) == EncodeChunk(c)[..|c| + 1] + Padding(|c|)
  {}

  lemma {:induction false} EncodedIsPadded(d: seq<int>)
    ensures Encoded(d) == Unpadded(d) + Padding(|d|)
    decreases |d|
  {
    hide EncodeChunk;
    if |d| == 0 {
    } else if |d| <= 3 {
      assert d[..|d|] == d && d[|d|..] == [];
      ChunkSplits(d);
    } else {
      EncodedIsPadded(d[3..]);
      ChunkSplits(d[..3]);
      assert (|d| - 3) % 3 == |d| % 3;
    }
  }

  lemma DivMod(x: int, q: int, r: int, n: int)
    requires n == 64 || n == 256 || n == 4096 || n == 65536 || n == 262144
    requires 0 <= r < n && x == q * n + r
    ensures x / n == q && x % n == r
  {}

  lemma Digits64(q0: int, q1: int, q2: int, q3: int)
    requires 0 <= q0 < 64 && 0 <= q1 < 64 && 0 <= q2 < 64 && 0 <= q3 < 64
    ensures
      var bits := q0 * 262144 + q1 * 4096 + q2 * 64 + q3;
      bits / 262144 % 64 == q0 && bits / 4096 % 64 == q1 && bits / 64 % 64 == q2 && bits % 64 == q3
  {
    var bits := q0 * 262144 + q1 * 4096 + q2 * 64 + q3;
    DivMod(bits, q0, q1 * 4096 + q2 * 64 + q3, 262144);
    DivMod(bits, q0 * 64 + q1, q2 * 64 + q3, 4096);
    DivMod(q0 * 64 + q1, q0, q1, 64);
    DivMod(bits, q0 * 4096 + q1 * 64 + q2, q3, 64);
    DivMod(q0 * 4096 + q1 * 64 + q2, q0 * 64 + q1, q2, 64);
  }

  lemma Digits256(c0: int, c1: int, c2: int)
    requires 0 <= c0 < 256 && 0 <= c1 < 256 && 0 <= c2 < 256
    ensures
      var bits := c0 * 65536 + c1 * 256 + c2;
      bits / 65536 % 256 == c0 && bits / 256 % 256 == c1 && bits % 256 == c2
  {
    var bits := c0 * 65536 + c1 * 256 + c2;
    DivMod(bits, c0, c1 * 256 + c2, 65536);
    DivMod(bits, c0 * 256 + c1, c2, 256);
    DivMod(c0 * 256 + c1, c0, c1, 256);
  }

  /** Three bytes as four sextets. */
  lemma Sextets(c0: int, c1: int, c2: int)
    requires 0 <= c0 < 256 && 0 <= c1 < 256 && 0 <= c2 < 256
    ensures
      var bits := c0 * 65536 + c1 * 256 + c2;
      && bits / 262144 % 64 == c0 / 4
      && bits / 4096 % 64 == c0 % 4 * 16 + c1 / 16
      && bits / 64 % 64 == c1 % 16 * 4 + c2 / 64
      && bits % 64 == c2 % 64
      && c0 / 4 * 262144 + (c0 % 4 * 16 + c1 / 16) * 4096 + (c1 % 16 * 4 + c2 / 64) * 64 + c2 % 64 == bits
  {
    Digits64(c0 / 4, c0 % 4 * 16 + c1 / 16, c1 % 16 * 4 + c2 / 64, c2 % 64);
  }

  /** Two to four characters decode to the 24 bits of their sextets. */
  lemma DecodeSextets(q0: int, q1: int, q2: int, q3: int, k: nat)
    requires 2 <= k <= 4
    requires 0 <= q0 < 64 && 0 <= q1 < 64 && 0 <= q2 < 64 && 0 <= q3 < 64
    requires (k < 4 ==> q3 == 0) && (k < 3 ==> q2 == 0)
    ensures
      var t := [EncodeChar(q0), EncodeChar(q1), EncodeChar(q2), EncodeChar(q3)][..k];
      var bits := q0 * 262144 + q1 * 4096 + q2 * 64 + q3;
      AllInAlphabet(t) && DecodeChunk(t) == [bits / 65536 % 256, bits / 256 % 256, bits % 256]
  {
    hide EncodeChar, DecodeChar;
    DecodeEncodeChar(q0);
    DecodeEncodeChar(q1);
    DecodeEncodeChar(q2);
    DecodeEncodeChar(q3);
  }

  /** A chunk's characters, sextet by sextet. */
  lemma ChunkSextets(c: seq<int>, c0: int, c1: int, c2: int)
    requires 1 <= |c| <= 3 && IsBytes(c)
    requires c0 == c[0] && c1 == (if |c| >= 2 then c[1] else 0) && c2 == (if |c| == 3 then c[2] else 0)
    ensures EncodeChunk(c)[0] == EncodeChar(c0 / 4)
    ensures EncodeChunk(c)[1] == EncodeChar(c0 % 4 * 16 + c1 / 16)
    ensures |c| >= 2 ==> EncodeChunk(c)[2] == EncodeChar(c1 % 16 * 4 + c2 / 64)
    ensures |c| == 3 ==> EncodeChunk(c)[3] == EncodeChar(c2 % 64)
  {
    hide EncodeChar;
    assert ChunkBits(c) == c0 * 65536 + c1 * 256 + c2;
    Sextets(c0, c1, c2);
  }

  lemma ChunkRoundTrip(c: seq<int>)
    requires 1 <= |c| <= 3 && IsBytes(c)
    ensures AllInAlphabet(EncodeChunk(c)[..|c| + 1])
    ensures DecodeChunk(EncodeChunk(c)[..|c| + 1])[..|c|] == c
  {
    hide EncodeChar, DecodeChunk, EncodeChunk;
    var c0, c1, c2 := c[0], if |c| >= 2 then c[1] else 0, if |c| == 3 then c[2] else 0;
    var q0, q1, q2, q3 := c0 / 4, c0 % 4 * 16 + c1 / 16, c1 % 16 * 4 + c2 / 64, c2 % 64;
    Sextets(c0, c1, c2);
    Digits256(c0, c1, c2);
    ChunkSextets(c, c0, c1, c2);
    DecodeSextets(q0, q1, q2, q3, |c| + 1);
    assert EncodeChunk(c)[..|c| + 1] == [EncodeChar(q0), EncodeChar(q1), EncodeChar(q2), EncodeChar(q3)][..|c| + 1];
  }

  lemma {:induction false} UnpaddedLength(d: seq<int>)
    ensures |Unpadded(d)| == (4 * |d| + 2) / 3
    ensures |Unpadded(d)| * 6 / 8 == |d|
    decreases |d|
  {
    hide EncodeChunk;
    if |d| == 0 {
    } else {
      UnpaddedLength(d[Min(3, |d|)..]);
    }
  }

  lemma {:induction false} UnpaddedRoundTrip(d: seq<int>)
    requires IsBytes(d)
    ensures AllInAlphabet(Unpadded(d))
    ensures |d| <= |DecodedChunks(Unpadded(d))| && DecodedChunks(Unpadded(d))[..|d|] == d
    decreases |d|
  {
    hide EncodeChunk, DecodeChunk;
    if |d| == 0 {
    } else if |d| <= 3 {
      assert d[..|d|] == d && d[|d|..] == [];
      var t := EncodeChunk(d)[..|d| + 1];
      assert Unpadded(d) == t + Unpadded([]) == t;
      ChunkRoundTrip(d);
      assert t[..|t|] == t && t[|t|..] == [];
      assert DecodedChunks(t) == DecodeChunk(t) + DecodedChunks([]) == DecodeChunk(t);
    } else {
      var head, tail := EncodeChunk(d[..3])[..4], Unpadded(d[3..]);
      ChunkRoundTrip(d[..3]);
      UnpaddedRoundTrip(d[3..]);
      assert (head + tail)[..4] == head && (head + tail)[4..] == tail;
      assert DecodedChunks(head + tail) == DecodeChunk(head) + DecodedChunks(tail);
      assert DecodeChunk(head) == DecodeChunk(head)[..3] == d[..3];
      assert d == d[..3] + d[3..];
    }
  }

  // --- Stripping ---

  lemma StripKeeps(s: string)
    requires |s| > 0 ==> !IsSpace(s[0]) && !IsSpace(s[|s| - 1])
    ensures StripRight(StripLeft(s)) == s
  {}

  lemma StripPads(t: string, n: nat)
    requires AllInAlphabet(t)
    ensures StripPadding(t + Padding(n)) == t
  {
    NoPadding(t);
    assert (t + "==")[..|t| + 1] == t + "=" && (t + "=")[..|t|] == t;
    assert t + "" == t;
  }

  lemma NoPadding(t: string)
    requires AllInAlphabet(t)
    ensures StripPadding(t) == t
  {}

  lemma AlphabetIsPlain(t: string, n: nat)
    requires AllInAlphabet(t) && (|t| == 0 ==> n % 3 == 0)
    ensures IsAscii(t + Padding(n))
    ensures Payload(t + Padding(n)) == t
  {
    StripKeeps(t + Padding(n));
    StripPads(t, n);
  }

  /** b64decode(b64encode(d)) == d */
  lemma DecodeEncode(d: seq<int>)
    requires IsBytes(d)
    ensures Decoded(Encoded(d)) == Ok(d)
  {
    hide Payload, DecodedChunks, Unpadded, Encoded, Padding;
    EncodedIsPadded(d);
    UnpaddedRoundTrip(d);
    UnpaddedLength(d);
    AlphabetIsPlain(Unpadded(d), |d|);
    DecodedChunksLength(Unpadded(d));
  }

  // --- The texts that come back ---

  /** The number of characters the padding takes. */
  function PadCount(s: string): nat {
    if |s| >= 2 && s[|s| - 1] == '=' && s[|s| - 2] == '=' then 2
    else if |s| >= 1 && s[|s| - 1] == '=' then 1
    else 0
  }

  /**
    Section 4 of RFC 4648: groups of four characters, padding only at the end, and zero in the
    bits of the last character that no byte uses.
   */
  predicate Canonical(s: string) {
    var p := PadCount(s);
    && |s| % 4 == 0
    && AllInAlphabet(s[..|s| - p])
    && (p == 1 ==> DecodeChar(s[|s| - 2]) % 4 == 0)
    && (p == 2 ==> |s| >= 3 && DecodeChar(s[|s| - 3]) % 16 == 0)
  }

  /** c stands for a sextet whose low bits, those that no byte of an n-byte chunk reaches, are zero. */
  predicate SpareZero(c: char, n: nat) {
    InAlphabet(c) && (n % 3 == 1 ==> DecodeChar(c) % 16 == 0) && (n % 3 == 2 ==> DecodeChar(c) % 4 == 0)
  }

  lemma ShortSpare(d: seq<int>)
    requires IsBytes(d) && 1 <= |d| <= 2
    ensures SpareZero(EncodeChunk(d)[|d|], |d|)
  {
    hide EncodeChar, DecodeChar, EncodeChunk;
    var c0, c1 := d[0], if |d| == 2 then d[1] else 0;
    ChunkSextets(d, c0, c1, 0);
    DecodeEncodeChar(if |d| == 1 then c0 % 4 * 16 else c1 % 16 * 4);
  }

  /** The last sextet of an unpadded encoding has zeros wherever no byte reaches. */
  lemma {:induction false} LastSextet(d: seq<int>)
    requires IsBytes(d) && |d| % 3 != 0
    ensures |Unpadded(d)| >= 2 && SpareZero(Unpadded(d)[|Unpadded(d)| - 1], |d|)
    decreases |d|
  {
    hide SpareZero, EncodeChunk;
    if |d| <= 3 {
      assert d[..|d|] == d;
      assert Unpadded(d) == EncodeChunk(d)[..|d| + 1] + Unpadded([]) == EncodeChunk(d)[..|d| + 1];
      ShortSpare(d);
    } else {
      LastSextet(d[3..]);
      SpareShift(Unpadded(d)[|Unpadded(d)| - 1], |d| - 3);
    }
  }

  lemma SpareShift(c: char, n: nat)
    ensures SpareZero(c, n) <==> SpareZero(c, n + 3)
  {}

  lemma PadCountOf(t: string, n: nat)
    requires AllInAlphabet(t) && (|t| == 0 ==> n % 3 == 0)
    ensures PadCount(t + Padding(n)) == |Padding(n)|
  {}

  lemma EncodedIsCanonical(d: seq<int>)
    requires IsBytes(d)
    ensures Canonical(Encoded(d))
  {
    hide Unpadded, Encoded, Padding, PadCount, DecodedChunks;
    var t, p := Unpadded(d), Padding(|d|);
    EncodedIsPadded(d);
    EncodedLength(d);
    UnpaddedRoundTrip(d);
    UnpaddedLength(d);
    PadCountOf(t, |d|);
    PaddingLength(|d|);
    assert (t + p)[..|t + p| - |p|] == t;
    if |d| % 3 != 0 {
      LastSextet(d);
      assert (t + p)[|t| - 1] == t[|t| - 1];
    }
  }

  lemma PaddingLength(n: nat)
    ensures |Padding(n)| == (3 - n % 3) % 3
  {}

  /** Re-encoding what two to four characters decode to gives them back, padded, if no spare bit is set. */
  lemma ChunkBack(t: string)
    requires 2 <= |t| <= 4 && AllInAlphabet(t)
    requires |t| == 3 ==> DecodeChar(t[2]) % 4 == 0
    requires |t| == 2 ==> DecodeChar(t[1]) % 16 == 0
    ensures IsBytes(DecodeChunk(t))
    ensures EncodeChunk(DecodeChunk(t)[..|t| - 1]) == t + Padding(|t| - 1)
  {
    hide EncodeChar, DecodeChar, DecodeChunk, ChunkBits;
    var q0, q1 := DecodeChar(t[0]), DecodeChar(t[1]);
    var q2, q3 := if |t| >= 3 then DecodeChar(t[2]) else 0, if |t| == 4 then DecodeChar(t[3]) else 0;
    BitsBack(t, q0, q1, q2, q3);
    Digits64(q0, q1, q2, q3);
    EncodeDecodeChar(t[0]);
    EncodeDecodeChar(t[1]);
    if |t| >= 3 {
      EncodeDecodeChar(t[2]);
    }
    if |t| == 4 {
      EncodeDecodeChar(t[3]);
    }
  }

  /** What such characters decode to has their 24 bits. */
  lemma BitsBack(t: string, q0: int, q1: int, q2: int, q3: int)
    requires 2 <= |t| <= 4 && AllInAlphabet(t)
    requires |t| == 3 ==> DecodeChar(t[2]) % 4 == 0
    requires |t| == 2 ==> DecodeChar(t[1]) % 16 == 0
    requires q0 == DecodeChar(t[0]) && q1 == DecodeChar(t[1])
    requires q2 == (if |t| >= 3 then DecodeChar(t[2]) else 0) && q3 == (if |t| == 4 then DecodeChar(t[3]) else 0)
    ensures IsBytes(DecodeChunk(t))
    ensures ChunkBits(DecodeChunk(t)[..|t| - 1]) == q0 * 262144 + q1 * 4096 + q2 * 64 + q3
  {
    hide DecodeChar;
    Bytes24(q0, q1, q2, q3);
  }

  /** Four sextets as three bytes. */
  lemma Bytes24(q0: int, q1: int, q2: int, q3: int)
    requires 0 <= q0 < 64 && 0 <= q1 < 64 && 0 <= q2 < 64 && 0 <= q3 < 64
    ensures
      var bits := q0 * 262144 + q1 * 4096 + q2 * 64 + q3;
      var c0, c1, c2 := bits / 65536 % 256, bits / 256 % 256, bits % 256;
      && c0 * 65536 + c1 * 256 + c2 == bits
      && (q3 == 0 && q2 % 4 == 0 ==> c2 == 0)
      && (q3 == 0 && q2 == 0 && q1 % 16 == 0 ==> c1 == 0)
  {
    Digits256(q0 * 4 + q1 / 16, q1 % 16 * 16 + q2 / 4, q2 % 4 * 64 + q3);
  }

  lemma CanonicalTail(s: string)
    requires Canonical(s) && |s| > 4
    ensures AllInAlphabet(s[..4]) && Canonical(s[4..])
  {
    hide DecodeChar;
    var p, tail := PadCount(s), s[4..];
    assert PadCount(tail) == p;
    assert s[..|s| - p][..4] == s[..4];
    assert s[..|s| - p][4..] == tail[..|tail| - p];
    assert p >= 1 ==> s[|s| - 2] == tail[|tail| - 2];
    assert p == 2 ==> s[|s| - 3] == tail[|tail| - 3];
  }

  lemma {:induction false} CanonicalPreimage(s: string) returns (d: seq<int>)
    requires Canonical(s)
    ensures IsBytes(d) && Encoded(d) == s
    decreases |s|
  {
    hide EncodeChunk, DecodeChunk, DecodeChar;
    if |s| == 0 {
      d := [];
    } else if |s| == 4 {
      var t := s[..4 - PadCount(s)];
      ChunkBack(t);
      d := DecodeChunk(t)[..|t| - 1];
      assert d[..|d|] == d && d[|d|..] == [];
      assert Encoded(d) == EncodeChunk(d) + Encoded([]) == EncodeChunk(d);
      assert s == t + Padding(|t| - 1);
    } else {
      var t := s[..4];
      CanonicalTail(s);
      ChunkBack(t);
      var tail := CanonicalPreimage(s[4..]);
      d := DecodeChunk(t) + tail;
      assert d[..3] == DecodeChunk(t) == DecodeChunk(t)[..3] && d[3..] == tail;
      assert t + Padding(3) == t;
    }
  }

  /** A text survives decoding and encoding exactly when it is canonical. */
  lemma EncodeDecodeIffCanonical(s: string)
    ensures (exists d :: IsBytes(d) && Encoded(d) == s) <==> Canonical(s)
    ensures Canonical(s) <==> Decoded(s).Ok? && IsBytes(Decoded(s).value) && Encoded(Decoded(s).value) == s
  {
    hide Encoded, Decoded, Canonical;
    if Canonical(s) {
      var d := CanonicalPreimage(s);
      DecodeEncode(d);
    }
    forall d | IsBytes(d) && Encoded(d) == s
      ensures Canonical(s)
    {
      EncodedIsCanonical(d);
    }
  }

  // --- In plain terms ---

  const UPPER := "ABCDEFGHIJKLMNOPQRSTUVWXYZ"
  const LOWER := "abcdefghijklmnopqrstuvwxyz"
  const DIGITS := "0123456789"
  const ALPHABET := UPPER + LOWER + DIGITS + "+/"

  lemma UpperExactly(i: int)
    requires 0 <= i < 26
    ensures UPPER[i] as int == 65 + i
  {
    assert i == 0 || i == 1 || i == 2 || i == 3 || i == 4 || i == 5 || i == 6 || i == 7 || i == 8 || i == 9 || i == 10 || i == 11 || i == 12
      || i == 13 || i == 14 || i == 15 || i == 16 || i == 17 || i == 18 || i == 19 || i == 20 || i == 21 || i == 22 || i == 23 || i == 24 || i == 25;
  }

  lemma LowerExactly(i: int)
    requires 0 <= i < 26
    ensures LOWER[i] as int == 97 + i
  {
    assert i == 0 || i == 1 || i == 2 || i == 3 || i == 4 || i == 5 || i == 6 || i == 7 || i == 8 || i == 9 || i == 10 || i == 11 || i == 12
      || i == 13 || i == 14 || i == 15 || i == 16 || i == 17 || i == 18 || i == 19 || i == 20 || i == 21 || i == 22 || i == 23 || i == 24 || i == 25;
  }

  lemma DigitsExactly(i: int)
    requires 0 <= i < 10
    ensures DIGITS[i] as int == 48 + i
  {
    assert i == 0 || i == 1 || i == 2 || i == 3 || i == 4 || i == 5 || i == 6 || i == 7 || i == 8 || i == 9;
  }

  /** Table 1 of RFC 4648. */
  lemma AlphabetExactly(i: int)
    requires 0 <= i < 64
    ensures |ALPHABET| == 64 && EncodeChar(i) == ALPHABET[i]
  {
    hide *;
    AlphabetParts(i);
    EncodeParts(i);
    if i < 26 {
      UpperExactly(i);
    } else if i < 52 {
      LowerExactly(i - 26);
    } else if i < 62 {
      DigitsExactly(i - 52);
    }
  }

  lemma AlphabetParts(i: int)
    requires 0 <= i < 64
    ensures |UPPER| == 26 && |LOWER| == 26 && |DIGITS| == 10 && |ALPHABET| == 64
    ensures ALPHABET[i] ==
      if i < 26 then UPPER[i] else if i < 52 then LOWER[i - 26] else if i < 62 then DIGITS[i - 52] else if i == 62 then '+' else '/'
  {}

  lemma EncodeParts(i: int)
    requires 0 <= i < 64
    ensures i < 26 ==> EncodeChar(i) as int == 65 + i
    ensures 26 <= i < 52 ==> EncodeChar(i) as int == 97 + (i - 26)
    ensures 52 <= i < 62 ==> EncodeChar(i) as int == 48 + (i - 52)
    ensures i == 62 ==> EncodeChar(i) == '+'
    ensures i == 63 ==> EncodeChar(i) == '/'
  {}

  lemma SpaceExactly(c: char)
    ensures IsSpace(c) <==> c in {' ', 9 as char, 10 as char, 11 as char, 12 as char, 13 as char, 28 as char, 29 as char, 30 as char, 31 as char}
  {}

  /** The test vectors of section 10 of RFC 4648. */
  lemma KnownEncodings()
    ensures Encoded([]) == "" && Encoded([0x66]) == "Zg==" && Encoded([0x66, 0x6f]) == "Zm8=" && Encoded([0x66, 0x6f, 0x6f]) == "Zm9v"
    ensures Encoded([0x66, 0x6f, 0x6f, 0x62, 0x61, 0x72]) == "Zm9vYmFy"
  {
    hide EncodeChunk;
    KnownChunks();
    OneChunk([0x66]);
    OneChunk([0x66, 0x6f]);
    OneChunk([0x66, 0x6f, 0x6f]);
    OneChunk([0x62, 0x61, 0x72]);
    var d := [0x66, 0x6f, 0x6f, 0x62, 0x61, 0x72];
    assert d[..3] == [0x66, 0x6f, 0x6f] && d[3..] == [0x62, 0x61, 0x72];
    assert Encoded(d) == EncodeChunk(d[..3]) + Encoded(d[3..]);
    assert "Zm9v" + "YmFy" == "Zm9vYmFy";
  }

  lemma KnownChunks()
    ensures EncodeChunk([0x66]) == "Zg==" && EncodeChunk([0x66, 0x6f]) == "Zm8="
    ensures EncodeChunk([0x66, 0x6f, 0x6f]) == "Zm9v" && EncodeChunk([0x62, 0x61, 0x72]) == "YmFy"
  {
    hide *;
    KnownChunk1();
    KnownChunk2();
    KnownChunk3();
    KnownChunk4();
  }

  lemma KnownChunk1()
    ensures EncodeChunk([0x66]) == "Zg=="
  {}

  lemma KnownChunk2()
    ensures EncodeChunk([0x66, 0x6f]) == "Zm8="
  {}

  lemma KnownChunk3()
    ensures EncodeChunk([0x66, 0x6f, 0x6f]) == "Zm9v"
  {}

  lemma KnownChunk4()
    ensures EncodeChunk([0x62, 0x61, 0x72]) == "YmFy"
  {
    hide EncodeChunk, EncodeChar;
    ChunkSextets([0x62, 0x61, 0x72], 0x62, 0x61, 0x72);
    SomeChars();
  }

  lemma SomeChars()
    ensures EncodeChar(24) == 'Y' && EncodeChar(38) == 'm' && EncodeChar(5) == 'F' && EncodeChar(50) == 'y'
  {}

  lemma OneChunk(c: seq<int>)
    requires 1 <= |c| <= 3
    ensures Encoded(c) == EncodeChunk(c)
  {
    hide EncodeChunk;
    assert c[..|c|] == c && c[|c|..] == [];
  }

  /** When decoding fails, and how long its result is when it does not. */
  lemma DecodedExactly(s: string)
    ensures Decoded(s) == Err(NotAscii) <==> exists i :: 0 <= i < |s| && s[i] as int >= 128
    ensures Decoded(s) == Err(InvalidBase64) <==>
      (forall i :: 0 <= i < |s| ==> s[i] as int < 128) && exists i :: 0 <= i < |Payload(s)| && Payload(s)[i] !in ALPHABET
    ensures Decoded(s).Ok? ==> |Decoded(s).value| == |Payload(s)| * 6 / 8
  {
    hide Payload, DecodeChunk;
    forall c: char
      ensures InAlphabet(c) <==> c in ALPHABET
    {
      AlphabetIs(c);
    }
    if AllInAlphabet(Payload(s)) {
      DecodedChunksLength(Payload(s));
    }
  }

  lemma AlphabetIs(c: char)
    ensures InAlphabet(c) <==> c in ALPHABET
  {
    if InAlphabet(c) {
      EncodeDecodeChar(c);
      AlphabetExactly(DecodeChar(c));
    } else {
      forall i | 0 <= i < 64
        ensures ALPHABET[i] != c
      {
        AlphabetExactly(i);
        DecodeEncodeChar(i);
      }
    }
  }

  predicate AllSpace(s: string) {
    forall i :: 0 <= i < |s| ==> IsSpace(s[i])
  }

  lemma {:induction false} LeftStripped(w: string, t: string)
    requires AllSpace(w)
    ensures StripLeft(w + t) == StripLeft(t)
  {
    if |w| == 0 {
      assert w + t == t;
    } else {
      LeftStripped(w[1..], t);
      assert (w + t)[1..] == w[1..] + t;
    }
  }

  lemma {:induction false} RightStripped(t: string, w: string)
    requires AllSpace(w)
    ensures StripRight(t + w) == StripRight(t)
  {
    if |w| == 0 {
      assert t + w == t;
    } else {
      RightStripped(t, w[..|w| - 1]);
      assert (t + w)[..|t + w| - 1] == t + w[..|w| - 1];
    }
  }

  lemma {:induction false} PaddingStripped(t: string, n: nat)
    ensures StripPadding(t + seq(n, _ => '=')) == StripPadding(t)
  {
    var p := seq(n, _ => '=');
    if n == 0 {
      assert t + p == t;
    } else {
      PaddingStripped(t, n - 1);
      assert (t + p)[..|t + p| - 1] == t + seq(n - 1, _ => '=');
    }
  }

  /** White space around a text and any amount of padding after it make no difference. */
  lemma SurroundingsIgnored(before: string, t: string, n: nat, after: string)
    requires AllSpace(before) && AllSpace(after) && AllInAlphabet(t) && |t| > 0
    ensures Payload(before + (t + seq(n, _ => '=')) + after) == t
  {
    var p := t + seq(n, _ => '=');
    forall i | 0 <= i < |p|
      ensures !IsSpace(p[i])
    {
      if i < |t| {
        EncodeDecodeChar(t[i]);
        DecodeEncodeChar(DecodeChar(t[i]));
      }
    }
    assert before + p + after == before + (p + after);
    LeftStripped(before, p + after);
    assert StripLeft(p + after) == p + after;
    RightStripped(p, after);
    assert StripRight(p) == p;
    PaddingStripped(t, n);
    NoPadding(t);
  }
}
