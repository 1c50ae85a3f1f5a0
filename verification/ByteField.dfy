/**
  Bytes as elements of the field of section 4.2 of FIPS 197, multiplied by the fallback's doubling:
  what the substitution table and the column matrices are made of.

  The table is checked row by row, sixteen entries at a time.
 */
module ByteField {
  import opened MixColumns
  import opened SubstitutionBox

  function Pick(b: bool, v: bv8): bv8 {
    if b then v else 0
  }

  /** The sum, over each bit of a that is set, of b doubled as often as its position. */
  function Times(a: bv8, b: bv8): bv8 {
    var b1 := XTime(b);
    var b2 := XTime(b1);
    var b3 := XTime(b2);
    var b4 := XTime(b3);
    var b5 := XTime(b4);
    var b6 := XTime(b5);
    var b7 := XTime(b6);
    Pick(a & 0x01 != 0, b) ^ Pick(a & 0x02 != 0, b1) ^ Pick(a & 0x04 != 0, b2) ^ Pick(a & 0x08 != 0, b3)
    ^ Pick(a & 0x10 != 0, b4) ^ Pick(a & 0x20 != 0, b5) ^ Pick(a & 0x40 != 0, b6) ^ Pick(a & 0x80 != 0, b7)
  }

  // --- The substitution table ---

  /** The affine map of section 5.1.1 of FIPS 197: each bit plus the four bits up to four places above it, plus 0x63. */
  function Affine(i: bv8): bv8 {
    i ^ ((i << 1) | (i >> 7)) ^ ((i << 2) | (i >> 6)) ^ ((i << 3) | (i >> 5)) ^ ((i << 4) | (i >> 4)) ^ 0x63
  }

  function UndoAffine(s: bv8): bv8 {
    ((s << 1) | (s >> 7)) ^ ((s << 3) | (s >> 5)) ^ ((s << 6) | (s >> 2)) ^ 0x05
  }

  lemma AffineUndone(s: bv8)
    ensures Affine(UndoAffine(s)) == s
  {}

  /** What the affine map makes the entry from is the inverse of b, or zero for zero. */
  predicate EntryOk(b: bv8) {
    var i := UndoAffine(SBox(b));
    if b == 0 then i == 0 else Times(b, i) == 1
  }

  lemma EntryZero()
    ensures EntryOk(0x00)
  {}

  lemma EntryOne()
    ensures EntryOk(0x01)
  {}

  lemma Row0Low()
    ensures EntryOk(0x02) && EntryOk(0x03) && EntryOk(0x04)
    ensures EntryOk(0x05) && EntryOk(0x06) && EntryOk(0x07)
  {}

  lemma Row0High()
    ensures EntryOk(0x08) && EntryOk(0x09) && EntryOk(0x0a) && EntryOk(0x0b)
    ensures EntryOk(0x0c) && EntryOk(0x0d) && EntryOk(0x0e) && EntryOk(0x0f)
  {}

  lemma Row1Low()
    ensures EntryOk(0x10) && EntryOk(0x11) && EntryOk(0x12) && EntryOk(0x13)
    ensures EntryOk(0x14) && EntryOk(0x15) && EntryOk(0x16) && EntryOk(0x17)
  {}

  lemma Row1High()
    ensures EntryOk(0x18) && EntryOk(0x19) && EntryOk(0x1a) && EntryOk(0x1b)
    ensures EntryOk(0x1c) && EntryOk(0x1d) && EntryOk(0x1e) && EntryOk(0x1f)
  {}

  lemma Row2Low()
    ensures EntryOk(0x20) && EntryOk(0x21) && EntryOk(0x22) && EntryOk(0x23)
    ensures EntryOk(0x24) && EntryOk(0x25) && EntryOk(0x26) && EntryOk(0x27)
  {}

  lemma Row2High()
    ensures EntryOk(0x28) && EntryOk(0x29) && EntryOk(0x2a) && EntryOk(0x2b)
    ensures EntryOk(0x2c) && EntryOk(0x2d) && EntryOk(0x2e) && EntryOk(0x2f)
  {}

  lemma Row3Low()
    ensures EntryOk(0x30) && EntryOk(0x31) && EntryOk(0x32) && EntryOk(0x33)
    ensures EntryOk(0x34) && EntryOk(0x35) && EntryOk(0x36) && EntryOk(0x37)
  {}

  lemma Row3High()
    ensures EntryOk(0x38) && EntryOk(0x39) && EntryOk(0x3a) && EntryOk(0x3b)
    ensures EntryOk(0x3c) && EntryOk(0x3d) && EntryOk(0x3e) && EntryOk(0x3f)
  {}

  lemma Row4Low()
    ensures EntryOk(0x40) && EntryOk(0x41) && EntryOk(0x42) && EntryOk(0x43)
    ensures EntryOk(0x44) && EntryOk(0x45) && EntryOk(0x46) && EntryOk(0x47)
  {}

  lemma Row4High()
    ensures EntryOk(0x48) && EntryOk(0x49) && EntryOk(0x4a) && EntryOk(0x4b)
    ensures EntryOk(0x4c) && EntryOk(0x4d) && EntryOk(0x4e) && EntryOk(0x4f)
  {}

  lemma Row5Low()
    ensures EntryOk(0x50) && EntryOk(0x51) && EntryOk(0x52) && EntryOk(0x53)
    ensures EntryOk(0x54) && EntryOk(0x55) && EntryOk(0x56) && EntryOk(0x57)
  {}

  lemma Row5High()
    ensures EntryOk(0x58) && EntryOk(0x59) && EntryOk(0x5a) && EntryOk(0x5b)
    ensures EntryOk(0x5c) && EntryOk(0x5d) && EntryOk(0x5e) && EntryOk(0x5f)
  {}

  lemma Row6Low()
    ensures EntryOk(0x60) && EntryOk(0x61) && EntryOk(0x62) && EntryOk(0x63)
    ensures EntryOk(0x64) && EntryOk(0x65) && EntryOk(0x66) && EntryOk(0x67)
  {}

  lemma Row6High()
    ensures EntryOk(0x68) && EntryOk(0x69) && EntryOk(0x6a) && EntryOk(0x6b)
    ensures EntryOk(0x6c) && EntryOk(0x6d) && EntryOk(0x6e) && EntryOk(0x6f)
  {}

  lemma Row7Low()
    ensures EntryOk(0x70) && EntryOk(0x71) && EntryOk(0x72) && EntryOk(0x73)
    ensures EntryOk(0x74) && EntryOk(0x75) && EntryOk(0x76) && EntryOk(0x77)
  {}

  lemma Row7High()
    ensures EntryOk(0x78) && EntryOk(0x79) && EntryOk(0x7a) && EntryOk(0x7b)
    ensures EntryOk(0x7c) && EntryOk(0x7d) && EntryOk(0x7e) && EntryOk(0x7f)
  {}

  lemma Row8Low()
    ensures EntryOk(0x80) && EntryOk(0x81) && EntryOk(0x82) && EntryOk(0x83)
    ensures EntryOk(0x84) && EntryOk(0x85) && EntryOk(0x86) && EntryOk(0x87)
  {}

  lemma Row8High()
    ensures EntryOk(0x88) && EntryOk(0x89) && EntryOk(0x8a) && EntryOk(0x8b)
    ensures EntryOk(0x8c) && EntryOk(0x8d) && EntryOk(0x8e) && EntryOk(0x8f)
  {}

  lemma Row9Low()
    ensures EntryOk(0x90) && EntryOk(0x91) && EntryOk(0x92) && EntryOk(0x93)
    ensures EntryOk(0x94) && EntryOk(0x95) && EntryOk(0x96) && EntryOk(0x97)
  {}

  lemma Row9High()
    ensures EntryOk(0x98) && EntryOk(0x99) && EntryOk(0x9a) && EntryOk(0x9b)
    ensures EntryOk(0x9c) && EntryOk(0x9d) && EntryOk(0x9e) && EntryOk(0x9f)
  {}

  lemma RowALow()
    ensures EntryOk(0xa0) && EntryOk(0xa1) && EntryOk(0xa2) && EntryOk(0xa3)
    ensures EntryOk(0xa4) && EntryOk(0xa5) && EntryOk(0xa6) && EntryOk(0xa7)
  {}

  lemma RowAHigh()
    ensures EntryOk(0xa8) && EntryOk(0xa9) && EntryOk(0xaa) && EntryOk(0xab)
    ensures EntryOk(0xac) && EntryOk(0xad) && EntryOk(0xae) && EntryOk(0xaf)
  {}

  lemma RowBLow()
    ensures EntryOk(0xb0) && EntryOk(0xb1) && EntryOk(0xb2) && EntryOk(0xb3)
    ensures EntryOk(0xb4) && EntryOk(0xb5) && EntryOk(0xb6) && EntryOk(0xb7)
  {}

  lemma RowBHigh()
    ensures EntryOk(0xb8) && EntryOk(0xb9) && EntryOk(0xba) && EntryOk(0xbb)
    ensures EntryOk(0xbc) && EntryOk(0xbd) && EntryOk(0xbe) && EntryOk(0xbf)
  {}

  lemma RowCLow()
    ensures EntryOk(0xc0) && EntryOk(0xc1) && EntryOk(0xc2) && EntryOk(0xc3)
    ensures EntryOk(0xc4) && EntryOk(0xc5) && EntryOk(0xc6) && EntryOk(0xc7)
  {}

  lemma RowCHigh()
    ensures EntryOk(0xc8) && EntryOk(0xc9) && EntryOk(0xca) && EntryOk(0xcb)
    ensures EntryOk(0xcc) && EntryOk(0xcd) && EntryOk(0xce) && EntryOk(0xcf)
  {}

  lemma RowDLow()
    ensures EntryOk(0xd0) && EntryOk(0xd1) && EntryOk(0xd2) && EntryOk(0xd3)
    ensures EntryOk(0xd4) && EntryOk(0xd5) && EntryOk(0xd6) && EntryOk(0xd7)
  {}

  lemma RowDHigh()
    ensures EntryOk(0xd8) && EntryOk(0xd9) && EntryOk(0xda) && EntryOk(0xdb)
    ensures EntryOk(0xdc) && EntryOk(0xdd) && EntryOk(0xde) && EntryOk(0xdf)
  {}

  lemma RowELow()
    ensures EntryOk(0xe0) && EntryOk(0xe1) && EntryOk(0xe2) && EntryOk(0xe3)
    ensures EntryOk(0xe4) && EntryOk(0xe5) && EntryOk(0xe6) && EntryOk(0xe7)
  {}

  lemma RowEHigh()
    ensures EntryOk(0xe8) && EntryOk(0xe9) && EntryOk(0xea) && EntryOk(0xeb)
    ensures EntryOk(0xec) && EntryOk(0xed) && EntryOk(0xee) && EntryOk(0xef)
  {}

  lemma RowFLow()
    ensures EntryOk(0xf0) && EntryOk(0xf1) && EntryOk(0xf2) && EntryOk(0xf3)
    ensures EntryOk(0xf4) && EntryOk(0xf5) && EntryOk(0xf6) && EntryOk(0xf7)
  {}

  lemma RowFHigh()
    ensures EntryOk(0xf8) && EntryOk(0xf9) && EntryOk(0xfa) && EntryOk(0xfb)
    ensures EntryOk(0xfc) && EntryOk(0xfd) && EntryOk(0xfe) && EntryOk(0xff)
  {}

  /** An entry is the affine map of the inverse of its byte. */
  lemma SBoxIsAffineInverse(b: bv8)
    ensures SBox(b) == Affine(UndoAffine(SBox(b)))
    ensures if b == 0 then UndoAffine(SBox(b)) == 0 else Times(b, UndoAffine(SBox(b))) == 1
  {
    AffineUndone(SBox(b));
    AllEntries(b);
    hide Times, UndoAffine, Affine, SBox;
  }

  lemma AllEntries(b: bv8)
    ensures EntryOk(b)
  {
    hide EntryOk;
    if b & 0xf0 == 0x00 {
      EntryZero();
      EntryOne();
      Row0Low();
      Row0High();
      assert b == 0x00 || b == 0x01 || b == 0x02 || b == 0x03 || b == 0x04 || b == 0x05 || b == 0x06 || b == 0x07
        || b == 0x08 || b == 0x09 || b == 0x0a || b == 0x0b || b == 0x0c || b == 0x0d || b == 0x0e || b == 0x0f;
    } else if b & 0xf0 == 0x10 {
      Row1Low();
      Row1High();
      assert b == 0x10 || b == 0x11 || b == 0x12 || b == 0x13 || b == 0x14 || b == 0x15 || b == 0x16 || b == 0x17
        || b == 0x18 || b == 0x19 || b == 0x1a || b == 0x1b || b == 0x1c || b == 0x1d || b == 0x1e || b == 0x1f;
    } else if b & 0xf0 == 0x20 {
      Row2Low();
      Row2High();
      assert b == 0x20 || b == 0x21 || b == 0x22 || b == 0x23 || b == 0x24 || b == 0x25 || b == 0x26 || b == 0x27
        || b == 0x28 || b == 0x29 || b == 0x2a || b == 0x2b || b == 0x2c || b == 0x2d || b == 0x2e || b == 0x2f;
    } else if b & 0xf0 == 0x30 {
      Row3Low();
      Row3High();
      assert b == 0x30 || b == 0x31 || b == 0x32 || b == 0x33 || b == 0x34 || b == 0x35 || b == 0x36 || b == 0x37
        || b == 0x38 || b == 0x39 || b == 0x3a || b == 0x3b || b == 0x3c || b == 0x3d || b == 0x3e || b == 0x3f;
    } else if b & 0xf0 == 0x40 {
      Row4Low();
      Row4High();
      assert b == 0x40 || b == 0x41 || b == 0x42 || b == 0x43 || b == 0x44 || b == 0x45 || b == 0x46 || b == 0x47
        || b == 0x48 || b == 0x49 || b == 0x4a || b == 0x4b || b == 0x4c || b == 0x4d || b == 0x4e || b == 0x4f;
    } else if b & 0xf0 == 0x50 {
      Row5Low();
      Row5High();
      assert b == 0x50 || b == 0x51 || b == 0x52 || b == 0x53 || b == 0x54 || b == 0x55 || b == 0x56 || b == 0x57
        || b == 0x58 || b == 0x59 || b == 0x5a || b == 0x5b || b == 0x5c || b == 0x5d || b == 0x5e || b == 0x5f;
    } else if b & 0xf0 == 0x60 {
      Row6Low();
      Row6High();
      assert b == 0x60 || b == 0x61 || b == 0x62 || b == 0x63 || b == 0x64 || b == 0x65 || b == 0x66 || b == 0x67
        || b == 0x68 || b == 0x69 || b == 0x6a || b == 0x6b || b == 0x6c || b == 0x6d || b == 0x6e || b == 0x6f;
    } else if b & 0xf0 == 0x70 {
      Row7Low();
      Row7High();
      assert b == 0x70 || b == 0x71 || b == 0x72 || b == 0x73 || b == 0x74 || b == 0x75 || b == 0x76 || b == 0x77
        || b == 0x78 || b == 0x79 || b == 0x7a || b == 0x7b || b == 0x7c || b == 0x7d || b == 0x7e || b == 0x7f;
    } else if b & 0xf0 == 0x80 {
      Row8Low();
      Row8High();
      assert b == 0x80 || b == 0x81 || b == 0x82 || b == 0x83 || b == 0x84 || b == 0x85 || b == 0x86 || b == 0x87
        || b == 0x88 || b == 0x89 || b == 0x8a || b == 0x8b || b == 0x8c || b == 0x8d || b == 0x8e || b == 0x8f;
    } else if b & 0xf0 == 0x90 {
      Row9Low();
      Row9High();
      assert b == 0x90 || b == 0x91 || b == 0x92 || b == 0x93 || b == 0x94 || b == 0x95 || b == 0x96 || b == 0x97
        || b == 0x98 || b == 0x99 || b == 0x9a || b == 0x9b || b == 0x9c || b == 0x9d || b == 0x9e || b == 0x9f;
    } else if b & 0xf0 == 0xa0 {
      RowALow();
      RowAHigh();
      assert b == 0xa0 || b == 0xa1 || b == 0xa2 || b == 0xa3 || b == 0xa4 || b == 0xa5 || b == 0xa6 || b == 0xa7
        || b == 0xa8 || b == 0xa9 || b == 0xaa || b == 0xab || b == 0xac || b == 0xad || b == 0xae || b == 0xaf;
    } else if b & 0xf0 == 0xb0 {
      RowBLow();
      RowBHigh();
      assert b == 0xb0 || b == 0xb1 || b == 0xb2 || b == 0xb3 || b == 0xb4 || b == 0xb5 || b == 0xb6 || b == 0xb7
        || b == 0xb8 || b == 0xb9 || b == 0xba || b == 0xbb || b == 0xbc || b == 0xbd || b == 0xbe || b == 0xbf;
    } else if b & 0xf0 == 0xc0 {
      RowCLow();
      RowCHigh();
      assert b == 0xc0 || b == 0xc1 || b == 0xc2 || b == 0xc3 || b == 0xc4 || b == 0xc5 || b == 0xc6 || b == 0xc7
        || b == 0xc8 || b == 0xc9 || b == 0xca || b == 0xcb || b == 0xcc || b == 0xcd || b == 0xce || b == 0xcf;
    } else if b & 0xf0 == 0xd0 {
      RowDLow();
      RowDHigh();
      assert b == 0xd0 || b == 0xd1 || b == 0xd2 || b == 0xd3 || b == 0xd4 || b == 0xd5 || b == 0xd6 || b == 0xd7
        || b == 0xd8 || b == 0xd9 || b == 0xda || b == 0xdb || b == 0xdc || b == 0xdd || b == 0xde || b == 0xdf;
    } else if b & 0xf0 == 0xe0 {
      RowELow();
      RowEHigh();
      assert b == 0xe0 || b == 0xe1 || b == 0xe2 || b == 0xe3 || b == 0xe4 || b == 0xe5 || b == 0xe6 || b == 0xe7
        || b == 0xe8 || b == 0xe9 || b == 0xea || b == 0xeb || b == 0xec || b == 0xed || b == 0xee || b == 0xef;
    } else {
      RowFLow();
      RowFHigh();
      assert b == 0xf0 || b == 0xf1 || b == 0xf2 || b == 0xf3 || b == 0xf4 || b == 0xf5 || b == 0xf6 || b == 0xf7
        || b == 0xf8 || b == 0xf9 || b == 0xfa || b == 0xfb || b == 0xfc || b == 0xfd || b == 0xfe || b == 0xff;
    }
  }

  // --- The column matrices ---

  /** A product is the sum over the set bits, taken in hand for a factor below sixteen. */
  function LowSum(p0: bool, p1: bool, p2: bool, p3: bool, b: bv8): bv8 {
    Xor(Xor(Pick(p0, b), Pick(p1, XTime(b))), Xor(Pick(p2, X2(b)), Pick(p3, X3(b))))
  }

  lemma SmallTimes(a: bv8, b: bv8)
    requires a & 0xf0 == 0
    ensures Times(a, b) == LowSum(a & 0x01 != 0, a & 0x02 != 0, a & 0x04 != 0, a & 0x08 != 0, b)
  {
    hide XTime;
  }

  lemma LowSums(b: bv8, x1: bv8, x2: bv8, x3: bv8)
    requires x1 == XTime(b) && x2 == X2(b) && x3 == X3(b)
    ensures LowSum(true, false, false, false, b) == b && LowSum(false, true, false, false, b) == x1
    ensures LowSum(true, true, false, false, b) == Xor(x1, b)
    ensures LowSum(false, true, true, true, b) == Xor(x3, Xor(x2, x1)) && LowSum(true, true, false, true, b) == Xor(x3, Xor(x1, b))
    ensures LowSum(true, false, true, true, b) == Xor(x3, Xor(x2, b)) && LowSum(true, false, false, true, b) == Xor(x3, b)
  {
    hide XTime, X2, X3, Xor;
    ZeroXor(b);
    ZeroXor(x1);
    ZeroXor(x3);
    ZeroXor(0);
    ZeroXor(Xor(b, x1));
    Commute(b, x1);
    Commute(b, x3);
    Commute(x2, x3);
    Commute(x1, Xor(x3, x2));
    Associate(x3, x2, x1);
    Commute(b, Xor(x3, x2));
    Associate(x3, x2, b);
    Commute(Xor(b, x1), x3);
  }

  lemma ZeroXor(a: bv8)
    ensures Xor(a, 0) == a && Xor(0, a) == a
  {}

  lemma SmallProducts(b: bv8)
    ensures Times(0x01, b) == b && Times(0x02, b) == XTime(b) && Times(0x03, b) == Xor(XTime(b), b)
    ensures Times(0x0e, b) == Xor(X3(b), Xor(X2(b), XTime(b))) && Times(0x0b, b) == Xor(X3(b), Xor(XTime(b), b))
    ensures Times(0x0d, b) == Xor(X3(b), Xor(X2(b), b)) && Times(0x09, b) == Xor(X3(b), b)
  {
    hide XTime, X2, X3, Xor, Times, LowSum;
    SmallTimes(0x01, b);
    SmallTimes(0x02, b);
    SmallTimes(0x03, b);
    SmallTimes(0x09, b);
    SmallTimes(0x0b, b);
    SmallTimes(0x0d, b);
    SmallTimes(0x0e, b);
    LowSums(b, XTime(b), X2(b), X3(b));
  }

  /** The rows of the two matrices are the products that sections 5.1.3 and 5.3.3 of FIPS 197 name. */
  lemma RowsAreProducts(c: Column)
    ensures MatrixRow(c) == Xor(Xor(Times(0x02, c.s0), Times(0x03, c.s1)), Xor(Times(0x01, c.s2), Times(0x01, c.s3)))
    ensures InvMatrixRow(c)
         == Xor(Xor(Times(0x0e, c.s0), Times(0x0b, c.s1)), Xor(Times(0x0d, c.s2), Times(0x09, c.s3)))
  {
    hide Times, Xor, XTime, X2, X3;
    SmallProducts(c.s0);
    SmallProducts(c.s1);
    SmallProducts(c.s2);
    SmallProducts(c.s3);
  }
}
