/**
  MixColumns: the fallback's xtime shortcut, the matrix products of FIPS 197 it stands for, and
  the proof that the inverse matrix undoes it, by way of a closed form for mixing twice.
 */
module MixColumns {

  /** One column of the state. */
  datatype Column = Column(s0: bv8, s1: bv8, s2: bv8, s3: bv8)

  function Xor(a: bv8, b: bv8): bv8 {
    a ^ b
  }

  /** Multiplication by {02}; an 8-bit shift drops the bit that the source masks off. */
  function XTime(a: bv8): bv8 {
    if a & 0x80 != 0 then (a << 1) ^ 0x1b else a << 1
  }

  function ColumnSum(c: Column): bv8 {
    Xor(Xor(c.s0, c.s1), Xor(c.s2, c.s3))
  }

  /** s ^= t ^ xtime(s ^ next) */
  function MixByte(s: bv8, t: bv8, next: bv8): bv8 {
    Xor(s, Xor(t, XTime(Xor(s, next))))
  }

  /** The fallback's shortcut: each byte changes by the column's sum and one doubled neighbour sum. */
  function MixColumn(c: Column): Column {
    var t := ColumnSum(c);
    Column(MixByte(c.s0, t, c.s1), MixByte(c.s1, t, c.s2), MixByte(c.s2, t, c.s3), MixByte(c.s3, t, c.s0))
  }

  function Rotate(c: Column): Column {
    Column(c.s1, c.s2, c.s3, c.s0)
  }

  function X2(a: bv8): bv8 {
    XTime(XTime(a))
  }

  function X3(a: bv8): bv8 {
    XTime(X2(a))
  }

  /** First row of the matrix of section 5.1.3 of FIPS 197: {02} {03} {01} {01}. */
  function MatrixRow(c: Column): bv8 {
    Xor(Xor(XTime(c.s0), Xor(XTime(c.s1), c.s1)), Xor(c.s2, c.s3))
  }

  /** First row of the matrix of section 5.3.3 of FIPS 197: {0e} {0b} {0d} {09}. */
  function InvMatrixRow(c: Column): bv8 {
    Xor(
      Xor(Xor(X3(c.s0), Xor(X2(c.s0), XTime(c.s0))), Xor(X3(c.s1), Xor(XTime(c.s1), c.s1))),
      Xor(Xor(X3(c.s2), Xor(X2(c.s2), c.s2)), Xor(X3(c.s3), c.s3)))
  }

  /** Both matrices are circulant: row i is the first row applied to the column rotated i places. */
  function Circulant(row: Column -> bv8, c: Column): Column {
    Column(row(c), row(Rotate(c)), row(Rotate(Rotate(c))), row(Rotate(Rotate(Rotate(c)))))
  }

  function InvMixColumn(c: Column): Column {
    Circulant(InvMatrixRow, c)
  }

  // --- Linearity of xtime ---

  lemma XTimeForm(a: bv8)
    ensures XTime(a) == (a << 1) ^ (a >> 7) ^ ((a >> 7) << 1) ^ ((a >> 7) << 3) ^ ((a >> 7) << 4)
  {}

  lemma FormXor(a: bv8, b: bv8)
    ensures ((a ^ b) << 1) ^ ((a ^ b) >> 7) ^ (((a ^ b) >> 7) << 1) ^ (((a ^ b) >> 7) << 3) ^ (((a ^ b) >> 7) << 4)
         == ((a << 1) ^ (a >> 7) ^ ((a >> 7) << 1) ^ ((a >> 7) << 3) ^ ((a >> 7) << 4))
          ^ ((b << 1) ^ (b >> 7) ^ ((b >> 7) << 1) ^ ((b >> 7) << 3) ^ ((b >> 7) << 4))
  {}

  lemma XTimeXor(a: bv8, b: bv8)
    ensures XTime(Xor(a, b)) == Xor(XTime(a), XTime(b))
  {
    hide XTime;
    XTimeForm(a);
    XTimeForm(b);
    XTimeForm(a ^ b);
    FormXor(a, b);
  }

  // --- Laws of Xor ---

  lemma Associate(a: bv8, b: bv8, c: bv8)
    ensures Xor(Xor(a, b), c) == Xor(a, Xor(b, c))
  {}

  lemma Commute(a: bv8, b: bv8)
    ensures Xor(a, b) == Xor(b, a)
  {}

  lemma Cancelled(a: bv8, b: bv8)
    ensures Xor(a, Xor(a, b)) == b
  {}

  lemma Interleave(a: bv8, u: bv8, b: bv8, v: bv8)
    ensures Xor(Xor(a, u), Xor(b, v)) == Xor(Xor(a, b), Xor(u, v))
  {
    hide Xor;
    Associate(a, u, Xor(b, v));
    Associate(u, b, v);
    Commute(u, b);
    Associate(b, u, v);
    Associate(a, b, Xor(u, v));
  }

  lemma ShortcutIdentity(a: bv8, b: bv8, u: bv8, x: bv8, y: bv8)
    ensures Xor(a, Xor(Xor(Xor(a, b), u), Xor(x, y)))
         == Xor(Xor(x, Xor(y, b)), u)
  {
    hide Xor;
    Associate(a, b, u);
    Associate(a, Xor(b, u), Xor(x, y));
    Cancelled(a, Xor(Xor(b, u), Xor(x, y)));
    Commute(Xor(b, u), Xor(x, y));
    Associate(Xor(x, y), b, u);
    Associate(x, y, b);
  }

  lemma ShortcutRow(c: Column)
    ensures MixByte(c.s0, ColumnSum(c), c.s1) == MatrixRow(c)
  {
    hide XTime, Xor;
    XTimeXor(c.s0, c.s1);
    ShortcutIdentity(c.s0, c.s1, Xor(c.s2, c.s3), XTime(c.s0), XTime(c.s1));
  }

  lemma RotateSum(c: Column)
    ensures ColumnSum(Rotate(c)) == ColumnSum(c)
  {}

  /** The shortcut is the matrix product of section 5.1.3. */
  lemma MixColumnIsMatrix(c: Column)
    ensures MixColumn(c) == Circulant(MatrixRow, c)
  {
    hide ColumnSum, MixByte, MatrixRow;
    var c1, c2, c3 := Rotate(c), Rotate(Rotate(c)), Rotate(Rotate(Rotate(c)));
    RotateSum(c);
    RotateSum(c1);
    RotateSum(c2);
    ShortcutRow(c);
    ShortcutRow(c1);
    ShortcutRow(c2);
    ShortcutRow(c3);
  }

  // --- Mixing twice ---

  lemma Cancel(a: bv8, b: bv8, t: bv8, p: bv8, q: bv8)
    ensures Xor(Xor(a, Xor(t, p)), Xor(b, Xor(t, q)))
         == Xor(Xor(a, b), Xor(p, q))
  {
    hide Xor;
    Interleave(a, Xor(t, p), b, Xor(t, q));
    Commute(t, p);
    Telescope(p, t, q);
  }

  lemma Telescope(a: bv8, b: bv8, c: bv8)
    ensures Xor(Xor(a, b), Xor(b, c)) == Xor(a, c)
  {
    hide Xor;
    Associate(a, b, Xor(b, c));
    Cancelled(b, c);
  }

  /** The doubled neighbour sums around two adjacent bytes add up to one doubled sum across. */
  lemma AcrossTwo(a: bv8, b: bv8, c: bv8)
    ensures Xor(XTime(Xor(a, b)), XTime(Xor(b, c))) == XTime(Xor(a, c))
  {
    hide XTime, Xor;
    XTimeXor(Xor(a, b), Xor(b, c));
    Telescope(a, b, c);
  }

  lemma OppositeKept(a: bv8, c: bv8, w: bv8)
    ensures Xor(Xor(a, w), Xor(c, w)) == Xor(a, c)
    ensures Xor(Xor(a, w), w) == a
    ensures Xor(a, c) == Xor(c, a)
  {}

  lemma SumKept(c: Column)
    ensures ColumnSum(MixColumn(c)) == ColumnSum(c)
  {
    hide XTime, Xor;
    var t, x := ColumnSum(c), XTime(Xor(c.s0, c.s2));
    Cancel(c.s0, c.s1, t, XTime(Xor(c.s0, c.s1)), XTime(Xor(c.s1, c.s2)));
    Cancel(c.s2, c.s3, t, XTime(Xor(c.s2, c.s3)), XTime(Xor(c.s3, c.s0)));
    AcrossTwo(c.s0, c.s1, c.s2);
    AcrossTwo(c.s2, c.s3, c.s0);
    OppositeKept(c.s0, c.s2, 0);
    OppositeKept(Xor(c.s0, c.s1), Xor(c.s2, c.s3), x);
  }

  lemma TwiceIdentity(a: bv8, t: bv8, p: bv8, w: bv8)
    ensures Xor(Xor(a, Xor(t, p)), Xor(t, Xor(p, w))) == Xor(a, w)
  {
    hide Xor;
    Associate(t, p, w);
    Telescope(a, Xor(t, p), w);
  }

  /** Mixing twice only couples a byte with the one two places on. */
  function Twice(c: Column): bv8 {
    Xor(c.s0, X2(Xor(c.s0, c.s2)))
  }

  lemma MixTwiceRow(c: Column)
    ensures MixColumn(MixColumn(c)).s0 == Twice(c)
  {
    hide XTime, Xor, ColumnSum;
    var t, m := ColumnSum(c), MixColumn(c);
    var p, q := XTime(Xor(c.s0, c.s1)), XTime(Xor(c.s1, c.s2));
    SumKept(c);
    Cancel(c.s0, c.s1, t, p, q);
    AcrossTwo(c.s0, c.s1, c.s2);
    XTimeXor(Xor(c.s0, c.s1), XTime(Xor(c.s0, c.s2)));
    TwiceIdentity(c.s0, t, p, X2(Xor(c.s0, c.s2)));
  }

  lemma MixRotate(c: Column)
    ensures MixColumn(Rotate(c)) == Rotate(MixColumn(c))
  {
    hide MixByte, ColumnSum;
    RotateSum(c);
  }

  lemma MixTwice(c: Column)
    ensures MixColumn(MixColumn(c)) == Circulant(Twice, c)
  {
    hide MixColumn, Twice;
    var c1, c2, c3 := Rotate(c), Rotate(Rotate(c)), Rotate(Rotate(Rotate(c)));
    forall d: Column
      ensures MixColumn(Rotate(d)) == Rotate(MixColumn(d))
    {
      MixRotate(d);
    }
    MixTwiceRow(c);
    MixTwiceRow(c1);
    MixTwiceRow(c2);
    MixTwiceRow(c3);
  }

  lemma TwiceTwice(c: Column)
    ensures Twice(Circulant(Twice, c)) == c.s0
  {
    hide XTime, Xor, X2;
    OppositeKept(c.s0, c.s2, X2(Xor(c.s0, c.s2)));
  }

  lemma CirculantTwice(c: Column)
    ensures Circulant(Twice, Circulant(Twice, c)) == c
  {
    hide Twice;
    TwiceTwice(c);
    TwiceTwice(Rotate(c));
    TwiceTwice(Rotate(Rotate(c)));
    TwiceTwice(Rotate(Rotate(Rotate(c))));
  }

  // --- The inverse matrix ---

  lemma FirstHalf(a3: bv8, a2: bv8, a1: bv8, b3: bv8, b1: bv8, b: bv8)
    ensures Xor(Xor(a3, Xor(a2, a1)), Xor(b3, Xor(b1, b)))
         == Xor(Xor(a3, b3), Xor(a2, Xor(Xor(a1, b1), b)))
  {
    hide Xor;
    Interleave(a3, Xor(a2, a1), b3, Xor(b1, b));
    Associate(a2, a1, Xor(b1, b));
    Associate(a1, b1, b);
  }

  lemma SecondHalf(c3: bv8, c2: bv8, c: bv8, d3: bv8, d: bv8)
    ensures Xor(Xor(c3, Xor(c2, c)), Xor(d3, d))
         == Xor(Xor(c3, d3), Xor(c2, Xor(c, d)))
  {
    hide Xor;
    Interleave(c3, Xor(c2, c), d3, d);
    Associate(c2, c, d);
  }

  lemma JoinHalves(p: bv8, a2: bv8, q: bv8, b: bv8, r: bv8, c2: bv8, e: bv8)
    ensures Xor(Xor(p, Xor(a2, Xor(q, b))), Xor(r, Xor(c2, e)))
         == Xor(Xor(Xor(p, r), Xor(a2, c2)), Xor(q, Xor(b, e)))
  {
    hide Xor;
    Interleave(p, Xor(a2, Xor(q, b)), r, Xor(c2, e));
    Interleave(a2, Xor(q, b), c2, e);
    Associate(q, b, e);
    Associate(Xor(p, r), Xor(a2, c2), Xor(q, Xor(b, e)));
  }

  lemma ThirdMix(a: bv8, u: bv8, b: bv8, e: bv8, q: bv8, x: bv8)
    ensures Xor(Xor(a, u), Xor(Xor(Xor(a, b), e), Xor(q, x)))
         == Xor(Xor(x, u), Xor(q, Xor(b, e)))
  {
    hide Xor;
    var z, w := Xor(b, e), Xor(q, x);
    Associate(a, b, e);
    Associate(a, z, w);
    Commute(a, u);
    Telescope(u, a, Xor(z, w));
    Associate(u, z, w);
    Commute(Xor(u, z), w);
    Commute(q, x);
    Interleave(x, q, u, z);
  }

  lemma XPowersXor(a: bv8, b: bv8)
    ensures X2(Xor(a, b)) == Xor(X2(a), X2(b))
    ensures X3(Xor(a, b)) == Xor(X3(a), X3(b))
  {
    hide XTime, Xor;
    XTimeXor(a, b);
    XTimeXor(XTime(a), XTime(b));
    XTimeXor(X2(a), X2(b));
  }

  /** A row of the inverse matrix, sorted by powers of the indeterminate. */
  function SortedInvRow(c: Column): bv8 {
    Xor(Xor(X3(ColumnSum(c)), X2(Xor(c.s0, c.s2))), Xor(XTime(Xor(c.s0, c.s1)), Xor(c.s1, Xor(c.s2, c.s3))))
  }

  lemma InvRowSorted(c: Column)
    ensures InvMatrixRow(c) == SortedInvRow(c)
  {
    hide XTime, X2, X3, Xor;
    FirstHalf(X3(c.s0), X2(c.s0), XTime(c.s0), X3(c.s1), XTime(c.s1), c.s1);
    SecondHalf(X3(c.s2), X2(c.s2), c.s2, X3(c.s3), c.s3);
    JoinHalves(Xor(X3(c.s0), X3(c.s1)), X2(c.s0), Xor(XTime(c.s0), XTime(c.s1)), c.s1,
      Xor(X3(c.s2), X3(c.s3)), X2(c.s2), Xor(c.s2, c.s3));
    XPowersXor(c.s0, c.s1);
    XPowersXor(c.s2, c.s3);
    XPowersXor(Xor(c.s0, c.s1), Xor(c.s2, c.s3));
    XPowersXor(c.s0, c.s2);
    XTimeXor(c.s0, c.s1);
  }

  lemma MixThriceRow(c: Column)
    ensures MixColumn(Circulant(Twice, c)).s0 == SortedInvRow(c)
  {
    hide XTime, X2, Xor, ColumnSum;
    var u, e := X2(Xor(c.s0, c.s2)), Xor(c.s2, c.s3);
    var r := Circulant(Twice, c);
    MixTwice(c);
    SumKept(c);
    SumKept(MixColumn(c));
    Interleave(c.s0, u, c.s1, X2(Xor(c.s1, c.s3)));
    XPowersXor(Xor(c.s0, c.s2), Xor(c.s1, c.s3));
    Interleave(c.s0, c.s2, c.s1, c.s3);
    SumIs(c);
    XTimeXor(Xor(c.s0, c.s1), X2(ColumnSum(c)));
    ThirdMix(c.s0, u, c.s1, e, XTime(Xor(c.s0, c.s1)), X3(ColumnSum(c)));
  }

  lemma SumIs(c: Column)
    ensures ColumnSum(c) == Xor(Xor(c.s0, c.s1), Xor(c.s2, c.s3))
  {}

  /** The inverse matrix of section 5.3.3 is three more mixings. */
  lemma InvIsMixThrice(c: Column)
    ensures InvMixColumn(c) == MixColumn(MixColumn(MixColumn(c)))
  {
    hide MixColumn, InvMatrixRow, SortedInvRow, Twice;
    var c1, c2, c3 := Rotate(c), Rotate(Rotate(c)), Rotate(Rotate(Rotate(c)));
    forall d: Column
      ensures MixColumn(Rotate(d)) == Rotate(MixColumn(d))
      ensures InvMatrixRow(d) == MixColumn(Circulant(Twice, d)).s0
    {
      MixRotate(d);
      InvRowSorted(d);
      MixThriceRow(d);
    }
    MixTwice(c);
    CirculantRotate(Twice, c);
    CirculantRotate(Twice, c1);
    CirculantRotate(Twice, c2);
  }

  lemma CirculantRotate(row: Column -> bv8, c: Column)
    ensures Circulant(row, Rotate(c)) == Rotate(Circulant(row, c))
  {}

  /** MixColumns has order four. */
  lemma MixFourTimes(c: Column)
    ensures MixColumn(MixColumn(MixColumn(MixColumn(c)))) == c
  {
    hide MixColumn, Circulant;
    MixTwice(c);
    MixTwice(MixColumn(MixColumn(c)));
    CirculantTwice(c);
  }

  lemma MixInverse(c: Column)
    ensures InvMixColumn(MixColumn(c)) == c
    ensures MixColumn(InvMixColumn(c)) == c
  {
    hide *;
    InvIsMixThrice(c);
    InvIsMixThrice(MixColumn(c));
    MixFourTimes(c);
  }
}
