/**
  Multiplication in GF(2^128) as the pure-Python GCM fallback computes it: 128 rounds of
  "select, then shift and reduce". The loop is proved equal to a sum of shifted copies, and
  that sum is proved bilinear, commutative and associative, with 1 << 127 as its identity.

  The proofs hide the bit-vector definitions and argue from the laws of Add alone.
 */
module GaloisField {

  /** A field element; the leftmost bit is the coefficient of the zeroth power. */
  type Elem = bv128

  const REDUCTION: Elem := 0xe1000000000000000000000000000000
  const ONE: Elem := 0x80000000000000000000000000000000

  function Add(a: Elem, b: Elem): Elem {
    a ^ b
  }

  function Halve(v: Elem): Elem {
    v >> 1
  }

  function Double(v: Elem): Elem {
    v << 1
  }

  predicate Odd(v: Elem) {
    v & 1 == 1
  }

  /** The leading coefficient. */
  predicate Top(v: Elem) {
    v & ONE != 0
  }

  function Pick(b: bool, v: Elem): Elem {
    if b then v else 0
  }

  /** Multiplication by the indeterminate: one shift, then the reduction. */
  function Step(v: Elem): Elem {
    Add(Halve(v), Pick(Odd(v), REDUCTION))
  }

  /** The sum, over each of the first n coefficients of x that is set, of v stepped as often as its position. */
  function Sum(x: Elem, v: Elem, n: bv8): Elem
    decreases n
  {
    if n == 0 then 0 else Add(Pick(Top(x), v), Sum(Double(x), Step(v), n - 1))
  }

  function Product(x: Elem, y: Elem): Elem {
    Sum(x, y, 128)
  }

  function Power(h: Elem, n: nat): Elem {
    if n == 0 then ONE else Product(Power(h, n - 1), h)
  }

  /** The fallback's loop. */
  method GfMult(x: Elem, y: Elem) returns (z: Elem)
    ensures z == Product(x, y)
  {
    hide *;
    z := 0;
    var v := y;
    var i: bv8 := 0;
    Start(x, y);
    while i < 128
      invariant i <= 128
      invariant Accumulated(x, y, z, v, i)
      decreases 128 - i
    {
      Round(x, y, z, v, i);
      if (x >> (127 - i)) & 1 == 1 {
        z := z ^ v;
      }
      if v & 1 == 1 {
        v := (v >> 1) ^ REDUCTION;
      } else {
        v := v >> 1;
      }
      i := i + 1;
    }
    Finish(x, y, z, v);
  }

  /** After i rounds, z plus the terms still to come make up the product. */
  ghost predicate Accumulated(x: Elem, y: Elem, z: Elem, v: Elem, i: bv8)
    requires i <= 128
  {
    Product(x, y) == Add(z, Sum(DoubleTimes(x, i), v, 128 - i))
  }

  lemma Start(x: Elem, y: Elem)
    ensures Accumulated(x, y, 0, y, 0)
  {}

  lemma Finish(x: Elem, y: Elem, z: Elem, v: Elem)
    requires Accumulated(x, y, z, v, 128)
    ensures z == Product(x, y)
  {
    hide Add, DoubleTimes;
    Zero(z);
  }

  lemma Round(x: Elem, y: Elem, z: Elem, v: Elem, i: bv8)
    requires i < 128 && Accumulated(x, y, z, v, i)
    ensures
      var z' := if (x >> (127 - i)) & 1 == 1 then z ^ v else z;
      var v' := if v & 1 == 1 then (v >> 1) ^ REDUCTION else v >> 1;
      Accumulated(x, y, z', v', i + 1)
  {
    hide Add, Double, Top, Pick, Step;
    var rest := DoubleTimes(x, i);
    CodeBit(x, i);
    DoubleLast(x, i);
    AddPick(z, Top(rest), v);
    StepCode(v);
    Associate(z, Pick(Top(rest), v), Sum(Double(rest), Step(v), 127 - i));
  }

  // --- Laws of Add ---

  lemma Zero(v: Elem)
    ensures Add(v, v) == 0 && Add(v, 0) == v && Add(0, v) == v
  {}

  lemma Commute(a: Elem, b: Elem)
    ensures Add(a, b) == Add(b, a)
  {}

  lemma AddIsXor(a: Elem, b: Elem)
    ensures Add(a, b) == a ^ b
  {}

  lemma AssociateXor(a: Elem, b: Elem, c: Elem)
    ensures Add(a ^ b, c) == Add(a, b ^ c)
  {}

  lemma Associate(a: Elem, b: Elem, c: Elem)
    ensures Add(Add(a, b), c) == Add(a, Add(b, c))
  {
    hide Add;
    AddIsXor(a, b);
    AddIsXor(b, c);
    AssociateXor(a, b, c);
  }

  lemma Interchange(a: Elem, b: Elem, c: Elem, d: Elem)
    ensures Add(Add(a, b), Add(c, d)) == Add(Add(a, c), Add(b, d))
  {
    hide Add;
    Associate(a, b, Add(c, d));
    Associate(b, c, d);
    Commute(b, c);
    Associate(c, b, d);
    Associate(a, c, Add(b, d));
  }

  // --- Bits ---

  lemma HalveAdd(a: Elem, b: Elem)
    ensures Halve(Add(a, b)) == Add(Halve(a), Halve(b))
    ensures Odd(Add(a, b)) == (Odd(a) != Odd(b))
  {}

  lemma DoubleXor(a: Elem, b: Elem)
    ensures (a ^ b) << 1 == Add(a << 1, b << 1)
    ensures Top(a ^ b) == (Top(a) != Top(b))
  {}

  lemma DoubleAdd(a: Elem, b: Elem)
    ensures Double(Add(a, b)) == Add(Double(a), Double(b))
    ensures Top(Add(a, b)) == (Top(a) != Top(b))
  {
    hide Add, Top;
    AddIsXor(a, b);
    DoubleXor(a, b);
  }

  function DoubleTimes(x: Elem, n: bv8): Elem
    decreases n
  {
    if n == 0 then x else DoubleTimes(Double(x), n - 1)
  }

  lemma {:induction false} DoubleLast(x: Elem, n: bv8)
    requires n < 255
    ensures DoubleTimes(x, n + 1) == Double(DoubleTimes(x, n))
    decreases n
  {
    hide Double;
    if n == 0 {
    } else {
      DoubleLast(Double(x), n - 1);
    }
  }

  lemma ShiftedBit(x: Elem, i: bv8)
    requires i < 127
    ensures ((x << 1) >> (127 - i)) & 1 == (x >> (126 - i)) & 1
  {}

  lemma TopBit(x: Elem)
    ensures (x >> 127) & 1 == 1 <==> Top(x)
  {}

  /** The code's test of coefficient i reads the leading coefficient after i doublings. */
  lemma {:induction false} CodeBit(x: Elem, i: bv8)
    requires i < 128
    ensures (x >> (127 - i)) & 1 == 1 <==> Top(DoubleTimes(x, i))
    decreases i
  {
    hide Top;
    if i == 0 {
      TopBit(x);
    } else {
      ShiftedBit(x, i - 1);
      CodeBit(Double(x), i - 1);
    }
  }

  lemma AddPick(z: Elem, p: bool, v: Elem)
    ensures Add(z, Pick(p, v)) == if p then z ^ v else z
  {
    hide Add;
    Zero(z);
    AddIsXor(z, v);
  }

  lemma StepCode(v: Elem)
    ensures Step(v) == if v & 1 == 1 then (v >> 1) ^ REDUCTION else v >> 1
  {
    hide Add, Halve, Odd;
    OddIs(v);
    HalveIs(v);
    Zero(v >> 1);
    AddIsXor(v >> 1, REDUCTION);
  }

  lemma OddIs(v: Elem)
    ensures Odd(v) <==> v & 1 == 1
  {}

  lemma HalveIs(v: Elem)
    ensures Halve(v) == v >> 1
  {}

  // --- Linearity ---

  lemma PickSplit(p: bool, q: bool, v: Elem)
    ensures Pick(p != q, v) == Add(Pick(p, v), Pick(q, v))
  {
    hide Add;
    Zero(v);
    Zero(0);
  }

  lemma PickAdd(p: bool, a: Elem, b: Elem)
    ensures Pick(p, Add(a, b)) == Add(Pick(p, a), Pick(p, b))
  {}

  lemma StepAdd(a: Elem, b: Elem)
    ensures Step(Add(a, b)) == Add(Step(a), Step(b))
  {
    hide Add, Pick, Halve, Odd;
    HalveAdd(a, b);
    PickSplit(Odd(a), Odd(b), REDUCTION);
    Interchange(Halve(a), Halve(b), Pick(Odd(a), REDUCTION), Pick(Odd(b), REDUCTION));
  }

  lemma StepZero()
    ensures Step(0) == 0
  {}

  lemma PickStep(p: bool, v: Elem)
    ensures Step(Pick(p, v)) == Pick(p, Step(v))
  {}

  lemma {:induction false} SumRight(x: Elem, a: Elem, b: Elem, n: bv8)
    ensures Sum(x, Add(a, b), n) == Add(Sum(x, a, n), Sum(x, b, n))
    decreases n
  {
    hide Step, Pick, Top, Double, Add;
    if n == 0 {
      Zero(0);
    } else {
      var x' := Double(x);
      StepAdd(a, b);
      SumRight(x', Step(a), Step(b), n - 1);
      PickAdd(Top(x), a, b);
      Interchange(Pick(Top(x), a), Pick(Top(x), b), Sum(x', Step(a), n - 1), Sum(x', Step(b), n - 1));
    }
  }

  lemma {:induction false} SumLeft(a: Elem, b: Elem, v: Elem, n: bv8)
    ensures Sum(Add(a, b), v, n) == Add(Sum(a, v, n), Sum(b, v, n))
    decreases n
  {
    hide Step, Pick, Top, Double, Add;
    if n == 0 {
      Zero(0);
    } else {
      DoubleAdd(a, b);
      PickSplit(Top(a), Top(b), v);
      SumLeft(Double(a), Double(b), Step(v), n - 1);
      Interchange(Pick(Top(a), v), Pick(Top(b), v), Sum(Double(a), Step(v), n - 1), Sum(Double(b), Step(v), n - 1));
    }
  }

  lemma {:induction false} SumStep(x: Elem, v: Elem, n: bv8)
    ensures Sum(x, Step(v), n) == Step(Sum(x, v, n))
    decreases n
  {
    hide Step, Pick, Top, Double, Add;
    if n == 0 {
      StepZero();
    } else {
      SumStep(Double(x), Step(v), n - 1);
      StepAdd(Pick(Top(x), v), Sum(Double(x), Step(v), n - 1));
      PickStep(Top(x), v);
    }
  }

  lemma {:induction false} SumZero(x: Elem, n: bv8)
    ensures Sum(x, 0, n) == 0
    decreases n
  {
    hide Step, Top, Double, Add;
    if n == 0 {
    } else {
      StepZero();
      SumZero(Double(x), n - 1);
      Zero(0);
    }
  }

  lemma ProductPick(y: Elem, p: bool, v: Elem)
    ensures Product(y, Pick(p, v)) == Pick(p, Product(y, v))
  {
    hide Sum;
    SumZero(y, 128);
  }

  /** Any two multiplications commute as operators on v. */
  lemma {:induction false} SumsCommute(x: Elem, y: Elem, v: Elem, n: bv8)
    ensures Sum(x, Product(y, v), n) == Product(y, Sum(x, v, n))
    decreases n
  {
    hide Step, Pick, Top, Double, Add, Product;
    if n == 0 {
      ProductZero(y);
    } else {
      ProductStep(y, v);
      SumsCommute(Double(x), y, Step(v), n - 1);
      ProductRight(y, Pick(Top(x), v), Sum(Double(x), Step(v), n - 1));
      ProductPick(y, Top(x), v);
    }
  }

  lemma ProductZero(y: Elem)
    ensures Product(y, 0) == 0
  {
    hide Sum;
    SumZero(y, 128);
  }

  lemma ProductStep(y: Elem, v: Elem)
    ensures Product(y, Step(v)) == Step(Product(y, v))
  {
    hide Sum;
    SumStep(y, v, 128);
  }

  lemma ProductRight(y: Elem, a: Elem, b: Elem)
    ensures Product(y, Add(a, b)) == Add(Product(y, a), Product(y, b))
  {
    hide Sum;
    SumRight(y, a, b, 128);
  }

  // --- The identity ---

  lemma SplitTop(x: Elem)
    ensures x == Add(x & ONE, (x << 1) >> 1)
  {}

  lemma LeadingOnly(x: Elem)
    ensures Pick(Top(x), ONE) == x & ONE
  {}

  lemma StepDoubled(x: Elem)
    ensures Step(Double(x)) == (x << 1) >> 1
  {
    hide Add;
    Zero((x << 1) >> 1);
  }

  lemma Horner(x: Elem)
    ensures x == Add(Pick(Top(x), ONE), Step(Double(x)))
  {
    hide *;
    SplitTop(x);
    LeadingOnly(x);
    StepDoubled(x);
  }

  /** x is its first n coefficients plus what is left of it after n doublings, stepped back into place. */
  lemma {:induction false} SumOne(x: Elem, n: bv8)
    ensures x == Add(Sum(x, ONE, n), StepTimes(DoubleTimes(x, n), n))
    decreases n
  {
    hide Step, Pick, Top, Double, Add;
    if n == 0 {
      Zero(x);
    } else {
      var x' := Double(x);
      var rest := DoubleTimes(x', n - 1);
      Horner(x);
      SumOne(x', n - 1);
      StepAdd(Sum(x', ONE, n - 1), StepTimes(rest, n - 1));
      SumStep(x', ONE, n - 1);
      StepLast(rest, n - 1);
      Associate(Pick(Top(x), ONE), Step(Sum(x', ONE, n - 1)), Step(StepTimes(rest, n - 1)));
    }
  }

  function StepTimes(x: Elem, n: bv8): Elem
    decreases n
  {
    if n == 0 then x else StepTimes(Step(x), n - 1)
  }

  lemma {:induction false} StepLast(x: Elem, n: bv8)
    requires n < 255
    ensures StepTimes(x, n + 1) == Step(StepTimes(x, n))
    decreases n
  {
    hide Step;
    if n == 0 {
    } else {
      StepLast(Step(x), n - 1);
    }
  }

  lemma {:induction false} StepTimesZero(n: bv8)
    ensures StepTimes(0, n) == 0
    decreases n
  {
    hide Step;
    if n == 0 {
    } else {
      StepZero();
      StepTimesZero(n - 1);
    }
  }

  lemma {:induction false} DoubleSum(x: Elem, m: bv8, n: bv8)
    requires m <= 128 && n < 128
    ensures DoubleTimes(x, m + n) == DoubleTimes(DoubleTimes(x, m), n)
    decreases m
  {
    hide Double;
    if m == 0 {
    } else {
      DoubleSum(Double(x), m - 1, n);
    }
  }

  lemma Double2(x: Elem)
    ensures DoubleTimes(x, 2) == x << 2
  {}

  lemma Double4(x: Elem)
    ensures DoubleTimes(x, 4) == x << 4
  {
    hide DoubleTimes;
    Double2(x);
    Double2(x << 2);
    DoubleSum(x, 2, 2);
  }

  lemma Double8(x: Elem)
    ensures DoubleTimes(x, 8) == x << 8
  {
    hide DoubleTimes;
    Double4(x);
    Double4(x << 4);
    DoubleSum(x, 4, 4);
  }

  lemma Double16(x: Elem)
    ensures DoubleTimes(x, 16) == x << 16
  {
    hide DoubleTimes;
    Double8(x);
    Double8(x << 8);
    DoubleSum(x, 8, 8);
  }

  lemma Double32(x: Elem)
    ensures DoubleTimes(x, 32) == x << 32
  {
    hide DoubleTimes;
    Double16(x);
    Double16(x << 16);
    DoubleSum(x, 16, 16);
  }

  lemma Double64(x: Elem)
    ensures DoubleTimes(x, 64) == x << 64
  {
    hide DoubleTimes;
    Double32(x);
    Double32(x << 32);
    DoubleSum(x, 32, 32);
  }

  /** 2^k doublings are a plain shift, so 128 of them leave nothing. */
  lemma DoubledAway(x: Elem)
    ensures DoubleTimes(x, 128) == 0
  {
    hide DoubleTimes;
    Double64(x);
    Double64(x << 64);
    DoubleSum(x, 64, 64);
  }

  // --- The field laws ---

  lemma ProductDistributes(a: Elem, b: Elem, c: Elem)
    ensures Product(a ^ b, c) == Product(a, c) ^ Product(b, c)
    ensures Product(c, a ^ b) == Product(c, a) ^ Product(c, b)
  {
    hide Sum, Add;
    SumLeft(a, b, c, 128);
    SumRight(c, a, b, 128);
    AddIsXor(a, b);
    AddIsXor(Product(a, c), Product(b, c));
    AddIsXor(Product(c, a), Product(c, b));
  }

  lemma ProductOne(x: Elem)
    ensures Product(x, ONE) == x
    ensures Product(ONE, x) == x
  {
    hide *;
    ProductOneRight(x);
    ProductCommutes(ONE, x);
  }

  lemma ProductOneRight(x: Elem)
    ensures Product(x, ONE) == x
  {
    hide Sum, Add, DoubleTimes, StepTimes;
    SumOne(x, 128);
    DoubledAway(x);
    StepTimesZero(128);
    Zero(Product(x, ONE));
  }

  lemma OperatorsCommute(x: Elem, y: Elem, v: Elem)
    ensures Product(x, Product(y, v)) == Product(y, Product(x, v))
  {
    hide Sum;
    SumsCommute(x, y, v, 128);
  }

  lemma ProductCommutes(x: Elem, y: Elem)
    ensures Product(x, y) == Product(y, x)
  {
    hide *;
    OperatorsCommute(x, y, ONE);
    ProductOneRight(x);
    ProductOneRight(y);
  }

  lemma ProductAssociates(x: Elem, y: Elem, z: Elem)
    ensures Product(Product(x, y), z) == Product(x, Product(y, z))
  {
    hide *;
    ProductCommutes(Product(x, y), z);
    OperatorsCommute(z, x, y);
    ProductCommutes(z, y);
  }

  // --- The field polynomial ---

  /** The indeterminate: the coefficient of its first power alone. */
  const X: Elem := 0x40000000000000000000000000000000

  lemma ProductX(y: Elem)
    ensures Product(X, y) == Step(y)
  {
    hide Step, Add, Sum, Double, Top;
    XBits();
    SumUnfolds(X, y, 128);
    SumUnfolds(ONE, Step(y), 127);
    SumNone(Step(Step(y)), 126);
    Zero(Step(y));
    Zero(0);
  }

  lemma XBits()
    ensures !Top(X) && Double(X) == ONE && Top(ONE) && Double(ONE) == 0 && Double(0) == 0 && !Top(0)
  {}

  lemma SumUnfolds(x: Elem, v: Elem, n: bv8)
    requires n > 0
    ensures Sum(x, v, n) == Add(Pick(Top(x), v), Sum(Double(x), Step(v), n - 1))
  {
    hide Step, Add, Double, Top, Pick;
  }

  lemma {:induction false} SumNone(v: Elem, n: bv8)
    ensures Sum(0, v, n) == 0
    decreases n
  {
    hide Step, Add, Double, Top;
    if n == 0 {
    } else {
      XBits();
      SumNone(Step(v), n - 1);
      Zero(0);
    }
  }

  /** v moved along by n coefficients. */
  function Moved(v: Elem, n: nat): Elem {
    if n == 0 then v else Moved(Halve(v), n - 1)
  }

  /** None of the n moves from v on drops a coefficient. */
  predicate AllEven(v: Elem, n: nat) {
    n == 0 || (!Odd(v) && AllEven(Halve(v), n - 1))
  }

  lemma {:induction false} PowerMoves(v: Elem, n: nat, k: nat)
    requires AllEven(v, n) && Power(X, k) == v
    ensures Power(X, k + n) == Moved(v, n)
    decreases n
  {
    hide Product, Add, Halve, Odd, Power;
    if n == 0 {
    } else {
      PowerUnfolds(X, k + 1);
      ProductCommutes(v, X);
      ProductX(v);
      Zero(Halve(v));
      PowerMoves(Halve(v), n - 1, k + 1);
    }
  }

  lemma LastStep()
    ensures Step(1) == 0xe1000000000000000000000000000000
  {}

  const X2: Elem := 0x20000000000000000000000000000000
  const X7: Elem := 0x01000000000000000000000000000000

  lemma {:induction false} MoveSum(v: Elem, a: nat, b: nat)
    ensures Moved(v, a + b) == Moved(Moved(v, a), b)
    ensures AllEven(v, a) && AllEven(Moved(v, a), b) ==> AllEven(v, a + b)
    decreases a
  {
    hide Halve, Odd;
    if a > 0 {
      MoveSum(Halve(v), a - 1, b);
    }
  }

  lemma Move1(v: Elem)
    requires v & 0x1 == 0
    ensures AllEven(v, 1) && Moved(v, 1) == v >> 1
  {}

  lemma Move2(v: Elem)
    requires v & 0x3 == 0
    ensures AllEven(v, 2) && Moved(v, 2) == v >> 2
  {
    hide AllEven, Moved;
    assert v & 0x1 == 0 && (v >> 1) & 0x1 == 0 && (v >> 1) >> 1 == v >> 2;
    Move1(v);
    Move1(v >> 1);
    MoveSum(v, 1, 1);
  }

  lemma Move4(v: Elem)
    requires v & 0xf == 0
    ensures AllEven(v, 4) && Moved(v, 4) == v >> 4
  {
    hide AllEven, Moved;
    assert v & 0x3 == 0 && (v >> 2) & 0x3 == 0 && (v >> 2) >> 2 == v >> 4;
    Move2(v);
    Move2(v >> 2);
    MoveSum(v, 2, 2);
  }

  lemma Move8(v: Elem)
    requires v & 0xff == 0
    ensures AllEven(v, 8) && Moved(v, 8) == v >> 8
  {
    hide AllEven, Moved;
    assert v & 0xf == 0 && (v >> 4) & 0xf == 0 && (v >> 4) >> 4 == v >> 8;
    Move4(v);
    Move4(v >> 4);
    MoveSum(v, 4, 4);
  }

  lemma Move16(v: Elem)
    requires v & 0xffff == 0
    ensures AllEven(v, 16) && Moved(v, 16) == v >> 16
  {
    hide AllEven, Moved;
    assert v & 0xff == 0 && (v >> 8) & 0xff == 0 && (v >> 8) >> 8 == v >> 16;
    Move8(v);
    Move8(v >> 8);
    MoveSum(v, 8, 8);
  }

  lemma Move32(v: Elem)
    requires v & 0xffffffff == 0
    ensures AllEven(v, 32) && Moved(v, 32) == v >> 32
  {
    hide AllEven, Moved;
    assert v & 0xffff == 0 && (v >> 16) & 0xffff == 0 && (v >> 16) >> 16 == v >> 32;
    Move16(v);
    Move16(v >> 16);
    MoveSum(v, 16, 16);
  }

  lemma Move64(v: Elem)
    requires v & 0xffffffffffffffff == 0
    ensures AllEven(v, 64) && Moved(v, 64) == v >> 64
  {
    hide AllEven, Moved;
    assert v & 0xffffffff == 0 && (v >> 32) & 0xffffffff == 0 && (v >> 32) >> 32 == v >> 64;
    Move32(v);
    Move32(v >> 32);
    MoveSum(v, 32, 32);
  }

  /** Multiplication is modulo the polynomial of section 6.3 of NIST SP 800-38D: x^128 == 1 + x + x^2 + x^7. */
  lemma FieldPolynomial()
    ensures Power(X, 128) == ONE ^ X ^ Power(X, 2) ^ Power(X, 7)
    ensures Product(X, 1) == 0xe1000000000000000000000000000000
  {
    hide Product, Add, Power, Step, AllEven, Moved;
    PowerNone(X);
    Move2(ONE);
    PowerMoves(ONE, 2, 0);
    Move4(X2);
    PowerMoves(X2, 4, 2);
    var x6 := X2 >> 4;
    Move1(x6);
    PowerMoves(x6, 1, 6);
    var x7 := x6 >> 1;
    Move8(x7);
    PowerMoves(x7, 8, 7);
    var x15 := x7 >> 8;
    Move16(x15);
    PowerMoves(x15, 16, 15);
    var x31 := x15 >> 16;
    Move32(x31);
    PowerMoves(x31, 32, 31);
    var x63 := x31 >> 32;
    Move64(x63);
    PowerMoves(x63, 64, 63);
    assert x7 == X7 && x63 >> 64 == 1;
    PowerUnfolds(X, 128);
    LastPower();
    ProductCommutes(1, X);
    ProductX(1);
    LastStep();
  }

  lemma PowerNone(h: Elem)
    ensures Power(h, 0) == ONE
  {}

  lemma PowerUnfolds(h: Elem, n: nat)
    requires n > 0
    ensures Power(h, n) == Product(Power(h, n - 1), h)
  {
    hide Product;
  }

  lemma LastPower()
    ensures ONE ^ X ^ X2 ^ X7 == 0xe1000000000000000000000000000000
  {}
}
