/**
  The adler32 fallback of sign_item: the byte-by-byte loop, the closed form of section 2.2 of
  RFC 1950, and the law that combines the checksums of two halves.

  Bytes are integers below 256 here; b << 16 | a is b * 65536 + a because a stays below 65521.
 */
module Adler32 {

  const MOD_ADLER := 65521

  type Data = s: seq<int> | forall i :: 0 <= i < |s| ==> 0 <= s[i] < 256

  function Sum(d: seq<int>): int {
    if |d| == 0 then 0 else d[0] + Sum(d[1..])
  }

  /** The first byte counts |d| times, the next once less, and so on. */
  function WeightedSum(d: seq<int>): int {
    if |d| == 0 then 0 else |d| * d[0] + WeightedSum(d[1..])
  }

  /** The two 16-bit halves of the checksum. */
  function Low(d: seq<int>): (a: nat)
    ensures a < MOD_ADLER
  {
    (1 + Sum(d)) % MOD_ADLER
  }

  function High(d: seq<int>): (b: nat)
    ensures b < MOD_ADLER
  {
    (|d| + WeightedSum(d)) % MOD_ADLER
  }

  function Checksum(d: seq<int>): nat {
    High(d) * 65536 + Low(d)
  }

  method Adler32Loop(data: Data) returns (checksum: nat)
    ensures checksum == Checksum(data)
    ensures checksum < 0x1_0000_0000
  {
    var a, b := 1, 0;
    for i := 0 to |data|
      invariant a == Low(data[..i]) && b == High(data[..i])
    {
      Extend(data[..i], data[i]);
      assert data[..i] + [data[i]] == data[..i + 1];
      a := (a + data[i]) % MOD_ADLER;
      b := (b + a) % MOD_ADLER;
    }
    assert data[..|data|] == data;
    checksum := b * 65536 + a;
  }

  lemma {:induction false} SumAppend(x: seq<int>, y: seq<int>)
    ensures Sum(x + y) == Sum(x) + Sum(y)
    ensures WeightedSum(x + y) == WeightedSum(x) + |y| * Sum(x) + WeightedSum(y)
  {
    if |x| == 0 {
      assert x + y == y;
    } else {
      assert (x + y)[1..] == x[1..] + y;
      SumAppend(x[1..], y);
      assert (|x| + |y|) * x[0] == |x| * x[0] + |y| * x[0];
      assert |y| * (x[0] + Sum(x[1..])) == |y| * x[0] + |y| * Sum(x[1..]);
    }
  }

  lemma Extend(d: seq<int>, c: int)
    ensures Low(d + [c]) == (Low(d) + c) % MOD_ADLER
    ensures High(d + [c]) == (High(d) + Low(d + [c])) % MOD_ADLER
  {
    SumAppend(d, [c]);
    var q := (1 + Sum(d)) / MOD_ADLER;
    ModOf(1 + Sum(d) + c, Low(d) + c, q);
    ModOf(|d| + 1 + WeightedSum(d) + Sum(d) + c, High(d) + Low(d + [c]),
      (|d| + WeightedSum(d)) / MOD_ADLER + (1 + Sum(d) + c) / MOD_ADLER);
  }

  /** The checksum of a concatenation, from the halves of its parts and the length of the second. */
  lemma Combine(x: seq<int>, y: seq<int>)
    ensures Low(x + y) == (Low(x) + Low(y) - 1) % MOD_ADLER
    ensures High(x + y) == (High(x) + High(y) + |y| * (Low(x) - 1)) % MOD_ADLER
  {
    SumAppend(x, y);
    var q := (1 + Sum(x)) / MOD_ADLER;
    var qh := (|x| + WeightedSum(x)) / MOD_ADLER + (|y| + WeightedSum(y)) / MOD_ADLER;
    var ql := q + (1 + Sum(y)) / MOD_ADLER;
    ModOf(1 + Sum(x) + Sum(y), Low(x) + Low(y) - 1, ql);
    Distribute(|y|, q, Low(x) - 1);
    ModOf(|x| + |y| + WeightedSum(x) + |y| * Sum(x) + WeightedSum(y), High(x) + High(y) + |y| * (Low(x) - 1), |y| * q + qh);
  }

  lemma Distribute(n: int, q: int, r: int)
    ensures n * (q * MOD_ADLER + r) == (n * q) * MOD_ADLER + n * r
  {}

  lemma ModOf(v: int, r: int, k: int)
    requires v == r + k * MOD_ADLER
    ensures v % MOD_ADLER == r % MOD_ADLER
  {}

  // --- In numbers ---

  /** The sum of (n - i) * d_i, from i on, for n bytes. */
  function SumFrom(d: seq<int>, i: nat): int
    requires i <= |d|
    decreases |d| - i
  {
    if i == |d| then 0 else (|d| - i) * d[i] + SumFrom(d, i + 1)
  }

  lemma {:induction false} WeightedIs(d: seq<int>, i: nat)
    requires i <= |d|
    ensures WeightedSum(d[i..]) == SumFrom(d, i)
    decreases |d| - i
  {
    if i < |d| {
      assert d[i..][1..] == d[i + 1..] && d[i..][0] == d[i];
      WeightedIs(d, i + 1);
    }
  }

  /** Section 2.2 of RFC 1950: two sums modulo 65521, the second in the upper 16 bits. */
  lemma ClosedForm(d: seq<int>)
    ensures Checksum(d) == (|d| + SumFrom(d, 0)) % 65521 * 65536 + (1 + Sum(d)) % 65521
  {
    assert d[0..] == d;
    WeightedIs(d, 0);
  }

  /** The checksum of "Wiki". */
  lemma KnownChecksum()
    ensures Checksum([0x57, 0x69, 0x6b, 0x69]) == 0x03da0195
  {
    var d := [0x57, 0x69, 0x6b, 0x69];
    ClosedForm(d);
    SumOfFour(0x57, 0x69, 0x6b, 0x69);
  }

  lemma SumOfFour(a: int, b: int, c: int, e: int)
    ensures Sum([a, b, c, e]) == a + b + c + e
  {
    SumCons(a, [b, c, e]);
    SumCons(b, [c, e]);
    SumCons(c, [e]);
    SumCons(e, []);
    assert [a] + [b, c, e] == [a, b, c, e] && [b] + [c, e] == [b, c, e] && [c] + [e] == [c, e] && [e] + [] == [e];
  }

  lemma SumCons(x: int, d: seq<int>)
    ensures Sum([x] + d) == x + Sum(d)
  {
    assert ([x] + d)[1..] == d;
  }
}
