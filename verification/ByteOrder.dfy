/** Big-endian byte strings and the integers they stand for. */
module ByteOrder {
  import opened AesCipher

  /** n.to_bytes(k, 'big'); what does not fit is cut off, so callers check n first. */
  function BigEndian(n: nat, k: nat): (b: Bytes)
    ensures |b| == k
  {
    if k == 0 then [] else BigEndian(n / 256, k - 1) + [(n % 256) as bv8]
  }

  /** int.from_bytes(b, 'big') */
  function ToInt(b: Bytes): nat {
    if |b| == 0 then 0 else ToInt(b[..|b| - 1]) * 256 + (b[|b| - 1] as nat)
  }

  function Pow256(k: nat): nat {
    if k == 0 then 1 else 256 * Pow256(k - 1)
  }

  lemma ByteInverse(n: int)
    requires 0 <= n < 256
    ensures (n as bv8) as int == n
  {
    if n < 16 {} else if n < 32 {} else if n < 64 {} else if n < 128 {} else {}
  }

  lemma LastByte(init: Bytes, b: bv8)
    ensures ToInt(init + [b]) == ToInt(init) * 256 + b as int
  {}

  lemma {:induction false} IntBytesInverse(n: nat, k: nat)
    requires n < Pow256(k)
    ensures ToInt(BigEndian(n, k)) == n
  {
    hide ToInt;
    if k == 0 {
      assert ToInt([]) == 0 by { ToIntEmpty(); }
    } else {
      IntBytesInverse(n / 256, k - 1);
      ByteInverse(n % 256);
      LastByte(BigEndian(n / 256, k - 1), (n % 256) as bv8);
    }
  }

  lemma ToIntEmpty()
    ensures ToInt([]) == 0
  {}

  lemma {:induction false} BytesIntInverse(b: Bytes)
    ensures BigEndian(ToInt(b), |b|) == b && ToInt(b) < Pow256(|b|)
  {
    if |b| == 0 {
    } else {
      var init, last := b[..|b| - 1], b[|b| - 1];
      BytesIntInverse(init);
      BvInverse(last);
      assert ToInt(b) / 256 == ToInt(init) && ToInt(b) % 256 == last as nat;
      assert init + [last] == b;
    }
  }

  lemma {:induction false} ToIntJoin(x: Bytes, y: Bytes)
    ensures ToInt(x + y) == ToInt(x) * Pow256(|y|) + ToInt(y)
  {
    hide ToInt;
    if |y| == 0 {
      ToIntEmpty();
      assert x + y == x;
    } else {
      var init, last := y[..|y| - 1], y[|y| - 1];
      ToIntJoin(x, init);
      LastByte(x + init, last);
      LastByte(init, last);
      assert x + y == x + init + [last] && y == init + [last];
      MovedUp(ToInt(x), Pow256(|init|), ToInt(init));
    }
  }

  lemma MovedUp(a: nat, p: nat, b: nat)
    ensures (a * p + b) * 256 == a * (256 * p) + b * 256
  {}

  lemma BvInverse(b: bv8)
    ensures (b as nat) as bv8 == b && b as nat < 256
  {}

  lemma Pow256Four()
    ensures Pow256(4) == 0x1_0000_0000
  {}
}
