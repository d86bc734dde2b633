/** Byte strings, exclusive or, and big-endian numbers. */
module Bytes {
  import opened Numerics

  type Byte = b: nat | b < 256
  type ByteString = seq<Byte>

  function Zeros(n: nat): (zeros: ByteString)
    ensures |zeros| == n && forall i :: 0 <= i < n ==> zeros[i] == 0
  {
    seq(n, _ => 0)
  }

  // ---------- Exclusive or ----------

  function XorNat(a: nat, b: nat): nat {
    if a == 0 && b == 0 then 0
    else 2 * XorNat(a / 2, b / 2) + if a % 2 == b % 2 then 0 else 1
  }

  function Xor(a: Byte, b: Byte): Byte {
    XorBound(a, b, 8);
    assert Pow2(8) == 256;
    XorNat(a, b)
  }

  lemma {:induction false} XorBound(a: nat, b: nat, n: nat)
    requires a < Pow2(n) && b < Pow2(n)
    ensures XorNat(a, b) < Pow2(n)
  {
    if n == 0 {
    } else {
      XorBound(a / 2, b / 2, n - 1);
    }
  }

  /** It is the exclusive or: bit by bit, exactly one of the two. */
  lemma {:induction false} XorIsBitwise(a: nat, b: nat, i: nat)
    ensures Bit(XorNat(a, b), i) <==> Bit(a, i) != Bit(b, i)
  {
    XorNatUnfolds(a, b);
    if i == 0 {
    } else {
      XorIsBitwise(a / 2, b / 2, i - 1);
    }
  }

  lemma {:induction false} XorNatLaws(a: nat, b: nat)
    ensures XorNat(a, b) == XorNat(b, a)
    ensures XorNat(a, 0) == a
    ensures XorNat(a, a) == 0
  {
    if a + b == 0 {
    } else {
      XorNatLaws(a / 2, b / 2);
    }
  }

  lemma {:induction false} XorNatAssociates(a: nat, b: nat, c: nat, x: nat, y: nat)
    requires x == XorNat(a, b) && y == XorNat(b, c)
    ensures XorNat(x, c) == XorNat(a, y)
    decreases a + b + c
  {
    if a + b + c == 0 {
    } else {
      XorNatUnfolds(a, b);
      XorNatUnfolds(b, c);
      XorNatAssociates(a / 2, b / 2, c / 2, x / 2, y / 2);
      XorNatUnfolds(x, c);
      XorNatUnfolds(a, y);
      SameHalves(XorNat(x, c), XorNat(a, y));
    }
  }

  lemma SameHalves(p: nat, q: nat)
    requires p / 2 == q / 2 && p % 2 == q % 2
    ensures p == q
  {
  }

  lemma XorNatUnfolds(a: nat, b: nat)
    ensures XorNat(a, b) / 2 == XorNat(a / 2, b / 2)
    ensures XorNat(a, b) % 2 == if a % 2 == b % 2 then 0 else 1
  {
  }

  /** What is masked comes back by masking again. */
  lemma XorCancels(a: Byte, b: Byte)
    ensures Xor(a, b) == Xor(b, a)
    ensures Xor(a, Xor(a, b)) == b && Xor(Xor(a, b), b) == a
    ensures Xor(a, b) == 0 <==> a == b
    ensures Xor(a, b) == a <==> b == 0
  {
    XorNatLaws(a, b);
    XorNatLaws(b, 0);
    XorNatAssociates(a, a, b, 0, XorNat(a, b));
    XorNatAssociates(a, b, b, XorNat(a, b), 0);
  }

  lemma XorAssociates(a: Byte, b: Byte, c: Byte)
    ensures Xor(Xor(a, b), c) == Xor(a, Xor(b, c))
  {
    XorNatAssociates(a, b, c, XorNat(a, b), XorNat(b, c));
  }

  lemma XorZero(a: Byte)
    ensures Xor(a, 0) == a && Xor(0, a) == a && Xor(a, a) == 0
  {
    XorNatLaws(a, 0);
  }

  // ---------- Big-endian numbers ----------

  function Pow256(n: nat): (p: nat)
    ensures 0 < p
  {
    if n == 0 then 1 else 256 * Pow256(n - 1)
  }

  /** The low `n` bytes of `c`, most significant first: `to_be_bytes` for `n == 8`. */
  function ToBigEndian(c: nat, n: nat): (s: ByteString)
    ensures |s| == n
  {
    if n == 0 then [] else ToBigEndian(c / 256, n - 1) + [c % 256]
  }

  function FromBigEndian(s: ByteString): nat {
    if s == [] then 0 else 256 * FromBigEndian(s[..|s| - 1]) + s[|s| - 1]
  }

  lemma {:induction false} BigEndianRoundTrip(c: nat, n: nat)
    requires c < Pow256(n)
    ensures FromBigEndian(ToBigEndian(c, n)) == c
  {
    if n == 0 {
    } else {
      BigEndianRoundTrip(c / 256, n - 1);
      assert ToBigEndian(c, n)[..n - 1] == ToBigEndian(c / 256, n - 1);
    }
  }

  lemma {:induction false} BigEndianBound(s: ByteString)
    ensures FromBigEndian(s) < Pow256(|s|)
  {
    if s == [] {
    } else {
      BigEndianBound(s[..|s| - 1]);
    }
  }

  /** The most significant byte comes first. */
  lemma {:induction false} BigEndianOrder(c: nat, n: nat)
    requires c < Pow256(n)
    ensures forall i :: 0 <= i < n ==> ToBigEndian(c, n)[i] == c / Pow256(n - 1 - i) % 256
  {
    if n == 0 {
    } else {
      BigEndianOrder(c / 256, n - 1);
      forall i | 0 <= i < n - 1
        ensures ToBigEndian(c, n)[i] == c / Pow256(n - 1 - i) % 256
      {
        DivDiv(c, Pow256(n - 2 - i));
      }
    }
  }

  lemma DivDiv(c: nat, d: nat)
    requires 0 < d
    ensures c / 256 / d == c / (256 * d)
  {
    var h := c / 256;
    var q, r := h / d, h % d;
    assert h == d * q + r;
    assert c == 256 * h + c % 256;
    assert 256 * (d * q) == (256 * d) * q;
    assert c == (256 * d) * q + (256 * r + c % 256);
    assert 256 * r + c % 256 < 256 * d;
    QuotientUnique(c, 256 * d, q, 256 * r + c % 256);
  }

  lemma Pow256Of8()
    ensures Pow256(8) == U64_LIMIT
  {
    assert Pow256(4) == 0x1_0000_0000;
  }
}
