/** Machine integers and the arithmetic the daemon does on them.

    The daemon is built with `cargo build --release`, so additions on `u64` wrap
    around and a shift amount on `u128` is taken modulo 128. Both are written out here. */
module Numerics {

  const U64_LIMIT: nat := 0x1_0000_0000_0000_0000

  type u64 = n: nat | n < U64_LIMIT

  function Max(a: nat, b: nat): (m: nat)
    ensures a <= m && b <= m && (m == a || m == b)
  {
    if a < b then b else a
  }

  function SaturatingSub(a: nat, b: nat): (r: nat)
    ensures a <= r + b && (r == 0 || a == r + b)
  {
    if a < b then 0 else a - b
  }

  function WrapAdd(a: u64, b: u64): (r: u64)
    ensures r == a + b || r + 0x1_0000_0000_0000_0000 == a + b
  {
    if a + b < U64_LIMIT then a + b else a + b - U64_LIMIT
  }

  function WrapSub(a: u64, b: u64): (r: u64)
    ensures r + b == a || r + b == a + 0x1_0000_0000_0000_0000
  {
    if b <= a then a - b else a + U64_LIMIT - b
  }

  function WrapMul(a: u64, b: u64): u64 {
    (a * b) % U64_LIMIT
  }

  /** The `(a + b - 1) / b` idiom. */
  function CeilDiv(a: nat, b: nat): nat
    requires 0 < b
  {
    (a + b - 1) / b
  }

  lemma CeilDivBounds(a: nat, b: nat)
    requires 0 < b
    ensures a <= CeilDiv(a, b) * b < a + b
  {
    var q := CeilDiv(a, b);
    assert a + b - 1 == q * b + (a + b - 1) % b;
  }

  /** The ceiling is the only multiple count in reach. */
  lemma CeilDivUnique(a: nat, b: nat, q: nat)
    requires 0 < b
    requires a <= q * b < a + b
    ensures q == CeilDiv(a, b)
  {
    var c := CeilDiv(a, b);
    CeilDivBounds(a, b);
    assert q < c ==> (q + 1) * b <= c * b;
    assert c < q ==> (c + 1) * b <= q * b;
  }

  lemma MulMonotone(a: nat, b: nat, c: nat)
    requires a <= b
    ensures a * c <= b * c
  {
    assert (b - a) * c >= 0;
  }

  /** All pieces but the last are full, and the last is not empty. */
  lemma CeilDivPiece(a: nat, b: nat, i: nat)
    requires 0 < b && i < CeilDiv(a, b)
    ensures i * b < a
    ensures i + 1 < CeilDiv(a, b) ==> i * b + b < a
    ensures i + 1 == CeilDiv(a, b) ==> a <= i * b + b
  {
    var q := CeilDiv(a, b);
    CeilDivBounds(a, b);
    MulMonotone(i + 1, q, b);
    assert (i + 1) * b == i * b + b;
    assert (q - 1) * b == q * b - b;
    MulMonotone(i, q - 1, b);
    if i + 1 < q {
      MulMonotone(i + 1, q - 1, b);
    }
  }

  // ---------- Powers of two ----------

  function Pow2(n: nat): (p: nat)
    ensures 0 < p
  {
    if n == 0 then 1 else 2 * Pow2(n - 1)
  }

  lemma {:induction false} Pow2Add(a: nat, b: nat)
    ensures Pow2(a + b) == Pow2(a) * Pow2(b)
  {
    if a == 0 {
    } else {
      Pow2Add(a - 1, b);
      assert 2 * (Pow2(a - 1) * Pow2(b)) == (2 * Pow2(a - 1)) * Pow2(b);
    }
  }

  // ---------- Bits of a natural number ----------

  /** Bit `i` of `m`, as `m & (1 << i) != 0` reads it. */
  predicate Bit(m: nat, i: nat) {
    if i == 0 then m % 2 == 1 else Bit(m / 2, i - 1)
  }

  /** `m | (1 << i)`. */
  function SetBit(m: nat, i: nat): nat {
    if i == 0 then m / 2 * 2 + 1 else 2 * SetBit(m / 2, i - 1) + m % 2
  }

  /** The two definitions above are the usual place-value ones. */
  lemma {:induction false} BitIsPlaceValue(m: nat, i: nat)
    ensures Bit(m, i) <==> (m / Pow2(i)) % 2 == 1
    ensures SetBit(m, i) == if Bit(m, i) then m else m + Pow2(i)
  {
    if i == 0 {
    } else {
      BitIsPlaceValue(m / 2, i - 1);
      DivTwice(m, Pow2(i - 1));
    }
  }

  lemma DivTwice(m: nat, d: nat)
    requires 0 < d
    ensures (m / 2) / d == m / (2 * d)
  {
    var h := m / 2;
    var q := h / d;
    assert m == 2 * h + m % 2;
    assert h == d * q + h % d;
    var r := 2 * (h % d) + m % 2;
    assert 2 * (d * q) == (2 * d) * q;
    assert m == (2 * d) * q + r;
    assert 0 <= r < 2 * d;
    QuotientUnique(m, 2 * d, q, r);
  }

  lemma QuotientUnique(m: nat, d: nat, q: nat, r: nat)
    requires 0 < d
    requires m == d * q + r && r < d
    ensures m / d == q && m % d == r
  {
    var q', r' := m / d, m % d;
    assert m == d * q' + r';
    assert d * (q - q') == d * q - d * q' == r' - r;
    SmallMultiple(d, q - q');
  }

  lemma SmallMultiple(d: int, x: int)
    requires -d < d * x < d
    ensures x == 0
  {
    assert x >= 1 ==> d * x >= d * 1;
    assert x <= -1 ==> d * x <= d * -1;
  }

  lemma {:induction false} SetBitSets(m: nat, i: nat, j: nat)
    ensures Bit(SetBit(m, i), j) <==> j == i || Bit(m, j)
  {
    if i == 0 {
      assert (m / 2 * 2 + 1) / 2 == m / 2;
    } else {
      var half := SetBit(m / 2, i - 1);
      assert (2 * half + m % 2) / 2 == half;
      if j != 0 {
        SetBitSets(m / 2, i - 1, j - 1);
      }
    }
  }

  lemma {:induction false} SetBitBound(m: nat, i: nat, n: nat)
    requires i < n && m < Pow2(n)
    ensures SetBit(m, i) < Pow2(n)
  {
    assert Pow2(n) == 2 * Pow2(n - 1);
    if i == 0 {
    } else {
      assert m / 2 < Pow2(n - 1);
      SetBitBound(m / 2, i - 1, n - 1);
    }
  }

  /** Multiplying by a power of two moves every bit up. */
  lemma {:induction false} ShiftedBit(m: nat, s: nat, i: nat)
    ensures Bit(m * Pow2(s), i) <==> s <= i && Bit(m, i - s)
  {
    if s == 0 {
    } else {
      var half := m * Pow2(s - 1);
      assert m * Pow2(s) == 2 * half;
      if i != 0 {
        ShiftedBit(m, s - 1, i - 1);
      }
    }
  }

  /** Cutting to `n` bits keeps the bits below `n`. */
  lemma {:induction false} TruncatedBit(m: nat, n: nat, i: nat)
    requires i < n
    ensures Bit(m % Pow2(n), i) <==> Bit(m, i)
  {
    var p := Pow2(n - 1);
    var h, q := m / 2, m / 2 / p;
    var r := 2 * (h % p) + m % 2;
    assert h == p * q + h % p;
    assert 2 * (p * q) == (2 * p) * q;
    QuotientUnique(m, 2 * p, q, r);
    assert m % Pow2(n) == r;
    if i == 0 {
    } else {
      assert r / 2 == h % p;
      TruncatedBit(h, n - 1, i - 1);
    }
  }

  lemma {:induction false} ZeroHasNoBit(i: nat)
    ensures !Bit(0, i)
  {
    if i == 0 {
    } else {
      ZeroHasNoBit(i - 1);
    }
  }

  // ---------- u128 ----------

  const U128_LIMIT: nat := 0x1_0000_0000_0000_0000_0000_0000_0000_0000

  type u128 = n: nat | n < U128_LIMIT

  lemma U128Limit()
    ensures Pow2(128) == U128_LIMIT
  {
    Pow2Of32();
    Pow2Add(32, 32);
    Pow2Add(64, 64);
  }

  lemma Pow2Of32()
    ensures Pow2(32) == 0x1_0000_0000
  {
    assert Pow2(8) == 256;
    Pow2Add(8, 8);
    Pow2Add(16, 16);
  }

  /** `m << s` on `u128`: the amount is taken modulo 128, bits pushed past the top are lost. */
  function Shl128(m: u128, s: nat): u128 {
    (m * Pow2(s % 128)) % U128_LIMIT
  }

  /** `m & (1u128 << s) != 0`, the amount taken modulo 128. */
  predicate Test128(m: u128, s: nat) {
    Bit(m, s % 128)
  }

  /** `m | (1u128 << s)`, the amount taken modulo 128. */
  function Or128(m: u128, s: nat): u128 {
    Or128Bound(m, s % 128);
    SetBit(m, s % 128)
  }

  lemma Or128Bound(m: u128, s: nat)
    requires s < 128
    ensures SetBit(m, s) < U128_LIMIT
  {
    U128Limit();
    SetBitBound(m, s, 128);
  }

  lemma Shl128Bit(m: u128, s: nat, i: nat)
    requires s < 128 && i < 128
    ensures Bit(Shl128(m, s), i) <==> s <= i && Bit(m, i - s)
  {
    U128Limit();
    assert s % 128 == s;
    TruncatedBit(m * Pow2(s), 128, i);
    ShiftedBit(m, s, i);
  }

  /** Reading a bit of `(m << s) | 1`. */
  lemma PushedBit(m: u128, s: nat, i: nat)
    requires s < 128 && i < 128
    ensures Bit(Or128(Shl128(m, s), 0), i) <==> i == 0 || (s <= i && Bit(m, i - s))
  {
    var shifted := Shl128(m, s);
    assert Or128(shifted, 0) == SetBit(shifted, 0);
    SetBitSets(shifted, 0, i);
    Shl128Bit(m, s, i);
  }

  /** Reading a bit of the literal 1. */
  lemma OneHasBitZero(i: nat)
    ensures Bit(1, i) <==> i == 0
  {
    if i != 0 {
      ZeroHasNoBit(i - 1);
    }
  }
}
