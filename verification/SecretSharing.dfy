/** The key sharing of src/crypto.rs: three shares made with exclusive or. */
module SecretSharing {
  import opened Bytes

  /** Byte by byte. */
  function XorBytes(a: ByteString, b: ByteString): (r: ByteString)
    requires |a| <= |b|
    ensures |r| == |a|
  {
    seq(|a|, i requires 0 <= i < |a| => Xor(a[i], b[i]))
  }

  /** The shares of a secret under a random mask: index byte, then 32 bytes. */
  function SharesOf(secret: ByteString, mask: ByteString): (shares: seq<ByteString>)
    requires |secret| == |mask| == 32
    ensures |shares| == 3 && forall i :: 0 <= i < 3 ==> |shares[i]| == 33 && shares[i][0] == i + 1
  {
    var masked := XorBytes(mask, secret);
    [[1] + mask, [2] + masked, [3] + XorBytes(masked, secret)]
  }

  /** `generate`; the random bytes are a parameter, the totals it is passed are ignored. */
  method Generate(secret: array<Byte>, random: ByteString) returns (shares: seq<ByteString>)
    requires secret.Length == |random| == 32
    ensures shares == SharesOf(secret[..], random)
  {
    var share1, share2, share3 := new Byte[33](_ => 0), new Byte[33](_ => 0), new Byte[33](_ => 0);
    share1[0], share2[0], share3[0] := 1, 2, 3;
    for i := 0 to 32
      invariant share1[..1 + i] == [1] + random[..i] && share2[0] == 2 && share3[0] == 3
    {
      share1[1 + i] := random[i];
    }
    assert share1[1..] == random;
    FillMasked(share2, share1, secret);
    FillMasked(share3, share2, secret);
    assert share1[..] == [1] + share1[1..] && share2[..] == [2] + share2[1..] && share3[..] == [3] + share3[1..];
    shares := [share1[..], share2[..], share3[..]];
  }

  /** The loop that makes one share of another by masking it with the secret. */
  method FillMasked(share: array<Byte>, from: array<Byte>, secret: array<Byte>)
    requires share.Length == from.Length == 33 && secret.Length == 32 && share != from && share != secret
    modifies share
    ensures share[0] == old(share[0]) && share[1..] == XorBytes(from[1..], secret[..])
  {
    for i := 0 to 32
      invariant share[0] == old(share[0])
      invariant forall j :: 0 <= j < i ==> share[1 + j] == Xor(from[1 + j], secret[j])
    {
      share[1 + i] := Xor(from[1 + i], secret[i]);
    }
  }

  /** What `reconstruct` can index without a panic. */
  predicate Readable(shares: seq<ByteString>) {
    |shares| >= 2 ==> |shares[0]| >= 33 && |shares[1]| >= 33
  }

  /** The first two shares combined if their index bytes differ, zeros otherwise. */
  function Joined(shares: seq<ByteString>): (secret: ByteString)
    requires Readable(shares)
    ensures |secret| == 32
  {
    if |shares| >= 2 && shares[0][0] != shares[1][0] then XorBytes(shares[0][1..33], shares[1][1..33])
    else Zeros(32)
  }

  method Reconstruct(shares: seq<ByteString>) returns (secret: ByteString)
    requires Readable(shares)
    ensures secret == Joined(shares)
  {
    var bytes := new Byte[32](_ => 0);
    if |shares| < 2 {
      return bytes[..];
    }
    if shares[0][0] != shares[1][0] {
      for i := 0 to 32
        invariant forall j :: 0 <= j < i ==> bytes[j] == Xor(shares[0][1 + j], shares[1][1 + j])
      {
        bytes[i] := Xor(shares[0][1 + i], shares[1][1 + i]);
      }
    }
    return bytes[..];
  }

  // ---------- Which pairs give the secret back ----------

  lemma XorBytesLaws(a: ByteString, b: ByteString)
    requires |a| == |b|
    ensures XorBytes(a, XorBytes(a, b)) == b && XorBytes(XorBytes(a, b), a) == b
    ensures XorBytes(XorBytes(a, b), b) == a
    ensures XorBytes(a, b) == XorBytes(b, a)
    ensures XorBytes(a, a) == Zeros(|a|)
  {
    forall i | 0 <= i < |a|
      ensures Xor(a[i], Xor(a[i], b[i])) == b[i] && Xor(Xor(a[i], b[i]), a[i]) == b[i]
      ensures Xor(Xor(a[i], b[i]), b[i]) == a[i]
      ensures Xor(a[i], b[i]) == Xor(b[i], a[i]) && Xor(a[i], a[i]) == 0
    {
      XorCancels(a[i], b[i]);
      XorCancels(b[i], a[i]);
      XorZero(a[i]);
    }
  }

  /** The third share is the first under another index. */
  lemma ThirdIsFirst(secret: ByteString, mask: ByteString)
    requires |secret| == |mask| == 32
    ensures SharesOf(secret, mask)[2][1..] == SharesOf(secret, mask)[0][1..] == mask
  {
    XorBytesLaws(mask, secret);
  }

  /** The data of the three shares, behind their indices. */
  lemma ShareData(secret: ByteString, mask: ByteString, i: nat)
    requires |secret| == |mask| == 32 && i < 3
    ensures SharesOf(secret, mask)[i][1..33] == if i == 1 then XorBytes(mask, secret) else mask
  {
    XorBytesLaws(mask, secret);
  }

  /** Two shares give the secret back exactly if one of them is the second and the other is not;
      any other pair gives zeros. So this is not a two-of-three scheme. */
  lemma PairsRecover(secret: ByteString, mask: ByteString, i: nat, j: nat)
    requires |secret| == |mask| == 32 && i < 3 && j < 3
    ensures var shares := SharesOf(secret, mask);
            Joined([shares[i], shares[j]]) == if i != j && (i == 1 || j == 1) then secret else Zeros(32)
  {
    ShareData(secret, mask, i);
    ShareData(secret, mask, j);
    MaskedPair(secret, mask);
  }

  lemma MaskedPair(secret: ByteString, mask: ByteString)
    requires |secret| == |mask| == 32
    ensures XorBytes(mask, XorBytes(mask, secret)) == XorBytes(XorBytes(mask, secret), mask) == secret
    ensures XorBytes(mask, mask) == Zeros(32)
  {
    XorBytesLaws(mask, secret);
  }

  /** A single share fits every secret: for each other secret some mask gives the same share. */
  lemma OneShareTellsNothing(secret: ByteString, mask: ByteString, other: ByteString, i: nat)
    returns (mask': ByteString)
    requires |secret| == |mask| == |other| == 32 && i < 3
    ensures |mask'| == 32 && SharesOf(other, mask')[i] == SharesOf(secret, mask)[i]
  {
    ThirdIsFirst(secret, mask);
    if i == 1 {
      var masked := XorBytes(mask, secret);
      mask' := XorBytes(masked, other);
      XorBytesLaws(masked, other);
    } else {
      mask' := mask;
      ThirdIsFirst(other, mask');
      assert SharesOf(other, mask')[2] == [3] + SharesOf(other, mask')[2][1..];
      assert SharesOf(secret, mask)[2] == [3] + SharesOf(secret, mask)[2][1..];
    }
  }
}
