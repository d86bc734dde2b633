/** The Reed-Solomon wrappers of src/crypto.rs.

    The crate itself is a contract: `Codec` holds its two entry points for one pair of shard
    counts and `IsCodec` says what they owe. XorCodec.dfy shows that the contract can be met. */
module Erasure {
  import opened Numerics
  import opened Bytes
  import opened Wrappers

  datatype RsError = RsError

  type Slots = seq<Option<ByteString>>

  datatype Codec = Codec(
    parity: seq<ByteString> -> seq<ByteString>,
    rebuild: Slots -> Result<seq<ByteString>, RsError>
  )

  // ---------- Shards and slots ----------

  /** Non-empty shards of one length. */
  predicate Uniform(shards: seq<ByteString>) {
    forall i :: 0 <= i < |shards| ==> |shards[i]| == |shards[0]| && shards[i] != []
  }

  function Codeword(c: Codec, data: seq<ByteString>): seq<ByteString> {
    data + c.parity(data)
  }

  /** The slots hold nothing but shards of `full`. */
  predicate TakenFrom(slots: Slots, full: seq<ByteString>) {
    |slots| == |full| && forall i :: 0 <= i < |slots| && slots[i].Some? ==> slots[i].value == full[i]
  }

  function Present(slots: Slots): (n: nat)
    ensures n <= |slots|
  {
    if slots == [] then 0
    else Present(slots[..|slots| - 1]) + if slots[|slots| - 1].Some? then 1 else 0
  }

  /** All present shards are non-empty and of one length. */
  predicate WellSized(slots: Slots) {
    && (forall i :: 0 <= i < |slots| && slots[i].Some? ==> slots[i].value != [])
    && (forall i, j :: 0 <= i < |slots| && 0 <= j < |slots| && slots[i].Some? && slots[j].Some? ==>
          |slots[i].value| == |slots[j].value|)
  }

  /** What is left of `full` without the shards in `lost`. */
  function Without(full: seq<ByteString>, lost: set<nat>): Slots {
    seq(|full|, i requires 0 <= i < |full| => if i in lost then None else Some(full[i]))
  }

  // ---------- The crate's contract ----------

  ghost predicate KeepsShape(c: Codec, k: nat, m: nat) {
    forall d {:trigger Codeword(c, d)} :: |d| == k && Uniform(d) ==> |c.parity(d)| == m && Uniform(Codeword(c, d))
  }

  /** Any `k` of the shards give back all of them. */
  ghost predicate Recovers(c: Codec, k: nat, m: nat) {
    forall d, slots {:trigger TakenFrom(slots, Codeword(c, d))} ::
      |d| == k && Uniform(d) && TakenFrom(slots, Codeword(c, d)) && Present(slots) >= k ==>
      c.rebuild(slots) == Ok(Codeword(c, d))
  }

  /** It succeeds exactly on enough shards of one length, and never changes a present one. */
  ghost predicate IsCareful(c: Codec, k: nat, m: nat) {
    forall slots {:trigger c.rebuild(slots)} :: |slots| == k + m ==>
      && (c.rebuild(slots).Ok? <==> WellSized(slots) && Present(slots) >= k)
      && (c.rebuild(slots).Ok? ==> TakenFrom(slots, c.rebuild(slots).value))
  }

  ghost predicate IsCodec(c: Codec, k: nat, m: nat) {
    && 1 <= k && 1 <= m && k + m <= 256
    && KeepsShape(c, k, m) && Recovers(c, k, m) && IsCareful(c, k, m)
  }

  lemma {:induction false} WithoutCount(full: seq<ByteString>, lost: set<nat>)
    requires forall i <- lost :: i < |full|
    ensures Present(Without(full, lost)) == |full| - |lost|
  {
    if full == [] {
      assert lost == {};
    } else {
      var n := |full| - 1;
      var before := lost - {n};
      WithoutCount(full[..n], before);
      assert Without(full, lost)[..n] == Without(full[..n], before);
      assert lost == if n in lost then before + {n} else before;
    }
  }

  /** Losing shards of a codeword is harmless up to `m` of them, and fatal beyond. */
  lemma LossBound(c: Codec, k: nat, m: nat, d: seq<ByteString>, lost: set<nat>)
    requires IsCodec(c, k, m) && |d| == k && Uniform(d)
    requires forall i <- lost :: i < k + m
    ensures if |lost| <= m then c.rebuild(Without(Codeword(c, d), lost)) == Ok(Codeword(c, d))
            else c.rebuild(Without(Codeword(c, d), lost)).Err?
  {
    var full := Codeword(c, d);
    var slots := Without(full, lost);
    assert |full| == k + m && Uniform(full);
    WithoutCount(full, lost);
    assert TakenFrom(slots, full);
  }

  /** The slots where two codewords agree. */
  function Agreement(a: seq<ByteString>, b: seq<ByteString>): Slots
    requires |a| == |b|
  {
    seq(|a|, i requires 0 <= i < |a| => if a[i] == b[i] then Some(a[i]) else None)
  }

  /** Codewords that agree in `k` places are equal: any `k` shards determine all. */
  lemma AgreementDetermines(c: Codec, k: nat, m: nat, d: seq<ByteString>, e: seq<ByteString>)
    requires IsCodec(c, k, m) && |d| == |e| == k && Uniform(d) && Uniform(e)
    ensures |Codeword(c, d)| == |Codeword(c, e)| == k + m
    ensures Present(Agreement(Codeword(c, d), Codeword(c, e))) >= k ==> d == e
  {
    var x, y := Codeword(c, d), Codeword(c, e);
    assert |x| == k + m && |y| == k + m;
    var slots := Agreement(x, y);
    assert TakenFrom(slots, x) && TakenFrom(slots, y);
    if Present(slots) >= k {
      assert x == y;
      assert d == x[..k] && e == y[..k];
    }
  }

  // ---------- Cutting and joining ----------

  function Join(shards: seq<ByteString>): ByteString {
    if shards == [] then [] else Join(shards[..|shards| - 1]) + shards[|shards| - 1]
  }

  lemma {:induction false} JoinAppend(a: seq<ByteString>, b: seq<ByteString>)
    ensures Join(a + b) == Join(a) + Join(b)
  {
    if b == [] {
      assert a + b == a;
    } else {
      var n := |b| - 1;
      assert (a + b)[..|a| + n] == a + b[..n];
      JoinAppend(a, b[..n]);
    }
  }

  function Piece(bytes: ByteString, size: nat, i: nat): ByteString
    requires (i + 1) * size <= |bytes|
  {
    assert i * size <= (i + 1) * size;
    bytes[i * size..(i + 1) * size]
  }

  lemma PieceFits(bytes: ByteString, size: nat, k: nat, i: nat)
    requires i < k && |bytes| == k * size
    ensures (i + 1) * size <= |bytes|
  {
    MulMonotone(i + 1, k, size);
  }

  /** The `k` equal pieces of `bytes`. */
  function Pieces(bytes: ByteString, size: nat, k: nat): (pieces: seq<ByteString>)
    requires |bytes| == k * size
    ensures |pieces| == k
    ensures forall i :: 0 <= i < k ==> |pieces[i]| == size
  {
    if k == 0 then [] else
    PieceFits(bytes, size, k, k - 1);
    Pieces(bytes[..(k - 1) * size], size, k - 1) + [Piece(bytes, size, k - 1)]
  }

  lemma {:induction false} JoinPieces(bytes: ByteString, size: nat, k: nat)
    requires |bytes| == k * size
    ensures Join(Pieces(bytes, size, k)) == bytes
  {
    if k != 0 {
      PieceFits(bytes, size, k, k - 1);
      var front := bytes[..(k - 1) * size];
      JoinPieces(front, size, k - 1);
      assert Pieces(bytes, size, k)[..k - 1] == Pieces(front, size, k - 1);
      assert bytes == front + Piece(bytes, size, k - 1);
    } else {
      assert bytes == [];
    }
  }

  lemma {:induction false} PieceAt(bytes: ByteString, size: nat, k: nat, i: nat)
    requires i < k && |bytes| == k * size
    ensures (i + 1) * size <= |bytes| && Pieces(bytes, size, k)[i] == Piece(bytes, size, i)
  {
    PieceFits(bytes, size, k, i);
    PieceFits(bytes, size, k, k - 1);
    if i == k - 1 {
    } else {
      var front := bytes[..(k - 1) * size];
      PieceAt(front, size, k - 1, i);
      PieceOfFront(bytes, size, k, i);
    }
  }

  lemma PieceOfFront(bytes: ByteString, size: nat, k: nat, i: nat)
    requires i + 1 < k && |bytes| == k * size
    ensures (i + 1) * size <= (k - 1) * size <= |bytes|
    ensures Piece(bytes[..(k - 1) * size], size, i) == Piece(bytes, size, i)
  {
    MulMonotone(i + 1, k - 1, size);
    MulMonotone(k - 1, k, size);
    MulMonotone(i, i + 1, size);
  }

  // ---------- rs_encode_n ----------

  function ShardSize(data: ByteString, k: nat): nat
    requires 0 < k
  {
    CeilDiv(|data|, k)
  }

  /** The data, filled up with zeros to a multiple of the shard size. */
  function Padded(data: ByteString, k: nat): (padded: ByteString)
    requires 0 < k
    ensures |padded| == k * ShardSize(data, k) && data <= padded
    ensures forall i :: |data| <= i < |padded| ==> padded[i] == 0
  {
    CeilDivBounds(|data|, k);
    data + Zeros(k * ShardSize(data, k) - |data|)
  }

  function DataShards(data: ByteString, k: nat): seq<ByteString>
    requires 0 < k
  {
    Pieces(Padded(data, k), ShardSize(data, k), k)
  }

  function Encoded(c: Codec, data: ByteString, k: nat, m: nat): seq<ByteString> {
    if k == 0 || m == 0 then [data] else Codeword(c, DataShards(data, k))
  }

  /** Without data or without parity shards the data stay in one piece. */
  lemma ZeroCountsDoNotSplit(c: Codec, data: ByteString, n: nat)
    ensures Encoded(c, data, 0, n) == [data] && Encoded(c, data, n, 0) == [data]
  {
  }

  /** The first `k` shards are the padded data, piece by piece, whatever the code. */
  lemma DataComeFirst(c: Codec, data: ByteString, k: nat, m: nat)
    requires 0 < k && 0 < m
    ensures var shards := Encoded(c, data, k, m);
            k <= |shards| && Join(shards[..k]) == data + Zeros(k * ShardSize(data, k) - |data|)
  {
    var shards := Encoded(c, data, k, m);
    assert shards[..k] == DataShards(data, k);
    JoinPieces(Padded(data, k), ShardSize(data, k), k);
  }

  lemma DataShardsUniform(data: ByteString, k: nat)
    requires 0 < k && data != []
    ensures Uniform(DataShards(data, k)) && 0 < ShardSize(data, k)
  {
    CeilDivBounds(|data|, k);
  }

  lemma EncodedShape(c: Codec, data: ByteString, k: nat, m: nat)
    requires IsCodec(c, k, m) && data != []
    ensures |Encoded(c, data, k, m)| == k + m && Uniform(Encoded(c, data, k, m))
    ensures |Encoded(c, data, k, m)[0]| == ShardSize(data, k)
  {
    DataShardsUniform(data, k);
    assert Encoded(c, data, k, m)[0] == DataShards(data, k)[0];
  }

  /** The padding is shorter than one byte per shard. */
  lemma {:induction false} PaddingIsShort(data: ByteString, k: nat)
    requires 0 < k
    ensures |Padded(data, k)| - |data| < k
  {
    CeilDivBounds(|data|, k);
  }

  /** Encode, lose up to `m` shards, rebuild, join the data shards and cut: the data is back. */
  lemma {:induction false} EncodeRoundTrip(c: Codec, data: ByteString, k: nat, m: nat, lost: set<nat>)
    requires IsCodec(c, k, m) && data != []
    requires |lost| <= m && forall i <- lost :: i < k + m
    ensures var rebuilt := c.rebuild(Without(Encoded(c, data, k, m), lost));
            && rebuilt == Ok(Encoded(c, data, k, m))
            && |rebuilt.value| == k + m
            && data <= Join(rebuilt.value[..k])
            && |Join(rebuilt.value[..k])| - |data| < k
  {
    DataShardsUniform(data, k);
    LossBound(c, k, m, DataShards(data, k), lost);
    EncodedShape(c, data, k, m);
    assert Encoded(c, data, k, m)[..k] == DataShards(data, k);
    JoinPieces(Padded(data, k), ShardSize(data, k), k);
    PaddingIsShort(data, k);
  }

  /** `rs_encode_n`. The crate refuses empty shards and more than 256 of them by a panic. */
  method RsEncodeN(c: Codec, data: ByteString, k: nat, m: nat) returns (shards: seq<ByteString>)
    requires k != 0 && m != 0 ==> IsCodec(c, k, m) && data != []
    ensures shards == Encoded(c, data, k, m)
  {
    if k == 0 || m == 0 {
      return [data];
    }
    var size := ShardSize(data, k);
    var padded := Padded(data, k);
    shards := [];
    for i := 0 to k + m
      invariant |shards| == i
      invariant forall j :: 0 <= j < i && j < k ==> shards[j] == DataShards(data, k)[j]
    {
      if i < k {
        PieceAt(padded, size, k, i);
        shards := shards + [Piece(padded, size, i)];
      } else {
        shards := shards + [Zeros(size)];
      }
    }
    assert shards[..k] == DataShards(data, k);
    shards := shards[..k] + c.parity(shards[..k]);
  }

  // ---------- rs_encode ----------

  /** `rs_encode` pads its argument in place to an even length. */
  function PaddedToEven(data: ByteString): (padded: ByteString)
    ensures |padded| % 2 == 0 && data <= padded && |padded| <= |data| + 1
    ensures forall i :: |data| <= i < |padded| ==> padded[i] == 0
  {
    if |data| % 2 != 0 then data + [0] else data
  }

  function EncodedInTwo(c: Codec, data: ByteString): seq<ByteString> {
    var padded := PaddedToEven(data);
    var mid := |padded| / 2;
    Codeword(c, [padded[..mid], padded[mid..]])
  }

  method RsEncode(c: Codec, data: ByteString) returns (padded: ByteString, shards: seq<ByteString>)
    requires IsCodec(c, 2, 1) && data != []
    ensures padded == PaddedToEven(data)
    ensures shards == EncodedInTwo(c, data)
  {
    padded := data;
    if |padded| % 2 != 0 {
      padded := padded + [0];
    }
    var mid := |padded| / 2;
    shards := [padded[0..mid], padded[mid..], Zeros(mid)];
    assert shards[..2] == [padded[..mid], padded[mid..]];
    shards := shards[..2] + c.parity(shards[..2]);
  }

  /** The fixed encoder is the general one at two data shards. */
  lemma TwoShardEncoder(c: Codec, data: ByteString)
    ensures EncodedInTwo(c, data) == Encoded(c, data, 2, 1)
    ensures PaddedToEven(data) == Padded(data, 2)
  {
    var padded, size := Padded(data, 2), ShardSize(data, 2);
    assert PaddedToEven(data) == padded;
    PieceAt(padded, size, 2, 0);
    PieceAt(padded, size, 2, 1);
    assert |padded| == 2 * size;
    var shards := DataShards(data, 2);
    assert shards[0] == padded[..size] && shards[1] == padded[size..];
    assert shards == [padded[..size], padded[size..]];
  }
}
