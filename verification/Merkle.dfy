/** The Merkle tree of src/crypto.rs. The hash is a parameter.

    No function into 32-byte digests is injective on all byte strings, so the lemmas that need
    collision freedom ask for it only on the finite set of strings that are hashed. */
module Merkle {
  import opened Numerics
  import opened Bytes
  import opened Wrappers

  type Digest = d: ByteString | |d| == 32 witness seq(32, _ => 0)
  type Hash = ByteString -> Digest

  /** The 64 bytes that are hashed for an inner node. */
  function Pair(left: Digest, right: Digest): (bytes: ByteString)
    ensures |bytes| == 64 && bytes[..32] == left && bytes[32..] == right
  {
    var first: ByteString := left;
    first + right
  }

  // ---------- Trees level by level ----------

  function Leaves(h: Hash, shards: seq<ByteString>): (level: seq<Digest>)
    ensures |level| == |shards|
    ensures forall i :: 0 <= i < |shards| ==> level[i] == h(shards[i])
  {
    seq(|shards|, i requires 0 <= i < |shards| => h(shards[i]))
  }

  /** Pairs are hashed together, an unpaired last node moves up unchanged. */
  function Node(h: Hash, level: seq<Digest>, i: nat): Digest
    requires 2 * i < |level|
  {
    if 2 * i + 1 < |level| then h(Pair(level[2 * i], level[2 * i + 1])) else level[2 * i]
  }

  function Up(h: Hash, level: seq<Digest>): (next: seq<Digest>)
    ensures |next| == (|level| + 1) / 2
    ensures forall i :: 0 <= i < |next| ==> next[i] == Node(h, level, i)
  {
    seq((|level| + 1) / 2, i requires 0 <= i < (|level| + 1) / 2 => Node(h, level, i))
  }

  function RootOf(h: Hash, level: seq<Digest>): Digest
    requires level != []
    decreases |level|
  {
    if |level| == 1 then level[0] else RootOf(h, Up(h, level))
  }

  function Root(h: Hash, shards: seq<ByteString>): Digest {
    if shards == [] then seq(32, _ => 0) else RootOf(h, Leaves(h, shards))
  }

  method NextLevel(h: Hash, level: seq<Digest>) returns (next: seq<Digest>)
    ensures next == Up(h, level)
  {
    next := [];
    var i := 0;
    while i < |level|
      invariant i == 2 * |next| || (i == |level| && |next| == (|level| + 1) / 2)
      invariant i <= |level|
      invariant forall j :: 0 <= j < |next| ==> 2 * j < |level| && next[j] == Node(h, level, j)
    {
      if i + 1 < |level| {
        next := next + [h(Pair(level[i], level[i + 1]))];
        i := i + 2;
      } else {
        next := next + [level[i]];
        i := i + 1;
      }
    }
  }

  method MerkleRoot(h: Hash, shards: seq<ByteString>) returns (root: Digest)
    ensures root == Root(h, shards)
  {
    if |shards| == 0 {
      return Zeros(32);
    }
    if |shards| == 1 {
      return h(shards[0]);
    }
    var level := Leaves(h, shards);
    while |level| > 1
      invariant level != [] && RootOf(h, level) == Root(h, shards)
      decreases |level|
    {
      level := NextLevel(h, level);
    }
    return level[0];
  }

  /** The smallest trees: no shard, one, two, and three, of which the last moves up unchanged. */
  lemma SmallRoots(h: Hash, a: ByteString, b: ByteString, c: ByteString)
    ensures |Root(h, [])| == 32 && forall i :: 0 <= i < 32 ==> Root(h, [])[i] == 0
    ensures Root(h, [a]) == h(a)
    ensures Root(h, [a, b]) == h(Pair(h(a), h(b)))
    ensures Root(h, [a, b, c]) == h(Pair(h(Pair(h(a), h(b))), h(c)))
  {
    var two, three := Leaves(h, [a, b]), Leaves(h, [a, b, c]);
    assert Up(h, two) == [h(Pair(h(a), h(b)))];
    assert RootOf(h, two) == RootOf(h, Up(h, two));
    var up := Up(h, three);
    assert up == [h(Pair(h(a), h(b))), h(c)];
    assert Up(h, up) == [h(Pair(up[0], up[1]))];
    assert RootOf(h, three) == RootOf(h, up) == RootOf(h, Up(h, up));
  }

  // ---------- Proofs ----------

  datatype Proof = Proof(shardIndex: nat, totalShards: nat, siblings: seq<Digest>, root: Digest)

  /** The sibling of node `idx`, if it has one. */
  function SiblingAt(level: seq<Digest>, idx: nat): seq<Digest>
    requires idx < |level|
  {
    if idx % 2 == 1 then [level[idx - 1]]
    else if idx + 1 < |level| then [level[idx + 1]]
    else []
  }

  function Siblings(h: Hash, level: seq<Digest>, idx: nat): seq<Digest>
    requires idx < |level|
    decreases |level|
  {
    if |level| == 1 then []
    else SiblingAt(level, idx) + Siblings(h, Up(h, level), idx / 2)
  }

  function ProofFor(h: Hash, shards: seq<ByteString>, index: nat): Option<Proof> {
    if index >= |shards| then None
    else Some(Proof(index, |shards|, Siblings(h, Leaves(h, shards), index), Root(h, shards)))
  }

  method MerkleProof(h: Hash, shards: seq<ByteString>, index: nat) returns (proof: Option<Proof>)
    ensures proof == ProofFor(h, shards, index)
  {
    if index >= |shards| {
      return None;
    }
    var root := MerkleRoot(h, shards);
    var siblings: seq<Digest> := [];
    var level := Leaves(h, shards);
    var idx: nat := index;
    while |level| > 1
      invariant idx < |level|
      invariant siblings + Siblings(h, level, idx) == Siblings(h, Leaves(h, shards), index)
      decreases |level|
    {
      var next := NextLevel(h, level);
      ghost var before, rest := siblings, Siblings(h, next, idx / 2);
      assert before + (SiblingAt(level, idx) + rest) == (before + SiblingAt(level, idx)) + rest;
      if idx % 2 == 0 {
        if idx + 1 < |level| {
          siblings := siblings + [level[idx + 1]];
        }
      } else {
        siblings := siblings + [level[idx - 1]];
      }
      assert siblings == before + SiblingAt(level, idx);
      level := next;
      idx := idx / 2;
    }
    assert siblings == Siblings(h, Leaves(h, shards), index);
    return Some(Proof(index, |shards|, siblings, root));
  }

  /** The running hash of `verify_merkle_proof`: always the left operand. */
  function FoldLeft(h: Hash, node: Digest, siblings: seq<Digest>): Digest
    decreases |siblings|
  {
    if siblings == [] then node else FoldLeft(h, h(Pair(node, siblings[0])), siblings[1..])
  }

  predicate Verifies(h: Hash, proof: Proof, shard: ByteString) {
    FoldLeft(h, h(shard), proof.siblings) == proof.root
  }

  method VerifyMerkleProof(h: Hash, proof: Proof, shard: ByteString) returns (ok: bool)
    ensures ok == Verifies(h, proof, shard)
  {
    var hash := h(shard);
    for i := 0 to |proof.siblings|
      invariant FoldLeft(h, hash, proof.siblings[i..]) == FoldLeft(h, h(shard), proof.siblings)
    {
      assert proof.siblings[i..][1..] == proof.siblings[i + 1..];
      hash := h(Pair(hash, proof.siblings[i]));
    }
    ok := hash == proof.root;
  }

  // ---------- The generator is correct for a direction-aware reader ----------

  /** Climbs from node `idx` of a level of `n` nodes, putting each sibling on its own side and
      skipping the levels where the node is unpaired. None if the siblings do not fit. */
  function Climb(h: Hash, node: Digest, idx: nat, n: nat, siblings: seq<Digest>): Option<Digest>
    requires idx < n
    decreases n
  {
    if n == 1 then
      if siblings == [] then Some(node) else None
    else if idx % 2 == 0 && idx + 1 == n then
      Climb(h, node, idx / 2, (n + 1) / 2, siblings)
    else if siblings == [] then
      None
    else
      var parent := if idx % 2 == 1 then h(Pair(siblings[0], node)) else h(Pair(node, siblings[0]));
      Climb(h, parent, idx / 2, (n + 1) / 2, siblings[1..])
  }

  /** One level of a climb along a generated proof. */
  lemma ClimbStep(h: Hash, level: seq<Digest>, idx: nat, rest: seq<Digest>)
    requires idx < |level| && 1 < |level|
    ensures Climb(h, level[idx], idx, |level|, SiblingAt(level, idx) + rest) ==
            Climb(h, Node(h, level, idx / 2), idx / 2, (|level| + 1) / 2, rest)
  {
    var sibling := SiblingAt(level, idx);
    if sibling == [] {
      assert sibling + rest == rest;
    } else {
      assert (sibling + rest)[1..] == rest;
    }
  }

  lemma {:induction false} ClimbReachesRoot(h: Hash, level: seq<Digest>, idx: nat)
    requires idx < |level|
    ensures Climb(h, level[idx], idx, |level|, Siblings(h, level, idx)) == Some(RootOf(h, level))
    decreases |level|
  {
    if |level| <= 1 {
    } else {
      var next := Up(h, level);
      ClimbStep(h, level, idx, Siblings(h, next, idx / 2));
      ClimbReachesRoot(h, next, idx / 2);
    }
  }

  /** Every proof leads from its shard to the root of the tree it was made for. */
  lemma ProofsLeadToRoot(h: Hash, shards: seq<ByteString>, index: nat)
    requires index < |shards|
    ensures var p := ProofFor(h, shards, index).value;
            Climb(h, h(shards[index]), p.shardIndex, p.totalShards, p.siblings) == Some(p.root)
    ensures ProofFor(h, shards, index).value.root == Root(h, shards)
  {
    ClimbReachesRoot(h, Leaves(h, shards), index);
  }

  /** The number of levels above `n` leaves. */
  function CeilLog2(n: nat): nat {
    if n <= 1 then 0 else 1 + CeilLog2((n + 1) / 2)
  }

  lemma {:induction false} CeilLog2IsLog(n: nat)
    requires 1 <= n
    ensures n <= Pow2(CeilLog2(n))
    ensures 1 < n ==> Pow2(CeilLog2(n) - 1) < n
  {
    if n <= 1 {
    } else {
      var half := (n + 1) / 2;
      CeilLog2IsLog(half);
      assert n <= 2 * half <= n + 1;
      assert Pow2(CeilLog2(n)) == 2 * Pow2(CeilLog2(half));
      if n > 2 {
        assert Pow2(CeilLog2(n) - 1) == 2 * Pow2(CeilLog2(half) - 1);
      }
    }
  }

  lemma {:induction false} ProofsAreShort(h: Hash, level: seq<Digest>, idx: nat)
    requires idx < |level|
    ensures |Siblings(h, level, idx)| <= CeilLog2(|level|)
    decreases |level|
  {
    if |level| <= 1 {
    } else {
      ProofsAreShort(h, Up(h, level), idx / 2);
    }
  }

  // ---------- Collision freedom ----------

  ghost predicate NoCollision(h: Hash, inputs: set<ByteString>) {
    forall x, y :: x in inputs && y in inputs && h(x) == h(y) ==> x == y
  }

  /** The strings hashed while folding. */
  function FoldInputs(h: Hash, node: Digest, siblings: seq<Digest>): set<ByteString>
    decreases |siblings|
  {
    if siblings == [] then {}
    else {Pair(node, siblings[0])} + FoldInputs(h, h(Pair(node, siblings[0])), siblings[1..])
  }

  function VerifyInputs(h: Hash, proof: Proof, shard: ByteString): set<ByteString> {
    {shard} + FoldInputs(h, h(shard), proof.siblings)
  }

  /** The strings hashed to build the levels above `level`. */
  function TreeInputs(h: Hash, level: seq<Digest>): set<ByteString>
    decreases |level|
  {
    if |level| <= 1 then {}
    else PairInputs(level) + TreeInputs(h, Up(h, level))
  }

  function PairInputs(level: seq<Digest>): set<ByteString> {
    set i | 0 <= i < |level| / 2 :: Pair(level[2 * i], level[2 * i + 1])
  }

  function RootInputs(h: Hash, shards: seq<ByteString>): set<ByteString> {
    (set i | 0 <= i < |shards| :: shards[i]) + TreeInputs(h, Leaves(h, shards))
  }

  lemma SplitPair(a: Digest, b: Digest, c: Digest, d: Digest)
    requires Pair(a, b) == Pair(c, d)
    ensures a == c && b == d
  {
    assert a == Pair(a, b)[..32] && b == Pair(a, b)[32..];
    assert c == Pair(c, d)[..32] && d == Pair(c, d)[32..];
  }

  // ---------- The verifier accepts exactly the aligned paths ----------

  /** At every level where the path node is a right child, its left sibling has the same hash. */
  predicate Aligned(h: Hash, level: seq<Digest>, idx: nat)
    requires idx < |level|
    decreases |level|
  {
    |level| == 1
    || ((idx % 2 == 1 ==> level[idx - 1] == level[idx]) && Aligned(h, Up(h, level), idx / 2))
  }

  /** The running hash after the level of node `idx`. */
  function Onward(h: Hash, level: seq<Digest>, idx: nat, node: Digest): Digest
    requires idx < |level|
  {
    var sibling := SiblingAt(level, idx);
    if sibling == [] then node else h(Pair(node, sibling[0]))
  }

  /** One level of a fold along a generated proof, and the strings it hashes. */
  lemma FoldStep(h: Hash, level: seq<Digest>, idx: nat, node: Digest, rest: seq<Digest>)
    requires idx < |level|
    ensures var sibling, running := SiblingAt(level, idx), Onward(h, level, idx, node);
            && FoldLeft(h, node, sibling + rest) == FoldLeft(h, running, rest)
            && FoldInputs(h, running, rest) <= FoldInputs(h, node, sibling + rest)
            && (sibling != [] ==> Pair(node, sibling[0]) in FoldInputs(h, node, sibling + rest))
  {
    var sibling := SiblingAt(level, idx);
    if sibling == [] {
      assert sibling + rest == rest;
    } else {
      assert (sibling + rest)[1..] == rest;
    }
  }

  /** Hashing with the sibling on the right gives the parent iff the operands agree. */
  lemma OnwardMeetsParent(h: Hash, level: seq<Digest>, idx: nat, node: Digest, inputs: set<ByteString>)
    requires idx < |level|
    requires SiblingAt(level, idx) != [] ==> Pair(node, SiblingAt(level, idx)[0]) in inputs
    requires PairInputs(level) <= inputs && NoCollision(h, inputs)
    ensures Onward(h, level, idx, node) == Node(h, level, idx / 2)
            <==> node == level[idx] && (idx % 2 == 1 ==> level[idx - 1] == level[idx])
  {
    if SiblingAt(level, idx) != [] {
      var up, sibling := idx / 2, SiblingAt(level, idx)[0];
      var left, right := level[2 * up], level[2 * up + 1];
      assert Pair(left, right) in PairInputs(level);
      if Pair(node, sibling) == Pair(left, right) {
        SplitPair(node, sibling, left, right);
      }
    }
  }

  /** A fold started from `node` meets the root iff it starts on the path and the path is
      aligned: once the running hash has left the path it never comes back. */
  lemma {:induction false} FoldMeetsRoot(h: Hash, level: seq<Digest>, idx: nat, node: Digest,
                                         inputs: set<ByteString>)
    requires idx < |level|
    requires TreeInputs(h, level) <= inputs && FoldInputs(h, node, Siblings(h, level, idx)) <= inputs
    requires NoCollision(h, inputs)
    ensures FoldLeft(h, node, Siblings(h, level, idx)) == RootOf(h, level)
            <==> node == level[idx] && Aligned(h, level, idx)
    decreases |level|
  {
    if |level| <= 1 {
    } else {
      var next, up, running := Up(h, level), idx / 2, Onward(h, level, idx, node);
      var rest := Siblings(h, next, up);
      FoldStep(h, level, idx, node, rest);
      OnwardMeetsParent(h, level, idx, node, inputs);
      FoldMeetsRoot(h, next, up, running, inputs);
      assert next[up] == Node(h, level, up);
    }
  }

  /** Acceptance, exactly: the proof for shard `index` accepts `shard` iff it is that shard
      and the path is aligned. */
  lemma {:induction false} VerifierAccepts(h: Hash, shards: seq<ByteString>, index: nat, shard: ByteString)
    requires index < |shards|
    requires NoCollision(h, RootInputs(h, shards)
                            + VerifyInputs(h, ProofFor(h, shards, index).value, shard))
    ensures Verifies(h, ProofFor(h, shards, index).value, shard)
            <==> shard == shards[index] && Aligned(h, Leaves(h, shards), index)
  {
    var level := Leaves(h, shards);
    FoldMeetsRoot(h, level, index, h(shard),
                  RootInputs(h, shards) + VerifyInputs(h, ProofFor(h, shards, index).value, shard));
    assert shards[index] in RootInputs(h, shards);
  }

  /** On an aligned path hashing with the sibling on the right gives the parent. */
  lemma AlignedOnward(h: Hash, level: seq<Digest>, idx: nat)
    requires idx < |level| && (idx % 2 == 1 ==> level[idx - 1] == level[idx])
    ensures Onward(h, level, idx, level[idx]) == Up(h, level)[idx / 2]
  {
    assert Up(h, level)[idx / 2] == Node(h, level, idx / 2);
  }

  /** No hypothesis on the hash is needed for the way in: aligned paths always verify. */
  lemma {:induction false} AlignedFolds(h: Hash, level: seq<Digest>, idx: nat)
    requires idx < |level| && Aligned(h, level, idx)
    ensures FoldLeft(h, level[idx], Siblings(h, level, idx)) == RootOf(h, level)
    decreases |level|
  {
    if |level| <= 1 {
    } else {
      AlignedFolds(h, Up(h, level), idx / 2);
      FoldStep(h, level, idx, level[idx], Siblings(h, Up(h, level), idx / 2));
      AlignedOnward(h, level, idx);
    }
  }

  /** No level of the path has a right child: index 0, and for instance the last of 2^k + 1. */
  predicate NeverRight(idx: nat, n: nat)
    requires idx < n
    decreases n
  {
    n == 1 || (idx % 2 == 0 && NeverRight(idx / 2, (n + 1) / 2))
  }

  lemma {:induction false} NeverRightAligned(h: Hash, level: seq<Digest>, idx: nat)
    requires idx < |level| && NeverRight(idx, |level|)
    ensures Aligned(h, level, idx)
    decreases |level|
  {
    if |level| <= 1 {
    } else {
      NeverRightAligned(h, Up(h, level), idx / 2);
    }
  }

  lemma {:induction false} ZeroNeverRight(n: nat)
    requires 0 < n
    ensures NeverRight(0, n)
  {
    if n <= 1 {
    } else {
      ZeroNeverRight((n + 1) / 2);
    }
  }

  /** Whatever the hash and the shards, a path without right children verifies. */
  lemma LeftPathsVerify(h: Hash, shards: seq<ByteString>, index: nat)
    requires index < |shards| && (index == 0 || NeverRight(index, |shards|))
    ensures Verifies(h, ProofFor(h, shards, index).value, shards[index])
  {
    ZeroNeverRight(|shards|);
    NeverRightAligned(h, Leaves(h, shards), index);
    AlignedFolds(h, Leaves(h, shards), index);
  }

  /** But the honest proof for the second of two shards is refused unless they are equal. */
  lemma SecondOfTwoRefused(h: Hash, a: ByteString, b: ByteString)
    requires NoCollision(h, RootInputs(h, [a, b]) + VerifyInputs(h, ProofFor(h, [a, b], 1).value, b))
    ensures Verifies(h, ProofFor(h, [a, b], 1).value, b) <==> a == b
  {
    var shards := [a, b];
    VerifierAccepts(h, shards, 1, b);
    assert shards[0] in RootInputs(h, shards) && shards[1] in RootInputs(h, shards);
    assert Aligned(h, Up(h, Leaves(h, shards)), 0);
  }

  /** A hash that tells the strings of the example below apart: first byte and length. */
  function Brief(s: ByteString): Digest {
    [if s == [] then 0 else s[0], |s| % 256] + Zeros(30)
  }

  /** The refusal does happen: with this hash, the honest proof for the second of the shards
      [0] and [1] is refused. */
  lemma HonestProofRefused()
    ensures !Verifies(Brief, ProofFor(Brief, [[0], [1]], 1).value, [1])
  {
    TwoShardTree(Brief, [0], [1]);
    BriefSeparates(Brief([0]), Brief([1]));
    SecondOfTwoRefused(Brief, [0], [1]);
  }

  /** The strings hashed for a tree of two shards and for the proof of the second. */
  lemma TwoShardTree(h: Hash, a: ByteString, b: ByteString)
    ensures RootInputs(h, [a, b]) <= {a, b, Pair(h(a), h(b))}
    ensures VerifyInputs(h, ProofFor(h, [a, b], 1).value, b) <= {b, Pair(h(b), h(a))}
  {
    var level := Leaves(h, [a, b]);
    assert level == [h(a), h(b)];
    assert |Up(h, level)| == 1;
    assert TreeInputs(h, Up(h, level)) == {};
    assert PairInputs(level) <= {Pair(h(a), h(b))};
    var siblings := Siblings(h, level, 1);
    assert siblings == [h(a)] + Siblings(h, Up(h, level), 0) == [h(a)];
    assert siblings[1..] == [];
    assert FoldInputs(h, h(b), siblings) == {Pair(h(b), h(a))} + FoldInputs(h, h(Pair(h(b), h(a))), []);
  }

  lemma BriefSeparates(a: Digest, b: Digest)
    requires a == Brief([0]) && b == Brief([1])
    ensures NoCollision(Brief, {[0], [1], Pair(a, b), Pair(b, a)})
  {
    assert a[0] == 0 && a[1] == 1 && b[0] == 1 && b[1] == 1;
    var c, d := Brief(Pair(a, b)), Brief(Pair(b, a));
    assert c[0] == 0 && c[1] == 64 && d[0] == 1 && d[1] == 64;
  }

  // ---------- Binding ----------

  lemma {:induction false} FoldIsInjective(h: Hash, x: Digest, y: Digest, siblings: seq<Digest>)
    requires NoCollision(h, FoldInputs(h, x, siblings) + FoldInputs(h, y, siblings))
    requires FoldLeft(h, x, siblings) == FoldLeft(h, y, siblings)
    ensures x == y
    decreases |siblings|
  {
    if siblings == [] {
    } else {
      FoldIsInjective(h, h(Pair(x, siblings[0])), h(Pair(y, siblings[0])), siblings[1..]);
      SplitPair(x, siblings[0], y, siblings[0]);
    }
  }

  /** Any one proof, honest or not, accepts at most one shard. */
  lemma ProofAcceptsOne(h: Hash, proof: Proof, x: ByteString, y: ByteString)
    requires Verifies(h, proof, x) && Verifies(h, proof, y)
    requires NoCollision(h, VerifyInputs(h, proof, x) + VerifyInputs(h, proof, y))
    ensures x == y
  {
    FoldIsInjective(h, h(x), h(y), proof.siblings);
  }

  lemma {:induction false} RootBindsLevel(h: Hash, a: seq<Digest>, b: seq<Digest>, inputs: set<ByteString>)
    requires |a| == |b| > 0
    requires TreeInputs(h, a) <= inputs && TreeInputs(h, b) <= inputs && NoCollision(h, inputs)
    requires RootOf(h, a) == RootOf(h, b)
    ensures a == b
    decreases |a|
  {
    if |a| <= 1 {
    } else {
      RootBindsLevel(h, Up(h, a), Up(h, b), inputs);
      SameParents(h, a, b, inputs);
    }
  }

  lemma SameParents(h: Hash, a: seq<Digest>, b: seq<Digest>, inputs: set<ByteString>)
    requires |a| == |b| && Up(h, a) == Up(h, b)
    requires PairInputs(a) <= inputs && PairInputs(b) <= inputs && NoCollision(h, inputs)
    ensures a == b
  {
    forall i | 0 <= i < |a|
      ensures a[i] == b[i]
    {
      assert Up(h, a)[i / 2] == Up(h, b)[i / 2];
      SameParent(h, a, b, i / 2, inputs);
    }
  }

  lemma SameParent(h: Hash, a: seq<Digest>, b: seq<Digest>, i: nat, inputs: set<ByteString>)
    requires |a| == |b| && 2 * i < |a|
    requires PairInputs(a) <= inputs && PairInputs(b) <= inputs && NoCollision(h, inputs)
    requires Node(h, a, i) == Node(h, b, i)
    ensures a[2 * i] == b[2 * i]
    ensures 2 * i + 1 < |a| ==> a[2 * i + 1] == b[2 * i + 1]
  {
    if 2 * i + 1 < |a| {
      assert Pair(a[2 * i], a[2 * i + 1]) in PairInputs(a);
      assert Pair(b[2 * i], b[2 * i + 1]) in PairInputs(b);
      SplitPair(a[2 * i], a[2 * i + 1], b[2 * i], b[2 * i + 1]);
    }
  }

  /** The number of shards is not bound: one shard that is the pair of two leaf hashes has the root
      of the two, whatever the hash. */
  lemma RootForgetsLength(h: Hash, a: ByteString, b: ByteString)
    ensures Root(h, [a, b]) == Root(h, [Pair(h(a), h(b))])
  {
    var level := Leaves(h, [a, b]);
    assert Up(h, level) == [h(Pair(h(a), h(b)))];
    assert RootOf(h, level) == RootOf(h, Up(h, level));
    assert Leaves(h, [Pair(h(a), h(b))]) == Up(h, level);
  }

  /** The root binds the shards: equally long lists with one root are equal shard by shard. */
  lemma RootBinds(h: Hash, a: seq<ByteString>, b: seq<ByteString>)
    requires |a| == |b| && Root(h, a) == Root(h, b)
    requires NoCollision(h, RootInputs(h, a) + RootInputs(h, b))
    ensures a == b
  {
    if a != [] {
      RootBindsLevel(h, Leaves(h, a), Leaves(h, b), RootInputs(h, a) + RootInputs(h, b));
      forall i | 0 <= i < |a|
        ensures a[i] == b[i]
      {
        assert Leaves(h, a)[i] == Leaves(h, b)[i];
        assert a[i] in RootInputs(h, a) && b[i] in RootInputs(h, b);
      }
    }
  }
}
