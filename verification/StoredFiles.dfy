/** What holds after a file is stored (src/davfs.rs, src/vault.rs): every shard is in place, and
    reading back does not depend on which shards were lost, up to the parity of the code. */
module StoredFiles {
  import opened Numerics
  import opened Wrappers
  import opened Bytes
  import opened Merkle
  import opened Erasure
  import opened Decimals
  import opened DavFs
  import V = Vault
  import R = Router

  // ---------- One block ----------

  /** No trace of the group. */
  predicate Unused(v: V.Store, gid: string) {
    V.DirOf(v, gid) == V.EMPTY_DIR && gid !in v.cache
  }

  /** The group holds exactly the first `n` of these shards. */
  ghost predicate Holds(dir: V.GroupDir, shards: seq<ByteString>, n: nat)
    requires n <= |shards|
  {
    && (forall i :: 0 <= i < n ==> ShardName(i) in dir.shards && dir.shards[ShardName(i)] == shards[i])
    && (forall name <- dir.shards :: exists i :: 0 <= i < n && name == ShardName(i))
  }

  /** The directory of a stored block: its shards, its counter, its root. */
  ghost predicate IsStored(v: V.Store, item: Item, root: Digest) {
    && item.gid in v.dirs && item.gid in v.cache
    && Holds(v.dirs[item.gid], item.shards, |item.shards|)
    && HasMarks(v.dirs[item.gid], v.cache[item.gid], item.counter, root)
  }

  predicate HasMarks(dir: V.GroupDir, meta: V.Meta, counter: u64, root: Digest) {
    && dir.seqFile == Some(Print(counter)) && dir.rootFile == Some(root)
    && meta.merkleRoot == root && meta.vMax == counter
  }

  /** Everything but the group is as before. */
  ghost predicate OthersKept(v: V.Store, v': V.Store, gid: string) {
    && v'.dirs - {gid} == v.dirs - {gid}
    && v'.metas - {gid} == v.metas - {gid}
    && v'.cache - {gid} == v.cache - {gid}
  }

  /** Between two calls of the inner loop. */
  ghost predicate PartlyStored(v: V.Store, item: Item, root: Digest, n: nat)
    requires n <= |item.shards|
  {
    if n == 0 then Unused(v, item.gid)
    else
      && item.gid in v.dirs && item.gid in v.cache
      && Holds(v.dirs[item.gid], item.shards, n)
      && HasMarks(v.dirs[item.gid], v.cache[item.gid], item.counter, root)
  }

  lemma HoldsOneMore(dir: V.GroupDir, shards: seq<ByteString>, n: nat, dir': V.GroupDir)
    requires n < |shards| && Holds(dir, shards, n)
    requires dir'.shards == dir.shards[ShardName(n) := shards[n]]
    ensures Holds(dir', shards, n + 1)
  {
    forall i | 0 <= i < n
      ensures ShardName(i) != ShardName(n)
    {
      if ShardName(i) == ShardName(n) {
        ShardNamesDiffer(i, n);
      }
    }
  }

  lemma StoreKeepsOthers(v: V.Store, gid: string, index: nat, data: ByteString, counter: u64,
                         root: Digest, expected: nat, now: u64)
    ensures OthersKept(v, V.Stored(v, gid, index, data, counter, root, expected, now).0, gid)
  {
  }

  /** Every call of the loop is accepted and puts its shard in place. */
  lemma NextShardStored(v: V.Store, item: Item, root: Digest, n: nat, now: u64)
    requires n < |item.shards| && 0 < item.counter && PartlyStored(v, item, root, n)
    ensures var (v', r) := V.Stored(v, item.gid, n, item.shards[n], item.counter, root, |item.shards|, now);
            r == Ok(true) && PartlyStored(v', item, root, n + 1) && OthersKept(v, v', item.gid)
  {
    var dir := V.DirOf(v, item.gid);
    var dir' := V.StoredDir(dir, n, item.shards[n], item.counter, root);
    PrintParse(item.counter, U64_LIMIT);
    assert V.Mark(dir) == if n == 0 then 0 else item.counter;
    HoldsOneMore(dir, item.shards, n, dir');
    StoreKeepsOthers(v, item.gid, n, item.shards[n], item.counter, root, |item.shards|, now);
  }

  lemma {:induction false} ShardsArePut(w: World, v: V.Store, item: Item, block: nat, n: nat)
    requires n <= |item.shards| && 0 < item.counter && Unused(v, item.gid)
    ensures var v' := ShardsStored(w, v, item, block, n);
            PartlyStored(v', item, Root(w.hash, item.shards), n) && OthersKept(v, v', item.gid)
  {
    if n == 0 {
    } else {
      ShardsArePut(w, v, item, block, n - 1);
      NextShardStored(ShardsStored(w, v, item, block, n - 1), item, Root(w.hash, item.shards),
                      n - 1, w.clock(block, n - 1));
    }
  }

  /** Completeness of a stored block: each shard reads back with the block's counter, the stored
      root is the Merkle root of the shards, and no other group is touched. */
  lemma BlockIsComplete(w: World, v: V.Store, item: Item, block: nat)
    requires item.shards != [] && 0 < item.counter && Unused(v, item.gid)
    ensures var v' := ShardsStored(w, v, item, block, |item.shards|);
            && IsStored(v', item, Root(w.hash, item.shards))
            && OthersKept(v, v', item.gid)
            && (forall i :: 0 <= i < |item.shards| ==>
                  V.Read(v', item.gid, i) == Ok(V.VaultShard(item.gid, i, item.shards[i], item.counter)))
  {
    ShardsArePut(w, v, item, block, |item.shards|);
    PrintParse(item.counter, U64_LIMIT);
  }

  /** And no call of the loop is refused. */
  lemma {:induction false} EveryShardAccepted(w: World, v: V.Store, item: Item, block: nat, i: nat)
    requires i < |item.shards| && 0 < item.counter && Unused(v, item.gid)
    ensures V.Stored(ShardsStored(w, v, item, block, i), item.gid, i, item.shards[i], item.counter,
                     Root(w.hash, item.shards), |item.shards|, w.clock(block, i)).1 == Ok(true)
  {
    ShardsArePut(w, v, item, block, i);
    NextShardStored(ShardsStored(w, v, item, block, i), item, Root(w.hash, item.shards), i, w.clock(block, i));
  }

  // ---------- Listing ----------

  function Indices(n: nat): seq<nat> {
    seq(n, i => i)
  }

  /** Each number below `n` once, and no other. */
  ghost predicate OnceBelow(s: seq<nat>, n: nat) {
    forall i: nat :: multiset(s)[i] == if i < n then 1 else 0
  }

  /** The listing of a stored block is 0, 1, .., n-1, for up to a thousand shards. */
  lemma ListingIsComplete(dir: V.GroupDir, shards: seq<ByteString>, listing: seq<nat>)
    requires |shards| <= 1000 && Holds(dir, shards, |shards|)
    requires V.IsListing(dir.shards.Keys, listing)
    ensures listing == Indices(|shards|)
  {
    forall i: nat
      ensures multiset(listing)[i] == if i < |shards| then 1 else 0
    {
      NamedOnce(dir, shards, i);
    }
    SortedOnce(listing, |shards|);
  }

  lemma NamedOnce(dir: V.GroupDir, shards: seq<ByteString>, i: nat)
    requires |shards| <= 1000 && Holds(dir, shards, |shards|)
    ensures |V.Named(dir.shards.Keys, i)| == if i < |shards| then 1 else 0
  {
    forall name | name in V.Named(dir.shards.Keys, i)
      ensures i < |shards| && name == ShardName(i)
    {
      var j :| 0 <= j < |shards| && name == ShardName(j);
      NameRoundTrip(j);
    }
    if i < |shards| {
      NameRoundTrip(i);
      assert V.Named(dir.shards.Keys, i) == {ShardName(i)};
    } else {
      assert V.Named(dir.shards.Keys, i) == {};
    }
  }

  lemma LargestIsLast(s: seq<nat>, n: nat)
    requires V.Sorted(s) && OnceBelow(s, n) && 0 < n
    ensures s != [] && s[|s| - 1] == n - 1
  {
    assert multiset(s)[n - 1] == 1;
    assert n - 1 in s;
    var last := s[|s| - 1];
    assert last in multiset(s);
    assert multiset(s)[last] == 1;
  }

  lemma FrontOnce(s: seq<nat>, n: nat)
    requires OnceBelow(s, n) && s != [] && 0 < n && s[|s| - 1] == n - 1
    ensures OnceBelow(s[..|s| - 1], n - 1)
  {
    var front: seq<nat> := s[..|s| - 1];
    var largest: nat := n - 1;
    assert s == front + [largest];
    assert multiset(s) == multiset(front) + multiset{largest};
    forall i: nat
      ensures multiset(front)[i] == if i < n - 1 then 1 else 0
    {
      assert multiset(s)[i] == multiset(front)[i] + if i == largest then 1 else 0;
    }
  }

  lemma {:induction false} SortedOnce(s: seq<nat>, n: nat)
    requires V.Sorted(s) && OnceBelow(s, n)
    ensures s == Indices(n)
  {
    if n == 0 {
      assert multiset(s) == multiset{};
      assert |s| == |multiset(s)|;
    } else {
      LargestIsLast(s, n);
      FrontOnce(s, n);
      SortedOnce(s[..|s| - 1], n - 1);
      assert s == s[..|s| - 1] + [n - 1];
    }
  }

  // ---------- A whole file ----------

  /** The groups of a file are new to the vault and all different. Identifiers are hashes of
      block number and sealed block, so this is the absence of collisions. */
  ghost predicate FreshGroups(v: V.Store, items: seq<Item>) {
    && (forall i :: 0 <= i < |items| ==> Unused(v, items[i].gid))
    && (forall i, j :: 0 <= i < j < |items| ==> items[i].gid != items[j].gid)
  }

  ghost predicate Storable(items: seq<Item>) {
    forall i :: 0 <= i < |items| ==> items[i].shards != [] && 0 < items[i].counter
  }

  /** The first `n` blocks are in place, the groups of the others still unused. */
  ghost predicate PlanPut(w: World, v: V.Store, items: seq<Item>, n: nat) {
    forall i :: 0 <= i < |items| ==>
      if i < n then IsStored(v, items[i], Root(w.hash, items[i].shards)) else Unused(v, items[i].gid)
  }

  lemma OthersKeptStored(v: V.Store, v': V.Store, gid: string, other: string)
    requires OthersKept(v, v', gid) && other != gid
    ensures other in v'.dirs <==> other in v.dirs
    ensures other in v.dirs ==> v'.dirs[other] == v.dirs[other]
    ensures other in v'.cache <==> other in v.cache
    ensures other in v.cache ==> v'.cache[other] == v.cache[other]
  {
    assert other in v.dirs - {gid} <==> other in v'.dirs - {gid};
    assert other in v.cache - {gid} <==> other in v'.cache - {gid};
    assert other in v.dirs ==> (v.dirs - {gid})[other] == (v'.dirs - {gid})[other];
    assert other in v.cache ==> (v.cache - {gid})[other] == (v'.cache - {gid})[other];
  }

  lemma {:induction false} PlanIsPut(w: World, v: V.Store, items: seq<Item>, n: nat)
    requires FreshGroups(v, items) && Storable(items) && n <= |items|
    ensures PlanPut(w, BlocksStored(w, v, items[..n]), items, n)
  {
    if n == 0 {
    } else {
      PlanIsPut(w, v, items, n - 1);
      assert items[..n][..n - 1] == items[..n - 1];
      var before, after := BlocksStored(w, v, items[..n - 1]), BlocksStored(w, v, items[..n]);
      BlockIsComplete(w, before, items[n - 1], n - 1);
      OneMorePut(w, before, after, items, n - 1);
    }
  }

  lemma OneMorePut(w: World, before: V.Store, after: V.Store, items: seq<Item>, n: nat)
    requires n < |items| && PlanPut(w, before, items, n) && OthersKept(before, after, items[n].gid)
    requires IsStored(after, items[n], Root(w.hash, items[n].shards))
    requires forall i, j :: 0 <= i < j < |items| ==> items[i].gid != items[j].gid
    ensures PlanPut(w, after, items, n + 1)
  {
    forall i | 0 <= i < |items| && i != n
      ensures if i < n then IsStored(after, items[i], Root(w.hash, items[i].shards))
              else Unused(after, items[i].gid)
    {
      OthersKeptStored(before, after, items[n].gid, items[i].gid);
    }
  }

  /** Codewords of the right length, numbered from 1. */
  ghost predicate WellCoded(w: World, c: Config, items: seq<Item>) {
    forall i :: 0 <= i < |items| ==>
      IsCoded(w, c, items[i]) && |items[i].shards| == c.k + c.m && items[i].counter == i + 1
  }

  lemma CodedIsStorable(w: World, c: Config, items: seq<Item>)
    requires 1 <= c.k && WellCoded(w, c, items)
    ensures Storable(items)
  {
    forall i | 0 <= i < |items|
      ensures items[i].shards != [] && 0 < items[i].counter
    {
      assert |items[i].shards| == c.k + c.m && items[i].counter == i + 1;
    }
  }

  lemma PlanItem(w: World, c: Config, data: ByteString, i: nat)
    requires Usable(w, c) && Fits(c, data) && i < BlockCount(data, c.blockSize)
    ensures |Plan(w, c, data)[i].shards| == c.k + c.m && Plan(w, c, data)[i].counter == i + 1
    ensures 1 <= c.k && c.k + c.m <= 256
  {
    CountersPositive(c, data, i);
    ItemIsCoded(w, c, data, i);
  }

  lemma PlanIsStorable(w: World, c: Config, data: ByteString)
    requires Usable(w, c) && Fits(c, data)
    ensures Storable(Plan(w, c, data))
  {
    PlanIsWellCoded(w, c, data);
    CodedIsStorable(w, c, Plan(w, c, data));
  }

  lemma PlanIsWellCoded(w: World, c: Config, data: ByteString)
    requires Usable(w, c) && Fits(c, data)
    ensures WellCoded(w, c, Plan(w, c, data))
  {
    var items := Plan(w, c, data);
    forall i | 0 <= i < |items|
      ensures IsCoded(w, c, items[i]) && |items[i].shards| == c.k + c.m && items[i].counter == i + 1
    {
      CountersPositive(c, data, i);
      ItemIsCoded(w, c, data, i);
    }
  }

  /** A stored block lists all its shards, in order. */
  ghost predicate ListsAll(v: V.Store, gid: string, n: nat)
    requires gid in v.dirs
  {
    forall listing :: V.IsListing(v.dirs[gid].shards.Keys, listing) ==> listing == Indices(n)
  }

  /** A stored block reads back shard by shard, with the block's counter. */
  ghost predicate ReadsAll(v: V.Store, item: Item) {
    forall i :: 0 <= i < |item.shards| ==>
      V.Read(v, item.gid, i) == Ok(V.VaultShard(item.gid, i, item.shards[i], item.counter))
  }

  lemma StoredReadsAll(v: V.Store, item: Item, root: Digest)
    requires IsStored(v, item, root)
    ensures ReadsAll(v, item)
  {
    PrintParse(item.counter, U64_LIMIT);
  }

  /** Storing shard `j` of block `i`, after all that comes before it, is accepted. */
  ghost predicate StoreAccepted(w: World, v: V.Store, items: seq<Item>, i: nat, j: nat)
    requires i < |items| && j < |items[i].shards|
  {
    var item := items[i];
    V.Stored(ShardsStored(w, BlocksStored(w, v, items[..i]), item, i, j), item.gid, j, item.shards[j],
             item.counter, Root(w.hash, item.shards), |item.shards|, w.clock(i, j)).1 == Ok(true)
  }

  lemma PlanIsAccepted(w: World, v: V.Store, items: seq<Item>, i: nat, j: nat)
    requires FreshGroups(v, items) && Storable(items) && i < |items| && j < |items[i].shards|
    ensures StoreAccepted(w, v, items, i, j)
  {
    PlanIsPut(w, v, items, i);
    EveryShardAccepted(w, BlocksStored(w, v, items[..i]), items[i], i, j);
  }

  lemma StoredListsAll(v: V.Store, item: Item, root: Digest)
    requires IsStored(v, item, root) && |item.shards| <= 1000
    ensures ListsAll(v, item.gid, |item.shards|)
  {
    forall listing | V.IsListing(v.dirs[item.gid].shards.Keys, listing)
      ensures listing == Indices(|item.shards|)
    {
      ListingIsComplete(v.dirs[item.gid], item.shards, listing);
    }
  }

  lemma PlanIsComplete(w: World, v: V.Store, items: seq<Item>, i: nat)
    requires FreshGroups(v, items) && Storable(items) && i < |items| && |items[i].shards| <= 1000
    ensures IsStored(BlocksStored(w, v, items), items[i], Root(w.hash, items[i].shards))
    ensures ListsAll(BlocksStored(w, v, items), items[i].gid, |items[i].shards|)
    ensures ReadsAll(BlocksStored(w, v, items), items[i])
  {
    PlanIsPut(w, v, items, |items|);
    assert items[..|items|] == items;
    StoredReadsAll(BlocksStored(w, v, items), items[i], Root(w.hash, items[i].shards));
    StoredListsAll(BlocksStored(w, v, items), items[i], Root(w.hash, items[i].shards));
  }

  /** Storing a file puts every block in place: no store is refused, and at the end all shards read
      back, listed without a gap, with the block's number plus one as counter, and its Merkle
      root. */
  lemma {:induction false} FileIsComplete(w: World, c: Config, v: V.Store, data: ByteString, i: nat)
    requires Usable(w, c) && Fits(c, data) && FreshGroups(v, Plan(w, c, data))
    requires i < BlockCount(data, c.blockSize)
    ensures var v', item := BlocksStored(w, v, Plan(w, c, data)), Plan(w, c, data)[i];
            && IsStored(v', item, Root(w.hash, item.shards))
            && |item.shards| == c.k + c.m && item.counter == i + 1
            && ListsAll(v', item.gid, c.k + c.m)
            && ReadsAll(v', item)
            && forall j :: 0 <= j < c.k + c.m ==> StoreAccepted(w, v, Plan(w, c, data), i, j)
  {
    PlanIsStorable(w, c, data);
    PlanItem(w, c, data, i);
    PlanIsComplete(w, v, Plan(w, c, data), i);
    forall j | 0 <= j < c.k + c.m
      ensures StoreAccepted(w, v, Plan(w, c, data), i, j)
    {
      PlanIsAccepted(w, v, Plan(w, c, data), i, j);
    }
  }

  /** Every block of the file is routed, with its true number of shards. */
  lemma {:induction false} PlanIsRouted(c: Config, us: R.WanPeer, online: seq<R.WanPeer>,
                                        routes: map<string, R.RouteEntry>, items: seq<Item>)
    requires forall i :: 0 <= i < |items| ==> |items[i].shards| == c.k + c.m
    ensures var all := Routed(c, us, online, routes, items);
            forall i :: 0 <= i < |items| ==>
              items[i].gid in all && all[items[i].gid].totalShards == c.k + c.m
  {
    if items == [] {
    } else {
      PlanIsRouted(c, us, online, routes, items[..|items| - 1]);
    }
  }

  // ---------- Losing shards ----------

  /** The disk without some shard files of each group. */
  function Lossy(v: V.Store, lost: string -> set<nat>): V.Store {
    v.(dirs := map gid | gid in v.dirs ::
         v.dirs[gid].(shards := v.dirs[gid].shards - (set j | j in lost(gid) :: ShardName(j))))
  }

  lemma LossySlots(v: V.Store, item: Item, root: Digest, lost: string -> set<nat>)
    requires IsStored(v, item, root)
    ensures SlotsOf(Lossy(v, lost), item.gid, |item.shards|) == Without(item.shards, lost(item.gid))
  {
    var v' := Lossy(v, lost);
    forall i | 0 <= i < |item.shards|
      ensures V.Read(v', item.gid, i).Ok? <==> i !in lost(item.gid)
      ensures i !in lost(item.gid) ==> V.Read(v', item.gid, i).value.data == item.shards[i]
    {
      if ShardName(i) in (set j | j in lost(item.gid) :: ShardName(j)) {
        var j :| j in lost(item.gid) && ShardName(j) == ShardName(i);
        ShardNamesDiffer(i, j);
      }
    }
  }

  /** What reading back comes to: all shards of all blocks, parity included. */
  function AllShards(items: seq<Item>): ByteString {
    if items == [] then []
    else AllShards(items[..|items| - 1]) + Join(items[|items| - 1].shards)
  }

  /** Losses that name only shards of the code. */
  ghost predicate PlausibleLoss(c: Config, lost: string -> set<nat>) {
    forall gid :: forall j <- lost(gid) :: j < c.k + c.m
  }

  /** Every group lost no more than the parity covers. */
  predicate Covered(m: nat, items: seq<Item>, lost: string -> set<nat>) {
    forall i :: 0 <= i < |items| ==> |lost(items[i].gid)| <= m
  }

  /** The code's part: what is left of an item's shards gives back all of them iff the loss is
      covered. */
  lemma CodedLossBound(w: World, c: Config, item: Item, lost: set<nat>)
    requires IsCodec(w.codec, c.k, c.m) && IsCoded(w, c, item) && forall j <- lost :: j < c.k + c.m
    ensures var rebuilt := w.codec.rebuild(Without(item.shards, lost));
            if |lost| <= c.m then rebuilt == Ok(item.shards) else rebuilt.Err?
  {
    var d :| |d| == c.k && Uniform(d) && item.shards == Codeword(w.codec, d);
    LossBound(w.codec, c.k, c.m, d, lost);
  }

  /** The vault's part: reading hands exactly that to the code. */
  lemma BlockReads(w: World, v: V.Store, routes: map<string, R.RouteEntry>, item: Item,
                   root: Digest, lost: string -> set<nat>, block: nat)
    requires IsStored(v, item, root)
    requires item.gid in routes && routes[item.gid].totalShards == |item.shards|
    ensures var rebuilt := w.codec.rebuild(Without(item.shards, lost(item.gid)));
            ReadBlock(w, Lossy(v, lost), routes, item.gid, block) ==
            if rebuilt.Ok? then Ok(Join(rebuilt.value)) else Err(RsFailed(block))
  {
    LossySlots(v, item, root, lost);
  }

  /** Block by block: Ok where the loss is covered, an error where it is not. */
  ghost predicate ReadsBack(w: World, m: nat, v: V.Store, routes: map<string, R.RouteEntry>,
                            items: seq<Item>, lost: string -> set<nat>) {
    forall i :: 0 <= i < |items| ==>
      ReadBlock(w, v, routes, items[i].gid, i) ==
      if |lost(items[i].gid)| <= m then Ok(Join(items[i].shards)) else Err(RsFailed(i))
  }

  /** The first block whose loss is not covered. */
  function FirstUncovered(m: nat, items: seq<Item>, lost: string -> set<nat>): (n: nat)
    requires !Covered(m, items, lost)
    ensures n < |items| && |lost(items[n].gid)| > m && Covered(m, items[..n], lost)
  {
    CoveredFront(m, items, lost);
    var n := |items| - 1;
    if Covered(m, items[..n], lost) then n
    else
      var first := FirstUncovered(m, items[..n], lost);
      assert items[..n][..first] == items[..first];
      first
  }

  lemma {:induction false} ReadsCompose(w: World, m: nat, v: V.Store, routes: map<string, R.RouteEntry>,
                                        items: seq<Item>, lost: string -> set<nat>)
    requires ReadsBack(w, m, v, routes, items, lost)
    ensures var read := ReadBlocks(w, v, routes, Groups(items));
            if Covered(m, items, lost) then read == Ok(AllShards(items))
            else read == Err(RsFailed(FirstUncovered(m, items, lost)))
  {
    if items == [] {
    } else {
      var n := |items| - 1;
      ReadsBackFront(w, m, v, routes, items, lost);
      ReadsCompose(w, m, v, routes, items[..n], lost);
      assert Groups(items)[..n] == Groups(items[..n]);
      CoveredFront(m, items, lost);
    }
  }

  lemma ReadsBackFront(w: World, m: nat, v: V.Store, routes: map<string, R.RouteEntry>,
                       items: seq<Item>, lost: string -> set<nat>)
    requires items != [] && ReadsBack(w, m, v, routes, items, lost)
    ensures var n := |items| - 1;
            && ReadsBack(w, m, v, routes, items[..n], lost)
            && ReadBlock(w, v, routes, items[n].gid, n) ==
               if |lost(items[n].gid)| <= m then Ok(Join(items[n].shards)) else Err(RsFailed(n))
  {
  }

  lemma CoveredFront(m: nat, items: seq<Item>, lost: string -> set<nat>)
    requires items != []
    ensures var n := |items| - 1;
            Covered(m, items, lost) <==> Covered(m, items[..n], lost) && |lost(items[n].gid)| <= m
  {
  }

  lemma PlanReadsBack(w: World, c: Config, v: V.Store, routes: map<string, R.RouteEntry>,
                      items: seq<Item>, lost: string -> set<nat>)
    requires IsCodec(w.codec, c.k, c.m) && PlausibleLoss(c, lost) && PlanPut(w, v, items, |items|)
    requires WellCoded(w, c, items)
    requires forall i :: 0 <= i < |items| ==>
               items[i].gid in routes && routes[items[i].gid].totalShards == c.k + c.m
    ensures ReadsBack(w, c.m, Lossy(v, lost), routes, items, lost)
  {
    forall i | 0 <= i < |items|
      ensures ReadBlock(w, Lossy(v, lost), routes, items[i].gid, i) ==
              if |lost(items[i].gid)| <= c.m then Ok(Join(items[i].shards)) else Err(RsFailed(i))
    {
      CodedLossBound(w, c, items[i], lost(items[i].gid));
      BlockReads(w, v, routes, items[i], Root(w.hash, items[i].shards), lost, i);
    }
  }

  /** Reading after a loss. */
  lemma PlanReads(w: World, c: Config, before: V.Store, us: R.WanPeer, online: seq<R.WanPeer>,
                  routes: map<string, R.RouteEntry>, items: seq<Item>, lost: string -> set<nat>)
    requires IsCodec(w.codec, c.k, c.m) && PlausibleLoss(c, lost)
    requires FreshGroups(before, items) && WellCoded(w, c, items)
    ensures var v, routed := BlocksStored(w, before, items), Routed(c, us, online, routes, items);
            var read := ReadBlocks(w, Lossy(v, lost), routed, Groups(items));
            if Covered(c.m, items, lost) then read == Ok(AllShards(items))
            else read == Err(RsFailed(FirstUncovered(c.m, items, lost)))
  {
    var v, routed := BlocksStored(w, before, items), Routed(c, us, online, routes, items);
    CodedIsStorable(w, c, items);
    PlanIsPut(w, before, items, |items|);
    assert items[..|items|] == items;
    PlanIsRouted(c, us, online, routes, items);
    PlanReadsBack(w, c, v, routed, items, lost);
    ReadsCompose(w, c.m, Lossy(v, lost), routed, items, lost);
  }

  /** Erasure independence. After a file is stored into fresh groups, reading it back after any
      loss gives the output of reading it with nothing lost, and fails exactly if some group lost
      more than `m` of its shards, on the first such block. */
  lemma {:induction false} ErasureIndependence(w: World, c: Config, before: V.Store, us: R.WanPeer,
                                               online: seq<R.WanPeer>, routes: map<string, R.RouteEntry>,
                                               data: ByteString, lost: string -> set<nat>)
    requires Usable(w, c) && Fits(c, data) && PlausibleLoss(c, lost)
    requires FreshGroups(before, Plan(w, c, data))
    ensures var items := Plan(w, c, data);
            var v, routed := BlocksStored(w, before, items), Routed(c, us, online, routes, items);
            var intact := ReadBlocks(w, v, routed, Groups(items));
            var read := ReadBlocks(w, Lossy(v, lost), routed, Groups(items));
            && intact == Ok(AllShards(items))
            && read == if Covered(c.m, items, lost) then intact
                       else Err(RsFailed(FirstUncovered(c.m, items, lost)))
  {
    PlanIsWellCoded(w, c, data);
    PlanReads(w, c, before, us, online, routes, Plan(w, c, data), lost);
    PlanReads(w, c, before, us, online, routes, Plan(w, c, data), NoLoss);
    NothingLost(BlocksStored(w, before, Plan(w, c, data)));
  }

  function NoLoss(gid: string): set<nat> {
    {}
  }

  lemma NothingLost(v: V.Store)
    ensures Lossy(v, NoLoss) == v
  {
    forall gid | gid in v.dirs
      ensures v.dirs[gid].shards - (set j | j in NoLoss(gid) :: ShardName(j)) == v.dirs[gid].shards
    {
    }
    assert Lossy(v, NoLoss).dirs == v.dirs;
  }

  // ---------- Other files ----------

  /** None of the items belongs to the group. */
  predicate Spares(items: seq<Item>, gid: string) {
    forall i :: 0 <= i < |items| ==> items[i].gid != gid
  }

  lemma {:induction false} ShardsSpare(w: World, v: V.Store, item: Item, block: nat, n: nat, gid: string)
    requires n <= |item.shards| && gid != item.gid
    ensures V.DirOf(ShardsStored(w, v, item, block, n), gid) == V.DirOf(v, gid)
  {
    if n == 0 {
    } else {
      ShardsSpare(w, v, item, block, n - 1, gid);
      OneShardSpares(ShardsStored(w, v, item, block, n - 1), item.gid, n - 1, item.shards[n - 1], item.counter,
                     Root(w.hash, item.shards), |item.shards|, w.clock(block, n - 1), gid);
    }
  }

  lemma OneShardSpares(v: V.Store, gid: string, index: nat, data: ByteString, counter: u64,
                       root: Digest, expected: nat, now: u64, other: string)
    requires other != gid
    ensures V.DirOf(V.Stored(v, gid, index, data, counter, root, expected, now).0, other) == V.DirOf(v, other)
  {
  }

  lemma {:induction false} BlocksSpare(w: World, v: V.Store, items: seq<Item>, gid: string)
    requires Spares(items, gid)
    ensures V.DirOf(BlocksStored(w, v, items), gid) == V.DirOf(v, gid)
  {
    if items == [] {
    } else {
      var n := |items| - 1;
      BlocksSpare(w, v, items[..n], gid);
      ShardsSpare(w, BlocksStored(w, v, items[..n]), items[n], n, |items[n].shards|, gid);
    }
  }

  lemma {:induction false} RoutesSpare(c: Config, us: R.WanPeer, online: seq<R.WanPeer>,
                                       routes: map<string, R.RouteEntry>, items: seq<Item>, gid: string)
    requires Spares(items, gid)
    ensures var all := Routed(c, us, online, routes, items);
            (gid in all <==> gid in routes) && (gid in routes ==> all[gid] == routes[gid])
  {
    if items == [] {
    } else {
      RoutesSpare(c, us, online, routes, items[..|items| - 1], gid);
    }
  }

  /** What a block reads as depends on the directory and the route of its group alone. */
  lemma SameDirSameRead(w: World, v: V.Store, v': V.Store, routes: map<string, R.RouteEntry>,
                        routes': map<string, R.RouteEntry>, gid: string, block: nat, lost: string -> set<nat>)
    requires V.DirOf(v', gid) == V.DirOf(v, gid)
    requires (gid in routes' <==> gid in routes) && (gid in routes ==> routes'[gid] == routes[gid])
    ensures ReadBlock(w, Lossy(v', lost), routes', gid, block) == ReadBlock(w, Lossy(v, lost), routes, gid, block)
  {
    LossyDir(v, gid, lost);
    LossyDir(v', gid, lost);
    if gid in routes {
      var total := routes[gid].totalShards;
      assert SlotsOf(Lossy(v', lost), gid, total) == SlotsOf(Lossy(v, lost), gid, total);
    }
  }

  lemma LossyDir(v: V.Store, gid: string, lost: string -> set<nat>)
    ensures V.DirOf(Lossy(v, lost), gid).shards ==
            V.DirOf(v, gid).shards - (set j | j in lost(gid) :: ShardName(j))
    ensures V.Mark(V.DirOf(Lossy(v, lost), gid)) == V.Mark(V.DirOf(v, gid))
  {
  }

  /** Storing a file leaves every other file as it was to read, whatever is lost of it. */
  lemma {:induction false} OtherFilesReadSame(w: World, c: Config, v: V.Store, us: R.WanPeer,
                                              online: seq<R.WanPeer>, routes: map<string, R.RouteEntry>,
                                              items: seq<Item>, groups: seq<string>, lost: string -> set<nat>)
    requires forall i :: 0 <= i < |groups| ==> Spares(items, groups[i])
    ensures ReadBlocks(w, Lossy(BlocksStored(w, v, items), lost), Routed(c, us, online, routes, items), groups)
            == ReadBlocks(w, Lossy(v, lost), routes, groups)
  {
    if groups == [] {
    } else {
      var n := |groups| - 1;
      OtherFilesReadSame(w, c, v, us, online, routes, items, groups[..n], lost);
      BlocksSpare(w, v, items, groups[n]);
      RoutesSpare(c, us, online, routes, items, groups[n]);
      SameDirSameRead(w, v, BlocksStored(w, v, items), routes, Routed(c, us, online, routes, items),
                      groups[n], n, lost);
    }
  }

  /** So a stored file stays as readable as it was when another one is stored into fresh groups:
      both in one vault, the first reads as ErasureIndependence says. */
  lemma {:induction false} EarlierFileReadsSame(w: World, c: Config, v: V.Store, us: R.WanPeer,
                                                online: seq<R.WanPeer>, routes: map<string, R.RouteEntry>,
                                                first: seq<Item>, next: seq<Item>, lost: string -> set<nat>)
    requires FreshGroups(v, first) && Storable(first) && FreshGroups(BlocksStored(w, v, first), next)
    ensures var v', routed := BlocksStored(w, v, first), Routed(c, us, online, routes, first);
            ReadBlocks(w, Lossy(BlocksStored(w, v', next), lost), Routed(c, us, online, routed, next), Groups(first))
            == ReadBlocks(w, Lossy(v', lost), routed, Groups(first))
  {
    PlanIsPut(w, v, first, |first|);
    assert first[..|first|] == first;
    forall i | 0 <= i < |first|
      ensures Spares(next, first[i].gid)
    {
      StoredIsNotFresh(BlocksStored(w, v, first), first[i], Root(w.hash, first[i].shards), next);
    }
    OtherFilesReadSame(w, c, BlocksStored(w, v, first), us, online, Routed(c, us, online, routes, first),
                       next, Groups(first), lost);
  }

  lemma StoredIsNotFresh(v: V.Store, item: Item, root: Digest, next: seq<Item>)
    requires IsStored(v, item, root) && FreshGroups(v, next)
    ensures Spares(next, item.gid)
  {
    forall i | 0 <= i < |next|
      ensures next[i].gid != item.gid
    {
      assert Unused(v, next[i].gid);
    }
  }

  // ---------- What comes back is not the file ----------

  /** The sealed block stands at the front of its joined shards, and padding and parity follow. */
  lemma SealedIsPrefix(w: World, c: Config, data: ByteString, i: nat)
    requires Usable(w, c) && i < BlockCount(data, c.blockSize)
    ensures var joined := Join(ItemFor(w, c, data, i).shards);
            Sealed(w, c, data, i) <= joined && |joined| > |Block(data, c.blockSize, i)|
  {
    var encrypted := Sealed(w, c, data, i);
    var pieces := DataShards(encrypted, c.k);
    assert |encrypted| == |Block(data, c.blockSize, i)| + 16;
    JoinAppend(pieces, w.codec.parity(pieces));
    JoinPieces(Padded(encrypted, c.k), ShardSize(encrypted, c.k), c.k);
  }

  /** The blocks of the file, one after the other, are shorter than what their shards join to. */
  lemma {:induction false} ReadBackIsLonger(w: World, c: Config, data: ByteString, n: nat)
    requires Usable(w, c) && n <= BlockCount(data, c.blockSize)
    ensures |AllShards(Plan(w, c, data)[..n])| >= |Join(Blocks(data, c.blockSize, n))| + n
  {
    var items, blocks := Plan(w, c, data), Blocks(data, c.blockSize, n);
    if n == 0 {
    } else {
      ReadBackIsLonger(w, c, data, n - 1);
      assert items[..n][..n - 1] == items[..n - 1];
      assert blocks[..n - 1] == Blocks(data, c.blockSize, n - 1);
      SealedIsPrefix(w, c, data, n - 1);
    }
  }

  /** Nothing read back is the file, except for the empty one. */
  lemma AllShardsAreNotTheFile(w: World, c: Config, data: ByteString)
    requires Usable(w, c)
    ensures AllShards(Plan(w, c, data)) == data <==> data == []
  {
    var items, n := Plan(w, c, data), BlockCount(data, c.blockSize);
    ReadBackIsLonger(w, c, data, n);
    BlocksPartition(data, c.blockSize);
    assert items[..n] == items;
    CeilDivBounds(|data|, c.blockSize);
    assert data == [] ==> items == [];
  }

  /** So storing a file and reading it back gives the file, after whatever loss, iff it is empty. */
  lemma {:induction false} ReadBackIsFile(w: World, c: Config, before: V.Store, us: R.WanPeer,
                                          online: seq<R.WanPeer>, routes: map<string, R.RouteEntry>,
                                          data: ByteString, lost: string -> set<nat>)
    requires Usable(w, c) && Fits(c, data) && PlausibleLoss(c, lost)
    requires FreshGroups(before, Plan(w, c, data))
    ensures var items := Plan(w, c, data);
            var v, routed := BlocksStored(w, before, items), Routed(c, us, online, routes, items);
            ReadBlocks(w, Lossy(v, lost), routed, Groups(items)) == Ok(data) <==> data == []
  {
    ErasureIndependence(w, c, before, us, online, routes, data, lost);
    AllShardsAreNotTheFile(w, c, data);
    EmptyIsCovered(w, c, lost);
  }

  lemma EmptyIsCovered(w: World, c: Config, lost: string -> set<nat>)
    requires 0 < c.blockSize
    ensures Covered(c.m, Plan(w, c, []), lost)
  {
    CeilDivUnique(0, c.blockSize, 0);
    assert |Plan(w, c, [])| == 0;
  }

  /** Routes live in memory only: with an empty table, as after a restart, no file of one block
      or more can be read, whatever the vault holds. */
  lemma {:induction false} NoRoutesNoFile(w: World, v: V.Store, groups: seq<string>)
    ensures ReadBlocks(w, v, map[], groups).Err? <==> groups != []
    ensures groups != [] ==> ReadBlocks(w, v, map[], groups) == Err(NoRoute(groups[0]))
  {
    if groups == [] {
    } else {
      assert groups[..1][..0] == [];
      assert ReadBlocks(w, v, map[], groups[..1]) == Err(NoRoute(groups[0]));
      FirstErrorStays(w, v, map[], groups, 1);
    }
  }
}
