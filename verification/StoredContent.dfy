/** That what is stored is the file (src/davfs.rs): whoever holds the block keys gets the file back
    from the shards that are left, and from the bytes that `reconstruct_file` returns. */
module StoredContent {
  import opened Numerics
  import opened Wrappers
  import opened Bytes
  import opened Merkle
  import opened Erasure
  import opened DavFs
  import opened Paths
  import opened StoredFiles
  import opened StoredPaths
  import D = Directory
  import M = DirectoryMap
  import P = Placement
  import V = Vault
  import R = Router

  type Opener = (Key, u64, ByteString) -> ByteString

  /** Opening undoes sealing (section 2.8 of RFC 8439). */
  ghost predicate Opens(w: World, open: Opener) {
    forall key, counter, plain :: open(key, counter, w.seal(key, counter, plain)) == plain
  }

  // ---------- What a block is ----------

  /** The lengths of the blocks of a file: `size` each, and the rest for the last. */
  function BlockLens(total: nat, size: nat): (lens: seq<nat>)
    requires 0 < size
    ensures |lens| == CeilDiv(total, size)
  {
    seq(CeilDiv(total, size), i requires 0 <= i => LenOf(total, size, i))
  }

  function LenOf(total: nat, size: nat, i: nat): nat {
    var left := SaturatingSub(total, i * size); if left < size then left else size
  }

  /** Blocks are numbered without a gap up to the end of the file, and no further. */
  lemma CountSpelledOut(w: World, c: Config, data: ByteString)
    requires 0 < c.blockSize
    ensures var n := |Plan(w, c, data)|;
            && n == |BlockLens(|data|, c.blockSize)|
            && |data| <= n * c.blockSize
            && (data == [] <==> n == 0)
            && (0 < n ==> (n - 1) * c.blockSize < |data|)
  {
    var n := BlockCount(data, c.blockSize);
    CeilDivBounds(|data|, c.blockSize);
    if 0 < n {
      CeilDivPiece(|data|, c.blockSize, n - 1);
    }
  }

  lemma BlockIsSlice(data: ByteString, size: nat, i: nat)
    requires 0 < size && i < BlockCount(data, size)
    ensures i * size < |data| && i * size + LenOf(|data|, size, i) <= |data|
    ensures Block(data, size, i) == data[i * size..i * size + LenOf(|data|, size, i)]
    ensures |Block(data, size, i)| == BlockLens(|data|, size)[i]
  {
    CeilDivPiece(|data|, size, i);
  }

  /** Block `i` goes to the vault as this: the slice of the file at `i * size`, sealed with its own
      key under the number `i + 1`, encoded, and filed under the name made of `i` and the sealed
      bytes. */
  lemma ItemSpelledOut(w: World, c: Config, data: ByteString, i: nat)
    requires Fits(c, data) && i < |Plan(w, c, data)|
    ensures i + 1 < U64_LIMIT && i * c.blockSize + LenOf(|data|, c.blockSize, i) <= |data|
    ensures var plain := data[i * c.blockSize..i * c.blockSize + LenOf(|data|, c.blockSize, i)];
            var sealed := w.seal(w.blockKey(i), i + 1, plain);
            Plan(w, c, data)[i] == Item(w.groupId(i, sealed), Encoded(w.codec, sealed, c.k, c.m), i + 1)
  {
    CountersPositive(c, data, i);
    BlockIsSlice(data, c.blockSize, i);
    FewBlocks(w, c, data);
  }

  lemma FewBlocks(w: World, c: Config, data: ByteString)
    requires Fits(c, data)
    ensures |Plan(w, c, data)| < U64_LIMIT
  {
    var n := |Plan(w, c, data)|;
    if 0 < n {
      CeilDivPiece(|data|, c.blockSize, n - 1);
      MulMonotone(1, c.blockSize, n - 1);
    }
  }

  // ---------- Opening what is stored ----------

  function FirstOf(s: ByteString, n: nat): ByteString {
    if n <= |s| then s[..n] else s
  }

  /** Of each block what stands in front, its length and 16 bytes more, opened with the key of the
      block under its number plus one; all of it joined. */
  function OpenedFile(w: World, open: Opener, lens: seq<nat>, joined: seq<ByteString>): ByteString
    requires |lens| == |joined| < U64_LIMIT
  {
    if lens == [] then []
    else
      var n := |lens| - 1;
      OpenedFile(w, open, lens[..n], joined[..n]) + open(w.blockKey(n), n + 1, FirstOf(joined[n], lens[n] + 16))
  }

  /** Each of these begins with a block sealed under its number plus one. */
  ghost predicate Sealing(w: World, blocks: seq<ByteString>, joined: seq<ByteString>)
    requires |blocks| == |joined| < U64_LIMIT
  {
    forall i :: 0 <= i < |blocks| ==> w.seal(w.blockKey(i), i + 1, blocks[i]) <= joined[i]
  }

  predicate AreLens(blocks: seq<ByteString>, lens: seq<nat>) {
    |lens| == |blocks| && forall i :: 0 <= i < |blocks| ==> |blocks[i]| == lens[i]
  }

  lemma FrontOpens(w: World, open: Opener, i: nat, block: ByteString, joined: ByteString)
    requires Opens(w, open) && SealAddsTag(w) && i + 1 < U64_LIMIT
    requires w.seal(w.blockKey(i), i + 1, block) <= joined
    ensures open(w.blockKey(i), i + 1, FirstOf(joined, |block| + 16)) == block
  {
    var sealed := w.seal(w.blockKey(i), i + 1, block);
    assert |sealed| == |block| + 16;
    assert joined[..|sealed|] == sealed;
  }

  lemma {:induction false} OpensToJoin(w: World, open: Opener, lens: seq<nat>, joined: seq<ByteString>,
                                       blocks: seq<ByteString>)
    requires Opens(w, open) && SealAddsTag(w) && |blocks| == |joined| < U64_LIMIT
    requires AreLens(blocks, lens) && Sealing(w, blocks, joined)
    ensures OpenedFile(w, open, lens, joined) == Join(blocks)
  {
    if blocks == [] {
    } else {
      var n := |blocks| - 1;
      OpensToJoin(w, open, lens[..n], joined[..n], blocks[..n]);
      FrontOpens(w, open, n, blocks[n], joined[n]);
    }
  }

  /** What every block begins with. */
  ghost predicate HoldSealed(w: World, c: Config, data: ByteString, joined: seq<ByteString>)
    requires 0 < c.blockSize
  {
    |joined| == BlockCount(data, c.blockSize)
    && forall i :: 0 <= i < |joined| ==> Sealed(w, c, data, i) <= joined[i]
  }

  lemma OpensToFile(w: World, c: Config, data: ByteString, open: Opener, joined: seq<ByteString>)
    requires SealAddsTag(w) && Fits(c, data) && Opens(w, open) && HoldSealed(w, c, data, joined)
    ensures |joined| == |BlockLens(|data|, c.blockSize)| < U64_LIMIT
    ensures OpenedFile(w, open, BlockLens(|data|, c.blockSize), joined) == data
  {
    var blocks := Blocks(data, c.blockSize, |joined|);
    FewBlocks(w, c, data);
    forall i | 0 <= i < |joined|
      ensures |blocks[i]| == BlockLens(|data|, c.blockSize)[i]
      ensures w.seal(w.blockKey(i), i + 1, blocks[i]) <= joined[i]
    {
      BlockIsSlice(data, c.blockSize, i);
      CountersPositive(c, data, i);
    }
    OpensToJoin(w, open, BlockLens(|data|, c.blockSize), joined, blocks);
    BlocksPartition(data, c.blockSize);
  }

  // ---------- From the shards ----------

  /** The joined data shards. */
  function DataOf(c: Config, shards: seq<ByteString>): ByteString {
    if c.k <= |shards| then Join(shards[..c.k]) else []
  }

  function DataOfAll(c: Config, items: seq<Item>): (joined: seq<ByteString>)
    ensures |joined| == |items|
  {
    seq(|items|, i requires 0 <= i < |items| => DataOf(c, items[i].shards))
  }

  lemma SealedInData(w: World, c: Config, data: ByteString, i: nat)
    requires Usable(w, c) && i < |Plan(w, c, data)|
    ensures Sealed(w, c, data, i) <= DataOf(c, Plan(w, c, data)[i].shards)
  {
    DataComeFirst(w.codec, Sealed(w, c, data, i), c.k, c.m);
  }

  /** The data shards of every block, cut to the sealed length, opened under the block's key and
      number and joined, are the file. */
  lemma ShardsOpenToFile(w: World, c: Config, data: ByteString, open: Opener)
    requires Usable(w, c) && Fits(c, data) && Opens(w, open)
    ensures var joined := DataOfAll(c, Plan(w, c, data));
            && |joined| == |BlockLens(|data|, c.blockSize)| < U64_LIMIT
            && OpenedFile(w, open, BlockLens(|data|, c.blockSize), joined) == data
  {
    var joined := DataOfAll(c, Plan(w, c, data));
    forall i | 0 <= i < |joined|
      ensures Sealed(w, c, data, i) <= joined[i]
    {
      SealedInData(w, c, data, i);
    }
    OpensToFile(w, c, data, open, joined);
  }

  // ---------- From the vault, by the directory entry ----------

  /** The entry that `store_file` makes: name, sizes, hash and times, permissions 644 in octal,
      version 1, and the groups of its blocks in order. */
  lemma EntrySpelledOut(path: string, items: seq<Item>, fileSize: nat, contentHash: ByteString, stamp: nat)
    ensures var entry := EntryFor(path, items, fileSize, contentHash, stamp);
            && entry.filename == NameOf(path) && entry.size == fileSize && entry.contentHash == contentHash
            && entry.blockCount == |entry.blockGroups| == |items|
            && (forall i :: 0 <= i < |items| ==> entry.blockGroups[i] == items[i].gid)
            && entry.createdAt == entry.modifiedAt == stamp
            && entry.mode == 6 * 64 + 4 * 8 + 4 && entry.version == 1
  {
  }

  /** What the shards of a group in the vault give, if enough are left. */
  function GroupData(w: World, c: Config, v: V.Store, gid: string): ByteString {
    var rebuilt := w.codec.rebuild(SlotsOf(v, gid, c.k + c.m));
    if rebuilt.Ok? then DataOf(c, rebuilt.value) else []
  }

  function GroupsData(w: World, c: Config, v: V.Store, groups: seq<string>): (joined: seq<ByteString>)
    ensures |joined| == |groups|
  {
    seq(|groups|, i requires 0 <= i < |groups| => GroupData(w, c, v, groups[i]))
  }

  lemma SlotsGiveData(w: World, c: Config, v: V.Store, gid: string, shards: seq<ByteString>)
    requires w.codec.rebuild(SlotsOf(v, gid, c.k + c.m)) == Ok(shards)
    ensures GroupData(w, c, v, gid) == DataOf(c, shards)
  {
  }

  lemma GroupGivesData(w: World, c: Config, v: V.Store, item: Item, root: Digest, lost: string -> set<nat>)
    requires IsStored(v, item, root) && |item.shards| == c.k + c.m
    requires w.codec.rebuild(Without(item.shards, lost(item.gid))) == Ok(item.shards)
    ensures GroupData(w, c, Lossy(v, lost), item.gid) == DataOf(c, item.shards)
  {
    LossySlots(v, item, root, lost);
    SlotsGiveData(w, c, Lossy(v, lost), item.gid, item.shards);
  }

  /** A stored file is in the vault: after any loss that the parity covers, the groups of its
      directory entry, rebuilt, cut to the sealed length, opened and joined, are the file. */
  lemma {:induction false} VaultOpensToFile(w: World, c: Config, before: V.Store, path: string, data: ByteString,
                                            fileSize: nat, contentHash: ByteString, stamp: nat,
                                            lost: string -> set<nat>, open: Opener)
    requires Usable(w, c) && Fits(c, data) && Opens(w, open) && PlausibleLoss(c, lost)
    requires FreshGroups(before, Plan(w, c, data)) && Covered(c.m, Plan(w, c, data), lost)
    ensures var v := BlocksStored(w, before, Plan(w, c, data));
            var entry := EntryFor(path, Plan(w, c, data), fileSize, contentHash, stamp);
            var joined := GroupsData(w, c, Lossy(v, lost), entry.blockGroups);
            && |joined| == |BlockLens(|data|, c.blockSize)| < U64_LIMIT
            && OpenedFile(w, open, BlockLens(|data|, c.blockSize), joined) == data
  {
    var items := Plan(w, c, data);
    var v := BlocksStored(w, before, items);
    PlanIsWellCoded(w, c, data);
    CodedIsStorable(w, c, items);
    PlanGivesData(w, c, before, items, lost);
    ShardsOpenToFile(w, c, data, open);
    assert GroupsData(w, c, Lossy(v, lost), Groups(items)) == DataOfAll(c, items);
  }

  /** So whoever looks up a path of two parts after the file was stored there finds an entry whose
      groups give the file. */
  lemma LookedUpOpensToFile(w: World, c: Config, before: V.Store, ops: seq<M.Op>, path: string, data: ByteString,
                            fileSize: nat, contentHash: ByteString, stamp: nat, now: nat,
                            lost: string -> set<nat>, open: Opener)
    requires Usable(w, c) && Fits(c, data) && Opens(w, open) && PlausibleLoss(c, lost)
    requires FreshGroups(before, Plan(w, c, data)) && Covered(c.m, Plan(w, c, data), lost)
    requires Normalize(path) == path && |Split(path)| == 2
    requires M.Perform(M.Run(ops), AddFor(path, Plan(w, c, data), fileSize, contentHash, stamp, now)).Ok?
    ensures var add := AddFor(path, Plan(w, c, data), fileSize, contentHash, stamp, now);
            var found := D.Resolve(M.Run(ops + [add]), path);
            && found.Some?
            && var joined := GroupsData(w, c, Lossy(BlocksStored(w, before, Plan(w, c, data)), lost),
                                        found.value.blockGroups);
               && |joined| == |BlockLens(|data|, c.blockSize)| < U64_LIMIT
               && OpenedFile(w, open, BlockLens(|data|, c.blockSize), joined) == data
  {
    SplitLength(path);
    StoredIsFound(ops, path, Plan(w, c, data), fileSize, contentHash, stamp, now);
    VaultOpensToFile(w, c, before, path, data, fileSize, contentHash, stamp, lost, open);
  }

  lemma PlanGivesData(w: World, c: Config, before: V.Store, items: seq<Item>, lost: string -> set<nat>)
    requires IsCodec(w.codec, c.k, c.m) && PlausibleLoss(c, lost) && WellCoded(w, c, items) && Storable(items)
    requires FreshGroups(before, items) && Covered(c.m, items, lost)
    ensures forall i :: 0 <= i < |items| ==>
              GroupData(w, c, Lossy(BlocksStored(w, before, items), lost), items[i].gid) == DataOf(c, items[i].shards)
  {
    PlanIsPut(w, before, items, |items|);
    assert items[..|items|] == items;
    forall i | 0 <= i < |items|
      ensures GroupData(w, c, Lossy(BlocksStored(w, before, items), lost), items[i].gid)
              == DataOf(c, items[i].shards)
    {
      CodedLossBound(w, c, items[i], lost(items[i].gid));
      GroupGivesData(w, c, BlocksStored(w, before, items), items[i], Root(w.hash, items[i].shards), lost);
    }
  }

  // ---------- From the bytes that are read back ----------

  /** Bytes cut into pieces of these lengths, from the last to the first. */
  function Cut(bytes: ByteString, lens: seq<nat>): (pieces: seq<ByteString>)
    ensures |pieces| == |lens|
    decreases |lens|
  {
    if lens == [] then []
    else
      var at := SaturatingSub(|bytes|, lens[|lens| - 1]);
      Cut(bytes[..at], lens[..|lens| - 1]) + [bytes[at..]]
  }

  lemma {:induction false} CutJoined(pieces: seq<ByteString>, lens: seq<nat>)
    requires AreLens(pieces, lens)
    ensures Cut(Join(pieces), lens) == pieces
  {
    if pieces == [] {
    } else {
      var n := |pieces| - 1;
      var front, last := Join(pieces[..n]), pieces[n];
      assert Join(pieces) == front + last;
      CutJoined(pieces[..n], lens[..n]);
      assert (front + last)[..|front|] == front && (front + last)[|front|..] == last;
      assert pieces == pieces[..n] + [last];
    }
  }

  /** The lengths of all shards of each block together: the sealed block is 16 bytes longer than the
      block and is cut into `k` pieces, rounded up. */
  function ChunkLen(c: Config, len: nat): nat
    requires 0 < c.k
  {
    (c.k + c.m) * CeilDiv(len + 16, c.k)
  }

  function ChunkLens(c: Config, total: nat): (lens: seq<nat>)
    requires 0 < c.blockSize && 0 < c.k
    ensures |lens| == |BlockLens(total, c.blockSize)|
  {
    var lens := BlockLens(total, c.blockSize);
    seq(|lens|, i requires 0 <= i < |lens| => ChunkLen(c, lens[i]))
  }

  lemma {:induction false} JoinLength(shards: seq<ByteString>, size: nat)
    requires forall i :: 0 <= i < |shards| ==> |shards[i]| == size
    ensures |Join(shards)| == |shards| * size
  {
    if shards == [] {
    } else {
      var n := |shards| - 1;
      JoinLength(shards[..n], size);
      assert n * size + size == (n + 1) * size;
    }
  }

  lemma EncodedLength(codec: Codec, sealed: ByteString, k: nat, m: nat)
    requires IsCodec(codec, k, m) && sealed != []
    ensures |Join(Encoded(codec, sealed, k, m))| == (k + m) * CeilDiv(|sealed|, k)
  {
    EncodedShape(codec, sealed, k, m);
    JoinLength(Encoded(codec, sealed, k, m), ShardSize(sealed, k));
  }

  lemma ChunkLength(w: World, c: Config, data: ByteString, i: nat)
    requires Usable(w, c) && i < |Plan(w, c, data)|
    ensures |Join(Plan(w, c, data)[i].shards)| == ChunkLens(c, |data|)[i]
  {
    var sealed := Sealed(w, c, data, i);
    BlockIsSlice(data, c.blockSize, i);
    assert |sealed| == BlockLens(|data|, c.blockSize)[i] + 16;
    EncodedLength(w.codec, sealed, c.k, c.m);
  }

  function JoinsOf(items: seq<Item>): (joins: seq<ByteString>)
    ensures |joins| == |items|
  {
    seq(|items|, i requires 0 <= i < |items| => Join(items[i].shards))
  }

  lemma {:induction false} AllShardsAreJoins(items: seq<Item>)
    ensures AllShards(items) == Join(JoinsOf(items))
  {
    if items == [] {
    } else {
      var n := |items| - 1;
      AllShardsAreJoins(items[..n]);
      assert JoinsOf(items)[..n] == JoinsOf(items[..n]);
    }
  }

  /** And it is in what `reconstruct_file` returns: cut into chunks, each chunk cut to the sealed
      length, opened and joined, these bytes are the file. */
  lemma {:induction false} ReadBackOpensToFile(w: World, c: Config, before: V.Store, us: R.WanPeer,
                                               online: seq<R.WanPeer>, routes: map<string, R.RouteEntry>,
                                               data: ByteString, lost: string -> set<nat>, open: Opener)
    requires Usable(w, c) && Fits(c, data) && Opens(w, open) && PlausibleLoss(c, lost)
    requires FreshGroups(before, Plan(w, c, data)) && Covered(c.m, Plan(w, c, data), lost)
    ensures var items, lens := Plan(w, c, data), BlockLens(|data|, c.blockSize);
            var v, routed := BlocksStored(w, before, items), Routed(c, us, online, routes, items);
            var read := ReadBlocks(w, Lossy(v, lost), routed, Groups(items));
            && read.Ok? && |lens| < U64_LIMIT
            && OpenedFile(w, open, lens, Cut(read.value, ChunkLens(c, |data|))) == data
  {
    ErasureIndependence(w, c, before, us, online, routes, data, lost);
    AllShardsOpenToFile(w, c, data, open);
  }

  lemma AllShardsOpenToFile(w: World, c: Config, data: ByteString, open: Opener)
    requires Usable(w, c) && Fits(c, data) && Opens(w, open)
    ensures var lens := BlockLens(|data|, c.blockSize);
            && |lens| < U64_LIMIT
            && OpenedFile(w, open, lens, Cut(AllShards(Plan(w, c, data)), ChunkLens(c, |data|))) == data
  {
    var items := Plan(w, c, data);
    forall i | 0 <= i < |items|
      ensures Sealed(w, c, data, i) <= JoinsOf(items)[i] && |JoinsOf(items)[i]| == ChunkLens(c, |data|)[i]
    {
      SealedIsPrefix(w, c, data, i);
      ChunkLength(w, c, data, i);
    }
    AllShardsAreJoins(items);
    CutJoined(JoinsOf(items), ChunkLens(c, |data|));
    OpensToFile(w, c, data, open, JoinsOf(items));
  }

  // ---------- What else is kept of a block ----------

  lemma {:induction false} ShardsKeepLifetime(w: World, v: V.Store, item: Item, block: nat, n: nat)
    requires n <= |item.shards|
    ensures ShardsStored(w, v, item, block, n).ttlSecs == v.ttlSecs
  {
    if n == 0 {
    } else {
      ShardsKeepLifetime(w, v, item, block, n - 1);
    }
  }

  lemma {:induction false} BlocksKeepLifetime(w: World, v: V.Store, items: seq<Item>)
    ensures BlocksStored(w, v, items).ttlSecs == v.ttlSecs
  {
    if items == [] {
    } else {
      var n := |items| - 1;
      BlocksKeepLifetime(w, v, items[..n]);
      ShardsKeepLifetime(w, BlocksStored(w, v, items[..n]), items[n], n, |items[n].shards|);
    }
  }

  /** The metadata of an item after its last shard, which is number `|item.shards| - 1`. */
  function MetaOf(w: World, item: Item, block: nat, ttlSecs: u64): V.Meta
    requires item.shards != []
  {
    V.Meta(item.counter, 0, Root(w.hash, item.shards), |item.shards|, w.clock(block, |item.shards| - 1), ttlSecs)
  }

  predicate HasMeta(v: V.Store, gid: string, meta: V.Meta) {
    gid in v.cache && v.cache[gid] == meta
  }

  /** The metadata of a group follow its last store. */
  lemma NextMeta(v: V.Store, item: Item, root: Digest, n: nat, now: u64)
    requires n < |item.shards| && 0 < item.counter && PartlyStored(v, item, root, n)
    ensures HasMeta(V.Stored(v, item.gid, n, item.shards[n], item.counter, root, |item.shards|, now).0, item.gid,
                    V.Meta(item.counter, 0, root, |item.shards|, now, v.ttlSecs))
  {
    NextShardStored(v, item, root, n, now);
  }

  lemma BlockHasMeta(w: World, v: V.Store, item: Item, block: nat)
    requires item.shards != [] && 0 < item.counter && Unused(v, item.gid)
    ensures HasMeta(ShardsStored(w, v, item, block, |item.shards|), item.gid, MetaOf(w, item, block, v.ttlSecs))
  {
    var n := |item.shards| - 1;
    ShardsArePut(w, v, item, block, n);
    ShardsKeepLifetime(w, v, item, block, n);
    NextMeta(ShardsStored(w, v, item, block, n), item, Root(w.hash, item.shards), n, w.clock(block, n));
  }

  lemma OtherMetaStays(w: World, v: V.Store, item: Item, block: nat, gid: string, meta: V.Meta)
    requires item.shards != [] && 0 < item.counter && Unused(v, item.gid) && gid != item.gid && HasMeta(v, gid, meta)
    ensures HasMeta(ShardsStored(w, v, item, block, |item.shards|), gid, meta)
  {
    var after := ShardsStored(w, v, item, block, |item.shards|);
    ShardsArePut(w, v, item, block, |item.shards|);
    OthersKeptStored(v, after, item.gid, gid);
  }

  lemma {:induction false} StillFresh(w: World, v: V.Store, items: seq<Item>, n: nat)
    requires FreshGroups(v, items) && Storable(items) && n < |items|
    ensures Unused(BlocksStored(w, v, items[..n]), items[n].gid)
    ensures items[n].shards != [] && 0 < items[n].counter
  {
    PlanIsPut(w, v, items, n);
  }

  lemma MetaAtLast(w: World, v: V.Store, items: seq<Item>, n: nat)
    requires FreshGroups(v, items) && Storable(items) && n < |items|
    ensures HasMeta(BlocksStored(w, v, items[..n + 1]), items[n].gid, MetaOf(w, items[n], n, v.ttlSecs))
  {
    StillFresh(w, v, items, n);
    BlocksStep(w, v, items, n);
    BlocksKeepLifetime(w, v, items[..n]);
    BlockHasMeta(w, BlocksStored(w, v, items[..n]), items[n], n);
  }

  lemma MetaStays(w: World, v: V.Store, items: seq<Item>, n: nat, gid: string, meta: V.Meta)
    requires FreshGroups(v, items) && Storable(items) && n < |items| && gid != items[n].gid
    requires HasMeta(BlocksStored(w, v, items[..n]), gid, meta)
    ensures HasMeta(BlocksStored(w, v, items[..n + 1]), gid, meta)
  {
    StillFresh(w, v, items, n);
    BlocksStep(w, v, items, n);
    OtherMetaStays(w, BlocksStored(w, v, items[..n]), items[n], n, gid, meta);
  }

  /** After a file is stored the metadata of block `i` are those of its last shard: number, root,
      number of shards, and the time and lifetime that count for collection. */
  lemma MetaSpelledOut(w: World, v: V.Store, items: seq<Item>, i: nat)
    requires FreshGroups(v, items) && Storable(items) && i < |items|
    ensures HasMeta(BlocksStored(w, v, items), items[i].gid, MetaOf(w, items[i], i, v.ttlSecs))
  {
    var gid, meta := items[i].gid, MetaOf(w, items[i], i, v.ttlSecs);
    MetaAtLast(w, v, items, i);
    for n := i + 1 to |items|
      invariant HasMeta(BlocksStored(w, v, items[..n]), gid, meta)
    {
      MetaStays(w, v, items, n, gid, meta);
    }
    assert items[..|items|] == items;
  }

  lemma {:induction false} RoutesSpelledOut(c: Config, us: R.WanPeer, online: seq<R.WanPeer>,
                                            routes: map<string, R.RouteEntry>, items: seq<Item>, i: nat)
    requires i < |items| && forall j :: 0 <= j < |items| ==> |items[j].shards| == c.k + c.m
    ensures var gid, all := items[i].gid, Routed(c, us, online, routes, items);
            gid in all
            && all[gid] == R.RouteEntry(gid, c.k + c.m, c.k, c.m, R.Placement(us, online, c.k, c.k + c.m))
  {
    var n := |items| - 1;
    if items[n].gid == items[i].gid {
    } else {
      RoutesSpelledOut(c, us, online, routes, items[..n], i);
    }
  }

  lemma ItemSurvivesLosses(c: Config, us: R.WanPeer, peers: seq<R.WanPeer>, health: R.Health,
                           routes: map<string, R.RouteEntry>, items: seq<Item>, i: nat, lost: seq<nat>)
    requires 1 <= c.k && i < |items| && forall j :: 0 <= j < |items| ==> |items[j].shards| == c.k + c.m
    requires R.Online(peers, health) != [] && P.DistinctNames(us, R.Online(peers, health))
    requires P.SomeOf(R.Online(peers, health), lost)
    ensures var online := R.Online(peers, health);
            R.CanReconstruct(us.nickname, P.WithoutPeers(health, online, lost),
                             Routed(c, us, online, routes, items), items[i].gid)
            <==> P.TotalLoad(c.k, c.m, |online|, lost) <= c.m
  {
    var all := Routed(c, us, R.Online(peers, health), routes, items);
    RoutesSpelledOut(c, us, R.Online(peers, health), routes, items, i);
    P.SurvivesLosses(us, peers, health, items[i].gid, c.k, c.m, lost, all);
  }

  /** A stored block can be reconstructed after peers have gone iff the loads of these, at the time
      it was stored, come to no more than the parity. */
  lemma {:induction false} StoredSurvivesLosses(w: World, c: Config, us: R.WanPeer, peers: seq<R.WanPeer>,
                                                health: R.Health, routes: map<string, R.RouteEntry>,
                                                data: ByteString, i: nat, lost: seq<nat>)
    requires Usable(w, c) && Fits(c, data) && i < |Plan(w, c, data)|
    requires R.Online(peers, health) != [] && P.DistinctNames(us, R.Online(peers, health))
    requires P.SomeOf(R.Online(peers, health), lost)
    ensures var online, items := R.Online(peers, health), Plan(w, c, data);
            R.CanReconstruct(us.nickname, P.WithoutPeers(health, online, lost),
                             Routed(c, us, online, routes, items), items[i].gid)
            <==> P.TotalLoad(c.k, c.m, |online|, lost) <= c.m
  {
    PlanIsWellCoded(w, c, data);
    ItemSurvivesLosses(c, us, peers, health, routes, Plan(w, c, data), i, lost);
  }
}
