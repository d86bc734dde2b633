/** Storing and reading back a file (src/davfs.rs): blocks, sealing, erasure coding, the vault,
    the routing table and the directory entry.

    What the daemon draws from outside is in `World`: block keys, the AEAD seal, the hash, the
    group identifiers derived from it, the erasure code and the clock. */
module DavFs {
  import opened Numerics
  import opened Wrappers
  import opened Bytes
  import opened Merkle
  import opened Erasure
  import opened Paths
  import V = Vault
  import R = Router
  import D = Directory

  type Key = ByteString

  datatype World = World(
    blockKey: nat -> Key,
    seal: (Key, u64, ByteString) -> ByteString,
    hash: Hash,
    groupId: (nat, ByteString) -> string,
    codec: Codec,
    clock: (nat, nat) -> u64
  )

  /** `rs_data_shards`, `rs_parity_shards`, `block_size`. */
  datatype Config = Config(k: nat, m: nat, blockSize: nat)

  /** Sealing appends a 16-byte tag (section 2.8 of RFC 8439). */
  ghost predicate SealAddsTag(w: World) {
    forall key, counter, plain :: |w.seal(key, counter, plain)| == |plain| + 16
  }

  /** What storing needs: with neither count zero, the crate must accept them. A zero count
      stores every block unsplit. */
  ghost predicate Storing(w: World, c: Config) {
    0 < c.blockSize && (c.k != 0 && c.m != 0 ==> IsCodec(w.codec, c.k, c.m)) && SealAddsTag(w)
  }

  /** What reading back needs. */
  ghost predicate Usable(w: World, c: Config) {
    0 < c.blockSize && IsCodec(w.codec, c.k, c.m) && SealAddsTag(w)
  }

  // ---------- Blocks ----------

  function BlockCount(data: ByteString, size: nat): nat
    requires 0 < size
  {
    CeilDiv(|data|, size)
  }

  function Block(data: ByteString, size: nat, i: nat): (block: ByteString)
    requires 0 < size && i < BlockCount(data, size)
    ensures 0 < |block| <= size
  {
    CeilDivPiece(|data|, size, i);
    var start := i * size;
    data[start..if start + size < |data| then start + size else |data|]
  }

  function Blocks(data: ByteString, size: nat, n: nat): (blocks: seq<ByteString>)
    requires 0 < size && n <= BlockCount(data, size)
    ensures |blocks| == n
  {
    seq(n, i requires 0 <= i < n => Block(data, size, i))
  }

  /** The part of the data before block `n`. */
  function Front(data: ByteString, size: nat, n: nat): ByteString
    requires 0 < size && n <= BlockCount(data, size)
  {
    if n < BlockCount(data, size) then (CeilDivPiece(|data|, size, n); data[..n * size]) else data
  }

  lemma {:induction false} BlocksJoin(data: ByteString, size: nat, n: nat)
    requires 0 < size && n <= BlockCount(data, size)
    ensures Join(Blocks(data, size, n)) == Front(data, size, n)
  {
    if n == 0 {
      CeilDivBounds(|data|, size);
    } else {
      BlocksJoin(data, size, n - 1);
      assert Blocks(data, size, n)[..n - 1] == Blocks(data, size, n - 1);
      FrontGrows(data, size, n - 1);
    }
  }

  lemma FrontGrows(data: ByteString, size: nat, i: nat)
    requires 0 < size && i < BlockCount(data, size)
    ensures Front(data, size, i) + Block(data, size, i) == Front(data, size, i + 1)
  {
    CeilDivPiece(|data|, size, i);
    var start := i * size;
    assert (i + 1) * size == start + size;
    if i + 1 < BlockCount(data, size) {
      assert data[..start] + data[start..start + size] == data[..start + size];
    } else {
      assert data[..start] + data[start..] == data;
    }
  }

  /** The blocks are the data, cut into ceil(len / size) pieces: joined they give it back, none
      is empty, and all but the last are full. */
  lemma {:induction false} BlocksPartition(data: ByteString, size: nat)
    requires 0 < size
    ensures Join(Blocks(data, size, BlockCount(data, size))) == data
    ensures forall i :: 0 <= i < BlockCount(data, size) ==> 0 < |Block(data, size, i)| <= size
    ensures forall i :: 0 <= i < BlockCount(data, size) - 1 ==> |Block(data, size, i)| == size
  {
    BlocksJoin(data, size, BlockCount(data, size));
    forall i | 0 <= i < BlockCount(data, size) - 1
      ensures |Block(data, size, i)| == size
    {
      CeilDivPiece(|data|, size, i);
    }
  }

  // ---------- What is stored for a block ----------

  /** `(block_idx as u64) + 1`. */
  function CounterOf(i: nat): u64 {
    (i + 1) % U64_LIMIT
  }

  /** One block on its way to the vault. */
  datatype Item = Item(gid: string, shards: seq<ByteString>, counter: u64)

  function Sealed(w: World, c: Config, data: ByteString, i: nat): ByteString
    requires 0 < c.blockSize && i < BlockCount(data, c.blockSize)
  {
    w.seal(w.blockKey(i), CounterOf(i), Block(data, c.blockSize, i))
  }

  function ItemFor(w: World, c: Config, data: ByteString, i: nat): Item
    requires 0 < c.blockSize && i < BlockCount(data, c.blockSize)
  {
    var encrypted := Sealed(w, c, data, i);
    Item(w.groupId(i, encrypted), Encoded(w.codec, encrypted, c.k, c.m), CounterOf(i))
  }

  /** All blocks of a file. */
  function Plan(w: World, c: Config, data: ByteString): (items: seq<Item>)
    requires 0 < c.blockSize
    ensures |items| == BlockCount(data, c.blockSize)
    ensures forall i :: 0 <= i < |items| ==> items[i] == ItemFor(w, c, data, i)
  {
    seq(BlockCount(data, c.blockSize),
        i requires 0 <= i < BlockCount(data, c.blockSize) => ItemFor(w, c, data, i))
  }

  function Groups(items: seq<Item>): (groups: seq<string>)
    ensures |groups| == |items|
    ensures forall i :: 0 <= i < |items| ==> groups[i] == items[i].gid
  {
    seq(|items|, i requires 0 <= i < |items| => items[i].gid)
  }

  /** A file that fits in memory is shorter than 2^64 - 1 bytes. */
  predicate Fits(c: Config, data: ByteString) {
    0 < c.blockSize && |data| + 1 < U64_LIMIT
  }

  /** So no block counter wraps. */
  lemma CountersPositive(c: Config, data: ByteString, i: nat)
    requires Fits(c, data) && i < BlockCount(data, c.blockSize)
    ensures CounterOf(i) == i + 1
  {
    CeilDivPiece(|data|, c.blockSize, i);
    MulMonotone(1, c.blockSize, i);
  }

  /** The shards of an item are a codeword. */
  ghost predicate IsCoded(w: World, c: Config, item: Item) {
    exists d :: |d| == c.k && Uniform(d) && item.shards == Codeword(w.codec, d)
  }

  lemma ItemIsCoded(w: World, c: Config, data: ByteString, i: nat)
    requires Usable(w, c) && i < BlockCount(data, c.blockSize)
    ensures IsCoded(w, c, ItemFor(w, c, data, i)) && |ItemFor(w, c, data, i).shards| == c.k + c.m
    ensures Sealed(w, c, data, i) != []
  {
    var encrypted := Sealed(w, c, data, i);
    assert |encrypted| == |Block(data, c.blockSize, i)| + 16;
    EncodedShape(w.codec, encrypted, c.k, c.m);
    DataShardsUniform(encrypted, c.k);
  }

  // ---------- The vault after storing ----------

  /** The first `n` shards of a block stored under its group. Refusals are only logged. */
  function ShardsStored(w: World, v: V.Store, item: Item, block: nat, n: nat): V.Store
    requires n <= |item.shards|
  {
    if n == 0 then v
    else V.Stored(ShardsStored(w, v, item, block, n - 1), item.gid, n - 1, item.shards[n - 1],
                  item.counter, Root(w.hash, item.shards), |item.shards|, w.clock(block, n - 1)).0
  }

  /** All blocks of a plan stored, in order. */
  function BlocksStored(w: World, v: V.Store, items: seq<Item>): V.Store {
    if items == [] then v
    else
      var n := |items| - 1;
      ShardsStored(w, BlocksStored(w, v, items[..n]), items[n], n, |items[n].shards|)
  }

  function RouteOf(c: Config, us: R.WanPeer, online: seq<R.WanPeer>, item: Item): R.RouteEntry {
    var total := |item.shards|;
    R.RouteEntry(item.gid, total, c.k, c.m, R.Placement(us, online, c.k, total))
  }

  function Routed(c: Config, us: R.WanPeer, online: seq<R.WanPeer>,
                  routes: map<string, R.RouteEntry>, items: seq<Item>): map<string, R.RouteEntry>
  {
    if items == [] then routes
    else
      var n := |items| - 1;
      Routed(c, us, online, routes, items[..n])[items[n].gid := RouteOf(c, us, online, items[n])]
  }

  // ---------- The directory entry ----------

  function JoinPath(parts: seq<string>): string {
    if parts == [] then "" else if |parts| == 1 then parts[0]
    else JoinPath(parts[..|parts| - 1]) + "/" + parts[|parts| - 1]
  }

  function ParentOf(path: string): string {
    if Plain(path) then "/" else var parts := Split(path); JoinPath(parts[..|parts| - 1])
  }

  function NameOf(path: string): string {
    if Plain(path) then path else var parts := Split(path); parts[|parts| - 1]
  }

  function EntryFor(path: string, items: seq<Item>, fileSize: nat, contentHash: ByteString, now: nat): D.FileEntry {
    D.FileEntry(NameOf(path), fileSize, contentHash, |items|, Groups(items), now, now, 420, 1)
  }

  // ---------- store_file ----------

  /** The entry is stamped with one reading of the clock, a new directory with a later one. */
  method StoreFile(vault: V.Vault, router: R.WanRouter, directory: D.EncryptedDirectory,
                   w: World, c: Config, path: string, data: ByteString, fileSize: nat,
                   contentHash: ByteString, stamp: nat, now: nat)
    returns (r: Result<(), D.DirectoryError>)
    requires Storing(w, c)
    modifies vault, router, directory
    ensures vault.State() == BlocksStored(w, old(vault.State()), Plan(w, c, data))
    ensures router.routes == Routed(c, router.us, R.Online(old(router.peers), old(router.health)),
                                    old(router.routes), Plan(w, c, data))
    ensures router.peers == old(router.peers) && router.health == old(router.health)
    ensures match D.Added(old(directory.tree), ParentOf(path),
                          EntryFor(path, Plan(w, c, data), fileSize, contentHash, stamp), now)
            case Ok(after) => r == Ok(()) && directory.tree == directory.disk == after
            case Err(e) => r == Err(e) && directory.tree == old(directory.tree)
                           && directory.disk == old(directory.disk)
  {
    var blockGroups := StoreBlocks(vault, router, w, c, data);
    var totalBlocks := BlockCount(data, c.blockSize);
    var entry := D.FileEntry(NameOf(path), fileSize, contentHash, totalBlocks, blockGroups, stamp, stamp, 420, 1);
    r := directory.AddFile(ParentOf(path), entry, now);
  }

  /** The loop over the blocks. */
  method StoreBlocks(vault: V.Vault, router: R.WanRouter, w: World, c: Config, data: ByteString)
    returns (blockGroups: seq<string>)
    requires Storing(w, c)
    modifies vault, router
    ensures blockGroups == Groups(Plan(w, c, data))
    ensures vault.State() == BlocksStored(w, old(vault.State()), Plan(w, c, data))
    ensures router.routes == Routed(c, router.us, R.Online(old(router.peers), old(router.health)),
                                    old(router.routes), Plan(w, c, data))
    ensures router.peers == old(router.peers) && router.health == old(router.health)
  {
    ghost var online, before, routes := R.Online(router.peers, router.health), vault.State(), router.routes;
    ghost var plan := Plan(w, c, data);
    blockGroups := [];
    for blockIdx := 0 to BlockCount(data, c.blockSize)
      invariant blockGroups == Groups(plan[..blockIdx])
      invariant vault.State() == BlocksStored(w, before, plan[..blockIdx])
      invariant router.routes == Routed(c, router.us, online, routes, plan[..blockIdx])
      invariant router.peers == old(router.peers) && router.health == old(router.health)
    {
      BlocksStep(w, before, plan, blockIdx);
      RoutesStep(c, router.us, online, routes, plan, blockIdx);
      GroupsStep(plan, blockIdx);
      var groupId := StoreOneBlock(vault, router, w, c, data, blockIdx);
      blockGroups := blockGroups + [groupId];
    }
    assert plan[..|plan|] == plan;
  }

  lemma BlocksStep(w: World, v: V.Store, items: seq<Item>, i: nat)
    requires i < |items|
    ensures BlocksStored(w, v, items[..i + 1]) ==
            ShardsStored(w, BlocksStored(w, v, items[..i]), items[i], i, |items[i].shards|)
  {
    assert items[..i + 1][..i] == items[..i];
  }

  lemma RoutesStep(c: Config, us: R.WanPeer, online: seq<R.WanPeer>, routes: map<string, R.RouteEntry>,
                   items: seq<Item>, i: nat)
    requires i < |items|
    ensures Routed(c, us, online, routes, items[..i + 1]) ==
            Routed(c, us, online, routes, items[..i])[items[i].gid := RouteOf(c, us, online, items[i])]
  {
    assert items[..i + 1][..i] == items[..i];
  }

  lemma GroupsStep(items: seq<Item>, i: nat)
    requires i < |items|
    ensures Groups(items[..i + 1]) == Groups(items[..i]) + [items[i].gid]
  {
  }

  /** One round of the loop: seal, encode, route, store. */
  method StoreOneBlock(vault: V.Vault, router: R.WanRouter, w: World, c: Config, data: ByteString, i: nat)
    returns (gid: string)
    requires Storing(w, c) && i < BlockCount(data, c.blockSize)
    modifies vault, router
    ensures gid == ItemFor(w, c, data, i).gid
    ensures vault.State() == ShardsStored(w, old(vault.State()), ItemFor(w, c, data, i), i,
                                          |ItemFor(w, c, data, i).shards|)
    ensures router.routes ==
            old(router.routes)[gid := RouteOf(c, router.us, R.Online(router.peers, router.health),
                                              ItemFor(w, c, data, i))]
    ensures router.peers == old(router.peers) && router.health == old(router.health)
  {
    var item := MakeItem(w, c, data, i);
    StoreItem(vault, router, w, c, item, i);
    gid := item.gid;
  }

  method StoreItem(vault: V.Vault, router: R.WanRouter, w: World, c: Config, item: Item, i: nat)
    modifies vault, router
    ensures vault.State() == ShardsStored(w, old(vault.State()), item, i, |item.shards|)
    ensures router.routes == old(router.routes)[
              item.gid := RouteOf(c, router.us, R.Online(router.peers, router.health), item)]
    ensures router.peers == old(router.peers) && router.health == old(router.health)
  {
    var root := MerkleRoot(w.hash, item.shards);
    var route := router.ComputeRoute(item.gid, |item.shards|, c.k, c.m);
    StoreShards(vault, w, item, i, root);
  }

  method MakeItem(w: World, c: Config, data: ByteString, i: nat) returns (item: Item)
    requires Storing(w, c) && i < BlockCount(data, c.blockSize)
    ensures item == ItemFor(w, c, data, i)
  {
    var counter := CounterOf(i);
    var encrypted := w.seal(w.blockKey(i), counter, Block(data, c.blockSize, i));
    assert |encrypted| == |Block(data, c.blockSize, i)| + 16;
    var shards := RsEncodeN(w.codec, encrypted, c.k, c.m);
    item := Item(w.groupId(i, encrypted), shards, counter);
  }

  /** The inner loop. Shards for other peers are pushed by a call that only logs. */
  method StoreShards(vault: V.Vault, w: World, item: Item, block: nat, root: Digest)
    requires root == Root(w.hash, item.shards)
    modifies vault
    ensures vault.State() == ShardsStored(w, old(vault.State()), item, block, |item.shards|)
  {
    for i := 0 to |item.shards|
      invariant vault.State() == ShardsStored(w, old(vault.State()), item, block, i)
    {
      var stored := vault.StoreShard(item.gid, i, item.shards[i], item.counter, root,
                                     |item.shards|, w.clock(block, i));
    }
  }

  // ---------- reconstruct_file ----------

  datatype ReadError = NoRoute(group: string) | RsFailed(block: nat)

  /** The shards the vault can deliver; fetching one from a peer always fails. */
  function SlotOf(v: V.Store, gid: string, i: nat): Option<ByteString> {
    var read := V.Read(v, gid, i);
    if read.Ok? then Some(read.value.data) else None
  }

  function SlotsOf(v: V.Store, gid: string, total: nat): Slots {
    seq(total, i requires 0 <= i < total => SlotOf(v, gid, i))
  }

  lemma SlotsGrow(v: V.Store, gid: string, n: nat)
    ensures SlotsOf(v, gid, n + 1) == SlotsOf(v, gid, n) + [SlotOf(v, gid, n)]
  {
  }

  /** All rebuilt shards of a block, parity included, one after the other. */
  function ReadBlock(w: World, v: V.Store, routes: map<string, R.RouteEntry>, gid: string, block: nat)
    : Result<ByteString, ReadError>
  {
    if gid !in routes then Err(NoRoute(gid))
    else
      var rebuilt := w.codec.rebuild(SlotsOf(v, gid, routes[gid].totalShards));
      if rebuilt.Ok? then Ok(Join(rebuilt.value)) else Err(RsFailed(block))
  }

  function ReadBlocks(w: World, v: V.Store, routes: map<string, R.RouteEntry>, groups: seq<string>)
    : Result<ByteString, ReadError>
  {
    if groups == [] then Ok([])
    else
      var n := |groups| - 1;
      var before := ReadBlocks(w, v, routes, groups[..n]);
      if before.Err? then before
      else
        var last := ReadBlock(w, v, routes, groups[n], n);
        if last.Err? then last else Ok(before.value + last.value)
  }

  method ReconstructFile(vault: V.Vault, router: R.WanRouter, w: World, file: D.FileEntry)
    returns (r: Result<ByteString, ReadError>)
    ensures r == ReadBlocks(w, vault.State(), router.routes, file.blockGroups)
  {
    var groups, bytes := file.blockGroups, [];
    for block := 0 to |groups|
      invariant ReadBlocks(w, vault.State(), router.routes, groups[..block]) == Ok(bytes)
    {
      assert groups[..block + 1][..block] == groups[..block];
      var gid := groups[block];
      if gid !in router.routes {
        FirstErrorStays(w, vault.State(), router.routes, groups, block + 1);
        return Err(NoRoute(gid));
      }
      var slots := ReadSlots(vault, gid, router.routes[gid].totalShards);
      var rebuilt := w.codec.rebuild(slots);
      if rebuilt.Err? {
        FirstErrorStays(w, vault.State(), router.routes, groups, block + 1);
        return Err(RsFailed(block));
      }
      bytes := bytes + Join(rebuilt.value);
    }
    assert groups[..|groups|] == groups;
    return Ok(bytes);
  }

  method ReadSlots(vault: V.Vault, gid: string, total: nat) returns (slots: Slots)
    ensures slots == SlotsOf(vault.State(), gid, total)
  {
    slots := [];
    for i := 0 to total
      invariant slots == SlotsOf(vault.State(), gid, i)
    {
      SlotsGrow(vault.State(), gid, i);
      var read := vault.ReadShard(gid, i);
      slots := slots + [if read.Ok? then Some(read.value.data) else None];
    }
  }

  lemma {:induction false} FirstErrorStays(w: World, v: V.Store, routes: map<string, R.RouteEntry>,
                                           groups: seq<string>, n: nat)
    requires n <= |groups| && ReadBlocks(w, v, routes, groups[..n]).Err?
    ensures ReadBlocks(w, v, routes, groups) == ReadBlocks(w, v, routes, groups[..n])
    decreases |groups|
  {
    if n < |groups| {
      assert groups[..|groups| - 1][..n] == groups[..n];
      FirstErrorStays(w, v, routes, groups[..|groups| - 1], n);
    } else {
      assert groups[..n] == groups;
    }
  }
}
