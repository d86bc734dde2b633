/** The vault of src/vault.rs: shard groups on disk beside an in-memory cache of their
    metadata. File operations succeed and every operation is one step; the clock is a
    parameter. Serialising metadata and reading it back is the identity. */
module Vault {
  import opened Numerics
  import opened Wrappers
  import opened Bytes
  import opened Decimals
  import opened Merkle

  const W_SIZE: u64 := 128
  const NANOS: u64 := 1_000_000_000

  datatype Meta = Meta(
    vMax: u64,
    bitmask: u128,
    merkleRoot: Digest,
    expectedShards: nat,
    createdAt: u64,
    ttlSecs: u64
  )

  /** What a metadata file holds when it is read back. */
  datatype MetaFile = Parsed(meta: Meta) | Garbled

  /** The directory of one group; shard files are keyed by their names. */
  datatype GroupDir = GroupDir(
    seqFile: Option<string>,
    bitmaskFile: bool,
    rootFile: Option<Digest>,
    shards: map<string, ByteString>
  )

  const EMPTY_DIR := GroupDir(None, false, None, map[])

  datatype Store = Store(
    dirs: map<string, GroupDir>,
    metas: map<string, MetaFile>,
    cache: map<string, Meta>,
    ttlSecs: u64
  )

  datatype VaultError = ReplayDetected(counter: u64) | ShardNotFound(group: string, index: nat)

  datatype VaultShard = VaultShard(group: string, index: nat, data: ByteString, counter: u64)

  // ---------- The operations ----------

  function DirOf(v: Store, gid: string): GroupDir {
    if gid in v.dirs then v.dirs[gid] else EMPTY_DIR
  }

  /** The number in the counter file, zero if there is none. */
  function Mark(dir: GroupDir): u64 {
    if dir.seqFile.None? then 0
    else
      var parsed := Parse(dir.seqFile.value, U64_LIMIT);
      if parsed.Some? then parsed.value else 0
  }

  /** The two tests of `store_shard`, in their order; the addition wraps. */
  predicate Refuses(mark: u64, counter: u64) {
    counter <= WrapAdd(mark, W_SIZE) && counter <= SaturatingSub(mark, W_SIZE)
  }

  /** The group directory after an accepted store. */
  function StoredDir(dir: GroupDir, index: nat, data: ByteString, counter: u64, root: Digest): GroupDir {
    var mark := Mark(dir);
    GroupDir(if counter > mark then Some(Print(counter)) else dir.seqFile,
             counter > WrapAdd(mark, W_SIZE) || dir.bitmaskFile,
             if dir.rootFile.Some? then dir.rootFile else Some(root),
             dir.shards[ShardName(index) := data])
  }

  function StoredMeta(v: Store, gid: string, counter: u64, root: Digest, expected: nat, now: u64): Meta {
    Meta(Max(counter, Mark(DirOf(v, gid))), 0,
         if gid in v.cache then v.cache[gid].merkleRoot else root,
         expected, now, v.ttlSecs)
  }

  function Stored(v: Store, gid: string, index: nat, data: ByteString, counter: u64,
                  root: Digest, expected: nat, now: u64): (Store, Result<bool, VaultError>) {
    var dir := DirOf(v, gid);
    if Refuses(Mark(dir), counter) then
      (v.(dirs := v.dirs[gid := dir]), Err(ReplayDetected(counter)))
    else
      var meta := StoredMeta(v, gid, counter, root, expected, now);
      (v.(dirs := v.dirs[gid := StoredDir(dir, index, data, counter, root)],
          metas := v.metas[gid := Parsed(meta)],
          cache := v.cache[gid := meta]),
       Ok(true))
  }

  function Read(v: Store, gid: string, index: nat): Result<VaultShard, VaultError> {
    var dir := DirOf(v, gid);
    if ShardName(index) in dir.shards then
      Ok(VaultShard(gid, index, dir.shards[ShardName(index)], Mark(dir)))
    else Err(ShardNotFound(gid, index))
  }

  function Dropped(v: Store, gone: set<string>): Store {
    v.(dirs := v.dirs - gone, metas := v.metas - gone, cache := v.cache - gone)
  }

  function Deleted(v: Store, gid: string): Store {
    Dropped(v, {gid})
  }

  /** `secure_wipe_group` returns early, leaving metadata alone, if there is no directory. */
  function Wiped(v: Store, gid: string): Store {
    if gid in v.dirs then Deleted(v, gid) else v
  }

  predicate IsExpired(meta: Meta, now: u64) {
    SaturatingSub(now, meta.createdAt) > WrapMul(meta.ttlSecs, NANOS)
  }

  function ExpiredOf(groups: map<string, Meta>, now: u64): set<string> {
    set gid | gid in groups && IsExpired(groups[gid], now)
  }

  function Expired(v: Store, now: u64): set<string> {
    ExpiredOf(v.cache, now)
  }

  function Collected(v: Store, now: u64): Store {
    Dropped(v, Expired(v, now))
  }

  /** The cache that `open` builds from the metadata files. */
  function Recovered(metas: map<string, MetaFile>): map<string, Meta> {
    map gid | gid in metas && metas[gid].Parsed? :: metas[gid].meta
  }

  function Opened(dirs: map<string, GroupDir>, metas: map<string, MetaFile>, ttlSecs: u64): Store {
    Store(dirs, metas, Recovered(metas), ttlSecs)
  }

  // ---------- Listing ----------

  predicate Sorted(s: seq<nat>) {
    forall i, j :: 0 <= i < j < |s| ==> s[i] <= s[j]
  }

  function Insert(x: nat, s: seq<nat>): (r: seq<nat>)
    requires Sorted(s)
    ensures Sorted(r) && multiset(r) == multiset(s) + multiset{x}
  {
    if s == [] || s[|s| - 1] <= x then s + [x]
    else
      var last, front := s[|s| - 1], s[..|s| - 1];
      assert s == front + [last];
      var r := Insert(x, front);
      SameMembersBounded(r, front + [x], last);
      r + [last]
  }

  lemma SameMembersBounded(r: seq<nat>, s: seq<nat>, bound: nat)
    requires multiset(r) == multiset(s) && forall i :: 0 <= i < |s| ==> s[i] <= bound
    ensures forall i :: 0 <= i < |r| ==> r[i] <= bound
  {
    forall i | 0 <= i < |r|
      ensures r[i] <= bound
    {
      assert r[i] in multiset(s);
    }
  }

  /** `sort_unstable`. */
  function Sort(s: seq<nat>): (r: seq<nat>)
    ensures Sorted(r) && multiset(r) == multiset(s)
  {
    if s == [] then []
    else
      assert s == s[..|s| - 1] + [s[|s| - 1]];
      Insert(s[|s| - 1], Sort(s[..|s| - 1]))
  }

  /** The files of `names` that `list_shards` takes for shard `index`. */
  function Named(names: set<string>, index: nat): set<string> {
    set name | name in names && ShardIndex(name) == Some(index)
  }

  /** Each index as often as there are files read as it. */
  ghost predicate Counts(indices: seq<nat>, names: set<string>) {
    forall i: nat :: multiset(indices)[i] == |Named(names, i)|
  }

  ghost predicate IsListing(names: set<string>, indices: seq<nat>) {
    Sorted(indices) && Counts(indices, names)
  }

  lemma CountsOneMore(indices: seq<nat>, names: set<string>, name: string)
    requires Counts(indices, names) && name !in names
    ensures Counts(if ShardIndex(name).Some? then indices + [ShardIndex(name).value] else indices, names + {name})
  {
    forall i: nat
      ensures Named(names + {name}, i) == Named(names, i) + if ShardIndex(name) == Some(i) then {name} else {}
    {
    }
  }

  lemma DropNone(v: Store)
    ensures Dropped(v, {}) == v
  {
    var v' := Dropped(v, {});
    assert v'.dirs == v.dirs && v'.metas == v.metas && v'.cache == v.cache;
  }

  lemma ExpiredOneMore(groups: map<string, Meta>, now: u64, rest: set<string>, gid: string)
    requires gid in rest && rest <= groups.Keys
    ensures ExpiredOf(groups, now) - (rest - {gid}) ==
            (ExpiredOf(groups, now) - rest) + if IsExpired(groups[gid], now) then {gid} else {}
  {
  }

  lemma DropOneMore(v: Store, gone: set<string>, gid: string)
    ensures Deleted(Dropped(v, gone), gid) == Dropped(v, gone + {gid})
  {
    var v', v'' := Deleted(Dropped(v, gone), gid), Dropped(v, gone + {gid});
    assert v'.dirs == v''.dirs && v'.metas == v''.metas && v'.cache == v''.cache;
  }

  // ---------- The vault object ----------

  class Vault {
    var dirs: map<string, GroupDir>
    var metas: map<string, MetaFile>
    var cache: map<string, Meta>
    var ttlSecs: u64
    /** What each shard file and each root file held when a wipe removed it. */
    ghost var erased: map<(string, string), ByteString>
    ghost var erasedRoots: map<string, Digest>

    function State(): Store
      reads this
    {
      Store(dirs, metas, cache, ttlSecs)
    }

    /** Opens the vault on what is on disk. */
    constructor Open(dirs: map<string, GroupDir>, metas: map<string, MetaFile>, ttlSecs: u64)
      ensures State() == Opened(dirs, metas, ttlSecs)
    {
      this.dirs, this.metas, this.ttlSecs := dirs, metas, ttlSecs;
      new;
      var files := metas.Keys;
      cache := map[];
      while files != {}
        invariant files <= metas.Keys
        invariant this.dirs == dirs && this.metas == metas && this.ttlSecs == ttlSecs
        invariant cache == map gid | gid in metas && gid !in files && metas[gid].Parsed? :: metas[gid].meta
        decreases files
      {
        var gid :| gid in files;
        files := files - {gid};
        if metas[gid].Parsed? {
          cache := cache[gid := metas[gid].meta];
        }
      }
    }

    method StoreShard(gid: string, index: nat, data: ByteString, counter: u64, root: Digest,
                      expected: nat, now: u64)
      returns (r: Result<bool, VaultError>)
      modifies this
      ensures (State(), r) == Stored(old(State()), gid, index, data, counter, root, expected, now)
    {
      var dir := if gid in dirs then dirs[gid] else EMPTY_DIR;
      dirs := dirs[gid := dir];
      var mark := Mark(dir);
      if counter > WrapAdd(mark, W_SIZE) {
        dir := dir.(bitmaskFile := true);
      } else if counter <= SaturatingSub(mark, W_SIZE) {
        return Err(ReplayDetected(counter));
      }
      if counter > mark {
        dir := dir.(seqFile := Some(Print(counter)));
      }
      var expectedRoot := if gid in cache then cache[gid].merkleRoot else root;
      if dir.rootFile.None? {
        dir := dir.(rootFile := Some(root));
      }
      dir := dir.(shards := dir.shards[ShardName(index) := data]);
      dirs := dirs[gid := dir];
      assert dir == StoredDir(DirOf(old(State()), gid), index, data, counter, root);
      assert dirs == old(dirs)[gid := dir];
      var meta := Meta(Max(counter, mark), 0, expectedRoot, expected, now, ttlSecs);
      metas := metas[gid := Parsed(meta)];
      cache := cache[gid := meta];
      return Ok(true);
    }

    method ReadShard(gid: string, index: nat) returns (r: Result<VaultShard, VaultError>)
      ensures r == Read(State(), gid, index)
    {
      var dir := DirOf(State(), gid);
      if ShardName(index) !in dir.shards {
        return Err(ShardNotFound(gid, index));
      }
      return Ok(VaultShard(gid, index, dir.shards[ShardName(index)], Mark(dir)));
    }

    method ListShards(gid: string) returns (indices: seq<nat>)
      ensures IsListing(DirOf(State(), gid).shards.Keys, indices)
    {
      var all := DirOf(State(), gid).shards.Keys;
      indices := [];
      var rest := all;
      while rest != {}
        invariant rest <= all && Counts(indices, all - rest)
        decreases rest
      {
        var name :| name in rest;
        var index := ShardIndex(name);
        CountsOneMore(indices, all - rest, name);
        assert all - (rest - {name}) == all - rest + {name};
        rest := rest - {name};
        if index.Some? {
          indices := indices + [index.value];
        }
      }
      assert all - rest == all;
      indices := Sort(indices);
    }

    method DeleteGroup(gid: string)
      modifies this`dirs, this`metas, this`cache
      ensures State() == Deleted(old(State()), gid)
    {
      if gid in dirs {
        dirs := dirs - {gid};
      }
      if gid in metas {
        metas := metas - {gid};
      }
      cache := cache - {gid};
    }

    /** One pass over a shard file: zeros in place of its bytes. */
    method OverwriteShard(gid: string, name: string)
      requires gid in dirs && name in dirs[gid].shards
      modifies this`dirs
      ensures var dir := old(dirs)[gid];
              dirs == old(dirs)[gid := dir.(shards := dir.shards[name := Zeros(|dir.shards[name]|)])]
    {
      var dir := dirs[gid];
      dirs := dirs[gid := dir.(shards := dir.shards[name := Zeros(|dir.shards[name]|)])];
    }

    method RemoveShardFile(gid: string, name: string)
      requires gid in dirs && name in dirs[gid].shards
      modifies this`dirs, this`erased
      ensures var dir := old(dirs)[gid];
              && dirs == old(dirs)[gid := dir.(shards := dir.shards - {name})]
              && erased == old(erased)[(gid, name) := dir.shards[name]]
    {
      erased := erased[(gid, name) := dirs[gid].shards[name]];
      dirs := dirs[gid := dirs[gid].(shards := dirs[gid].shards - {name})];
    }

    method OverwriteRoot(gid: string)
      requires gid in dirs && dirs[gid].rootFile.Some?
      modifies this`dirs
      ensures dirs == old(dirs)[gid := old(dirs)[gid].(rootFile := Some(Zeros(32)))]
    {
      dirs := dirs[gid := dirs[gid].(rootFile := Some(Zeros(32)))];
    }

    method RemoveRootFile(gid: string)
      requires gid in dirs && dirs[gid].rootFile.Some?
      modifies this`dirs, this`erasedRoots
      ensures dirs == old(dirs)[gid := old(dirs)[gid].(rootFile := None)]
      ensures erasedRoots == old(erasedRoots)[gid := old(dirs)[gid].rootFile.value]
    {
      erasedRoots := erasedRoots[gid := dirs[gid].rootFile.value];
      dirs := dirs[gid := dirs[gid].(rootFile := None)];
    }

    /** Three passes over one shard file, and away with it. */
    method WipeShard(gid: string, name: string)
      requires gid in dirs && name in dirs[gid].shards
      modifies this`dirs, this`erased
      ensures var dir := old(dirs)[gid];
              && dirs == old(dirs)[gid := dir.(shards := dir.shards - {name})]
              && erased == old(erased)[(gid, name) := Zeros(|dir.shards[name]|)]
    {
      ghost var dir := dirs[gid];
      ghost var content, zeros := dir.shards[name], Zeros(|dir.shards[name]|);
      assert dir.shards[name := content] == dir.shards;
      assert dirs == dirs[gid := dir.(shards := dir.shards[name := content])];
      for pass := 0 to 3
        invariant dirs == old(dirs)[gid := dir.(shards := dir.shards[name := content])]
        invariant |content| == |zeros| && (0 < pass ==> content == zeros)
        invariant erased == old(erased)
      {
        OverwriteShard(gid, name);
        assert dir.shards[name := content][name := zeros] == dir.shards[name := zeros];
        content := zeros;
      }
      assert dirs[gid].shards - {name} == dir.shards - {name};
      RemoveShardFile(gid, name);
    }

    /** The same for the root file. */
    method WipeRoot(gid: string)
      requires gid in dirs && dirs[gid].rootFile.Some?
      modifies this`dirs, this`erasedRoots
      ensures dirs == old(dirs)[gid := old(dirs)[gid].(rootFile := None)]
      ensures erasedRoots == old(erasedRoots)[gid := Zeros(32)]
    {
      ghost var dir := dirs[gid];
      ghost var content: Digest := dir.rootFile.value;
      assert dirs == dirs[gid := dir.(rootFile := Some(content))];
      for pass := 0 to 3
        invariant dirs == old(dirs)[gid := dir.(rootFile := Some(content))]
        invariant 0 < pass ==> content == Zeros(32)
        invariant erasedRoots == old(erasedRoots)
      {
        OverwriteRoot(gid);
        content := Zeros(32);
      }
      RemoveRootFile(gid);
    }

    /** Every shard file and the root file are overwritten with zeros three times and removed,
        then the group goes: at its removal no file held anything but zeros. */
    method SecureWipeGroup(gid: string)
      modifies this
      ensures State() == Wiped(old(State()), gid)
      ensures gid in old(dirs) ==> forall name <- old(dirs)[gid].shards ::
                (gid, name) in erased && erased[(gid, name)] == Zeros(|old(dirs)[gid].shards[name]|)
      ensures gid in old(dirs) && old(dirs)[gid].rootFile.Some? ==>
                gid in erasedRoots && erasedRoots[gid] == Zeros(32)
    {
      if gid !in dirs {
        return;
      }
      ghost var dir := dirs[gid];
      var rest := dirs[gid].shards.Keys;
      while rest != {}
        invariant gid in dirs && rest == dirs[gid].shards.Keys <= dir.shards.Keys
        invariant dirs[gid] == dir.(shards := dirs[gid].shards)
        invariant forall name <- rest :: dirs[gid].shards[name] == dir.shards[name]
        invariant forall name <- dir.shards :: name !in rest ==>
                    (gid, name) in erased && erased[(gid, name)] == Zeros(|dir.shards[name]|)
        invariant dirs - {gid} == old(dirs) - {gid}
        invariant metas == old(metas) && cache == old(cache) && ttlSecs == old(ttlSecs)
        decreases rest
      {
        var name :| name in rest;
        WipeShard(gid, name);
        rest := rest - {name};
      }
      if dirs[gid].rootFile.Some? {
        WipeRoot(gid);
      }
      DeleteGroup(gid);
    }

    method GarbageCollect(now: u64) returns (collected: nat)
      modifies this
      ensures State() == Collected(old(State()), now)
      ensures collected == |Expired(old(State()), now)|
    {
      var groups := cache;
      var rest, gone := groups.Keys, {};
      ghost var before := State();
      DropNone(before);
      while rest != {}
        invariant rest <= groups.Keys && gone == ExpiredOf(groups, now) - rest
        invariant State() == Dropped(before, gone)
        decreases rest
      {
        var gid :| gid in rest;
        ExpiredOneMore(groups, now, rest, gid);
        rest := rest - {gid};
        var age := SaturatingSub(now, groups[gid].createdAt);
        var ttlNanos := WrapMul(groups[gid].ttlSecs, NANOS);
        if age > ttlNanos {
          DropOneMore(before, gone, gid);
          DeleteGroup(gid);
          gone := gone + {gid};
        }
      }
      assert gone == ExpiredOf(groups, now);
      collected := |gone|;
    }
  }
}
