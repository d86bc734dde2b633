/** What every run of vault operations keeps (src/vault.rs): cache and disk tell the same
    story, and the story is the history of accepted stores. */
module VaultRuns {
  import opened Numerics
  import opened Wrappers
  import opened Bytes
  import opened Decimals
  import opened Merkle
  import opened Vault

  // ---------- Runs ----------

  datatype Op =
    | StoreOp(gid: string, index: nat, data: ByteString, counter: u64, root: Digest, expected: nat, now: u64)
    | DeleteOp(gid: string)
    | WipeOp(gid: string)
    | CollectOp(now: u64)
    | ReopenOp(ttlSecs: u64)

  function Apply(v: Store, op: Op): Store {
    match op
    case StoreOp(gid, index, data, counter, root, expected, now) =>
      Stored(v, gid, index, data, counter, root, expected, now).0
    case DeleteOp(gid) => Deleted(v, gid)
    case WipeOp(gid) => Wiped(v, gid)
    case CollectOp(now) => Collected(v, now)
    case ReopenOp(ttlSecs) => Opened(v.dirs, v.metas, ttlSecs)
  }

  function Run(v: Store, ops: seq<Op>): Store {
    if ops == [] then v else Apply(Run(v, ops[..|ops| - 1]), ops[|ops| - 1])
  }

  function Empty(ttlSecs: u64): Store {
    Store(map[], map[], map[], ttlSecs)
  }

  // ---------- Cache and disk agree ----------

  ghost predicate Agrees(v: Store) {
    && v.metas == (map gid | gid in v.cache :: Parsed(v.cache[gid]))
    && (forall gid <- v.cache ::
          && gid in v.dirs
          && v.dirs[gid].seqFile == Some(Print(v.cache[gid].vMax))
          && v.dirs[gid].rootFile == Some(v.cache[gid].merkleRoot))
    && (forall gid <- v.dirs :: gid !in v.cache ==> v.dirs[gid] == EMPTY_DIR)
  }

  /** In an agreeing state the counter file is the cached high-water mark. */
  lemma MarkIsCached(v: Store, gid: string)
    requires Agrees(v)
    ensures Mark(DirOf(v, gid)) == if gid in v.cache then v.cache[gid].vMax else 0
  {
    if gid in v.cache {
      PrintParse(v.cache[gid].vMax, U64_LIMIT);
    }
  }

  /** Opening the vault again on its own files gives back the cache. */
  lemma ReopenRecovers(v: Store)
    requires Agrees(v)
    ensures Opened(v.dirs, v.metas, v.ttlSecs) == v
  {
    assert Recovered(v.metas) == v.cache;
  }

  /** Wiping securely and deleting end in the same state. */
  lemma WipeIsDelete(v: Store, gid: string)
    requires Agrees(v)
    ensures Wiped(v, gid) == Deleted(v, gid)
  {
    if gid !in v.dirs {
      assert v.dirs - {gid} == v.dirs && v.metas - {gid} == v.metas && v.cache - {gid} == v.cache;
    }
  }

  /** In whatever state, they do so iff there is a directory or nothing is known of the group: a
      wipe without a directory leaves metadata alone. */
  lemma WipeIsDeleteIff(v: Store, gid: string)
    ensures Wiped(v, gid) == Deleted(v, gid) <==> gid in v.dirs || (gid !in v.metas && gid !in v.cache)
  {
    if gid !in v.dirs {
      assert v.dirs - {gid} == v.dirs;
      assert gid in v.metas <==> v.metas - {gid} != v.metas;
      assert gid in v.cache <==> v.cache - {gid} != v.cache;
    }
  }

  lemma StoreAgrees(v: Store, op: Op)
    requires Agrees(v) && op.StoreOp?
    ensures Agrees(Apply(v, op))
  {
    var gid, v' := op.gid, Apply(v, op);
    MarkIsCached(v, gid);
    if !Refuses(Mark(DirOf(v, gid)), op.counter) {
      assert v'.metas == (map g | g in v'.cache :: Parsed(v'.cache[g]));
      assert v'.dirs[gid].seqFile == Some(Print(v'.cache[gid].vMax));
    }
  }

  lemma RemovalAgrees(v: Store, gone: set<string>)
    requires Agrees(v)
    ensures Agrees(Dropped(v, gone))
  {
  }

  lemma ApplyAgrees(v: Store, op: Op)
    requires Agrees(v)
    ensures Agrees(Apply(v, op))
  {
    match op
    case StoreOp(_, _, _, _, _, _, _) => StoreAgrees(v, op);
    case DeleteOp(gid) => RemovalAgrees(v, {gid});
    case WipeOp(gid) =>
      WipeIsDelete(v, gid);
      RemovalAgrees(v, {gid});
    case CollectOp(now) => RemovalAgrees(v, Expired(v, now));
    case ReopenOp(ttlSecs) => ReopenRecovers(v);
  }

  // ---------- The history ----------

  /** The time to live that new groups get: that of the last opening. */
  function Lifetime(ttlSecs: u64, ops: seq<Op>): u64 {
    if ops == [] then ttlSecs
    else
      var last := ops[|ops| - 1];
      if last.ReopenOp? then last.ttlSecs else Lifetime(ttlSecs, ops[..|ops| - 1])
  }

  /** What a run leaves of each group, told from the calls alone: its largest accepted counter,
      the root of its first accepted store since it was created or last removed, and the count,
      time and lifetime of its last accepted store. */
  function History(ttlSecs: u64, ops: seq<Op>): map<string, Meta> {
    if ops == [] then map[]
    else
      var before := ops[..|ops| - 1];
      Noted(History(ttlSecs, before), Lifetime(ttlSecs, before), ops[|ops| - 1])
  }

  function Noted(history: map<string, Meta>, ttlSecs: u64, op: Op): map<string, Meta> {
    match op
    case StoreOp(gid, _, _, counter, root, expected, now) =>
      var top := if gid in history then history[gid].vMax else 0;
      if Refuses(top, counter) then history
      else
        var first := if gid in history then history[gid].merkleRoot else root;
        history[gid := Meta(Max(top, counter), 0, first, expected, now, ttlSecs)]
    case DeleteOp(gid) => history - {gid}
    case WipeOp(gid) => history - {gid}
    case CollectOp(now) => history - ExpiredOf(history, now)
    case ReopenOp(_) => history
  }

  lemma StepTells(v: Store, op: Op)
    requires Agrees(v)
    ensures Apply(v, op).cache == Noted(v.cache, v.ttlSecs, op)
    ensures Apply(v, op).ttlSecs == if op.ReopenOp? then op.ttlSecs else v.ttlSecs
  {
    match op
    case StoreOp(gid, _, _, _, _, _, _) => MarkIsCached(v, gid);
    case DeleteOp(_) =>
    case WipeOp(gid) => WipeIsDelete(v, gid);
    case CollectOp(_) =>
    case ReopenOp(_) => ReopenRecovers(v);
  }

  /** In every reachable state the cache is the history, and the disk agrees with it: the counter
      file holds the largest accepted counter and `merkle_root.bin` the first accepted root. */
  lemma {:induction false} RunsAgree(ttlSecs: u64, ops: seq<Op>)
    ensures Agrees(Run(Empty(ttlSecs), ops))
    ensures Run(Empty(ttlSecs), ops).cache == History(ttlSecs, ops)
    ensures Run(Empty(ttlSecs), ops).ttlSecs == Lifetime(ttlSecs, ops)
  {
    if ops == [] {
    } else {
      var before, op := ops[..|ops| - 1], ops[|ops| - 1];
      RunsAgree(ttlSecs, before);
      ApplyAgrees(Run(Empty(ttlSecs), before), op);
      StepTells(Run(Empty(ttlSecs), before), op);
    }
  }

  // ---------- The shards ----------

  type Shards = map<(string, nat), ByteString>

  /** The data of the last accepted store of each shard since its group was created or last
      removed, told from the calls alone. */
  function Contents(ttlSecs: u64, ops: seq<Op>): Shards {
    if ops == [] then map[]
    else
      var before := ops[..|ops| - 1];
      ContentsAfter(Contents(ttlSecs, before), History(ttlSecs, before), ops[|ops| - 1])
  }

  function ContentsAfter(contents: Shards, history: map<string, Meta>, op: Op): Shards {
    match op
    case StoreOp(gid, index, data, counter, _, _, _) =>
      if Refuses(if gid in history then history[gid].vMax else 0, counter) then contents
      else contents[(gid, index) := data]
    case DeleteOp(gid) => Outside(contents, {gid})
    case WipeOp(gid) => Outside(contents, {gid})
    case CollectOp(now) => Outside(contents, ExpiredOf(history, now))
    case ReopenOp(_) => contents
  }

  function Outside(contents: Shards, gone: set<string>): Shards {
    map key | key in contents && key.0 !in gone :: contents[key]
  }

  /** The file of this shard is there iff it should be, with the data it should have. */
  predicate IsKept(v: Store, contents: Shards, gid: string, index: nat) {
    var shards := DirOf(v, gid).shards;
    && (ShardName(index) in shards <==> (gid, index) in contents)
    && ((gid, index) in contents ==> shards[ShardName(index)] == contents[(gid, index)])
  }

  lemma StoreKeepsShard(v: Store, contents: Shards, op: Op, gid: string, index: nat)
    requires op.StoreOp? && Agrees(v) && IsKept(v, contents, gid, index)
    ensures IsKept(Apply(v, op), ContentsAfter(contents, v.cache, op), gid, index)
  {
    MarkIsCached(v, op.gid);
    if ShardName(index) == ShardName(op.index) {
      ShardNamesDiffer(index, op.index);
    }
  }

  lemma StepKeepsShard(v: Store, contents: Shards, op: Op, gid: string, index: nat)
    requires Agrees(v) && IsKept(v, contents, gid, index)
    ensures IsKept(Apply(v, op), ContentsAfter(contents, v.cache, op), gid, index)
  {
    match op
    case StoreOp(_, _, _, _, _, _, _) => StoreKeepsShard(v, contents, op, gid, index);
    case DeleteOp(_) =>
    case WipeOp(g) => WipeIsDelete(v, g);
    case CollectOp(_) =>
    case ReopenOp(_) =>
  }

  lemma {:induction false} RunsKeepShards(ttlSecs: u64, ops: seq<Op>, gid: string, index: nat)
    ensures IsKept(Run(Empty(ttlSecs), ops), Contents(ttlSecs, ops), gid, index)
  {
    if ops == [] {
    } else {
      var before := ops[..|ops| - 1];
      RunsAgree(ttlSecs, before);
      RunsKeepShards(ttlSecs, before, gid, index);
      StepKeepsShard(Run(Empty(ttlSecs), before), Contents(ttlSecs, before), ops[|ops| - 1], gid, index);
    }
  }

  /** A shard outlives its group's history in no state. */
  lemma {:induction false} ContentsHaveHistory(ttlSecs: u64, ops: seq<Op>, gid: string, index: nat)
    ensures (gid, index) in Contents(ttlSecs, ops) ==> gid in History(ttlSecs, ops)
  {
    if ops == [] {
    } else {
      ContentsHaveHistory(ttlSecs, ops[..|ops| - 1], gid, index);
    }
  }

  /** After every run `read_shard` gives the data of the last accepted store of that shard since
      its group was created or last removed, with the largest accepted counter of the group, and
      nothing for any other shard. */
  lemma {:induction false} ReadsAreLastStored(ttlSecs: u64, ops: seq<Op>, gid: string, index: nat)
    ensures var contents, history := Contents(ttlSecs, ops), History(ttlSecs, ops);
            ((gid, index) in contents ==> gid in history) &&
            Read(Run(Empty(ttlSecs), ops), gid, index) ==
            if (gid, index) in contents
            then Ok(VaultShard(gid, index, contents[(gid, index)], history[gid].vMax))
            else Err(ShardNotFound(gid, index))
  {
    RunsAgree(ttlSecs, ops);
    RunsKeepShards(ttlSecs, ops, gid, index);
    ContentsHaveHistory(ttlSecs, ops, gid, index);
    MarkIsCached(Run(Empty(ttlSecs), ops), gid);
  }

  /** So a restart at any moment loses nothing. */
  lemma {:induction false} RestartIsHarmless(ttlSecs: u64, ops: seq<Op>)
    ensures var v := Run(Empty(ttlSecs), ops);
            Opened(v.dirs, v.metas, v.ttlSecs) == v
  {
    RunsAgree(ttlSecs, ops);
    ReopenRecovers(Run(Empty(ttlSecs), ops));
  }

  /** What opening finds: every metadata file that parses, and no other. */
  lemma OpenedSpelledOut(dirs: map<string, GroupDir>, metas: map<string, MetaFile>, ttlSecs: u64, gid: string)
    ensures var v := Opened(dirs, metas, ttlSecs);
            && v.dirs == dirs && v.metas == metas && v.ttlSecs == ttlSecs
            && (gid in v.cache <==> gid in metas && metas[gid].Parsed?)
            && (gid in v.cache ==> metas[gid] == Parsed(v.cache[gid]))
  {
  }

  /** The window file appears when a counter lies more than 128 above the mark, and stays. */
  lemma WindowFileAppears(v: Store, gid: string, index: nat, data: ByteString, counter: u64,
                          root: Digest, expected: nat, now: u64)
    requires Mark(DirOf(v, gid)) < 0x1_0000_0000_0000_0000 - 128
    ensures DirOf(Stored(v, gid, index, data, counter, root, expected, now).0, gid).bitmaskFile <==>
            DirOf(v, gid).bitmaskFile || counter > Mark(DirOf(v, gid)) + 128
  {
  }

  /** A counter file that is missing or does not parse counts as zero; a decimal number counts. */
  lemma MarkSpelledOut(dir: GroupDir, n: u64)
    ensures dir.seqFile == None ==> Mark(dir) == 0
    ensures dir.seqFile == Some(Print(n)) ==> Mark(dir) == n
    ensures dir.seqFile == Some("") ==> Mark(dir) == 0
  {
    PrintParse(n, U64_LIMIT);
  }

  // ---------- Which counters the vault takes ----------

  predicate AboveWindow(mark: u64, counter: u64) {
    0 < counter && mark < counter + 128
  }

  /** The test refuses exactly the counters below the window as long as the mark is 128 away
      from the end of u64; from there on the addition wraps and counter 128 gets through. */
  lemma RefusalIsExact(mark: u64)
    ensures (forall counter: u64 :: Refuses(mark, counter) <==> !AboveWindow(mark, counter))
            <==> mark < 0x1_0000_0000_0000_0000 - 128
  {
    if mark >= 0x1_0000_0000_0000_0000 - 128 {
      assert !Refuses(mark, 128) && !AboveWindow(mark, 128);
    }
  }

  /** From there on it refuses just the counters up to the wrapped sum. */
  lemma WrappedRefusal(mark: u64, counter: u64)
    requires mark >= 0x1_0000_0000_0000_0000 - 128
    ensures Refuses(mark, counter) <==> counter <= mark + 128 - 0x1_0000_0000_0000_0000
  {
  }

  /** A refused store answers with its counter and leaves everything as it was, but for an empty
      directory where the group had none. */
  lemma RefusalSpelledOut(v: Store, gid: string, index: nat, data: ByteString, counter: u64,
                          root: Digest, expected: nat, now: u64)
    requires Refuses(Mark(DirOf(v, gid)), counter)
    ensures var (v', r) := Stored(v, gid, index, data, counter, root, expected, now);
            && r == Err(ReplayDetected(counter))
            && v'.metas == v.metas && v'.cache == v.cache && v'.ttlSecs == v.ttlSecs
            && gid in v'.dirs && v'.dirs - {gid} == v.dirs - {gid}
            && v'.dirs[gid] == if gid in v.dirs then v.dirs[gid] else GroupDir(None, false, None, map[])
  {
  }

  // ---------- Garbage collection ----------

  /** Older than its time to live, in seconds of 1,000,000,000 nanoseconds and without overflow. */
  predicate Overdue(meta: Meta, now: u64) {
    now > meta.createdAt + meta.ttlSecs * 1_000_000_000
  }

  /** `meta` with another creation time. */
  function CreatedAt(meta: Meta, created: u64): Meta {
    meta.(createdAt := created)
  }

  /** The age test is right at all times exactly when the time to live fits u64 nanoseconds. */
  lemma ExpiryIsExact(meta: Meta)
    ensures (forall created: u64, now: u64 ::
               IsExpired(CreatedAt(meta, created), now) <==> Overdue(CreatedAt(meta, created), now))
            <==> meta.ttlSecs * 1_000_000_000 < 0x1_0000_0000_0000_0000
  {
    var ttl := meta.ttlSecs * NANOS;
    if ttl < U64_LIMIT {
      assert WrapMul(meta.ttlSecs, NANOS) == ttl;
    } else {
      WrappedIsEven(meta.ttlSecs);
      var young := CreatedAt(meta, 0);
      assert IsExpired(young, U64_LIMIT - 1) && !Overdue(young, U64_LIMIT - 1);
    }
  }

  lemma WrappedIsEven(secs: u64)
    ensures WrapMul(secs, NANOS) < U64_LIMIT - 1
  {
    var half, limit := secs * 500_000_000, U64_LIMIT / 2;
    assert secs * NANOS == 2 * half;
    QuotientUnique(2 * half, U64_LIMIT, half / limit, 2 * (half % limit));
  }

  /** Collection removes exactly the overdue groups, from cache, metadata files and shard
      directories, and leaves every other group as it was. */
  lemma CollectionIsExact(v: Store, now: u64)
    requires forall gid <- v.cache :: v.cache[gid].ttlSecs * 1_000_000_000 < 0x1_0000_0000_0000_0000
    ensures forall gid <- v.cache ::
              var v' := Collected(v, now);
              if Overdue(v.cache[gid], now) then
                gid !in v'.cache && gid !in v'.metas && gid !in v'.dirs
              else
                && gid in v'.cache && v'.cache[gid] == v.cache[gid]
                && (gid in v.metas ==> gid in v'.metas && v'.metas[gid] == v.metas[gid])
                && (gid in v.dirs ==> gid in v'.dirs && v'.dirs[gid] == v.dirs[gid])
    ensures forall gid <- v.dirs :: gid !in v.cache ==>
              gid in Collected(v, now).dirs && Collected(v, now).dirs[gid] == v.dirs[gid]
    ensures |Collected(v, now).cache| + |Expired(v, now)| == |v.cache|
  {
    forall gid | gid in v.cache
      ensures gid in Expired(v, now) <==> Overdue(v.cache[gid], now)
    {
      ExpiryIsExact(v.cache[gid]);
      assert v.cache[gid] == CreatedAt(v.cache[gid], v.cache[gid].createdAt);
    }
    assert Collected(v, now).cache.Keys == v.cache.Keys - Expired(v, now);
    assert |Collected(v, now).cache| == |Collected(v, now).cache.Keys|;
    assert |v.cache| == |v.cache.Keys|;
  }
}
