/** Where a stored file is found again: the path taken apart by `store_file` (src/davfs.rs) and
    looked up by the directory (src/directory.rs). */
module StoredPaths {
  import opened Wrappers
  import opened Bytes
  import opened Paths
  import opened DavFs
  import opened Directory
  import M = DirectoryMap

  // ---------- Splitting and joining ----------

  lemma {:induction false} JoinExtended(c: char, parts: seq<string>)
    requires parts != []
    ensures JoinPath(Extended(c, parts)) == [c] + JoinPath(parts)
  {
    var n := |parts| - 1;
    if n == 0 {
      if c == '/' {
        assert ["", parts[0]][..1] == [""];
      }
    } else {
      JoinExtended(c, parts[..n]);
      var extended := Extended(c, parts);
      assert extended[..|extended| - 1] == Extended(c, parts[..n]);
      assert extended[|extended| - 1] == parts[n];
    }
  }

  /** Joining the parts of a path gives the path. */
  lemma {:induction false} JoinSplit(s: string)
    ensures JoinPath(Split(s)) == s
  {
    if s == "" {
    } else {
      JoinSplit(s[1..]);
      JoinExtended(s[0], Split(s[1..]));
      assert s == [s[0]] + s[1..];
    }
  }

  /** Parent and name put together are the path. */
  lemma ParentAndName(path: string)
    requires !Plain(path)
    ensures path == ParentOf(path) + "/" + NameOf(path)
  {
    JoinSplit(path);
    SplitLength(path);
  }

  // ---------- The entry of a stored file ----------

  /** What `store_file` hands to the directory. */
  function AddFor(path: string, items: seq<Item>, fileSize: nat, contentHash: ByteString, stamp: nat, now: nat): M.Op {
    M.AddOp(ParentOf(path), EntryFor(path, items, fileSize, contentHash, stamp), now)
  }

  /** A file stored at a path with a slash in it, and none at its ends, is found at that path iff
      the path has just two parts. Deeper paths are taken and never found. */
  lemma StoredIsFound(ops: seq<M.Op>, path: string, items: seq<Item>, fileSize: nat, contentHash: ByteString,
                      stamp: nat, now: nat)
    requires Normalize(path) == path && !Plain(path)
    requires M.Perform(M.Run(ops), AddFor(path, items, fileSize, contentHash, stamp, now)).Ok?
    ensures var add := AddFor(path, items, fileSize, contentHash, stamp, now);
            Resolve(M.Run(ops + [add]), path) == Some(add.entry) <==> |Split(path)| == 2
  {
    var add := AddFor(path, items, fileSize, contentHash, stamp, now);
    var parts := Split(path);
    SplitLength(path);
    M.ResolveRefines(ops + [add], path);
    if |parts| == 2 {
      ParentAndName(path);
      M.PartsNotEmpty(path);
      assert parts[..1] == [parts[0]];
      PlainNormalized(parts[0]);
      M.AddedIsFound(ops, add);
    }
  }

  /** A file stored at a bare name is found there, unless a directory up to the root's has a file
      of that name before: then that one is found. */
  lemma BareIsFound(ops: seq<M.Op>, path: string, items: seq<Item>, fileSize: nat, contentHash: ByteString,
                    stamp: nat, now: nat)
    requires path != "" && Plain(path)
    ensures var add := AddFor(path, items, fileSize, contentHash, stamp, now);
            var earlier := FileAnywhere(M.UpTo(M.Run(ops), ROOT_DIR), path);
            && M.Perform(M.Run(ops), add).Ok?
            && Resolve(M.Run(ops + [add]), path) == if earlier.Some? then earlier else Some(add.entry)
  {
    M.RootAddedIsFound(ops, AddFor(path, items, fileSize, contentHash, stamp, now));
  }
}
