/** The directory tree of src/directory.rs: a list of directories, each a list of files, that
    is meant to serve as a map from paths to entries. */
module Directory {
  import opened Wrappers
  import opened Bytes
  import opened Paths

  datatype FileEntry = FileEntry(
    filename: string,
    size: nat,
    contentHash: ByteString,
    blockCount: nat,
    blockGroups: seq<string>,
    createdAt: nat,
    modifiedAt: nat,
    mode: nat,
    version: nat
  )

  datatype DirEntry = DirEntry(name: string, subdirs: seq<string>, files: seq<FileEntry>, createdAt: nat)

  type Tree = seq<DirEntry>

  datatype DirectoryError = PathNotFound(path: string) | PathExists(path: string)

  const ROOT_DIR := "_root"

  // ---------- Searching ----------

  /** First directory of that name, or the number of directories. */
  function FindDir(tree: Tree, name: string): (i: nat)
    ensures i <= |tree|
    ensures i < |tree| ==> tree[i].name == name
    ensures forall j :: 0 <= j < i ==> tree[j].name != name
  {
    if tree == [] || tree[0].name == name then 0 else 1 + FindDir(tree[1..], name)
  }

  /** First file of that name, or the number of files. */
  function FindFile(files: seq<FileEntry>, name: string): (i: nat)
    ensures i <= |files|
    ensures i < |files| ==> files[i].filename == name
    ensures forall j :: 0 <= j < i ==> files[j].filename != name
  {
    if files == [] || files[0].filename == name then 0 else 1 + FindFile(files[1..], name)
  }

  function FileIn(dir: DirEntry, name: string): Option<FileEntry> {
    var i := FindFile(dir.files, name);
    if i < |dir.files| then Some(dir.files[i]) else None
  }

  /** The first file of that name in any directory: how a path without a slash is resolved. */
  function FileAnywhere(tree: Tree, name: string): Option<FileEntry> {
    if tree == [] then None
    else if FileIn(tree[0], name).Some? then FileIn(tree[0], name)
    else FileAnywhere(tree[1..], name)
  }

  // ---------- The operations ----------

  /** Follows the directory parts of a path. Below the first part only a directory that lists
      the next one among its subdirectories is left. */
  function Walk(tree: Tree, current: Option<DirEntry>, parts: seq<string>): Option<Option<DirEntry>>
    decreases |parts|
  {
    if parts == [] then Some(current)
    else if current.Some? && parts[0] !in current.value.subdirs then None
    else
      var i := FindDir(tree, parts[0]);
      if i < |tree| then Walk(tree, Some(tree[i]), parts[1..]) else None
  }

  function Resolve(tree: Tree, path: string): Option<FileEntry> {
    var normalized := Normalize(path);
    if normalized == "" then None
    else
      var parts := Split(normalized);
      var filename := parts[|parts| - 1];
      match Walk(tree, None, parts[..|parts| - 1])
      case None => None
      case Some(None) => FileAnywhere(tree, filename)
      case Some(Some(dir)) => FileIn(dir, filename)
  }

  predicate IsRootParent(parent: string) {
    parent == "" || parent == "/"
  }

  /** Where `add_file` puts an entry: the pseudo directory for the root, else the whole trimmed
      parent path as one name. */
  function AddDir(parent: string): string {
    if IsRootParent(parent) then ROOT_DIR else Normalize(parent)
  }

  function Pushed(tree: Tree, name: string, entry: FileEntry, now: nat): Tree {
    var i := FindDir(tree, name);
    if i < |tree| then tree[i := tree[i].(files := tree[i].files + [entry])]
    else tree + [DirEntry(name, [], [entry], now)]
  }

  /** The root takes any entry, every other directory refuses a second file of one name. */
  function Added(tree: Tree, parent: string, entry: FileEntry, now: nat): Result<Tree, DirectoryError> {
    var name := AddDir(parent);
    var i := FindDir(tree, name);
    if !IsRootParent(parent) && i < |tree| && FileIn(tree[i], entry.filename).Some? then
      Err(PathExists(entry.filename))
    else Ok(Pushed(tree, name, entry, now))
  }

  /** Which entry `remove_file` removes: only the first and the last part of the path count. */
  function RemoveKey(path: string): (string, string)
    requires Normalize(path) != ""
  {
    var parts := Split(Normalize(path));
    (if |parts| > 1 then parts[0] else ROOT_DIR, parts[|parts| - 1])
  }

  function Dropped(files: seq<FileEntry>, i: nat): seq<FileEntry>
    requires i < |files|
  {
    files[..i] + files[i + 1..]
  }

  function Removed(tree: Tree, path: string): Result<Tree, DirectoryError> {
    if Normalize(path) == "" then Err(PathNotFound(path))
    else
      var (name, filename) := RemoveKey(path);
      var i := FindDir(tree, name);
      if i == |tree| then Err(PathNotFound(path))
      else
        var j := FindFile(tree[i].files, filename);
        if j == |tree[i].files| then Err(PathNotFound(path))
        else Ok(tree[i := tree[i].(files := Dropped(tree[i].files, j))])
  }

  function FileCount(tree: Tree): nat {
    if tree == [] then 0 else FileCount(tree[..|tree| - 1]) + |tree[|tree| - 1].files|
  }

  // ---------- The directory object ----------

  /** The shared tree and what was last flushed. Sealing and opening the database file is the
      identity on trees; what concurrent callers see is the subject of DirectoryFlush.dfy. */
  class EncryptedDirectory {
    var tree: Tree
    var disk: Tree

    /** A missing or unreadable database starts empty. */
    constructor Open(database: Option<Tree>)
      ensures tree == (if database.Some? then database.value else [])
      ensures disk == tree
    {
      tree := if database.Some? then database.value else [];
      disk := if database.Some? then database.value else [];
    }

    method Flush()
      modifies this
      ensures disk == tree == old(tree)
    {
      disk := tree;
    }

    method ResolvePath(path: string) returns (found: Option<FileEntry>)
      ensures found == Resolve(tree, path)
    {
      var normalized := Normalize(path);
      if normalized == "" {
        return None;
      }
      var parts := Split(normalized);
      var filename, dirParts := parts[|parts| - 1], parts[..|parts| - 1];
      var current: Option<DirEntry> := None;
      for i := 0 to |dirParts|
        invariant Walk(tree, current, dirParts[i..]) == Walk(tree, None, dirParts)
        invariant current.Some? <==> 0 < i
      {
        assert dirParts[i..][0] == dirParts[i] && dirParts[i..][1..] == dirParts[i + 1..];
        if current.Some? && dirParts[i] !in current.value.subdirs {
          return None;
        }
        var d := FindDir(tree, dirParts[i]);
        if d == |tree| {
          return None;
        }
        current := Some(tree[d]);
      }
      if current.Some? {
        return FileIn(current.value, filename);
      }
      for d := 0 to |tree|
        invariant FileAnywhere(tree[d..], filename) == FileAnywhere(tree, filename)
      {
        assert tree[d..][0] == tree[d] && tree[d..][1..] == tree[d + 1..];
        var here := FileIn(tree[d], filename);
        if here.Some? {
          return here;
        }
      }
      return None;
    }

    method AddFile(parent: string, entry: FileEntry, now: nat) returns (r: Result<(), DirectoryError>)
      modifies this
      ensures match Added(old(tree), parent, entry, now)
              case Ok(after) => r == Ok(()) && tree == disk == after
              case Err(e) => r == Err(e) && tree == old(tree) && disk == old(disk)
    {
      if IsRootParent(parent) {
        var i := FindDir(tree, ROOT_DIR);
        if i < |tree| {
          tree := tree[i := tree[i].(files := tree[i].files + [entry])];
        } else {
          tree := tree + [DirEntry(ROOT_DIR, [], [entry], now)];
        }
      } else {
        var name := Normalize(parent);
        var i := FindDir(tree, name);
        if i < |tree| {
          var duplicate := FileIn(tree[i], entry.filename);
          if duplicate.Some? {
            return Err(PathExists(entry.filename));
          }
          tree := tree[i := tree[i].(files := tree[i].files + [entry])];
        } else {
          tree := tree + [DirEntry(name, [], [entry], now)];
        }
      }
      Flush();
      return Ok(());
    }

    method RemoveFile(path: string) returns (r: Result<(), DirectoryError>)
      modifies this
      ensures match Removed(old(tree), path)
              case Ok(after) => r == Ok(()) && tree == disk == after
              case Err(e) => r == Err(e) && tree == old(tree) && disk == old(disk)
    {
      var normalized := Normalize(path);
      if normalized == "" {
        return Err(PathNotFound(path));
      }
      var parts := Split(normalized);
      var filename := parts[|parts| - 1];
      var name := if |parts| > 1 then parts[0] else ROOT_DIR;
      var i := FindDir(tree, name);
      if i == |tree| {
        return Err(PathNotFound(path));
      }
      var j := FindFile(tree[i].files, filename);
      if j == |tree[i].files| {
        return Err(PathNotFound(path));
      }
      assert RemoveKey(path) == (name, filename);
      tree := tree[i := tree[i].(files := tree[i].files[..j] + tree[i].files[j + 1..])];
      assert Removed(old(tree), path) == Ok(tree);
      Flush();
      return Ok(());
    }

    method CountFiles() returns (n: nat)
      ensures n == FileCount(tree)
    {
      n := 0;
      for i := 0 to |tree|
        invariant n == FileCount(tree[..i])
      {
        assert tree[..i + 1][..i] == tree[..i];
        n := n + |tree[i].files|;
      }
      assert tree[..|tree|] == tree;
    }
  }
}
