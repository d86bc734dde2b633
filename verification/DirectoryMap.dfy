/** The directory list behaves as a map from (directory, file) to entries, over every run of
    `add_file` and `remove_file` on whatever path strings (src/directory.rs).

    The pseudo directory of the root is outside the map: it takes duplicates, and a path without
    a slash is looked up in all directories. */
module DirectoryMap {
  import opened Wrappers
  import opened Paths
  import opened Directory

  type Name = (string, string)

  // ---------- The map a tree shows ----------

  function Lookup(tree: Tree, d: string, f: string): Option<FileEntry> {
    var i := FindDir(tree, d);
    if i < |tree| then FileIn(tree[i], f) else None
  }

  ghost predicate UniqueFiles(files: seq<FileEntry>) {
    forall i, j :: 0 <= i < j < |files| ==> files[i].filename != files[j].filename
  }

  ghost predicate WellFormed(tree: Tree) {
    && (forall i, j :: 0 <= i < j < |tree| ==> tree[i].name != tree[j].name)
    && (forall i :: 0 <= i < |tree| ==> tree[i].subdirs == [])
    && (forall i :: 0 <= i < |tree| && tree[i].name != ROOT_DIR ==> UniqueFiles(tree[i].files))
  }

  ghost predicate Shows(tree: Tree, m: map<Name, FileEntry>) {
    forall d, f :: d != ROOT_DIR ==>
      Lookup(tree, d, f) == if (d, f) in m then Some(m[(d, f)]) else None
  }

  // ---------- The map operations ----------

  datatype Op = AddOp(parent: string, entry: FileEntry, now: nat) | RemoveOp(path: string)

  function Perform(tree: Tree, op: Op): Result<Tree, DirectoryError> {
    match op
    case AddOp(parent, entry, now) => Added(tree, parent, entry, now)
    case RemoveOp(path) => Removed(tree, path)
  }

  function After(tree: Tree, op: Op): Tree {
    var r := Perform(tree, op);
    if r.Ok? then r.value else tree
  }

  /** The entry of the map an operation is about, if any. */
  function KeyOf(op: Op): Option<Name> {
    match op
    case AddOp(parent, entry, _) =>
      if AddDir(parent) == ROOT_DIR then None else Some((AddDir(parent), entry.filename))
    case RemoveOp(path) =>
      if Normalize(path) == "" || RemoveKey(path).0 == ROOT_DIR then None else Some(RemoveKey(path))
  }

  /** What it does to the map: add if absent, remove if present, nothing otherwise. */
  function MapAfter(m: map<Name, FileEntry>, op: Op): map<Name, FileEntry> {
    if KeyOf(op).None? then m
    else
      var key := KeyOf(op).value;
      match op
      case AddOp(_, entry, _) => if key in m then m else m[key := entry]
      case RemoveOp(_) => m - {key}
  }

  /** Whether it succeeds, when it is about an entry of the map. */
  predicate MapAccepts(m: map<Name, FileEntry>, op: Op)
    requires KeyOf(op).Some?
  {
    (KeyOf(op).value in m) == op.RemoveOp?
  }

  // ---------- One step ----------

  lemma FindFilePushed(files: seq<FileEntry>, entry: FileEntry, f: string)
    ensures FindFile(files + [entry], f) ==
            if FindFile(files, f) < |files| then FindFile(files, f)
            else if entry.filename == f then |files| else |files| + 1
  {
    var i, j := FindFile(files, f), FindFile(files + [entry], f);
    assert forall x :: 0 <= x < |files| ==> (files + [entry])[x] == files[x];
    assert (files + [entry])[|files|] == entry;
  }

  lemma FindFileDropped(files: seq<FileEntry>, i: nat, f: string)
    requires i < |files| && UniqueFiles(files)
    ensures var dropped := Dropped(files, i);
            var x, y := FindFile(files, f), FindFile(dropped, f);
            if f == files[i].filename then y == |dropped|
            else (x < |files| <==> y < |dropped|) && (x < |files| ==> dropped[y] == files[x])
  {
    var dropped := Dropped(files, i);
    var x, y := FindFile(files, f), FindFile(dropped, f);
    assert forall a :: 0 <= a < |dropped| ==> dropped[a] == files[if a < i then a else a + 1];
    if f == files[i].filename {
      assert forall a :: 0 <= a < |dropped| ==> dropped[a].filename != f;
    } else if x == |files| {
      assert forall a :: 0 <= a < |dropped| ==> dropped[a].filename != f;
    } else if x < i {
      assert dropped[x] == files[x];
    } else {
      assert dropped[x - 1] == files[x];
    }
  }

  lemma FindDirKept(tree: Tree, i: nat, dir: DirEntry, d: string)
    requires i < |tree| && dir.name == tree[i].name
    ensures FindDir(tree[i := dir], d) == FindDir(tree, d)
  {
    assert forall x :: 0 <= x < |tree| ==> tree[i := dir][x].name == tree[x].name;
    var a, b := FindDir(tree, d), FindDir(tree[i := dir], d);
    assert a < |tree| ==> tree[i := dir][a].name == d;
  }

  lemma FindDirPushed(tree: Tree, dir: DirEntry, d: string)
    ensures FindDir(tree + [dir], d) ==
            if FindDir(tree, d) < |tree| then FindDir(tree, d)
            else if dir.name == d then |tree| else |tree| + 1
  {
    assert forall x :: 0 <= x < |tree| ==> (tree + [dir])[x] == tree[x];
    assert (tree + [dir])[|tree|] == dir;
    var a, b := FindDir(tree, d), FindDir(tree + [dir], d);
  }

  /** A pushed entry becomes visible under its name unless an earlier one hides it; nothing else
      changes. */
  lemma PushedShows(tree: Tree, name: string, entry: FileEntry, now: nat, d: string, f: string)
    ensures Lookup(Pushed(tree, name, entry, now), d, f) ==
            if d == name && f == entry.filename && Lookup(tree, d, f).None? then Some(entry)
            else Lookup(tree, d, f)
  {
    var i := FindDir(tree, name);
    if i < |tree| {
      var dir := tree[i].(files := tree[i].files + [entry]);
      FindDirKept(tree, i, dir, d);
      FindFilePushed(tree[i].files, entry, f);
    } else {
      FindDirPushed(tree, DirEntry(name, [], [entry], now), d);
      FindFilePushed([], entry, f);
      assert [] + [entry] == [entry];
    }
  }

  lemma PushedWellFormed(tree: Tree, name: string, entry: FileEntry, now: nat)
    requires WellFormed(tree) && (name == ROOT_DIR || Lookup(tree, name, entry.filename).None?)
    ensures WellFormed(Pushed(tree, name, entry, now))
  {
    var i, tree' := FindDir(tree, name), Pushed(tree, name, entry, now);
    if i < |tree| {
      assert forall x :: 0 <= x < |tree| && x != i ==> tree'[x] == tree[x];
      var files := tree[i].files;
      if name != ROOT_DIR {
        assert FindFile(files, entry.filename) == |files|;
        assert UniqueFiles(files + [entry]);
      }
    } else {
      assert forall x :: 0 <= x < |tree| ==> tree'[x] == tree[x];
    }
  }

  lemma {:induction false} AddRefines(tree: Tree, m: map<Name, FileEntry>, op: Op)
    requires op.AddOp? && WellFormed(tree) && Shows(tree, m)
    ensures WellFormed(After(tree, op)) && Shows(After(tree, op), MapAfter(m, op))
    ensures KeyOf(op).Some? ==> (Perform(tree, op).Ok? <==> MapAccepts(m, op))
  {
    var name := AddDir(op.parent);
    assert Lookup(tree, name, op.entry.filename).Some? <==>
           FindDir(tree, name) < |tree| && FileIn(tree[FindDir(tree, name)], op.entry.filename).Some?;
    if Perform(tree, op).Ok? {
      PushedWellFormed(tree, name, op.entry, op.now);
      forall d, f | d != ROOT_DIR
        ensures Lookup(After(tree, op), d, f) ==
                if (d, f) in MapAfter(m, op) then Some(MapAfter(m, op)[(d, f)]) else None
      {
        PushedShows(tree, name, op.entry, op.now, d, f);
      }
    }
  }

  lemma DroppedWellFormed(tree: Tree, i: nat, j: nat)
    requires WellFormed(tree) && i < |tree| && j < |tree[i].files|
    ensures WellFormed(tree[i := tree[i].(files := Dropped(tree[i].files, j))])
  {
    var files := tree[i].files;
    var dropped := Dropped(files, j);
    var tree' := tree[i := tree[i].(files := dropped)];
    assert forall x :: 0 <= x < |tree| && x != i ==> tree'[x] == tree[x];
    assert forall a :: 0 <= a < |dropped| ==> dropped[a] == files[if a < j then a else a + 1];
  }

  lemma DroppedShows(tree: Tree, i: nat, f: string, d: string, g: string)
    requires WellFormed(tree) && i < |tree| && FindFile(tree[i].files, f) < |tree[i].files|
    requires d != ROOT_DIR
    ensures var j := FindFile(tree[i].files, f);
            Lookup(tree[i := tree[i].(files := Dropped(tree[i].files, j))], d, g) ==
            if (d, g) == (tree[i].name, f) then None else Lookup(tree, d, g)
  {
    var j := FindFile(tree[i].files, f);
    FindDirKept(tree, i, tree[i].(files := Dropped(tree[i].files, j)), d);
    if tree[i].name == d {
      assert FindDir(tree, d) == i;
      FindFileDropped(tree[i].files, j, g);
    }
  }

  lemma {:induction false} RemoveRefines(tree: Tree, m: map<Name, FileEntry>, op: Op)
    requires op.RemoveOp? && WellFormed(tree) && Shows(tree, m)
    ensures WellFormed(After(tree, op)) && Shows(After(tree, op), MapAfter(m, op))
    ensures KeyOf(op).Some? ==> (Perform(tree, op).Ok? <==> MapAccepts(m, op))
  {
    if Normalize(op.path) != "" {
      var (name, f) := RemoveKey(op.path);
      assert Perform(tree, op).Ok? <==> Lookup(tree, name, f).Some?;
      if Perform(tree, op).Ok? {
        var i := FindDir(tree, name);
        DroppedWellFormed(tree, i, FindFile(tree[i].files, f));
        forall d, g | d != ROOT_DIR
          ensures Lookup(After(tree, op), d, g) ==
                  if (d, g) in MapAfter(m, op) then Some(MapAfter(m, op)[(d, g)]) else None
        {
          DroppedShows(tree, i, f, d, g);
        }
      } else if name != ROOT_DIR {
        assert MapAfter(m, op) == m;
      }
    }
  }

  // ---------- Whole runs ----------

  function Run(ops: seq<Op>): Tree {
    if ops == [] then [] else After(Run(ops[..|ops| - 1]), ops[|ops| - 1])
  }

  function RunMap(ops: seq<Op>): map<Name, FileEntry> {
    if ops == [] then map[] else MapAfter(RunMap(ops[..|ops| - 1]), ops[|ops| - 1])
  }

  lemma {:induction false} RunsRefine(ops: seq<Op>)
    ensures WellFormed(Run(ops)) && Shows(Run(ops), RunMap(ops))
  {
    if ops == [] {
    } else {
      var before, op := ops[..|ops| - 1], ops[|ops| - 1];
      RunsRefine(before);
      if op.AddOp? {
        AddRefines(Run(before), RunMap(before), op);
      } else {
        RemoveRefines(Run(before), RunMap(before), op);
      }
    }
  }

  /** Every next operation answers as the map does. */
  lemma {:induction false} AnswersRefine(ops: seq<Op>, next: Op)
    requires KeyOf(next).Some?
    ensures Perform(Run(ops), next).Ok? <==> MapAccepts(RunMap(ops), next)
  {
    RunsRefine(ops);
    if next.AddOp? {
      AddRefines(Run(ops), RunMap(ops), next);
    } else {
      RemoveRefines(Run(ops), RunMap(ops), next);
    }
  }

  /** What a path comes to in a well-formed tree: one part is looked for in all directories, two
      are looked up, and more never resolve. */
  lemma ResolveByParts(tree: Tree, path: string)
    requires WellFormed(tree) && Normalize(path) != ""
    ensures var parts := Split(Normalize(path));
            Resolve(tree, path) ==
            if |parts| == 1 then FileAnywhere(tree, parts[0])
            else if |parts| == 2 then Lookup(tree, parts[0], parts[1])
            else None
  {
    var parts := Split(Normalize(path));
    var dirs := parts[..|parts| - 1];
    if |parts| == 2 {
      assert dirs == [parts[0]] && dirs[1..] == [];
      assert Walk(tree, None, dirs) ==
             var i := FindDir(tree, parts[0]);
             if i < |tree| then Some(Some(tree[i])) else None;
    } else if |parts| > 2 {
      var i := FindDir(tree, dirs[0]);
      if i < |tree| {
        assert Walk(tree, Some(tree[i]), dirs[1..]) == None;
      }
    }
  }

  /** Resolving a path of two parts is looking it up in the map; a longer path never resolves. */
  lemma ResolveRefines(ops: seq<Op>, path: string)
    ensures var parts := Split(Normalize(path));
            && (|parts| == 2 && parts[0] != ROOT_DIR ==>
                  Resolve(Run(ops), path) ==
                  if (parts[0], parts[1]) in RunMap(ops) then Some(RunMap(ops)[(parts[0], parts[1])])
                  else None)
            && (|parts| > 2 ==> Resolve(Run(ops), path) == None)
  {
    RunsRefine(ops);
    if Normalize(path) != "" {
      ResolveByParts(Run(ops), path);
    }
  }

  /** The first and the last part of a path that resolves or is removed are not empty. */
  lemma PartsNotEmpty(path: string)
    requires Normalize(path) != ""
    ensures var parts := Split(Normalize(path)); parts[0] != "" && parts[|parts| - 1] != ""
  {
    EndParts(Normalize(path));
  }

  lemma {:induction false} AnywhereIsNamed(tree: Tree, name: string)
    ensures FileAnywhere(tree, name).Some? ==> FileAnywhere(tree, name).value.filename == name
  {
    if tree == [] {
    } else {
      AnywhereIsNamed(tree[1..], name);
    }
  }

  /** No path resolves to an entry whose name is empty or holds a slash. */
  lemma ResolvedIsPlain(tree: Tree, path: string)
    requires WellFormed(tree) && Resolve(tree, path).Some?
    ensures Resolve(tree, path).value.filename != "" && Plain(Resolve(tree, path).value.filename)
  {
    var parts := Split(Normalize(path));
    PartsNotEmpty(path);
    ResolveByParts(tree, path);
    AnywhereIsNamed(tree, parts[0]);
  }

  /** The promise of a path-keyed store, exactly: an entry that `add_file` has taken into a named
      directory is found again under directory/name iff the directory is a single name and the
      file name is a proper one. Under a nested parent the call succeeds but the file can not be
      resolved. */
  lemma AddedIsFound(ops: seq<Op>, add: Op)
    requires add.AddOp? && !IsRootParent(add.parent) && AddDir(add.parent) != ""
    requires Perform(Run(ops), add).Ok?
    ensures Resolve(Run(ops + [add]), AddDir(add.parent) + "/" + add.entry.filename) == Some(add.entry)
            <==> Plain(AddDir(add.parent)) && Plain(add.entry.filename) && add.entry.filename != ""
  {
    var dir, file, tree := AddDir(add.parent), add.entry.filename, Run(ops + [add]);
    assert (ops + [add])[..|ops|] == ops;
    RunsRefine(ops + [add]);
    if Resolve(tree, dir + "/" + file).Some? {
      ResolvedIsPlain(tree, dir + "/" + file);
    }
    if Plain(file) && file != "" {
      NormalizeJoined(dir, file);
      SplitJoined(dir, file);
      ResolveByParts(tree, dir + "/" + file);
      if Plain(dir) {
        PushedShows(Run(ops), dir, add.entry, add.now, dir, file);
      } else {
        LongSplit(dir, file);
      }
    }
  }

  lemma LongSplit(dir: string, file: string)
    requires !Plain(dir) && Plain(file)
    ensures |Split(dir + "/" + file)| > 2
  {
    SplitJoined(dir, file);
    SlashSplits(dir);
  }

  lemma {:induction false} AnywhereAppend(a: Tree, b: Tree, name: string)
    ensures FileAnywhere(a + b, name) ==
            if FileAnywhere(a, name).Some? then FileAnywhere(a, name) else FileAnywhere(b, name)
  {
    if a == [] {
      assert a + b == b;
    } else {
      AnywhereAppend(a[1..], b, name);
      assert (a + b)[0] == a[0] && (a + b)[1..] == a[1..] + b;
    }
  }

  /** The directories up to and including the one that `add_file` picks. */
  function UpTo(tree: Tree, name: string): Tree {
    var i := FindDir(tree, name); if i < |tree| then tree[..i + 1] else tree
  }

  lemma AnywhereAround(front: Tree, dir: DirEntry, back: Tree, file: string)
    ensures var earlier, here := FileAnywhere(front, file), FileIn(dir, file);
            FileAnywhere(front + [dir] + back, file)
            == if earlier.Some? then earlier else if here.Some? then here else FileAnywhere(back, file)
  {
    AnywhereAppend(front + [dir], back, file);
    AnywhereAppend(front, [dir], file);
  }

  lemma PushedAnywhere(tree: Tree, name: string, entry: FileEntry, now: nat)
    ensures var earlier := FileAnywhere(UpTo(tree, name), entry.filename);
            FileAnywhere(Pushed(tree, name, entry, now), entry.filename)
            == if earlier.Some? then earlier else Some(entry)
  {
    var i, file := FindDir(tree, name), entry.filename;
    if i < |tree| {
      var front, back, dir := tree[..i], tree[i + 1..], tree[i].(files := tree[i].files + [entry]);
      assert Pushed(tree, name, entry, now) == front + [dir] + back;
      assert tree[..i + 1] == front + [tree[i]] + [];
      AnywhereAround(front, dir, back, file);
      AnywhereAround(front, tree[i], [], file);
      FindFilePushed(tree[i].files, entry, file);
    } else {
      var dir := DirEntry(name, [], [entry], now);
      assert tree + [dir] == tree + [dir] + [];
      AnywhereAround(tree, dir, [], file);
      assert FileIn(dir, file) == Some(entry);
    }
  }

  /** An entry added to the root, or to a directory without a name, is found under its bare name
      unless one of that name comes first in the list of directories. */
  lemma RootAddedIsFound(ops: seq<Op>, add: Op)
    requires add.AddOp? && Perform(Run(ops), add).Ok?
    requires add.entry.filename != "" && Plain(add.entry.filename)
    ensures var earlier := FileAnywhere(UpTo(Run(ops), AddDir(add.parent)), add.entry.filename);
            Resolve(Run(ops + [add]), add.entry.filename)
            == if earlier.Some? then earlier else Some(add.entry)
  {
    var file := add.entry.filename;
    assert (ops + [add])[..|ops|] == ops;
    RunsRefine(ops + [add]);
    PlainNormalized(file);
    SplitPlain(file);
    ResolveByParts(Run(ops + [add]), file);
    PushedAnywhere(Run(ops), AddDir(add.parent), add.entry, add.now);
  }

  /** How many files a path names: in all directories, in one, or none. */
  function Copies(tree: Tree, path: string): nat {
    var parts := Split(Normalize(path));
    if Normalize(path) == "" || |parts| > 2 then 0
    else if |parts| == 1 then CopiesAnywhere(tree, parts[0])
    else
      var i := FindDir(tree, parts[0]);
      if i < |tree| then CopiesIn(tree[i].files, parts[1]) else 0
  }

  function CopiesIn(files: seq<FileEntry>, name: string): nat {
    if files == [] then 0 else (if files[0].filename == name then 1 else 0) + CopiesIn(files[1..], name)
  }

  function CopiesAnywhere(tree: Tree, name: string): nat {
    if tree == [] then 0 else CopiesIn(tree[0].files, name) + CopiesAnywhere(tree[1..], name)
  }

  lemma {:induction false} NoCopyIn(files: seq<FileEntry>, name: string)
    ensures CopiesIn(files, name) == 0 <==> FindFile(files, name) == |files|
  {
    if files == [] {
    } else {
      NoCopyIn(files[1..], name);
    }
  }

  lemma {:induction false} NoCopyAnywhere(tree: Tree, name: string)
    ensures CopiesAnywhere(tree, name) == 0 <==> FileAnywhere(tree, name) == None
  {
    if tree == [] {
    } else {
      NoCopyIn(tree[0].files, name);
      NoCopyAnywhere(tree[1..], name);
    }
  }

  /** A path resolves iff it names a file. */
  lemma ResolvesIffNamed(tree: Tree, path: string)
    requires WellFormed(tree)
    ensures Resolve(tree, path) == None <==> Copies(tree, path) == 0
  {
    if Normalize(path) != "" {
      var parts := Split(Normalize(path));
      ResolveByParts(tree, path);
      NoCopyAnywhere(tree, parts[0]);
      if |parts| == 2 && FindDir(tree, parts[0]) < |tree| {
        NoCopyIn(tree[FindDir(tree, parts[0])].files, parts[1]);
      }
    }
  }

  lemma {:induction false} CopiesDropped(files: seq<FileEntry>, i: nat, name: string)
    requires i < |files|
    ensures CopiesIn(Dropped(files, i), name) + (if files[i].filename == name then 1 else 0) == CopiesIn(files, name)
  {
    if i == 0 {
      assert Dropped(files, 0) == files[1..];
    } else {
      CopiesDropped(files[1..], i - 1, name);
      assert Dropped(files, i) == [files[0]] + Dropped(files[1..], i - 1);
    }
  }

  lemma {:induction false} CopiesUpdated(tree: Tree, i: nat, dir: DirEntry, name: string)
    requires i < |tree|
    ensures CopiesAnywhere(tree[i := dir], name) + CopiesIn(tree[i].files, name)
            == CopiesAnywhere(tree, name) + CopiesIn(dir.files, name)
  {
    if i == 0 {
      assert tree[0 := dir][1..] == tree[1..];
    } else {
      CopiesUpdated(tree[1..], i - 1, dir, name);
      assert tree[i := dir][1..] == tree[1..][i - 1 := dir];
    }
  }

  /** A removal of a path of one or two parts takes away one file that the path names. */
  lemma RemovalTakesOne(tree: Tree, path: string)
    requires Normalize(path) != "" && |Split(Normalize(path))| <= 2 && Removed(tree, path).Ok?
    ensures Copies(Removed(tree, path).value, path) + 1 == Copies(tree, path)
  {
    var (name, file) := RemoveKey(path);
    var i := FindDir(tree, name);
    var j := FindFile(tree[i].files, file);
    var dir := tree[i].(files := Dropped(tree[i].files, j));
    CopiesDropped(tree[i].files, j, file);
    CopiesUpdated(tree, i, dir, file);
    FindDirKept(tree, i, dir, name);
  }

  /** The file that a removal of this path is about. */
  function RemovalTarget(tree: Tree, path: string): Option<FileEntry> {
    if Normalize(path) == "" then None
    else Lookup(tree, RemoveKey(path).0, RemoveKey(path).1)
  }

  lemma RemovesIffTarget(tree: Tree, path: string)
    ensures Removed(tree, path).Ok? <==> RemovalTarget(tree, path).Some?
  {
  }

  /** After a removal the path no longer resolves iff it named no other file: what was removed is
      one copy, and only in the root and across directories can there be more. */
  lemma RemovedIsGone(ops: seq<Op>, path: string)
    ensures var removed := RemovalTarget(Run(ops), path).Some? && |Split(Normalize(path))| <= 2;
            Resolve(Run(ops + [RemoveOp(path)]), path) == None
            <==> Copies(Run(ops), path) == if removed then 1 else 0
    ensures |Split(Normalize(path))| == 2 && Split(Normalize(path))[0] != ROOT_DIR ==>
              Resolve(Run(ops + [RemoveOp(path)]), path) == None
  {
    var all := ops + [RemoveOp(path)];
    assert all[..|ops|] == ops;
    RunsRefine(all);
    ResolvesIffNamed(Run(all), path);
    ResolveRefines(all, path);
    RemovesIffTarget(Run(ops), path);
    if Removed(Run(ops), path).Ok? && |Split(Normalize(path))| <= 2 {
      RemovalTakesOne(Run(ops), path);
    }
  }

  /** Removing by two paths with the same first and the same last part is the same. */
  lemma SameKeySameRemoval(tree: Tree, a: string, b: string)
    requires Normalize(a) != "" && Normalize(b) != "" && RemoveKey(a) == RemoveKey(b)
    ensures Removed(tree, a).Ok? <==> Removed(tree, b).Ok?
    ensures Removed(tree, a).Ok? ==> Removed(tree, a) == Removed(tree, b)
  {
  }

  /** A path of more than two parts never resolves, and yet removing it removes the file named by
      its first and its last part, if that exists: afterwards that other path resolves iff it
      named one more. */
  lemma LongPathRemovesAnother(ops: seq<Op>, path: string)
    requires |Split(Normalize(path))| > 2
    ensures var parts, tree := Split(Normalize(path)), Run(ops);
            var other := parts[0] + "/" + parts[|parts| - 1];
            && Normalize(path) != "" && Resolve(tree, path) == None
            && (Removed(tree, path).Ok? <==> Resolve(tree, other).Some?)
            && (Resolve(Run(ops + [RemoveOp(path)]), other) == None <==> Copies(tree, other) <= 1)
            && (parts[0] != ROOT_DIR ==> Resolve(Run(ops + [RemoveOp(path)]), other) == None)
  {
    var parts, tree := Split(Normalize(path)), Run(ops);
    var dir, file := parts[0], parts[|parts| - 1];
    var other := dir + "/" + file;
    PartsNotEmpty(path);
    NormalizeJoined(dir, file);
    SplitJoined(dir, file);
    RunsRefine(ops);
    ResolveRefines(ops, path);
    ResolveByParts(tree, other);
    ResolvesIffNamed(tree, other);
    SameKeySameRemoval(tree, path, other);
    RemovesIffTarget(tree, other);
    RemovedIsGone(ops, other);
    assert (ops + [RemoveOp(path)])[..|ops|] == ops && (ops + [RemoveOp(other)])[..|ops|] == ops;
    assert Run(ops + [RemoveOp(path)]) == Run(ops + [RemoveOp(other)]);
  }

  // ---------- Paths in any spelling, trees of any shape ----------

  /** Slashes at the ends make no difference to any operation. */
  lemma SlashesDoNotMatter(tree: Tree, a: nat, s: string, b: nat, entry: FileEntry, now: nat)
    requires Bare(s)
    ensures var path := Slashes(a) + s + Slashes(b);
            && Resolve(tree, path) == Resolve(tree, s)
            && (Removed(tree, path).Ok? <==> Removed(tree, s).Ok?)
            && (Removed(tree, s).Ok? ==> Removed(tree, path) == Removed(tree, s))
            && (!IsRootParent(path) && s != "" ==> Added(tree, path, entry, now) == Added(tree, s, entry, now))
    ensures var path := Slashes(a) + s + Slashes(b);
            AddDir(path) == if path == "" || path == "/" then "_root" else s
  {
    TrimsSlashes(a, s, b);
    TrimsSlashes(0, s, 0);
    assert Slashes(0) + s + Slashes(0) == s;
  }

  /** When an addition is refused, when a removal, and what the errors carry. */
  lemma ErrorsSpelledOut(tree: Tree, path: string, parent: string, entry: FileEntry, now: nat)
    ensures Added(tree, parent, entry, now).Err? <==>
            parent != "" && parent != "/" && Lookup(tree, Normalize(parent), entry.filename).Some?
    ensures Added(tree, parent, entry, now).Err? ==> Added(tree, parent, entry, now) == Err(PathExists(entry.filename))
    ensures Removed(tree, path).Ok? <==> Normalize(path) != "" && Lookup(tree, DirPart(path), LastPart(path)).Some?
    ensures Removed(tree, path).Err? ==> Removed(tree, path) == Err(PathNotFound(path))
  {
  }

  /** The directory a removal looks into: the first part of a path, the root's for a bare name. */
  function DirPart(path: string): string {
    var parts := Split(Normalize(path)); if |parts| == 1 then "_root" else parts[0]
  }

  function LastPart(path: string): string {
    var parts := Split(Normalize(path)); parts[|parts| - 1]
  }

  /** Every directory part but the first is a listed subdirectory of the one before, and each is
      the first directory of its name. */
  predicate Chained(tree: Tree, parts: seq<string>) {
    && (forall i :: 0 <= i < |parts| ==> FindDir(tree, parts[i]) < |tree|)
    && (forall i :: 0 < i < |parts| ==> parts[i] in tree[FindDir(tree, parts[i - 1])].subdirs)
  }

  /** Part `n` goes on with the chain: its directory exists, and is listed in the one before. */
  predicate Linked(tree: Tree, parts: seq<string>, n: nat)
    requires n < |parts|
  {
    && FindDir(tree, parts[n]) < |tree|
    && (0 < n ==> FindDir(tree, parts[n - 1]) < |tree|)
    && (0 < n ==> parts[n] in tree[FindDir(tree, parts[n - 1])].subdirs)
  }

  lemma ChainGrows(tree: Tree, parts: seq<string>, n: nat)
    requires n < |parts| && Chained(tree, parts[..n])
    ensures Linked(tree, parts, n) ==> Chained(tree, parts[..n + 1])
    ensures !Linked(tree, parts, n) ==> !Chained(tree, parts)
  {
    assert forall i :: 0 <= i < n ==> parts[..n][i] == parts[i];
    assert forall i :: 0 <= i <= n ==> parts[..n + 1][i] == parts[i];
  }

  lemma WalkStep(tree: Tree, parts: seq<string>, n: nat)
    requires n < |parts| && (0 < n ==> FindDir(tree, parts[n - 1]) < |tree|)
    ensures var current := if n == 0 then None else Some(tree[FindDir(tree, parts[n - 1])]);
            Walk(tree, current, parts[n..]) ==
            if Linked(tree, parts, n) then Walk(tree, Some(tree[FindDir(tree, parts[n])]), parts[n + 1..]) else None
  {
    assert parts[n..][0] == parts[n] && parts[n..][1..] == parts[n + 1..];
  }

  lemma {:induction false} WalkFollowsChain(tree: Tree, parts: seq<string>, done: nat)
    requires done <= |parts| && parts != [] && Chained(tree, parts[..done])
    requires 0 < done ==> FindDir(tree, parts[done - 1]) < |tree|
    ensures var current := if done == 0 then None else Some(tree[FindDir(tree, parts[done - 1])]);
            Walk(tree, current, parts[done..]) ==
            if Chained(tree, parts) then Some(Some(tree[FindDir(tree, parts[|parts| - 1])])) else None
    decreases |parts| - done
  {
    if done == |parts| {
      assert parts[..done] == parts;
    } else {
      ChainGrows(tree, parts, done);
      WalkStep(tree, parts, done);
      if Linked(tree, parts, done) {
        WalkFollowsChain(tree, parts, done + 1);
      }
    }
  }

  /** A name looked up everywhere is found in the first directory that has a file of that name. */
  lemma {:induction false} AnywhereIsFirst(tree: Tree, name: string, n: nat)
    requires n <= |tree| && forall i :: 0 <= i < n ==> FileIn(tree[i], name).None?
    ensures n == |tree| ==> FileAnywhere(tree, name).None?
    ensures n < |tree| && FileIn(tree[n], name).Some? ==> FileAnywhere(tree, name) == FileIn(tree[n], name)
  {
    if n == 0 {
    } else {
      AnywhereIsFirst(tree[1..], name, n - 1);
    }
  }

  /** Resolving in any tree, subdirectories listed or not: along a chain of directories to a file of
      the last one; a bare name to the first directory that has it. */
  lemma ResolveFollowsChain(tree: Tree, path: string)
    requires Normalize(path) != ""
    ensures var parts := Split(Normalize(path));
            var dirs, name := parts[..|parts| - 1], parts[|parts| - 1];
            Resolve(tree, path) ==
            if dirs == [] then FileAnywhere(tree, name)
            else if Chained(tree, dirs) then FileIn(tree[FindDir(tree, dirs[|dirs| - 1])], name)
            else None
  {
    var parts := Split(Normalize(path));
    var dirs := parts[..|parts| - 1];
    if dirs != [] {
      WalkFollowsChain(tree, dirs, 0);
      assert dirs[0..] == dirs && dirs[..0] == [];
    }
  }

  /** An addition keeps all directories with their names, subdirectories and creation times and
      their files in order; the entry goes last in its directory, which is made, stamped and put
      last, if there was none. */
  lemma AddedSpelledOut(tree: Tree, parent: string, entry: FileEntry, now: nat)
    requires Added(tree, parent, entry, now).Ok?
    ensures var after, d := Added(tree, parent, entry, now).value, FindDir(tree, AddDir(parent));
            && (forall i :: 0 <= i < |tree| ==>
                  i < |after| &&
                  after[i] == tree[i].(files := if i == d then tree[i].files + [entry] else tree[i].files))
            && |after| == (if d < |tree| then |tree| else |tree| + 1)
            && (d == |tree| ==> after[d] == DirEntry(AddDir(parent), [], [entry], now))
  {
  }

  lemma DroppedIsTakenOut(files: seq<FileEntry>, name: string)
    requires FindFile(files, name) < |files|
    ensures TakenOut(files, Dropped(files, FindFile(files, name)), name)
  {
    var j := FindFile(files, name);
    var rest := Dropped(files, j);
    assert files == rest[..j] + [files[j]] + rest[j..];
    assert IsTakenOut(files, rest, name, j);
  }

  /** A removal takes the first file of that name out of its directory and moves nothing else. */
  lemma RemovedSpelledOut(tree: Tree, path: string)
    requires Removed(tree, path).Ok?
    ensures var after, d := Removed(tree, path).value, FindDir(tree, DirPart(path));
            && d < |tree| && |after| == |tree|
            && (forall i :: 0 <= i < |tree| && i != d ==> after[i] == tree[i])
            && after[d] == tree[d].(files := after[d].files)
            && TakenOut(tree[d].files, after[d].files, LastPart(path))
  {
    DroppedIsTakenOut(tree[FindDir(tree, DirPart(path))].files, LastPart(path));
  }

  ghost predicate TakenOut(files: seq<FileEntry>, rest: seq<FileEntry>, name: string) {
    exists j :: 0 <= j <= |rest| && IsTakenOut(files, rest, name, j)
  }

  predicate IsTakenOut(files: seq<FileEntry>, rest: seq<FileEntry>, name: string, j: nat)
    requires j <= |rest|
  {
    && |files| == |rest| + 1 && files[j].filename == name
    && files == rest[..j] + [files[j]] + rest[j..]
    && forall i :: 0 <= i < j ==> files[i].filename != name
  }

  // ---------- Counting ----------

  /** The empty tree counts none, and directories add up. */
  lemma {:induction false} CountsAddUp(a: Tree, b: Tree)
    ensures FileCount([]) == 0
    ensures FileCount(a + b) == FileCount(a) + FileCount(b)
  {
    if b == [] {
      assert a + b == a;
    } else {
      var n := |b| - 1;
      assert (a + b)[..|a| + n] == a + b[..n];
      CountsAddUp(a, b[..n]);
    }
  }

  lemma CountOfOne(dir: DirEntry)
    ensures FileCount([dir]) == |dir.files|
  {
    assert [dir][..0] == [];
  }

  lemma {:induction false} CountUpdated(tree: Tree, i: nat, dir: DirEntry)
    requires i < |tree|
    ensures FileCount(tree[i := dir]) == FileCount(tree) - |tree[i].files| + |dir.files|
  {
    var n := |tree| - 1;
    if i == n {
      assert tree[i := dir][..n] == tree[..n];
    } else {
      CountUpdated(tree[..n], i, dir);
      assert tree[i := dir][..n] == tree[..n][i := dir];
    }
  }

  /** A successful call changes the number of files by exactly one. */
  lemma CountFollows(tree: Tree, op: Op)
    requires Perform(tree, op).Ok?
    ensures FileCount(After(tree, op)) == FileCount(tree) + if op.AddOp? then 1 else -1
  {
    if op.AddOp? {
      var name := AddDir(op.parent);
      var i := FindDir(tree, name);
      if i < |tree| {
        CountUpdated(tree, i, tree[i].(files := tree[i].files + [op.entry]));
      } else {
        assert After(tree, op)[..|tree|] == tree;
      }
    } else {
      var (name, f) := RemoveKey(op.path);
      var i := FindDir(tree, name);
      CountUpdated(tree, i, tree[i].(files := Dropped(tree[i].files, FindFile(tree[i].files, f))));
    }
  }
}
