/** The lock protocol of src/directory.rs as interleaved steps of any number of tasks.

    A task changes the tree under the write lock and lets go of it; later it takes the read lock,
    serialises the tree, writes the database file and lets go. Any number of tasks can hold the
    read lock, and no task changes the tree meanwhile. A file write is atomic; it may fail, and
    then an error is reported and the file is as before. */
module DirectoryFlush {
  import opened Wrappers
  import opened Directory
  import opened DirectoryMap

  /** Where a task is. `version` counts the changes of the tree up to and including its own. */
  datatype Phase =
    | Changed(version: nat)
    | Flushing(version: nat, snapshot: Tree)
    | Acknowledged(version: nat)
    | WriteFailed(version: nat)
    | Refused

  datatype State = State(tree: Tree, changes: seq<Op>, disk: Tree, tasks: map<nat, Phase>)

  datatype Step =
    | Change(task: nat, op: Op)
    | BeginFlush(task: nat)
    | EndFlush(task: nat)
    | FailFlush(task: nat)

  function Init(): State {
    State([], [], [], map[])
  }

  predicate ReadLocked(s: State) {
    exists t :: t in s.tasks && s.tasks[t].Flushing?
  }

  /** The step can be taken now: a change waits until nobody reads. */
  predicate Enabled(s: State, step: Step) {
    match step
    case Change(t, _) => t !in s.tasks && !ReadLocked(s)
    case BeginFlush(t) => t in s.tasks && s.tasks[t].Changed?
    case EndFlush(t) => t in s.tasks && s.tasks[t].Flushing?
    case FailFlush(t) => t in s.tasks && s.tasks[t].Flushing?
  }

  function Next(s: State, step: Step): State
    requires Enabled(s, step)
  {
    match step
    case Change(t, op) =>
      if Perform(s.tree, op).Ok? then
        State(After(s.tree, op), s.changes + [op], s.disk, s.tasks[t := Changed(|s.changes| + 1)])
      else s.(tasks := s.tasks[t := Refused])
    case BeginFlush(t) => s.(tasks := s.tasks[t := Flushing(s.tasks[t].version, s.tree)])
    case EndFlush(t) =>
      s.(disk := s.tasks[t].snapshot, tasks := s.tasks[t := Acknowledged(s.tasks[t].version)])
    case FailFlush(t) => s.(tasks := s.tasks[t := WriteFailed(s.tasks[t].version)])
  }

  /** The state after a run of steps, if each could be taken in its turn. */
  function Outcome(steps: seq<Step>): Option<State> {
    if steps == [] then Some(Init())
    else
      var before, step := Outcome(steps[..|steps| - 1]), steps[|steps| - 1];
      if before.Some? && Enabled(before.value, step) then Some(Next(before.value, step)) else None
  }

  predicate IsRun(steps: seq<Step>) {
    Outcome(steps).Some?
  }

  function Reached(steps: seq<Step>): State
    requires IsRun(steps)
  {
    Outcome(steps).value
  }

  predicate Pending(phase: Phase) {
    phase.Changed? || phase.Flushing?
  }

  predicate Quiet(s: State) {
    forall t <- s.tasks :: !Pending(s.tasks[t])
  }

  predicate NoWriteFailed(s: State) {
    forall t <- s.tasks :: !s.tasks[t].WriteFailed?
  }

  /** How many changes there had been when a flush last completed. */
  function WrittenAt(steps: seq<Step>): nat
    requires IsRun(steps)
  {
    if steps == [] then 0
    else
      var before := steps[..|steps| - 1];
      if steps[|steps| - 1].EndFlush? then |Reached(before).changes| else WrittenAt(before)
  }

  // ---------- What every interleaving keeps ----------

  /** The file holds the tree after the first `v` changes. */
  ghost predicate DiskHas(s: State, v: nat) {
    v <= |s.changes| && s.disk == Run(s.changes[..v])
  }

  ghost predicate Inv(s: State, v: nat) {
    && s.tree == Run(s.changes)
    && (forall t <- s.tasks :: s.tasks[t].Flushing? ==> s.tasks[t].snapshot == s.tree)
    && (forall t <- s.tasks :: !s.tasks[t].Refused? ==> s.tasks[t].version <= |s.changes|)
    && DiskHas(s, v)
    && (forall t <- s.tasks :: s.tasks[t].Acknowledged? ==> s.tasks[t].version <= v)
    && (v == |s.changes| || exists t :: t in s.tasks && Unwritten(s, t))
  }

  /** Whoever made the latest change has not written it. */
  predicate Unwritten(s: State, t: nat)
    requires t in s.tasks
  {
    (Pending(s.tasks[t]) || s.tasks[t].WriteFailed?) && s.tasks[t].version == |s.changes|
  }

  /** The version on disk after a step. */
  function NextVersion(s: State, step: Step, v: nat): nat {
    if step.EndFlush? then |s.changes| else v
  }

  lemma ChangeKeeps(s: State, step: Step, v: nat)
    requires step.Change? && Inv(s, v) && Enabled(s, step)
    ensures Inv(Next(s, step), v)
  {
    var s' := Next(s, step);
    if Perform(s.tree, step.op).Ok? {
      assert s'.changes[..|s.changes|] == s.changes;
      assert s'.changes[..v] == s.changes[..v];
      assert Unwritten(s', step.task);
    } else if v != |s.changes| {
      var t :| t in s.tasks && Unwritten(s, t);
      assert Unwritten(s', t);
    }
  }

  lemma FlushKeeps(s: State, step: Step, v: nat)
    requires !step.Change? && Inv(s, v) && Enabled(s, step)
    ensures Inv(Next(s, step), NextVersion(s, step, v))
  {
    var s' := Next(s, step);
    if step.EndFlush? {
      assert s.changes[..|s.changes|] == s.changes;
    } else if v != |s.changes| {
      var t :| t in s.tasks && Unwritten(s, t);
      assert Unwritten(s', t);
    }
  }

  /** The invariant, with the last completed flush for a witness. */
  lemma {:induction false} RunsKeep(steps: seq<Step>)
    requires IsRun(steps)
    ensures Inv(Reached(steps), WrittenAt(steps))
  {
    if steps == [] {
    } else {
      var before, step := steps[..|steps| - 1], steps[|steps| - 1];
      RunsKeep(before);
      if step.Change? {
        ChangeKeeps(Reached(before), step, WrittenAt(before));
      } else {
        FlushKeeps(Reached(before), step, WrittenAt(before));
      }
    }
  }

  /** In every interleaving, failing writes included, the file is the tree after exactly the
      changes made before the last completed flush, and the change of every acknowledged task is
      one of them: what has been answered with success survives a crash at any moment. */
  lemma {:induction false} AcknowledgedIsDurable(steps: seq<Step>)
    requires IsRun(steps)
    ensures DiskHas(Reached(steps), WrittenAt(steps))
    ensures var s := Reached(steps);
            forall t <- s.tasks :: s.tasks[t].Acknowledged? ==> s.tasks[t].version <= WrittenAt(steps)
  {
    RunsKeep(steps);
  }

  /** Some change of the run has had no completed flush after it. */
  predicate LeftBehind(steps: seq<Step>)
    requires IsRun(steps)
  {
    if steps == [] then false
    else
      var before, last := steps[..|steps| - 1], steps[|steps| - 1];
      if last.EndFlush? then false
      else if last.Change? && Perform(Reached(before).tree, last.op).Ok? then true
      else LeftBehind(before)
  }

  /** The file lacks a change iff one was left behind. */
  lemma {:induction false} LagsIffLeftBehind(steps: seq<Step>)
    requires IsRun(steps)
    ensures WrittenAt(steps) <= |Reached(steps).changes|
    ensures WrittenAt(steps) < |Reached(steps).changes| <==> LeftBehind(steps)
  {
    if steps == [] {
    } else {
      LagsIffLeftBehind(steps[..|steps| - 1]);
    }
  }

  /** A file that has caught up holds the tree. */
  lemma {:induction false} CaughtUp(steps: seq<Step>)
    requires IsRun(steps) && WrittenAt(steps) == |Reached(steps).changes|
    ensures Reached(steps).disk == Reached(steps).tree
  {
    var s := Reached(steps);
    RunsKeep(steps);
    assert s.changes[..|s.changes|] == s.changes;
  }

  /** Files in the tree and not on disk, less the changes that are missing there. */
  function Gap(s: State, v: nat): int {
    FileCount(s.tree) - FileCount(s.disk) - (|s.changes| - v)
  }

  /** Every change moves the number of files by one. */
  lemma {:induction false} GapStaysEven(s: State, step: Step, v: nat)
    requires Enabled(s, step) && Gap(s, v) % 2 == 0
    requires step.EndFlush? ==> s.tasks[step.task].snapshot == s.tree
    ensures Gap(Next(s, step), NextVersion(s, step, v)) % 2 == 0
  {
    if step.Change? {
      ChangeMovesGap(s, step, v);
    } else if step.EndFlush? {
      EndFlushClosesGap(s, step);
    } else {
      OthersKeepGap(s, step, v);
    }
  }

  lemma EndFlushClosesGap(s: State, step: Step)
    requires step.EndFlush? && Enabled(s, step) && s.tasks[step.task].snapshot == s.tree
    ensures Gap(Next(s, step), |s.changes|) == 0
  {
    var s' := Next(s, step);
    assert s'.disk == s'.tree && s'.changes == s.changes;
  }

  lemma OthersKeepGap(s: State, step: Step, v: nat)
    requires !step.Change? && !step.EndFlush? && Enabled(s, step)
    ensures Gap(Next(s, step), v) == Gap(s, v)
  {
    var s' := Next(s, step);
    assert s'.tree == s.tree && s'.disk == s.disk && s'.changes == s.changes;
  }

  lemma {:induction false} ChangeMovesGap(s: State, step: Step, v: nat)
    requires step.Change? && Enabled(s, step)
    ensures Gap(Next(s, step), v) == Gap(s, v) || Gap(Next(s, step), v) == Gap(s, v) - 2
  {
    if Perform(s.tree, step.op).Ok? {
      CountFollows(s.tree, step.op);
      assert |Next(s, step).changes| == |s.changes| + 1;
    }
  }

  /** So tree and file differ by as many files as changes are missing, up to an even number. */
  lemma {:induction false} MissingCounts(steps: seq<Step>)
    requires IsRun(steps)
    ensures Gap(Reached(steps), WrittenAt(steps)) % 2 == 0
  {
    if steps == [] {
    } else {
      var before, last := steps[..|steps| - 1], steps[|steps| - 1];
      MissingCounts(before);
      if last.EndFlush? {
        SnapshotsAreCurrent(before, last.task);
      }
      GapStaysEven(Reached(before), last, WrittenAt(before));
    }
  }

  /** With nothing left behind file and memory hold the same tree; with an odd number of changes
      left behind they do not. */
  lemma {:induction false} FileIsCurrent(steps: seq<Step>)
    requires IsRun(steps)
    ensures !LeftBehind(steps) ==> Reached(steps).disk == Reached(steps).tree
    ensures (|Reached(steps).changes| - WrittenAt(steps)) % 2 == 1 ==> Reached(steps).disk != Reached(steps).tree
  {
    LagsIffLeftBehind(steps);
    MissingCounts(steps);
    OddGapDiffers(Reached(steps), WrittenAt(steps));
    if !LeftBehind(steps) {
      CaughtUp(steps);
    }
  }

  lemma OddGapDiffers(s: State, v: nat)
    requires Gap(s, v) % 2 == 0
    ensures (|s.changes| - v) % 2 == 1 ==> s.disk != s.tree
  {
  }

  /** Whoever made the latest change need only have neither failed nor be still under way: other
      failures and unfinished tasks do not matter. In particular it suffices that this one has
      been acknowledged. */
  lemma {:induction false} LatestIsWritten(steps: seq<Step>)
    requires IsRun(steps)
    requires var s := Reached(steps); forall t <- s.tasks :: !Unwritten(s, t)
    ensures Reached(steps).disk == Reached(steps).tree
  {
    RunsKeep(steps);
    CaughtUp(steps);
  }

  lemma {:induction false} LatestAcknowledged(steps: seq<Step>, t: nat)
    requires IsRun(steps) && t in Reached(steps).tasks
    requires Reached(steps).tasks[t] == Acknowledged(|Reached(steps).changes|)
    ensures Reached(steps).disk == Reached(steps).tree
  {
    RunsKeep(steps);
    CaughtUp(steps);
  }

  /** When no task is under way and no write has failed, file and memory hold the same tree. */
  lemma {:induction false} QuietDiskIsTree(steps: seq<Step>)
    requires IsRun(steps) && Quiet(Reached(steps)) && NoWriteFailed(Reached(steps))
    ensures Reached(steps).disk == Reached(steps).tree
  {
    LatestIsWritten(steps);
  }

  /** A flush that is under way holds the current tree. */
  lemma {:induction false} SnapshotsAreCurrent(steps: seq<Step>, t: nat)
    requires IsRun(steps) && t in Reached(steps).tasks && Reached(steps).tasks[t].Flushing?
    ensures Reached(steps).tasks[t].snapshot == Reached(steps).tree
  {
    RunsKeep(steps);
  }

  /** So any completed flush brings the file up to date, whatever failed before. */
  lemma {:induction false} CompletedFlushRepairs(steps: seq<Step>, t: nat)
    requires IsRun(steps + [EndFlush(t)])
    ensures Reached(steps + [EndFlush(t)]).disk == Reached(steps + [EndFlush(t)]).tree
  {
    assert (steps + [EndFlush(t)])[..|steps|] == steps;
    RunsKeep(steps);
  }

  /** A failed write can leave the file behind until another flush completes: one task, one
      failure, and nobody under way. */
  lemma FailedWriteLags(entry: FileEntry)
    ensures var steps := [Change(0, AddOp("d", entry, 0)), BeginFlush(0), FailFlush(0)];
            IsRun(steps) && Quiet(Reached(steps)) && Reached(steps).disk != Reached(steps).tree
  {
    var add := AddOp("d", entry, 0);
    var a, b, c := Change(0, add), BeginFlush(0), FailFlush(0);
    assert Perform([], add).Ok? && |After([], add)| == 1;
    OneMore([], a);
    OneMore([a], b);
    OneMore([a, b], c);
    assert [] + [a] == [a] && [a] + [b] == [a, b] && [a, b] + [c] == [a, b, c];
  }

  lemma OneMore(steps: seq<Step>, step: Step)
    requires IsRun(steps) && Enabled(Reached(steps), step)
    ensures Outcome(steps + [step]) == Some(Next(Reached(steps), step))
  {
    assert (steps + [step])[..|steps|] == steps;
  }
}
