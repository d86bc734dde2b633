/** The two replay windows side by side: a session guard's (src/session.rs) and a vault
    group's (src/vault.rs), on one stream of counters. */
module WindowsCompared {
  import opened Numerics
  import opened Decimals
  import opened Vault
  import opened VaultRuns
  import W = ReplayWindow

  /** The counters that a run of stores offers to group `gid`. */
  function Offered(ops: seq<Op>, gid: string): seq<u64> {
    if ops == [] then []
    else
      var op := ops[|ops| - 1];
      Offered(ops[..|ops| - 1], gid) + if op.StoreOp? && op.gid == gid then [op.counter] else []
  }

  predicate OnlyStores(ops: seq<Op>) {
    forall i :: 0 <= i < |ops| ==> ops[i].StoreOp?
  }

  /** A store moves the mark of its own group up to its counter, and no other mark. */
  lemma StoreMovesMark(v: Store, op: Op, gid: string)
    requires op.StoreOp?
    ensures Mark(DirOf(Apply(v, op), gid)) ==
            if op.gid == gid then Max(Mark(DirOf(v, gid)), op.counter) else Mark(DirOf(v, gid))
  {
    PrintParse(op.counter, U64_LIMIT);
  }

  lemma StepMovesMark(w: W.Window, size: u64, counter: u64)
    ensures W.Step(w, size, counter).0.vMax == Max(w.vMax, counter)
  {
  }

  /** Whatever is stored in other groups, the group's mark is the guard's. */
  lemma {:induction false} SameMark(v: Store, ops: seq<Op>, gid: string, size: u64)
    requires OnlyStores(ops) && Mark(DirOf(v, gid)) == 0
    ensures Mark(DirOf(Run(v, ops), gid)) == W.After(size, Offered(ops, gid)).vMax
  {
    if ops == [] {
    } else {
      var before, op := ops[..|ops| - 1], ops[|ops| - 1];
      SameMark(v, before, gid, size);
      StoreMovesMark(Run(v, before), op, gid);
      var calls := Offered(before, gid);
      if op.gid == gid {
        assert (calls + [op.counter])[..|calls|] == calls;
        StepMovesMark(W.After(size, calls), size, op.counter);
      } else {
        assert calls + [] == calls;
      }
    }
  }

  /** The next counter: the vault takes it whenever the guard does. While the mark is below
      2^64 - 128 the vault takes it iff it lies above the window, and at equal window sizes it
      takes besides only repeats. */
  lemma {:induction false} GuardImpliesVault(v: Store, ops: seq<Op>, next: Op, size: u64)
    requires OnlyStores(ops) && size <= 128
    requires next.StoreOp? && Mark(DirOf(v, next.gid)) == 0
    ensures var calls := Offered(ops, next.gid);
            var mark := W.After(size, calls).vMax;
            var guardTakes := W.Step(W.After(size, calls), size, next.counter).1;
            var vaultTakes := Stored(Run(v, ops), next.gid, next.index, next.data, next.counter,
                                     next.root, next.expected, next.now).1.Ok?;
            && (guardTakes ==> vaultTakes)
            && (mark < 0x1_0000_0000_0000_0000 - 128 ==> (vaultTakes <==> next.counter > SaturatingSub(mark, 128)))
            && (mark < 0x1_0000_0000_0000_0000 - 128 && size == 128 ==>
                  (vaultTakes && !guardTakes <==>
                   next.counter > SaturatingSub(mark, 128) && next.counter in W.Accepted(size, calls)))
  {
    var calls := Offered(ops, next.gid);
    SameMark(v, ops, next.gid, size);
    RefusalIsExact(Mark(DirOf(Run(v, ops), next.gid)));
    W.RunTracks(size, calls);
    W.StepTracks(W.After(size, calls), size, W.Accepted(size, calls), next.counter);
  }
}
