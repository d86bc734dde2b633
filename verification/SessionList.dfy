/** The session manager of src/session.rs: a list of guards looked up by fingerprint. Each
    operation holds the lock from beginning to end and is one step. */
module SessionList {
  import opened Wrappers
  import opened Session

  /** Position of the first guard for `fp`, or the length of the list. */
  function Position(list: seq<Guard>, fp: string): (i: nat)
    ensures i <= |list|
    ensures i < |list| ==> list[i].peer == fp
    ensures forall j :: 0 <= j < i ==> list[j].peer != fp
  {
    if list == [] || list[0].peer == fp then 0 else 1 + Position(list[1..], fp)
  }

  predicate Has(list: seq<Guard>, fp: string) {
    exists i :: 0 <= i < |list| && list[i].peer == fp
  }

  predicate UniquePeers(list: seq<Guard>) {
    forall i, j :: 0 <= i < j < |list| ==> list[i].peer != list[j].peer
  }

  /** The sub-list of the guards that pass `keep`, in their order. */
  function Keep(list: seq<Guard>, keep: Guard -> bool): (kept: seq<Guard>)
    ensures |kept| <= |list|
    ensures forall i :: 0 <= i < |kept| ==> keep(kept[i]) && kept[i] in list
    ensures forall i :: 0 <= i < |list| && keep(list[i]) ==> list[i] in kept
  {
    if list == [] then []
    else
      var rest := Keep(list[..|list| - 1], keep);
      if keep(list[|list| - 1]) then rest + [list[|list| - 1]] else rest
  }

  lemma {:induction false} KeepUnique(list: seq<Guard>, keep: Guard -> bool)
    requires UniquePeers(list)
    ensures UniquePeers(Keep(list, keep))
  {
    if list == [] {
    } else {
      KeepUnique(list[..|list| - 1], keep);
    }
  }

  lemma KeepOne(g: Guard, keep: Guard -> bool)
    ensures Keep([g], keep) == if keep(g) then [g] else []
    ensures Keep([], keep) == []
  {
    assert [g][..0] == [];
  }

  /** What `Keep` is: with KeepOne, it works element by element and keeps their order and number. */
  lemma {:induction false} KeepAppends(a: seq<Guard>, b: seq<Guard>, keep: Guard -> bool)
    ensures Keep(a + b, keep) == Keep(a, keep) + Keep(b, keep)
  {
    if b == [] {
      assert a + b == a;
    } else {
      var n := |b| - 1;
      assert (a + b)[..|a| + n] == a + b[..n];
      KeepAppends(a, b[..n], keep);
    }
  }

  function Upserted(list: seq<Guard>, fp: string, incoming: Guard): seq<Guard> {
    var i := Position(list, fp);
    if i < |list| then list[i := Adopt(list[i], incoming)] else list + [incoming]
  }

  function Found(list: seq<Guard>, fp: string): Option<Guard> {
    var i := Position(list, fp);
    if i < |list| then Some(list[i]) else None
  }

  /** Fingerprints stay unique under `upsert` exactly when the entry was there already or the
      guard that is pushed brings a fingerprint of its own. */
  lemma UpsertKeepsUnique(list: seq<Guard>, fp: string, incoming: Guard)
    requires UniquePeers(list)
    ensures UniquePeers(Upserted(list, fp, incoming)) <==> Has(list, fp) || !Has(list, incoming.peer)
  {
    var i, list' := Position(list, fp), Upserted(list, fp, incoming);
    if i < |list| {
      assert forall j :: 0 <= j < |list| ==> list'[j].peer == list[j].peer;
    } else {
      assert !Has(list, fp);
      assert list'[|list|] == incoming;
      assert forall j :: 0 <= j < |list| ==> list'[j] == list[j];
    }
  }

  /** An `upsert` moves no entry: it changes the first of that fingerprint or adds one at the end. */
  lemma UpsertKeepsPlaces(list: seq<Guard>, fp: string, incoming: Guard)
    ensures var list' := Upserted(list, fp, incoming);
            && |list'| == |list| + (if Has(list, fp) then 0 else 1)
            && (forall i :: 0 <= i < |list| && list[i].peer != fp ==> list'[i] == list[i])
            && (!Has(list, fp) ==> list'[|list|] == incoming)
            && (forall i, j :: 0 <= i < j < |list| && list[i].peer == fp ==> list'[j] == list[j])
  {
  }

  /** What a look-up sees after an `upsert` under the guard's own fingerprint: that entry, and
      every other as before. */
  lemma UpsertThenFind(list: seq<Guard>, incoming: Guard, other: string)
    ensures var list' := Upserted(list, incoming.peer, incoming);
            Found(list', other) ==
            if other != incoming.peer then Found(list, other)
            else if Has(list, other) then Some(Adopt(Found(list, other).value, incoming))
            else Some(incoming)
  {
    var fp := incoming.peer;
    var i, j, list' := Position(list, fp), Position(list, other), Upserted(list, fp, incoming);
    assert forall x :: 0 <= x < |list| ==> list'[x].peer == list[x].peer;
    var j' := Position(list', other);
    if j < |list| {
      assert list'[j].peer == other;
      assert j' == j;
    } else if other == fp {
      assert list'[|list|].peer == other;
      assert j' == |list|;
    }
  }

  class SessionManager {
    var sessions: seq<Guard>

    constructor ()
      ensures sessions == []
    {
      sessions := [];
    }

    method Upsert(fp: string, incoming: Guard)
      modifies this
      ensures sessions == Upserted(old(sessions), fp, incoming)
    {
      var i := 0;
      while i < |sessions| && sessions[i].peer != fp
        invariant i <= |sessions| && sessions == old(sessions)
        invariant forall j :: 0 <= j < i ==> sessions[j].peer != fp
      {
        i := i + 1;
      }
      if i < |sessions| {
        sessions := sessions[i := Adopt(sessions[i], incoming)];
      } else {
        sessions := sessions + [incoming];
      }
    }

    method Find(fp: string) returns (found: Option<Guard>)
      ensures found == Found(sessions, fp)
      ensures found.Some? <==> Has(sessions, fp)
    {
      var i := 0;
      while i < |sessions|
        invariant i <= |sessions|
        invariant forall j :: 0 <= j < i ==> sessions[j].peer != fp
      {
        if sessions[i].peer == fp {
          return Some(sessions[i]);
        }
        i := i + 1;
      }
      return None;
    }

    method Remove(fp: string)
      modifies this
      ensures sessions == Keep(old(sessions), (s: Guard) => s.peer != fp)
      ensures !Has(sessions, fp)
    {
      var keep := (s: Guard) => s.peer != fp;
      sessions := Retained(sessions, keep);
    }

    /** Drops the guards that have expired at `now` and no other; the answer is their number. */
    method ExpireStale(now: nat) returns (expired: nat)
      modifies this
      ensures sessions == Keep(old(sessions), (s: Guard) => s.IsValid(now))
      ensures expired + |sessions| == |old(sessions)|
    {
      var before := |sessions|;
      var keep := (s: Guard) => s.IsValid(now);
      sessions := Retained(sessions, keep);
      expired := before - |sessions|;
    }
  }

  /** `Vec::retain`. */
  method Retained(list: seq<Guard>, keep: Guard -> bool) returns (kept: seq<Guard>)
    ensures kept == Keep(list, keep)
  {
    kept := [];
    for i := 0 to |list|
      invariant kept == Keep(list[..i], keep)
    {
      assert list[..i + 1][..i] == list[..i];
      if keep(list[i]) {
        kept := kept + [list[i]];
      }
    }
    assert list[..|list|] == list;
  }
}
