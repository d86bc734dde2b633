/** The legacy twin of the session guard (src/session.rs), with its constants built in and no
    packet counts, key or heartbeats. */
module LegacySession {
  import opened Numerics
  import opened Session
  import W = ReplayWindow

  datatype Legacy = Legacy(startTime: nat, lastActivity: nat, vMax: u64, bitmask: u128) {
    predicate IsValid(now: nat) {
      SaturatingSub(now, startTime) < DEFAULT_HARD_TIMEOUT
      && SaturatingSub(now, lastActivity) < DEFAULT_IDLE_TIMEOUT
    }
  }

  function NewLegacy(start: nat, active: nat): Legacy {
    Legacy(start, active, 0, 0)
  }

  /** The guard it is the twin of. */
  function DefaultGuard(peer: string, start: nat, active: nat): Guard {
    NewGuard(peer, start, active, DEFAULT_HARD_TIMEOUT, DEFAULT_IDLE_TIMEOUT, DEFAULT_WINDOW_SIZE)
  }

  function LegacyCheck(g: Legacy, counter: u64, now: nat, stamp: nat): (Legacy, bool) {
    if !g.IsValid(now) then (g, false)
    else if counter > g.vMax then
      var shift := counter - g.vMax;
      var mask := if shift >= DEFAULT_WINDOW_SIZE then 1 else Or128(Shl128(g.bitmask, shift), 0);
      (g.(vMax := counter, bitmask := mask, lastActivity := stamp), true)
    else if counter <= SaturatingSub(g.vMax, DEFAULT_WINDOW_SIZE) then (g, false)
    else if Test128(g.bitmask, g.vMax - counter) then (g, false)
    else (g.(bitmask := Or128(g.bitmask, g.vMax - counter), lastActivity := stamp), true)
  }

  function LegacyRun(g: Legacy, calls: seq<Call>): Legacy
    requires OnlyChecks(calls)
  {
    if calls == [] then g
    else
      var last := calls[|calls| - 1];
      LegacyCheck(LegacyRun(g, calls[..|calls| - 1]), last.counter, last.now, last.stamp).0
  }

  function LegacyAnswer(g: Legacy, calls: seq<Call>, i: nat): bool
    requires OnlyChecks(calls) && i < |calls|
  {
    LegacyCheck(LegacyRun(g, calls[..i]), calls[i].counter, calls[i].now, calls[i].stamp).1
  }

  predicate OnlyChecks(calls: seq<Call>) {
    forall i :: 0 <= i < |calls| ==> calls[i].CheckCall?
  }

  /** The twins look the same to a caller. */
  predicate Same(l: Legacy, g: Guard) {
    && l == Legacy(g.startTime, g.lastActivity, g.vMax, g.bitmask)
    && g.hardTimeout == DEFAULT_HARD_TIMEOUT && g.idleTimeout == DEFAULT_IDLE_TIMEOUT
    && g.windowSize == DEFAULT_WINDOW_SIZE
  }

  lemma {:induction false} TwinsStaySame(l: Legacy, g: Guard, calls: seq<Call>)
    requires Same(l, g) && OnlyChecks(calls)
    ensures Same(LegacyRun(l, calls), Run(g, calls))
  {
    if calls == [] {
    } else {
      TwinsStaySame(l, g, calls[..|calls| - 1]);
    }
  }

  /** On every run of checks the legacy guard answers as a default session guard does. */
  lemma {:induction false} LegacyAgrees(peer: string, start: nat, active: nat, calls: seq<Call>, i: nat)
    requires OnlyChecks(calls) && i < |calls|
    ensures LegacyAnswer(NewLegacy(start, active), calls, i) == Answer(DefaultGuard(peer, start, active), calls, i)
  {
    TwinsStaySame(NewLegacy(start, active), DefaultGuard(peer, start, active), calls[..i]);
  }

  /** Hence it too answers by the history rule. */
  lemma {:induction false} LegacyRefinesHistory(start: nat, active: nat, calls: seq<Call>, i: nat)
    requires OnlyChecks(calls) && i < |calls|
    ensures var at := LegacyRun(NewLegacy(start, active), calls[..i]);
            var seen := AcceptedBy(DefaultGuard("", start, active), calls[..i]);
            LegacyAnswer(NewLegacy(start, active), calls, i) <==>
            at.IsValid(calls[i].now) && W.IsNew(at.vMax, DEFAULT_WINDOW_SIZE, seen, calls[i].counter)
  {
    var g := DefaultGuard("", start, active);
    LegacyAgrees("", start, active, calls, i);
    TwinsStaySame(NewLegacy(start, active), g, calls[..i]);
    W.EmptyTracks(DEFAULT_WINDOW_SIZE);
    ChecksAreDistinct(g, calls[..i]);
    AnswersRefineHistory("", start, active, DEFAULT_HARD_TIMEOUT, DEFAULT_IDLE_TIMEOUT, DEFAULT_WINDOW_SIZE,
                         calls, i);
  }

  class LegacySessionGuard {
    var startTime: nat
    var lastActivity: nat
    var vMax: u64
    var bitmask: u128

    function State(): Legacy
      reads this
    {
      Legacy(startTime, lastActivity, vMax, bitmask)
    }

    constructor (start: nat, active: nat)
      ensures State() == NewLegacy(start, active)
    {
      startTime, lastActivity, vMax, bitmask := start, active, 0, 0;
    }

    method CheckAndUpdate(counter: u64, now: nat, stamp: nat) returns (ok: bool)
      modifies this
      ensures (State(), ok) == LegacyCheck(old(State()), counter, now, stamp)
    {
      if !State().IsValid(now) {
        return false;
      }
      if counter > vMax {
        var shift := counter - vMax;
        if shift >= DEFAULT_WINDOW_SIZE {
          bitmask := 1;
        } else {
          bitmask := Or128(Shl128(bitmask, shift), 0);
        }
        vMax := counter;
        lastActivity := stamp;
        return true;
      }
      if counter <= SaturatingSub(vMax, DEFAULT_WINDOW_SIZE) {
        return false;
      }
      var offset := vMax - counter;
      if Test128(bitmask, offset) {
        return false;
      }
      bitmask := Or128(bitmask, offset);
      lastActivity := stamp;
      return true;
    }
  }
}
