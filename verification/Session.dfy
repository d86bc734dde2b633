/** The per-peer session guard of src/session.rs and the calls made on it.

    Instants and durations are nanosecond counts; a call that reads the clock gets the
    readings as parameters. `duration_since` saturates at zero. */
module Session {
  import opened Numerics
  import opened Wrappers
  import W = ReplayWindow

  const DEFAULT_WINDOW_SIZE: u64 := 128
  const NANOS_PER_SEC: nat := 1_000_000_000
  const DEFAULT_HARD_TIMEOUT: nat := 86400 * NANOS_PER_SEC
  const DEFAULT_IDLE_TIMEOUT: nat := 1800 * NANOS_PER_SEC
  const HEARTBEAT_MISSED_THRESHOLD: nat := 3
  const U32_LIMIT: nat := 0x1_0000_0000

  type u32 = n: nat | n < U32_LIMIT
  type Key = seq<nat>

  datatype Guard = Guard(
    peer: string,
    startTime: nat,
    lastActivity: nat,
    vMax: u64,
    bitmask: u128,
    windowSize: u64,
    hardTimeout: nat,
    idleTimeout: nat,
    received: u64,
    replayed: u64,
    masterKey: Option<Key>,
    missed: u32
  ) {
    function Window(): W.Window {
      W.Window(vMax, bitmask)
    }

    predicate HardAlive(now: nat) {
      SaturatingSub(now, startTime) < hardTimeout
    }

    predicate IdleAlive(now: nat) {
      SaturatingSub(now, lastActivity) < idleTimeout
    }

    predicate IsValid(now: nat) {
      HardAlive(now) && IdleAlive(now)
    }
  }

  /** Start and last activity are two readings of the clock. */
  function NewGuard(peer: string, start: nat, active: nat, hard: nat, idle: nat, size: u64): Guard {
    Guard(peer, start, active, 0, 0, size, hard, idle, 0, 0, None, 0)
  }

  // ---------- What each call does to a guard ----------

  /** `check_and_update`: `now` is the reading of the validity test, `stamp` the later one
      that is stored. */
  function Check(g: Guard, counter: u64, now: nat, stamp: nat): (Guard, bool) {
    if !g.IsValid(now) then
      (g, false)
    else
      var counted := g.(received := WrapAdd(g.received, 1));
      var (w, ok) := W.Step(g.Window(), g.windowSize, counter);
      if ok then
        (counted.(vMax := w.vMax, bitmask := w.bitmask, lastActivity := stamp, missed := 0), true)
      else
        (counted.(replayed := WrapAdd(g.replayed, 1)), false)
  }

  function Heartbeat(g: Guard, now: nat): Guard {
    g.(lastActivity := now, missed := 0)
  }

  function MissHeartbeat(g: Guard): (Guard, bool) {
    var missed := (g.missed + 1) % U32_LIMIT;
    if missed >= HEARTBEAT_MISSED_THRESHOLD then
      (g.(missed := missed, masterKey := None), true)
    else
      (g.(missed := missed), false)
  }

  /** `upsert` onto an existing entry. */
  function Adopt(existing: Guard, incoming: Guard): Guard {
    existing.(masterKey := if incoming.masterKey.Some? then incoming.masterKey else existing.masterKey,
              lastActivity := incoming.lastActivity,
              vMax := incoming.vMax,
              bitmask := incoming.bitmask)
  }

  datatype Call =
    | CheckCall(counter: u64, now: nat, stamp: nat)
    | HeartbeatCall(now: nat)
    | MissCall
    | WipeCall
    | SetKeyCall(key: Key)
    | UpsertCall(incoming: Guard)

  function Perform(g: Guard, call: Call): (Guard, bool) {
    match call
    case CheckCall(counter, now, stamp) => Check(g, counter, now, stamp)
    case HeartbeatCall(now) => (Heartbeat(g, now), true)
    case MissCall => MissHeartbeat(g)
    case WipeCall => (g.(masterKey := None), true)
    case SetKeyCall(key) => (g.(masterKey := Some(key)), true)
    case UpsertCall(incoming) => (Adopt(g, incoming), true)
  }

  /** The guard after a run of calls. */
  function Run(g: Guard, calls: seq<Call>): Guard {
    if calls == [] then g
    else Perform(Run(g, calls[..|calls| - 1]), calls[|calls| - 1]).0
  }

  /** The answer to call `i` of a run. */
  function Answer(g: Guard, calls: seq<Call>, i: nat): bool
    requires i < |calls|
  {
    Perform(Run(g, calls[..i]), calls[i]).1
  }

  // ---------- The guard refines its history ----------

  /** The counters a run of calls accepted. */
  function AcceptedBy(g: Guard, calls: seq<Call>): set<u64> {
    if calls == [] then {}
    else
      var before, last := calls[..|calls| - 1], calls[|calls| - 1];
      AcceptedBy(g, before)
      + if last.CheckCall? && Perform(Run(g, before), last).1 then {last.counter} else {}
  }

  /** How many checks of the run were accepted. */
  function AcceptedChecks(g: Guard, calls: seq<Call>): nat {
    if calls == [] then 0
    else
      var before, last := calls[..|calls| - 1], calls[|calls| - 1];
      AcceptedChecks(g, before) + if last.CheckCall? && Perform(Run(g, before), last).1 then 1 else 0
  }

  /** The history the guard stands for after a run, if it stood for `start` before it: accepted
      counters are added, and an `upsert` puts the incoming window's memory in its place. */
  function Seen(g: Guard, start: set<u64>, calls: seq<Call>): set<u64> {
    if calls == [] then start
    else
      var before := calls[..|calls| - 1];
      SeenAfter(Run(g, before), Seen(g, start, before), calls[|calls| - 1])
  }

  function SeenAfter(g: Guard, seen: set<u64>, call: Call): set<u64> {
    if call.UpsertCall? then W.Remembered(call.incoming.Window(), g.windowSize)
    else if call.CheckCall? && Perform(g, call).1 then seen + {call.counter}
    else seen
  }

  /** The incoming windows are ones a guard can have; GuardsAreSound shows that all are. */
  ghost predicate SoundUpserts(calls: seq<Call>) {
    forall i :: 0 <= i < |calls| && calls[i].UpsertCall? ==> W.Sound(calls[i].incoming.Window())
  }

  /** No call in the run replaces the window by another guard's. */
  predicate KeepsWindow(calls: seq<Call>) {
    forall i :: 0 <= i < |calls| ==> !calls[i].UpsertCall?
  }

  /** Whatever the window sizes, every guard that comes of calls has a sound window. */
  lemma {:induction false} GuardsAreSound(g: Guard, calls: seq<Call>)
    requires W.Sound(g.Window()) && SoundUpserts(calls)
    ensures W.Sound(Run(g, calls).Window())
  {
    if calls == [] {
    } else {
      var before, last := calls[..|calls| - 1], calls[|calls| - 1];
      GuardsAreSound(g, before);
      if last.CheckCall? {
        W.StepIsSound(Run(g, before).Window(), Run(g, before).windowSize, last.counter);
      }
    }
  }

  /** A live call answers by the history rule, a dead one refuses and changes nothing. */
  lemma CheckTracks(g: Guard, seen: set<u64>, counter: u64, now: nat, stamp: nat)
    requires g.windowSize <= 128 && W.Tracks(g.Window(), g.windowSize, seen)
    ensures var (g', ok) := Check(g, counter, now, stamp);
            && (ok <==> g.IsValid(now) && W.IsNew(g.vMax, g.windowSize, seen, counter))
            && W.Tracks(g'.Window(), g.windowSize, if ok then seen + {counter} else seen)
            && (!g.IsValid(now) ==> g' == g)
  {
    W.StepTracks(g.Window(), g.windowSize, seen, counter);
  }

  lemma CallTracks(g: Guard, seen: set<u64>, call: Call)
    requires g.windowSize <= 128 && W.Tracks(g.Window(), g.windowSize, seen)
    requires call.UpsertCall? ==> W.Sound(call.incoming.Window())
    ensures W.Tracks(Perform(g, call).0.Window(), g.windowSize, SeenAfter(g, seen, call))
    ensures Perform(g, call).0.windowSize == g.windowSize
  {
    match call
    case CheckCall(counter, now, stamp) => CheckTracks(g, seen, counter, now, stamp);
    case UpsertCall(incoming) => W.RememberedTracks(incoming.Window(), g.windowSize);
    case HeartbeatCall(_) =>
    case MissCall =>
    case WipeCall =>
    case SetKeyCall(_) =>
  }

  /** On every run of every kind of call: the guard is its history. */
  lemma {:induction false} RunTracks(g: Guard, start: set<u64>, calls: seq<Call>)
    requires g.windowSize <= 128 && W.Tracks(g.Window(), g.windowSize, start) && SoundUpserts(calls)
    ensures W.Tracks(Run(g, calls).Window(), g.windowSize, Seen(g, start, calls))
    ensures Run(g, calls).windowSize == g.windowSize
  {
    if calls == [] {
    } else {
      var before := calls[..|calls| - 1];
      RunTracks(g, start, before);
      CallTracks(Run(g, before), Seen(g, start, before), calls[|calls| - 1]);
    }
  }

  /** The session's promise, from a new guard on and with any calls before. */
  lemma AnswersRefineHistory(peer: string, start: nat, active: nat, hard: nat, idle: nat, size: u64,
                             calls: seq<Call>, i: nat)
    requires size <= 128 && SoundUpserts(calls)
    requires i < |calls| && calls[i].CheckCall?
    ensures var g := NewGuard(peer, start, active, hard, idle, size);
            var at := Run(g, calls[..i]);
            Answer(g, calls, i) <==>
            at.IsValid(calls[i].now) && W.IsNew(at.vMax, size, Seen(g, {}, calls[..i]), calls[i].counter)
  {
    var g := NewGuard(peer, start, active, hard, idle, size);
    W.EmptyTracks(size);
    RunTracks(g, {}, calls[..i]);
    CheckTracks(Run(g, calls[..i]), Seen(g, {}, calls[..i]), calls[i].counter, calls[i].now, calls[i].stamp);
  }

  // ---------- Packet counts ----------

  lemma WrapSubSteps(a: u64, b: u64, n: nat)
    requires WrapSub(a, b) == n % U64_LIMIT
    ensures WrapSub(WrapAdd(a, 1), WrapAdd(b, 1)) == n % U64_LIMIT
    ensures WrapSub(WrapAdd(a, 1), b) == (n + 1) % U64_LIMIT
  {
  }

  /** Received minus replayed packets is the number of accepted checks, modulo the width of the
      counts, on every run and even when the counts wrap. */
  lemma {:induction false} CountsFollow(g: Guard, calls: seq<Call>)
    requires g.received == g.replayed
    ensures WrapSub(Run(g, calls).received, Run(g, calls).replayed) == AcceptedChecks(g, calls) % U64_LIMIT
  {
    if calls == [] {
    } else {
      var before, last := calls[..|calls| - 1], calls[|calls| - 1];
      CountsFollow(g, before);
      WrapSubSteps(Run(g, before).received, Run(g, before).replayed, AcceptedChecks(g, before));
    }
  }

  lemma {:induction false} FewCounters(s: set<u64>, n: nat)
    requires forall c <- s :: 0 < c <= n
    ensures |s| <= n
  {
    if n == 0 {
      assert s == {};
    } else {
      FewCounters(s - {n}, n - 1);
      assert s - {n} == s || s == (s - {n}) + {n};
    }
  }

  lemma HistoryIsSmall(s: set<u64>)
    requires 0 !in s
    ensures |s| < U64_LIMIT
  {
    FewCounters(s, U64_LIMIT - 1);
  }

  lemma SmallRemainder(n: nat, d: nat)
    requires n < d
    ensures n % d == n
  {
  }

  lemma {:induction false} ChecksAreDistinct(g: Guard, calls: seq<Call>)
    requires g.windowSize <= 128 && W.Tracks(g.Window(), g.windowSize, {}) && KeepsWindow(calls)
    ensures Seen(g, {}, calls) == AcceptedBy(g, calls) && AcceptedChecks(g, calls) == |AcceptedBy(g, calls)|
    ensures 0 !in AcceptedBy(g, calls)
  {
    if calls == [] {
    } else {
      var before, last := calls[..|calls| - 1], calls[|calls| - 1];
      ChecksAreDistinct(g, before);
      RunTracks(g, {}, before);
      if last.CheckCall? {
        CheckTracks(Run(g, before), Seen(g, {}, before), last.counter, last.now, last.stamp);
      }
    }
  }

  /** Without an `upsert` that is the number of distinct accepted counters, exactly. */
  lemma {:induction false} DistinctCounts(g: Guard, calls: seq<Call>)
    requires g.windowSize <= 128 && W.Tracks(g.Window(), g.windowSize, {}) && KeepsWindow(calls)
    requires g.received == g.replayed
    ensures WrapSub(Run(g, calls).received, Run(g, calls).replayed) == |AcceptedBy(g, calls)|
  {
    CountsFollow(g, calls);
    ChecksAreDistinct(g, calls);
    HistoryIsSmall(AcceptedBy(g, calls));
    SmallRemainder(AcceptedChecks(g, calls), U64_LIMIT);
  }

  /** How many checks of the run found the session alive. */
  function LiveChecks(g: Guard, calls: seq<Call>): nat {
    if calls == [] then 0
    else
      var before, last := calls[..|calls| - 1], calls[|calls| - 1];
      LiveChecks(g, before) + if last.CheckCall? && Run(g, before).IsValid(last.now) then 1 else 0
  }

  lemma CountSteps(count: u64, from: u64, n: nat)
    requires count == (from + n) % U64_LIMIT
    ensures WrapAdd(count, 1) == (from + (n + 1)) % U64_LIMIT
  {
  }

  lemma CallCounts(g: Guard, call: Call)
    ensures var (g', ok) := Perform(g, call);
            var live := call.CheckCall? && g.IsValid(call.now);
            && g'.received == (if live then WrapAdd(g.received, 1) else g.received)
            && g'.replayed == (if live && !ok then WrapAdd(g.replayed, 1) else g.replayed)
            && (call.CheckCall? && ok ==> live)
  {
  }

  /** Each count by itself: packets received are the checks of a live session, packets replayed
      those of them that were refused. */
  lemma {:induction false} EachCountFollows(g: Guard, calls: seq<Call>)
    ensures AcceptedChecks(g, calls) <= LiveChecks(g, calls)
    ensures Run(g, calls).received == (g.received + LiveChecks(g, calls)) % 0x1_0000_0000_0000_0000
    ensures Run(g, calls).replayed
            == (g.replayed + (LiveChecks(g, calls) - AcceptedChecks(g, calls))) % 0x1_0000_0000_0000_0000
  {
    if calls == [] {
    } else {
      var before, last := calls[..|calls| - 1], calls[|calls| - 1];
      EachCountFollows(g, before);
      CallCounts(Run(g, before), last);
      CountSteps(Run(g, before).received, g.received, LiveChecks(g, before));
      CountSteps(Run(g, before).replayed, g.replayed, LiveChecks(g, before) - AcceptedChecks(g, before));
    }
  }

  // ---------- What the calls leave in a guard ----------

  /** Call `last` after the run `before` is an accepted packet. */
  predicate IsAccepted(g: Guard, before: seq<Call>, last: Call) {
    last.CheckCall? && Perform(Run(g, before), last).1
  }

  /** The last sign of life: a heartbeat, an accepted packet, or the activity an upsert brings. */
  function LastActive(g: Guard, calls: seq<Call>): nat {
    if calls == [] then g.lastActivity
    else
      var before, last := calls[..|calls| - 1], calls[|calls| - 1];
      if last.HeartbeatCall? then last.now
      else if last.UpsertCall? then last.incoming.lastActivity
      else if IsAccepted(g, before, last) then last.stamp
      else LastActive(g, before)
  }

  /** Heartbeats missed since the last accepted packet or heartbeat. */
  function MissedSince(g: Guard, calls: seq<Call>): nat {
    if calls == [] then g.missed
    else
      var before, last := calls[..|calls| - 1], calls[|calls| - 1];
      if last.HeartbeatCall? || IsAccepted(g, before, last) then 0
      else MissedSince(g, before) + if last.MissCall? then 1 else 0
  }

  /** The key: set, brought by an upsert, or wiped, by command or by three missed heartbeats. */
  function KeyHeld(g: Guard, calls: seq<Call>): Option<Key> {
    if calls == [] then g.masterKey
    else
      var before, last := calls[..|calls| - 1], calls[|calls| - 1];
      match last
      case SetKeyCall(key) => Some(key)
      case WipeCall => None
      case UpsertCall(incoming) => if incoming.masterKey.Some? then incoming.masterKey else KeyHeld(g, before)
      case MissCall => if MissedSince(g, calls) % 0x1_0000_0000 >= 3 then None else KeyHeld(g, before)
      case CheckCall(_, _, _) => KeyHeld(g, before)
      case HeartbeatCall(_) => KeyHeld(g, before)
  }

  lemma CountMod(n: nat)
    ensures (n % U32_LIMIT + 1) % U32_LIMIT == (n + 1) % U32_LIMIT
  {
  }

  lemma CallMisses(g: Guard, call: Call)
    ensures var (g', ok) := Perform(g, call);
            g'.missed == if call.HeartbeatCall? || (call.CheckCall? && ok) then 0
                         else if call.MissCall? then (g.missed + 1) % U32_LIMIT else g.missed
  {
  }

  /** After every run the missed heartbeats are those since the last accepted packet or heartbeat,
      modulo the width of the count. */
  lemma {:induction false} MissesFollow(g: Guard, calls: seq<Call>)
    ensures Run(g, calls).missed == MissedSince(g, calls) % 0x1_0000_0000
  {
    if calls == [] {
    } else {
      var before, last := calls[..|calls| - 1], calls[|calls| - 1];
      MissesFollow(g, before);
      CallMisses(Run(g, before), last);
      CountMod(MissedSince(g, before));
    }
  }

  /** And the key is the one last set or brought and not wiped since. */
  lemma {:induction false} KeyFollows(g: Guard, calls: seq<Call>)
    ensures Run(g, calls).masterKey == KeyHeld(g, calls)
  {
    if calls == [] {
    } else {
      KeyFollows(g, calls[..|calls| - 1]);
      MissesFollow(g, calls);
    }
  }

  /** A missed heartbeat wipes the key, and says so, iff it is the third or a later one since the
      last accepted packet or heartbeat. */
  lemma {:induction false} ThirdMissSinceWipes(g: Guard, calls: seq<Call>)
    requires MissedSince(g, calls) + 1 < 0x1_0000_0000
    ensures var (g', wiped) := Perform(Run(g, calls), MissCall);
            && (wiped <==> MissedSince(g, calls) + 1 >= 3)
            && g'.masterKey == if wiped then None else Run(g, calls).masterKey
  {
    MissesFollow(g, calls);
  }

  lemma CallKeepsLimits(g: Guard, call: Call)
    ensures var (g', ok) := Perform(g, call);
            && g'.peer == g.peer && g'.startTime == g.startTime && g'.windowSize == g.windowSize
            && g'.hardTimeout == g.hardTimeout && g'.idleTimeout == g.idleTimeout
            && g'.lastActivity == if call.HeartbeatCall? then call.now
                                  else if call.UpsertCall? then call.incoming.lastActivity
                                  else if call.CheckCall? && ok then call.stamp
                                  else g.lastActivity
  {
  }

  /** Nothing moves the start, the limits or the peer, and the last activity is the last sign of
      life. */
  lemma {:induction false} RunKeepsLimits(g: Guard, calls: seq<Call>)
    ensures var at := Run(g, calls);
            && at.peer == g.peer && at.startTime == g.startTime && at.windowSize == g.windowSize
            && at.hardTimeout == g.hardTimeout && at.idleTimeout == g.idleTimeout
            && at.lastActivity == LastActive(g, calls)
  {
    if calls == [] {
    } else {
      var before, last := calls[..|calls| - 1], calls[|calls| - 1];
      RunKeepsLimits(g, before);
      CallKeepsLimits(Run(g, before), last);
    }
  }

  /** So the session is alive while the start is less than the hard limit ago and the last sign of
      life less than the idle limit. */
  lemma {:induction false} RunIsAlive(g: Guard, calls: seq<Call>, now: nat)
    ensures Run(g, calls).IsValid(now) <==>
            && 0 < g.hardTimeout && now < g.startTime + g.hardTimeout
            && 0 < g.idleTimeout && now < LastActive(g, calls) + g.idleTimeout
  {
    RunKeepsLimits(g, calls);
    AliveIff(Run(g, calls), now);
  }

  lemma AliveIff(g: Guard, now: nat)
    ensures g.IsValid(now) <==>
            && 0 < g.hardTimeout && now < g.startTime + g.hardTimeout
            && 0 < g.idleTimeout && now < g.lastActivity + g.idleTimeout
  {
  }

  /** The defaults: a day from the start, half an hour from the last sign of life, 128 counters. */
  lemma DefaultsSpelledOut(peer: string, start: nat, active: nat, now: nat)
    ensures var g := NewGuard(peer, start, active, DEFAULT_HARD_TIMEOUT, DEFAULT_IDLE_TIMEOUT, DEFAULT_WINDOW_SIZE);
            && (g.IsValid(now) <==> now < start + 86_400_000_000_000 && now < active + 1_800_000_000_000)
            && g.windowSize == 128 && g.peer == peer && g.Window() == W.Window(0, 0)
            && g.received == g.replayed == 0 && g.masterKey == None && g.missed == 0
  {
  }

  // ---------- Expiry ----------

  /** Every clock reading of the run is at or after `now`. */
  predicate NotBefore(calls: seq<Call>, now: nat) {
    forall i :: 0 <= i < |calls| && calls[i].CheckCall? ==> now <= calls[i].now
  }

  /** Once the hard timeout has passed, no call of any kind, an `upsert` included, brings the
      session back: no counter is accepted any more and no packet is counted. */
  lemma {:induction false} HardExpiryAbsorbs(g: Guard, calls: seq<Call>, now: nat, later: nat)
    requires !g.HardAlive(now) && now <= later && NotBefore(calls, now)
    ensures !Run(g, calls).IsValid(later)
    ensures Run(g, calls).startTime == g.startTime && Run(g, calls).hardTimeout == g.hardTimeout
    ensures AcceptedBy(g, calls) == {}
    ensures Run(g, calls).received == g.received && Run(g, calls).replayed == g.replayed
  {
    if calls == [] {
    } else {
      var before, last := calls[..|calls| - 1], calls[|calls| - 1];
      HardExpiryAbsorbs(g, before, now, if last.CheckCall? then last.now else now);
    }
  }

  /** A run of checks and missed heartbeats only. */
  predicate ChecksAndMisses(calls: seq<Call>) {
    forall i :: 0 <= i < |calls| ==> calls[i].CheckCall? || calls[i].MissCall?
  }

  /** Once idle, checks and missed heartbeats leave the session idle for good. */
  lemma {:induction false} IdleExpiryAbsorbs(g: Guard, calls: seq<Call>, now: nat, later: nat)
    requires !g.IdleAlive(now) && now <= later && NotBefore(calls, now)
    requires ChecksAndMisses(calls)
    ensures !Run(g, calls).IsValid(later)
    ensures AcceptedBy(g, calls) == {}
    ensures Run(g, calls).Window() == g.Window()
    ensures Run(g, calls).lastActivity == g.lastActivity && Run(g, calls).idleTimeout == g.idleTimeout
  {
    if calls == [] {
    } else {
      var before, last := calls[..|calls| - 1], calls[|calls| - 1];
      IdleExpiryAbsorbs(g, before, now, if last.CheckCall? then last.now else now);
    }
  }

  /** A heartbeat does revive an idle session, exactly while the hard timeout has not passed
      and a positive idle timeout is set. */
  lemma HeartbeatRevives(g: Guard, now: nat)
    ensures Heartbeat(g, now).IsValid(now) <==> g.HardAlive(now) && 0 < g.idleTimeout
  {
  }

  // ---------- Missed heartbeats ----------

  /** `n` heartbeats missed in a row. */
  function Misses(n: nat): seq<Call> {
    seq(n, _ => MissCall)
  }

  /** From a guard with nothing missed, the master key is wiped by the third consecutive
      miss and not before. */
  lemma {:induction false} ThirdMissWipes(g: Guard, n: nat)
    requires g.missed == 0 && g.masterKey.Some? && n < U32_LIMIT
    ensures Run(g, Misses(n)).missed == n
    ensures Run(g, Misses(n)).masterKey == if n < 3 then g.masterKey else None
  {
    if n == 0 {
    } else {
      ThirdMissWipes(g, n - 1);
      assert Misses(n)[..n - 1] == Misses(n - 1);
    }
  }

  // ---------- Upsert ----------

  /** An `upsert` makes the existing entry stand for what the incoming window remembers; its own
      history is forgotten. */
  lemma UpsertTakesHistory(existing: Guard, incoming: Guard, counter: u64, now: nat, stamp: nat)
    requires existing.windowSize <= 128 && W.Sound(incoming.Window())
    ensures var g, theirs := Adopt(existing, incoming), W.Remembered(incoming.Window(), existing.windowSize);
            && W.Tracks(g.Window(), g.windowSize, theirs)
            && (Check(g, counter, now, stamp).1 <==>
                g.IsValid(now) && W.IsNew(incoming.vMax, existing.windowSize, theirs, counter))
  {
    W.RememberedTracks(incoming.Window(), existing.windowSize);
    CheckTracks(Adopt(existing, incoming), W.Remembered(incoming.Window(), existing.windowSize),
                counter, now, stamp);
  }

  /** A window refuses all of `seen`: each lies below its edge or is remembered. */
  predicate Covers(w: W.Window, size: u64, seen: set<u64>) {
    forall c <- seen :: c <= SaturatingSub(w.vMax, size) || c in W.Remembered(w, size)
  }

  /** An `upsert` is safe for the counters accepted so far iff the incoming window covers them;
      any other one lets a live session accept one of them again. */
  lemma UpsertIsSafe(existing: Guard, incoming: Guard, seen: set<u64>, now: nat, stamp: nat)
    requires existing.windowSize <= 128 && W.Sound(incoming.Window())
    requires Adopt(existing, incoming).IsValid(now)
    ensures (forall c <- seen :: !Check(Adopt(existing, incoming), c, now, stamp).1)
            <==> Covers(incoming.Window(), existing.windowSize, seen)
  {
    forall c | c in seen
      ensures Check(Adopt(existing, incoming), c, now, stamp).1 <==>
              !(c <= SaturatingSub(incoming.vMax, existing.windowSize)
                || c in W.Remembered(incoming.Window(), existing.windowSize))
    {
      UpsertTakesHistory(existing, incoming, c, now, stamp);
    }
  }

  /** The same in terms of the two histories, if the incoming window is at least as wide: what was
      accepted must have been accepted by the incoming guard too, or lie below its edge. */
  lemma UpsertIsSafeByHistory(existing: Guard, incoming: Guard, seen: set<u64>, theirs: set<u64>,
                              now: nat, stamp: nat)
    requires existing.windowSize <= 128 && existing.windowSize <= incoming.windowSize
    requires W.Tracks(incoming.Window(), incoming.windowSize, theirs)
    requires Adopt(existing, incoming).IsValid(now)
    ensures (forall c <- seen :: !Check(Adopt(existing, incoming), c, now, stamp).1) <==>
            (forall c <- seen :: c in theirs || c <= SaturatingSub(incoming.vMax, existing.windowSize))
  {
    forall c | c in seen
      ensures Check(Adopt(existing, incoming), c, now, stamp).1 <==>
              W.IsNew(incoming.vMax, existing.windowSize, theirs, c)
    {
      CheckTracks(Adopt(existing, incoming), theirs, c, now, stamp);
    }
  }

  /** Every `upsert` of the run covers what was accepted before it. */
  predicate CoveringUpserts(g: Guard, calls: seq<Call>) {
    forall i :: 0 <= i < |calls| && calls[i].UpsertCall? ==>
      Covers(calls[i].incoming.Window(), g.windowSize, AcceptedBy(g, calls[..i]))
  }

  /** Nothing accepted so far is new to the guard. */
  lemma {:induction false} AcceptedStaysOld(g: Guard, calls: seq<Call>)
    requires g.windowSize <= 128 && W.Tracks(g.Window(), g.windowSize, {})
    requires SoundUpserts(calls) && CoveringUpserts(g, calls)
    ensures forall c <- AcceptedBy(g, calls) ::
              !W.IsNew(Run(g, calls).vMax, g.windowSize, Seen(g, {}, calls), c)
  {
    if calls == [] {
    } else {
      var before, last := calls[..|calls| - 1], calls[|calls| - 1];
      assert CoveringUpserts(g, before) by {
        assert forall i :: 0 <= i < |before| ==> before[..i] == calls[..i];
      }
      AcceptedStaysOld(g, before);
      RunTracks(g, {}, before);
      if last.CheckCall? {
        W.StepTracks(Run(g, before).Window(), g.windowSize, Seen(g, {}, before), last.counter);
      } else if last.UpsertCall? {
        assert Covers(last.incoming.Window(), g.windowSize, AcceptedBy(g, before));
      }
    }
  }

  /** Replay protection across runs with upserts: if each covers the past, no counter is accepted
      twice. An upsert that does not cover it lets a counter in again right after it (UpsertIsSafe),
      unless another call comes between. */
  lemma {:induction false} NeverTwice(g: Guard, calls: seq<Call>, i: nat)
    requires g.windowSize <= 128 && W.Tracks(g.Window(), g.windowSize, {})
    requires i < |calls| && calls[i].CheckCall? && Answer(g, calls, i)
    requires SoundUpserts(calls[..i]) && CoveringUpserts(g, calls[..i])
    ensures calls[i].counter !in AcceptedBy(g, calls[..i])
  {
    var before := calls[..i];
    RunTracks(g, {}, before);
    AcceptedStaysOld(g, before);
    CheckTracks(Run(g, before), Seen(g, {}, before), calls[i].counter, calls[i].now, calls[i].stamp);
  }

  /** An `upsert` of a fresh guard covers nothing: any positive counter is accepted after it, also
      one accepted before. */
  lemma FreshUpsertForgets(existing: Guard, incoming: Guard, counter: u64, now: nat, stamp: nat)
    requires existing.windowSize <= 128 && incoming.Window() == W.EMPTY
    requires Adopt(existing, incoming).IsValid(now)
    ensures Check(Adopt(existing, incoming), counter, now, stamp).1 <==> 0 < counter
    ensures Covers(incoming.Window(), existing.windowSize, {counter}) <==> counter == 0
  {
    W.EmptyIsSound();
    UpsertTakesHistory(existing, incoming, counter, now, stamp);
    UpsertIsSafe(existing, incoming, {counter}, now, stamp);
  }

  // ---------- The guard object ----------

  class SessionGuard {
    var peer: string
    var startTime: nat
    var lastActivity: nat
    var vMax: u64
    var bitmask: u128
    var windowSize: u64
    var hardTimeout: nat
    var idleTimeout: nat
    var received: u64
    var replayed: u64
    var masterKey: Option<Key>
    var missed: u32

    function State(): Guard
      reads this
    {
      Guard(peer, startTime, lastActivity, vMax, bitmask, windowSize, hardTimeout, idleTimeout,
            received, replayed, masterKey, missed)
    }

    constructor (peer: string, start: nat, active: nat)
      ensures State() == NewGuard(peer, start, active, DEFAULT_HARD_TIMEOUT, DEFAULT_IDLE_TIMEOUT,
                                  DEFAULT_WINDOW_SIZE)
    {
      this.peer := peer;
      startTime, lastActivity := start, active;
      vMax, bitmask, windowSize := 0, 0, DEFAULT_WINDOW_SIZE;
      hardTimeout, idleTimeout := DEFAULT_HARD_TIMEOUT, DEFAULT_IDLE_TIMEOUT;
      received, replayed, masterKey, missed := 0, 0, None, 0;
    }

    constructor WithTimeouts(peer: string, hardSecs: nat, idleSecs: nat, windowSize: u64,
                             start: nat, active: nat)
      ensures State() == NewGuard(peer, start, active, hardSecs * 1_000_000_000, idleSecs * 1_000_000_000,
                                  windowSize)
    {
      this.peer := peer;
      startTime, lastActivity := start, active;
      vMax, bitmask, this.windowSize := 0, 0, windowSize;
      hardTimeout, idleTimeout := hardSecs * NANOS_PER_SEC, idleSecs * NANOS_PER_SEC;
      received, replayed, masterKey, missed := 0, 0, None, 0;
    }

    method SetMasterKey(key: Key)
      modifies this
      ensures (State(), true) == Perform(old(State()), SetKeyCall(key))
    {
      masterKey := Some(key);
    }

    method IsValid(now: nat) returns (valid: bool)
      ensures valid == State().IsValid(now)
    {
      valid := SaturatingSub(now, startTime) < hardTimeout && SaturatingSub(now, lastActivity) < idleTimeout;
    }

    method CheckAndUpdate(counter: u64, now: nat, stamp: nat) returns (ok: bool)
      modifies this
      ensures (State(), ok) == Perform(old(State()), CheckCall(counter, now, stamp))
    {
      var valid := IsValid(now);
      if !valid {
        return false;
      }
      received := WrapAdd(received, 1);
      if counter > vMax {
        var shift := counter - vMax;
        if shift >= windowSize {
          bitmask := 1;
        } else {
          bitmask := Or128(Shl128(bitmask, shift), 0);
        }
        vMax := counter;
        lastActivity := stamp;
        missed := 0;
        return true;
      }
      if counter <= SaturatingSub(vMax, windowSize) {
        replayed := WrapAdd(replayed, 1);
        return false;
      }
      var offset := vMax - counter;
      if Test128(bitmask, offset) {
        replayed := WrapAdd(replayed, 1);
        return false;
      }
      bitmask := Or128(bitmask, offset);
      lastActivity := stamp;
      missed := 0;
      return true;
    }

    method Heartbeat(now: nat)
      modifies this
      ensures (State(), true) == Perform(old(State()), HeartbeatCall(now))
    {
      lastActivity := now;
      missed := 0;
    }

    method MissHeartbeat() returns (wiped: bool)
      modifies this
      ensures (State(), wiped) == Perform(old(State()), MissCall)
    {
      missed := (missed + 1) % U32_LIMIT;
      wiped := missed >= HEARTBEAT_MISSED_THRESHOLD;
      if wiped {
        TriggerWipe();
      }
    }

    method TriggerWipe()
      modifies this
      ensures (State(), true) == Perform(old(State()), WipeCall)
    {
      if masterKey.Some? {
        masterKey := None;
      }
    }
  }
}
