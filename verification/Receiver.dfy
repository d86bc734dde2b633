/** The receiving loop of src/main.rs: datagrams are matched by message id, and the second one
    of an id completes the message. */
module Receiver {
  import opened Numerics
  import opened Wrappers
  import opened Bytes
  import opened Erasure
  import opened Network
  import opened SecretSharing
  import XorCodec

  /** What has arrived for one id: shares, shards, length and counter of the first datagram. */
  datatype Entry = Entry(shares: seq<ByteString>, shards: seq<ByteString>, msgLen: nat, counter: u64)

  type Pool = map<Byte, Entry>

  /** A message put together: the key, the joined data shards, and the counter they go with. */
  datatype Recovered = Recovered(msgId: Byte, key: ByteString, combined: ByteString, counter: u64)

  // ---------- Specification ----------

  /** What every pool between two datagrams looks like: one share and one shard per id. */
  ghost predicate Waiting(pool: Pool) {
    0 !in pool && forall id <- pool :: IsFirst(pool[id]) && pool[id].shards[0] != []
  }

  predicate IsFirst(entry: Entry) {
    |entry.shares| == |entry.shards| == 1 && |entry.shares[0]| == 33
  }

  /** The second datagram of an id completes the message, unless the shards differ in length. */
  function Completed(first: Entry, pkt: ParsedPacket): Option<Recovered>
    requires IsFirst(first) && |pkt.share| == 33
  {
    if |first.shards[0]| == |pkt.shard| then
      Some(Recovered(pkt.msgId, Joined([first.shares[0], pkt.share]), first.shards[0] + pkt.shard, first.counter))
    else None
  }

  /** A datagram is cut to the size of the buffer. */
  function Cut(datagram: ByteString): ByteString {
    if |datagram| <= MAX_PACKET_SIZE then datagram else datagram[..MAX_PACKET_SIZE]
  }

  /** The buffer holds 2048 bytes. */
  lemma CutSpelledOut(datagram: ByteString)
    ensures Cut(datagram) <= datagram && |Cut(datagram)| == if |datagram| < 2048 then |datagram| else 2048
  {
  }

  /** One datagram, as it arrives. */
  function Step(pool: Pool, datagram: ByteString): (Pool, Option<Recovered>)
    requires Waiting(pool)
  {
    var parsed := Parse(datagram, |datagram|);
    if parsed.None? || parsed.value.msgId == 0 then (pool, None)
    else
      var pkt := parsed.value;
      if pkt.msgId in pool then (pool - {pkt.msgId}, Completed(pool[pkt.msgId], pkt))
      else (pool[pkt.msgId := Entry([pkt.share], [pkt.shard], pkt.originalLen, pkt.counter)], None)
  }

  lemma StepWaits(pool: Pool, datagram: ByteString)
    requires Waiting(pool)
    ensures Waiting(Step(pool, datagram).0)
  {
  }

  /** A run: the pool and all messages put together. */
  function Run(datagrams: seq<ByteString>): (r: (Pool, seq<Recovered>))
    ensures Waiting(r.0)
  {
    if datagrams == [] then (map[], [])
    else
      var (pool, messages) := Run(datagrams[..|datagrams| - 1]);
      var arrived := Cut(datagrams[|datagrams| - 1]);
      StepWaits(pool, arrived);
      var (pool', message) := Step(pool, arrived);
      (pool', if message.Some? then messages + [message.value] else messages)
  }

  // ---------- The loop ----------

  /** A datagram fills the front of the buffer, the rest keeps old bytes. */
  method ReceiveInto(buf: array<Byte>, datagram: ByteString) returns (len: nat)
    requires buf.Length == MAX_PACKET_SIZE
    modifies buf
    ensures len == |Cut(datagram)| && buf[..] == Cut(datagram) + old(buf[..])[len..]
  {
    len := if |datagram| <= buf.Length then |datagram| else buf.Length;
    CopyInto(buf, 0, datagram[..len]);
  }

  /** Joins the shares and rebuilds from the two shards. */
  method Complete(c: Codec, msgId: Byte, entry: Entry) returns (message: Option<Recovered>)
    requires IsCodec(c, 2, 1) && |entry.shares| == |entry.shards| == 2 && Readable(entry.shares)
    requires entry.shards[0] != [] && entry.shards[1] != []
    ensures message ==
            if |entry.shards[0]| != |entry.shards[1]| then None
            else Some(Recovered(msgId, Joined(entry.shares), entry.shards[0] + entry.shards[1], entry.counter))
  {
    var key := Reconstruct([entry.shares[0], entry.shares[1]]);
    assert [entry.shares[0], entry.shares[1]] == entry.shares;
    var recover := [Some(entry.shards[0]), Some(entry.shards[1]), None];
    TwoPresent(recover);
    var rebuilt := c.rebuild(recover);
    if rebuilt.Err? {
      return None;
    }
    assert TakenFrom(recover, rebuilt.value);
    assert rebuilt.value[0] == recover[0].value && rebuilt.value[1] == recover[1].value;
    return Some(Recovered(msgId, key, rebuilt.value[0] + rebuilt.value[1], entry.counter));
  }

  /** The body of the loop, once a datagram of `len` bytes is in the buffer. */
  method Accept(c: Codec, pool: Pool, buf: ByteString, len: nat) returns (pool': Pool, message: Option<Recovered>)
    requires IsCodec(c, 2, 1) && Waiting(pool) && len <= |buf| == MAX_PACKET_SIZE
    ensures (pool', message) == Step(pool, buf[..len])
  {
    pool', message := pool, None;
    var msgId, msgLen := buf[0], buf[1];
    assert buf == buf[..len] + buf[len..];
    TailIgnored(buf[..len], buf[len..]);
    if msgId == 0 {
      return;
    }
    var parsed := Parse(buf, len);
    if parsed.Some? {
      var pkt := parsed.value;
      var entry := if msgId in pool then pool[msgId] else Entry([], [], msgLen, pkt.counter);
      entry := entry.(shares := entry.shares + [pkt.share], shards := entry.shards + [pkt.shard]);
      pool' := pool[msgId := entry];
      if |entry.shares| >= 2 {
        message := Complete(c, msgId, entry);
        pool' := pool' - {msgId};
        assert pool' == pool - {msgId};
        assert entry.shares == [pool[msgId].shares[0], pkt.share];
      } else {
        assert entry == Entry([pkt.share], [pkt.shard], msgLen, pkt.counter);
      }
    }
  }

  lemma TwoPresent(slots: Slots)
    requires |slots| == 3 && slots[0].Some? && slots[1].Some? && slots[2].None?
    ensures Present(slots) == 2
  {
    assert slots[..2][..1][..0] == [];
    assert Present(slots[..2][..1]) == 1;
    assert Present(slots[..2]) == 2;
  }

  /** The whole loop, on everything that arrives. */
  method Receive(c: Codec, datagrams: seq<ByteString>) returns (pool: Pool, messages: seq<Recovered>)
    requires IsCodec(c, 2, 1)
    ensures (pool, messages) == Run(datagrams)
  {
    var buf := new Byte[MAX_PACKET_SIZE](_ => 0);
    pool, messages := map[], [];
    for i := 0 to |datagrams|
      invariant (pool, messages) == Run(datagrams[..i])
    {
      assert datagrams[..i + 1][..i] == datagrams[..i];
      var len := ReceiveInto(buf, datagrams[i]);
      assert buf[..][..len] == Cut(datagrams[i]);
      var message;
      pool, message := Accept(c, pool, buf[..], len);
      if message.Some? {
        messages := messages + [message.value];
      }
    }
    assert datagrams[..|datagrams|] == datagrams;
  }

  // ---------- Delivery ----------

  /** None of the datagrams carries this id. */
  predicate Silent(datagrams: seq<ByteString>, id: Byte) {
    forall d <- datagrams :: d == [] || d[0] != id
  }

  /** The messages of one id. */
  function Of(messages: seq<Recovered>, id: Byte): seq<Recovered> {
    if messages == [] then []
    else
      var last := messages[|messages| - 1];
      Of(messages[..|messages| - 1], id) + if last.msgId == id then [last] else []
  }

  lemma StepOther(pool: Pool, datagram: ByteString, id: Byte)
    requires Waiting(pool) && (datagram == [] || datagram[0] != id)
    ensures var (pool', message) := Step(pool, datagram);
            && (id in pool' <==> id in pool)
            && (id in pool ==> pool'[id] == pool[id])
            && (message.Some? ==> message.value.msgId != id)
  {
  }

  lemma RunStep(seen: seq<ByteString>, datagram: ByteString)
    ensures Run(seen + [datagram]).0 == Step(Run(seen).0, Cut(datagram)).0
    ensures var message := Step(Run(seen).0, Cut(datagram)).1;
            Run(seen + [datagram]).1 == Run(seen).1 + if message.Some? then [message.value] else []
  {
    assert (seen + [datagram])[..|seen|] == seen;
  }

  lemma OfAppend(messages: seq<Recovered>, message: Recovered, id: Byte)
    ensures Of(messages + [message], id) == Of(messages, id) + if message.msgId == id then [message] else []
  {
    assert (messages + [message])[..|messages|] == messages;
  }

  /** Other ids leave an entry and its messages alone. */
  lemma {:induction false} SilenceKeeps(seen: seq<ByteString>, more: seq<ByteString>, id: Byte)
    requires Silent(more, id)
    ensures id in Run(seen + more).0 <==> id in Run(seen).0
    ensures id in Run(seen).0 ==> Run(seen + more).0[id] == Run(seen).0[id]
    ensures Of(Run(seen + more).1, id) == Of(Run(seen).1, id)
  {
    if more == [] {
      assert seen + more == seen;
    } else {
      var n := |more| - 1;
      var before := seen + more[..n];
      assert seen + more == before + [more[n]];
      assert more[n] in more;
      SilenceKeeps(seen, more[..n], id);
      RunStep(before, more[n]);
      StepOther(Run(before).0, Cut(more[n]), id);
      var message := Step(Run(before).0, Cut(more[n])).1;
      if message.Some? {
        OfAppend(Run(before).1, message.value, id);
      }
    }
  }

  /** A message as the sender holds it: three shares of its key, three shards of its sealed text. */
  datatype Message = Message(
    msgId: Byte,
    originalLen: nat,
    shares: seq<ByteString>,
    shards: seq<ByteString>,
    counter: u64
  )

  predicate Sendable(m: Message) {
    && m.msgId != 0 && m.msgId != HANDSHAKE_ID && m.originalLen < 256
    && |m.shares| == |m.shards| == 3
    && forall i :: 0 <= i < 3 ==>
         |m.shares[i]| == 33 && |m.shards[i]| == ShardLenFor(m.msgId, m.originalLen)
  }

  function PacketOf(m: Message, i: nat): ParsedPacket
    requires Sendable(m) && i < 3
  {
    ParsedPacket(m.msgId, m.originalLen, m.shares[i], m.counter, m.shards[i])
  }

  function DatagramOf(m: Message, i: nat, jitter: nat): ByteString
    requires Sendable(m) && i < 3
  {
    ShortMessageFits(m.msgId, m.originalLen, jitter);
    Packet(PacketOf(m, i), jitter)
  }

  lemma DatagramParses(m: Message, i: nat, jitter: nat)
    requires Sendable(m) && i < 3 && jitter < JITTER_MAX
    ensures var d := DatagramOf(m, i, jitter); Cut(d) == d && Parse(d, |d|) == Some(PacketOf(m, i))
  {
    ShortMessageFits(m.msgId, m.originalLen, jitter);
    var d := DatagramOf(m, i, jitter);
    ParseInvertsBuild(PacketOf(m, i), jitter, []);
    assert d + [] == d;
  }

  /** What packets `i` and then `j` of a message come to. */
  function Outcome(m: Message, i: nat, j: nat): Recovered
    requires Sendable(m) && i < 3 && j < 3
  {
    Recovered(m.msgId, Joined([m.shares[i], m.shares[j]]), m.shards[i] + m.shards[j], m.counter)
  }

  function EntryOf(m: Message, i: nat): Entry
    requires Sendable(m) && i < 3
  {
    Entry([m.shares[i]], [m.shards[i]], m.originalLen, m.counter)
  }

  /** Packet `i` of the message is what waits under its id. */
  predicate WaitsFor(pool: Pool, m: Message, i: nat)
    requires Sendable(m) && i < 3
  {
    m.msgId in pool && pool[m.msgId] == EntryOf(m, i)
  }

  lemma FirstWaits(m: Message, i: nat, jitter: nat, seen: seq<ByteString>)
    requires Sendable(m) && i < 3 && jitter < JITTER_MAX && m.msgId !in Run(seen).0
    ensures var r := Run(seen + [DatagramOf(m, i, jitter)]); WaitsFor(r.0, m, i) && r.1 == Run(seen).1
  {
    DatagramParses(m, i, jitter);
    RunStep(seen, DatagramOf(m, i, jitter));
  }

  /** What packet `j` of a message makes of an entry that waits under its id: one message of the
      two, with the counter of the entry, or none if the shards differ in length. */
  function Spent(first: Entry, m: Message, j: nat): seq<Recovered>
    requires IsFirst(first) && Sendable(m) && j < 3
  {
    var message := Completed(first, PacketOf(m, j));
    if message.Some? then [message.value] else []
  }

  lemma SecondCompletes(m: Message, j: nat, jitter: nat, seen: seq<ByteString>)
    requires Sendable(m) && j < 3 && jitter < JITTER_MAX && m.msgId in Run(seen).0
    ensures var r := Run(seen + [DatagramOf(m, j, jitter)]);
            m.msgId !in r.0 && r.1 == Run(seen).1 + Spent(Run(seen).0[m.msgId], m, j)
  {
    DatagramParses(m, j, jitter);
    RunStep(seen, DatagramOf(m, j, jitter));
  }

  lemma OfSpent(messages: seq<Recovered>, first: Entry, m: Message, j: nat)
    requires IsFirst(first) && Sendable(m) && j < 3
    ensures Of(messages + Spent(first, m, j), m.msgId) == Of(messages, m.msgId) + Spent(first, m, j)
  {
    var spent := Spent(first, m, j);
    if spent == [] {
      assert messages + spent == messages;
    } else {
      OfAppend(messages, spent[0], m.msgId);
    }
  }

  /** Whatever waits is completed by the next packet of its id, of whichever message. */
  lemma WaitingCompletes(m: Message, j: nat, jitter: nat, seen: seq<ByteString>, between: seq<ByteString>)
    requires Sendable(m) && j < 3 && jitter < JITTER_MAX
    requires m.msgId in Run(seen).0 && Silent(between, m.msgId)
    ensures var r := Run(seen + between + [DatagramOf(m, j, jitter)]);
            m.msgId !in r.0
            && Of(r.1, m.msgId) == Of(Run(seen).1, m.msgId) + Spent(Run(seen).0[m.msgId], m, j)
  {
    SilenceKeeps(seen, between, m.msgId);
    SecondCompletes(m, j, jitter, seen + between);
    OfSpent(Run(seen + between).1, Run(seen).0[m.msgId], m, j);
  }

  /** Two packets of a message, with anything of other ids before and between them, put together
      exactly one message, and leave nothing behind. */
  lemma {:induction false} TwoPacketsDeliver(m: Message, i: nat, j: nat, jitters: (nat, nat),
                                             seen: seq<ByteString>, between: seq<ByteString>)
    requires Sendable(m) && i < 3 && j < 3 && jitters.0 < JITTER_MAX && jitters.1 < JITTER_MAX
    requires m.msgId !in Run(seen).0 && Silent(between, m.msgId)
    ensures var r := Run(seen + [DatagramOf(m, i, jitters.0)] + between + [DatagramOf(m, j, jitters.1)]);
            && m.msgId !in r.0
            && Of(r.1, m.msgId) == Of(Run(seen).1, m.msgId) + [Outcome(m, i, j)]
  {
    FirstWaits(m, i, jitters.0, seen);
    WaitingCompletes(m, j, jitters.1, seen + [DatagramOf(m, i, jitters.0)], between);
    assert Spent(EntryOf(m, i), m, j) == [Outcome(m, i, j)];
  }

  // ---------- What the third packet does ----------

  predicate Carries(datagram: ByteString, id: Byte) {
    var parsed := Parse(Cut(datagram), |Cut(datagram)|);
    parsed.Some? && parsed.value.msgId == id
  }

  function Arrivals(datagrams: seq<ByteString>, id: Byte): nat {
    if datagrams == [] then 0
    else Arrivals(datagrams[..|datagrams| - 1], id) + if Carries(datagrams[|datagrams| - 1], id) then 1 else 0
  }

  lemma {:induction false} ArrivalsGrow(seen: seq<ByteString>, datagram: ByteString, id: Byte)
    ensures Arrivals(seen + [datagram], id) == Arrivals(seen, id) + if Carries(datagram, id) then 1 else 0
  {
    assert (seen + [datagram])[..|seen|] == seen;
  }

  predicate OddMeansWaiting(datagrams: seq<ByteString>, id: Byte) {
    id in Run(datagrams).0 <==> Arrivals(datagrams, id) % 2 == 1
  }

  lemma {:induction false} OneMoreDatagram(seen: seq<ByteString>, datagram: ByteString, id: Byte)
    requires id != 0 && OddMeansWaiting(seen, id)
    ensures OddMeansWaiting(seen + [datagram], id)
  {
    RunTurns(seen, datagram, id);
    ArrivalsGrow(seen, datagram, id);
    OneMoreTurns(Arrivals(seen, id), Carries(datagram, id));
  }

  /** On every run an id is waiting iff an odd number of well-formed datagrams of it has arrived. */
  lemma {:induction false} WaitingIsOdd(datagrams: seq<ByteString>, id: Byte)
    requires id != 0
    ensures OddMeansWaiting(datagrams, id)
  {
    if datagrams == [] {
    } else {
      var before, last := datagrams[..|datagrams| - 1], datagrams[|datagrams| - 1];
      WaitingIsOdd(before, id);
      OneMoreDatagram(before, last, id);
      assert before + [last] == datagrams;
    }
  }

  lemma OneMoreTurns(n: nat, more: bool)
    ensures (n + if more then 1 else 0) % 2 == 1 <==> (n % 2 == 1) != more
  {
  }

  lemma {:induction false} RunTurns(seen: seq<ByteString>, datagram: ByteString, id: Byte)
    requires id != 0
    ensures id in Run(seen + [datagram]).0 <==> (id in Run(seen).0) != Carries(datagram, id)
  {
    RunStep(seen, datagram);
    StepTurns(Run(seen).0, datagram, id);
  }

  lemma StepTurns(pool: Pool, datagram: ByteString, id: Byte)
    requires Waiting(pool) && id != 0
    ensures id in Step(pool, Cut(datagram)).0 <==> (id in pool) != Carries(datagram, id)
  {
  }

  datatype Traffic = Traffic(jitters: (nat, nat, nat), first: seq<ByteString>, second: seq<ByteString>)

  /** Traffic of other ids between the three packets of a message. */
  predicate Passing(t: Traffic, id: Byte) {
    && t.jitters.0 < JITTER_MAX && t.jitters.1 < JITTER_MAX && t.jitters.2 < JITTER_MAX
    && Silent(t.first, id) && Silent(t.second, id)
  }

  /** All three packets, as the sender always sends them, with other traffic between them. */
  function AllThree(m: Message, t: Traffic): seq<ByteString>
    requires Sendable(m)
  {
    [DatagramOf(m, 0, t.jitters.0)] + t.first + [DatagramOf(m, 1, t.jitters.1)] + t.second
    + [DatagramOf(m, 2, t.jitters.2)]
  }

  lemma ThreeRegrouped(m: Message, t: Traffic, seen: seq<ByteString>)
    requires Sendable(m)
    ensures seen + AllThree(m, t) ==
            seen + [DatagramOf(m, 0, t.jitters.0)] + t.first + [DatagramOf(m, 1, t.jitters.1)] + t.second
            + [DatagramOf(m, 2, t.jitters.2)]
  {
    var a, b, c := [DatagramOf(m, 0, t.jitters.0)], [DatagramOf(m, 1, t.jitters.1)], [DatagramOf(m, 2, t.jitters.2)];
    assert seen + (a + t.first + b + t.second + c) == seen + a + t.first + b + t.second + c;
  }

  /** A packet after other traffic, with nothing of its id waiting, waits. */
  lemma WaitsAfter(m: Message, i: nat, jitter: nat, seen: seq<ByteString>, between: seq<ByteString>)
    requires Sendable(m) && i < 3 && jitter < JITTER_MAX
    requires m.msgId !in Run(seen).0 && Silent(between, m.msgId)
    ensures var r := Run(seen + between + [DatagramOf(m, i, jitter)]);
            WaitsFor(r.0, m, i) && Of(r.1, m.msgId) == Of(Run(seen).1, m.msgId)
  {
    SilenceKeeps(seen, between, m.msgId);
    FirstWaits(m, i, jitter, seen + between);
  }

  /** The third packet finds the message already put together, and stays. */
  lemma {:induction false} ThirdPacketWaits(m: Message, t: Traffic, seen: seq<ByteString>)
    requires Sendable(m) && Passing(t, m.msgId) && m.msgId !in Run(seen).0
    ensures var r := Run(seen + AllThree(m, t));
            WaitsFor(r.0, m, 2) && Of(r.1, m.msgId) == Of(Run(seen).1, m.msgId) + [Outcome(m, 0, 1)]
  {
    ThreeRegrouped(m, t, seen);
    TwoPacketsDeliver(m, 0, 1, (t.jitters.0, t.jitters.1), seen, t.first);
    WaitsAfter(m, 2, t.jitters.2,
               seen + [DatagramOf(m, 0, t.jitters.0)] + t.first + [DatagramOf(m, 1, t.jitters.1)], t.second);
  }

  /** With anything waiting, the first of the three is spent on it, and the second and the third
      are joined as if they were the halves. */
  lemma {:induction false} WaitingTakesApart(m: Message, t: Traffic, seen: seq<ByteString>)
    requires Sendable(m) && Passing(t, m.msgId) && m.msgId in Run(seen).0
    ensures var r := Run(seen + AllThree(m, t));
            && m.msgId !in r.0
            && Of(r.1, m.msgId) == Of(Run(seen).1, m.msgId)
                                   + Spent(Run(seen).0[m.msgId], m, 0) + [Outcome(m, 1, 2)]
  {
    var one := seen + [] + [DatagramOf(m, 0, t.jitters.0)];
    assert seen + [] == seen;
    ThreeRegrouped(m, t, seen);
    WaitingCompletes(m, 0, t.jitters.0, seen, []);
    SilenceKeeps(one, t.first, m.msgId);
    TwoPacketsDeliver(m, 1, 2, (t.jitters.1, t.jitters.2), one + t.first, t.second);
  }

  /** So after one message with all its packets the next of that id is taken apart. */
  lemma {:induction false} NextMessageIsTakenApart(m: Message, t: Traffic, gap: seq<ByteString>,
                                                   next: Message, t': Traffic, seen: seq<ByteString>)
    requires Sendable(m) && Sendable(next) && next.msgId == m.msgId && m.msgId !in Run(seen).0
    requires Passing(t, m.msgId) && Passing(t', m.msgId) && Silent(gap, m.msgId)
    ensures var r := Run(seen + AllThree(m, t) + gap + AllThree(next, t'));
            && m.msgId !in r.0
            && Of(r.1, m.msgId) == Of(Run(seen).1, m.msgId)
                                   + [Outcome(m, 0, 1)] + Spent(EntryOf(m, 2), next, 0) + [Outcome(next, 1, 2)]
  {
    ThirdPacketWaits(m, t, seen);
    SilenceKeeps(seen + AllThree(m, t), gap, m.msgId);
    WaitingTakesApart(next, t', seen + AllThree(m, t) + gap);
  }

  // ---------- Sealed messages ----------

  /** A sealed text, shared and encoded: sealing added 16 bytes. */
  function SealedMessage(c: Codec, msgId: Byte, key: ByteString, mask: ByteString,
                         ciphertext: ByteString, counter: u64): Message
    requires |key| == |mask| == 32 && 16 <= |ciphertext|
  {
    Message(msgId, |ciphertext| - 16, SharesOf(key, mask), EncodedInTwo(c, ciphertext), counter)
  }

  lemma SealedIsSendable(c: Codec, msgId: Byte, key: ByteString, mask: ByteString,
                         ciphertext: ByteString, counter: u64)
    requires IsCodec(c, 2, 1) && |key| == |mask| == 32 && 16 <= |ciphertext| < 272
    requires msgId != 0 && msgId != HANDSHAKE_ID
    ensures Sendable(SealedMessage(c, msgId, key, mask, ciphertext, counter))
  {
    ShardLengthsAgree(c, msgId, ciphertext, |ciphertext| - 16);
  }

  lemma DataShardsJoin(c: Codec, ciphertext: ByteString)
    ensures EncodedInTwo(c, ciphertext)[0] + EncodedInTwo(c, ciphertext)[1] == PaddedToEven(ciphertext)
  {
    var padded := PaddedToEven(ciphertext);
    assert padded[..|padded| / 2] + padded[|padded| / 2..] == padded;
  }

  /** In order, the first two packets bring the key and the ciphertext, padded to even length:
      the ciphertext itself exactly if its length is even. */
  lemma InOrderRecovers(c: Codec, msgId: Byte, key: ByteString, mask: ByteString,
                        ciphertext: ByteString, counter: u64)
    requires |key| == |mask| == 32 && 16 <= |ciphertext|
    requires Sendable(SealedMessage(c, msgId, key, mask, ciphertext, counter))
    ensures Outcome(SealedMessage(c, msgId, key, mask, ciphertext, counter), 0, 1)
            == Recovered(msgId, key, PaddedToEven(ciphertext), counter)
    ensures PaddedToEven(ciphertext) == ciphertext <==> |ciphertext| % 2 == 0
  {
    PairsRecover(key, mask, 0, 1);
    DataShardsJoin(c, ciphertext);
  }

  /** The whole path: seal, share, encode, send, lose the third packet, receive between other
      traffic. The key and the padded ciphertext come out once, and nothing waits. */
  lemma SealedMessageArrives(c: Codec, msgId: Byte, key: ByteString, mask: ByteString,
                             ciphertext: ByteString, counter: u64, jitters: (nat, nat),
                             seen: seq<ByteString>, between: seq<ByteString>)
    requires IsCodec(c, 2, 1) && |key| == |mask| == 32 && 16 <= |ciphertext| < 272
    requires msgId != 0 && msgId != HANDSHAKE_ID
    requires jitters.0 < JITTER_MAX && jitters.1 < JITTER_MAX
    requires msgId !in Run(seen).0 && Silent(between, msgId)
    ensures var m := SealedMessage(c, msgId, key, mask, ciphertext, counter);
            && Sendable(m)
            && var r := Run(seen + [DatagramOf(m, 0, jitters.0)] + between + [DatagramOf(m, 1, jitters.1)]);
            && msgId !in r.0
            && Of(r.1, msgId) == Of(Run(seen).1, msgId)
                                 + [Recovered(msgId, key, PaddedToEven(ciphertext), counter)]
  {
    SealedIsSendable(c, msgId, key, mask, ciphertext, counter);
    InOrderRecovers(c, msgId, key, mask, ciphertext, counter);
    TwoPacketsDeliver(SealedMessage(c, msgId, key, mask, ciphertext, counter), 0, 1, jitters, seen, between);
  }

  /** As the sender does it, with the third packet after the other two: the same comes out, and
      the third packet waits for whatever comes next under its id. */
  lemma {:induction false} AllPacketsArrive(c: Codec, msgId: Byte, key: ByteString, mask: ByteString,
                                            ciphertext: ByteString, counter: u64, t: Traffic,
                                            seen: seq<ByteString>)
    requires IsCodec(c, 2, 1) && |key| == |mask| == 32 && 16 <= |ciphertext| < 272
    requires msgId != 0 && msgId != HANDSHAKE_ID && Passing(t, msgId) && msgId !in Run(seen).0
    ensures var m := SealedMessage(c, msgId, key, mask, ciphertext, counter);
            && Sendable(m)
            && var r := Run(seen + AllThree(m, t));
            && WaitsFor(r.0, m, 2)
            && Of(r.1, msgId) == Of(Run(seen).1, msgId)
                                 + [Recovered(msgId, key, PaddedToEven(ciphertext), counter)]
  {
    SealedIsSendable(c, msgId, key, mask, ciphertext, counter);
    InOrderRecovers(c, msgId, key, mask, ciphertext, counter);
    ThirdPacketWaits(SealedMessage(c, msgId, key, mask, ciphertext, counter), t, seen);
  }

  lemma JoinedInOrder(a: ByteString, b: ByteString, p: ByteString, q: ByteString)
    requires |a| == |p|
    ensures a + b == p + q <==> a == p && b == q
  {
    if a + b == p + q {
      assert a == (a + b)[..|a|] && b == (a + b)[|a|..];
      assert p == (p + q)[..|a|] && q == (p + q)[|a|..];
    }
  }

  /** Which pairs bring back both: the shards must be the data shards in their order, and one
      share the second of three, unless the key is all zeros. */
  lemma PairsRecoverExactly(c: Codec, msgId: Byte, key: ByteString, mask: ByteString,
                            ciphertext: ByteString, counter: u64, i: nat, j: nat)
    requires |key| == |mask| == 32 && 16 <= |ciphertext| && i < 3 && j < 3
    requires Sendable(SealedMessage(c, msgId, key, mask, ciphertext, counter))
    ensures var m := SealedMessage(c, msgId, key, mask, ciphertext, counter);
            Outcome(m, i, j) == Recovered(msgId, key, PaddedToEven(ciphertext), counter) <==>
            && (key == Zeros(32) || (i != j && (i == 1 || j == 1)))
            && m.shards[i] == m.shards[0] && m.shards[j] == m.shards[1]
  {
    var shards := EncodedInTwo(c, ciphertext);
    PairsRecover(key, mask, i, j);
    DataShardsJoin(c, ciphertext);
    JoinedInOrder(shards[i], shards[j], shards[0], shards[1]);
  }

  // ---------- Which sealed messages come out ----------

  /** The three shards are one and the same. */
  predicate AllEqual(m: Message)
    requires Sendable(m)
  {
    m.shards[0] == m.shards[1] == m.shards[2]
  }

  /** What waits happens to stand in for the missing packet: it has the counter of the message,
      completes its key, and carries its shard, which is the other half as well. */
  predicate StandsIn(first: Entry, m: Message, key: ByteString)
    requires IsFirst(first) && Sendable(m)
  {
    && first.counter == m.counter
    && Joined([first.shares[0], m.shares[0]]) == key
    && first.shards[0] == m.shards[0] == m.shards[1]
  }

  lemma SpentIsWhole(c: Codec, first: Entry, msgId: Byte, key: ByteString, mask: ByteString,
                     ciphertext: ByteString, counter: u64)
    requires IsFirst(first) && |key| == |mask| == 32 && 16 <= |ciphertext|
    requires Sendable(SealedMessage(c, msgId, key, mask, ciphertext, counter))
    ensures var m := SealedMessage(c, msgId, key, mask, ciphertext, counter);
            Recovered(msgId, key, PaddedToEven(ciphertext), counter) in Spent(first, m, 0)
            <==> StandsIn(first, m, key)
  {
    var m := SealedMessage(c, msgId, key, mask, ciphertext, counter);
    DataShardsJoin(c, ciphertext);
    if |first.shards[0]| == |m.shards[0]| {
      JoinedInOrder(first.shards[0], m.shards[0], m.shards[0], m.shards[1]);
    }
  }

  /** What comes out under the id of a message while its three packets arrive after `seen`. */
  function NewUnder(m: Message, t: Traffic, seen: seq<ByteString>): seq<Recovered>
    requires Sendable(m) && Passing(t, m.msgId)
  {
    var was, now := Of(Run(seen).1, m.msgId), Of(Run(seen + AllThree(m, t)).1, m.msgId);
    if |was| <= |now| then now[|was|..] else []
  }

  lemma {:induction false} WhatIsNew(m: Message, t: Traffic, seen: seq<ByteString>)
    requires Sendable(m) && Passing(t, m.msgId)
    ensures Of(Run(seen + AllThree(m, t)).1, m.msgId) == Of(Run(seen).1, m.msgId) + NewUnder(m, t, seen)
    ensures NewUnder(m, t, seen) ==
            if m.msgId in Run(seen).0 then Spent(Run(seen).0[m.msgId], m, 0) + [Outcome(m, 1, 2)]
            else [Outcome(m, 0, 1)]
  {
    var was := Of(Run(seen).1, m.msgId);
    if m.msgId in Run(seen).0 {
      WaitingTakesApart(m, t, seen);
      Suffix(was, Spent(Run(seen).0[m.msgId], m, 0), [Outcome(m, 1, 2)]);
    } else {
      ThirdPacketWaits(m, t, seen);
      Suffix(was, [], [Outcome(m, 0, 1)]);
    }
  }

  lemma Suffix(a: seq<Recovered>, b: seq<Recovered>, c: seq<Recovered>)
    ensures (a + b + c)[|a|..] == b + c && a + b + c == a + (b + c) && a + [] == a
  {
  }

  /** A sealed message, sent with all its packets after any traffic, comes out with its key and
      its padded ciphertext iff an even number of datagrams of its id has come before, or its three
      shards are equal, or what waits stands in for the missing packet. The last cannot be if what
      waits has another counter. */
  lemma {:induction false} SealedComesOutIff(c: Codec, msgId: Byte, key: ByteString, mask: ByteString,
                                             ciphertext: ByteString, counter: u64, t: Traffic,
                                             seen: seq<ByteString>)
    requires IsCodec(c, 2, 1) && |key| == |mask| == 32 && 16 <= |ciphertext| < 272
    requires msgId != 0 && msgId != HANDSHAKE_ID && Passing(t, msgId)
    ensures var m := SealedMessage(c, msgId, key, mask, ciphertext, counter);
            && Sendable(m)
            && (Recovered(msgId, key, PaddedToEven(ciphertext), counter) in NewUnder(m, t, seen) <==>
                || Arrivals(seen, msgId) % 2 == 0
                || AllEqual(m)
                || (msgId in Run(seen).0 && StandsIn(Run(seen).0[msgId], m, key)))
  {
    SealedIsSendable(c, msgId, key, mask, ciphertext, counter);
    ComesOutIff(c, msgId, key, mask, ciphertext, counter, t, seen);
  }

  lemma {:induction false} ComesOutIff(c: Codec, msgId: Byte, key: ByteString, mask: ByteString,
                                       ciphertext: ByteString, counter: u64, t: Traffic,
                                       seen: seq<ByteString>)
    requires |key| == |mask| == 32 && 16 <= |ciphertext| && Passing(t, msgId)
    requires Sendable(SealedMessage(c, msgId, key, mask, ciphertext, counter))
    ensures var m := SealedMessage(c, msgId, key, mask, ciphertext, counter);
            Recovered(msgId, key, PaddedToEven(ciphertext), counter) in NewUnder(m, t, seen) <==>
            || Arrivals(seen, msgId) % 2 == 0
            || AllEqual(m)
            || (msgId in Run(seen).0 && StandsIn(Run(seen).0[msgId], m, key))
  {
    var m := SealedMessage(c, msgId, key, mask, ciphertext, counter);
    WaitingIsOdd(seen, msgId);
    WhatIsNew(m, t, seen);
    if msgId in Run(seen).0 {
      WholeAmongTwo(c, Run(seen).0[msgId], msgId, key, mask, ciphertext, counter);
    } else {
      InOrderRecovers(c, msgId, key, mask, ciphertext, counter);
    }
  }

  lemma WholeAmongTwo(c: Codec, first: Entry, msgId: Byte, key: ByteString, mask: ByteString,
                      ciphertext: ByteString, counter: u64)
    requires IsFirst(first) && |key| == |mask| == 32 && 16 <= |ciphertext|
    requires Sendable(SealedMessage(c, msgId, key, mask, ciphertext, counter))
    ensures var m := SealedMessage(c, msgId, key, mask, ciphertext, counter);
            Recovered(msgId, key, PaddedToEven(ciphertext), counter) in Spent(first, m, 0) + [Outcome(m, 1, 2)]
            <==> StandsIn(first, m, key) || AllEqual(m)
  {
    SpentIsWhole(c, first, msgId, key, mask, ciphertext, counter);
    PairsRecoverExactly(c, msgId, key, mask, ciphertext, counter, 1, 2);
  }

  /** Messages do get lost: with the exclusive-or code, of two messages sent one after the other
      with all their packets and nothing else the second never comes out. */
  lemma SecondMessageIsLost()
    ensures var c, zeros, ciphertext := XorCodec.XorOf(2), Zeros(32), [1] + Zeros(15);
            var t := Traffic((0, 0, 0), [], []);
            var a := SealedMessage(c, 1, zeros, zeros, ciphertext, 1);
            var b := SealedMessage(c, 1, zeros, zeros, ciphertext, 2);
            && Sendable(a) && Sendable(b)
            && Recovered(1, zeros, ciphertext, 2) !in Of(Run(AllThree(a, t) + AllThree(b, t)).1, 1)
  {
    SampleIsSendable(1);
    SampleIsSendable(2);
    AfterOneLost(XorCodec.XorOf(2), Zeros(32), [1] + Zeros(15), Traffic((0, 0, 0), [], []));
  }

  lemma SampleIsSendable(counter: u64)
    ensures var m := SealedMessage(XorCodec.XorOf(2), 1, Zeros(32), Zeros(32), [1] + Zeros(15), counter);
            Sendable(m) && !AllEqual(m)
  {
    var m := SealedMessage(XorCodec.XorOf(2), 1, Zeros(32), Zeros(32), [1] + Zeros(15), counter);
    XorCodec.XorIsCodec(2);
    SealedIsSendable(XorCodec.XorOf(2), 1, Zeros(32), Zeros(32), [1] + Zeros(15), counter);
    assert m.shards[0][0] == 1 && m.shards[1][0] == 0;
  }

  /** The same for any code, two messages of one content and any traffic between their packets. */
  lemma {:induction false} AfterOneLost(c: Codec, key: ByteString, ciphertext: ByteString, t: Traffic)
    requires |key| == 32 && 16 <= |ciphertext| && Passing(t, 1)
    requires Sendable(SealedMessage(c, 1, key, key, ciphertext, 1))
    requires Sendable(SealedMessage(c, 1, key, key, ciphertext, 2))
    requires !AllEqual(SealedMessage(c, 1, key, key, ciphertext, 2))
    ensures var a, b := SealedMessage(c, 1, key, key, ciphertext, 1), SealedMessage(c, 1, key, key, ciphertext, 2);
            Recovered(1, key, PaddedToEven(ciphertext), 2) !in Of(Run(AllThree(a, t) + AllThree(b, t)).1, 1)
  {
    var a, b := SealedMessage(c, 1, key, key, ciphertext, 1), SealedMessage(c, 1, key, key, ciphertext, 2);
    var seen := AllThree(a, t);
    assert [] + seen == seen;
    ThirdPacketWaits(a, t, []);
    WaitingIsOdd(seen, 1);
    ComesOutIff(c, 1, key, key, ciphertext, 2, t, seen);
    WhatIsNew(b, t, seen);
    assert Of(Run(seen).1, 1) == [Outcome(a, 0, 1)];
  }
}
