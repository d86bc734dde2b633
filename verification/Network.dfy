/** The binary packet layout of src/network.rs. */
module Network {
  import opened Numerics
  import opened Wrappers
  import opened Bytes
  import opened Erasure

  const BASE_SIZE: nat := 512
  const JITTER_MAX: nat := 64
  const HANDSHAKE_ID: Byte := 255
  const MAX_PACKET_SIZE: nat := 2048

  const OFFSET_SHARE_START: nat := 2
  const OFFSET_COUNTER_START: nat := 35
  const OFFSET_SHARD_START: nat := 43

  datatype ParsedPacket = ParsedPacket(
    msgId: Byte,
    originalLen: nat,
    share: ByteString,
    counter: u64,
    shard: ByteString
  )

  // ---------- Building ----------

  /** One datagram, field after field, and zeros up to the chosen size. */
  function Packet(p: ParsedPacket, jitter: nat): (bytes: ByteString)
    requires |p.share| == 33 && OFFSET_SHARD_START + |p.shard| <= BASE_SIZE + jitter
    ensures |bytes| == BASE_SIZE + jitter
  {
    [p.msgId, p.originalLen % 256] + p.share + ToBigEndian(p.counter, 8) + p.shard
    + Zeros(BASE_SIZE + jitter - OFFSET_SHARD_START - |p.shard|)
  }

  function Overwritten(s: ByteString, offset: nat, bytes: ByteString): (r: ByteString)
    requires offset + |bytes| <= |s|
    ensures |r| == |s|
  {
    s[..offset] + bytes + s[offset + |bytes|..]
  }

  method CopyInto(p: array<Byte>, offset: nat, bytes: ByteString)
    requires offset + |bytes| <= p.Length
    modifies p
    ensures p[..] == Overwritten(old(p[..]), offset, bytes)
  {
    for i := 0 to |bytes|
      invariant p[..offset] == old(p[..offset]) && p[offset + |bytes|..] == old(p[offset + |bytes|..])
      invariant forall j :: 0 <= j < i ==> p[offset + j] == bytes[j]
    {
      p[offset + i] := bytes[i];
    }
    assert p[offset..offset + |bytes|] == bytes;
    assert p[..] == p[..offset] + p[offset..offset + |bytes|] + p[offset + |bytes|..];
  }

  /** Writing over the first zeros after what is already written. */
  lemma NextField(written: ByteString, zeros: nat, field: ByteString)
    requires |field| <= zeros
    ensures Overwritten(written + Zeros(zeros), |written|, field) == written + field + Zeros(zeros - |field|)
  {
  }

  lemma LayoutFillsUp(p: ParsedPacket, jitter: nat)
    requires |p.share| == 33 && OFFSET_SHARD_START + |p.shard| <= BASE_SIZE + jitter
    ensures
      var header := [p.msgId, p.originalLen % 256] + Zeros(BASE_SIZE + jitter - 2);
      var shared := Overwritten(header, OFFSET_SHARE_START, p.share);
      var counted := Overwritten(shared, OFFSET_COUNTER_START, ToBigEndian(p.counter, 8));
      Overwritten(counted, OFFSET_SHARD_START, p.shard) == Packet(p, jitter)
  {
    var start, size := [p.msgId, p.originalLen % 256], BASE_SIZE + jitter;
    NextField(start, size - 2, p.share);
    NextField(start + p.share, size - 35, ToBigEndian(p.counter, 8));
    NextField(start + p.share + ToBigEndian(p.counter, 8), size - 43, p.shard);
  }

  /** The body of the sending loop: a zeroed buffer, filled field by field. */
  method BuildPacket(p: ParsedPacket, jitter: nat) returns (bytes: array<Byte>)
    requires |p.share| == 33 && OFFSET_SHARD_START + |p.shard| <= BASE_SIZE + jitter
    ensures fresh(bytes) && bytes[..] == Packet(p, jitter)
  {
    bytes := new Byte[BASE_SIZE + jitter](_ => 0);
    bytes[0] := p.msgId;
    bytes[1] := p.originalLen % 256;
    assert bytes[..] == [p.msgId, p.originalLen % 256] + Zeros(BASE_SIZE + jitter - 2);
    CopyInto(bytes, OFFSET_SHARE_START, p.share);
    CopyInto(bytes, OFFSET_COUNTER_START, ToBigEndian(p.counter, 8));
    CopyInto(bytes, OFFSET_SHARD_START, p.shard);
    LayoutFillsUp(p, jitter);
  }

  /** `send_data_packets`: what is handed to the socket. A shard of another length or one that
      does not fit is a panic in the source. */
  method SendDataPackets(msgId: Byte, originalLen: nat, shares: seq<ByteString>, shards: seq<ByteString>,
                         shardLen: nat, counter: u64, jitters: seq<nat>)
    returns (sent: seq<ByteString>)
    requires |shares| >= 3 && |shards| >= 3 && |jitters| == 3
    requires forall i :: 0 <= i < 3 ==> |shares[i]| == 33 && |shards[i]| == shardLen
    requires forall i :: 0 <= i < 3 ==> OFFSET_SHARD_START + shardLen <= BASE_SIZE + jitters[i]
    ensures |sent| == 3
    ensures forall i :: 0 <= i < 3 ==>
              sent[i] == Packet(ParsedPacket(msgId, originalLen, shares[i], counter, shards[i]), jitters[i])
  {
    sent := [];
    for i := 0 to 3
      invariant |sent| == i
      invariant forall j :: 0 <= j < i ==>
        sent[j] == Packet(ParsedPacket(msgId, originalLen, shares[j], counter, shards[j]), jitters[j])
    {
      var bytes := BuildPacket(ParsedPacket(msgId, originalLen, shares[i], counter, shards[i]), jitters[i]);
      sent := sent + [bytes[..]];
    }
  }

  // ---------- Parsing ----------

  function ShardLenFor(msgId: Byte, originalLen: nat): nat {
    if msgId == HANDSHAKE_ID then 480
    else ((originalLen + 16 + 1) / 2) * 2 / 2
  }

  function ParseCounter(buf: ByteString): u64
    requires OFFSET_SHARD_START <= |buf|
  {
    var field := buf[OFFSET_COUNTER_START..OFFSET_SHARD_START];
    BigEndianBound(field);
    Pow256Of8();
    FromBigEndian(field)
  }

  /** The first `len` bytes of the buffer are the datagram, the rest is left over from others. */
  function Parse(buf: ByteString, len: nat): Option<ParsedPacket>
    requires len <= |buf|
  {
    if len < OFFSET_SHARD_START then None
    else
      var msgId, originalLen := buf[0], buf[1];
      var shardLen := ShardLenFor(msgId, originalLen);
      if len < OFFSET_SHARD_START + shardLen then None
      else Some(ParsedPacket(msgId, originalLen, buf[OFFSET_SHARE_START..OFFSET_COUNTER_START],
                             ParseCounter(buf), buf[OFFSET_SHARD_START..OFFSET_SHARD_START + shardLen]))
  }

  /** Left-over bytes never show. */
  lemma TailIgnored(datagram: ByteString, tail: ByteString)
    ensures Parse(datagram + tail, |datagram|) == Parse(datagram, |datagram|)
  {
    var buf := datagram + tail;
    if OFFSET_SHARD_START <= |datagram| {
      assert buf[OFFSET_COUNTER_START..OFFSET_SHARD_START] == datagram[OFFSET_COUNTER_START..OFFSET_SHARD_START];
      assert buf[OFFSET_SHARE_START..OFFSET_COUNTER_START] == datagram[OFFSET_SHARE_START..OFFSET_COUNTER_START];
      var shardLen := ShardLenFor(buf[0], buf[1]);
      if OFFSET_SHARD_START + shardLen <= |datagram| {
        assert buf[OFFSET_SHARD_START..OFFSET_SHARD_START + shardLen]
            == datagram[OFFSET_SHARD_START..OFFSET_SHARD_START + shardLen];
      }
    }
  }

  lemma PacketFields(p: ParsedPacket, jitter: nat)
    requires |p.share| == 33 && OFFSET_SHARD_START + |p.shard| <= BASE_SIZE + jitter
    ensures var bytes := Packet(p, jitter);
            && bytes[0] == p.msgId && bytes[1] == p.originalLen % 256
            && bytes[OFFSET_SHARE_START..OFFSET_COUNTER_START] == p.share
            && bytes[OFFSET_COUNTER_START..OFFSET_SHARD_START] == ToBigEndian(p.counter, 8)
            && bytes[OFFSET_SHARD_START..OFFSET_SHARD_START + |p.shard|] == p.shard
  {
  }

  /** What arrives of a packet: its length cut to one byte, and of its shard what that length
      stands for. */
  function Arriving(p: ParsedPacket): ParsedPacket
    requires |p.shard| == ShardLenFor(p.msgId, p.originalLen)
  {
    var originalLen := p.originalLen % 256;
    p.(originalLen := originalLen, shard := p.shard[..ShardLenFor(p.msgId, originalLen)])
  }

  lemma PaddingIsZero(p: ParsedPacket, jitter: nat)
    requires |p.share| == 33 && 43 + |p.shard| <= 512 + jitter
    ensures |Packet(p, jitter)| == 512 + jitter
    ensures forall i :: 43 + |p.shard| <= i < 512 + jitter ==> Packet(p, jitter)[i] == 0
  {
  }

  lemma CounterField(p: ParsedPacket, jitter: nat)
    requires |p.share| == 33 && 43 + |p.shard| <= 512 + jitter
    ensures |Packet(p, jitter)| == 512 + jitter
    ensures forall i :: 0 <= i < 8 ==> Packet(p, jitter)[35..43][i] == p.counter / Pow256(7 - i) % 256
  {
    Pow256Of8();
    BigEndianOrder(p.counter, 8);
    PacketFields(p, jitter);
  }

  /** The layout, byte by byte. */
  lemma LayoutSpelledOut(p: ParsedPacket, jitter: nat)
    requires |p.share| == 33 && 43 + |p.shard| <= 512 + jitter
    ensures var bytes := Packet(p, jitter);
            && |bytes| == 512 + jitter
            && bytes[0] == p.msgId && bytes[1] == p.originalLen % 256
            && bytes[2..35] == p.share
            && (forall i :: 0 <= i < 8 ==> bytes[35..43][i] == p.counter / Pow256(7 - i) % 256)
            && bytes[43..43 + |p.shard|] == p.shard
            && (forall i :: 43 + |p.shard| <= i < 512 + jitter ==> bytes[i] == 0)
  {
    CounterField(p, jitter);
    PaddingIsZero(p, jitter);
    PacketFields(p, jitter);
  }

  /** A datagram is refused iff it is shorter than its header, or than the shard that its first two
      bytes announce. */
  lemma RefusedIffShort(datagram: ByteString)
    ensures Parse(datagram, |datagram|) == None <==>
            |datagram| < 43 || |datagram| < 43 + Announced(datagram[0], datagram[1])
  {
  }

  /** 480 bytes for a handshake, half of the sealed length, rounded up, for a message. */
  function Announced(msgId: Byte, originalLen: Byte): nat {
    if msgId == 255 then 480 else (originalLen as int + 17) / 2
  }

  /** A handshake packet of 480 bytes of shard comes back whole, but for its length field. */
  lemma HandshakeParses(p: ParsedPacket, jitter: nat, tail: ByteString)
    requires p.msgId == 255 && |p.share| == 33 && |p.shard| == 480 && 11 <= jitter
    ensures Parse(Packet(p, jitter) + tail, 512 + jitter) == Some(p.(originalLen := p.originalLen % 256))
  {
    ParseInvertsBuild(p, jitter, tail);
    assert p.shard[..480] == p.shard;
  }

  /** Parsing inverts building, for every counter, jitter and left-over tail, exactly if the
      length fits its byte. Longer messages are sent all the same, and read back shorter. */
  lemma ParseInvertsBuild(p: ParsedPacket, jitter: nat, tail: ByteString)
    requires |p.share| == 33 && |p.shard| == ShardLenFor(p.msgId, p.originalLen)
    requires OFFSET_SHARD_START + |p.shard| <= BASE_SIZE + jitter
    ensures Parse(Packet(p, jitter) + tail, BASE_SIZE + jitter) == Some(Arriving(p))
    ensures Arriving(p) == p <==> p.originalLen < 256
  {
    var bytes := Packet(p, jitter);
    TailIgnored(bytes, tail);
    PacketFields(p, jitter);
    Pow256Of8();
    BigEndianRoundTrip(p.counter, 8);
    var shardLen := ShardLenFor(p.msgId, p.originalLen % 256);
    assert bytes[OFFSET_SHARD_START..OFFSET_SHARD_START + shardLen]
        == bytes[OFFSET_SHARD_START..OFFSET_SHARD_START + |p.shard|][..shardLen];
  }

  /** A message of up to 255 bytes always fits, whatever the jitter. */
  lemma ShortMessageFits(msgId: Byte, originalLen: nat, jitter: nat)
    requires msgId != HANDSHAKE_ID && originalLen < 256
    ensures OFFSET_SHARD_START + ShardLenFor(msgId, originalLen) <= BASE_SIZE + jitter
  {
  }

  /** The receiver's shard length is the encoder's, for the sealed form of the message. */
  lemma {:induction false} ShardLengthsAgree(c: Codec, msgId: Byte, ciphertext: ByteString, originalLen: nat)
    requires IsCodec(c, 2, 1) && msgId != HANDSHAKE_ID && |ciphertext| == originalLen + 16
    ensures var shards := EncodedInTwo(c, ciphertext);
            |shards| == 3 && forall i :: 0 <= i < 3 ==> |shards[i]| == ShardLenFor(msgId, originalLen)
  {
    TwoShardEncoder(c, ciphertext);
    EncodedShape(c, ciphertext, 2, 1);
  }
}
