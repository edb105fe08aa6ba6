/** The header bytes at the front of every video packet, and what a receiver reads back from them. */
module PacketHeaders {
  import opened Bytes

  // Layout of video_packet_raw_t: RTP_PACKET (12 bytes), 4 reserved bytes, NV_VIDEO_PACKET (16 bytes).
  const RTP_PACKET_SIZE := 12
  const NV_VIDEO_PACKET_SIZE := 16
  const MAX_RTP_HEADER_SIZE := 16
  const VIDEO_PACKET_RAW_SIZE := RTP_PACKET_SIZE + 4 + NV_VIDEO_PACKET_SIZE

  // sizeof(video_short_frame_header_t)
  const FRAME_HEADER_SIZE := 8

  const AT_RTP_HEADER := 0
  const AT_SEQUENCE_NUMBER := 2
  const AT_TIMESTAMP := 4
  const AT_STREAM_PACKET_INDEX := 16
  const AT_FRAME_INDEX := 20
  const AT_FLAGS := 24
  const AT_MULTI_FEC_FLAGS := 26
  const AT_MULTI_FEC_BLOCKS := 27
  const AT_FEC_INFO := 28

  const FLAG_EXTENSION := 0x10
  const FLAG_CONTAINS_PIC_DATA := 1
  const FLAG_EOF := 2
  const FLAG_SOF := 4

  function LowByte(n: nat): byte { n % 256 }

  function Le32(n: nat): (s: seq<byte>)
    ensures |s| == 4
  {
    [LowByte(n), LowByte(n / 256), LowByte(n / 256 / 256), LowByte(n / 256 / 256 / 256)]
  }

  function FromLe32(s: seq<byte>): nat
    requires |s| == 4
  {
    var b0: int, b1: int, b2: int, b3: int := s[0], s[1], s[2], s[3];
    b0 + 256 * (b1 + 256 * (b2 + 256 * b3))
  }

  function Be32(n: nat): (s: seq<byte>)
    ensures |s| == 4
  {
    [LowByte(n / 256 / 256 / 256), LowByte(n / 256 / 256), LowByte(n / 256), LowByte(n)]
  }

  function Be16(n: nat): (s: seq<byte>)
    ensures |s| == 2
  {
    [LowByte(n / 256), LowByte(n)]
  }

  function FromBe16(s: seq<byte>): nat
    requires |s| == 2
  {
    var b0: int, b1: int := s[0], s[1];
    256 * b0 + b1
  }

  /** Storing into a field of fixed width keeps the value modulo that width. */
  lemma ReadBack32(n: nat)
    ensures FromLe32(Le32(n)) == n % 0x1_0000_0000
  {
    var q1 := n / 256;
    var q2 := q1 / 256;
    var q3 := q2 / 256;
    assert n == n % 256 + 256 * (q1 % 256) + 0x1_0000 * (q2 % 256) + 0x100_0000 * (q3 % 256) + 0x1_0000_0000 * (q3 / 256);
  }

  lemma ReadBack16(n: nat)
    ensures FromBe16(Be16(n)) == n % 0x1_0000
  {
    var q1 := n / 256;
    var q2 := q1 / 256;
    assert n == n % 256 + 256 * (q1 % 256) + 0x1_0000 * q2;
  }

  /** The number in a field whose lowest byte comes first, or last. */
  function Little(s: seq<byte>): nat {
    if s == [] then 0 else s[0] as int + 256 * Little(s[1..])
  }

  function Big(s: seq<byte>): nat {
    if s == [] then 0 else 256 * Big(s[..|s| - 1]) + s[|s| - 1] as int
  }

  lemma Little4(s: seq<byte>)
    requires |s| == 4
    ensures Little(s) == FromLe32(s) && Little(s) == s[0] as int + 256 * Little(s[1..])
  {
    assert s[1..][1..] == s[2..] && s[2..][1..] == s[3..] && s[3..][1..] == [];
    assert Little(s[3..]) == s[3];
    assert Little(s[2..]) == s[2] as int + 256 * Little(s[3..]);
  }

  lemma Big2(s: seq<byte>)
    requires |s| == 2
    ensures Big(s) == FromBe16(s)
  {
    assert s[..1][..0] == [] && Big(s[..1]) == s[0];
  }

  lemma ReadBackBe32(n: nat)
    ensures Big(Be32(n)) == n % 0x1_0000_0000
  {
    hide LowByte;
    var s := Be32(n);
    assert s[..3][..2] == s[..2] && s[..2][..1] == s[..1] && s[..1][..0] == [];
    assert Big(s[..1]) == s[0];
    assert Big(s[..2]) == 256 * Big(s[..1]) + s[1] as int;
    assert Big(s[..3]) == 256 * Big(s[..2]) + s[2] as int;
    ReadBack32(n);
  }

  // What a receiver reads

  function SequenceNumber(p: seq<byte>): nat
    requires |p| >= VIDEO_PACKET_RAW_SIZE
  {
    FromBe16(p[AT_SEQUENCE_NUMBER..AT_SEQUENCE_NUMBER + 2])
  }

  function StreamPacketIndex(p: seq<byte>): nat
    requires |p| >= VIDEO_PACKET_RAW_SIZE
  {
    FromLe32(p[AT_STREAM_PACKET_INDEX..AT_STREAM_PACKET_INDEX + 4])
  }

  function FecInfo(p: seq<byte>): nat
    requires |p| >= VIDEO_PACKET_RAW_SIZE
  {
    FromLe32(p[AT_FEC_INFO..AT_FEC_INFO + 4])
  }

  /** lastPayloadLen of video_short_frame_header_t, at offset 4 of the frame. */
  function LastPayloadLen(frame: seq<byte>): nat
    requires |frame| >= FRAME_HEADER_SIZE
  {
    var lo: int, hi: int := frame[4], frame[5];
    lo + 256 * hi
  }

  function Payload(p: seq<byte>): seq<byte>
    requires |p| >= VIDEO_PACKET_RAW_SIZE
  {
    p[VIDEO_PACKET_RAW_SIZE..]
  }

  /** The bitwise or of the source, on unbounded numbers. */
  function BitOr(a: nat, b: nat): nat
  {
    if a == 0 then b else if b == 0 then a
    else 2 * BitOr(a / 2, b / 2) + (if a % 2 == 1 || b % 2 == 1 then 1 else 0)
  }

  /** Numbers with no bits in common or together to their sum. */
  lemma {:induction false} OrIsSum(high: nat, low: nat, k: nat)
    requires low < Pow2(k)
    ensures BitOr(high * Pow2(k), low) == high * Pow2(k) + low == BitOr(low, high * Pow2(k))
  {
    if k > 0 && high > 0 && low > 0 {
      var p := Pow2(k - 1);
      assert high * Pow2(k) == 2 * (high * p);
      OrIsSum(high, low / 2, k - 1);
      assert high * p >= 1 by { MulMono(1, high, p); }
    }
  }

  /** The value stored in fecInfo: shard number, data shard count and percentage, shifted into place. */
  function PackFecInfo(x: nat, dataShards: nat, percentage: nat): nat {
    BitOr(BitOr(x * 0x1000, dataShards * 0x40_0000), percentage * 0x10)
  }

  // The fields a receiver takes out of the 32 bits of fecInfo
  function FecShard(v: nat): nat { v / 0x1000 % 1024 }
  function FecDataShards(v: nat): nat { v / 0x40_0000 % 1024 }
  function FecPercentage(v: nat): nat { v / 0x10 % 256 }

  /** The three numbers can be read back exactly when each of them fits its field. */
  lemma FecInfoFields(x: nat, dataShards: nat, percentage: nat)
    ensures var v := PackFecInfo(x, dataShards, percentage) % 0x1_0000_0000;
            (FecShard(v) == x && FecDataShards(v) == dataShards && FecPercentage(v) == percentage)
            <==> (x < 1024 && dataShards < 1024 && percentage < 256)
  {
    hide PackFecInfo;
    if x < 1024 && dataShards < 1024 && percentage < 256 {
      FecInfoSum(x, dataShards, percentage);
      FieldsOfSum(x, dataShards, percentage);
    }
  }

  lemma FieldsOfSum(x: nat, dataShards: nat, percentage: nat)
    requires x < 1024 && dataShards < 1024 && percentage < 256
    ensures var v := dataShards * 0x40_0000 + x * 0x1000 + percentage * 0x10;
            v < 0x1_0000_0000 && FecShard(v) == x && FecDataShards(v) == dataShards && FecPercentage(v) == percentage
  {
    var v := dataShards * 0x40_0000 + x * 0x1000 + percentage * 0x10;
    assert v / 0x10 == percentage + 256 * (x + 1024 * dataShards);
    assert v / 0x1000 == x + 1024 * dataShards;
    assert v / 0x40_0000 == dataShards;
  }

  lemma FecInfoSum(x: nat, dataShards: nat, percentage: nat)
    requires x < 1024 && dataShards < 1024 && percentage < 256
    ensures PackFecInfo(x, dataShards, percentage) == dataShards * 0x40_0000 + x * 0x1000 + percentage * 0x10
  {
    hide BitOr, Pow2;
    Powers();
    OrIsSum(dataShards, x * 0x1000, 22);
    OrIsSum(dataShards * 1024 + x, percentage * 0x10, 12);
  }

  lemma Powers()
    ensures Pow2(22) == 0x40_0000 && Pow2(12) == 0x1000
  {
  }

  // What the sender writes

  /** video_short_frame_header_t, little-endian and packed. */
  function FrameHeader(latency: nat, frameType: byte, lastPayloadLen: nat): (h: seq<byte>)
    ensures |h| == FRAME_HEADER_SIZE
    ensures LastPayloadLen(h) == lastPayloadLen % 0x1_0000
  {
    ReadBack16(lastPayloadLen);
    [1, LowByte(latency), LowByte(latency / 256), frameType, LowByte(lastPayloadLen), LowByte(lastPayloadLen / 256), 0, 0]
  }

  /** The fields of NV_VIDEO_PACKET that are set before the block is encoded. */
  function StampPacket(p: seq<byte>, index: nat, frameIndex: nat, flags: byte, multiFecBlocks: byte): (r: seq<byte>)
    requires |p| >= VIDEO_PACKET_RAW_SIZE
    ensures |r| == |p|
  {
    var p1 := Overwrite(p, AT_FRAME_INDEX, Le32(frameIndex));
    var p2 := Overwrite(p1, AT_STREAM_PACKET_INDEX, Le32(index * 256));
    var p3 := Overwrite(p2, AT_MULTI_FEC_FLAGS, [0x10]);
    var p4 := Overwrite(p3, AT_MULTI_FEC_BLOCKS, [multiFecBlocks]);
    Overwrite(p4, AT_FLAGS, [flags])
  }

  /** The fields that are set on every shard, data and parity, once the block is encoded. */
  function StampShard(p: seq<byte>, seqno: nat, timestamp: nat, frameIndex: nat, fecInfo: nat, multiFecBlocks: byte): (r: seq<byte>)
    requires |p| >= VIDEO_PACKET_RAW_SIZE
    ensures |r| == |p|
  {
    var p1 := Overwrite(p, AT_FEC_INFO, Le32(fecInfo));
    var p2 := Overwrite(p1, AT_RTP_HEADER, [0x80 + FLAG_EXTENSION]);
    var p3 := Overwrite(p2, AT_SEQUENCE_NUMBER, Be16(seqno));
    var p4 := Overwrite(p3, AT_TIMESTAMP, Be32(timestamp));
    var p5 := Overwrite(p4, AT_MULTI_FEC_BLOCKS, [multiFecBlocks]);
    Overwrite(p5, AT_FRAME_INDEX, Le32(frameIndex))
  }

  lemma OverwriteReads(p: seq<byte>, at: nat, src: seq<byte>)
    requires at + |src| <= |p|
    ensures Overwrite(p, at, src)[at..at + |src|] == src
    ensures forall lo, hi :: 0 <= lo <= hi <= |p| && (hi <= at || at + |src| <= lo) ==> Overwrite(p, at, src)[lo..hi] == p[lo..hi]
    ensures forall k :: 0 <= k < |p| && (k < at || at + |src| <= k) ==> Overwrite(p, at, src)[k] == p[k]
  {
  }

  /** Stamping a packet touches its header gap alone, and the stream index can be read back from it. */
  lemma StampPacketFields(p: seq<byte>, index: nat, frameIndex: nat, flags: byte, multiFecBlocks: byte)
    requires |p| >= VIDEO_PACKET_RAW_SIZE
    ensures var r := StampPacket(p, index, frameIndex, flags, multiFecBlocks);
            && Payload(r) == Payload(p)
            && StreamPacketIndex(r) == (index % 0x100_0000) * 256
            && r[AT_FLAGS] == flags && r[AT_MULTI_FEC_FLAGS] == 0x10
  {
    hide Overwrite, Le32, FromLe32;
    var p1 := Overwrite(p, AT_FRAME_INDEX, Le32(frameIndex));
    var p2 := Overwrite(p1, AT_STREAM_PACKET_INDEX, Le32(index * 256));
    var p3 := Overwrite(p2, AT_MULTI_FEC_FLAGS, [0x10]);
    var p4 := Overwrite(p3, AT_MULTI_FEC_BLOCKS, [multiFecBlocks]);
    OverwriteReads(p, AT_FRAME_INDEX, Le32(frameIndex));
    OverwriteReads(p1, AT_STREAM_PACKET_INDEX, Le32(index * 256));
    OverwriteReads(p2, AT_MULTI_FEC_FLAGS, [0x10]);
    OverwriteReads(p3, AT_MULTI_FEC_BLOCKS, [multiFecBlocks]);
    OverwriteReads(p4, AT_FLAGS, [flags]);
    var r := Overwrite(p4, AT_FLAGS, [flags]);
    assert r[AT_FLAGS..AT_FLAGS + 1][0] == flags;
    assert p3[AT_MULTI_FEC_FLAGS..AT_MULTI_FEC_FLAGS + 1][0] == 0x10;
    assert Payload(r) == r[VIDEO_PACKET_RAW_SIZE..|p|] == p[VIDEO_PACKET_RAW_SIZE..|p|] == Payload(p);
    ReadBack32(index * 256);
    assert (index * 256) % 0x1_0000_0000 == (index % 0x100_0000) * 256;
  }

  /** Stamping a shard touches its header gap alone, keeps the stream index, and its fields can be read back. */
  lemma StampShardFields(p: seq<byte>, seqno: nat, timestamp: nat, frameIndex: nat, fecInfo: nat, multiFecBlocks: byte)
    requires |p| >= VIDEO_PACKET_RAW_SIZE
    ensures var r := StampShard(p, seqno, timestamp, frameIndex, fecInfo, multiFecBlocks);
            && Payload(r) == Payload(p)
            && StreamPacketIndex(r) == StreamPacketIndex(p)
            && r[AT_FLAGS] == p[AT_FLAGS] && r[AT_MULTI_FEC_FLAGS] == p[AT_MULTI_FEC_FLAGS]
            && r[AT_RTP_HEADER] == 0x80 + FLAG_EXTENSION && r[AT_MULTI_FEC_BLOCKS] == multiFecBlocks
            && r[AT_TIMESTAMP..AT_TIMESTAMP + 4] == Be32(timestamp) && r[AT_FRAME_INDEX..AT_FRAME_INDEX + 4] == Le32(frameIndex)
            && SequenceNumber(r) == seqno % 0x1_0000
            && FecInfo(r) == fecInfo % 0x1_0000_0000
  {
    hide Overwrite, Le32, Be16, Be32, FromLe32, FromBe16;
    var p1 := Overwrite(p, AT_FEC_INFO, Le32(fecInfo));
    var p2 := Overwrite(p1, AT_RTP_HEADER, [0x80 + FLAG_EXTENSION]);
    var p3 := Overwrite(p2, AT_SEQUENCE_NUMBER, Be16(seqno));
    var p4 := Overwrite(p3, AT_TIMESTAMP, Be32(timestamp));
    var p5 := Overwrite(p4, AT_MULTI_FEC_BLOCKS, [multiFecBlocks]);
    OverwriteReads(p, AT_FEC_INFO, Le32(fecInfo));
    OverwriteReads(p1, AT_RTP_HEADER, [0x80 + FLAG_EXTENSION]);
    OverwriteReads(p2, AT_SEQUENCE_NUMBER, Be16(seqno));
    OverwriteReads(p3, AT_TIMESTAMP, Be32(timestamp));
    OverwriteReads(p4, AT_MULTI_FEC_BLOCKS, [multiFecBlocks]);
    OverwriteReads(p5, AT_FRAME_INDEX, Le32(frameIndex));
    var r := Overwrite(p5, AT_FRAME_INDEX, Le32(frameIndex));
    assert Payload(r) == r[VIDEO_PACKET_RAW_SIZE..|p|] == p[VIDEO_PACKET_RAW_SIZE..|p|] == Payload(p);
    assert p2[AT_RTP_HEADER..AT_RTP_HEADER + 1][0] == 0x80 + FLAG_EXTENSION;
    assert p5[AT_MULTI_FEC_BLOCKS..AT_MULTI_FEC_BLOCKS + 1][0] == multiFecBlocks;
    ReadBack16(seqno);
    ReadBack32(fecInfo);
  }

  /** The header of a shard byte by byte, as a client takes it apart: shard x of a block with d data shards, which is block k of n
      of its frame. */
  ghost predicate HeaderSays(p: seq<byte>, x: nat, d: nat, k: nat, n: nat, frameIndex: nat, timestamp: nat, seqno: nat) {
    && |p| >= 32
    // RTP: version 2 with an extension, then sequence number and timestamp
    && p[0] == 0x90 && Big(p[2..4]) == seqno % 0x1_0000 && Big(p[4..8]) == timestamp % 0x1_0000_0000
    // the frame's number, and which of its blocks this is
    && Little(p[20..24]) == frameIndex % 0x1_0000_0000
    && p[27] / 0x10 % 4 == k && p[27] / 0x40 == n - 1 && p[27] % 0x10 == 0
    && (x < d ==> DataHeaderSays(p, x, d, seqno))
  }

  /** What is in the header of a data shard only. */
  ghost predicate DataHeaderSays(p: seq<byte>, x: nat, d: nat, seqno: nat)
    requires |p| >= 32
  {
    && p[16] == 0 && Little(p[17..20]) == seqno % 0x100_0000
    // picture data; the start of the block is marked on its first packet and the end on its last
    && p[24] % 2 == 1 && (p[24] / 4 % 2 == 1 <==> x == 0) && (p[24] / 2 % 2 == 1 <==> x + 1 == d) && p[24] < 8
    && p[26] == 0x10
  }

  /** The frame header byte by byte. */
  ghost predicate FrameHeaderSays(h: seq<byte>, latency: nat, frameType: byte, lastPayloadLen: nat) {
    && |h| == 8 && h[0] == 0x01 && h[3] == frameType && h[6] == h[7] == 0
    && Little(h[1..3]) == latency % 0x1_0000 && Little(h[4..6]) == lastPayloadLen % 0x1_0000
  }

  lemma FrameHeaderRead(latency: nat, frameType: byte, lastPayloadLen: nat)
    ensures FrameHeaderSays(FrameHeader(latency, frameType, lastPayloadLen), latency, frameType, lastPayloadLen)
  {
    ReadBack16(latency);
    ReadBack16(lastPayloadLen);
    Little2(FrameHeader(latency, frameType, lastPayloadLen)[1..3]);
    Little2(FrameHeader(latency, frameType, lastPayloadLen)[4..6]);
  }

  lemma Little2(s: seq<byte>)
    requires |s| == 2
    ensures Little(s) == s[0] as int + 256 * s[1] as int
  {
    assert s[1..][1..] == [] && Little(s[1..]) == s[1];
  }
}
