/** What a client makes of the datagrams of a frame: numbering, and exact reassembly from the packet headers. */
module Receiver {
  import opened Bytes
  import opened Cutting
  import opened Datagrams
  import opened FecEncode
  import opened FecSplit
  import opened PacketGaps
  import opened PacketHeaders
  import opened Stamping
  import opened Wrappers
  import Nonces

  // ----- Which datagrams are data shards -----

  /** The first `data` shards of a block are its data shards, the others parity. */
  function BlockMarks(data: nat, parity: nat): (marks: seq<bool>)
    ensures |marks| == data + parity
  {
    seq(data + parity, x => x < data)
  }

  /** Likewise for the datagrams of the first n blocks of a frame. */
  function FrameMarks(frame: seq<byte>, blocks: seq<View>, n: nat, c: Config): seq<bool>
    requires c.Valid() && FrameCut(frame, blocks, c.blocksize) && n <= |blocks|
  {
    if n == 0 then [] else
      var view := blocks[n - 1];
      assert BlockOfPackets(frame, view, c.blocksize);
      CeilDivIs(view.hi - view.lo, c.blocksize);
      var d := CeilDiv(view.hi - view.lo, c.blocksize);
      FrameMarks(frame, blocks, n - 1, c) + BlockMarks(d, ParityPlan(d, c.fecPercentage, c.minParity).0)
  }

  lemma {:induction false} MarksSize(frame: seq<byte>, blocks: seq<View>, n: nat, c: Config, frameIndex: nat, timestamp: nat, before: nat)
    requires c.Valid() && FrameCut(frame, blocks, c.blocksize) && n <= |blocks|
    ensures |FrameMarks(frame, blocks, n, c)| == |FrameOut(frame, blocks, n, c, frameIndex, timestamp, before)|
  {
    hide BlockOut, Cut, ParityPlan;
    if n > 0 {
      MarksSize(frame, blocks, n - 1, c, frameIndex, timestamp, before);
      var out, view := FrameOut(frame, blocks, n - 1, c, frameIndex, timestamp, before), blocks[n - 1];
      assert BlockOfPackets(frame, view, c.blocksize);
      var i := BlockInfo(before + |out|, frameIndex, timestamp, n - 1, |blocks|);
      BlockSize(frame[view.lo..view.hi], c, i, (before + |out|) % Nonces.TWO_64);
    }
  }

  /** The marked members of s, in order. */
  function Marked<T>(s: seq<T>, marks: seq<bool>): seq<T>
    requires |s| == |marks|
  {
    if s == [] then [] else (if marks[0] then [s[0]] else []) + Marked(s[1..], marks[1..])
  }

  lemma {:induction false} MarkedAppend<T>(s: seq<T>, t: seq<T>, m: seq<bool>, n: seq<bool>)
    requires |s| == |m| && |t| == |n|
    ensures Marked(s + t, m + n) == Marked(s, m) + Marked(t, n)
  {
    if s == [] {
      Neutral(t);
      Neutral(n);
      Neutral(Marked(t, n));
    } else {
      MarkedAppend(s[1..], t, m[1..], n);
      CutJoined(s, t, 1);
      CutJoined(m, n, 1);
      Assoc(if m[0] then [s[0]] else [], Marked(s[1..], m[1..]), Marked(t, n));
    }
  }

  lemma {:induction false} MarkedBlock<T>(s: seq<T>, data: nat, parity: nat)
    requires |s| == data + parity
    ensures Marked(s, BlockMarks(data, parity)) == s[..data]
  {
    if data > 0 {
      assert BlockMarks(data, parity)[1..] == BlockMarks(data - 1, parity);
      MarkedBlock(s[1..], data - 1, parity);
      assert s[..data] == [s[0]] + s[1..][..data - 1];
    } else if parity > 0 {
      assert BlockMarks(0, parity)[1..] == BlockMarks(0, parity - 1);
      MarkedBlock(s[1..], 0, parity - 1);
    }
  }

  lemma {:induction false} MarkedWide(s: seq<seq<byte>>, marks: seq<bool>)
    requires |s| == |marks| && Wide(s)
    ensures Wide(Marked(s, marks))
  {
    if s != [] {
      MarkedWide(s[1..], marks[1..]);
    }
  }

  // ----- One data shard -----

  lemma {:induction false} CutJoin(pieces: seq<seq<byte>>, b: nat)
    requires b > 0 && forall x :: 0 <= x < |pieces| ==> 0 < |pieces[x]| <= b && (x + 1 < |pieces| ==> |pieces[x]| == b)
    ensures Cut(Join(pieces), b) == pieces
  {
    if |pieces| == 1 {
      assert pieces[1..] == [] && Join(pieces[1..]) == [];
      Neutral(pieces[0]);
    } else if |pieces| > 1 {
      CutJoin(pieces[1..], b);
      CutUnfold(pieces[0], Join(pieces[1..]), b);
    }
  }

  lemma PaddedUnfold(head: seq<byte>, tail: seq<byte>, b: nat)
    requires |head| == b > 0 && tail != []
    ensures Padded(head + tail, b) == head + Padded(tail, b)
  {
    CeilDivIs(|tail|, b);
    TimesIs(CeilDiv(|tail|, b), b);
    assert CeilDiv(|head + tail|, b) == 1 + CeilDiv(|tail|, b);
    Assoc(head, tail, Zeros(Times(CeilDiv(|tail|, b), b) - |tail|));
  }

  /** Padding fills up the last piece and leaves the others alone. */
  lemma {:induction false} CutPadded(s: seq<byte>, b: nat)
    requires b > 0
    ensures |Cut(Padded(s, b), b)| == |Cut(s, b)|
    ensures forall x :: 0 <= x < |Cut(s, b)| ==> |Cut(s, b)[x]| <= b && Cut(Padded(s, b), b)[x] == Cut(s, b)[x] + Zeros(b - |Cut(s, b)[x]|)
  {
    if |s| > b {
      var head, tail := s[..b], s[b..];
      assert s == head + tail;
      PaddedUnfold(head, tail, b);
      CutUnfold(head, Padded(tail, b), b);
      CutUnfold(head, tail, b);
      CutPadded(tail, b);
      Neutral(head);
    } else if s == [] {
      Neutral(s);
    } else {
      assert CeilDiv(|s|, b) == 1 && Times(1, b) == b;
      assert Padded(s, b) == s + Zeros(b - |s|);
    }
  }

  /** Data shard x of an encoded block is its stamped packet, padded with zeros. */
  lemma DataShard(block: seq<byte>, c: Config, i: BlockInfo, x: nat)
    requires block != [] && c.Valid() && Wide(Cut(block, c.blocksize)) && i.Valid()
    requires x < |Cut(block, c.blocksize)|
    ensures |Cut(block, c.blocksize)[x]| <= c.blocksize
    ensures x < |EncodedShards(block, c, i)|
    ensures EncodedShards(block, c, i)[x]
            == Stamped(Cut(block, c.blocksize), x, i) + Zeros(c.blocksize - |Cut(block, c.blocksize)[x]|)
  {
    hide StampPacket, Padded, ParityBytes, ParityPlan, Cut, Join, CeilDiv;
    var b, packets := c.blocksize, Cut(block, c.blocksize);
    var stamped := StampedUpTo(packets, |packets|, i);
    PieceSizes(block, b);
    CutJoin(stamped, b);
    var s := StampedBlock(block, b, i);
    var data := Padded(s, b);
    CutPadded(s, b);
    EncodedWide(block, c, i);
    var (parity, _) := ParityPlan(DataShardsOf(block, b), c.fecPercentage, c.minParity);
    CutAppend(data, ParityBytes(c.rs, data, b, parity), b, DataShardsOf(block, b));
  }

  lemma {:induction false} PieceSizes(s: seq<byte>, b: nat)
    requires b > 0
    ensures forall x :: 0 <= x < |Cut(s, b)| ==> 0 < |Cut(s, b)[x]| <= b && (x + 1 < |Cut(s, b)| ==> |Cut(s, b)[x]| == b)
  {
    if |s| > b {
      assert s == s[..b] + s[b..];
      CutUnfold(s[..b], s[b..], b);
      PieceSizes(s[b..], b);
    }
  }

  // ----- One block -----

  /** Datagram x of a block, opened: its size, number and FEC fields. */
  lemma OpenedShard(block: seq<byte>, c: Config, i: BlockInfo, counter: nat, x: nat)
    requires block != [] && c.Valid() && Wide(Cut(block, c.blocksize)) && i.Valid()
    requires x < |BlockOut(block, c, i, counter)|
    ensures x < |EncodedShards(block, c, i)|
    ensures var d := BlockOut(block, c, i, counter)[x];
            var (_, percentage) := ParityPlan(DataShardsOf(block, c.blocksize), c.fecPercentage, c.minParity);
            var shard := EncodedShards(block, c, i)[x];
            && |shard| == c.blocksize
            && Opened(c.cipher, d) == Finished(shard, x, DataShardsOf(block, c.blocksize), percentage, i)
            && (c.cipher.Some? ==>
                  d.prefix.Some? && d.prefix.value.iv == Nonces.VideoIv((counter + x) % Nonces.TWO_64) && d.prefix.value.frameNumber == i.frameIndex)
  {
    hide EncodedShards, Cut, Finished, ParityPlan, Nonces.VideoIv, BlockOut, Wide, Config.Valid, BlockInfo.Valid;
    EncodedWide(block, c, i);
    BlockOutIs(block, c, i, counter);
    var (_, percentage) := ParityPlan(DataShardsOf(block, c.blocksize), c.fecPercentage, c.minParity);
    SealedAt(EncodedShards(block, c, i), DataShardsOf(block, c.blocksize), percentage, i, c, counter, x);
  }

  lemma SealedAt(shards: seq<seq<byte>>, dataShards: nat, percentage: nat, i: BlockInfo, c: Config, counter: nat, x: nat)
    requires Wide(shards) && i.Valid() && c.Valid() && x < |shards|
    ensures var d := BlockDatagrams(shards, dataShards, percentage, i, c.cipher, counter)[x];
      && |shards[x]| >= VIDEO_PACKET_RAW_SIZE
      && Opened(c.cipher, d) == Finished(shards[x], x, dataShards, percentage, i)
      && (c.cipher.Some? ==>
            d.prefix.Some? && d.prefix.value.iv == Nonces.VideoIv((counter + x) % Nonces.TWO_64) && d.prefix.value.frameNumber == i.frameIndex)
  {
    hide Finished, Nonces.VideoIv;
    FinishedFields(shards[x], x, dataShards, percentage, i);
    OpenSealed(c.cipher, Finished(shards[x], x, dataShards, percentage, i), (counter + x) % Nonces.TWO_64, i.frameIndex);
  }

  /** A datagram numbered k in its session: sequence number, size and, if encrypted, the IV it went out under; the stream index
      of a data shard is its number as well. */
  ghost predicate Numbered(cipher: Option<Cipher>, b: nat, d: Datagram, k: nat, data: bool)
    requires b > VIDEO_PACKET_RAW_SIZE
  {
    var p := Opened(cipher, d);
    && |p| == b
    && SequenceNumber(p) == k % 0x1_0000
    && (cipher.Some? ==> d.prefix.Some? && d.prefix.value.iv == Nonces.VideoIv(k % Nonces.TWO_64))
    && (data ==> StreamPacketIndex(p) == (k % 0x100_0000) * 256 && StreamPacketIndex(p) / 256 % 0x1_0000 == SequenceNumber(p))
  }

  lemma BlockNumbered(block: seq<byte>, c: Config, i: BlockInfo, counter: nat, x: nat)
    requires block != [] && c.Valid() && Wide(Cut(block, c.blocksize)) && i.Valid()
    requires x < |BlockOut(block, c, i, counter)| && counter == i.lowseq % Nonces.TWO_64
    ensures Numbered(c.cipher, c.blocksize, BlockOut(block, c, i, counter)[x], i.lowseq + x, x < DataShardsOf(block, c.blocksize))
  {
    hide EncodedShards, Cut, Finished, ParityPlan, Nonces.VideoIv, BlockOut, Opened, SequenceNumber, StreamPacketIndex, Payload;
    OpenedShard(block, c, i, counter, x);
    WrapAdd(i.lowseq, x);
    var shard := EncodedShards(block, c, i)[x];
    var (_, percentage) := ParityPlan(DataShardsOf(block, c.blocksize), c.fecPercentage, c.minParity);
    FinishedFields(shard, x, DataShardsOf(block, c.blocksize), percentage, i);
    if x < DataShardsOf(block, c.blocksize) {
      BlockSize(block, c, i, counter);
      DataShardCarries(block, c, i, counter, x);
    }
  }

  /** Across a frame every datagram carries the next number, whatever blocks the frame was split into. */
  lemma {:induction false} FrameNumbered(frame: seq<byte>, blocks: seq<View>, n: nat, c: Config, frameIndex: nat, timestamp: nat, before: nat, x: nat)
    requires c.Valid() && FrameCut(frame, blocks, c.blocksize) && n <= |blocks|
    requires x < |FrameOut(frame, blocks, n, c, frameIndex, timestamp, before)|
    ensures |FrameMarks(frame, blocks, n, c)| == |FrameOut(frame, blocks, n, c, frameIndex, timestamp, before)|
    ensures Numbered(c.cipher, c.blocksize, FrameOut(frame, blocks, n, c, frameIndex, timestamp, before)[x], before + x,
                     FrameMarks(frame, blocks, n, c)[x])
  {
    hide BlockOut, Numbered, Cut, FrameMarks, ParityPlan, Tiles;
    var out := FrameOut(frame, blocks, n - 1, c, frameIndex, timestamp, before);
    var counter := (before + |out|) % Nonces.TWO_64;
    FrameOutStep(frame, blocks, n - 1, c, frameIndex, timestamp, before, counter);
    MarksSize(frame, blocks, n, c, frameIndex, timestamp, before);
    MarksSize(frame, blocks, n - 1, c, frameIndex, timestamp, before);
    hide FrameOut;
    MarkAt(frame, blocks, n - 1, c, x);
    if x < |out| {
      FrameNumbered(frame, blocks, n - 1, c, frameIndex, timestamp, before, x);
    } else {
      var i := BlockInfo(before + |out|, frameIndex, timestamp, n - 1, |blocks|);
      BlockNumbered(frame[blocks[n - 1].lo..blocks[n - 1].hi], c, i, counter, x - |out|);
    }
  }

  lemma MarkAt(frame: seq<byte>, blocks: seq<View>, n: nat, c: Config, x: nat)
    requires c.Valid() && FrameCut(frame, blocks, c.blocksize) && n < |blocks| && x < |FrameMarks(frame, blocks, n + 1, c)|
    ensures var marks, all := FrameMarks(frame, blocks, n, c), FrameMarks(frame, blocks, n + 1, c);
      && BlockOfPackets(frame, blocks[n], c.blocksize)
      && all[x] == if x < |marks| then marks[x] else x - |marks| < CeilDiv(blocks[n].hi - blocks[n].lo, c.blocksize)
  {
    hide ParityPlan, Tiles;
    assert BlockOfPackets(frame, blocks[n], c.blocksize);
  }

  /** What data shard x of a block carries: its slice of the frame, and a stream index that agrees with its number. */
  lemma DataShardCarries(block: seq<byte>, c: Config, i: BlockInfo, counter: nat, x: nat)
    requires block != [] && c.Valid() && Wide(Cut(block, c.blocksize)) && i.Valid()
    requires x < |Cut(block, c.blocksize)|
    ensures x < |BlockOut(block, c, i, counter)|
    ensures |Cut(block, c.blocksize)[x]| <= c.blocksize
    ensures var p := Opened(c.cipher, BlockOut(block, c, i, counter)[x]);
            && |p| == c.blocksize
            && Payload(p) == Payload(Cut(block, c.blocksize)[x]) + Zeros(c.blocksize - |Cut(block, c.blocksize)[x]|)
            && StreamPacketIndex(p) == ((i.lowseq + x) % 0x100_0000) * 256
            && StreamPacketIndex(p) / 256 % 0x1_0000 == SequenceNumber(p)
  {
    hide EncodedShards, Cut, Finished, Stamped, Payload, ParityPlan, Nonces.VideoIv, Opened, SequenceNumber, StreamPacketIndex, BlockOut;
    BlockSize(block, c, i, counter);
    DataShard(block, c, i, x);
    OpenedShard(block, c, i, counter, x);
    var packets, shard := Cut(block, c.blocksize), EncodedShards(block, c, i)[x];
    var (_, percentage) := ParityPlan(DataShardsOf(block, c.blocksize), c.fecPercentage, c.minParity);
    StampedFields(packets, x, i);
    HeaderOfPrefix(Stamped(packets, x, i), Zeros(c.blocksize - |packets[x]|));
    FinishedFields(shard, x, DataShardsOf(block, c.blocksize), percentage, i);
    IndexAgrees(i.lowseq + x);
  }

  lemma BlockSize(block: seq<byte>, c: Config, i: BlockInfo, counter: nat)
    requires block != [] && c.Valid() && Wide(Cut(block, c.blocksize)) && i.Valid()
    ensures |BlockOut(block, c, i, counter)|
            == DataShardsOf(block, c.blocksize) + ParityPlan(DataShardsOf(block, c.blocksize), c.fecPercentage, c.minParity).0
    ensures |Cut(block, c.blocksize)| == DataShardsOf(block, c.blocksize) > 0
  {
    hide EncodedShards, ParityPlan;
    CeilDivIs(|block|, c.blocksize);
    EncodedWide(block, c, i);
  }

  lemma StampedFields(packets: seq<seq<byte>>, x: nat, i: BlockInfo)
    requires Wide(packets) && x < |packets| && i.Valid()
    ensures |Stamped(packets, x, i)| == |packets[x]| && Payload(Stamped(packets, x, i)) == Payload(packets[x])
    ensures StreamPacketIndex(Stamped(packets, x, i)) == ((i.lowseq + x) % 0x100_0000) * 256
    ensures Stamped(packets, x, i)[AT_FLAGS] == PacketFlags(x, |packets|) && Stamped(packets, x, i)[AT_MULTI_FEC_FLAGS] == 0x10
  {
    hide StampPacket, StreamPacketIndex;
    StampPacketFields(packets[x], i.lowseq + x, i.frameIndex, PacketFlags(x, |packets|), i.MultiFecBlocks());
  }

  lemma FinishedFields(shard: seq<byte>, x: nat, dataShards: nat, percentage: nat, i: BlockInfo)
    requires |shard| >= VIDEO_PACKET_RAW_SIZE && i.Valid()
    ensures var p := Finished(shard, x, dataShards, percentage, i);
            && |p| == |shard| && Payload(p) == Payload(shard) && StreamPacketIndex(p) == StreamPacketIndex(shard)
            && SequenceNumber(p) == (i.lowseq + x) % 0x1_0000
            && FecInfo(p) == PackFecInfo(x, dataShards, percentage) % 0x1_0000_0000
            && p[AT_FLAGS] == shard[AT_FLAGS] && p[AT_MULTI_FEC_FLAGS] == shard[AT_MULTI_FEC_FLAGS]
            && p[AT_RTP_HEADER] == 0x80 + FLAG_EXTENSION && p[AT_MULTI_FEC_BLOCKS] == i.MultiFecBlocks()
            && p[AT_TIMESTAMP..AT_TIMESTAMP + 4] == Be32(i.timestamp) && p[AT_FRAME_INDEX..AT_FRAME_INDEX + 4] == Le32(i.frameIndex)
  {
    hide Be32, Le32, StampShard, StreamPacketIndex, SequenceNumber, FecInfo;
    StampShardFields(shard, i.lowseq + x, i.timestamp, i.frameIndex, PackFecInfo(x, dataShards, percentage), i.MultiFecBlocks());
  }

  // ----- The headers, byte by byte -----

  lemma CommonHeader(p: seq<byte>, x: nat, d: nat, i: BlockInfo)
    requires |p| >= VIDEO_PACKET_RAW_SIZE && i.Valid()
    requires SequenceNumber(p) == (i.lowseq + x) % 0x1_0000 && p[AT_RTP_HEADER] == 0x80 + FLAG_EXTENSION
    requires p[AT_MULTI_FEC_BLOCKS] == i.MultiFecBlocks()
    requires p[AT_TIMESTAMP..AT_TIMESTAMP + 4] == Be32(i.timestamp) && p[AT_FRAME_INDEX..AT_FRAME_INDEX + 4] == Le32(i.frameIndex)
    requires x < d ==> DataHeaderSays(p, x, d, i.lowseq + x)
    ensures HeaderSays(p, x, d, i.blockIndex, i.fecBlocksNeeded, i.frameIndex, i.timestamp, i.lowseq + x)
  {
    hide Be32, Le32, DataHeaderSays, Little, Big, FromLe32, FromBe16;
    ReadBackBe32(i.timestamp);
    ReadBack32(i.frameIndex);
    Little4(p[20..24]);
    Big2(p[2..4]);
  }

  lemma DataHeader(p: seq<byte>, x: nat, d: nat, seqno: nat)
    requires |p| >= VIDEO_PACKET_RAW_SIZE && x < d
    requires StreamPacketIndex(p) == (seqno % 0x100_0000) * 256 && p[AT_FLAGS] == PacketFlags(x, d) && p[AT_MULTI_FEC_FLAGS] == 0x10
    ensures DataHeaderSays(p, x, d, seqno)
  {
    hide Little, FromLe32;
    var s := p[16..20];
    Little4(s);
    assert s[1..] == p[17..20];
    LowBytes(s[0], Little(s[1..]), seqno % 0x100_0000);
  }

  lemma LowBytes(low: byte, high: nat, v: nat)
    requires low as int + 256 * high == v * 256
    ensures low == 0 && high == v
  {
  }

  /** Every shard of a block says which one it is; and with a cipher the frame's number goes in front of it as well. */
  lemma BlockHeaders(block: seq<byte>, c: Config, i: BlockInfo, counter: nat, x: nat)
    requires block != [] && c.Valid() && Wide(Cut(block, c.blocksize)) && i.Valid()
    requires x < |BlockOut(block, c, i, counter)|
    ensures var ds := BlockOut(block, c, i, counter)[x];
            && HeaderSays(Opened(c.cipher, ds), x, DataShardsOf(block, c.blocksize), i.blockIndex, i.fecBlocksNeeded, i.frameIndex, i.timestamp, i.lowseq + x)
            && (c.cipher.Some? ==> ds.prefix.Some? && ds.prefix.value.frameNumber == i.frameIndex)
  {
    hide EncodedShards, Cut, Finished, ParityPlan, BlockOut, Opened, SequenceNumber, StreamPacketIndex, Payload, HeaderSays, DataHeaderSays,
      PacketFlags, Be32, Le32, FecInfo, PackFecInfo, Stamped;
    OpenedShard(block, c, i, counter, x);
    var d, shard := DataShardsOf(block, c.blocksize), EncodedShards(block, c, i)[x];
    var (_, percentage) := ParityPlan(d, c.fecPercentage, c.minParity);
    FinishedFields(shard, x, d, percentage, i);
    var p := Finished(shard, x, d, percentage, i);
    if x < d {
      BlockSize(block, c, i, counter);
      DataShard(block, c, i, x);
      StampedFields(Cut(block, c.blocksize), x, i);
      HeaderOfPrefix(Stamped(Cut(block, c.blocksize), x, i), Zeros(c.blocksize - |Cut(block, c.blocksize)[x]|));
      DataHeader(p, x, d, i.lowseq + x);
    }
    CommonHeader(p, x, d, i);
  }

  /** Datagram number |FrameMarks(k)| + x of a frame is shard x of block k. */
  ghost predicate ShardOf(frame: seq<byte>, blocks: seq<View>, c: Config, k: nat, x: nat)
    requires c.Valid() && FrameCut(frame, blocks, c.blocksize)
  {
    k < |blocks| && |FrameMarks(frame, blocks, k, c)| + x < |FrameMarks(frame, blocks, k + 1, c)|
  }

  /** That datagram, once opened, has a header that says so. */
  ghost predicate ShardSays(ds: seq<Datagram>, frame: seq<byte>, blocks: seq<View>, c: Config, frameIndex: nat, timestamp: nat, before: nat, k: nat, x: nat)
    requires c.Valid() && FrameCut(frame, blocks, c.blocksize) && ShardOf(frame, blocks, c, k, x)
  {
    var j := |FrameMarks(frame, blocks, k, c)| + x;
    && j < |ds| && blocks[k].lo < blocks[k].hi
    && HeaderSays(Opened(c.cipher, ds[j]), x, CeilDiv(blocks[k].hi - blocks[k].lo, c.blocksize), k, |blocks|, frameIndex, timestamp, before + j)
    && (c.cipher.Some? ==> ds[j].prefix.Some? && ds[j].prefix.value.frameNumber == frameIndex)
  }

  /** So it is for every shard of every block of a frame. */
  lemma {:induction false} FrameHeaders(frame: seq<byte>, blocks: seq<View>, n: nat, c: Config, frameIndex: nat, timestamp: nat, before: nat, k: nat, x: nat)
    requires c.Valid() && FrameCut(frame, blocks, c.blocksize) && k < n <= |blocks| && ShardOf(frame, blocks, c, k, x)
    ensures ShardSays(FrameOut(frame, blocks, n, c, frameIndex, timestamp, before), frame, blocks, c, frameIndex, timestamp, before, k, x)
  {
    hide BlockOut, Cut, FrameMarks, ParityPlan, Tiles, FrameOut, ShardSays;
    if k < n - 1 {
      var out := FrameOut(frame, blocks, n - 1, c, frameIndex, timestamp, before);
      FrameHeaders(frame, blocks, n - 1, c, frameIndex, timestamp, before, k, x);
      FrameOutStep(frame, blocks, n - 1, c, frameIndex, timestamp, before, (before + |out|) % Nonces.TWO_64);
      ShardSaysOn(out, FrameOut(frame, blocks, n, c, frameIndex, timestamp, before), frame, blocks, c, frameIndex, timestamp, before, k, x);
    } else {
      LastBlockHeaders(frame, blocks, k, c, frameIndex, timestamp, before, x);
    }
  }

  lemma ShardSaysOn(ds: seq<Datagram>, ds': seq<Datagram>, frame: seq<byte>, blocks: seq<View>, c: Config, frameIndex: nat, timestamp: nat, before: nat, k: nat, x: nat)
    requires c.Valid() && FrameCut(frame, blocks, c.blocksize) && ShardOf(frame, blocks, c, k, x)
    requires ShardSays(ds, frame, blocks, c, frameIndex, timestamp, before, k, x) && ds <= ds'
    ensures ShardSays(ds', frame, blocks, c, frameIndex, timestamp, before, k, x)
  {
    hide HeaderSays, Opened, FrameMarks, Tiles;
  }

  lemma LastBlockHeaders(frame: seq<byte>, blocks: seq<View>, k: nat, c: Config, frameIndex: nat, timestamp: nat, before: nat, x: nat)
    requires c.Valid() && FrameCut(frame, blocks, c.blocksize) && k < |blocks| && ShardOf(frame, blocks, c, k, x)
    ensures ShardSays(FrameOut(frame, blocks, k + 1, c, frameIndex, timestamp, before), frame, blocks, c, frameIndex, timestamp, before, k, x)
  {
    hide BlockOut, Cut, HeaderSays, Opened, BlockMarks, ParityPlan, Tiles, FrameOut, FrameMarks;
    var out := FrameOut(frame, blocks, k, c, frameIndex, timestamp, before);
    var counter := (before + |out|) % Nonces.TWO_64;
    FrameOutStep(frame, blocks, k, c, frameIndex, timestamp, before, counter);
    MarksSize(frame, blocks, k + 1, c, frameIndex, timestamp, before);
    MarksSize(frame, blocks, k, c, frameIndex, timestamp, before);
    var block := frame[blocks[k].lo..blocks[k].hi];
    assert BlockOfPackets(frame, blocks[k], c.blocksize) && |block| == blocks[k].hi - blocks[k].lo;
    BlockHeaders(block, c, BlockInfo(before + |out|, frameIndex, timestamp, k, |blocks|), counter, x);
  }

  lemma IndexAgrees(k: nat)
    ensures ((k % 0x100_0000) * 256) / 256 % 0x1_0000 == k % 0x1_0000
  {
  }

  lemma HeaderOfPrefix(p: seq<byte>, z: seq<byte>)
    requires |p| >= VIDEO_PACKET_RAW_SIZE
    ensures Payload(p + z) == Payload(p) + z
    ensures StreamPacketIndex(p + z) == StreamPacketIndex(p)
    ensures (p + z)[AT_FLAGS] == p[AT_FLAGS] && (p + z)[AT_MULTI_FEC_FLAGS] == p[AT_MULTI_FEC_FLAGS]
  {
    SliceOfHead(p, z, AT_STREAM_PACKET_INDEX, AT_STREAM_PACKET_INDEX + 4);
  }

  // ----- The client -----

  function Payloads(bodies: seq<seq<byte>>): (r: seq<seq<byte>>)
    requires Wide(bodies)
    ensures |r| == |bodies|
  {
    seq(|bodies|, x requires 0 <= x < |bodies| => Payload(bodies[x]))
  }

  /** How many shards the block that starts with this packet has, from its fecInfo and the parity formula. */
  function AnnouncedShards(p: seq<byte>): nat
    requires |p| >= VIDEO_PACKET_RAW_SIZE
  {
    var v := FecInfo(p);
    FecDataShards(v) + ParityShards(FecDataShards(v), FecPercentage(v))
  }

  /** Takes the data shards out of block after block, going by the headers alone, and drops their headers. */
  function Depacketized(bodies: seq<seq<byte>>): seq<byte>
    requires Wide(bodies)
  {
    if bodies == [] then [] else
      var d, n := FecDataShards(FecInfo(bodies[0])), AnnouncedShards(bodies[0]);
      if n == 0 || n > |bodies| then [] else Join(Payloads(bodies[..d])) + Depacketized(bodies[n..])
  }

  /** The announced blocks add up. */
  ghost predicate WholeBlocks(bodies: seq<seq<byte>>)
    requires Wide(bodies)
  {
    bodies != [] ==> var n := AnnouncedShards(bodies[0]); 0 < n <= |bodies| && WholeBlocks(bodies[n..])
  }

  /** The last slice is cut to the length that the frame header gives. */
  function CutToLength(total: seq<byte>, slice: nat): seq<byte> {
    if |total| < FRAME_HEADER_SIZE then [] else
      var size := |total| - slice + LastPayloadLen(total);
      if 0 <= size <= |total| then total[..size] else []
  }

  /** The frame as a client rebuilds it that goes by the headers alone. */
  function ClientFrame(bodies: seq<seq<byte>>, slice: nat): seq<byte>
    requires Wide(bodies)
  {
    CutToLength(Depacketized(bodies), slice)
  }

  /** The frame as it comes out of its data shards, headers dropped. */
  function DataFrame(bodies: seq<seq<byte>>, marks: seq<bool>, slice: nat): seq<byte>
    requires Wide(bodies) && |marks| == |bodies|
  {
    MarkedWide(bodies, marks);
    CutToLength(Join(Payloads(Marked(bodies, marks))), slice)
  }

  lemma DepacketizedUnfold(p: seq<seq<byte>>, n: nat)
    requires Wide(p) && p != [] && n == AnnouncedShards(p[0]) && 0 < n <= |p|
    ensures FecDataShards(FecInfo(p[0])) <= n && Wide(p[n..])
    ensures Depacketized(p) == Join(Payloads(p[..FecDataShards(FecInfo(p[0]))])) + Depacketized(p[n..])
    ensures WholeBlocks(p) <==> WholeBlocks(p[n..])
  {
    hide Payloads, Join, FecInfo, FecDataShards, AnnouncedShards, ParityShards;
    AnnouncesData(p[0]);
  }

  lemma {:induction false} DepacketizedAppend(p: seq<seq<byte>>, q: seq<seq<byte>>)
    requires Wide(p) && Wide(q) && WholeBlocks(p)
    ensures Wide(p + q) && Depacketized(p + q) == Depacketized(p) + Depacketized(q)
    ensures WholeBlocks(q) ==> WholeBlocks(p + q)
    decreases |p|
  {
    hide Payloads, Join, FecInfo, FecDataShards, AnnouncedShards, Depacketized;
    WideJoin(p, q);
    if p == [] {
      Neutral(q);
      Neutral(Depacketized(q));
      assert Depacketized([]) == [] by { DepacketizedEmpty(); }
    } else {
      var d, n := FecDataShards(FecInfo(p[0])), AnnouncedShards(p[0]);
      DepacketizedUnfold(p, n);
      DepacketizedUnfold(p + q, n);
      CutJoined(p, q, d);
      CutJoined(p, q, n);
      DepacketizedAppend(p[n..], q);
      Assoc(Join(Payloads(p[..d])), Depacketized(p[n..]), Depacketized(q));
    }
  }

  lemma DepacketizedEmpty()
    ensures Wide([]) && Depacketized([]) == []
  {
  }

  lemma AnnouncesData(p: seq<byte>)
    requires |p| >= VIDEO_PACKET_RAW_SIZE
    ensures FecDataShards(FecInfo(p)) <= AnnouncedShards(p)
  {
  }

  lemma WideJoin(p: seq<seq<byte>>, q: seq<seq<byte>>)
    requires Wide(p) && Wide(q)
    ensures Wide(p + q)
  {
  }

  /** The opened datagrams of (part of) a frame. */
  function Bodies(cipher: Option<Cipher>, ds: seq<Datagram>): (r: seq<seq<byte>>)
    ensures |r| == |ds|
  {
    seq(|ds|, x requires 0 <= x < |ds| => Opened(cipher, ds[x]))
  }

  /** The header fields of a block of this size can be read back, and announce the parity that is sent. */
  ghost predicate Decodable(size: nat, c: Config)
    requires c.blocksize > 0 && size > 0
  {
    CeilDivIs(size, c.blocksize);
    var d := CeilDiv(size, c.blocksize);
    var (parity, percentage) := ParityPlan(d, c.fecPercentage, c.minParity);
    d < 1024 && percentage < 256 && ParityShards(d, percentage) == parity
  }

  /** That is so for every block with fewer than 1024 data shards whose percentage was not raised; and for a raised one exactly when
      the raised percentage still fits its byte and the division that made it lost less than 100. */
  lemma DecodableExactly(size: nat, c: Config)
    requires c.blocksize > 0 && size > 0 && c.fecPercentage < 256
    ensures CeilDiv(size, c.blocksize) > 0
    ensures var d := CeilDiv(size, c.blocksize);
            var raised := ParityShards(d, c.fecPercentage) < c.minParity && c.fecPercentage != 0;
            Decodable(size, c) <==> d < 1024 && (raised ==> 100 * c.minParity < 256 * d && (100 * c.minParity) % d < 100)
  {
    CeilDivIs(size, c.blocksize);
    var d := CeilDiv(size, c.blocksize);
    AnnouncedParity(d, c.fecPercentage, c.minParity);
    QuotientBelow(100 * c.minParity, d, 256);
  }

  lemma QuotientBelow(a: nat, d: nat, n: nat)
    requires d > 0
    ensures a / d < n <==> a < n * d
  {
    var q := a / d;
    assert q * d <= a < q * d + d;
    if q < n {
      MulMono(q + 1, n, d);
    } else {
      MulMono(n, q, d);
    }
  }

  lemma BodiesWide(block: seq<byte>, c: Config, i: BlockInfo, counter: nat)
    requires block != [] && c.Valid() && Wide(Cut(block, c.blocksize)) && i.Valid()
    ensures Wide(Bodies(c.cipher, BlockOut(block, c, i, counter)))
  {
    hide BlockOut, Cut, Finished, Opened, ParityPlan, EncodedShards;
    forall x | 0 <= x < |BlockOut(block, c, i, counter)|
      ensures |Bodies(c.cipher, BlockOut(block, c, i, counter))[x]| >= VIDEO_PACKET_RAW_SIZE
    {
      var (_, percentage) := ParityPlan(DataShardsOf(block, c.blocksize), c.fecPercentage, c.minParity);
      OpenedShard(block, c, i, counter, x);
      FinishedFields(EncodedShards(block, c, i)[x], x, DataShardsOf(block, c.blocksize), percentage, i);
    }
  }

  lemma {:induction false} JoinLastPadded(p: seq<seq<byte>>, q: seq<seq<byte>>, z: seq<byte>)
    requires |p| == |q| > 0 && q[|q| - 1] == p[|p| - 1] + z
    requires forall x :: 0 <= x < |p| - 1 ==> q[x] == p[x]
    ensures Join(q) == Join(p) + z
  {
    if |p| == 1 {
      assert Join(p[1..]) == [] && Join(q[1..]) == [];
      Neutral(p[0]);
      Neutral(q[0]);
    } else {
      JoinLastPadded(p[1..], q[1..], z);
      Assoc(p[0], Join(p[1..]), z);
    }
  }

  lemma InfoAt(block: seq<byte>, c: Config, i: BlockInfo, counter: nat, x: nat)
    requires block != [] && c.Valid() && Wide(Cut(block, c.blocksize)) && i.Valid() && x < |BlockOut(block, c, i, counter)|
    ensures Wide(Bodies(c.cipher, BlockOut(block, c, i, counter))) && |Cut(block, c.blocksize)| > 0
    ensures var bodies, d := Bodies(c.cipher, BlockOut(block, c, i, counter)), |Cut(block, c.blocksize)|;
            |bodies[x]| == c.blocksize && FecInfo(bodies[x]) == PackFecInfo(x, d, ParityPlan(d, c.fecPercentage, c.minParity).1) % 0x1_0000_0000
  {
    hide BlockOut, Cut, Finished, Opened, EncodedShards, ParityPlan, PackFecInfo, FecInfo;
    BodiesWide(block, c, i, counter);
    BlockSize(block, c, i, counter);
    OpenedShard(block, c, i, counter, x);
    var d := DataShardsOf(block, c.blocksize);
    var (_, percentage) := ParityPlan(d, c.fecPercentage, c.minParity);
    FinishedFields(EncodedShards(block, c, i)[x], x, d, percentage, i);
  }

  /** Shard x of a block tells its own number, how many data and parity shards the block has and at what percentage, exactly when
      the block is decodable and x is below 1024. */
  lemma ToldExactly(block: seq<byte>, c: Config, i: BlockInfo, counter: nat, x: nat)
    requires block != [] && c.Valid() && Wide(Cut(block, c.blocksize)) && i.Valid() && x < |BlockOut(block, c, i, counter)|
    ensures Wide(Bodies(c.cipher, BlockOut(block, c, i, counter))) && |Cut(block, c.blocksize)| > 0
    ensures var bodies, d := Bodies(c.cipher, BlockOut(block, c, i, counter)), |Cut(block, c.blocksize)|;
            var v := FecInfo(bodies[x]);
            FecShard(v) == x && FecDataShards(v) == d && FecPercentage(v) == ParityPlan(d, c.fecPercentage, c.minParity).1
            && AnnouncedShards(bodies[x]) == |bodies|
            <==> x < 1024 && Decodable(|block|, c)
  {
    hide BlockOut, Cut, Finished, Opened, EncodedShards, ParityPlan, ParityShards, PackFecInfo, FecInfo, FecShard, FecDataShards, FecPercentage;
    InfoAt(block, c, i, counter, x);
    BlockSize(block, c, i, counter);
    var d := DataShardsOf(block, c.blocksize);
    FecInfoFields(x, d, ParityPlan(d, c.fecPercentage, c.minParity).1);
  }

  /** Where all of that fits, fecInfo is the data shard count, the shard's number and the percentage, shifted into place. */
  lemma InfoBytes(block: seq<byte>, c: Config, i: BlockInfo, counter: nat, x: nat)
    requires block != [] && c.Valid() && Wide(Cut(block, c.blocksize)) && i.Valid() && x < |BlockOut(block, c, i, counter)|
    requires x < 1024 && Decodable(|block|, c)
    ensures |Cut(block, c.blocksize)| > 0
    ensures var p, d := Opened(c.cipher, BlockOut(block, c, i, counter)[x]), |Cut(block, c.blocksize)|;
            |p| >= 32 && Little(p[28..32]) == d * 0x40_0000 + x * 0x1000 + ParityPlan(d, c.fecPercentage, c.minParity).1 * 0x10
  {
    hide BlockOut, Cut, Opened, ParityPlan, PackFecInfo, Little, FromLe32;
    InfoAt(block, c, i, counter, x);
    BlockSize(block, c, i, counter);
    var d := DataShardsOf(block, c.blocksize);
    var percentage := ParityPlan(d, c.fecPercentage, c.minParity).1;
    FecInfoSum(x, d, percentage);
    FieldsOfSum(x, d, percentage);
    Little4(Opened(c.cipher, BlockOut(block, c, i, counter)[x])[28..32]);
  }

  /** The data shards of a block, headers dropped, are its packets without headers, and the padding of the last one. */
  lemma BlockPayloads(block: seq<byte>, c: Config, i: BlockInfo, counter: nat, bodies: seq<seq<byte>>)
    requires block != [] && c.Valid() && Wide(Cut(block, c.blocksize)) && i.Valid()
    requires bodies == Bodies(c.cipher, BlockOut(block, c, i, counter)) && Wide(bodies)
    ensures |Cut(block, c.blocksize)| <= |bodies| && |block| <= Times(|Cut(block, c.blocksize)|, c.blocksize)
    ensures Join(Payloads(bodies[..|Cut(block, c.blocksize)|]))
            == Join(Payloads(Cut(block, c.blocksize))) + Zeros(Times(|Cut(block, c.blocksize)|, c.blocksize) - |block|)
  {
    hide BlockOut, Cut, Opened, Payload, Times, CeilDiv;
    var b, packets := c.blocksize, Cut(block, c.blocksize);
    BlockSize(block, c, i, counter);
    PieceSizes(block, b);
    LastPiece(block, b);
    var last := |packets| - 1;
    var got := bodies[..|packets|];
    forall x | 0 <= x < |packets|
      ensures Payload(got[x]) == Payload(packets[x]) + Zeros(b - |packets[x]|)
    {
      PayloadAt(block, c, i, counter, bodies, x);
    }
    forall x | 0 <= x < last
      ensures Payloads(got)[x] == Payloads(packets)[x]
    {
      Neutral(Payload(packets[x]));
    }
    JoinLastPadded(Payloads(packets), Payloads(got), Zeros(b - |packets[last]|));
  }

  lemma PayloadAt(block: seq<byte>, c: Config, i: BlockInfo, counter: nat, bodies: seq<seq<byte>>, x: nat)
    requires block != [] && c.Valid() && Wide(Cut(block, c.blocksize)) && i.Valid()
    requires bodies == Bodies(c.cipher, BlockOut(block, c, i, counter)) && Wide(bodies)
    requires x < |Cut(block, c.blocksize)| <= |bodies| && |Cut(block, c.blocksize)[x]| <= c.blocksize
    ensures Payload(bodies[x]) == Payload(Cut(block, c.blocksize)[x]) + Zeros(c.blocksize - |Cut(block, c.blocksize)[x]|)
  {
    hide BlockOut, Cut, Opened, Payload, StreamPacketIndex, SequenceNumber;
    DataShardCarries(block, c, i, counter, x);
  }

  lemma LastPiece(s: seq<byte>, b: nat)
    requires b > 0 && s != []
    ensures |Cut(s, b)| > 0 && |Cut(s, b)[|Cut(s, b)| - 1]| <= b
    ensures Times(|Cut(s, b)|, b) - |s| == b - |Cut(s, b)[|Cut(s, b)| - 1]|
  {
    hide Cut;
    CeilDivIs(|s|, b);
    PieceSizes(s, b);
    var last := |Cut(s, b)| - 1;
    CutAt(s, b, last);
    TimesIs(|Cut(s, b)|, b);
    TimesIs(last, b);
  }

  /** Going by the headers, a client takes the data shards out of a decodable block, and nothing else. */
  lemma BlockDepacketized(block: seq<byte>, c: Config, i: BlockInfo, counter: nat)
    requires block != [] && c.Valid() && Wide(Cut(block, c.blocksize)) && i.Valid() && Decodable(|block|, c)
    ensures Wide(Bodies(c.cipher, BlockOut(block, c, i, counter)))
    ensures var bodies, d := Bodies(c.cipher, BlockOut(block, c, i, counter)), |Cut(block, c.blocksize)|;
            d <= |bodies| && WholeBlocks(bodies) && Depacketized(bodies) == Join(Payloads(bodies[..d]))
  {
    hide BlockOut, Cut, Payloads, Join, FecInfo, FecDataShards, AnnouncedShards, Bodies, PackFecInfo, ParityPlan, Decodable;
    BlockSize(block, c, i, counter);
    ToldExactly(block, c, i, counter, 0);
    var bodies := Bodies(c.cipher, BlockOut(block, c, i, counter));
    AnnouncesData(bodies[0]);
    assert bodies[|bodies|..] == [];
    Neutral(Join(Payloads(bodies[..|Cut(block, c.blocksize)|])));
  }

  // ----- The frame -----

  ghost predicate AllDecodable(frame: seq<byte>, blocks: seq<View>, n: nat, c: Config)
    requires c.Valid() && FrameCut(frame, blocks, c.blocksize) && n <= |blocks|
  {
    forall k {:trigger blocks[k]} :: 0 <= k < n ==> BlockOfPackets(frame, blocks[k], c.blocksize) && Decodable(blocks[k].hi - blocks[k].lo, c)
  }

  function EndOf(blocks: seq<View>, n: nat): nat
    requires n <= |blocks|
  {
    if n == 0 then 0 else blocks[n - 1].hi
  }

  /** How many zeros fill up the last packet of the first `end` bytes of a frame. */
  function Fill(end: nat, b: nat): nat
    requires b > 0
  {
    CeilDivIs(end, b);
    TimesIs(CeilDiv(end, b), b);
    Times(CeilDiv(end, b), b) - end
  }

  lemma BodiesAppend(cipher: Option<Cipher>, p: seq<Datagram>, q: seq<Datagram>)
    ensures Bodies(cipher, p + q) == Bodies(cipher, p) + Bodies(cipher, q)
  {
  }

  lemma PayloadsAppend(p: seq<seq<byte>>, q: seq<seq<byte>>)
    requires Wide(p) && Wide(q)
    ensures Wide(p + q) && Payloads(p + q) == Payloads(p) + Payloads(q)
  {
    hide Payload;
    assert Payloads(p + q) == Payloads(p) + Payloads(q);
  }

  lemma EndIsNextStart(frame: seq<byte>, blocks: seq<View>, n: nat, b: nat)
    requires b > 0 && FrameCut(frame, blocks, b) && n < |blocks|
    ensures BlockOfPackets(frame, blocks[n], b)
    ensures blocks[n].hi <= |frame| && EndOf(blocks, n) == blocks[n].lo && Fill(blocks[n].lo, b) == 0
    ensures |frame[blocks[n].lo..blocks[n].hi]| == blocks[n].hi - blocks[n].lo > 0
  {
    hide Cut;
    assert BlockOfPackets(frame, blocks[n], b);
    AlignedTo(blocks[n].lo, b);
    CeilDivOfParts(blocks[n].lo, b, blocks[n].lo / b);
  }

  /** Block after block, the data shards are the packets of the frame, and zeros behind the last one. */
  lemma {:induction false} FramePayloads(frame: seq<byte>, blocks: seq<View>, n: nat, c: Config, frameIndex: nat, timestamp: nat, before: nat)
    requires c.Valid() && FrameCut(frame, blocks, c.blocksize) && n <= |blocks|
    ensures var bodies, marks := Bodies(c.cipher, FrameOut(frame, blocks, n, c, frameIndex, timestamp, before)), FrameMarks(frame, blocks, n, c);
            var end := EndOf(blocks, n);
            && |marks| == |bodies| && Wide(bodies) && Wide(Marked(bodies, marks)) && end <= |frame| && Wide(Cut(frame[..end], c.blocksize))
            && Join(Payloads(Marked(bodies, marks))) == Join(Payloads(Cut(frame[..end], c.blocksize))) + Zeros(Fill(end, c.blocksize))
  {
    hide BlockOut, Cut, Payloads, Join, Bodies, Fill, BlockOfPackets, Tiles;
    if n == 0 {
      NoFrame(frame, blocks, c, frameIndex, timestamp, before);
    } else {
      FramePayloads(frame, blocks, n - 1, c, frameIndex, timestamp, before);
      EndIsNextStart(frame, blocks, n - 1, c.blocksize);
      OneMoreBlock(frame, blocks, n - 1, c, frameIndex, timestamp, before, FrameOut(frame, blocks, n - 1, c, frameIndex, timestamp, before));
    }
  }

  lemma NoFrame(frame: seq<byte>, blocks: seq<View>, c: Config, frameIndex: nat, timestamp: nat, before: nat)
    requires c.Valid() && FrameCut(frame, blocks, c.blocksize)
    ensures var bodies, marks := Bodies(c.cipher, FrameOut(frame, blocks, 0, c, frameIndex, timestamp, before)), FrameMarks(frame, blocks, 0, c);
            && |marks| == |bodies| && Wide(bodies) && Wide(Marked(bodies, marks)) && Wide(Cut(frame[..0], c.blocksize))
            && Join(Payloads(Marked(bodies, marks))) == Join(Payloads(Cut(frame[..0], c.blocksize))) + Zeros(Fill(0, c.blocksize))
            && WholeBlocks(bodies) && Depacketized(bodies) == Join(Payloads(Marked(bodies, marks)))
  {
  }

  /** The datagrams of one more block: their bodies, and which of them are data shards. */
  lemma MoreBodies(frame: seq<byte>, blocks: seq<View>, m: nat, c: Config, frameIndex: nat, timestamp: nat, before: nat, out: seq<Datagram>)
    returns (block: seq<byte>, i: BlockInfo, counter: nat, more: seq<seq<byte>>)
    requires c.Valid() && FrameCut(frame, blocks, c.blocksize) && m < |blocks|
    requires out == FrameOut(frame, blocks, m, c, frameIndex, timestamp, before)
    ensures i.Valid() && blocks[m].lo < blocks[m].hi <= |frame| && block == frame[blocks[m].lo..blocks[m].hi] && Wide(Cut(block, c.blocksize))
    ensures AllDecodable(frame, blocks, m + 1, c) ==> Decodable(|block|, c)
    ensures var bodies, marks := Bodies(c.cipher, out), FrameMarks(frame, blocks, m, c);
            var d := |Cut(block, c.blocksize)|;
            && more == Bodies(c.cipher, BlockOut(block, c, i, counter)) && Wide(more) && d <= |more| && |marks| == |bodies|
            && Bodies(c.cipher, FrameOut(frame, blocks, m + 1, c, frameIndex, timestamp, before)) == bodies + more
            && |FrameMarks(frame, blocks, m + 1, c)| == |bodies + more|
            && Marked(bodies + more, FrameMarks(frame, blocks, m + 1, c)) == Marked(bodies, marks) + more[..d]
  {
    hide BlockOut, Cut, Bodies, FrameOut, Tiles, ParityPlan, BlockMarks, Marked, Decodable;
    var view := blocks[m];
    assert BlockOfPackets(frame, view, c.blocksize);
    block := frame[view.lo..view.hi];
    assert |block| == view.hi - view.lo;
    counter := (before + |out|) % Nonces.TWO_64;
    i := BlockInfo(before + |out|, frameIndex, timestamp, m, |blocks|);
    FrameOutStep(frame, blocks, m, c, frameIndex, timestamp, before, counter);
    more := Bodies(c.cipher, BlockOut(block, c, i, counter));
    BodiesAppend(c.cipher, out, BlockOut(block, c, i, counter));
    MarksSize(frame, blocks, m, c, frameIndex, timestamp, before);
    BodiesWide(block, c, i, counter);
    BlockSize(block, c, i, counter);
    var d := DataShardsOf(block, c.blocksize);
    var (parity, _) := ParityPlan(d, c.fecPercentage, c.minParity);
    MarkedBlock(more, d, parity);
    MarkedAppend(Bodies(c.cipher, out), more, FrameMarks(frame, blocks, m, c), BlockMarks(d, parity));
  }

  lemma OneMoreBlock(frame: seq<byte>, blocks: seq<View>, m: nat, c: Config, frameIndex: nat, timestamp: nat, before: nat, out: seq<Datagram>)
    requires c.Valid() && FrameCut(frame, blocks, c.blocksize) && m < |blocks|
    requires out == FrameOut(frame, blocks, m, c, frameIndex, timestamp, before)
    requires BlockOfPackets(frame, blocks[m], c.blocksize) && Fill(blocks[m].lo, c.blocksize) == 0
    requires |FrameMarks(frame, blocks, m, c)| == |Bodies(c.cipher, out)| && Wide(Bodies(c.cipher, out))
    requires Wide(Marked(Bodies(c.cipher, out), FrameMarks(frame, blocks, m, c))) && Wide(Cut(frame[..blocks[m].lo], c.blocksize))
    requires Join(Payloads(Marked(Bodies(c.cipher, out), FrameMarks(frame, blocks, m, c)))) == Join(Payloads(Cut(frame[..blocks[m].lo], c.blocksize))) + Zeros(0)
    ensures var bodies, marks := Bodies(c.cipher, FrameOut(frame, blocks, m + 1, c, frameIndex, timestamp, before)), FrameMarks(frame, blocks, m + 1, c);
            var end := blocks[m].hi;
            && |marks| == |bodies| && Wide(bodies) && Wide(Marked(bodies, marks)) && Wide(Cut(frame[..end], c.blocksize))
            && Join(Payloads(Marked(bodies, marks))) == Join(Payloads(Cut(frame[..end], c.blocksize))) + Zeros(Fill(end, c.blocksize))
  {
    hide BlockOut, Cut, Payloads, Join, Bodies, Fill, FrameOut, Tiles, Marked, FrameMarks;
    var b, lo, hi := c.blocksize, blocks[m].lo, blocks[m].hi;
    var block, i, counter, more := MoreBodies(frame, blocks, m, c, frameIndex, timestamp, before, out);
    BlockPayloads(block, c, i, counter, more);
    WideJoin(Bodies(c.cipher, out), more);
    CutAround(frame, lo, hi, b);
    var p, q := Cut(frame[..lo], b), Cut(block, b);
    PayloadsAppend(p, q);
    JoinAppend(Payloads(p), Payloads(q));
    var got, d := Marked(Bodies(c.cipher, out), FrameMarks(frame, blocks, m, c)), more[..|q|];
    PayloadsAppend(got, d);
    JoinAppend(Payloads(got), Payloads(d));
    FillOfBlock(lo, hi, b, |q|);
    Neutral(Join(Payloads(p)));
    Assoc(Join(Payloads(p)), Join(Payloads(q)), Zeros(Fill(hi, b)));
  }

  /** If all blocks are decodable, the headers lead to the same shards. */
  lemma {:induction false} FrameDepacketized(frame: seq<byte>, blocks: seq<View>, n: nat, c: Config, frameIndex: nat, timestamp: nat, before: nat)
    requires c.Valid() && FrameCut(frame, blocks, c.blocksize) && n <= |blocks| && AllDecodable(frame, blocks, n, c)
    ensures var bodies, marks := Bodies(c.cipher, FrameOut(frame, blocks, n, c, frameIndex, timestamp, before)), FrameMarks(frame, blocks, n, c);
            && |marks| == |bodies| && Wide(bodies) && Wide(Marked(bodies, marks)) && WholeBlocks(bodies)
            && Depacketized(bodies) == Join(Payloads(Marked(bodies, marks)))
  {
    hide BlockOut, Cut, Payloads, Join, WholeBlocks, Depacketized, Bodies, Decodable, BlockOfPackets, Tiles, FrameOut, FrameMarks, Marked;
    if n == 0 {
      NoFrame(frame, blocks, c, frameIndex, timestamp, before);
    } else {
      FrameDepacketized(frame, blocks, n - 1, c, frameIndex, timestamp, before);
      var out := FrameOut(frame, blocks, n - 1, c, frameIndex, timestamp, before);
      var block, i, counter, more := MoreBodies(frame, blocks, n - 1, c, frameIndex, timestamp, before, out);
      BlockDepacketized(block, c, i, counter);
      WideJoin(Bodies(c.cipher, out), more);
      DepacketizedAppend(Bodies(c.cipher, out), more);
      var got, d := Marked(Bodies(c.cipher, out), FrameMarks(frame, blocks, n - 1, c)), more[..|Cut(block, c.blocksize)|];
      PayloadsAppend(got, d);
      JoinAppend(Payloads(got), Payloads(d));
    }
  }

  lemma FillOfBlock(lo: nat, hi: nat, b: nat, d: nat)
    requires b > 0 && lo < hi && lo % b == 0 && d == CeilDiv(hi - lo, b)
    ensures Times(d, b) >= hi - lo && Fill(hi, b) == Times(d, b) - (hi - lo)
  {
    AlignedTo(lo, b);
    CeilDivIs(hi - lo, b);
    TimesIs(d, b);
    TimesAdd(lo / b, d, b);
    CeilDivUnique(hi, b, lo / b + d);
  }

  /** The length of the last slice: what the source puts into lastPayloadLen. */
  function LastSlice(size: nat, slice: nat): nat
    requires slice > 0
  {
    if size % slice == 0 then slice else size % slice
  }

  lemma {:induction false} PacketsWithoutGaps(packets: seq<seq<byte>>, chunks: seq<seq<byte>>)
    requires |packets| == |chunks| && forall x :: 0 <= x < |packets| ==> packets[x] == Zeros(VIDEO_PACKET_RAW_SIZE) + chunks[x]
    ensures Wide(packets) && Payloads(packets) == chunks
  {
    forall x | 0 <= x < |packets|
      ensures Payload(packets[x]) == chunks[x]
    {
      MiddlePart([], Zeros(VIDEO_PACKET_RAW_SIZE), chunks[x]);
    }
  }

  lemma LastSliceIs(size: nat, slice: nat)
    requires slice > 0 && size > 0
    ensures LastSlice(size, slice) <= slice
    ensures LastSlice(size, slice) == size - Times(CeilDiv(size, slice), slice) + slice
  {
    var n := CeilDiv(size, slice);
    CeilDivIs(size, slice);
    TimesIs(n, slice);
    if size == n * slice {
      QuotientIs(size, slice, n);
    } else {
      QuotientIs(size, slice, n - 1);
    }
  }

  lemma {:induction false} TimesSum(n: nat, a: nat, b: nat)
    ensures Times(n, a + b) == Times(n, a) + Times(n, b)
  {
    if n > 0 {
      TimesSum(n - 1, a, b);
    }
  }

  lemma TotalLength(data: seq<byte>, gap: nat, slice: nat)
    requires slice > 0 && data != []
    ensures var frame := Interleaved(data, gap, slice);
            Fill(|frame|, gap + slice) == slice - LastSlice(|data|, slice)
    ensures LastSlice(|data|, slice) <= slice
  {
    hide Interleaved, LastSlice;
    var n := CeilDiv(|data|, slice);
    LastSliceIs(|data|, slice);
    CeilDivIs(|data|, slice);
    TimesIs(n, slice);
    InterleavedLength(data, gap, slice);
    TimesSum(n, gap, slice);
    CeilDivUnique(Times(n, gap) + |data|, gap + slice, n);
  }

  /** Whole-pipeline reassembly: however a frame was split, encoded, stamped and encrypted, its data shards without their headers,
      the last one cut to the length in the frame header, are exactly frame header and payload, provided the length of the last
      slice fits the header's 16 bits; and so is what a client makes of the datagrams that knows nothing but their headers,
      if the blocks are decodable. */
  lemma FrameReassembled(header: seq<byte>, payload: seq<byte>, frame: seq<byte>, blocks: seq<View>, c: Config, frameIndex: nat, timestamp: nat, before: nat)
    requires c.Valid() && |header| == FRAME_HEADER_SIZE
    requires frame == Interleaved(header + payload, VIDEO_PACKET_RAW_SIZE, c.blocksize - VIDEO_PACKET_RAW_SIZE)
    requires LastPayloadLen(header) == LastSlice(|header + payload|, c.blocksize - VIDEO_PACKET_RAW_SIZE) % 0x1_0000
    requires FrameCut(frame, blocks, c.blocksize)
    ensures var bodies, marks := Bodies(c.cipher, FrameOut(frame, blocks, |blocks|, c, frameIndex, timestamp, before)), FrameMarks(frame, blocks, |blocks|, c);
            var slice := c.blocksize - VIDEO_PACKET_RAW_SIZE;
            && Wide(bodies) && |marks| == |bodies|
            && (DataFrame(bodies, marks, slice) == header + payload <==> LastSlice(|header + payload|, slice) < 0x1_0000)
            && (AllDecodable(frame, blocks, |blocks|, c) ==> ClientFrame(bodies, slice) == DataFrame(bodies, marks, slice))
  {
    hide FrameOut, Cut, Payloads, Join, Depacketized, Interleaved, LastSlice, Bodies, FrameMarks, Marked, CutToLength, AllDecodable, LastPayloadLen;
    FrameData(header + payload, frame, blocks, c, frameIndex, timestamp, before);
    if AllDecodable(frame, blocks, |blocks|, c) {
      FrameDepacketized(frame, blocks, |blocks|, c, frameIndex, timestamp, before);
    }
    LastSliceFits(|header + payload|, c.blocksize - VIDEO_PACKET_RAW_SIZE);
    CutsExactly(header, payload, c.blocksize - VIDEO_PACKET_RAW_SIZE, LastSlice(|header + payload|, c.blocksize - VIDEO_PACKET_RAW_SIZE));
  }

  /** The data shards of a frame are its data, and zeros to the end of the last slice. */
  lemma FrameData(data: seq<byte>, frame: seq<byte>, blocks: seq<View>, c: Config, frameIndex: nat, timestamp: nat, before: nat)
    requires c.Valid() && data != [] && frame == Interleaved(data, VIDEO_PACKET_RAW_SIZE, c.blocksize - VIDEO_PACKET_RAW_SIZE)
    requires FrameCut(frame, blocks, c.blocksize)
    ensures var bodies, marks := Bodies(c.cipher, FrameOut(frame, blocks, |blocks|, c, frameIndex, timestamp, before)), FrameMarks(frame, blocks, |blocks|, c);
            var slice := c.blocksize - VIDEO_PACKET_RAW_SIZE;
            && |marks| == |bodies| && Wide(bodies) && Wide(Marked(bodies, marks)) && LastSlice(|data|, slice) <= slice
            && Join(Payloads(Marked(bodies, marks))) == data + Zeros(slice - LastSlice(|data|, slice))
  {
    hide FrameOut, Cut, Payloads, Join, Fill, Interleaved, LastSlice, Bodies, FrameMarks, Marked, BlockOfPackets, FrameCut, Wide;
    DataPayloads(data, frame, c.blocksize);
    LastBlockEnds(frame, blocks, c.blocksize);
    FramePayloads(frame, blocks, |blocks|, c, frameIndex, timestamp, before);
    TotalLength(data, VIDEO_PACKET_RAW_SIZE, c.blocksize - VIDEO_PACKET_RAW_SIZE);
  }

  lemma LastBlockEnds(frame: seq<byte>, blocks: seq<View>, b: nat)
    requires b > 0 && FrameCut(frame, blocks, b)
    ensures EndOf(blocks, |blocks|) == |frame| && frame[..|frame|] == frame
  {
    hide BlockOfPackets;
  }

  lemma DataPayloads(data: seq<byte>, frame: seq<byte>, b: nat)
    requires VIDEO_PACKET_RAW_SIZE < b && frame == Interleaved(data, VIDEO_PACKET_RAW_SIZE, b - VIDEO_PACKET_RAW_SIZE)
    ensures Wide(Cut(frame, b)) && Join(Payloads(Cut(frame, b))) == data
  {
    hide Cut, Payloads, Join, Interleaved;
    var slice := b - VIDEO_PACKET_RAW_SIZE;
    CutInterleaved(data, VIDEO_PACKET_RAW_SIZE, slice);
    PacketsWithoutGaps(Cut(frame, b), Cut(data, slice));
    JoinCut(data, slice);
  }

  lemma LastSliceFits(size: nat, slice: nat)
    requires slice > 0
    ensures LastSlice(size, slice) <= slice && (size > 0 ==> LastSlice(size, slice) <= size)
  {
    LastSliceComputed(size, slice, LastSlice(size, slice));
  }

  lemma CutsExactly(header: seq<byte>, payload: seq<byte>, slice: nat, last: nat)
    requires |header| == FRAME_HEADER_SIZE && last <= slice && last <= |header + payload| && LastPayloadLen(header) == last % 0x1_0000
    ensures CutToLength(header + payload + Zeros(slice - last), slice) == header + payload <==> last < 0x1_0000
  {
    var data, total := header + payload, header + payload + Zeros(slice - last);
    assert total[..|data|] == data;
    assert LastPayloadLen(total) == LastPayloadLen(header);
  }

  /** A single slice of 65536 bytes is announced as one of none, and nothing of the frame is left. */
  lemma LongSliceLost(header: seq<byte>, payload: seq<byte>, frame: seq<byte>, blocks: seq<View>, c: Config, frameIndex: nat, timestamp: nat, before: nat)
    requires c.Valid() && |header| == FRAME_HEADER_SIZE && |header + payload| == 0x1_0000 <= c.blocksize - VIDEO_PACKET_RAW_SIZE
    requires frame == Interleaved(header + payload, VIDEO_PACKET_RAW_SIZE, c.blocksize - VIDEO_PACKET_RAW_SIZE)
    requires LastPayloadLen(header) == LastSlice(|header + payload|, c.blocksize - VIDEO_PACKET_RAW_SIZE) % 0x1_0000
    requires FrameCut(frame, blocks, c.blocksize)
    ensures var bodies, marks := Bodies(c.cipher, FrameOut(frame, blocks, |blocks|, c, frameIndex, timestamp, before)), FrameMarks(frame, blocks, |blocks|, c);
            Wide(bodies) && |marks| == |bodies| && DataFrame(bodies, marks, c.blocksize - VIDEO_PACKET_RAW_SIZE) == []
  {
    hide FrameOut, Cut, Payloads, Join, Interleaved, Bodies, FrameMarks, Marked, FrameCut, Zeros, LastPayloadLen;
    var data, slice := header + payload, c.blocksize - VIDEO_PACKET_RAW_SIZE;
    OneShard(|data|, slice);
    FrameData(data, frame, blocks, c, frameIndex, timestamp, before);
    LengthOfHeader(header, payload, Zeros(slice - |data|));
  }

  lemma LengthOfHeader(header: seq<byte>, payload: seq<byte>, z: seq<byte>)
    requires |header| == FRAME_HEADER_SIZE
    ensures LastPayloadLen(header + payload + z) == LastPayloadLen(header)
  {
  }

  /** With FEC at 20 percent and a minimum of three parity shards, a frame of one packet goes out at 300 percent, which does not fit
      its field: a client that goes by the headers takes a parity shard for a second slice of data. */
  lemma RaisedMisleads(header: seq<byte>, payload: seq<byte>, frame: seq<byte>, blocks: seq<View>, c: Config, frameIndex: nat, timestamp: nat, before: nat)
    requires c.Valid() && |header| == FRAME_HEADER_SIZE && |header + payload| <= c.blocksize - VIDEO_PACKET_RAW_SIZE
    requires frame == Interleaved(header + payload, VIDEO_PACKET_RAW_SIZE, c.blocksize - VIDEO_PACKET_RAW_SIZE)
    requires LastPayloadLen(header) == |header + payload| && c.fecPercentage == 20 && c.minParity == 3
    requires FrameCut(frame, blocks, c.blocksize) && |blocks| == 1
    ensures var bodies, slice := Bodies(c.cipher, FrameOut(frame, blocks, 1, c, frameIndex, timestamp, before)), c.blocksize - VIDEO_PACKET_RAW_SIZE;
            && !AllDecodable(frame, blocks, 1, c) && |bodies| == 4 && Wide(bodies)
            && FecShard(FecInfo(bodies[0])) == 1 && AnnouncedShards(bodies[0]) == 2
            && |ClientFrame(bodies, slice)| == |header + payload| + slice
  {
    hide FrameOut, FrameCut, Interleaved, Bodies, Depacketized, FecInfo, FecShard, AnnouncedShards, AllDecodable, Payload, CutToLength;
    var slice := c.blocksize - VIDEO_PACKET_RAW_SIZE;
    var bodies := OnePacketFrame(header + payload, frame, blocks, c, frameIndex, timestamp, before);
    SpiltShard();
    TwoSlices(bodies);
    CutTooLong(header, payload, slice, Payload(bodies[2]));
  }

  lemma SpiltShard()
    ensures FecShard(0x40_12C0) == 1
  {
  }

  lemma CutTooLong(header: seq<byte>, payload: seq<byte>, slice: nat, more: seq<byte>)
    requires |header| == FRAME_HEADER_SIZE && LastPayloadLen(header) == |header + payload| <= slice && |more| == slice
    ensures |CutToLength(header + payload + Zeros(slice - |header + payload|) + more, slice)| == |header + payload| + slice
  {
    var total := header + payload + Zeros(slice - |header + payload|) + more;
    assert LastPayloadLen(total) == LastPayloadLen(header);
  }

  /** The four datagrams of such a frame. */
  lemma OnePacketFrame(data: seq<byte>, frame: seq<byte>, blocks: seq<View>, c: Config, frameIndex: nat, timestamp: nat, before: nat)
    returns (bodies: seq<seq<byte>>)
    requires c.Valid() && 0 < |data| <= c.blocksize - VIDEO_PACKET_RAW_SIZE && c.fecPercentage == 20 && c.minParity == 3
    requires frame == Interleaved(data, VIDEO_PACKET_RAW_SIZE, c.blocksize - VIDEO_PACKET_RAW_SIZE)
    requires FrameCut(frame, blocks, c.blocksize) && |blocks| == 1
    ensures bodies == Bodies(c.cipher, FrameOut(frame, blocks, 1, c, frameIndex, timestamp, before)) && !AllDecodable(frame, blocks, 1, c)
    ensures |bodies| == 4 && Wide(bodies) && FecInfo(bodies[0]) == 0x40_12C0 && FecInfo(bodies[2]) == 0x40_32C0
    ensures |Payload(bodies[2])| == c.blocksize - VIDEO_PACKET_RAW_SIZE
    ensures Payload(bodies[0]) == data + Zeros(c.blocksize - VIDEO_PACKET_RAW_SIZE - |data|)
  {
    hide BlockOut, Cut, Interleaved, Payloads, Join, FecInfo, PackFecInfo, ParityPlan, FrameMarks, Marked, Decodable, Bodies;
    OnePacketSize(data, frame, c.blocksize);
    assert BlockOfPackets(frame, blocks[0], c.blocksize) && blocks[0].lo == 0 && blocks[0].hi == |frame|;
    var block, i, counter;
    block, i, counter, bodies := MoreBodies(frame, blocks, 0, c, frameIndex, timestamp, before, []);
    assert block == frame;
    NoneMarked(frame, blocks, c);
    FrameData(data, frame, blocks, c, frameIndex, timestamp, before);
    OnePayload(bodies);
    OnePacketBodies(block, c, i, counter, bodies);
    NotDecodable(block, c);
  }

  lemma OnePacketBodies(block: seq<byte>, c: Config, i: BlockInfo, counter: nat, bodies: seq<seq<byte>>)
    requires 0 < |block| <= c.blocksize && c.Valid() && Wide(Cut(block, c.blocksize)) && i.Valid()
    requires c.fecPercentage == 20 && c.minParity == 3 && bodies == Bodies(c.cipher, BlockOut(block, c, i, counter)) && Wide(bodies)
    ensures |bodies| == 4 && FecInfo(bodies[0]) == 0x40_12C0 && FecInfo(bodies[2]) == 0x40_32C0 && |bodies[2]| == c.blocksize
    ensures |Cut(block, c.blocksize)| == 1
  {
    hide BlockOut, Cut, Bodies, FecInfo, PackFecInfo, ParityPlan, FecShard, FecDataShards, FecPercentage, ParityShards;
    BlockSize(block, c, i, counter);
    OnePacketPlan();
    InfoAt(block, c, i, counter, 0);
    InfoAt(block, c, i, counter, 2);
  }

  lemma OnePacketSize(data: seq<byte>, frame: seq<byte>, b: nat)
    requires VIDEO_PACKET_RAW_SIZE < b && 0 < |data| <= b - VIDEO_PACKET_RAW_SIZE
    requires frame == Interleaved(data, VIDEO_PACKET_RAW_SIZE, b - VIDEO_PACKET_RAW_SIZE)
    ensures 0 < |frame| <= b && CeilDiv(|data|, b - VIDEO_PACKET_RAW_SIZE) == 1
    ensures LastSlice(|data|, b - VIDEO_PACKET_RAW_SIZE) == |data|
  {
    hide Interleaved;
    InterleavedLength(data, VIDEO_PACKET_RAW_SIZE, b - VIDEO_PACKET_RAW_SIZE);
    OneShard(|data|, b - VIDEO_PACKET_RAW_SIZE);
  }

  lemma NoneMarked(frame: seq<byte>, blocks: seq<View>, c: Config)
    requires c.Valid() && FrameCut(frame, blocks, c.blocksize)
    ensures Bodies(c.cipher, []) == [] && FrameMarks(frame, blocks, 0, c) == [] && Marked<seq<byte>>([], []) == []
    ensures forall s: seq<seq<byte>> :: [] + s == s
  {
  }

  lemma NotDecodable(block: seq<byte>, c: Config)
    requires c.blocksize > 0 && 0 < |block| <= c.blocksize && c.fecPercentage == 20 && c.minParity == 3
    ensures CeilDiv(|block|, c.blocksize) == 1 && !Decodable(|block|, c)
  {
  }

  lemma OneShard(size: nat, slice: nat)
    requires 0 < size <= slice
    ensures CeilDiv(size, slice) == 1 && LastSlice(size, slice) == size && Times(1, VIDEO_PACKET_RAW_SIZE) == VIDEO_PACKET_RAW_SIZE
  {
  }

  lemma OnePacketPlan()
    ensures ParityPlan(1, 20, 3) == (3, 300) && ParityShards(1, 44) == 1
    ensures PackFecInfo(0, 1, 300) == 0x40_12C0 && PackFecInfo(2, 1, 300) == 0x40_32C0
    ensures FecShard(0x40_12C0) == 1 && FecDataShards(0x40_12C0) == 1 && FecPercentage(0x40_12C0) == 44
    ensures FecDataShards(0x40_32C0) == 1 && FecPercentage(0x40_32C0) == 44
  {
    hide BitOr, Pow2;
    OnePowers();
    OrIsSum(1, 0x2000, 22);
    OrIsSum(1, 4800, 22);
    OrIsSum(0x201, 4800, 13);
    OrNothing();
  }

  lemma OnePowers()
    ensures Pow2(22) == 0x40_0000 && Pow2(13) == 0x2000
  {
  }

  lemma OrNothing()
    ensures forall b: nat :: BitOr(0, b) == b
  {
  }

  lemma TwoSlices(bodies: seq<seq<byte>>)
    requires Wide(bodies) && |bodies| == 4 && FecInfo(bodies[0]) == 0x40_12C0 && FecInfo(bodies[2]) == 0x40_32C0
    ensures AnnouncedShards(bodies[0]) == 2
    ensures Depacketized(bodies) == Payload(bodies[0]) + Payload(bodies[2])
  {
    hide Payload, FecInfo, FecDataShards, FecPercentage, ParityShards;
    OnePacketPlan();
    DepacketizedUnfold(bodies, 2);
    DepacketizedUnfold(bodies[2..], 2);
    DepacketizedEmpty();
    OnePayload(bodies);
    OnePayload(bodies[2..]);
    assert bodies[2..][2..] == [];
  }

  lemma OnePayload(bodies: seq<seq<byte>>)
    requires Wide(bodies) && bodies != []
    ensures Join(Payloads(bodies[..1])) == Payload(bodies[0])
  {
    var p := Payloads(bodies[..1]);
    assert p[1..] == [];
    Neutral(p[0]);
  }

  lemma LastSliceComputed(size: nat, slice: nat, r: nat)
    requires slice > 0 && r == (if size % slice == 0 then slice else size % slice)
    ensures r == LastSlice(size, slice) <= slice
  {
  }

  lemma HeadersReceived(frame: seq<byte>, blocks: seq<View>, c: Config, frameIndex: nat, timestamp: nat, before: seq<Datagram>, after: seq<Datagram>)
    requires c.Valid() && FrameCut(frame, blocks, c.blocksize)
    requires after == before + FrameOut(frame, blocks, |blocks|, c, frameIndex, timestamp, |before|)
    ensures forall k: nat, x: nat :: ShardOf(frame, blocks, c, k, x) ==>
      ShardSays(after[|before|..], frame, blocks, c, frameIndex, timestamp, |before|, k, x)
  {
    hide FrameOut, FrameMarks, FrameCut, ShardSays;
    assert after[|before|..] == FrameOut(frame, blocks, |blocks|, c, frameIndex, timestamp, |before|);
    forall k: nat, x: nat | ShardOf(frame, blocks, c, k, x)
      ensures ShardSays(after[|before|..], frame, blocks, c, frameIndex, timestamp, |before|, k, x)
    {
      FrameHeaders(frame, blocks, |blocks|, c, frameIndex, timestamp, |before|, k, x);
    }
  }

  /** The same for what has been sent since `before`. */
  lemma FrameReceived(header: seq<byte>, payload: seq<byte>, frame: seq<byte>, blocks: seq<View>, c: Config, frameIndex: nat, timestamp: nat,
                      before: seq<Datagram>, after: seq<Datagram>, marks: seq<bool>, more: seq<bool>)
    requires c.Valid() && |header| == FRAME_HEADER_SIZE && FrameCut(frame, blocks, c.blocksize)
    requires frame == Interleaved(header + payload, VIDEO_PACKET_RAW_SIZE, c.blocksize - VIDEO_PACKET_RAW_SIZE)
    requires LastPayloadLen(header) == LastSlice(|header + payload|, c.blocksize - VIDEO_PACKET_RAW_SIZE) % 0x1_0000
    requires after == before + FrameOut(frame, blocks, |blocks|, c, frameIndex, timestamp, |before|)
    requires more == marks + FrameMarks(frame, blocks, |blocks|, c)
    ensures more[|marks|..] == FrameMarks(frame, blocks, |blocks|, c)
    ensures var bodies, slice := Bodies(c.cipher, after[|before|..]), c.blocksize - VIDEO_PACKET_RAW_SIZE;
            && Wide(bodies) && |more[|marks|..]| == |bodies|
            && (DataFrame(bodies, more[|marks|..], slice) == header + payload <==> LastSlice(|header + payload|, slice) < 0x1_0000)
            && (AllDecodable(frame, blocks, |blocks|, c) ==> ClientFrame(bodies, slice) == DataFrame(bodies, more[|marks|..], slice))
  {
    hide FrameOut, FrameMarks, Interleaved, ClientFrame, DataFrame, LastSlice, LastPayloadLen, AllDecodable, FrameCut, Bodies;
    assert after[|before|..] == FrameOut(frame, blocks, |blocks|, c, frameIndex, timestamp, |before|);
    assert more[|marks|..] == FrameMarks(frame, blocks, |blocks|, c);
    FrameReassembled(header, payload, frame, blocks, c, frameIndex, timestamp, |before|);
  }

  /** A session whose datagrams are numbered from 0 stays so when a frame is appended. */
  lemma SessionNumbered(sent: seq<Datagram>, marks: seq<bool>, frame: seq<byte>, blocks: seq<View>, c: Config, frameIndex: nat, timestamp: nat)
    requires c.Valid() && FrameCut(frame, blocks, c.blocksize) && |marks| == |sent|
    requires forall k :: 0 <= k < |sent| ==> Numbered(c.cipher, c.blocksize, sent[k], k, marks[k])
    ensures var out, more := FrameOut(frame, blocks, |blocks|, c, frameIndex, timestamp, |sent|), FrameMarks(frame, blocks, |blocks|, c);
            |more| == |out| && forall k :: 0 <= k < |sent + out| ==> Numbered(c.cipher, c.blocksize, (sent + out)[k], k, (marks + more)[k])
  {
    hide Numbered, FrameOut, FrameMarks;
    var out := FrameOut(frame, blocks, |blocks|, c, frameIndex, timestamp, |sent|);
    MarksSize(frame, blocks, |blocks|, c, frameIndex, timestamp, |sent|);
    forall k | |sent| <= k < |sent + out|
      ensures Numbered(c.cipher, c.blocksize, (sent + out)[k], k, (marks + FrameMarks(frame, blocks, |blocks|, c))[k])
    {
      FrameNumbered(frame, blocks, |blocks|, c, frameIndex, timestamp, |sent|, k - |sent|);
    }
  }
}
