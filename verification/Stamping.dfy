/** Writing the packet headers of one FEC block, in place, before and after it is encoded. */
module Stamping {
  import opened Bytes
  import opened Cutting
  import opened FecEncode
  import opened FecSplit
  import opened PacketHeaders

  /** Every packet has room for its header. */
  ghost predicate Wide(packets: seq<seq<byte>>) {
    forall x :: 0 <= x < |packets| ==> |packets[x]| >= VIDEO_PACKET_RAW_SIZE
  }

  /** What the headers of one block say. */
  datatype BlockInfo = BlockInfo(lowseq: nat, frameIndex: nat, timestamp: nat, blockIndex: nat, fecBlocksNeeded: nat) {
    ghost predicate Valid() {
      blockIndex < fecBlocksNeeded <= MAX_FEC_BLOCKS
    }

    function MultiFecBlocks(): byte
      requires Valid()
    {
      // the two shifted fields have no bits in common
      blockIndex * 0x10 + (fecBlocksNeeded - 1) * 0x40
    }
  }

  function PacketFlags(x: nat, packets: nat): byte {
    FLAG_CONTAINS_PIC_DATA + (if x == 0 then FLAG_SOF else 0) + (if x + 1 == packets then FLAG_EOF else 0)
  }

  function Stamped(packets: seq<seq<byte>>, x: nat, i: BlockInfo): seq<byte>
    requires Wide(packets) && x < |packets| && i.Valid()
  {
    StampPacket(packets[x], i.lowseq + x, i.frameIndex, PacketFlags(x, |packets|), i.MultiFecBlocks())
  }

  function StampedUpTo(packets: seq<seq<byte>>, n: nat, i: BlockInfo): (r: seq<seq<byte>>)
    requires Wide(packets) && i.Valid()
    ensures |r| == |packets|
  {
    seq(|packets|, x requires 0 <= x < |packets| => if x < n then Stamped(packets, x, i) else packets[x])
  }

  /** Writing into packet x of the block changes that packet alone, and nothing of the frame outside the block. */
  method PokePacket(payload: array<byte>, view: View, b: nat, x: nat, off: nat, src: seq<byte>, ghost packets: seq<seq<byte>>, ghost p: seq<byte>)
    requires view.lo <= view.hi <= payload.Length && b > 0 && x < |packets| && off + |src| <= |p|
    requires Cut(payload[view.lo..view.hi], b) == packets[x := p]
    modifies payload
    ensures Cut(payload[view.lo..view.hi], b) == packets[x := Overwrite(p, off, src)]
    ensures payload[..view.lo] == old(payload[..view.lo]) && payload[view.hi..] == old(payload[view.hi..])
  {
    hide Cut, Overwrite;
    ghost var frame, block := payload[..], payload[view.lo..view.hi];
    assert Cut(block, b)[x] == p;
    CutOverwrite(block, b, x, off, src);
    OverwriteWithin(frame, view.lo, view.hi, Times(x, b) + off, src);
    CopyTo(payload, view.lo + (Times(x, b) + off), src);
  }

  method StampOnePacket(payload: array<byte>, view: View, b: nat, x: nat, packetCount: nat, i: BlockInfo,
                        ghost packets: seq<seq<byte>>, ghost current: seq<seq<byte>>)
    requires view.lo <= view.hi <= payload.Length && b > 0 && x < |packets| == packetCount == |current| && Wide(packets) && i.Valid()
    requires Cut(payload[view.lo..view.hi], b) == current && current[x] == packets[x]
    modifies payload
    ensures Cut(payload[view.lo..view.hi], b) == current[x := Stamped(packets, x, i)]
    ensures payload[..view.lo] == old(payload[..view.lo]) && payload[view.hi..] == old(payload[view.hi..])
  {
    hide Cut, Overwrite, Le32;
    ghost var p := packets[x];
    assert current[x := p] == current;
    PokePacket(payload, view, b, x, AT_FRAME_INDEX, Le32(i.frameIndex), current, p);
    p := Overwrite(p, AT_FRAME_INDEX, Le32(i.frameIndex));
    PokePacket(payload, view, b, x, AT_STREAM_PACKET_INDEX, Le32((i.lowseq + x) * 256), current, p);
    p := Overwrite(p, AT_STREAM_PACKET_INDEX, Le32((i.lowseq + x) * 256));

    PokePacket(payload, view, b, x, AT_MULTI_FEC_FLAGS, [0x10], current, p);
    p := Overwrite(p, AT_MULTI_FEC_FLAGS, [0x10]);
    PokePacket(payload, view, b, x, AT_MULTI_FEC_BLOCKS, [i.MultiFecBlocks()], current, p);
    p := Overwrite(p, AT_MULTI_FEC_BLOCKS, [i.MultiFecBlocks()]);

    var flags := FLAG_CONTAINS_PIC_DATA;
    if x == 0 {
      flags := flags + FLAG_SOF;
    }
    if x == packetCount - 1 {
      flags := flags + FLAG_EOF;
    }
    PokePacket(payload, view, b, x, AT_FLAGS, [flags], current, p);
  }

  /** The first header loop over a block: every packet of it is stamped. */
  method StampPackets(payload: array<byte>, view: View, b: nat, i: BlockInfo)
    requires view.lo <= view.hi <= payload.Length && b > 0 && i.Valid()
    requires Wide(Cut(payload[view.lo..view.hi], b))
    modifies payload
    ensures var packets := old(Cut(payload[view.lo..view.hi], b));
            Cut(payload[view.lo..view.hi], b) == StampedUpTo(packets, |packets|, i)
    ensures payload[..view.lo] == old(payload[..view.lo]) && payload[view.hi..] == old(payload[view.hi..])
  {
    hide Cut, Stamped;
    ghost var packets := Cut(payload[view.lo..view.hi], b);
    CeilDivComputed(view.hi - view.lo, b);
    var packetCount := ((view.hi - view.lo) + (b - 1)) / b;
    assert StampedUpTo(packets, 0, i) == packets;
    for x: nat := 0 to packetCount
      invariant Cut(payload[view.lo..view.hi], b) == StampedUpTo(packets, x, i)
      invariant payload[..view.lo] == old(payload[..view.lo]) && payload[view.hi..] == old(payload[view.hi..])
    {
      StampOnePacket(payload, view, b, x, packetCount, i, packets, StampedUpTo(packets, x, i));
      assert StampedUpTo(packets, x, i)[x := Stamped(packets, x, i)] == StampedUpTo(packets, x + 1, i);
    }
  }

  /** Shard x once its FEC header is written. */
  function Finished(shard: seq<byte>, x: nat, dataShards: nat, percentage: nat, i: BlockInfo): seq<byte>
    requires |shard| >= VIDEO_PACKET_RAW_SIZE && i.Valid()
  {
    StampShard(shard, i.lowseq + x, i.timestamp, i.frameIndex, PackFecInfo(x, dataShards, percentage), i.MultiFecBlocks())
  }

  method PokeShard(f: Fec, x: nat, off: nat, src: seq<byte>, ghost shards: seq<seq<byte>>, ghost p: seq<byte>)
    requires f.Valid() && x < f.nrShards && off + |src| <= f.blocksize
    requires x < |shards| && f.Shards() == shards[x := p]
    modifies f.payload, f.shards
    ensures |p| == f.blocksize && f.Shards() == shards[x := Overwrite(p, off, src)]
    ensures f.payload[..f.inPlace.lo] == old(f.payload[..f.inPlace.lo])
    ensures f.payload[f.inPlace.hi..] == old(f.payload[f.inPlace.hi..])
  {
    hide Cut, Overwrite;
    Poke(f, x, off, src);
  }

  /** The second header loop, for one shard, through its pointer. */
  method FinishShard(f: Fec, x: nat, i: BlockInfo, ghost shards: seq<seq<byte>>)
    requires f.Valid() && x < f.nrShards && f.blocksize >= VIDEO_PACKET_RAW_SIZE && i.Valid()
    requires f.Shards() == shards && |shards| == f.nrShards && |shards[x]| == f.blocksize
    modifies f.payload, f.shards
    ensures f.Shards() == shards[x := Finished(shards[x], x, f.dataShards, f.percentage, i)]
    ensures f.payload[..f.inPlace.lo] == old(f.payload[..f.inPlace.lo])
    ensures f.payload[f.inPlace.hi..] == old(f.payload[f.inPlace.hi..])
  {
    hide Cut, Overwrite, Le32, Be32, Be16, PackFecInfo;
    ghost var p := shards[x];
    assert shards[x := p] == shards;
    var fecInfo := PackFecInfo(x, f.dataShards, f.percentage);
    PokeShard(f, x, AT_FEC_INFO, Le32(fecInfo), shards, p);
    p := Overwrite(p, AT_FEC_INFO, Le32(fecInfo));
    PokeShard(f, x, AT_RTP_HEADER, [0x80 + FLAG_EXTENSION], shards, p);
    p := Overwrite(p, AT_RTP_HEADER, [0x80 + FLAG_EXTENSION]);
    PokeShard(f, x, AT_SEQUENCE_NUMBER, Be16(i.lowseq + x), shards, p);
    p := Overwrite(p, AT_SEQUENCE_NUMBER, Be16(i.lowseq + x));
    PokeShard(f, x, AT_TIMESTAMP, Be32(i.timestamp), shards, p);
    p := Overwrite(p, AT_TIMESTAMP, Be32(i.timestamp));
    PokeShard(f, x, AT_MULTI_FEC_BLOCKS, [i.MultiFecBlocks()], shards, p);
    p := Overwrite(p, AT_MULTI_FEC_BLOCKS, [i.MultiFecBlocks()]);
    PokeShard(f, x, AT_FRAME_INDEX, Le32(i.frameIndex), shards, p);
  }
}
