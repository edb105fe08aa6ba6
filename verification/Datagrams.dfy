/** What goes out on the network for one block of a frame: shards, encryption and datagrams. */
module Datagrams {
  import opened Bytes
  import opened Cutting
  import opened FecEncode
  import opened FecSplit
  import opened PacketGaps
  import opened PacketHeaders
  import opened Stamping
  import opened Wrappers
  import Nonces

  /** video_packet_enc_prefix_t, sent in front of an encrypted shard. */
  datatype EncPrefix = EncPrefix(iv: seq<byte>, frameNumber: nat, tag: seq<byte>)

  /** One packet on the wire. */
  datatype Datagram = Datagram(prefix: Option<EncPrefix>, body: seq<byte>)

  /** AES-GCM under the session key: encrypting yields a tag and a body, and decrypting undoes it. */
  datatype Cipher = Cipher(
    encrypt: (seq<byte>, seq<byte>) -> (seq<byte>, seq<byte>),
    decrypt: (seq<byte>, seq<byte>, seq<byte>) -> seq<byte>)
  {
    ghost predicate Sound() {
      forall iv: seq<byte>, plain: seq<byte> ::
        var (tag, body) := encrypt(iv, plain);
        |body| == |plain| && decrypt(iv, tag, body) == plain
    }
  }

  ghost predicate SoundIfAny(cipher: Option<Cipher>) {
    cipher.Some? ==> cipher.value.Sound()
  }

  /** A finished shard as it goes out under IV counter value `counter`. */
  function Sealed(cipher: Option<Cipher>, shard: seq<byte>, counter: nat, frameIndex: nat): Datagram {
    match cipher
    case None => Datagram(None, shard)
    case Some(c) =>
      var iv := Nonces.VideoIv(counter);
      var (tag, body) := c.encrypt(iv, shard);
      Datagram(Some(EncPrefix(iv, frameIndex, tag)), body)
  }

  /** What the receiver makes of a datagram. */
  function Opened(cipher: Option<Cipher>, d: Datagram): seq<byte> {
    if cipher.Some? && d.prefix.Some? then cipher.value.decrypt(d.prefix.value.iv, d.prefix.value.tag, d.body) else d.body
  }

  lemma OpenSealed(cipher: Option<Cipher>, shard: seq<byte>, counter: nat, frameIndex: nat)
    requires SoundIfAny(cipher)
    ensures var d := Sealed(cipher, shard, counter, frameIndex);
            |d.body| == |shard| && Opened(cipher, d) == shard
  {
  }

  /** The datagrams of one encoded block, in order. */
  function BlockDatagrams(shards: seq<seq<byte>>, dataShards: nat, percentage: nat, i: BlockInfo, cipher: Option<Cipher>, counter: nat): (ds: seq<Datagram>)
    requires Wide(shards) && i.Valid()
    ensures |ds| == |shards|
  {
    seq(|shards|, x requires 0 <= x < |shards| =>
      Sealed(cipher, Finished(shards[x], x, dataShards, percentage, i), (counter + x) % Nonces.TWO_64, i.frameIndex))
  }

  /** The shards in memory once the first x of them are as they go out. */
  function SentBodies(shards: seq<seq<byte>>, ds: seq<Datagram>, x: nat): (r: seq<seq<byte>>)
    requires |ds| == |shards|
    ensures |r| == |shards|
  {
    seq(|shards|, y requires 0 <= y < |shards| => if y < x then ds[y].body else shards[y])
  }

  function Prefixes(ds: seq<Datagram>, x: nat): (r: seq<Option<EncPrefix>>)
    requires x <= |ds|
    ensures |r| == x
  {
    seq(x, y requires 0 <= y < x => ds[y].prefix)
  }

  /** Shards offset..offset+count with their prefixes. */
  function Framed(prefixes: seq<Option<EncPrefix>>, bodies: seq<seq<byte>>, offset: nat, count: nat): (ds: seq<Datagram>)
    requires offset + count <= |prefixes| && offset + count <= |bodies|
    ensures |ds| == count
  {
    seq(count, y requires 0 <= y < count => Datagram(prefixes[offset + y], bodies[offset + y]))
  }

  lemma FramedStep(prefixes: seq<Option<EncPrefix>>, bodies: seq<seq<byte>>, offset: nat, count: nat)
    requires offset + count < |prefixes| && offset + count < |bodies|
    ensures Framed(prefixes, bodies, offset, count + 1)
            == Framed(prefixes, bodies, offset, count) + [Datagram(prefixes[offset + count], bodies[offset + count])]
  {
  }

  /** What a block is sent with: the FEC percentage is 0 when FEC is off for the frame. */
  datatype Config = Config(blocksize: nat, fecPercentage: nat, minParity: nat, rs: ReedSolomon, cipher: Option<Cipher>) {
    ghost predicate Valid() {
      blocksize > VIDEO_PACKET_RAW_SIZE && WellSized(rs) && SoundIfAny(cipher)
    }
  }

  /** The bytes of a block once its packets are stamped. */
  function StampedBlock(block: seq<byte>, b: nat, i: BlockInfo): (s: seq<byte>)
    requires b > 0 && Wide(Cut(block, b)) && i.Valid()
  {
    Join(StampedUpTo(Cut(block, b), |Cut(block, b)|, i))
  }

  function DataShardsOf(block: seq<byte>, b: nat): nat
    requires b > 0
  {
    CeilDiv(|block|, b)
  }

  function EncodedShards(block: seq<byte>, c: Config, i: BlockInfo): (s: seq<seq<byte>>)
    requires block != [] && c.Valid() && Wide(Cut(block, c.blocksize)) && i.Valid()
  {
    CeilDivIs(|block|, c.blocksize);
    var data := Padded(StampedBlock(block, c.blocksize, i), c.blocksize);
    var (parity, _) := ParityPlan(DataShardsOf(block, c.blocksize), c.fecPercentage, c.minParity);
    Cut(data + ParityBytes(c.rs, data, c.blocksize, parity), c.blocksize)
  }

  /** The datagrams of a block, from the bytes of the packetized frame that it covers. */
  function BlockOut(block: seq<byte>, c: Config, i: BlockInfo, counter: nat): seq<Datagram>
    requires block != [] && c.Valid() && Wide(Cut(block, c.blocksize)) && i.Valid()
  {
    CeilDivIs(|block|, c.blocksize);
    var (_, percentage) := ParityPlan(DataShardsOf(block, c.blocksize), c.fecPercentage, c.minParity);
    EncodedWide(block, c, i);
    BlockDatagrams(EncodedShards(block, c, i), DataShardsOf(block, c.blocksize), percentage, i, c.cipher, counter)
  }

  lemma BlockOutIs(block: seq<byte>, c: Config, i: BlockInfo, counter: nat)
    requires block != [] && c.Valid() && Wide(Cut(block, c.blocksize)) && i.Valid()
    ensures DataShardsOf(block, c.blocksize) > 0 && Wide(EncodedShards(block, c, i))
    ensures var (_, percentage) := ParityPlan(DataShardsOf(block, c.blocksize), c.fecPercentage, c.minParity);
            var shards := EncodedShards(block, c, i);
            && BlockOut(block, c, i, counter) == BlockDatagrams(shards, DataShardsOf(block, c.blocksize), percentage, i, c.cipher, counter)
            && |BlockOut(block, c, i, counter)| == |shards|
  {
    hide EncodedShards, Cut, ParityPlan;
    CeilDivIs(|block|, c.blocksize);
    EncodedWide(block, c, i);
  }

  /** The packetized frame is cut into blocks of whole packets, each with room for its header. */
  ghost predicate FrameCut(frame: seq<byte>, blocks: seq<View>, b: nat)
    requires b > 0
  {
    && Tiles(blocks, |frame|) && |blocks| <= MAX_FEC_BLOCKS
    && forall k {:trigger blocks[k]} :: 0 <= k < |blocks| ==> BlockOfPackets(frame, blocks[k], b)
  }

  ghost predicate BlockOfPackets(frame: seq<byte>, view: View, b: nat)
    requires b > 0
  {
    view.lo < view.hi <= |frame| && Wide(Cut(frame[view.lo..view.hi], b)) && view.lo % b == 0
  }

  /** Cutting an interleaved frame into packets yields each slice of the data behind its gap. */
  lemma {:induction false} CutInterleaved(data: seq<byte>, gap: nat, slice: nat)
    requires slice > 0
    ensures var packets, chunks := Cut(Interleaved(data, gap, slice), gap + slice), Cut(data, slice);
            && |packets| == |chunks|
            && forall x :: 0 <= x < |packets| ==> packets[x] == Zeros(gap) + chunks[x]
  {
    if |data| > slice {
      var head, tail := data[..slice], data[slice..];
      assert data == head + tail;
      InterleavedUnfold(head, tail, gap, slice);
      CutUnfold(Zeros(gap) + head, Interleaved(tail, gap, slice), gap + slice);
      CutUnfold(head, tail, slice);
      CutInterleaved(tail, gap, slice);
    } else if data != [] {
      InterleavedUnfold(data, [], gap, slice);
      Neutral(data);
      Neutral(Zeros(gap) + data);
    }
  }

  lemma AlignedTo(n: nat, b: nat)
    requires b > 0 && n % b == 0
    ensures n == Times(n / b, b)
  {
    TimesIs(n / b, b);
  }

  /** The packets of a frame are the packets before a boundary followed by the packets after it. */
  lemma CutAround(frame: seq<byte>, lo: nat, hi: nat, b: nat)
    requires b > 0 && lo <= hi <= |frame| && lo % b == 0
    ensures Cut(frame[..hi], b) == Cut(frame[..lo], b) + Cut(frame[lo..hi], b)
  {
    AlignedTo(lo, b);
    assert frame[..hi] == frame[..lo] + frame[lo..hi];
    CutAppend(frame[..lo], frame[lo..hi], b, lo / b);
  }

  lemma WideParts(p: seq<seq<byte>>, q: seq<seq<byte>>)
    requires Wide(p + q)
    ensures Wide(p) && Wide(q)
  {
    assert forall x :: 0 <= x < |p| ==> p[x] == (p + q)[x];
    assert forall x :: 0 <= x < |q| ==> q[x] == (p + q)[|p| + x];
  }

  /** A frame split along packet boundaries gives blocks of packets that all have room for a header. */
  lemma SplitGivesPackets(data: seq<byte>, b: nat, frame: seq<byte>, blocks: seq<View>)
    requires b > VIDEO_PACKET_RAW_SIZE && frame == Interleaved(data, VIDEO_PACKET_RAW_SIZE, b - VIDEO_PACKET_RAW_SIZE)
    requires Tiles(blocks, |frame|) && Aligned(blocks, b) && |blocks| <= MAX_FEC_BLOCKS
    ensures FrameCut(frame, blocks, b)
  {
    CutInterleaved(data, VIDEO_PACKET_RAW_SIZE, b - VIDEO_PACKET_RAW_SIZE);
    forall k | 0 <= k < |blocks|
      ensures BlockOfPackets(frame, blocks[k], b)
    {
      BlockGivesPackets(frame, blocks, k, b);
    }
  }

  lemma {:induction false} TilesBound(blocks: seq<View>, size: nat, k: nat)
    requires Tiles(blocks, size) && k < |blocks|
    ensures blocks[k].hi <= size
    decreases |blocks| - k
  {
    if k + 1 < |blocks| {
      TilesBound(blocks, size, k + 1);
    }
  }

  lemma BlockGivesPackets(frame: seq<byte>, blocks: seq<View>, k: nat, b: nat)
    requires b > 0 && Tiles(blocks, |frame|) && Aligned(blocks, b) && k < |blocks| && Wide(Cut(frame, b))
    ensures BlockOfPackets(frame, blocks[k], b)
  {
    hide Cut;
    var lo, hi := blocks[k].lo, blocks[k].hi;
    TilesBound(blocks, |frame|, k);
    assert frame[..|frame|] == frame;
    if hi < |frame| {
      assert hi == blocks[k + 1].lo;
      CutAround(frame, hi, |frame|, b);
      WideParts(Cut(frame[..hi], b), Cut(frame[hi..|frame|], b));
    }
    CutAround(frame, lo, hi, b);
    WideParts(Cut(frame[..lo], b), Cut(frame[lo..hi], b));
  }

  /** The datagrams of the first n blocks of a frame, when `before` datagrams of the session went out before it. */
  function FrameOut(frame: seq<byte>, blocks: seq<View>, n: nat, c: Config, frameIndex: nat, timestamp: nat, before: nat): seq<Datagram>
    requires c.Valid() && FrameCut(frame, blocks, c.blocksize) && n <= |blocks|
  {
    if n == 0 then [] else
      var out := FrameOut(frame, blocks, n - 1, c, frameIndex, timestamp, before);
      var view := blocks[n - 1];
      var i := BlockInfo(before + |out|, frameIndex, timestamp, n - 1, |blocks|);
      out + BlockOut(frame[view.lo..view.hi], c, i, (before + |out|) % Nonces.TWO_64)
  }

  lemma NothingOut(frame: seq<byte>, blocks: seq<View>, c: Config, frameIndex: nat, timestamp: nat, before: seq<Datagram>)
    requires c.Valid() && FrameCut(frame, blocks, c.blocksize)
    ensures before == before + FrameOut(frame, blocks, 0, c, frameIndex, timestamp, |before|)
    ensures |blocks| > 0 && blocks[0].lo == 0
  {
  }

  lemma FrameOutStep(frame: seq<byte>, blocks: seq<View>, n: nat, c: Config, frameIndex: nat, timestamp: nat, before: nat, counter: nat)
    requires c.Valid() && FrameCut(frame, blocks, c.blocksize) && n < |blocks|
    requires c.cipher.Some? ==> counter == (before + |FrameOut(frame, blocks, n, c, frameIndex, timestamp, before)|) % Nonces.TWO_64
    ensures BlockOfPackets(frame, blocks[n], c.blocksize)
    ensures var out, view := FrameOut(frame, blocks, n, c, frameIndex, timestamp, before), blocks[n];
            FrameOut(frame, blocks, n + 1, c, frameIndex, timestamp, before)
            == out + BlockOut(frame[view.lo..view.hi], c, BlockInfo(before + |out|, frameIndex, timestamp, n, |blocks|), counter)
  {
    hide BlockOut, Cut, Tiles;
    var out, view := FrameOut(frame, blocks, n, c, frameIndex, timestamp, before), blocks[n];
    assert BlockOfPackets(frame, blocks[n], c.blocksize);
    CounterUnused(frame[view.lo..view.hi], c, BlockInfo(before + |out|, frameIndex, timestamp, n, |blocks|), counter, (before + |out|) % Nonces.TWO_64);
  }

  /** Without a cipher the IV counter does not matter. */
  lemma CounterUnused(block: seq<byte>, c: Config, i: BlockInfo, counter: nat, counter': nat)
    requires block != [] && c.Valid() && Wide(Cut(block, c.blocksize)) && i.Valid()
    requires c.cipher.Some? ==> counter == counter'
    ensures BlockOut(block, c, i, counter) == BlockOut(block, c, i, counter')
  {
    hide Cut, Finished, EncodedShards;
    EncodedWide(block, c, i);
    assert BlockOut(block, c, i, counter) == BlockOut(block, c, i, counter');
  }

  lemma WrapAdd(a: nat, b: nat)
    ensures (a % Nonces.TWO_64 + b) % Nonces.TWO_64 == (a + b) % Nonces.TWO_64
  {
  }

  lemma NothingSent(shards: seq<seq<byte>>, ds: seq<Datagram>, sent: seq<Datagram>)
    requires |ds| == |shards|
    ensures SentBodies(shards, ds, 0) == shards && Prefixes(ds, 0) == []
    ensures sent + ds[..0] == sent
  {
  }

  lemma NextShard(shards: seq<seq<byte>>, ds: seq<Datagram>, x: nat, finished: seq<byte>, current: seq<seq<byte>>)
    requires x < |ds| == |shards| && current == SentBodies(shards, ds, x)
    ensures current[x] == shards[x]
    ensures current[x := finished][x := ds[x].body] == SentBodies(shards, ds, x + 1)
    ensures Prefixes(ds, x + 1) == Prefixes(ds, x) + [ds[x].prefix]
  {
  }

  lemma BlockDatagramAt(shards: seq<seq<byte>>, dataShards: nat, percentage: nat, i: BlockInfo, cipher: Option<Cipher>, counter: nat, now: nat, x: nat)
    requires Wide(shards) && i.Valid() && x < |shards|
    requires cipher.Some? ==> now == (counter + x) % Nonces.TWO_64
    ensures BlockDatagrams(shards, dataShards, percentage, i, cipher, counter)[x]
            == Sealed(cipher, Finished(shards[x], x, dataShards, percentage, i), now, i.frameIndex)
  {
    hide Finished;
  }

  lemma CounterStep(counter: nat, x: nat)
    ensures ((counter + x) % Nonces.TWO_64 + 1) % Nonces.TWO_64 == (counter + (x + 1)) % Nonces.TWO_64
  {
    Nonces.Wrap(counter + x, Nonces.TWO_64);
  }

  lemma SentStretch(shards: seq<seq<byte>>, ds: seq<Datagram>, lo: nat, hi: nat, sent: seq<Datagram>)
    requires lo <= hi <= |ds| == |shards|
    ensures Framed(Prefixes(ds, hi), SentBodies(shards, ds, hi), lo, hi - lo) == ds[lo..hi]
    ensures sent + ds[..lo] + ds[lo..hi] == sent + ds[..hi]
  {
  }

  lemma BlockFits(size: nat, fec: nat, fecPercentage: nat, b: nat, minParity: nat)
    requires size > 0 && b > 0 && minParity <= DATA_SHARDS_MAX - MaxDataShards(fecPercentage)
    requires fec == 0 || (fec == fecPercentage && size <= BlockCapacity(fecPercentage, b))
    ensures CeilDiv(size, b) > 0
    ensures fec != 0 ==> CeilDiv(size, b) + ParityPlan(CeilDiv(size, b), fec, minParity).0 <= DATA_SHARDS_MAX
  {
    CeilDivIs(size, b);
    if fec != 0 {
      ParityFits(CeilDiv(size, b), fecPercentage, minParity);
    }
  }

  lemma {:induction false} JoinSizes(p: seq<seq<byte>>, q: seq<seq<byte>>)
    requires |p| == |q| && forall x :: 0 <= x < |p| ==> |p[x]| == |q[x]|
    ensures |Join(p)| == |Join(q)|
  {
    if p != [] {
      JoinSizes(p[1..], q[1..]);
    }
  }

  /** All shards of an encoded block are whole. */
  lemma EncodedWide(block: seq<byte>, c: Config, i: BlockInfo)
    requires block != [] && c.Valid() && Wide(Cut(block, c.blocksize)) && i.Valid()
    ensures |StampedBlock(block, c.blocksize, i)| == |block|
    ensures var shards := EncodedShards(block, c, i);
            && Wide(shards) && (forall x :: 0 <= x < |shards| ==> |shards[x]| == c.blocksize)
            && |shards| == DataShardsOf(block, c.blocksize) + ParityPlan(DataShardsOf(block, c.blocksize), c.fecPercentage, c.minParity).0
  {
    hide Cut, Join, StampPacket, Padded, ParityBytes, ParityPlan;
    var b, packets := c.blocksize, Cut(block, c.blocksize);
    var stamped := StampedUpTo(packets, |packets|, i);
    JoinSizes(stamped, packets);
    JoinCut(block, b);
    CeilDivIs(|block|, b);
    var d := DataShardsOf(block, b);
    var data := Padded(StampedBlock(block, b, i), b);
    var (parity, _) := ParityPlan(d, c.fecPercentage, c.minParity);
    TimesAdd(d, parity, b);
    CutWhole(data + ParityBytes(c.rs, data, b, parity), b, d + parity);
  }

}
