/** videoBroadcastThread for one session: frames are split, encoded, numbered, encrypted and sent in paced batches. */
module VideoSender {
  import opened Bytes
  import opened Cutting
  import opened Datagrams
  import opened FecEncode
  import opened FecSplit
  import opened PacketGaps
  import opened PacketHeaders
  import opened Pacing
  import opened Receiver
  import opened Stamping
  import opened Wrappers
  import Nonces

  // sizeof(video_packet_enc_prefix_t)
  const ENC_PREFIX_SIZE := 12 + 4 + 16

  class VideoSender {
    const blocksize: nat
    const fecPercentage: nat
    const minRequiredFecPackets: nat
    const cipher: Option<Cipher>
    const rs: ReedSolomon

    // session->video
    var lowseq: nat
    var gcmIvCounter: nat
    // videoBroadcastThread
    var ratecontrolNextFrameStart: nat
    // the clock and the network
    var clock: nat
    var sent: seq<Datagram>

    ghost var firstStart: nat
    ghost var frames: nat
    ghost var bursts: seq<Burst>
    ghost var marks: seq<bool> // which datagrams sent are data shards

    ghost predicate Configured()
    {
      && VIDEO_PACKET_RAW_SIZE < blocksize <= 100_000
      && 1 <= fecPercentage <= 255
      && WellSized(rs) && SoundIfAny(cipher)
      && minRequiredFecPackets <= DATA_SHARDS_MAX - MaxDataShards(fecPercentage)
    }

    /** Reads the steady clock, which never runs backwards. */
    method Now() returns (t: nat)
      modifies this`clock
      ensures t == clock >= old(clock)
    {
      var passed: nat :| true;
      clock := clock + passed;
      t := clock;
    }

    /** timer->sleep_for, which never returns early. */
    method SleepFor(d: nat)
      modifies this`clock
      ensures clock >= old(clock) + d
    {
      var late: nat :| true;
      clock := clock + d + late;
    }

    /** All but the last `group` of the frame's packets are paid for by now. */
    ghost predicate PaidFor(start: nat, frameSent: nat, group: nat)
      requires 0 < blocksize <= 100_000
      reads this`clock
    {
      RateIsPositive(blocksize);
      group <= frameSent && Due(start, frameSent - group, PacketsIn1ms(blocksize)) <= clock
    }

    /** Waits, if a pacing group is full or the frame has not begun, until everything sent so far is due. */
    method Pace(start: nat, frameSent: nat, groupSent: nat) returns (groupSent': nat)
      requires Configured() && (frameSent > 0 ==> PaidFor(start, frameSent, groupSent))
      modifies this`clock
      ensures clock >= old(clock)
      ensures groupSent' == if groupSent >= PacketsIn1ms(blocksize) || frameSent == 0 then 0 else groupSent
      ensures PaidFor(start, frameSent, groupSent') && groupSent' < PacketsIn1ms(blocksize)
    {
      hide PacketsIn1ms;
      RateIsPositive(blocksize);
      var rate := PacketsIn1ms(blocksize);
      groupSent' := groupSent;
      if groupSent >= rate || frameSent == 0 {
        var due := Due(start, frameSent, rate);
        var now := Now();
        if now < due {
          SleepFor(due - now);
        }
        groupSent' := 0;
      }
    }

    /** send_batch: the kernel walks the payload buffers; without it, each shard is sent through its pointer. */
    method SendBatch(f: Fec, offset: nat, count: nat, prefixes: seq<Option<EncPrefix>>)
      requires f.Valid() && offset + count <= f.nrShards && offset + count <= |prefixes|
      modifies this`sent
      ensures |f.Shards()| == f.nrShards
      ensures sent == old(sent) + Framed(prefixes, f.Shards(), offset, count)
    {
      hide Cut;
      WireLength(f);
      var batchedSendSupported: bool := *;
      if batchedSendSupported {
        CutMiddle(f.Wire(), f.blocksize, offset, offset + count, f.nrShards);
        var pieces := Cut(f.Wire()[Times(offset, f.blocksize)..Times(offset + count, f.blocksize)], f.blocksize);
        sent := sent + Framed(prefixes[offset..], pieces, 0, count);
      } else {
        for y: nat := 0 to count
          invariant sent == old(sent) + Framed(prefixes, f.Shards(), offset, y)
        {
          BuffersAreShards(f, offset + y);
          FramedStep(prefixes, f.Shards(), offset, y);
          Assoc(old(sent), Framed(prefixes, f.Shards(), offset, y), [Datagram(prefixes[offset + y], f.Data(offset + y))]);
          sent := sent + [Datagram(prefixes[offset + y], f.Data(offset + y))];
        }
      }
    }

    /** What went out, went out in consecutive batches, each of which kept to the rate. */
    ghost predicate KeptToRate()
      requires 0 < blocksize
      reads this`bursts, this`firstStart, this`sent, this`clock, this`frames
    {
      && Consecutive(bursts, |sent|, clock)
      && forall e :: e in bursts ==>
           e.frame <= frames + 1 && WithinRate(e, firstStart, PacketsIn1ms(blocksize), Max(1, SendBatchSize(blocksize)))
    }

    /** What the packets of earlier frames and of this one amount to when a batch is about to go out. */
    ghost predicate InFrame(start: nat, frameSent: nat, groupSent: nat)
      requires 0 < blocksize <= 100_000
      reads this`clock, this`sent, this`bursts, this`firstStart, this`frames
    {
      && frameSent <= |sent| && Earned(|sent| - frameSent, firstStart, start, frames, PacketsIn1ms(blocksize))
      && (frameSent > 0 ==> PaidFor(start, frameSent, groupSent))
      && KeptToRate()
    }

    /** Paces and sends shards offset..offset+count. */
    method FlushBatch(f: Fec, offset: nat, count: nat, prefixes: seq<Option<EncPrefix>>, start: nat, frameSent: nat, groupSent: nat)
      returns (frameSent': nat, groupSent': nat)
      requires Configured() && f.Valid() && offset + count <= f.nrShards && offset + count <= |prefixes|
      requires 0 < count <= Max(1, SendBatchSize(blocksize)) && InFrame(start, frameSent, groupSent)
      modifies this`clock, this`sent, this`bursts
      ensures clock >= old(clock) && |f.Shards()| == f.nrShards
      ensures sent == old(sent) + Framed(prefixes, f.Shards(), offset, count)
      ensures frameSent' == frameSent + count && InFrame(start, frameSent', groupSent')
    {
      hide Cut, PacketsIn1ms, SendBatchSize, Due, WithinRate, Earned, Framed, Consecutive;
      RateIsPositive(blocksize);
      groupSent' := Pace(start, frameSent, groupSent);
      ConsecutiveLater(bursts, |sent|, old(clock), clock);
      ghost var e := Burst(clock, frames + 1, |sent|, count);
      BurstWithinRate(|sent| - frameSent, firstStart, start, frames, PacketsIn1ms(blocksize), frameSent, groupSent', e, Max(1, SendBatchSize(blocksize)));
      SendBatch(f, offset, count, prefixes);
      ConsecutiveNext(bursts, e.sentBefore, e);
      bursts := bursts + [e];
      groupSent' := groupSent' + count;
      frameSent' := frameSent + count;
    }

    /** With a cipher, replaces shard x by its ciphertext and returns the prefix to send in front of it. */
    method EncryptShard(f: Fec, x: nat, frameIndex: nat, ghost shards: seq<seq<byte>>) returns (prefix: Option<EncPrefix>)
      requires f.Valid() && x < f.nrShards && SoundIfAny(cipher)
      requires f.Shards() == shards && |shards| == f.nrShards
      modifies this`gcmIvCounter, f.payload, f.shards
      ensures var d := Sealed(cipher, shards[x], old(gcmIvCounter), frameIndex);
              prefix == d.prefix && f.Shards() == shards[x := d.body]
      ensures gcmIvCounter == if cipher.Some? then (old(gcmIvCounter) + 1) % Nonces.TWO_64 else old(gcmIvCounter)
      ensures f.payload[..f.inPlace.lo] == old(f.payload[..f.inPlace.lo]) && f.payload[f.inPlace.hi..] == old(f.payload[f.inPlace.hi..])
    {
      hide Cut, Nonces.VideoIv;
      BuffersAreShards(f, x);
      prefix := None;
      match cipher
      case None =>
        assert shards[x := shards[x]] == shards;
      case Some(c) =>
        var iv := Nonces.VideoIv(gcmIvCounter);
        gcmIvCounter := (gcmIvCounter + 1) % Nonces.TWO_64;
        var (tag, body) := c.encrypt(iv, f.Data(x));
        assert shards[x := shards[x]] == shards && Overwrite(shards[x], 0, body) == body;
        PokeShard(f, x, 0, body, shards, shards[x]);
        prefix := Some(EncPrefix(iv, frameIndex, tag));
    }

    /** One turn of that loop up to sending: shard x gets its FEC header and is encrypted. */
    method SealShard(f: Fec, x: nat, i: BlockInfo, ghost counter: nat, ghost shards: seq<seq<byte>>, ghost ds: seq<Datagram>)
      returns (prefix: Option<EncPrefix>)
      requires Configured() && f.Valid() && f.blocksize == blocksize && i.Valid() && x < f.nrShards == |shards|
      requires Wide(shards) && ds == BlockDatagrams(shards, f.dataShards, f.percentage, i, cipher, counter)
      requires f.Shards() == SentBodies(shards, ds, x)
      requires gcmIvCounter == if cipher.Some? then (counter + x) % Nonces.TWO_64 else counter
      modifies this`gcmIvCounter, f.payload, f.shards
      ensures f.Shards() == SentBodies(shards, ds, x + 1) && Prefixes(ds, x + 1) == Prefixes(ds, x) + [prefix]
      ensures gcmIvCounter == if cipher.Some? then (counter + (x + 1)) % Nonces.TWO_64 else counter
      ensures f.payload[..f.inPlace.lo] == old(f.payload[..f.inPlace.lo]) && f.payload[f.inPlace.hi..] == old(f.payload[f.inPlace.hi..])
    {
      hide Cut, Finished, Sealed, BlockDatagrams, SentBodies, Prefixes;
      ghost var finished := Finished(shards[x], x, f.dataShards, f.percentage, i);
      ghost var current := f.Shards();
      NextShard(shards, ds, x, finished, current);
      BuffersAreShards(f, x);
      FinishShard(f, x, i, current);
      BlockDatagramAt(shards, f.dataShards, f.percentage, i, cipher, counter, gcmIvCounter, x);
      CounterStep(counter, x);
      prefix := EncryptShard(f, x, i.frameIndex, f.Shards());
    }

    /** The loop that finishes the shards of one block, encrypts them and sends them batch by batch. */
    method SendShards(f: Fec, i: BlockInfo, start: nat, frameSent: nat, groupSent: nat) returns (frameSent': nat, groupSent': nat)
      requires Configured() && f.Valid() && f.blocksize == blocksize && i.Valid()
      requires Wide(f.Shards()) && InFrame(start, frameSent, groupSent) && gcmIvCounter < Nonces.TWO_64
      modifies this`clock, this`sent, this`gcmIvCounter, this`bursts, f.payload, f.shards
      ensures clock >= old(clock)
      ensures f.payload[..f.inPlace.lo] == old(f.payload[..f.inPlace.lo]) && f.payload[f.inPlace.hi..] == old(f.payload[f.inPlace.hi..])
      ensures sent == old(sent) + BlockDatagrams(old(f.Shards()), f.dataShards, f.percentage, i, cipher, old(gcmIvCounter))
      ensures gcmIvCounter == if cipher.Some? then (old(gcmIvCounter) + f.nrShards) % Nonces.TWO_64 else old(gcmIvCounter)
      ensures frameSent' == frameSent + f.nrShards && InFrame(start, frameSent', groupSent')
    {
      hide Cut, Finished, SendBatchSize, InFrame, BlockDatagrams, SentBodies, Prefixes, Framed;
      ghost var shards := f.Shards();
      ghost var ds := BlockDatagrams(shards, f.dataShards, f.percentage, i, cipher, gcmIvCounter);
      WireLength(f);
      assert |ds| == f.nrShards;
      NothingSent(shards, ds, sent);
      var sendBatchSize := SendBatchSize(blocksize);
      var nextShardToSend := 0;
      var prefixes := [];
      frameSent', groupSent' := frameSent, groupSent;
      for x: nat := 0 to f.nrShards
        invariant nextShardToSend <= x && (x - nextShardToSend < sendBatchSize || x == nextShardToSend)
        invariant x == f.nrShards ==> nextShardToSend == x
        invariant f.Shards() == SentBodies(shards, ds, x) && prefixes == Prefixes(ds, x)
        invariant gcmIvCounter == if cipher.Some? then (old(gcmIvCounter) + x) % Nonces.TWO_64 else old(gcmIvCounter)
        invariant sent == old(sent) + ds[..nextShardToSend]
        invariant frameSent' == frameSent + nextShardToSend && InFrame(start, frameSent', groupSent')
        invariant clock >= old(clock)
        invariant f.payload[..f.inPlace.lo] == old(f.payload[..f.inPlace.lo]) && f.payload[f.inPlace.hi..] == old(f.payload[f.inPlace.hi..])
      {
        var prefix := SealShard(f, x, i, old(gcmIvCounter), shards, ds);
        prefixes := prefixes + [prefix];

        if x - nextShardToSend + 1 >= sendBatchSize || x + 1 == f.nrShards {
          var currentBatchSize := x - nextShardToSend + 1;
          SentStretch(shards, ds, nextShardToSend, x + 1, old(sent));
          frameSent', groupSent' := FlushBatch(f, nextShardToSend, currentBatchSize, prefixes, start, frameSent', groupSent');
          nextShardToSend := x + 1;
        }
      }
      assert ds[..f.nrShards] == ds;
    }

    /** Stamps the packets of one FEC block and encodes it. */
    method EncodeBlock(payload: array<byte>, view: View, fec: nat, i: BlockInfo) returns (f: Fec)
      requires Configured() && i.Valid()
      requires view.lo < view.hi <= payload.Length && Wide(Cut(payload[view.lo..view.hi], blocksize))
      requires fec == 0 || (fec == fecPercentage && view.hi - view.lo <= BlockCapacity(fecPercentage, blocksize))
      modifies payload
      ensures f.Valid() && f.payload == payload && fresh(f.shards) && f.blocksize == blocksize
      ensures f.prefixsize == if cipher.Some? then ENC_PREFIX_SIZE else 0
      ensures f.inPlace.hi <= view.hi && payload[view.hi..] == old(payload[view.hi..])
      ensures f.Shards() == EncodedShards(old(payload[view.lo..view.hi]), ConfigFor(fec), i)
      ensures f.dataShards == CeilDiv(view.hi - view.lo, blocksize) > 0
      ensures f.percentage == ParityPlan(f.dataShards, fec, minRequiredFecPackets).1
    {
      hide Cut, Padded, ParityBytes, ParityPlan, StampedUpTo;
      ghost var block := payload[view.lo..view.hi];
      StampPackets(payload, view, blocksize, i);
      JoinCut(payload[view.lo..view.hi], blocksize);
      assert payload[view.lo..view.hi] == StampedBlock(block, blocksize, i);
      BlockFits(view.hi - view.lo, fec, fecPercentage, blocksize, minRequiredFecPackets);
      f := Encode(payload, view, blocksize, fec, minRequiredFecPackets, if cipher.Some? then ENC_PREFIX_SIZE else 0, rs);
    }

    /** One FEC block of the frame: stamped, encoded, finished and sent. */
    method SendBlock(payload: array<byte>, view: View, fec: nat, i: BlockInfo, start: nat, frameSent: nat, groupSent: nat)
      returns (nrShards: nat, frameSent': nat, groupSent': nat)
      requires Configured() && i.Valid() && InFrame(start, frameSent, groupSent) && gcmIvCounter < Nonces.TWO_64
      requires view.lo < view.hi <= payload.Length && Wide(Cut(payload[view.lo..view.hi], blocksize))
      requires fec == 0 || (fec == fecPercentage && view.hi - view.lo <= BlockCapacity(fecPercentage, blocksize))
      modifies this`clock, this`sent, this`gcmIvCounter, this`bursts, payload
      ensures clock >= old(clock)
      ensures payload[view.hi..] == old(payload[view.hi..])
      ensures var out := BlockOut(old(payload[view.lo..view.hi]), ConfigFor(fec), i, old(gcmIvCounter));
              && sent == old(sent) + out && nrShards == |out|
              && gcmIvCounter == if cipher.Some? then (old(gcmIvCounter) + |out|) % Nonces.TWO_64 else old(gcmIvCounter)
      ensures frameSent' == frameSent + nrShards && InFrame(start, frameSent', groupSent')
    {
      hide InFrame, BlockDatagrams, EncodedShards, Cut, ParityPlan, BlockOut, Wide;
      ghost var block := payload[view.lo..view.hi];
      BlockOutIs(block, ConfigFor(fec), i, gcmIvCounter);
      var f := EncodeBlock(payload, view, fec, i);
      WireLength(f);
      ghost var encoded := payload[..];
      frameSent', groupSent' := SendShards(f, i, start, frameSent, groupSent);
      nrShards := f.nrShards;
      RestStays(encoded, payload[..], f.inPlace.hi, view.hi);
    }

    lemma RestStays(s: seq<byte>, t: seq<byte>, lo: nat, hi: nat)
      requires |s| == |t| && lo <= hi <= |s| && s[lo..] == t[lo..]
      ensures s[hi..] == t[hi..]
    {
      assert s[hi..] == s[lo..][hi - lo..] && t[hi..] == t[lo..][hi - lo..];
    }

    function ConfigFor(fec: nat): Config {
      Config(blocksize, fec, minRequiredFecPackets, rs, cipher)
    }

    /** What a session has sent goes from `before` to `after` by one frame, split into these blocks, and `more` marks the data
        shards of it. */
    ghost predicate SentFrame(payload: seq<byte>, frameType: byte, latency: nat, frameIndex: nat, timestamp: nat,
                              blocks: seq<View>, fec: nat, before: seq<Datagram>, after: seq<Datagram>, more: seq<bool>)
      requires Configured()
    {
      var slice := blocksize - VIDEO_PACKET_RAW_SIZE;
      var header := FrameHeader(latency, frameType, LastSlice(FRAME_HEADER_SIZE + |payload|, slice));
      var frame := Interleaved(header + payload, VIDEO_PACKET_RAW_SIZE, slice);
      && FrameHeaderSays(header, latency, frameType, LastSlice(FRAME_HEADER_SIZE + |payload|, slice))
      && FrameCut(frame, blocks, blocksize) && |blocks| <= MAX_FEC_BLOCKS
      // FEC stays on while four blocks can hold the frame, and no block then exceeds its limit
      && fec == (if |frame| <= MAX_FEC_BLOCKS * BlockCapacity(fecPercentage, blocksize) then fecPercentage else 0)
      && (fec != 0 ==> forall k :: 0 <= k < |blocks| ==> blocks[k].hi - blocks[k].lo <= BlockCapacity(fecPercentage, blocksize))
      // everything that went out
      && after == before + FrameOut(frame, blocks, |blocks|, ConfigFor(fec), frameIndex, timestamp, |before|)
      // every shard of every block says in its header which one it is
      && (forall k: nat, x: nat :: ShardOf(frame, blocks, ConfigFor(fec), k, x) ==>
            ShardSays(after[|before|..], frame, blocks, ConfigFor(fec), frameIndex, timestamp, |before|, k, x))
      // its data shards give header and payload back, exactly if the length of the last slice fits 16 bits
      && var bodies := Bodies(cipher, after[|before|..]);
         && more == FrameMarks(frame, blocks, |blocks|, ConfigFor(fec)) && |more| == |bodies| && Wide(bodies)
         && (DataFrame(bodies, more, slice) == header + payload <==> LastSlice(FRAME_HEADER_SIZE + |payload|, slice) < 0x1_0000)
         // and so do the headers by themselves, if all blocks are decodable
         && (AllDecodable(frame, blocks, |blocks|, ConfigFor(fec)) ==> ClientFrame(bodies, slice) == DataFrame(bodies, more, slice))
    }

    /** One frame of the session: the body of the broadcast loop, for a payload with its replacements applied. */
    method SendFrame(payload: seq<byte>, frameType: byte, latency: nat, frameIndex: nat, timestamp: nat) returns (blocks: seq<View>, fec: nat)
      requires Running()
      modifies this
      ensures Running() && clock >= old(clock)
      ensures |old(marks)| <= |marks| && marks == old(marks) + marks[|old(marks)|..]
      ensures SentFrame(payload, frameType, latency, frameIndex, timestamp, blocks, fec, old(sent), sent, marks[|old(marks)|..])
      ensures frames == old(frames) + 1 && if old(frames) > 0 then firstStart == old(firstStart) else firstStart >= old(clock)
    {
      hide InFrame, Interleaved, FrameOut, FrameMarks, FrameHeader, LastSlice, ClientFrame, DataFrame, Numbered, FrameCut, AllDecodable, Bodies, LastPayloadLen,
        ShardOf, ShardSays, FrameHeaderSays;
      var slice := blocksize - VIDEO_PACKET_RAW_SIZE;
      var lastPayloadLen := (|payload| + FRAME_HEADER_SIZE) % slice;
      if lastPayloadLen == 0 {
        lastPayloadLen := slice;
      }
      LastSliceComputed(|payload| + FRAME_HEADER_SIZE, slice, lastPayloadLen);
      var header := FrameHeader(latency, frameType, lastPayloadLen);
      var payloadNew := ConcatAndInsert(VIDEO_PACKET_RAW_SIZE, slice, header, payload);
      ghost var frame := payloadNew[..];
      InterleavedLength(header + payload, VIDEO_PACKET_RAW_SIZE, slice);
      blocks, fec := SplitBlocks(payloadNew.Length, blocksize, fecPercentage);
      SplitGivesPackets(header + payload, blocksize, frame, blocks);
      SendBlocks(payloadNew, blocks, fec, frameIndex, timestamp);
      FrameReceived(header, payload, frame, blocks, ConfigFor(fec), frameIndex, timestamp, old(sent), sent, old(marks), marks);
      FrameHeaderRead(latency, frameType, lastPayloadLen);
      HeadersReceived(frame, blocks, ConfigFor(fec), frameIndex, timestamp, old(sent), sent);
    }

    method SendBlocks(payload: array<byte>, blocks: seq<View>, fec: nat, frameIndex: nat, timestamp: nat)
      requires Running() && FrameCut(payload[..], blocks, blocksize)
      requires fec == 0 || fec == fecPercentage
      requires fec != 0 ==> forall k :: 0 <= k < |blocks| ==> blocks[k].hi - blocks[k].lo <= BlockCapacity(fecPercentage, blocksize)
      modifies this, payload
      ensures Running() && clock >= old(clock)
      ensures frames == old(frames) + 1 && if old(frames) > 0 then firstStart == old(firstStart) else firstStart >= old(clock)
      ensures sent == old(sent) + FrameOut(old(payload[..]), blocks, |blocks|, ConfigFor(fec), frameIndex, timestamp, |old(sent)|)
      ensures marks == old(marks) + FrameMarks(old(payload[..]), blocks, |blocks|, ConfigFor(fec))
    {
      hide InFrame, FrameOut, FrameMarks, PacketsIn1ms, Cut, FrameCut, Numbered;
      ghost var frame, before := payload[..], sent;
      var now := Now();
      var start := Max(ratecontrolNextFrameStart, now);
      ConsecutiveLater(bursts, |sent|, old(clock), clock);
      StartFrame(start);
      var frameSent, groupSent := SendBlocksFrom(payload, blocks, fec, frameIndex, timestamp, start);
      lowseq := lowseq + frameSent;
      SessionNumbered(before, marks, frame, blocks, ConfigFor(fec), frameIndex, timestamp);
      marks := marks + FrameMarks(frame, blocks, |blocks|, ConfigFor(fec));
      FinishFrame(start, frameSent, groupSent);
    }

    /** The loop over the blocks of a frame; lowseq is counted in a local until the frame is out. */
    method SendBlocksFrom(payload: array<byte>, blocks: seq<View>, fec: nat, frameIndex: nat, timestamp: nat, start: nat)
      returns (frameSent: nat, groupSent: nat)
      requires Configured() && FrameCut(payload[..], blocks, blocksize) && InFrame(start, 0, 0)
      requires lowseq == |sent| && gcmIvCounter == (if cipher.Some? then |sent| % Nonces.TWO_64 else 0)
      requires fec == 0 || fec == fecPercentage
      requires fec != 0 ==> forall k :: 0 <= k < |blocks| ==> blocks[k].hi - blocks[k].lo <= BlockCapacity(fecPercentage, blocksize)
      modifies this`clock, this`sent, this`gcmIvCounter, this`bursts, this`ratecontrolNextFrameStart, payload
      ensures clock >= old(clock)
      ensures sent == old(sent) + FrameOut(old(payload[..]), blocks, |blocks|, ConfigFor(fec), frameIndex, timestamp, |old(sent)|)
      ensures |sent| == |old(sent)| + frameSent && gcmIvCounter == (if cipher.Some? then |sent| % Nonces.TWO_64 else 0)
      ensures InFrame(start, frameSent, groupSent) && EndsAt(start, frameSent)
    {
      hide InFrame, FrameOut, PacketsIn1ms, Cut, FrameCut;
      ghost var frame, before := payload[..], sent;
      var lowseqNext := lowseq;
      frameSent, groupSent := 0, 0;
      NothingOut(frame, blocks, ConfigFor(fec), frameIndex, timestamp, before);
      for n: nat := 0 to |blocks|
        invariant InBlocks(payload[..], frame, blocks, n, fec, frameIndex, timestamp, before)
        invariant lowseqNext == |sent| == |before| + frameSent
        invariant InFrame(start, frameSent, groupSent) && clock >= old(clock)
        invariant n > 0 ==> EndsAt(start, frameSent)
      {
        var nrShards;
        nrShards, frameSent, groupSent := NextBlock(payload, blocks, n, fec, frameIndex, timestamp, lowseqNext, start, frameSent, groupSent, frame, before);
        RateIsPositive(blocksize);
        ratecontrolNextFrameStart := Due(start, frameSent, PacketsIn1ms(blocksize));
        lowseqNext := lowseqNext + nrShards;
      }
    }

    ghost predicate EndsAt(start: nat, frameSent: nat)
      requires 0 < blocksize <= 100_000
      reads this`ratecontrolNextFrameStart
    {
      RateIsPositive(blocksize);
      ratecontrolNextFrameStart == Due(start, frameSent, PacketsIn1ms(blocksize))
    }

    /** The first n blocks of the frame are out and the rest of the frame is as it was. */
    ghost predicate InBlocks(payload: seq<byte>, frame: seq<byte>, blocks: seq<View>, n: nat, fec: nat, frameIndex: nat, timestamp: nat, before: seq<Datagram>)
      requires Configured() && FrameCut(frame, blocks, blocksize) && n <= |blocks|
      reads this`sent, this`gcmIvCounter
    {
      && |payload| == |frame| && (n < |blocks| ==> blocks[n].lo <= |frame| && payload[blocks[n].lo..] == frame[blocks[n].lo..])
      && sent == before + FrameOut(frame, blocks, n, ConfigFor(fec), frameIndex, timestamp, |before|)
      && gcmIvCounter == (if cipher.Some? then |sent| % Nonces.TWO_64 else 0)
    }

    method NextBlock(payload: array<byte>, blocks: seq<View>, n: nat, fec: nat, frameIndex: nat, timestamp: nat, lowseqNext: nat,
                     start: nat, frameSent: nat, groupSent: nat, ghost frame: seq<byte>, ghost before: seq<Datagram>)
      returns (nrShards: nat, frameSent': nat, groupSent': nat)
      requires Configured() && FrameCut(frame, blocks, blocksize) && n < |blocks|
      requires InBlocks(payload[..], frame, blocks, n, fec, frameIndex, timestamp, before)
      requires lowseqNext == |sent| && InFrame(start, frameSent, groupSent)
      requires fec == 0 || (fec == fecPercentage && blocks[n].hi - blocks[n].lo <= BlockCapacity(fecPercentage, blocksize))
      modifies this`clock, this`sent, this`gcmIvCounter, this`bursts, payload
      ensures clock >= old(clock) && |sent| == |old(sent)| + nrShards
      ensures InBlocks(payload[..], frame, blocks, n + 1, fec, frameIndex, timestamp, before)
      ensures frameSent' == frameSent + nrShards && InFrame(start, frameSent', groupSent')
    {
      hide InFrame, FrameOut, BlockOut, Cut, PacketsIn1ms;
      ghost var view, counter := blocks[n], gcmIvCounter;
      FrameOutStep(frame, blocks, n, ConfigFor(fec), frameIndex, timestamp, |before|, counter);
      var i := BlockInfo(lowseqNext, frameIndex, timestamp, n, |blocks|);
      assert payload[view.lo..view.hi] == payload[view.lo..][..view.hi - view.lo] == frame[view.lo..view.hi];
      nrShards, frameSent', groupSent' := SendBlock(payload, blocks[n], fec, i, start, frameSent, groupSent);
      WrapAdd(|old(sent)|, nrShards);
      Assoc(before, FrameOut(frame, blocks, n, ConfigFor(fec), frameIndex, timestamp, |before|), BlockOut(frame[view.lo..view.hi], ConfigFor(fec), i, counter));
      assert payload[view.hi..] == frame[view.hi..];
    }

    ghost method StartFrame(start: nat)
      requires Running() && start >= ratecontrolNextFrameStart
      modifies this`firstStart
      ensures InFrame(start, 0, 0)
      ensures firstStart == if frames == 0 then start else old(firstStart)
    {
      if frames == 0 {
        firstStart := start;
      } else {
        LaterStart(|sent|, firstStart, ratecontrolNextFrameStart, start, frames, PacketsIn1ms(blocksize));
      }
    }

    ghost method FinishFrame(start: nat, frameSent: nat, groupSent: nat)
      requires Configured() && InFrame(start, frameSent, groupSent) && EndsAt(start, frameSent)
      requires lowseq == |sent| && gcmIvCounter == (if cipher.Some? then |sent| % Nonces.TWO_64 else 0)
      requires |marks| == |sent| && forall k :: 0 <= k < |sent| ==> Numbered(cipher, blocksize, sent[k], k, marks[k])
      modifies this`frames
      ensures Running() && frames == old(frames) + 1
    {
      RateIsPositive(blocksize);
      FrameEnds(|sent| - frameSent, firstStart, start, frames, PacketsIn1ms(blocksize), frameSent);
      frames := frames + 1;
    }

    /** Between two frames: everything sent so far is numbered, encrypted and paced as it should be. */
    ghost predicate Running()
      reads this
    {
      && Configured()
      && lowseq == |sent|
      && gcmIvCounter == (if cipher.Some? then |sent| % Nonces.TWO_64 else 0)
      && |marks| == |sent| && (forall k :: 0 <= k < |sent| ==> Numbered(cipher, blocksize, sent[k], k, marks[k]))
      && KeptToRate()
      && (frames > 0 ==> Earned(|sent|, firstStart, ratecontrolNextFrameStart, frames, PacketsIn1ms(blocksize)))
      && (frames == 0 ==> sent == [] && bursts == [])
    }

    constructor (blocksize: nat, fecPercentage: nat, minRequiredFecPackets: nat, cipher: Option<Cipher>, rs: ReedSolomon, now: nat)
      requires VIDEO_PACKET_RAW_SIZE < blocksize <= 100_000
      requires 1 <= fecPercentage <= 255
      requires WellSized(rs) && SoundIfAny(cipher)
      requires minRequiredFecPackets <= DATA_SHARDS_MAX - MaxDataShards(fecPercentage)
      ensures Running() && sent == [] && frames == 0 && clock == now && this.blocksize == blocksize && this.cipher == cipher && this.fecPercentage == fecPercentage
    {
      this.blocksize, this.fecPercentage, this.minRequiredFecPackets := blocksize, fecPercentage, minRequiredFecPackets;
      this.cipher, this.rs := cipher, rs;
      lowseq, gcmIvCounter, sent := 0, 0, [];
      clock, ratecontrolNextFrameStart := now, now;
      firstStart, frames, bursts, marks := now, 0, [], [];
    }
  }
}
