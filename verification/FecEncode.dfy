/** fec::encode: a block of packets becomes data shards and Reed-Solomon parity shards. */
module FecEncode {
  import opened Bytes
  import opened Cutting
  import opened FecSplit

  /** An element of shards_p: into the frame itself, or into the block's own buffer. */
  datatype ShardPtr = InPayload(at: nat) | InShards(at: nat)

  /** Parity shard i of the given data shards, for shards of b bytes. */
  type ReedSolomon = (nat, seq<byte>, nat) -> seq<byte>

  ghost predicate WellSized(rs: ReedSolomon) {
    forall i: nat, data: seq<byte>, b: nat :: |rs(i, data, b)| == b
  }

  datatype Fec = Fec(
    dataShards: nat,
    nrShards: nat,
    percentage: nat,
    blocksize: nat,
    prefixsize: nat,
    payload: array<byte>,
    shards: array<byte>,
    shardsP: seq<ShardPtr>,
    // payload_buffers: the stretch of the frame sent in place, followed by all of `shards`
    inPlace: View)
  {
    /** The bytes the two payload buffers describe, one after the other. */
    function Wire(): seq<byte>
      requires inPlace.lo <= inPlace.hi <= payload.Length
      reads payload, shards
    {
      payload[inPlace.lo..inPlace.hi] + shards[..]
    }

    /** shards_p maps every shard to its place, and the two buffers hold exactly the shards, in order. */
    ghost predicate Valid() {
      && payload != shards
      && inPlace.lo <= inPlace.hi <= payload.Length
      && |shardsP| == nrShards && dataShards <= nrShards && blocksize > 0
      && (inPlace.hi - inPlace.lo) + shards.Length == Times(nrShards, blocksize)
      && forall x :: 0 <= x < nrShards ==> PlaceOf(x)
    }

    /** Shard x lies where position x * blocksize of the wire is. */
    ghost predicate PlaceOf(x: nat)
      requires x < |shardsP| && inPlace.lo <= inPlace.hi
    {
      match shardsP[x]
      case InPayload(at) => at == inPlace.lo + Times(x, blocksize) && at + blocksize <= inPlace.hi
      case InShards(at) => at == Times(x, blocksize) - (inPlace.hi - inPlace.lo) && at + blocksize <= shards.Length
    }

    /** What shards.data(x) points to. */
    function Data(x: nat): (d: seq<byte>)
      requires Valid() && x < nrShards
      reads payload, shards
      ensures |d| == blocksize
    {
      assert PlaceOf(x);
      match shardsP[x]
      case InPayload(at) => payload[at..at + blocksize]
      case InShards(at) => shards[at..at + blocksize]
    }

    /** The shards, as the payload buffers hold them. */
    function Shards(): seq<seq<byte>>
      requires Valid()
      reads payload, shards
    {
      Cut(Wire(), blocksize)
    }
  }

  lemma WireLength(f: Fec)
    requires f.Valid()
    ensures |f.Wire()| == Times(f.nrShards, f.blocksize)
    ensures |f.Shards()| == f.nrShards
  {
    CeilDivOfParts(|f.Wire()|, f.blocksize, f.nrShards);
  }

  /** Shard x of the payload buffers is what shards_p[x] points to. */
  lemma BuffersAreShards(f: Fec, x: nat)
    requires f.Valid() && x < f.nrShards
    ensures |f.Shards()| == f.nrShards && |f.Wire()| == Times(f.nrShards, f.blocksize)
    ensures Times(x, f.blocksize) + f.blocksize <= |f.Wire()|
    ensures f.Shards()[x] == f.Data(x)
  {
    hide Cut;
    WireLength(f);
    TimesMono(x, f.nrShards, f.blocksize);
    CutAt(f.Wire(), f.blocksize, x);
    WireAt(f, x, Times(x, f.blocksize));
  }

  lemma WireAt(f: Fec, x: nat, at: nat)
    requires f.Valid() && x < f.nrShards && at == Times(x, f.blocksize) && at + f.blocksize <= |f.Wire()|
    ensures f.Wire()[at..at + f.blocksize] == f.Data(x)
  {
    hide Cut;
    assert f.PlaceOf(x);
    var b, lo, hi := f.blocksize, f.inPlace.lo, f.inPlace.hi;
    var first, second := f.payload[lo..hi], f.shards[..];
    match f.shardsP[x]
    case InPayload(p) =>
      SliceOfHead(first, second, at, at + b);
      SliceOfPart(f.payload[..], lo, hi, at, at + b);
    case InShards(p) =>
      SliceOfTail(first, second, p, p + b);
  }

  /** Writing through a shard pointer changes that shard alone, and nothing of the frame outside the block. */
  method Poke(f: Fec, x: nat, off: nat, src: seq<byte>)
    requires f.Valid() && x < f.nrShards && off + |src| <= f.blocksize
    modifies f.payload, f.shards
    ensures |f.Shards()| == f.nrShards == |old(f.Shards())| && |old(f.Shards()[x])| == f.blocksize
    ensures f.Shards() == old(f.Shards())[x := Overwrite(old(f.Shards()[x]), off, src)]
    ensures f.payload[..f.inPlace.lo] == old(f.payload[..f.inPlace.lo])
    ensures f.payload[f.inPlace.hi..] == old(f.payload[f.inPlace.hi..])
  {
    ghost var w := f.Wire();
    BuffersAreShards(f, x);
    WriteThrough(f, x, off, src);
    CutOverwrite(w, f.blocksize, x, off, src);
  }

  method WriteThrough(f: Fec, x: nat, off: nat, src: seq<byte>)
    requires f.Valid() && x < f.nrShards && off + |src| <= f.blocksize
    requires Times(x, f.blocksize) + f.blocksize <= |f.Wire()|
    modifies f.payload, f.shards
    ensures f.Wire() == Overwrite(old(f.Wire()), Times(x, f.blocksize) + off, src)
    ensures f.payload[..f.inPlace.lo] == old(f.payload[..f.inPlace.lo])
    ensures f.payload[f.inPlace.hi..] == old(f.payload[f.inPlace.hi..])
  {
    hide Overwrite, Cut;
    ghost var payload, lo, hi := f.payload[..], f.inPlace.lo, f.inPlace.hi;
    ghost var first, second := payload[lo..hi], f.shards[..];
    ghost var at := Times(x, f.blocksize) + off;
    assert f.PlaceOf(x);
    match f.shardsP[x]
    case InPayload(p) =>
      CopyTo(f.payload, p + off, src);
      OverwriteWithin(payload, lo, hi, at, src);
      OverwriteHead(first, second, at, src);
    case InShards(p) =>
      CopyTo(f.shards, p + off, src);
      OverwriteTail(first, second, p + off, src);
  }

  /** Data bytes filled up with zeros to whole shards. */
  function Padded(data: seq<byte>, blocksize: nat): (p: seq<byte>)
    requires blocksize > 0
    ensures |p| == Times(CeilDiv(|data|, blocksize), blocksize)
  {
    CeilDivIs(|data|, blocksize);
    TimesIs(CeilDiv(|data|, blocksize), blocksize);
    data + Zeros(Times(CeilDiv(|data|, blocksize), blocksize) - |data|)
  }

  function ParityBytes(rs: ReedSolomon, data: seq<byte>, blocksize: nat, n: nat): (p: seq<byte>)
    requires WellSized(rs)
    ensures |p| == Times(n, blocksize)
  {
    if n == 0 then [] else ParityBytes(rs, data, blocksize, n - 1) + rs(n - 1, data, blocksize)
  }

  /** The parity count and percentage a block ends up with, once the parity minimum is met. */
  function ParityPlan(dataShards: nat, fecPercentage: nat, minParity: nat): (nat, nat)
    requires dataShards > 0
  {
    var parity := ParityShards(dataShards, fecPercentage);
    if parity < minParity && fecPercentage != 0 then (minParity, (100 * minParity) / dataShards)
    else (parity, fecPercentage)
  }

  method Encode(payload: array<byte>, view: View, blocksize: nat, fecpercentage: nat, minparityshards: nat, prefixsize: nat, rs: ReedSolomon)
    returns (f: Fec)
    requires view.lo < view.hi <= payload.Length && blocksize > 0 && WellSized(rs)
    requires var d := CeilDiv(view.hi - view.lo, blocksize);
             fecpercentage != 0 ==> d + ParityPlan(d, fecpercentage, minparityshards).0 <= DATA_SHARDS_MAX
    ensures f.Valid() && f.payload == payload && fresh(f.shards)
    ensures f.blocksize == blocksize && f.prefixsize == prefixsize
    ensures f.inPlace.lo == view.lo && f.inPlace.hi <= view.hi
    ensures f.dataShards == CeilDiv(view.hi - view.lo, blocksize)
    ensures (f.nrShards - f.dataShards, f.percentage) == ParityPlan(f.dataShards, fecpercentage, minparityshards)
    // the two buffers hold the zero-padded block followed by its parity
    ensures var data := Padded(payload[view.lo..view.hi], blocksize);
            f.Wire() == data + ParityBytes(rs, data, blocksize, f.nrShards - f.dataShards)
  {
    hide Times, CeilDiv, Padded, ParityBytes, Zeros;
    var alignedDataShards, whole, dataShards := CountShards(view.hi - view.lo, blocksize);
    var parityShards, percentage := CountParity(dataShards, fecpercentage, minparityshards);
    ghost var block := payload[view.lo..view.hi];
    PaddedParts(block, blocksize, alignedDataShards, whole);
    SliceOfPart(payload[..], view.lo, view.hi, 0, whole);
    SliceOfPart(payload[..], view.lo, view.hi, whole, |block|);
    assert payload[..][view.lo..view.hi] == block && payload[..][view.lo..view.lo + whole] == payload[view.lo..view.lo + whole];
    assert payload[..][view.lo + whole..view.hi] == payload[view.lo + whole..view.hi] && block[0..whole] == block[..whole] && block[whole..|block|] == block[whole..];
    f := FillShards(payload, view, View(view.lo, view.lo + whole), blocksize, alignedDataShards, dataShards, parityShards,
                    percentage, prefixsize, rs, Padded(block, blocksize));
  }

  method CountShards(payloadSize: nat, blocksize: nat) returns (alignedDataShards: nat, whole: nat, dataShards: nat)
    requires payloadSize > 0 && blocksize > 0
    ensures dataShards == CeilDiv(payloadSize, blocksize) > 0
    ensures whole == Times(alignedDataShards, blocksize) && 0 <= payloadSize - whole < blocksize
    ensures dataShards == alignedDataShards + (if payloadSize != whole then 1 else 0)
  {
    hide Times, CeilDiv;
    var pad := payloadSize % blocksize != 0;
    alignedDataShards := payloadSize / blocksize;
    dataShards := alignedDataShards + (if pad then 1 else 0);
    whole := Times(alignedDataShards, blocksize);
    TimesIs(alignedDataShards, blocksize);
    CeilDivComputed(payloadSize, blocksize);
  }

  method CountParity(dataShards: nat, fecpercentage: nat, minparityshards: nat) returns (parityShards: nat, percentage: nat)
    requires dataShards > 0
    ensures (parityShards, percentage) == ParityPlan(dataShards, fecpercentage, minparityshards)
    ensures percentage == 0 ==> parityShards == 0
  {
    parityShards := (dataShards * fecpercentage + 99) / 100;
    percentage := fecpercentage;

    if parityShards < minparityshards && percentage != 0 {
      parityShards := minparityshards;
      percentage := (100 * parityShards) / dataShards;
    }
    BumpKeepsFecOn(dataShards, fecpercentage, minparityshards);
  }

  /** Lays the block's shards out over the frame and a new buffer and fills the buffer in. */
  method FillShards(payload: array<byte>, view: View, inPlace: View, blocksize: nat, alignedDataShards: nat, dataShards: nat,
                    parityShards: nat, percentage: nat, prefixsize: nat, rs: ReedSolomon, ghost data: seq<byte>)
    returns (f: Fec)
    requires WellSized(rs) && blocksize > 0 && (percentage == 0 ==> parityShards == 0)
    requires view.lo == inPlace.lo <= inPlace.hi <= view.hi <= payload.Length
    requires inPlace.hi == view.lo + Times(alignedDataShards, blocksize)
    requires view.hi - inPlace.hi <= blocksize
    requires dataShards == alignedDataShards + (if view.hi != inPlace.hi then 1 else 0)
    requires view.hi == inPlace.hi ==> data == payload[inPlace.lo..inPlace.hi]
    requires view.hi != inPlace.hi ==> data == payload[inPlace.lo..inPlace.hi] + payload[inPlace.hi..view.hi] + Zeros(blocksize - (view.hi - inPlace.hi))
    ensures f.Valid() && f.payload == payload && fresh(f.shards)
    ensures f.blocksize == blocksize && f.prefixsize == prefixsize && f.percentage == percentage && f.inPlace == inPlace
    ensures f.dataShards == dataShards && f.nrShards == dataShards + parityShards
    ensures f.Wire() == data + ParityBytes(rs, data, blocksize, parityShards)
  {
    var pad := view.hi != inPlace.hi;
    var parityShardOffset := if pad then 1 else 0;
    var parityAt := Times(parityShardOffset, blocksize);
    TimesAdd(parityShardOffset, parityShards, blocksize);
    var shards := new byte[Times(parityShardOffset + parityShards, blocksize)];
    var dataP := PlaceDataShards(payload, view, inPlace, blocksize, alignedDataShards, pad, shards, data);
    var parityP := AddParity(payload, inPlace, shards, parityShardOffset, parityAt, parityShards, percentage, blocksize, rs, data);
    f := Fec(dataShards, dataShards + parityShards, percentage, blocksize, prefixsize, payload, shards, dataP + parityP, inPlace);
    LayoutValid(f, alignedDataShards, parityShardOffset, parityShards);
  }

  lemma JoinWire(inPlace: seq<byte>, shards: seq<byte>, at: nat, data: seq<byte>, parity: seq<byte>)
    requires at <= |shards| && inPlace + shards[..at] == data && shards[at..] == parity
    ensures inPlace + shards == data + parity
  {
    assert shards == shards[..at] + shards[at..];
  }

  method PlaceDataShards(payload: array<byte>, view: View, inPlace: View, blocksize: nat, alignedDataShards: nat, pad: bool,
                         shards: array<byte>, ghost data: seq<byte>)
    returns (shardsP: seq<ShardPtr>)
    requires view.lo == inPlace.lo <= inPlace.hi <= view.hi <= payload.Length && payload != shards
    requires inPlace.hi == view.lo + Times(alignedDataShards, blocksize)
    requires if pad then view.hi - inPlace.hi <= blocksize <= shards.Length else view.hi == inPlace.hi
    requires !pad ==> data == payload[inPlace.lo..inPlace.hi]
    requires pad ==> data == payload[inPlace.lo..inPlace.hi] + payload[inPlace.hi..view.hi] + Zeros(blocksize - (view.hi - inPlace.hi))
    modifies shards
    ensures shardsP == Layout(view.lo, alignedDataShards, alignedDataShards + (if pad then 1 else 0), blocksize)
    ensures payload[inPlace.lo..inPlace.hi] + shards[..if pad then blocksize else 0] == data
  {
    hide Layout;
    var next;
    next, shardsP := PointIntoPayload(view.lo, blocksize, alignedDataShards);
    if pad {
      LayoutPadded(view.lo, alignedDataShards, blocksize);
      shardsP := shardsP + [InShards(0)];
      PadLastShard(payload, next, view.hi, blocksize, shards);
    }
  }

  /** Where shard x of nr goes when the first `aligned` of them are whole shards of the frame. */
  function Layout(lo: nat, aligned: nat, nr: nat, blocksize: nat): (s: seq<ShardPtr>)
    ensures |s| == nr
  {
    seq(nr, x requires 0 <= x =>
      if x < aligned then InPayload(lo + Times(x, blocksize)) else InShards(Times(x - aligned, blocksize)))
  }

  lemma LayoutPadded(lo: nat, aligned: nat, blocksize: nat)
    ensures Layout(lo, aligned, aligned + 1, blocksize) == Layout(lo, aligned, aligned, blocksize) + [InShards(0)]
  {
    assert Times(0, blocksize) == 0;
  }

  function ParityLayout(offset: nat, parity: nat, blocksize: nat): (s: seq<ShardPtr>)
    ensures |s| == parity
  {
    seq(parity, x requires 0 <= x => InShards(Times(offset + x, blocksize)))
  }

  lemma LayoutValid(f: Fec, aligned: nat, offset: nat, parity: nat)
    requires f.payload != f.shards && f.inPlace.lo <= f.inPlace.hi <= f.payload.Length && f.blocksize > 0
    requires f.dataShards == aligned + offset && f.nrShards == f.dataShards + parity
    requires f.inPlace.hi - f.inPlace.lo == Times(aligned, f.blocksize)
    requires f.shards.Length == Times(offset + parity, f.blocksize)
    requires f.shardsP == Layout(f.inPlace.lo, aligned, aligned + offset, f.blocksize) + ParityLayout(offset, parity, f.blocksize)
    ensures f.Valid()
  {
    var b := f.blocksize;
    TimesAdd(aligned, offset + parity, b);
    forall x | 0 <= x < f.nrShards
      ensures f.PlaceOf(x)
    {
      if x < aligned {
        TimesMono(x, aligned, b);
      } else {
        TimesSplit(aligned, x, b);
        TimesMono(x, f.nrShards, b);
      }
    }
  }

  lemma PaddedParts(block: seq<byte>, b: nat, aligned: nat, whole: nat)
    requires b > 0 && whole == Times(aligned, b) && 0 <= |block| - whole < b
    ensures CeilDiv(|block|, b) == aligned + (if |block| != whole then 1 else 0)
    ensures |block| == whole ==> Padded(block, b) == block
    ensures |block| != whole ==> Padded(block, b) == block[..whole] + block[whole..] + Zeros(b - (|block| - whole))
  {
    CeilDivOfParts(|block|, b, aligned);
    assert block == block[..whole] + block[whole..];
  }

  lemma BumpKeepsFecOn(dataShards: nat, fecPercentage: nat, minParity: nat)
    requires dataShards > 0
    ensures ParityPlan(dataShards, fecPercentage, minParity).1 == 0 <==> fecPercentage == 0
    ensures fecPercentage == 0 ==> ParityPlan(dataShards, fecPercentage, minParity).0 == 0
  {
    if fecPercentage != 0 {
      MulMono(1, fecPercentage, dataShards);
    }
  }

  /** Pointers to the whole data shards, which stay where they are in the frame. */
  method PointIntoPayload(lo: nat, blocksize: nat, alignedDataShards: nat) returns (next: nat, shardsP: seq<ShardPtr>)
    ensures next == lo + Times(alignedDataShards, blocksize)
    ensures shardsP == Layout(lo, alignedDataShards, alignedDataShards, blocksize)
  {
    next := lo;
    shardsP := [];
    for x := 0 to alignedDataShards
      invariant next == lo + Times(x, blocksize)
      invariant shardsP == Layout(lo, alignedDataShards, x, blocksize)
    {
      shardsP := shardsP + [InPayload(next)];
      next := next + blocksize;
    }
  }

  /** The short last data shard goes to the front of the shards buffer, zero-padded. */
  method PadLastShard(payload: array<byte>, next: nat, end: nat, blocksize: nat, shards: array<byte>)
    requires next <= end <= payload.Length && end - next <= blocksize <= shards.Length && payload != shards
    modifies shards
    ensures shards[..blocksize] == payload[next..end] + Zeros(blocksize - (end - next))
  {
    var copyLen := Min(blocksize, end - next);
    CopyTo(shards, 0, payload[next..next + copyLen]);
    if copyLen < blocksize {
      CopyTo(shards, copyLen, Zeros(blocksize - copyLen));
    }
  }

  method AddParity(payload: array<byte>, inPlace: View, shards: array<byte>, parityShardOffset: nat, parityAt: nat, parityShards: nat,
                   percentage: nat, blocksize: nat, rs: ReedSolomon, ghost data: seq<byte>)
    returns (parityP: seq<ShardPtr>)
    requires WellSized(rs) && payload != shards && inPlace.lo <= inPlace.hi <= payload.Length
    requires shards.Length == parityAt + Times(parityShards, blocksize)
    requires payload[inPlace.lo..inPlace.hi] + shards[..parityAt] == data
    requires percentage == 0 ==> parityShards == 0
    modifies shards
    ensures parityP == ParityLayout(parityShardOffset, parityShards, blocksize)
    ensures payload[inPlace.lo..inPlace.hi] + shards[..] == data + ParityBytes(rs, data, blocksize, parityShards)
  {
    parityP := [];
    if percentage != 0 {
      parityP := PlaceParityShards(parityShardOffset, parityShards, blocksize);
      RsEncode(payload, inPlace, shards, parityAt, parityShards, blocksize, rs, data);
    }
    JoinWire(payload[inPlace.lo..inPlace.hi], shards[..], parityAt, data, ParityBytes(rs, data, blocksize, parityShards));
  }

  method PlaceParityShards(parityShardOffset: nat, parityShards: nat, blocksize: nat) returns (parityP: seq<ShardPtr>)
    ensures parityP == ParityLayout(parityShardOffset, parityShards, blocksize)
  {
    parityP := [];
    for x := 0 to parityShards
      invariant parityP == ParityLayout(parityShardOffset, x, blocksize)
    {
      parityP := parityP + [InShards(Times(parityShardOffset + x, blocksize))];
    }
  }

  /** reed_solomon_encode: reads the data shards and writes the parity slots only. */
  method RsEncode(payload: array<byte>, inPlace: View, shards: array<byte>, parityAt: nat, parityShards: nat, blocksize: nat,
                  rs: ReedSolomon, ghost data: seq<byte>)
    requires WellSized(rs) && payload != shards && inPlace.lo <= inPlace.hi <= payload.Length
    requires shards.Length == parityAt + Times(parityShards, blocksize)
    requires payload[inPlace.lo..inPlace.hi] + shards[..parityAt] == data
    modifies shards
    ensures shards[..parityAt] == old(shards[..parityAt])
    ensures shards[parityAt..] == ParityBytes(rs, data, blocksize, parityShards)
  {
    var dataBytes := payload[inPlace.lo..inPlace.hi] + shards[..parityAt];
    ghost var head := shards[..parityAt];
    var i, at := 0, parityAt;
    while i < parityShards
      invariant i <= parityShards && at <= shards.Length
      invariant at == parityAt + Times(i, blocksize)
      invariant shards[..at] == head + ParityBytes(rs, dataBytes, blocksize, i)
    {
      TimesMono(i + 1, parityShards, blocksize);
      var slot := rs(i, dataBytes, blocksize);
      OverwritePrefix(shards[..], at, slot);
      Assoc(head, ParityBytes(rs, dataBytes, blocksize, i), slot);
      CopyTo(shards, at, slot);
      at := at + blocksize;
      i := i + 1;
    }
    assert shards[..] == shards[..at];
  }

  /** A receiver that puts the announced percentage into the parity formula gets the parity count that was sent,
      exactly when the division that raised the percentage lost less than 100. */
  lemma AnnouncedParity(dataShards: nat, fecPercentage: nat, minParity: nat)
    requires dataShards > 0
    ensures var (parity, percentage) := ParityPlan(dataShards, fecPercentage, minParity);
            var raised := ParityShards(dataShards, fecPercentage) < minParity && fecPercentage != 0;
            && (ParityShards(dataShards, percentage) == parity <==> !raised || (100 * minParity) % dataShards < 100)
            && (dataShards <= 100 ==> ParityShards(dataShards, percentage) == parity)
            // it is the larger of the percentage rounded up and the minimum; a raised percentage is rounded down
            && 100 * parity >= dataShards * fecPercentage && (fecPercentage != 0 ==> parity >= minParity)
            && (100 * (parity - 1) < dataShards * fecPercentage || (fecPercentage != 0 && parity == minParity))
            && (raised ==> percentage * dataShards <= 100 * minParity < (percentage + 1) * dataShards)
            && (!raised ==> percentage == fecPercentage)
  {
    var p := (100 * minParity) / dataShards;
    assert dataShards * p == 100 * minParity - (100 * minParity) % dataShards;
  }

  /** The percentage announced for 200 data shards and a minimum of 3 parity shards stands for 2 of them. */
  lemma AnnouncedParityCanDiffer()
    ensures ParityPlan(200, 1, 3) == (3, 1) && ParityShards(200, 1) == 2
  {
  }
}
