/** How a packetized frame is split into at most four FEC blocks. */
module FecSplit {
  import opened Bytes

  const DATA_SHARDS_MAX := 255
  const MAX_FEC_BLOCKS := 4

  /** A std::string_view into the frame: bytes lo..hi. */
  datatype View = View(lo: nat, hi: nat)

  function MaxDataShards(fecPercentage: nat): nat {
    (DATA_SHARDS_MAX * 100) / (100 + fecPercentage)
  }

  function ParityShards(dataShards: nat, fecPercentage: nat): nat {
    (dataShards * fecPercentage + 99) / 100
  }

  /** The views cut 0..size into consecutive non-empty pieces. */
  ghost predicate Tiles(blocks: seq<View>, size: nat) {
    && |blocks| > 0
    && blocks[0].lo == 0 && blocks[|blocks| - 1].hi == size
    && (forall i :: 0 <= i < |blocks| ==> blocks[i].lo < blocks[i].hi)
    && (forall i :: 0 <= i < |blocks| - 1 ==> blocks[i].hi == blocks[i + 1].lo)
  }

  /** Every block starts on a packet boundary. */
  ghost predicate Aligned(blocks: seq<View>, blocksize: nat)
    requires blocksize > 0
  {
    forall i :: 0 <= i < |blocks| ==> blocks[i].lo % blocksize == 0
  }

  /** payload.substr(at, n), which throws when `at` is past the end. */
  method Substr(size: nat, at: nat, n: nat) returns (v: View)
    requires at <= size
    ensures v.lo == at && v.hi == Min(at + n, size)
  {
    v := View(at, Min(at + n, size));
  }

  /** The number of bytes one FEC block may carry while FEC is on. */
  function BlockCapacity(fecPercentage: nat, blocksize: nat): nat {
    MaxDataShards(fecPercentage) * blocksize
  }

  method SplitBlocks(size: nat, blocksize: nat, fecPercentage: nat) returns (blocks: seq<View>, fec: nat)
    requires size > 0 && blocksize > 0
    requires 1 <= fecPercentage <= 255
    ensures Tiles(blocks, size) && Aligned(blocks, blocksize)
    ensures |blocks| <= 4
    // FEC is turned off for exactly the frames that four full blocks cannot hold
    ensures fec == if size <= 4 * BlockCapacity(fecPercentage, blocksize) then fecPercentage else 0
    // all but the last are the same size, that of a share rounded up to whole packets
    ensures forall i :: 0 <= i < |blocks| - 1 ==> size / |blocks| <= blocks[i].hi - blocks[i].lo < size / |blocks| + blocksize
    // no fewer blocks would do
    ensures size > (|blocks| - 1) * BlockCapacity(fecPercentage, blocksize)
    // data shards of every block stay within the limit that leaves room for parity
    ensures fec != 0 && blocksize >= 3 ==>
      forall i :: 0 <= i < |blocks| ==> blocks[i].hi - blocks[i].lo <= BlockCapacity(fecPercentage, blocksize)
  {
    var fecBlocksNeeded, alignedSize;
    fec, fecBlocksNeeded, alignedSize := PlanBlocks(size, blocksize, fecPercentage);
    blocks := CutBlocks(size, fecBlocksNeeded, alignedSize, blocksize);
  }

  method PlanBlocks(size: nat, blocksize: nat, fecPercentage: nat) returns (fec: nat, fecBlocksNeeded: nat, alignedSize: nat)
    requires size > 0 && blocksize > 0
    requires 1 <= fecPercentage <= 255
    ensures 1 <= fecBlocksNeeded <= MAX_FEC_BLOCKS && alignedSize % blocksize == 0
    ensures fec == if size <= MAX_FEC_BLOCKS * BlockCapacity(fecPercentage, blocksize) then fecPercentage else 0
    ensures size > (fecBlocksNeeded - 1) * BlockCapacity(fecPercentage, blocksize)
    ensures (fecBlocksNeeded - 1) * alignedSize < size && (fecBlocksNeeded > 1 ==> 0 < alignedSize)
    ensures size / fecBlocksNeeded <= alignedSize < size / fecBlocksNeeded + blocksize
    ensures fec != 0 && blocksize >= 3 ==>
      && (fecBlocksNeeded > 1 ==> alignedSize <= BlockCapacity(fecPercentage, blocksize))
      && size - (fecBlocksNeeded - 1) * alignedSize <= BlockCapacity(fecPercentage, blocksize)
  {
    fec := fecPercentage;
    var maxDataShardsPerFecBlock := (DATA_SHARDS_MAX * 100) / (100 + fec);
    var maxDataPerFecBlock: nat := maxDataShardsPerFecBlock * blocksize;
    MulMono(71, maxDataShardsPerFecBlock, blocksize);
    fecBlocksNeeded := BlocksNeeded(size, maxDataPerFecBlock);

    if fecBlocksNeeded > MAX_FEC_BLOCKS {
      fec := 0;
      fecBlocksNeeded := MAX_FEC_BLOCKS;
    }

    alignedSize := AlignedSize(size, fecBlocksNeeded, blocksize);
    CeilDivIs(size / fecBlocksNeeded, blocksize);
    LastBlockFits(size, fecBlocksNeeded, blocksize, maxDataShardsPerFecBlock, alignedSize);
  }

  method CutBlocks(size: nat, fecBlocksNeeded: nat, alignedSize: nat, blocksize: nat) returns (blocks: seq<View>)
    requires 1 <= fecBlocksNeeded <= MAX_FEC_BLOCKS && blocksize > 0 && alignedSize % blocksize == 0
    requires (fecBlocksNeeded - 1) * alignedSize < size && (fecBlocksNeeded > 1 ==> 0 < alignedSize)
    ensures |blocks| == fecBlocksNeeded && Tiles(blocks, size) && Aligned(blocks, blocksize)
    ensures forall i :: 0 <= i < |blocks| - 1 ==> blocks[i].hi - blocks[i].lo == alignedSize
    ensures blocks[|blocks| - 1].lo == (fecBlocksNeeded - 1) * alignedSize
  {
    blocks := [];
    for x: nat := 0 to fecBlocksNeeded
      invariant blocks == Cuts(size, fecBlocksNeeded, alignedSize)[..x]
    {
      var v;
      MulMono(x, fecBlocksNeeded - 1, alignedSize);
      if x == fecBlocksNeeded - 1 {
        v := Substr(size, x * alignedSize, size);
      } else {
        MulMono(x + 1, fecBlocksNeeded - 1, alignedSize);
        v := Substr(size, x * alignedSize, alignedSize);
      }
      blocks := blocks + [v];
    }
    CutsTile(size, fecBlocksNeeded, alignedSize, blocksize);
  }

  ghost function Cuts(size: nat, k: nat, aligned: nat): (s: seq<View>)
    requires k > 0 && (k - 1) * aligned < size
    ensures |s| == k
  {
    seq(k, i requires 0 <= i < k =>
      MulMono(i, k - 1, aligned);
      MulMono(0, i, aligned);
      View(i * aligned, if i == k - 1 then size else i * aligned + aligned))
  }

  lemma CutsTile(size: nat, k: nat, aligned: nat, blocksize: nat)
    requires 1 <= k <= MAX_FEC_BLOCKS && blocksize > 0 && aligned % blocksize == 0
    requires (k - 1) * aligned < size && (k > 1 ==> 0 < aligned)
    ensures Tiles(Cuts(size, k, aligned), size)
    ensures Aligned(Cuts(size, k, aligned), blocksize)
  {
    forall i | 0 <= i < k
      ensures Cuts(size, k, aligned)[i].lo % blocksize == 0
    {
      MultipleOf(i, aligned, blocksize);
    }
    forall i | 0 <= i < k - 1
      ensures Cuts(size, k, aligned)[i].hi == Cuts(size, k, aligned)[i + 1].lo
    {
      assert (i + 1) * aligned == i * aligned + aligned;
    }
  }

  method BlocksNeeded(size: nat, maxDataPerFecBlock: nat) returns (k: nat)
    requires size > 0 && maxDataPerFecBlock > 0
    ensures k >= 1 && (k - 1) * maxDataPerFecBlock < size <= k * maxDataPerFecBlock
    ensures k > MAX_FEC_BLOCKS <==> size > MAX_FEC_BLOCKS * maxDataPerFecBlock
  {
    CeilDivComputed(size, maxDataPerFecBlock);
    CeilDivIs(size, maxDataPerFecBlock);
    k := (size + (maxDataPerFecBlock - 1)) / maxDataPerFecBlock;
    if k > MAX_FEC_BLOCKS {
      MulMono(MAX_FEC_BLOCKS, k - 1, maxDataPerFecBlock);
    } else {
      MulMono(k, MAX_FEC_BLOCKS, maxDataPerFecBlock);
    }
  }

  method AlignedSize(size: nat, k: nat, blocksize: nat) returns (alignedSize: nat)
    requires k > 0 && blocksize > 0
    ensures alignedSize == CeilDiv(size / k, blocksize) * blocksize && alignedSize % blocksize == 0
  {
    var unalignedSize := size / k;
    CeilDivComputed(unalignedSize, blocksize);
    alignedSize := ((unalignedSize + (blocksize - 1)) / blocksize) * blocksize;
    QuotientIs(alignedSize, blocksize, CeilDiv(unalignedSize, blocksize));
  }

  lemma MultipleOf(i: nat, m: nat, b: nat)
    requires b > 0 && m % b == 0
    ensures (i * m) % b == 0
  {
    var n := m / b;
    assert i * m == i * (n * b) == (i * n) * b;
    QuotientIs(i * m, b, i * n);
  }

  /** Blocks of the aligned size leave something for the last block, and not more than a full block. */
  lemma LastBlockFits(size: nat, k: nat, b: nat, d: nat, aligned: nat)
    requires b > 0 && 1 <= k <= MAX_FEC_BLOCKS && d >= 71
    requires aligned == CeilDiv(size / k, b) * b
    requires size > (k - 1) * (d * b)
    ensures (k - 1) * aligned < size && (k > 1 ==> 0 < aligned)
    ensures size <= k * (d * b) ==> aligned <= d * b
    ensures size <= k * (d * b) && b >= 3 ==> size - (k - 1) * aligned <= d * b
  {
    var q, m := size / k, CeilDiv(size / k, b);
    CeilDivIs(q, b);
    MulMono(71, d, b);
    if m < d {
      MulMono(m, d - 1, b);
      assert (d - 1) * b == d * b - b;
    }
    SplitArithmetic(size, k, q, b, d * b, aligned);
    if size <= k * (d * b) {
      QuotientAtMost(size, k, q, d * b);
    }
  }

  lemma QuotientAtMost(size: nat, k: nat, q: nat, full: nat)
    requires 1 <= k && q == size / k && size <= k * full
    ensures q <= full
  {
    if full < q {
      MulMono(full + 1, q, k);
    }
  }

  lemma SplitArithmetic(size: nat, k: nat, q: nat, b: nat, full: nat, aligned: nat)
    requires 1 <= k <= MAX_FEC_BLOCKS && b > 0 && full >= 71 * b
    requires q == size / k && q <= aligned < q + b
    requires size > (k - 1) * full
    requires aligned >= full || aligned <= full - b
    ensures (k - 1) * aligned < size && (k > 1 ==> 0 < aligned)
    ensures size <= k * full && b >= 3 && aligned <= full ==> size - (k - 1) * aligned <= full
  {
    if k == 1 {
    } else if k == 2 {
    } else if k == 3 {
    } else {
      assert k == 4;
    }
  }

  /** The limit is the largest number of data shards that fit into 255 with their parity, which is the percentage rounded up. */
  lemma ShardLimit(dataShards: nat, fecPercentage: nat)
    ensures dataShards <= MaxDataShards(fecPercentage) <==> dataShards + ParityShards(dataShards, fecPercentage) <= 255
    ensures var parity := ParityShards(dataShards, fecPercentage);
            100 * (parity - 1) < dataShards * fecPercentage <= 100 * parity
  {
    var f := 100 + fecPercentage;
    var m := MaxDataShards(fecPercentage);
    assert m * f <= 25500 < m * f + f;
    assert dataShards * f == dataShards * 100 + dataShards * fecPercentage;
    if dataShards <= m {
      MulMono(dataShards, m, f);
    } else {
      MulMono(m + 1, dataShards, f);
      assert (m + 1) * f == m * f + f;
    }
  }

  /** Data plus parity never exceed what one Reed-Solomon block can hold. */
  lemma ParityFits(dataShards: nat, fecPercentage: nat, minParity: nat)
    requires dataShards <= MaxDataShards(fecPercentage)
    requires minParity <= DATA_SHARDS_MAX - MaxDataShards(fecPercentage)
    ensures dataShards + Max(ParityShards(dataShards, fecPercentage), minParity) <= DATA_SHARDS_MAX
  {
    var f := 100 + fecPercentage;
    assert MaxDataShards(fecPercentage) * f <= DATA_SHARDS_MAX * 100;
    MulMono(dataShards, MaxDataShards(fecPercentage), f);
    assert dataShards * f == dataShards * 100 + dataShards * fecPercentage;
  }

  /** That holds for all blocks within the limit exactly when the minimum leaves room beside a full one. */
  lemma ParityFitsExactly(fecPercentage: nat, minParity: nat)
    requires 1 <= fecPercentage <= 255
    ensures (forall d: nat :: 0 < d <= MaxDataShards(fecPercentage) ==> d + Max(ParityShards(d, fecPercentage), minParity) <= DATA_SHARDS_MAX)
            <==> minParity <= DATA_SHARDS_MAX - MaxDataShards(fecPercentage)
  {
    hide MaxDataShards, ParityShards;
    MaxDataShardsBounds(fecPercentage);
    var most: nat := MaxDataShards(fecPercentage);
    if minParity <= DATA_SHARDS_MAX - most {
      forall d: nat | 0 < d <= most
        ensures d + Max(ParityShards(d, fecPercentage), minParity) <= DATA_SHARDS_MAX
      {
        ParityFits(d, fecPercentage, minParity);
      }
    } else {
      assert most + Max(ParityShards(most, fecPercentage), minParity) > DATA_SHARDS_MAX;
    }
  }

  /** With FEC on, the last block of a payload of this size, cut into blocks of at most d packets, has at most d too. */
  ghost predicate LastFits(size: nat, b: nat, d: nat)
    requires size > 0 && b > 0 && d > 0
  {
    MulMono(1, d, b);
    CeilDivIs(size, d * b);
    var k := CeilDiv(size, d * b);
    k <= MAX_FEC_BLOCKS ==> size - (k - 1) * (CeilDiv(size / k, b) * b) <= d * b
  }

  lemma MaxDataShardsBounds(fecPercentage: nat)
    requires 1 <= fecPercentage <= 255
    ensures 71 <= MaxDataShards(fecPercentage) <= 252
  {
    var f := 100 + fecPercentage;
    var m := MaxDataShards(fecPercentage);
    assert m * f <= 25500 < m * f + f;
    if m < 71 {
      MulMono(m, 70, f);
    }
    if m > 252 {
      MulMono(253, m, f);
    }
  }

  /** The limit holds for all payloads exactly from three bytes a packet on: with one or two, rounding the size of the first three
      blocks down can leave more than a block behind. */
  lemma LastFitsExactly(b: nat, fecPercentage: nat)
    requires b > 0 && 1 <= fecPercentage <= 255
    ensures MaxDataShards(fecPercentage) > 0
    ensures (forall size: nat :: size > 0 ==> LastFits(size, b, MaxDataShards(fecPercentage))) <==> b >= 3
  {
    MaxDataShardsBounds(fecPercentage);
    var d := MaxDataShards(fecPercentage);
    hide MaxDataShards;
    if b >= 3 {
      forall size: nat | size > 0
        ensures LastFits(size, b, d)
      {
        FitsFrom3(size, b, d);
      }
    } else {
      TinyBlocksOverflow(b, d);
      assert !LastFits(if b == 1 then 4 * d - 1 else 8 * d - 5, b, d);
    }
  }

  lemma FitsFrom3(size: nat, b: nat, d: nat)
    requires size > 0 && b >= 3 && d >= 71
    ensures LastFits(size, b, d)
  {
    MulMono(1, d, b);
    CeilDivIs(size, d * b);
    var k := CeilDiv(size, d * b);
    if k <= MAX_FEC_BLOCKS {
      LastBlockFits(size, k, b, d, CeilDiv(size / k, b) * b);
    }
  }

  /** One byte short of four full blocks of one-byte packets, or five short of four of two-byte packets. */
  lemma TinyBlocksOverflow(b: nat, d: nat)
    requires 1 <= b <= 2 && d >= 71
    ensures !LastFits(if b == 1 then 4 * d - 1 else 8 * d - 5, b, d)
  {
    hide CeilDiv;
    var size := if b == 1 then 4 * d - 1 else 8 * d - 5;
    MulMono(1, d, b);
    TimesIs(4, d * b);
    CeilDivUnique(size, d * b, 4);
    TimesIs(d - 1, b);
    CeilDivUnique(size / 4, b, d - 1);
  }
}
