/** concat_and_insert: room for a packet header in front of every slice of a frame. */
module PacketGaps {
  import opened Bytes

  /** The data with a gap of zeros in front of every slice of it; the last slice may be short. */
  function Interleaved(data: seq<byte>, gap: nat, slice: nat): seq<byte>
    requires slice > 0
  {
    if data == [] then []
    else
      var n := Min(slice, |data|);
      Zeros(gap) + data[..n] + Interleaved(data[n..], gap, slice)
  }

  lemma {:induction false} InterleavedLength(data: seq<byte>, gap: nat, slice: nat)
    requires slice > 0
    ensures |Interleaved(data, gap, slice)| == Times(CeilDiv(|data|, slice), gap) + |data|
  {
    if |data| > slice {
      InterleavedLength(data[slice..], gap, slice);
    } else if data != [] {
      assert Interleaved(data[|data|..], gap, slice) == [];
    }
  }

  lemma {:induction false} InterleavedWhole(data: seq<byte>, gap: nat, slice: nat, x: nat)
    requires slice > 0 && |data| == Times(x, slice)
    ensures |Interleaved(data, gap, slice)| == Times(x, gap + slice)
  {
    if x > 0 {
      InterleavedWhole(data[slice..], gap, slice, x - 1);
    }
  }

  lemma InterleavedUnfold(head: seq<byte>, tail: seq<byte>, gap: nat, slice: nat)
    requires slice > 0 && (|head| == slice || (0 < |head| <= slice && tail == []))
    ensures Interleaved(head + tail, gap, slice) == Zeros(gap) + head + Interleaved(tail, gap, slice)
  {
    assert (head + tail)[..|head|] == head && (head + tail)[|head|..] == tail;
  }

  /** One more slice behind whole slices is one more gap and that slice. */
  lemma {:induction false} InterleavedAppend(data: seq<byte>, chunk: seq<byte>, gap: nat, slice: nat, x: nat)
    requires slice > 0 && |data| == Times(x, slice) && 0 < |chunk| <= slice
    ensures Interleaved(data + chunk, gap, slice) == Interleaved(data, gap, slice) + Zeros(gap) + chunk
  {
    if x == 0 {
      Neutral(chunk);
      InterleavedUnfold(chunk, [], gap, slice);
      Neutral(Zeros(gap) + chunk);
      Neutral(Zeros(gap));
    } else {
      var head, tail := data[..slice], data[slice..];
      assert data == head + tail;
      Assoc(head, tail, chunk);
      InterleavedUnfold(head, tail + chunk, gap, slice);
      InterleavedUnfold(head, tail, gap, slice);
      InterleavedAppend(tail, chunk, gap, slice, x - 1);
      var rest := Interleaved(tail, gap, slice);
      Assoc(Zeros(gap) + head, rest + Zeros(gap), chunk);
      Assoc(Zeros(gap) + head, rest, Zeros(gap));
    }
  }

  /** A buffer that holds `done` and zeros behind it. */
  ghost predicate ZeroFrom(s: seq<byte>, done: seq<byte>) {
    |done| <= |s| && s == done + Zeros(|s| - |done|)
  }

  lemma WriteIntoZeros(s: seq<byte>, done: seq<byte>, gap: nat, chunk: seq<byte>)
    requires ZeroFrom(s, done) && |done| + gap + |chunk| <= |s|
    ensures ZeroFrom(Overwrite(s, |done| + gap, chunk), done + Zeros(gap) + chunk)
  {
    var rest := |s| - |done| - gap - |chunk|;
    var zg, zc, zr := Zeros(gap), Zeros(|chunk|), Zeros(rest);
    ZerosSplit(gap + |chunk|, rest);
    ZerosSplit(gap, |chunk|);
    Assoc(done, zg + zc, zr);
    Assoc(done, zg, zc);
    OverwriteMiddle(done + zg, zc, zr, chunk);
  }

  /** Room for one more slice behind `consumed` whole slices. */
  lemma RoomForSlice(size: nat, gap: nat, slice: nat, consumed: nat, n: nat)
    requires slice > 0 && consumed + n <= size
    ensures Times(CeilDiv(consumed + n, slice), gap) + consumed + n <= Times(CeilDiv(size, slice), gap) + size
  {
    CeilDivMono(consumed + n, size, slice);
    TimesMono(CeilDiv(consumed + n, slice), CeilDiv(size, slice), gap);
  }

  lemma NextSlice(data: seq<byte>, gap: nat, slice: nat, x: nat, consumed: nat, n: nat)
    requires slice > 0 && consumed == Times(x, slice) && 0 < n <= slice && consumed + n <= |data|
    ensures var done := Interleaved(data[..consumed], gap, slice);
            && |done| == Times(x, gap + slice)
            && Interleaved(data[..consumed + n], gap, slice) == done + Zeros(gap) + data[consumed..consumed + n]
            && |done| + gap + n <= Times(CeilDiv(|data|, slice), gap) + |data|
  {
    InterleavedWhole(data[..consumed], gap, slice, x);
    assert data[..consumed + n] == data[..consumed] + data[consumed..consumed + n];
    InterleavedAppend(data[..consumed], data[consumed..consumed + n], gap, slice, x);
    InterleavedLength(data[..consumed + n], gap, slice);
    RoomForSlice(|data|, gap, slice, consumed, n);
  }

  /** Both data buffers end up in one buffer, slice by slice, each behind `insert` zero bytes. */
  method ConcatAndInsert(insert: nat, slice: nat, data1: seq<byte>, data2: seq<byte>) returns (result: array<byte>)
    requires slice > 0
    ensures fresh(result)
    ensures result[..] == Interleaved(data1 + data2, insert, slice)
  {
    var dataSize := |data1| + |data2|;
    var pad := dataSize % slice != 0;
    var elements := dataSize / slice + (if pad then 1 else 0);
    CeilDivComputed(dataSize, slice);
    TimesIs(elements, insert);

    result := new byte[elements * insert + dataSize](_ => 0);
    AllZeros(result[..]);
    FillSlices(result, elements, insert, slice, data1, data2);
  }

  lemma {:induction false} AllZeros(s: seq<byte>)
    requires forall i :: 0 <= i < |s| ==> s[i] == 0
    ensures s == Zeros(|s|)
  {
    if s != [] {
      AllZeros(s[1..]);
    }
  }

  method FillSlices(result: array<byte>, elements: nat, insert: nat, slice: nat, data1: seq<byte>, data2: seq<byte>)
    requires slice > 0 && elements == CeilDiv(|data1| + |data2|, slice)
    requires result.Length == Times(elements, insert) + |data1| + |data2| && result[..] == Zeros(result.Length)
    modifies result
    ensures result[..] == Interleaved(data1 + data2, insert, slice)
  {
    hide Progress;
    ghost var data := data1 + data2;
    ghost var consumed: nat := 0;
    var next := 0;
    var buffer := data1;
    var sliceSize := slice;
    ProgressStart(result[..], data, insert, slice, elements);
    for x: nat := 0 to elements
      invariant x < elements ==> sliceSize == slice
      invariant Progress(result[..], data, insert, slice, elements, x, consumed)
      invariant ReadUpTo(data1, data2, buffer, next, consumed)
    {
      var p := Times(x, insert + slice);
      if x == elements - 1 {
        SliceBounds(|data|, slice, x);
        sliceSize := |data1| + |data2| - Times(x, slice);
      }
      ghost var chunk;
      chunk, consumed := ProgressStep(result[..], data, insert, slice, elements, x, consumed, p + insert, sliceSize);
      buffer, next := CopySlice(result, p + insert, sliceSize, data1, data2, buffer, next, consumed - sliceSize, chunk);
    }
    ProgressDone(result[..], data, insert, slice, elements, consumed);
  }

  /** After x slices, the first `consumed` bytes are interleaved in the buffer and zeros follow. */
  ghost predicate Progress(s: seq<byte>, data: seq<byte>, gap: nat, slice: nat, elements: nat, x: nat, consumed: nat)
    requires slice > 0
  {
    && elements == CeilDiv(|data|, slice) && |s| == Times(elements, gap) + |data|
    && consumed == (if x < elements then Times(x, slice) else |data|) <= |data|
    && ZeroFrom(s, Interleaved(data[..consumed], gap, slice))
  }

  lemma ProgressStart(s: seq<byte>, data: seq<byte>, gap: nat, slice: nat, elements: nat)
    requires slice > 0 && elements == CeilDiv(|data|, slice) && |s| == Times(elements, gap) + |data|
    requires s == Zeros(|s|)
    ensures Progress(s, data, gap, slice, elements, 0, 0)
  {
    Neutral(s);
  }

  lemma ProgressStep(s: seq<byte>, data: seq<byte>, gap: nat, slice: nat, elements: nat, x: nat, consumed: nat, at: nat, n: nat)
    returns (chunk: seq<byte>, consumed': nat)
    requires slice > 0 && x < elements && Progress(s, data, gap, slice, elements, x, consumed)
    requires n == if x == elements - 1 then |data| - Times(x, slice) else slice
    requires at == Times(x, gap + slice) + gap
    ensures consumed' == consumed + n <= |data| && chunk == data[consumed..consumed']
    ensures at + n <= |s|
    ensures Progress(Overwrite(s, at, chunk), data, gap, slice, elements, x + 1, consumed')
  {
    hide ZeroFrom, Interleaved, Zeros, CeilDiv, Overwrite;
    SliceBounds(|data|, slice, x);
    consumed' := consumed + n;
    chunk := data[consumed..consumed'];
    NextSlice(data, gap, slice, x, consumed, n);
    WriteIntoZeros(s, Interleaved(data[..consumed], gap, slice), gap, chunk);
  }

  lemma ProgressDone(s: seq<byte>, data: seq<byte>, gap: nat, slice: nat, elements: nat, consumed: nat)
    requires slice > 0 && Progress(s, data, gap, slice, elements, elements, consumed)
    ensures s == Interleaved(data, gap, slice)
  {
    assert data[..consumed] == data;
    InterleavedLength(data, gap, slice);
    Neutral(Interleaved(data, gap, slice));
  }

  lemma SliceBounds(n: nat, slice: nat, x: nat)
    requires slice > 0 && x < CeilDiv(n, slice)
    ensures Times(x + 1, slice) == Times(x, slice) + slice
    ensures Times(x, slice) < n
    ensures x + 1 < CeilDiv(n, slice) ==> Times(x + 1, slice) < n
    ensures x + 1 == CeilDiv(n, slice) ==> n <= Times(x + 1, slice)
  {
    CeilDivIs(n, slice);
    TimesIs(CeilDiv(n, slice), slice);
    TimesMono(x + 1, CeilDiv(n, slice), slice);
    if x + 1 < CeilDiv(n, slice) {
      TimesMono(x + 1, CeilDiv(n, slice) - 1, slice);
      TimesMono(CeilDiv(n, slice) - 1, CeilDiv(n, slice), slice);
    }
  }

  /** `next` in `buffer` is position `consumed` of data1 followed by data2. */
  ghost predicate ReadUpTo(data1: seq<byte>, data2: seq<byte>, buffer: seq<byte>, next: nat, consumed: nat) {
    && next <= |buffer|
    && ((buffer == data1 && next == consumed) || (buffer == data2 && |data1| + next == consumed))
  }

  /** Copies the next n bytes of data1 followed by data2, moving on to data2 when this slice extends into it. */
  method CopySlice(dst: array<byte>, at: nat, n: nat, data1: seq<byte>, data2: seq<byte>, buffer: seq<byte>, next: nat,
                   ghost from: nat, ghost chunk: seq<byte>)
    returns (buffer': seq<byte>, next': nat)
    requires ReadUpTo(data1, data2, buffer, next, from)
    requires from + n <= |data1| + |data2| && at + n <= dst.Length
    requires chunk == (data1 + data2)[from..from + n]
    modifies dst
    ensures dst[..] == Overwrite(old(dst[..]), at, chunk)
    ensures ReadUpTo(data1, data2, buffer', next', from + n)
  {
    if next + n > |buffer| {
      var copyLen := |buffer| - next;
      ghost var s := dst[..];
      CopyTo(dst, at, buffer[next..]);
      CopyTo(dst, at + copyLen, data2[..n - copyLen]);
      OverwriteTwice(s, at, buffer[next..], data2[..n - copyLen]);
      assert buffer[next..] + data2[..n - copyLen] == (data1 + data2)[from..from + n];
      buffer', next' := data2, n - copyLen;
    } else {
      CopyTo(dst, at, buffer[next..next + n]);
      assert buffer[next..next + n] == (data1 + data2)[from..from + n];
      buffer', next' := buffer, next + n;
    }
  }
}
