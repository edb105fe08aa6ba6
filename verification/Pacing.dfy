/** Leaky-bucket pacing of the video packets: about 80 percent of 1 Gbps, in bursts of one batch. */
module Pacing {
  import opened Bytes

  const NS_PER_MS := 1_000_000

  /** ratecontrol_packets_in_1ms */
  function PacketsIn1ms(blocksize: nat): nat
    requires blocksize > 0
  {
    1_000_000_000 * 80 / 100 / 1000 / blocksize / 8
  }

  /** send_batch_size: less than 64K bytes and at most 64 packets. */
  function SendBatchSize(blocksize: nat): nat
    requires blocksize > 0
  {
    Min(64, 64 * 1024 / blocksize)
  }

  /** When the packet after the first `sent` ones of a frame is due. */
  function Due(start: nat, sent: nat, rate: nat): nat
    requires rate > 0
  {
    start + NS_PER_MS * sent / rate
  }

  /** One send_batch call: when it was made, in which frame, and how many packets had gone out before it. */
  datatype Burst = Burst(time: nat, frame: nat, sentBefore: nat, count: nat)

  /** The packets through this burst never exceed what the rate allows since t0, one nanosecond of rounding a frame,
      the pacing group that may run ahead, and one batch. */
  ghost predicate WithinRate(e: Burst, t0: nat, rate: nat, batch: nat) {
    NS_PER_MS * (e.sentBefore + e.count) <= rate * (e.time - t0 + e.frame) + NS_PER_MS * (rate - 1 + batch)
  }

  /** The bursts follow one another without gap or overlap, each in its own time, and account for all n packets. */
  ghost predicate Consecutive(es: seq<Burst>, n: nat, now: nat) {
    if es == [] then n == 0
    else
      var e := es[|es| - 1];
      e.count > 0 && e.sentBefore + e.count == n && e.time <= now && Consecutive(es[..|es| - 1], e.sentBefore, e.time)
  }

  lemma ConsecutiveLater(es: seq<Burst>, n: nat, now: nat, now': nat)
    requires Consecutive(es, n, now) && now <= now'
    ensures Consecutive(es, n, now')
  {
  }

  lemma ConsecutiveNext(es: seq<Burst>, n: nat, e: Burst)
    requires Consecutive(es, n, e.time) && e.sentBefore == n && e.count > 0
    ensures Consecutive(es + [e], n + e.count, e.time)
  {
    assert (es + [e])[..|es|] == es;
  }

  /** Before a frame starts, all packets of the frames before it are paid for. */
  ghost predicate Earned(packets: nat, t0: nat, start: nat, frames: nat, rate: nat) {
    NS_PER_MS * packets <= rate * (start - t0 + frames)
  }

  lemma LaterStart(packets: nat, t0: nat, start: nat, start': nat, frames: nat, rate: nat)
    requires Earned(packets, t0, start, frames, rate) && start <= start'
    ensures Earned(packets, t0, start', frames, rate)
  {
    MulMono(start - t0 + frames, start' - t0 + frames, rate);
  }

  /** Waiting until Due pays for `sent` packets, up to one nanosecond. */
  lemma DuePays(start: nat, sent: nat, rate: nat)
    requires rate > 0
    ensures rate * (Due(start, sent, rate) - start + 1) >= NS_PER_MS * sent
  {
    var q, r := NS_PER_MS * sent / rate, NS_PER_MS * sent % rate;
    assert NS_PER_MS * sent == q * rate + r;
    assert rate * (q + 1) == q * rate + rate;
  }

  lemma FrameEnds(packets: nat, t0: nat, start: nat, frames: nat, rate: nat, sent: nat)
    requires rate > 0 && Earned(packets, t0, start, frames, rate)
    ensures Earned(packets + sent, t0, Due(start, sent, rate), frames + 1, rate)
  {
    DuePays(start, sent, rate);
    var a, b := start - t0 + frames, Due(start, sent, rate) - start + 1;
    assert rate * (a + b) == rate * a + rate * b;
  }

  /** A burst sent no sooner than the due time of the packets before its pacing group. */
  lemma BurstWithinRate(packets: nat, t0: nat, start: nat, frames: nat, rate: nat, sent: nat, group: nat, e: Burst, batch: nat)
    requires rate > 0 && Earned(packets, t0, start, frames, rate)
    requires group <= sent && group < rate && Due(start, sent - group, rate) <= e.time
    requires e.frame == frames + 1 && e.sentBefore == packets + sent && e.count <= batch
    ensures WithinRate(e, t0, rate, batch)
  {
    FrameEnds(packets, t0, start, frames, rate, sent - group);
    LaterStart(packets + (sent - group), t0, Due(start, sent - group, rate), e.time, frames + 1, rate);
  }

  /** The rate is the largest number of packets a millisecond of 0.8 Gbps holds, */
  lemma RateIsLargest(blocksize: nat, rate: nat)
    requires blocksize > 0
    ensures rate <= PacketsIn1ms(blocksize) <==> rate * 8 * blocksize <= 800_000
  {
    var q, r := 800_000 / blocksize, 800_000 % blocksize;
    assert 800_000 == q * blocksize + r;
    if rate * 8 <= q {
      MulMono(rate * 8, q, blocksize);
    } else {
      MulMono(q + 1, rate * 8, blocksize);
      assert (q + 1) * blocksize == q * blocksize + blocksize;
    }
    assert rate <= PacketsIn1ms(blocksize) <==> rate * 8 <= q;
  }

  /** so it is positive, as the pacing arithmetic needs to divide by it, up to packets of 100000 bytes. */
  lemma RateIsPositive(blocksize: nat)
    requires blocksize > 0
    ensures PacketsIn1ms(blocksize) >= 1 <==> blocksize <= 100_000
  {
    RateIsLargest(blocksize, 1);
  }

  /** A batch is the largest number of packets up to 64 that fits into 65536 bytes. */
  lemma BatchIsLargest(blocksize: nat, n: nat)
    requires blocksize > 0
    ensures n <= SendBatchSize(blocksize) <==> n <= 64 && n * blocksize <= 65536
  {
    var q, r := 65536 / blocksize, 65536 % blocksize;
    assert 65536 == q * blocksize + r;
    if n <= q {
      MulMono(n, q, blocksize);
    } else {
      MulMono(q + 1, n, blocksize);
      assert (q + 1) * blocksize == q * blocksize + blocksize;
    }
  }

  /** A packet is due when those before it have taken their share of milliseconds, rounded down. */
  lemma DueExactly(start: nat, sent: nat, rate: nat, ns: nat)
    requires rate > 0
    ensures start + ns <= Due(start, sent, rate) <==> rate * ns <= 1_000_000 * sent
  {
    var n := NS_PER_MS * sent;
    var q, r := n / rate, n % rate;
    assert n == q * rate + r;
    if ns <= q {
      MulMono(ns, q, rate);
    } else {
      MulMono(q + 1, ns, rate);
      assert (q + 1) * rate == q * rate + rate;
    }
  }
}
