/** The AES-GCM IVs under one session key, for what the host sends and for what it gets from the client, after section 8.2.1 of NIST SP 800-38D. */
module Nonces {
  import opened Bytes

  /** The k low bytes of n as they lie in memory on a little-endian host. */
  function LeBytes(n: nat, k: nat): (s: seq<byte>)
    ensures |s| == k
  {
    if k == 0 then [] else [n % 256] + LeBytes(n / 256, k - 1)
  }

  function Pow256(k: nat): (p: nat)
    ensures p > 0
  {
    if k == 0 then 1 else 256 * Pow256(k - 1)
  }

  const TWO_32 := 0x1_0000_0000
  const TWO_64 := 0x1_0000_0000_0000_0000

  const CHAR_C: byte := 0x43
  const CHAR_H: byte := 0x48
  const CHAR_R: byte := 0x52
  const CHAR_V: byte := 0x56

  /** 64-bit counter, then the fixed field 'V' in the last byte. */
  function VideoIv(counter: nat): (iv: seq<byte>)
    ensures |iv| == 12 && iv[11] == CHAR_V
  {
    LeBytes(counter, 8) + [0, 0, 0, CHAR_V]
  }

  /** 32-bit counter, then the fixed field: host originated, control stream. */
  function ControlIv(counter: nat): (iv: seq<byte>)
    ensures |iv| == 12 && iv[10] == CHAR_H && iv[11] == CHAR_C
  {
    LeBytes(counter, 4) + [0, 0, 0, 0, 0, 0, CHAR_H, CHAR_C]
  }

  /** 32-bit counter, then the fixed field: host originated, RTSP. */
  function RtspIv(counter: nat): (iv: seq<byte>)
    ensures |iv| == 12 && iv[10] == CHAR_H && iv[11] == CHAR_R
  {
    LeBytes(counter, 4) + [0, 0, 0, 0, 0, 0, CHAR_H, CHAR_R]
  }

  /** 32-bit sequence number, then the fixed field: client originated, control stream. */
  function ClientControlIv(seqno: nat): (iv: seq<byte>)
    ensures |iv| == 12 && iv[10] == CHAR_C && iv[11] == CHAR_C
  {
    LeBytes(seqno, 4) + [0, 0, 0, 0, 0, 0, CHAR_C, CHAR_C]
  }

  /** 32-bit sequence number, then the fixed field: client originated, RTSP. */
  function ClientRtspIv(seqno: nat): (iv: seq<byte>)
    ensures |iv| == 12 && iv[10] == CHAR_C && iv[11] == CHAR_R
  {
    LeBytes(seqno, 4) + [0, 0, 0, 0, 0, 0, CHAR_C, CHAR_R]
  }

  /** The IV is `width` bytes of the counter, low byte first, then zeros, then the fixed field. */
  ghost predicate LaidOut(iv: seq<byte>, counter: nat, width: nat, fixed: seq<byte>) {
    && |iv| == 12 && width + |fixed| <= 12
    && (forall j :: 0 <= j < width ==> iv[j] == counter / Pow256(j) % 256)
    && (forall j :: width <= j < 12 - |fixed| ==> iv[j] == 0)
    && iv[12 - |fixed|..] == fixed
  }

  /** A sequence number as it stands in the header of a client's message. */
  type Seq32 = n: nat | n < 0x1_0000_0000

  /** A message under the key: the host's three streams, and the client's messages with the number each one bears. */
  datatype Use = Video | Control | Rtsp | ClientControl(seqno: Seq32) | ClientRtsp(seqno: Seq32)

  function Count(run: seq<Use>, s: Use): nat {
    if run == [] then 0 else Count(run[..|run| - 1], s) + (if run[|run| - 1] == s then 1 else 0)
  }

  /** How many messages of a stream one counter tells apart; a number the client has given may not come again. */
  function Period(s: Use): nat {
    match s
    case Video => TWO_64
    case Control => TWO_32
    case Rtsp => TWO_32
    case ClientControl(_) => 1
    case ClientRtsp(_) => 1
  }

  /** The IV of message number n of a stream; the host's RTSP counter moves before it is used. */
  function IvOf(s: Use, n: nat): seq<byte> {
    match s
    case Video => VideoIv(n % TWO_64)
    case Control => ControlIv(n % TWO_32)
    case Rtsp => RtspIv((n + 1) % TWO_32)
    case ClientControl(seqno) => ClientControlIv(seqno)
    case ClientRtsp(seqno) => ClientRtspIv(seqno)
  }

  /** The IV of the next message of stream s, after the messages of `run` in whatever order they were sent. */
  function NextIv(run: seq<Use>, s: Use): seq<byte> {
    IvOf(s, Count(run, s))
  }

  /** The counters that live beside one client's key. */
  class KeyUse {
    var gcmIvCounter: nat
    var controlSeq: nat
    var rtspIvCounter: nat
    ghost var run: seq<Use>

    ghost predicate Valid()
      reads this
    {
      && gcmIvCounter == Count(run, Video) % TWO_64
      && controlSeq == Count(run, Control) % TWO_32
      && rtspIvCounter == Count(run, Rtsp) % TWO_32
    }

    constructor ()
      ensures Valid() && run == []
    {
      gcmIvCounter, controlSeq, rtspIvCounter, run := 0, 0, 0, [];
    }

    /** One encrypted video shard. */
    method VideoShard() returns (iv: seq<byte>)
      requires Valid()
      modifies this
      ensures Valid() && run == old(run) + [Video] && iv == NextIv(old(run), Video)
      ensures LaidOut(iv, Count(old(run), Video) % 0x1_0000_0000_0000_0000, 8, [0x56])
    {
      hide Count, VideoIv, ControlIv, RtspIv, LaidOut;
      IvLayout(gcmIvCounter);
      iv := VideoIv(gcmIvCounter);
      gcmIvCounter := (gcmIvCounter + 1) % TWO_64;
      run := run + [Video];
      CountAppend(old(run), Video);
      Wrap(Count(old(run), Video), TWO_64);
    }

    /** encode_control under the V2 scheme. */
    method ControlMessage() returns (iv: seq<byte>)
      requires Valid()
      modifies this
      ensures Valid() && run == old(run) + [Control] && iv == NextIv(old(run), Control)
      ensures LaidOut(iv, Count(old(run), Control) % 0x1_0000_0000, 4, [0x48, 0x43])
    {
      hide Count, VideoIv, ControlIv, RtspIv, LaidOut;
      IvLayout(controlSeq);
      var seqno := controlSeq;
      controlSeq := (controlSeq + 1) % TWO_32;
      iv := ControlIv(seqno);
      run := run + [Control];
      CountAppend(old(run), Control);
      Wrap(Count(old(run), Control), TWO_32);
    }

    /** The encrypted RTSP respond: the counter moves before it is used. */
    method RtspReply() returns (iv: seq<byte>)
      requires Valid()
      modifies this
      ensures Valid() && run == old(run) + [Rtsp] && iv == NextIv(old(run), Rtsp)
      ensures LaidOut(iv, (Count(old(run), Rtsp) + 1) % 0x1_0000_0000, 4, [0x48, 0x52])
    {
      hide Count, VideoIv, ControlIv, RtspIv, LaidOut;
      rtspIvCounter := (rtspIvCounter + 1) % TWO_32;
      IvLayout(rtspIvCounter);
      iv := RtspIv(rtspIvCounter);
      run := run + [Rtsp];
      CountAppend(old(run), Rtsp);
      Wrap(Count(old(run), Rtsp), TWO_32);
    }

    /** Opening a control message of the client under the V2 scheme: the number in its header makes the IV. */
    method ClientControlMessage(seqno: Seq32) returns (iv: seq<byte>)
      requires Valid()
      modifies this
      ensures Valid() && run == old(run) + [ClientControl(seqno)] && iv == NextIv(old(run), ClientControl(seqno))
      ensures LaidOut(iv, seqno, 4, [0x43, 0x43])
    {
      hide Count, ClientControlIv, LaidOut;
      iv := ClientControlIv(seqno);
      IvLayout(seqno);
      run := run + [ClientControl(seqno)];
      CountAppend(old(run), ClientControl(seqno));
    }

    /** Opening an encrypted RTSP request of the client. */
    method ClientRtspRequest(seqno: Seq32) returns (iv: seq<byte>)
      requires Valid()
      modifies this
      ensures Valid() && run == old(run) + [ClientRtsp(seqno)] && iv == NextIv(old(run), ClientRtsp(seqno))
      ensures LaidOut(iv, seqno, 4, [0x43, 0x52])
    {
      hide Count, ClientRtspIv, LaidOut;
      iv := ClientRtspIv(seqno);
      IvLayout(seqno);
      run := run + [ClientRtsp(seqno)];
      CountAppend(old(run), ClientRtsp(seqno));
    }
  }

  lemma IvLayout(n: nat)
    ensures LaidOut(VideoIv(n), n, 8, [0x56])
    ensures LaidOut(ControlIv(n), n, 4, [0x48, 0x43]) && LaidOut(RtspIv(n), n, 4, [0x48, 0x52])
    ensures LaidOut(ClientControlIv(n), n, 4, [0x43, 0x43]) && LaidOut(ClientRtspIv(n), n, 4, [0x43, 0x52])
  {
    hide LeBytes, Pow256;
    LeBytesAre(n, 4);
    LeBytesAre(n, 8);
  }

  lemma {:induction false} LeBytesAre(n: nat, k: nat)
    ensures forall j :: 0 <= j < k ==> LeBytes(n, k)[j] == n / Pow256(j) % 256
  {
    if k > 0 {
      LeBytesAre(n / 256, k - 1);
      forall j | 0 <= j < k
        ensures LeBytes(n, k)[j] == n / Pow256(j) % 256
      {
        if j > 0 {
          assert LeBytes(n, k)[j] == LeBytes(n / 256, k - 1)[j - 1];
          DivDiv(n, Pow256(j - 1));
        } else {
          assert Pow256(0) == 1;
        }
      }
    }
  }

  lemma DivDiv(n: nat, p: nat)
    requires p > 0
    ensures n / 256 / p == n / (256 * p)
  {
    var q := n / 256 / p;
    assert n / 256 == q * p + n / 256 % p && n == n / 256 * 256 + n % 256;
    assert n == q * (256 * p) + (n / 256 % p * 256 + n % 256);
    QuotientIs(n, 256 * p, q);
  }

  lemma CountAppend(run: seq<Use>, s: Use)
    ensures forall t :: Count(run + [s], t) == Count(run, t) + (if s == t then 1 else 0)
  {
    assert (run + [s])[..|run|] == run;
  }

  /** No two messages of the run were encrypted under the same IV. */
  ghost predicate IvsDistinct(run: seq<Use>) {
    forall i, j :: 0 <= i < j < |run| ==> NextIv(run[..i], run[i]) != NextIv(run[..j], run[j])
  }

  lemma Wrap(c: nat, m: nat)
    requires m > 1
    ensures (c % m + 1) % m == (c + 1) % m
  {
    var q := c / m;
    assert c == q * m + c % m;
    if c % m == m - 1 {
      assert (q + 1) * m == q * m + m;
      QuotientIs(c + 1, m, q + 1);
      QuotientIs(m, m, 1);
    } else {
      QuotientIs(c + 1, m, q);
      QuotientIs(c % m + 1, m, 0);
    }
  }

  /** However what the host sends and what the client sends interleave, IVs are distinct exactly as long as no stream of the
      host outgrows its counter and no number of the client comes twice on one stream. */
  lemma IvsDistinctExactlyInRange(run: seq<Use>)
    ensures IvsDistinct(run) <==> WithinRange(run)
  {
    hide IvOf;
    if WithinRange(run) {
      forall i, j | 0 <= i < j < |run|
        ensures NextIv(run[..i], run[i]) != NextIv(run[..j], run[j])
      {
        EarlierDiffers(run, i, j);
      }
    } else {
      var s :| Count(run, s) > Period(s);
      RepeatAfterPeriod(run, s);
    }
  }

  ghost predicate WithinRange(run: seq<Use>) {
    forall s :: Count(run, s) <= Period(s)
  }

  lemma RepeatAfterPeriod(run: seq<Use>, s: Use)
    requires Count(run, s) > Period(s)
    ensures !IvsDistinct(run)
  {
    hide IvOf, Period;
    var i := NthOf(run, s, 0);
    var j := NthOf(run, s, Period(s));
    IvOfPeriod(s);
    if j <= i {
      CountMono(run, j, i, s);
    }
    assert NextIv(run[..i], run[i]) == NextIv(run[..j], run[j]);
  }

  lemma IvOfPeriod(s: Use)
    ensures Period(s) > 0 && IvOf(s, 0) == IvOf(s, Period(s))
  {
  }

  lemma IvOfInjective(s: Use, a: nat, t: Use, b: nat)
    requires a < Period(s) && b < Period(t)
    requires IvOf(s, a) == IvOf(t, b)
    ensures s == t && a == b
  {
    hide VideoIv, ControlIv, RtspIv, ClientControlIv, ClientRtspIv;
    match (s, t)
    case (Video, Video) => VideoIvInjective(a, b);
    case (Control, Control) => ControlIvInjective(a, b);
    case (Rtsp, Rtsp) => ControlIvInjective((a + 1) % TWO_32, (b + 1) % TWO_32);
    case (ClientControl(m), ClientControl(n)) => ControlIvInjective(m, n);
    case (ClientRtsp(m), ClientRtsp(n)) => ControlIvInjective(m, n);
    case _ =>
  }

  lemma EarlierDiffers(run: seq<Use>, i: nat, j: nat)
    requires WithinRange(run) && i < j < |run|
    ensures NextIv(run[..i], run[i]) != NextIv(run[..j], run[j])
  {
    hide IvOf, Period;
    var s, t := run[i], run[j];
    CountBefore(run, i);
    CountBefore(run, j);
    CountMono(run, i + 1, j, s);
    assert run[..i + 1][..i] == run[..i];
    if IvOf(s, Count(run[..i], s)) == IvOf(t, Count(run[..j], t)) {
      IvOfInjective(s, Count(run[..i], s), t, Count(run[..j], t));
    }
  }

  lemma CountBefore(run: seq<Use>, i: nat)
    requires i < |run|
    ensures Count(run[..i], run[i]) < Count(run, run[i])
  {
    CountMono(run, i + 1, |run|, run[i]);
    assert run[..i + 1][..i] == run[..i] && run[..|run|] == run;
  }

  lemma {:induction false} CountMono(run: seq<Use>, i: nat, j: nat, s: Use)
    requires i <= |run| && j <= |run|
    ensures i <= j ==> Count(run[..i], s) <= Count(run[..j], s)
    decreases j
  {
    if i < j {
      CountMono(run, i, j - 1, s);
      assert run[..j][..j - 1] == run[..j - 1];
    }
  }

  /** The position of message number n of stream s. */
  lemma {:induction false} NthOf(run: seq<Use>, s: Use, n: nat) returns (i: nat)
    requires n < Count(run, s)
    ensures i < |run| && run[i] == s && Count(run[..i], s) == n
  {
    var last := |run| - 1;
    if n < Count(run[..last], s) {
      i := NthOf(run[..last], s, n);
      assert run[..last][..i] == run[..i];
    } else {
      i := last;
    }
  }

  lemma {:induction false} LeBytesInjective(a: nat, b: nat, k: nat)
    requires a < Pow256(k) && b < Pow256(k) && LeBytes(a, k) == LeBytes(b, k)
    ensures a == b
  {
    if k > 0 {
      assert LeBytes(a, k)[1..] == LeBytes(a / 256, k - 1) && LeBytes(b, k)[1..] == LeBytes(b / 256, k - 1);
      LeBytesInjective(a / 256, b / 256, k - 1);
      assert LeBytes(a, k)[0] == a % 256 && LeBytes(b, k)[0] == b % 256;
    }
  }

  lemma Powers()
    ensures Pow256(4) == TWO_32 && Pow256(8) == TWO_64
  {
  }

  lemma VideoIvInjective(a: nat, b: nat)
    requires a < TWO_64 && b < TWO_64
    ensures VideoIv(a) == VideoIv(b) ==> a == b
  {
    hide LeBytes, Pow256;
    Powers();
    if VideoIv(a) == VideoIv(b) {
      assert LeBytes(a, 8) == VideoIv(a)[..8] && LeBytes(b, 8) == VideoIv(b)[..8];
      LeBytesInjective(a, b, 8);
    }
  }

  lemma ControlIvInjective(a: nat, b: nat)
    requires a < TWO_32 && b < TWO_32
    ensures ControlIv(a) == ControlIv(b) ==> a == b
    ensures RtspIv(a) == RtspIv(b) ==> a == b
    ensures ClientControlIv(a) == ClientControlIv(b) ==> a == b
    ensures ClientRtspIv(a) == ClientRtspIv(b) ==> a == b
  {
    hide LeBytes, Pow256;
    Powers();
    assert LeBytes(a, 4) == ControlIv(a)[..4] == RtspIv(a)[..4] == ClientControlIv(a)[..4] == ClientRtspIv(a)[..4];
    assert LeBytes(b, 4) == ControlIv(b)[..4] == RtspIv(b)[..4] == ClientControlIv(b)[..4] == ClientRtspIv(b)[..4];
    if LeBytes(a, 4) == LeBytes(b, 4) {
      LeBytesInjective(a, b, 4);
    }
  }
}
