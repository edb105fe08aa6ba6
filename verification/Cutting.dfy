/** Byte strings cut into pieces of one size, the last piece possibly short, and joined again. */
module Cutting {
  import opened Bytes

  function Cut(s: seq<byte>, b: nat): (pieces: seq<seq<byte>>)
    requires b > 0
    ensures |pieces| == CeilDiv(|s|, b)
  {
    if s == [] then [] else if |s| <= b then [s] else [s[..b]] + Cut(s[b..], b)
  }

  function Join(pieces: seq<seq<byte>>): seq<byte> {
    if pieces == [] then [] else pieces[0] + Join(pieces[1..])
  }

  lemma {:induction false} JoinCut(s: seq<byte>, b: nat)
    requires b > 0
    ensures Join(Cut(s, b)) == s
  {
    if |s| > b {
      JoinCut(s[b..], b);
      assert Cut(s, b)[1..] == Cut(s[b..], b);
    } else if s != [] {
      Neutral(s);
    }
  }

  lemma CutUnfold(head: seq<byte>, tail: seq<byte>, b: nat)
    requires |head| == b > 0
    ensures Cut(head + tail, b) == [head] + Cut(tail, b)
  {
    assert (head + tail)[..b] == head && (head + tail)[b..] == tail;
    if tail == [] {
      Neutral(head);
    }
  }

  lemma {:induction false} CutAppend(s: seq<byte>, t: seq<byte>, b: nat, n: nat)
    requires b > 0 && |s| == Times(n, b)
    ensures |Cut(s, b)| == n
    ensures Cut(s + t, b) == Cut(s, b) + Cut(t, b)
  {
    if n == 0 {
      Neutral(t);
      Neutral(Cut(t, b));
    } else {
      var head, tail := s[..b], s[b..];
      assert s == head + tail;
      CutUnfold(head, tail, b);
      Assoc(head, tail, t);
      CutUnfold(head, tail + t, b);
      CutAppend(tail, t, b, n - 1);
      Assoc([head], Cut(tail, b), Cut(t, b));
    }
  }

  /** Whole pieces lo..hi are the stretch of bytes they cover. */
  lemma CutMiddle(s: seq<byte>, b: nat, lo: nat, hi: nat, n: nat)
    requires b > 0 && lo <= hi <= n && |s| == Times(n, b)
    ensures Times(lo, b) <= Times(hi, b) <= |s| && |Cut(s, b)| == n
    ensures Cut(s[Times(lo, b)..Times(hi, b)], b) == Cut(s, b)[lo..hi]
  {
    hide Cut, CeilDiv, Times;
    WholeParts(|s|, b, lo, hi, n);
    var p, q := Times(lo, b), Times(hi, b);
    ThreeParts(s, p, q);
    CutThree(s, s[..p], s[p..q], s[q..], b, lo, hi);
  }

  lemma WholeParts(size: nat, b: nat, lo: nat, hi: nat, n: nat)
    requires b > 0 && lo <= hi <= n && size == Times(n, b)
    ensures Times(lo, b) <= Times(hi, b) <= size && CeilDiv(size, b) == n
    ensures Times(hi, b) - Times(lo, b) == Times(hi - lo, b)
  {
    hide Times, CeilDiv;
    TimesSplit(lo, hi, b);
    TimesSplit(hi, n, b);
    CeilDivOfParts(size, b, n);
  }

  lemma CutThree(s: seq<byte>, x: seq<byte>, y: seq<byte>, z: seq<byte>, b: nat, lo: nat, hi: nat)
    requires b > 0 && lo <= hi && s == x + (y + z) && |x| == Times(lo, b) && |y| == Times(hi - lo, b)
    ensures hi <= |Cut(s, b)| && Cut(s, b)[lo..hi] == Cut(y, b)
  {
    hide Cut, CeilDiv, Times;
    CutAppend(y, z, b, hi - lo);
    CutAppend(x, y + z, b, lo);
    MiddlePart(Cut(x, b), Cut(y, b), Cut(z, b));
  }

  lemma {:induction false} CutWhole(s: seq<byte>, b: nat, n: nat)
    requires b > 0 && |s| == Times(n, b)
    ensures |Cut(s, b)| == n && forall x :: 0 <= x < n ==> |Cut(s, b)[x]| == b
  {
    if n > 0 {
      CutWhole(s[b..], b, n - 1);
      assert s == s[..b] + s[b..];
      CutUnfold(s[..b], s[b..], b);
    }
  }

  lemma {:induction false} CutAt(s: seq<byte>, b: nat, x: nat)
    requires b > 0 && x < |Cut(s, b)|
    ensures Times(x, b) < |s|
    ensures Cut(s, b)[x] == s[Times(x, b)..Min(Times(x, b) + b, |s|)]
  {
    if x > 0 {
      CutAt(s[b..], b, x - 1);
      var lo := Times(x - 1, b);
      assert Cut(s, b)[x] == Cut(s[b..], b)[x - 1];
      SliceOfRest(s, b, lo, Min(lo + b, |s| - b));
    }
  }

  /** Writing inside piece x changes that piece alone. */
  lemma {:induction false} CutOverwrite(s: seq<byte>, b: nat, x: nat, off: nat, src: seq<byte>)
    requires b > 0 && x < |Cut(s, b)| && off + |src| <= |Cut(s, b)[x]|
    ensures Times(x, b) + off + |src| <= |s|
    ensures Cut(Overwrite(s, Times(x, b) + off, src), b) == Cut(s, b)[x := Overwrite(Cut(s, b)[x], off, src)]
    decreases |s|, 1
  {
    if |s| > b {
      assert s == s[..b] + s[b..];
      CutOverwriteCons(s[..b], s[b..], b, x, off, src);
    }
  }

  lemma {:induction false} CutOverwriteCons(head: seq<byte>, tail: seq<byte>, b: nat, x: nat, off: nat, src: seq<byte>)
    requires |head| == b > 0 && x < |Cut(head + tail, b)| && off + |src| <= |Cut(head + tail, b)[x]|
    ensures Times(x, b) + off + |src| <= |head + tail|
    ensures Cut(Overwrite(head + tail, Times(x, b) + off, src), b)
            == Cut(head + tail, b)[x := Overwrite(Cut(head + tail, b)[x], off, src)]
    decreases |head + tail|, 0
  {
    hide Cut, Overwrite;
    CutUnfold(head, tail, b);
    if x == 0 {
      OverwriteHead(head, tail, off, src);
      CutUnfold(Overwrite(head, off, src), tail, b);
    } else {
      var at := Times(x - 1, b) + off;
      CutOverwrite(tail, b, x - 1, off, src);
      OverwriteTail(head, tail, at, src);
      CutUnfold(head, Overwrite(tail, at, src), b);
      UpdateTail(head, Cut(tail, b), x, Overwrite(Cut(tail, b)[x - 1], off, src));
    }
  }

  lemma {:induction false} JoinAppend(p: seq<seq<byte>>, q: seq<seq<byte>>)
    ensures Join(p + q) == Join(p) + Join(q)
  {
    if p == [] {
      Neutral(q);
      Neutral(Join(q));
    } else {
      JoinAppend(p[1..], q);
      assert (p + q)[0] == p[0] && (p + q)[1..] == p[1..] + q;
      Assoc(p[0], Join(p[1..]), Join(q));
    }
  }
}
