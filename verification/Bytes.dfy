/** Bytes, and the little arithmetic and slicing facts the packetizer needs. */
module Bytes {

  type byte = b: int | 0 <= b < 256

  function Zeros(n: nat): (z: seq<byte>)
    ensures |z| == n
  {
    if n == 0 then [] else [0] + Zeros(n - 1)
  }

  lemma {:induction false} ZerosSplit(m: nat, n: nat)
    ensures Zeros(m + n) == Zeros(m) + Zeros(n)
  {
    if m == 0 {
      assert [] + Zeros(n) == Zeros(n);
    } else {
      ZerosSplit(m - 1, n);
      assert [0] + (Zeros(m - 1) + Zeros(n)) == [0] + Zeros(m - 1) + Zeros(n);
    }
  }

  function Min(a: int, b: int): int { if a < b then a else b }

  function Max(a: int, b: int): int { if a < b then b else a }

  /** How many stretches of length b it takes to hold a. */
  function CeilDiv(a: nat, b: nat): nat
    requires b > 0
  {
    if a == 0 then 0 else if a <= b then 1 else 1 + CeilDiv(a - b, b)
  }

  function Pow2(n: nat): (p: nat)
    ensures p > 0
  {
    if n == 0 then 1 else 2 * Pow2(n - 1)
  }

  lemma MulMono(a: int, b: int, c: int)
    requires a <= b && 0 <= c
    ensures a * c <= b * c
  {
  }

  /** x * b, as a sum, so that proofs about offsets stay linear. */
  function Times(x: nat, b: nat): nat {
    if x == 0 then 0 else Times(x - 1, b) + b
  }

  lemma {:induction false} TimesIs(x: nat, b: nat)
    ensures Times(x, b) == x * b
  {
    if x > 0 {
      TimesIs(x - 1, b);
      assert x * b == (x - 1) * b + b;
    }
  }

  lemma TimesAdd(x: nat, y: nat, b: nat)
    ensures Times(x + y, b) == Times(x, b) + Times(y, b)
  {
    TimesIs(x, b);
    TimesIs(y, b);
    TimesIs(x + y, b);
    assert (x + y) * b == x * b + y * b;
  }

  lemma TimesSplit(x: nat, y: nat, b: nat)
    requires x <= y
    ensures Times(y, b) == Times(x, b) + Times(y - x, b)
  {
    TimesAdd(x, y - x, b);
  }

  lemma TimesMono(x: nat, y: nat, b: nat)
    requires x <= y
    ensures Times(x, b) <= Times(y, b)
    ensures x < y ==> Times(x, b) + b <= Times(y, b)
  {
    TimesAdd(x, y - x, b);
    if x < y {
      TimesAdd(x + 1, y - x - 1, b);
    }
  }

  /** q is the quotient of n by b when n lies in the q-th stretch of length b. */
  lemma QuotientIs(n: int, b: int, q: int)
    requires b > 0 && q * b <= n < q * b + b
    ensures n / b == q && n % b == n - q * b
  {
    var d := n / b;
    assert n == d * b + n % b;
    if d < q {
      MulMono(d + 1, q, b);
    } else if q < d {
      MulMono(q + 1, d, b);
    }
  }

  /** CeilDiv is the least q whose stretches of length b cover a. */
  lemma {:induction false} CeilDivIs(a: nat, b: nat)
    requires b > 0
    ensures a <= CeilDiv(a, b) * b < a + b
    ensures a > 0 ==> CeilDiv(a, b) > 0 && (CeilDiv(a, b) - 1) * b == CeilDiv(a, b) * b - b
    ensures forall q: nat :: a <= q * b ==> CeilDiv(a, b) <= q
  {
    var c := CeilDiv(a, b);
    if a > b {
      CeilDivIs(a - b, b);
      assert (1 + CeilDiv(a - b, b)) * b == b + CeilDiv(a - b, b) * b;
    }
    forall q: nat | a <= q * b
      ensures c <= q
    {
      if q < c {
        MulMono(q + 1, c, b);
      }
    }
  }

  /** The two ways the source rounds a division up both compute CeilDiv. */
  lemma CeilDivComputed(a: nat, b: nat)
    requires b > 0
    ensures (a + (b - 1)) / b == a / b + (if a % b != 0 then 1 else 0) == CeilDiv(a, b)
  {
    CeilDivIs(a, b);
    var c := CeilDiv(a, b);
    QuotientIs(a + (b - 1), b, c);
    if a == c * b {
      QuotientIs(a, b, c);
    } else {
      QuotientIs(a, b, c - 1);
    }
  }

  lemma CeilDivMono(a: nat, a': nat, b: nat)
    requires b > 0 && a <= a'
    ensures CeilDiv(a, b) <= CeilDiv(a', b)
  {
    CeilDivIs(a, b);
    CeilDivIs(a', b);
    assert a <= CeilDiv(a', b) * b;
  }

  lemma {:induction false} CeilDivOfParts(n: nat, b: nat, k: nat)
    requires b > 0 && 0 <= n - Times(k, b) < b
    ensures CeilDiv(n, b) == k + (if n != Times(k, b) then 1 else 0)
  {
    if k > 0 {
      CeilDivOfParts(n - b, b, k - 1);
    }
  }

  lemma Assoc<T>(a: seq<T>, b: seq<T>, c: seq<T>)
    ensures (a + b) + c == a + (b + c)
  {
  }

  lemma Neutral<T>(a: seq<T>)
    ensures a + [] == a == [] + a
  {
  }

  lemma SliceOfRest<T>(s: seq<T>, a: nat, lo: nat, hi: nat)
    requires lo <= hi && a + hi <= |s|
    ensures s[a..][lo..hi] == s[a + lo..a + hi]
  {
  }

  lemma SliceOfPart<T>(s: seq<T>, lo: nat, hi: nat, a: nat, b: nat)
    requires lo <= hi <= |s| && a <= b <= hi - lo
    ensures s[lo..hi][a..b] == s[lo + a..lo + b]
  {
    assert |s[lo..hi][a..b]| == |s[lo + a..lo + b]|;
    forall k | 0 <= k < b - a
      ensures s[lo..hi][a..b][k] == s[lo + a..lo + b][k]
    {
    }
  }

  lemma SliceOfHead<T>(s: seq<T>, t: seq<T>, a: nat, b: nat)
    requires a <= b <= |s|
    ensures (s + t)[a..b] == s[a..b]
  {
  }

  lemma SliceOfTail<T>(s: seq<T>, t: seq<T>, a: nat, b: nat)
    requires a <= b <= |t|
    ensures (s + t)[|s| + a..|s| + b] == t[a..b]
  {
    assert |(s + t)[|s| + a..|s| + b]| == |t[a..b]|;
    forall k | 0 <= k < b - a
      ensures (s + t)[|s| + a..|s| + b][k] == t[a..b][k]
    {
      assert (s + t)[|s| + (a + k)] == t[a + k];
    }
  }

  lemma ThreeParts<T>(s: seq<T>, p: nat, q: nat)
    requires p <= q <= |s|
    ensures s == s[..p] + (s[p..q] + s[q..])
  {
  }

  lemma MiddlePart<T>(a: seq<T>, b: seq<T>, c: seq<T>)
    ensures (a + (b + c))[|a|..|a| + |b|] == b
  {
  }

  lemma CutJoined<T>(p: seq<T>, q: seq<T>, n: nat)
    requires n <= |p|
    ensures (p + q)[..n] == p[..n]
    ensures (p + q)[n..] == p[n..] + q
  {
  }

  lemma UpdateTail<T>(head: T, tail: seq<T>, x: nat, v: T)
    requires 0 < x <= |tail|
    ensures ([head] + tail)[x := v] == [head] + tail[x - 1 := v]
    ensures ([head] + tail)[x] == tail[x - 1]
  {
  }

  lemma {:induction false} CeilDivUnique(n: nat, b: nat, k: nat)
    requires b > 0 && k > 0 && n <= Times(k, b) < n + b
    ensures CeilDiv(n, b) == k
  {
    if k > 1 {
      CeilDivUnique(n - b, b, k - 1);
    }
  }

  /** s with src written over it from position at on. */
  function Overwrite(s: seq<byte>, at: nat, src: seq<byte>): (r: seq<byte>)
    requires at + |src| <= |s|
    ensures |r| == |s|
  {
    s[..at] + src + s[at + |src|..]
  }

  lemma OverwriteMiddle(a: seq<byte>, m: seq<byte>, r: seq<byte>, src: seq<byte>)
    requires |m| == |src|
    ensures Overwrite(a + m + r, |a|, src) == a + src + r
  {
    var s := a + m + r;
    assert s[..|a|] == a;
    assert s[|a| + |src|..] == r;
  }

  lemma OverwritePrefix(s: seq<byte>, at: nat, src: seq<byte>)
    requires at + |src| <= |s|
    ensures Overwrite(s, at, src)[..at + |src|] == s[..at] + src
  {
  }

  lemma OverwriteHead(head: seq<byte>, tail: seq<byte>, off: nat, src: seq<byte>)
    requires off + |src| <= |head|
    ensures Overwrite(head + tail, off, src) == Overwrite(head, off, src) + tail
  {
  }

  lemma OverwriteTail(head: seq<byte>, tail: seq<byte>, off: nat, src: seq<byte>)
    requires off + |src| <= |tail|
    ensures Overwrite(head + tail, |head| + off, src) == head + Overwrite(tail, off, src)
  {
  }

  /** Writing inside the stretch lo..hi is writing into that stretch, and nothing else changes. */
  lemma OverwriteWithin(s: seq<byte>, lo: nat, hi: nat, at: nat, src: seq<byte>)
    requires lo <= hi <= |s| && at + |src| <= hi - lo
    ensures Overwrite(s, lo + at, src)[lo..hi] == Overwrite(s[lo..hi], at, src)
    ensures Overwrite(s, lo + at, src)[..lo] == s[..lo]
    ensures Overwrite(s, lo + at, src)[hi..] == s[hi..]
  {
  }

  lemma OverwriteTwice(s: seq<byte>, at: nat, a: seq<byte>, b: seq<byte>)
    requires at + |a| + |b| <= |s|
    ensures Overwrite(Overwrite(s, at, a), at + |a|, b) == Overwrite(s, at, a + b)
  {
  }

  /** std::copy / memcpy into a buffer. */
  method CopyTo(dst: array<byte>, at: nat, src: seq<byte>)
    requires at + |src| <= dst.Length
    modifies dst
    ensures dst[..] == Overwrite(old(dst[..]), at, src)
  {
    forall k | 0 <= k < |src| {
      dst[at + k] := src[k];
    }
  }
}
