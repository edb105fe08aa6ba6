/** Invisible prefixes that make titles sort by their place in a list. */
module ZwPad {
  import opened Wrappers
  import opened Bytes

  // U+200B and U+200C in UTF-8 (section 3 of RFC 3629)
  const ZW0: seq<byte> := [0xE2, 0x80, 0x8B]
  const ZW1: seq<byte> := [0xE2, 0x80, 0x8C]

  datatype Error = InvalidArgument | OutOfRange

  /** std::bit_width. */
  function BitWidth(x: nat): nat {
    if x == 0 then 0 else 1 + BitWidth(x / 2)
  }

  function PadWidthForCount(count: nat): Result<nat, Error> {
    if count == 0 then Err(InvalidArgument) else Ok(BitWidth(count - 1))
  }

  function Digit(one: bool): seq<byte> {
    if one then ZW1 else ZW0
  }

  /** The n lowest binary digits of an index, the highest first. */
  function Digits(n: nat, index: nat): (s: seq<byte>)
    ensures |s| == 3 * n
  {
    if n == 0 then [] else Digits(n - 1, index / 2) + Digit(index % 2 == 1)
  }

  function Padded(text: seq<byte>, padBits: nat, index: nat): Result<seq<byte>, Error> {
    if padBits == 0 then Err(InvalidArgument)
    else if index >= Pow2(padBits) then Err(OutOfRange)
    else Ok(Digits(padBits, index) + text)
  }

  /** index >> k. */
  function Shr(x: nat, k: nat): nat {
    if k == 0 then x else Shr(x / 2, k - 1)
  }

  lemma {:induction false} ShrStep(x: nat, k: nat)
    ensures Shr(x, k + 1) == Shr(x, k) / 2
  {
    if k > 0 {
      ShrStep(x / 2, k - 1);
    }
  }

  /** The shift of an index by more than 63 places is not defined in the original. */
  method PadForOrdering(text: seq<byte>, padBits: nat, index: nat) returns (r: Result<seq<byte>, Error>)
    requires padBits < 64
    ensures r == Padded(text, padBits, index)
    ensures r == Err(InvalidArgument) <==> padBits == 0
    ensures r == Err(OutOfRange) <==> padBits > 0 && index >= Pow2(padBits)
    // digit x, the highest first, is a zero-width space for 0 and a zero-width non-joiner for 1
    ensures r.Ok? ==>
      && |r.value| == 3 * padBits + |text| && r.value[3 * padBits..] == text
      && forall x :: 0 <= x < padBits ==>
           Shows(r.value, 3 * x, Bit(index, padBits - 1 - x))
  {
    if padBits == 0 {
      return Err(InvalidArgument);
    }
    if index >= Pow2(padBits) {
      return Err(OutOfRange);
    }
    var out: seq<byte> := [];
    for bit := 0 to padBits
      invariant out == Digits(bit, Shr(index, padBits - bit))
    {
      var one := Shr(index, padBits - 1 - bit) % 2 == 1;
      ShrStep(index, padBits - 1 - bit);
      out := out + (if one then ZW1 else ZW0);
    }
    DigitsAre(padBits, index);
    r := Ok(out + text);
  }

  /** Binary digit k of n, the lowest being number 0. */
  ghost function Bit(n: nat, k: nat): nat {
    n / Pow2(k) % 2
  }

  /** The encoding of a binary digit, at this place. */
  ghost predicate Shows(s: seq<byte>, at: nat, bit: nat) {
    at + 3 <= |s| && s[at] == 0xE2 && s[at + 1] == 0x80 && s[at + 2] == if bit == 1 then 0x8C else 0x8B
  }

  lemma {:induction false} DigitsAre(n: nat, index: nat)
    ensures forall x :: 0 <= x < n ==> Shows(Digits(n, index), 3 * x, Bit(index, n - 1 - x))
  {
    hide Bit, Pow2;
    if n > 0 {
      DigitsAre(n - 1, index / 2);
      forall x | 0 <= x < n
        ensures Shows(Digits(n, index), 3 * x, Bit(index, n - 1 - x))
      {
        if x < n - 1 {
          assert Shows(Digits(n - 1, index / 2), 3 * x, Bit(index / 2, n - 2 - x));
          HigherBit(index, n - 2 - x);
        } else {
          LowestBit(index);
        }
      }
    }
  }

  lemma LowestBit(n: nat)
    ensures Bit(n, 0) == n % 2
  {
  }

  lemma HigherBit(n: nat, k: nat)
    ensures Bit(n, k + 1) == Bit(n / 2, k)
  {
    var p := Pow2(k);
    var q := n / 2 / p;
    assert n / 2 == q * p + n / 2 % p && n == n / 2 * 2 + n % 2;
    assert n == q * (2 * p) + (n / 2 % p * 2 + n % 2);
    QuotientIs(n, 2 * p, q);
  }

  /** The width is the least that holds every index below the count. */
  lemma {:induction false} BitWidthIs(x: nat)
    ensures x < Pow2(BitWidth(x)) && (x > 0 ==> Pow2(BitWidth(x) - 1) <= x)
  {
    if x > 0 {
      BitWidthIs(x / 2);
    }
  }

  lemma {:induction false} Pow2Mono(m: nat, n: nat)
    requires m <= n
    ensures Pow2(m) <= Pow2(n)
  {
    if m < n {
      Pow2Mono(m, n - 1);
    }
  }

  lemma {:induction false} BitWidthLeast(x: nat, n: nat)
    ensures x < Pow2(n) <==> BitWidth(x) <= n
  {
    BitWidthIs(x);
    if BitWidth(x) <= n {
      Pow2Mono(BitWidth(x), n);
    } else {
      Pow2Mono(n, BitWidth(x) - 1);
    }
  }

  /** Padding every index of a list to the width for its length works exactly when the list has two entries or more: for a single
      entry the width is zero, which is refused. */
  lemma WidthWorksExactly(text: seq<byte>, count: nat, index: nat)
    requires index < count
    ensures PadWidthForCount(count).Ok? && PadWidthForCount(0) == Err(InvalidArgument)
    ensures Padded(text, PadWidthForCount(count).value, index).Ok? <==> count >= 2
    ensures count <= Pow2(63) ==> PadWidthForCount(count).value < 64
  {
    BitWidthIs(count - 1);
    if count <= Pow2(63) {
      BitWidthLeast(count - 1, 63);
    }
  }

  // ----- Order -----

  /** The order of std::string: byte by byte, and a proper prefix first. */
  predicate Less(a: seq<byte>, b: seq<byte>) {
    b != [] && (a == [] || a[0] < b[0] || (a[0] == b[0] && Less(a[1..], b[1..])))
  }

  lemma LessCons(x: byte, a: seq<byte>, y: byte, b: seq<byte>)
    ensures Less([x] + a, [y] + b) <==> x < y || (x == y && Less(a, b))
  {
    assert ([x] + a)[1..] == a && ([y] + b)[1..] == b;
  }

  lemma LessDigit(one: bool, a: seq<byte>, one': bool, b: seq<byte>)
    ensures Less(Digit(one) + a, Digit(one') + b) <==> (!one && one') || (one == one' && Less(a, b))
  {
    var d, d' := Digit(one)[2], Digit(one')[2];
    hide Less;
    LessCons(d, a, d', b);
    LessCons(0x80, [d] + a, 0x80, [d'] + b);
    LessCons(0xE2, [0x80] + ([d] + a), 0xE2, [0x80] + ([d'] + b));
    assert Digit(one) + a == [0xE2] + ([0x80] + ([d] + a));
    assert Digit(one') + b == [0xE2] + ([0x80] + ([d'] + b));
  }

  /** Prefixed texts compare by index first, and by text only for the same index. */
  lemma {:induction false} DigitsOrder(n: nat, i: nat, j: nat, a: seq<byte>, b: seq<byte>)
    requires i < Pow2(n) && j < Pow2(n)
    ensures Less(Digits(n, i) + a, Digits(n, j) + b) <==> i < j || (i == j && Less(a, b))
  {
    hide Less, Digit;
    if n == 0 {
      assert Digits(n, i) + a == a && Digits(n, j) + b == b;
    } else {
      var d, d' := Digit(i % 2 == 1), Digit(j % 2 == 1);
      DigitsOrder(n - 1, i / 2, j / 2, d + a, d' + b);
      LessDigit(i % 2 == 1, a, j % 2 == 1, b);
      assert Digits(n, i) + a == Digits(n - 1, i / 2) + (d + a);
      assert Digits(n, j) + b == Digits(n - 1, j / 2) + (d' + b);
    }
  }

  /** Whatever the texts are, the padded titles of a list sort by their place in it. */
  lemma PaddedOrder(count: nat, i: nat, j: nat, a: seq<byte>, b: seq<byte>)
    requires count >= 2 && i < count && j < count
    ensures var w := PadWidthForCount(count).value;
      && Padded(a, w, i).Ok? && Padded(b, w, j).Ok?
      && (Less(Padded(a, w, i).value, Padded(b, w, j).value) <==> i < j || (i == j && Less(a, b)))
  {
    BitWidthIs(count - 1);
    DigitsOrder(BitWidth(count - 1), i, j, a, b);
  }

  // ----- Reading it back -----

  /** The index in the first n digits of a padded text. */
  function ReadIndex(s: seq<byte>, n: nat): nat
    requires |s| >= 3 * n
  {
    if n == 0 then 0 else 2 * ReadIndex(s, n - 1) + (if s[3 * n - 1] == 0x8C then 1 else 0)
  }

  lemma {:induction false} ReadBack(n: nat, index: nat, text: seq<byte>)
    requires index < Pow2(n)
    ensures ReadIndex(Digits(n, index) + text, n) == index
    ensures (Digits(n, index) + text)[3 * n..] == text
  {
    if n > 0 {
      var d := Digit(index % 2 == 1);
      ReadBack(n - 1, index / 2, d + text);
      var s := Digits(n - 1, index / 2) + (d + text);
      assert Digits(n, index) + text == s;
      assert s[3 * n - 1] == d[2];
    }
  }
}
