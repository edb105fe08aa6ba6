/** How deep a text is nested in one kind of brackets. */
module Brackets {

  datatype Kind = Kind(open: char, close: char)

  const ROUND := Kind('(', ')')
  const SQUARE := Kind('[', ']')

  function Turn(b: Kind, c: char): int {
    if c == b.open then 1 else if c == b.close then -1 else 0
  }

  /** How many brackets a text leaves open. */
  function Depth(b: Kind, s: string): int {
    if s == [] then 0 else Depth(b, s[..|s| - 1]) + Turn(b, s[|s| - 1])
  }

  lemma {:induction false} DepthAppend(b: Kind, s: string, t: string)
    ensures Depth(b, s + t) == Depth(b, s) + Depth(b, t)
  {
    if t == [] {
      assert s + t == s;
    } else {
      DepthAppend(b, s, t[..|t| - 1]);
      assert (s + t)[..|s + t| - 1] == s + t[..|t| - 1];
    }
  }

  lemma DepthOne(b: Kind, c: char)
    ensures Depth(b, [c]) == Turn(b, c)
  {
    assert [c][..0] == [];
  }

  lemma DepthHead(b: Kind, s: string, m: nat)
    requires 0 < m <= |s|
    ensures Depth(b, s[..m]) == Turn(b, s[0]) + Depth(b, s[1..][..m - 1])
  {
    assert s[..m] == [s[0]] + s[1..][..m - 1];
    DepthAppend(b, [s[0]], s[1..][..m - 1]);
    DepthOne(b, s[0]);
  }
}
