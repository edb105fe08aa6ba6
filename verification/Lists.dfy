/** Lists in order, and lists without repetition. */
module Lists {

  ghost predicate Ascending(l: seq<nat>) {
    forall i, j :: 0 <= i < j < |l| ==> l[i] < l[j]
  }

  ghost predicate NoRepeat<T>(s: seq<T>) {
    forall a, b :: 0 <= a < b < |s| ==> s[a] != s[b]
  }

  lemma NoRepeatJoined<T>(p: seq<T>, q: seq<T>)
    requires NoRepeat(p) && NoRepeat(q) && forall e :: e in p ==> e !in q
    ensures NoRepeat(p + q)
  {
    assert forall k :: 0 <= k < |p| ==> p[k] in p;
    assert forall k :: 0 <= k < |q| ==> q[k] in q;
  }
}
