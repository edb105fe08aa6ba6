/** Putting the apps of the configuration file in a requested order. */
module ReorderApps {
  import opened Lists
  import opened Wrappers

  /** An app: its uuid, when it is an object that has a string for one, and all the rest of it. */
  datatype App = App(uuid: Option<string>, body: string)

  /** The requested order; None is an entry that is not a string. */
  type Order = seq<Option<string>>

  /** How many of the first i apps have this uuid. */
  function Before(apps: seq<App>, i: nat, u: string): nat
    requires i <= |apps|
  {
    if i == 0 then 0 else Before(apps, i - 1, u) + (if apps[i - 1].uuid == Some(u) then 1 else 0)
  }

  /** How often the first j entries of the order ask for this uuid. */
  function Asked(order: Order, j: nat, u: string): nat
    requires j <= |order|
  {
    if j == 0 then 0 else Asked(order, j - 1, u) + (if order[j - 1] == Some(u) then 1 else 0)
  }

  predicate IsNth(apps: seq<App>, i: nat, u: string, k: nat) {
    i < |apps| && apps[i].uuid == Some(u) && Before(apps, i, u) == k
  }

  /** Where app number k, from 0, with this uuid is, if there are that many. */
  function Nth(apps: seq<App>, u: string, k: nat, from: nat): (r: Option<nat>)
    requires from <= |apps|
    ensures r.Some? ==> IsNth(apps, r.value, u, k)
    ensures r.None? ==> forall i :: from <= i < |apps| ==> !IsNth(apps, i, u, k)
    decreases |apps| - from
  {
    if from == |apps| then None else if IsNth(apps, from, u, k) then Some(from) else Nth(apps, u, k, from + 1)
  }

  /** What entry j of the order picks: the k-th time a uuid is asked for, the k-th app that has it. */
  function Pick(apps: seq<App>, order: Order, j: nat): (r: Option<nat>)
    requires j < |order|
    ensures r.Some? ==> r.value < |apps| && order[j].Some? && apps[r.value].uuid == order[j]
  {
    if order[j].None? then None else Nth(apps, order[j].value, Asked(order, j, order[j].value), 0)
  }

  function Picks(apps: seq<App>, order: Order, j: nat): (r: seq<nat>)
    requires j <= |order|
    ensures forall k :: 0 <= k < |r| ==> r[k] < |apps|
  {
    if j == 0 then []
    else Picks(apps, order, j - 1) + (match Pick(apps, order, j - 1) case Some(i) => [i] case None => [])
  }

  /** App i is among those the first j entries ask for: fewer apps before it share its uuid than there are requests for it. */
  predicate Moved(apps: seq<App>, order: Order, j: nat, i: nat)
    requires i < |apps| && j <= |order|
  {
    apps[i].uuid.Some? && Before(apps, i, apps[i].uuid.value) < Asked(order, j, apps[i].uuid.value)
  }

  /** Those of the first i apps that nothing asked for. */
  function Rest(apps: seq<App>, order: Order, i: nat): (r: seq<nat>)
    requires i <= |apps|
    ensures forall k :: 0 <= k < |r| ==> r[k] < i
  {
    if i == 0 then []
    else Rest(apps, order, i - 1) + (if Moved(apps, order, |order|, i - 1) then [] else [i - 1])
  }

  function At(apps: seq<App>, idx: seq<nat>): (r: seq<App>)
    requires forall k :: 0 <= k < |idx| ==> idx[k] < |apps|
    ensures |r| == |idx| && forall k :: 0 <= k < |idx| ==> r[k] == apps[idx[k]]
  {
    seq(|idx|, k requires 0 <= k < |idx| => apps[idx[k]])
  }

  /** The picked apps in the order they were asked for, then the others. */
  function Reordered(apps: seq<App>, order: Order): seq<App> {
    At(apps, Picks(apps, order, |order|)) + At(apps, Rest(apps, order, |apps|))
  }

  // ----- Picks -----

  lemma {:induction false} BeforeGrows(apps: seq<App>, i: nat, i': nat, u: string)
    requires i <= i' <= |apps|
    ensures Before(apps, i, u) <= Before(apps, i', u)
  {
    if i < i' {
      BeforeGrows(apps, i, i' - 1, u);
    }
  }

  /** There is only one k-th app with a uuid. */
  lemma NthOnce(apps: seq<App>, i: nat, i': nat, u: string, k: nat)
    requires IsNth(apps, i, u, k) && IsNth(apps, i', u, k)
    ensures i == i'
  {
    if i < i' {
      BeforeGrows(apps, i + 1, i', u);
    } else if i' < i {
      BeforeGrows(apps, i' + 1, i, u);
    }
  }

  lemma NthIs(apps: seq<App>, i: nat, u: string, k: nat)
    requires IsNth(apps, i, u, k)
    ensures Nth(apps, u, k, 0) == Some(i)
  {
    hide Nth;
    NthOnce(apps, i, Nth(apps, u, k, 0).value, u, k);
  }

  /** What entry j adds to the apps moved. */
  lemma MovedStep(apps: seq<App>, order: Order, j: nat, i: nat)
    requires j < |order| && i < |apps|
    ensures Moved(apps, order, j + 1, i) <==> Moved(apps, order, j, i) || Pick(apps, order, j) == Some(i)
    ensures Pick(apps, order, j) == Some(i) ==> !Moved(apps, order, j, i)
  {
    hide Nth;
    if order[j].Some? && apps[i].uuid == order[j] {
      var u := order[j].value;
      if IsNth(apps, i, u, Asked(order, j, u)) {
        NthIs(apps, i, u, Asked(order, j, u));
      }
    }
  }

  lemma {:induction false} PicksExactly(apps: seq<App>, order: Order, j: nat)
    requires j <= |order|
    ensures NoRepeat(Picks(apps, order, j))
    ensures forall i: nat :: i in Picks(apps, order, j) <==> i < |apps| && Moved(apps, order, j, i)
  {
    hide Moved, Pick;
    if j == 0 {
      NothingMoved(apps, order);
    } else {
      PicksExactly(apps, order, j - 1);
      var p := Picks(apps, order, j - 1);
      forall i: nat | i < |apps|
        ensures i in Picks(apps, order, j) <==> Moved(apps, order, j, i)
        ensures Pick(apps, order, j - 1) == Some(i) ==> i !in p
      {
        MovedStep(apps, order, j - 1, i);
      }
    }
  }

  lemma NothingMoved(apps: seq<App>, order: Order)
    ensures forall i :: 0 <= i < |apps| ==> !Moved(apps, order, 0, i)
  {
  }

  lemma {:induction false} RestExactly(apps: seq<App>, order: Order, i: nat)
    requires i <= |apps|
    ensures forall k: nat :: k in Rest(apps, order, i) <==> k < i && !Moved(apps, order, |order|, k)
    ensures Ascending(Rest(apps, order, i))
  {
    hide Moved;
    if i > 0 {
      RestExactly(apps, order, i - 1);
    }
  }

  // ----- The result is a permutation -----

  ghost predicate Covers(idx: seq<nat>, n: nat) {
    NoRepeat(idx) && forall i: nat :: i in idx <==> i < n
  }

  lemma CoversLess(idx: seq<nat>, n: nat, p: nat)
    requires Covers(idx, n + 1) && p < |idx| && idx[p] == n
    ensures Covers(idx[..p] + idx[p + 1..], n)
  {
    var r := idx[..p] + idx[p + 1..];
    forall i: nat
      ensures i in r <==> i < n
    {
      if i in idx && i != n {
        var q :| 0 <= q < |idx| && idx[q] == i;
        assert r[if q < p then q else q - 1] == i;
      }
    }
  }

  lemma AtJoined(apps: seq<App>, p: seq<nat>, q: seq<nat>)
    requires (forall k :: 0 <= k < |p| ==> p[k] < |apps|) && (forall k :: 0 <= k < |q| ==> q[k] < |apps|)
    ensures At(apps, p + q) == At(apps, p) + At(apps, q)
  {
  }

  lemma Taken(x: seq<App>, a: App, y: seq<App>, r: seq<App>)
    requires multiset(x + y) == multiset(r)
    ensures multiset(x + [a] + y) == multiset(r + [a])
  {
    assert multiset(x + [a] + y) == multiset(x + y) + multiset{a};
  }

  lemma AtTaken(apps: seq<App>, idx: seq<nat>, p: nat)
    requires p < |idx| && forall k :: 0 <= k < |idx| ==> idx[k] < |apps|
    ensures At(apps, idx) == At(apps, idx[..p]) + [apps[idx[p]]] + At(apps, idx[p + 1..])
  {
  }

  lemma CoversInRange(idx: seq<nat>, n: nat)
    requires Covers(idx, n)
    ensures (forall k :: 0 <= k < |idx| ==> idx[k] < n) && (n == 0 ==> idx == [])
  {
    assert forall k :: 0 <= k < |idx| ==> idx[k] in idx;
    assert |idx| > 0 ==> idx[0] in idx;
  }

  lemma {:induction false} CoveredIsPermuted(apps: seq<App>, idx: seq<nat>, n: nat)
    requires n <= |apps| && Covers(idx, n)
    ensures forall k :: 0 <= k < |idx| ==> idx[k] < n
    ensures multiset(At(apps, idx)) == multiset(apps[..n])
  {
    CoversInRange(idx, n);
    if n == 0 {
      assert At(apps, idx) == apps[..0];
    } else {
      var p := Place(idx, n);
      CoversLess(idx, n - 1, p);
      CoveredIsPermuted(apps, idx[..p] + idx[p + 1..], n - 1);
      PutBack(apps, idx, p, n);
    }
  }

  lemma Place(idx: seq<nat>, n: nat) returns (p: nat)
    requires n > 0 && Covers(idx, n)
    ensures p < |idx| && idx[p] == n - 1
  {
    assert n - 1 in idx;
    p :| 0 <= p < |idx| && idx[p] == n - 1;
  }

  lemma PutBack(apps: seq<App>, idx: seq<nat>, p: nat, n: nat)
    requires 0 < n <= |apps| && p < |idx| && idx[p] == n - 1 && forall k :: 0 <= k < |idx| ==> idx[k] < |apps|
    requires multiset(At(apps, idx[..p] + idx[p + 1..])) == multiset(apps[..n - 1])
    ensures multiset(At(apps, idx)) == multiset(apps[..n])
  {
    hide At;
    var x, y := idx[..p], idx[p + 1..];
    AtJoined(apps, x, y);
    AtTaken(apps, idx, p);
    PrefixLast(apps, n);
    Taken(At(apps, x), apps[n - 1], At(apps, y), apps[..n - 1]);
  }

  lemma PrefixLast(apps: seq<App>, n: nat)
    requires 0 < n <= |apps|
    ensures apps[..n] == apps[..n - 1] + [apps[n - 1]]
  {
  }

  /** Nothing is lost and nothing doubled: the result has every app as often as the file had it, whatever the order asks for. */
  lemma ReorderedPermutes(apps: seq<App>, order: Order)
    ensures multiset(Reordered(apps, order)) == multiset(apps)
  {
    var p, r := Picks(apps, order, |order|), Rest(apps, order, |apps|);
    PicksExactly(apps, order, |order|);
    RestExactly(apps, order, |apps|);
    hide Picks, Rest, Moved;
    assert NoRepeat(r);
    NoRepeatJoined(p, r);
    CoveredIsPermuted(apps, p + r, |apps|);
    AtJoined(apps, p, r);
    assert apps[..|apps|] == apps;
  }

  /** The apps asked for come first: entry j of the order, asking for a uuid the k-th time, puts the k-th app with it right behind
      those the entries before put there, when there are more than k such apps; and an entry without a uuid, or for which there
      are not as many apps, puts none. */
  lemma KthRequestTakesKthApp(apps: seq<App>, order: Order, j: nat)
    requires j < |order|
    ensures var n := |Picks(apps, order, j)|;
            if order[j].Some? && Asked(order, j, order[j].value) < Before(apps, |apps|, order[j].value) then
              && |Picks(apps, order, j + 1)| == n + 1 && n < |Reordered(apps, order)|
              && exists i: nat :: IsNth(apps, i, order[j].value, Asked(order, j, order[j].value)) && Reordered(apps, order)[n] == apps[i]
            else Picks(apps, order, j + 1) == Picks(apps, order, j)
  {
    hide Nth, Rest;
    PicksGrow(apps, order, j + 1, |order|);
    if order[j].Some? {
      var u, k := order[j].value, Asked(order, j, order[j].value);
      if k < Before(apps, |apps|, u) {
        var i := NthExists(apps, |apps|, u, k);
        NthIs(apps, i, u, k);
        assert Picks(apps, order, j + 1)[|Picks(apps, order, j)|] == i;
      } else if Pick(apps, order, j).Some? {
        NthNeeds(apps, Pick(apps, order, j).value, u, k);
      }
    }
  }

  lemma {:induction false} NthExists(apps: seq<App>, n: nat, u: string, k: nat) returns (i: nat)
    requires n <= |apps| && k < Before(apps, n, u)
    ensures IsNth(apps, i, u, k)
  {
    if k < Before(apps, n - 1, u) {
      i := NthExists(apps, n - 1, u, k);
    } else {
      i := n - 1;
    }
  }

  lemma NthNeeds(apps: seq<App>, i: nat, u: string, k: nat)
    requires IsNth(apps, i, u, k)
    ensures k < Before(apps, |apps|, u)
  {
    BeforeGrows(apps, i + 1, |apps|, u);
  }

  lemma {:induction false} PicksGrow(apps: seq<App>, order: Order, j: nat, j': nat)
    requires j <= j' <= |order|
    ensures Picks(apps, order, j) <= Picks(apps, order, j')
  {
    if j < j' {
      PicksGrow(apps, order, j, j' - 1);
    }
  }

  /** The apps not asked for keep their order among themselves, behind all others. */
  lemma RestKeepsOrder(apps: seq<App>, order: Order)
    ensures var p, r := Picks(apps, order, |order|), Rest(apps, order, |apps|);
      && |Reordered(apps, order)| == |p| + |r| && Ascending(r)
      && (forall k :: 0 <= k < |r| ==> r[k] < |apps| && Reordered(apps, order)[|p| + k] == apps[r[k]])
      && forall i: nat :: i in r <==> i < |apps| && (apps[i].uuid.None? || Asked(order, |order|, apps[i].uuid.value) <= Before(apps, i, apps[i].uuid.value))
  {
    hide Picks, Rest, Before, Asked, Ascending, At;
    RestExactly(apps, order, |apps|);
  }

  // ----- The two loops -----

  /** The first app with the wanted uuid that has not been moved is the k-th one. */
  method PickOne(apps: seq<App>, order: Order, j: nat, itemMoved: array<bool>) returns (r: Option<nat>)
    requires j < |order| && order[j].Some? && itemMoved.Length == |apps|
    requires forall i :: 0 <= i < |apps| ==> (itemMoved[i] <==> Moved(apps, order, j, i))
    ensures r == Pick(apps, order, j)
  {
    hide Nth;
    var target := order[j].value;
    ghost var k := Asked(order, j, target);
    for i: nat := 0 to |apps|
      invariant Before(apps, i, target) <= k
      invariant forall m :: 0 <= m < i ==> !IsNth(apps, m, target, k)
    {
      if !itemMoved[i] {
        if apps[i].uuid == Some(target) {
          NthIs(apps, i, target, k);
          return Some(i);
        }
      }
    }
    r := None;
  }

  lemma PicksStep(apps: seq<App>, order: Order, j: nat, result: seq<App>)
    requires j < |order| && result == At(apps, Picks(apps, order, j))
    ensures At(apps, Picks(apps, order, j + 1))
      == match Pick(apps, order, j) case Some(i) => result + [apps[i]] case None => result
  {
    hide Pick;
  }

  lemma RestStep(apps: seq<App>, order: Order, i: nat, picked: seq<App>)
    requires i < |apps|
    ensures picked + At(apps, Rest(apps, order, i + 1))
      == picked + At(apps, Rest(apps, order, i)) + (if Moved(apps, order, |order|, i) then [] else [apps[i]])
  {
    hide Moved;
  }

  method Reorder(apps: seq<App>, order: Order) returns (result: seq<App>)
    ensures result == Reordered(apps, order)
  {
    hide Nth, Rest, Moved, Picks, At, Pick, Asked, Before;
    result := [];
    var itemMoved := new bool[|apps|](_ => false);
    NothingMoved(apps, order);
    NothingYet(apps, order);
    for j: nat := 0 to |order|
      invariant result == At(apps, Picks(apps, order, j))
      invariant forall i :: 0 <= i < |apps| ==> (itemMoved[i] <==> Moved(apps, order, j, i))
    {
      AllMovedStep(apps, order, j);
      PicksStep(apps, order, j, result);
      if order[j].None? {
        continue;
      }
      var r := PickOne(apps, order, j, itemMoved);
      if r.Some? {
        result := result + [apps[r.value]];
        itemMoved[r.value] := true;
      }
    }
    ghost var picked := result;
    for i: nat := 0 to |apps|
      invariant result == picked + At(apps, Rest(apps, order, i))
      invariant forall i :: 0 <= i < |apps| ==> (itemMoved[i] <==> Moved(apps, order, |order|, i))
    {
      RestStep(apps, order, i, picked);
      if !itemMoved[i] {
        result := result + [apps[i]];
      }
    }
  }

  lemma NothingYet(apps: seq<App>, order: Order)
    ensures At(apps, Picks(apps, order, 0)) == [] && At(apps, Rest(apps, order, 0)) == []
  {
  }

  lemma AllMovedStep(apps: seq<App>, order: Order, j: nat)
    requires j < |order|
    ensures forall i: nat :: i < |apps| ==> (Moved(apps, order, j + 1, i) <==> Moved(apps, order, j, i) || Pick(apps, order, j) == Some(i))
  {
    hide Moved, Pick;
    forall i: nat | i < |apps|
      ensures Moved(apps, order, j + 1, i) <==> Moved(apps, order, j, i) || Pick(apps, order, j) == Some(i)
    {
      MovedStep(apps, order, j, i);
    }
  }

  // ----- Orders that change nothing -----

  function Uuids(apps: seq<App>): Order {
    seq(|apps|, i requires 0 <= i < |apps| => apps[i].uuid)
  }

  lemma {:induction false} AskedIsBefore(apps: seq<App>, j: nat, u: string)
    requires j <= |apps|
    ensures Asked(Uuids(apps), j, u) == Before(apps, j, u)
  {
    if j > 0 {
      AskedIsBefore(apps, j - 1, u);
    }
  }

  lemma {:induction false} OwnPicks(apps: seq<App>, j: nat)
    requires j <= |apps| && forall i :: 0 <= i < |apps| ==> apps[i].uuid.Some?
    ensures |Picks(apps, Uuids(apps), j)| == j && forall k :: 0 <= k < j ==> Picks(apps, Uuids(apps), j)[k] == k
  {
    if j > 0 {
      OwnPicks(apps, j - 1);
      var u := apps[j - 1].uuid.value;
      AskedIsBefore(apps, j - 1, u);
      NthIs(apps, j - 1, u, Before(apps, j - 1, u));
    }
  }

  /** Asking for the apps as they are, duplicate uuids and all, or for nothing, leaves the list alone. */
  lemma SameOrderKeeps(apps: seq<App>)
    ensures (forall i :: 0 <= i < |apps| ==> apps[i].uuid.Some?) ==> Reordered(apps, Uuids(apps)) == apps
    ensures Reordered(apps, []) == apps
  {
    if forall i :: 0 <= i < |apps| ==> apps[i].uuid.Some? {
      OwnPicks(apps, |apps|);
      ReorderedPermutes(apps, Uuids(apps));
      SameLength(Reordered(apps, Uuids(apps)), apps);
    }
    NothingAsked(apps, |apps|);
  }

  lemma SameLength(p: seq<App>, q: seq<App>)
    requires multiset(p) == multiset(q)
    ensures |p| == |q|
  {
    assert |multiset(p)| == |p| && |multiset(q)| == |q|;
  }

  lemma {:induction false} NothingAsked(apps: seq<App>, i: nat)
    requires i <= |apps|
    ensures |Rest(apps, [], i)| == i && forall k :: 0 <= k < i ==> Rest(apps, [], i)[k] == k
  {
    if i > 0 {
      NothingAsked(apps, i - 1);
    }
  }
}
