/** Tasks to run at once, and tasks to run at a time, latest deadline first. */
module TaskPool {
  import opened Wrappers

  type TaskId = nat

  datatype Timer = Timer(deadline: int, id: TaskId)

  ghost predicate Sorted(ts: seq<Timer>) {
    forall i, j :: 0 <= i < j < |ts| ==> ts[i].deadline >= ts[j].deadline
  }

  /** The first timer with this id, or the end. */
  function FirstWith(ts: seq<Timer>, id: TaskId): (k: nat)
    ensures k <= |ts|
    ensures k < |ts| ==> ts[k].id == id
    ensures forall i :: 0 <= i < k ==> ts[i].id != id
  {
    if ts == [] || ts[0].id == id then 0 else 1 + FirstWith(ts[1..], id)
  }

  /** Where a new timer goes: before the first one with a smaller deadline. */
  function Place(ts: seq<Timer>, deadline: int): (k: nat)
    ensures k <= |ts|
    ensures k < |ts| ==> ts[k].deadline < deadline
    ensures forall i :: 0 <= i < k ==> ts[i].deadline >= deadline
  {
    if ts == [] || ts[0].deadline < deadline then 0 else 1 + Place(ts[1..], deadline)
  }

  function Inserted(ts: seq<Timer>, t: Timer): seq<Timer> {
    var k := Place(ts, t.deadline);
    ts[..k] + [t] + ts[k..]
  }

  function Erased(ts: seq<Timer>, id: TaskId): seq<Timer> {
    var k := FirstWith(ts, id);
    if k < |ts| then ts[..k] + ts[k + 1..] else ts
  }

  /** One pass of swapping from the back, t being the last: at every step the later of two timers goes first. */
  function Bubbled(front: seq<Timer>, t: Timer): seq<Timer> {
    if front == [] then [t]
    else
      var init, last := front[..|front| - 1], front[|front| - 1];
      if t.deadline > last.deadline then Bubbled(init, t) + [last] else Bubbled(init, last) + [t]
  }

  /** A delayed timer is moved forward, never backward. */
  function Delayed(ts: seq<Timer>, id: TaskId, deadline: int): seq<Timer> {
    var k := FirstWith(ts, id);
    if k < |ts| then Bubbled(ts[..k], Timer(deadline, id)) + ts[k + 1..] else ts
  }

  lemma {:induction false} BubbledInOrder(front: seq<Timer>, t: Timer)
    requires Sorted(front + [t])
    ensures Bubbled(front, t) == front + [t]
  {
    if front != [] {
      var init, last := front[..|front| - 1], front[|front| - 1];
      var s := front + [t];
      assert s[|front| - 1] == last && s[|front|] == t;
      assert init + [last] == front && front == s[..|front|];
      BubbledInOrder(init, last);
    }
  }

  /** Among timers in order the pass is an insertion. */
  lemma {:induction false} BubbledIsInserted(front: seq<Timer>, t: Timer)
    requires Sorted(front)
    ensures Bubbled(front, t) == Inserted(front, t)
  {
    hide Inserted, Place;
    if front == [] {
      InsertedLast(front, t);
    } else {
      var n := |front| - 1;
      var init, last := front[..n], front[n];
      assert init + [last] == front;
      if t.deadline > last.deadline {
        BubbledIsInserted(init, t);
        InsertedInit(init, last, t);
      } else {
        BubbledInOrder(init, last);
        InsertedLast(front, t);
      }
    }
  }

  lemma InsertedInit(init: seq<Timer>, last: Timer, t: Timer)
    requires t.deadline > last.deadline
    ensures Inserted(init + [last], t) == Inserted(init, t) + [last]
  {
    PlaceInit(init + [last], t.deadline);
    hide Place;
    var k := Place(init, t.deadline);
    assert (init + [last])[..|init|] == init;
    assert (init + [last])[..k] == init[..k];
    assert (init + [last])[k..] == init[k..] + [last];
  }

  lemma InsertedLast(front: seq<Timer>, t: Timer)
    requires Sorted(front) && (front != [] ==> t.deadline <= front[|front| - 1].deadline)
    ensures Inserted(front, t) == front + [t]
  {
    assert Place(front, t.deadline) == |front|;
  }

  lemma PlaceInit(front: seq<Timer>, deadline: int)
    requires front != [] && deadline > front[|front| - 1].deadline
    ensures Place(front, deadline) == Place(front[..|front| - 1], deadline)
  {
    hide Place;
    var init := front[..|front| - 1];
    var k, k' := Place(front, deadline), Place(init, deadline);
    assert k' < |init| ==> init[k'] == front[k'];
    assert k < |init| ==> init[k] == front[k];
  }

  lemma InsertedSorted(ts: seq<Timer>, t: Timer)
    requires Sorted(ts)
    ensures Sorted(Inserted(ts, t))
  {
    hide Place;
  }

  lemma ErasedSorted(ts: seq<Timer>, id: TaskId)
    requires Sorted(ts)
    ensures Sorted(Erased(ts, id))
  {
  }

  /** A delay keeps the order exactly when the new deadline is not before that of the timer behind. */
  lemma DelayedSortedExactly(ts: seq<Timer>, id: TaskId, deadline: int)
    requires Sorted(ts)
    ensures var k := FirstWith(ts, id);
            Sorted(Delayed(ts, id, deadline)) <==> k + 1 < |ts| ==> deadline >= ts[k + 1].deadline
  {
    var k := FirstWith(ts, id);
    if k < |ts| {
      InsertedSorted(ts[..k], Timer(deadline, id));
      InsertedAbove(ts[..k], Timer(deadline, id), ts[k].deadline);
      InsertedHas(ts[..k], Timer(deadline, id));
      BubbledIsInserted(ts[..k], Timer(deadline, id));
      hide Inserted, Bubbled, Place;
      SortedJoined(Inserted(ts[..k], Timer(deadline, id)), ts[k + 1..], ts[k].deadline, deadline);
    }
  }

  lemma SortedJoined(p: seq<Timer>, q: seq<Timer>, floor: int, deadline: int)
    requires Sorted(p) && Sorted(q) && exists t :: t in p && t.deadline == deadline
    requires forall i :: 0 <= i < |p| ==> p[i].deadline >= floor || p[i].deadline == deadline
    requires forall j :: 0 <= j < |q| ==> q[j].deadline <= floor
    ensures Sorted(p + q) <==> |q| > 0 ==> deadline >= q[0].deadline
  {
    var t :| t in p && t.deadline == deadline;
    var i :| 0 <= i < |p| && p[i] == t;
    assert (p + q)[i] == t && (q != [] ==> (p + q)[|p|] == q[0]);
  }

  lemma InsertedAbove(ts: seq<Timer>, t: Timer, floor: int)
    requires forall i :: 0 <= i < |ts| ==> ts[i].deadline >= floor
    ensures forall i :: 0 <= i < |Inserted(ts, t)| ==> Inserted(ts, t)[i].deadline >= floor || Inserted(ts, t)[i] == t
  {
    hide Place;
  }

  lemma InsertedHas(ts: seq<Timer>, t: Timer)
    ensures t in Inserted(ts, t)
  {
    hide Place;
    assert Inserted(ts, t)[Place(ts, t.deadline)] == t;
  }

  /** Whatever their order, inserting adds a timer, erasing takes one away and delaying changes one deadline; no other is touched. */
  lemma OthersStay(ts: seq<Timer>, t: Timer)
    ensures multiset(Inserted(ts, t)) == multiset(ts) + multiset{t}
    ensures var k := FirstWith(ts, t.id);
      if k == |ts| then Erased(ts, t.id) == ts && Delayed(ts, t.id, t.deadline) == ts
      else
        && multiset(Erased(ts, t.id)) + multiset{ts[k]} == multiset(ts)
        && multiset(Delayed(ts, t.id, t.deadline)) + multiset{ts[k]} == multiset(ts) + multiset{t}
  {
    hide Place, FirstWith, Bubbled;
    Placed(ts, Place(ts, t.deadline), t);
    if FirstWith(ts, t.id) < |ts| {
      Exchanged(ts, FirstWith(ts, t.id), t);
    }
  }

  lemma Placed(ts: seq<Timer>, i: nat, t: Timer)
    requires i <= |ts|
    ensures multiset(ts[..i] + [t] + ts[i..]) == multiset(ts) + multiset{t}
  {
    CutAt(ts, i);
    Parts(ts[..i], [t], ts[i..]);
  }

  lemma Exchanged(ts: seq<Timer>, k: nat, t: Timer)
    requires k < |ts|
    ensures multiset(ts[..k] + ts[k + 1..]) + multiset{ts[k]} == multiset(ts)
    ensures multiset(Bubbled(ts[..k], t) + ts[k + 1..]) + multiset{ts[k]} == multiset(ts) + multiset{t}
  {
    hide Bubbled;
    BubbledStays(ts[..k], t);
    CutAt(ts, k);
    Parts(ts[..k], [], ts[k + 1..]);
    Parts(Bubbled(ts[..k], t), [], ts[k + 1..]);
  }

  lemma Parts(p: seq<Timer>, q: seq<Timer>, r: seq<Timer>)
    ensures multiset(p + q + r) == multiset(p) + multiset(q) + multiset(r)
    ensures multiset(p + r) == multiset(p) + multiset(r)
  {
  }

  lemma CutAt(ts: seq<Timer>, k: nat)
    requires k <= |ts|
    ensures multiset(ts) == multiset(ts[..k]) + multiset(ts[k..])
    ensures k < |ts| ==> multiset(ts) == multiset(ts[..k]) + multiset{ts[k]} + multiset(ts[k + 1..])
  {
    assert ts == ts[..k] + ts[k..];
    if k < |ts| {
      assert ts[k..] == [ts[k]] + ts[k + 1..];
    }
  }

  lemma {:induction false} BubbledStays(front: seq<Timer>, t: Timer)
    ensures multiset(Bubbled(front, t)) == multiset(front) + multiset{t} && |Bubbled(front, t)| == |front| + 1
  {
    if front != [] {
      var init, last := front[..|front| - 1], front[|front| - 1];
      assert front == init + [last];
      BubbledStays(init, if t.deadline > last.deadline then t else last);
    }
  }

  /** An earlier deadline can leave the soonest timer out of sight, at the front. */
  lemma HastenedIsLost()
    ensures var ts := [Timer(9, 1), Timer(5, 2)];
            Sorted(ts) && Delayed(ts, 1, 3) == [Timer(3, 1), Timer(5, 2)] && !Sorted(Delayed(ts, 1, 3))
  {
    var ts := [Timer(9, 1), Timer(5, 2)];
    assert FirstWith(ts, 1) == 0;
    var d := Delayed(ts, 1, 3);
    assert d == [Timer(3, 1), Timer(5, 2)];
    assert d[0].deadline < d[1].deadline;
  }

  // ----- The pool as a value -----

  datatype Pool = Pool(tasks: seq<TaskId>, timers: seq<Timer>)

  predicate Due(p: Pool, now: int) {
    p.timers != [] && p.timers[|p.timers| - 1].deadline <= now
  }

  function Popped(p: Pool, now: int): (r: (Pool, Option<TaskId>)) {
    if p.tasks != [] then (p.(tasks := p.tasks[1..]), Some(p.tasks[0]))
    else if Due(p, now) then (p.(timers := p.timers[..|p.timers| - 1]), Some(p.timers[|p.timers| - 1].id))
    else (p, None)
  }

  /** What pop returns: the oldest immediate task; failing that, a timer whose time has come, never one before its time. While the
      timers are in order none of the others comes before it, and nothing is returned only when nothing is due. */
  lemma PopTakesTheNext(p: Pool, now: int)
    ensures var (p', r) := Popped(p, now);
      && (r.None? ==> p.tasks == [] && p' == p)
      && (r.None? && Sorted(p.timers) ==> forall t :: t in p.timers ==> t.deadline > now)
      && (p.tasks != [] ==> r.Some? && p'.timers == p.timers && p.tasks == [r.value] + p'.tasks)
      && (p.tasks == [] && r.Some? ==>
            && p'.tasks == []
            && exists t :: t in p.timers && t.id == r.value && t.deadline <= now
                 && p.timers == p'.timers + [t] && (Sorted(p.timers) ==> forall o :: o in p.timers ==> t.deadline <= o.deadline))
  {
    var n := |p.timers|;
    if n > 0 {
      var t := p.timers[n - 1];
      assert p.timers == p.timers[..n - 1] + [t];
      forall o | o in p.timers && Sorted(p.timers)
        ensures t.deadline <= o.deadline
      {
        var i :| 0 <= i < n && p.timers[i] == o;
      }
    }
  }

  // ----- Runs -----

  datatype Event =
    | Push(id: TaskId)
    | PushDelayed(timer: Timer)
    | Delay(target: TaskId, deadline: int)
    | Cancel(target: TaskId)
    | Pop(now: int)

  function Step(p: Pool, ev: Event): Pool {
    match ev
    case Push(id) => p.(tasks := p.tasks + [id])
    case PushDelayed(t) => p.(timers := Inserted(p.timers, t))
    case Delay(id, deadline) => p.(timers := Delayed(p.timers, id, deadline))
    case Cancel(id) => p.(timers := Erased(p.timers, id))
    case Pop(now) => Popped(p, now).0
  }

  /** Every task ever handed in, and what became of it. */
  datatype Books = Books(
    pushed: seq<TaskId>, ran: seq<TaskId>,
    timed: seq<TaskId>, timedRan: seq<TaskId>, cancelled: seq<TaskId>)

  const NO_BOOKS := Books([], [], [], [], [])

  function Booked(b: Books, p: Pool, ev: Event): Books {
    match ev
    case Push(id) => b.(pushed := b.pushed + [id])
    case PushDelayed(t) => b.(timed := b.timed + [t.id])
    case Delay(_, _) => b
    case Cancel(id) => if FirstWith(p.timers, id) < |p.timers| then b.(cancelled := b.cancelled + [id]) else b
    case Pop(now) =>
      match Popped(p, now).1
      case None => b
      case Some(id) => if p.tasks != [] then b.(ran := b.ran + [id]) else b.(timedRan := b.timedRan + [id])
  }

  function Run(evs: seq<Event>): (r: (Pool, Books)) {
    if evs == [] then (Pool([], []), NO_BOOKS)
    else
      var (p, b) := Run(evs[..|evs| - 1]);
      (Step(p, evs[|evs| - 1]), Booked(b, p, evs[|evs| - 1]))
  }

  /** How often a task is among these. */
  function Count(ids: seq<TaskId>, id: TaskId): nat {
    if ids == [] then 0 else Count(ids[..|ids| - 1], id) + (if ids[|ids| - 1] == id then 1 else 0)
  }

  function Waiting(ts: seq<Timer>, id: TaskId): nat {
    if ts == [] then 0 else Waiting(ts[..|ts| - 1], id) + (if ts[|ts| - 1].id == id then 1 else 0)
  }

  lemma CountAppend(ids: seq<TaskId>, last: TaskId, id: TaskId)
    ensures Count(ids + [last], id) == Count(ids, id) + (if last == id then 1 else 0)
  {
    assert (ids + [last])[..|ids|] == ids;
  }

  lemma WaitingOne(t: Timer, id: TaskId)
    ensures Waiting([t], id) == if t.id == id then 1 else 0
  {
    assert [t][..0] == [];
  }

  lemma {:induction false} WaitingJoined(p: seq<Timer>, q: seq<Timer>, id: TaskId)
    ensures Waiting(p + q, id) == Waiting(p, id) + Waiting(q, id)
  {
    if q == [] {
      assert p + q == p;
    } else {
      var q0, last := q[..|q| - 1], q[|q| - 1];
      WaitingJoined(p, q0, id);
      JoinedInit(p, q);
    }
  }

  lemma JoinedInit(p: seq<Timer>, q: seq<Timer>)
    requires q != []
    ensures (p + q)[..|p + q| - 1] == p + q[..|q| - 1] && (p + q)[|p + q| - 1] == q[|q| - 1]
  {
  }

  lemma WaitingCut(ts: seq<Timer>, k: nat, id: TaskId)
    requires k <= |ts|
    ensures Waiting(ts, id) == Waiting(ts[..k], id) + Waiting(ts[k..], id)
    ensures k < |ts| ==> Waiting(ts[k..], id) == (if ts[k].id == id then 1 else 0) + Waiting(ts[k + 1..], id)
  {
    hide Waiting;
    WaitingJoined(ts[..k], ts[k..], id);
    assert ts == ts[..k] + ts[k..];
    if k < |ts| {
      assert ts[k..] == [ts[k]] + ts[k + 1..];
      WaitingJoined([ts[k]], ts[k + 1..], id);
      WaitingOne(ts[k], id);
    }
  }

  lemma WaitingInserted(ts: seq<Timer>, t: Timer, id: TaskId)
    ensures Waiting(Inserted(ts, t), id) == Waiting(ts, id) + (if t.id == id then 1 else 0)
  {
    hide Waiting;
    var k := Place(ts, t.deadline);
    hide Place;
    WaitingCut(ts, k, id);
    WaitingJoined(ts[..k], [t], id);
    WaitingJoined(ts[..k] + [t], ts[k..], id);
    WaitingOne(t, id);
  }

  lemma WaitingErased(ts: seq<Timer>, gone: TaskId, id: TaskId)
    ensures Waiting(ts, id) == Waiting(Erased(ts, gone), id) + (if gone == id && FirstWith(ts, gone) < |ts| then 1 else 0)
  {
    hide Waiting;
    var k := FirstWith(ts, gone);
    if k < |ts| {
      WaitingCut(ts, k, id);
      WaitingJoined(ts[..k], ts[k + 1..], id);
    }
  }

  lemma {:induction false} WaitingBubbled(front: seq<Timer>, t: Timer, id: TaskId)
    ensures Waiting(Bubbled(front, t), id) == Waiting(front, id) + (if t.id == id then 1 else 0)
  {
    if front == [] {
      WaitingOne(t, id);
    } else {
      var init, last := front[..|front| - 1], front[|front| - 1];
      var late, early := if t.deadline > last.deadline then t else last, if t.deadline > last.deadline then last else t;
      WaitingBubbled(init, late, id);
      WaitingJoined(Bubbled(init, late), [early], id);
      WaitingOne(early, id);
    }
  }

  lemma WaitingDelayed(ts: seq<Timer>, target: TaskId, deadline: int, id: TaskId)
    ensures Waiting(Delayed(ts, target, deadline), id) == Waiting(ts, id)
  {
    hide Waiting, Bubbled;
    var k := FirstWith(ts, target);
    if k < |ts| {
      WaitingCut(ts, k, id);
      WaitingBubbled(ts[..k], Timer(deadline, target), id);
      WaitingJoined(Bubbled(ts[..k], Timer(deadline, target)), ts[k + 1..], id);
    }
  }

  /** The immediate tasks run are those pushed, in order, up to those still queued; the timed ones are, one for one, run,
      cancelled or still waiting. */
  ghost predicate Balanced(p: Pool, b: Books) {
    && b.pushed == b.ran + p.tasks
    && forall id :: Settled(p, b, id)
  }

  ghost predicate Settled(p: Pool, b: Books, id: TaskId) {
    Count(b.timed, id) == Count(b.timedRan, id) + Count(b.cancelled, id) + Waiting(p.timers, id)
  }

  lemma StepSettles(p: Pool, b: Books, ev: Event, id: TaskId)
    requires Settled(p, b, id)
    ensures Settled(Step(p, ev), Booked(b, p, ev), id)
  {
    hide Inserted, Delayed, Erased, FirstWith, Count;
    match ev
    case Push(_) =>
    case PushDelayed(t) =>
      WaitingInserted(p.timers, t, id);
      CountAppend(b.timed, t.id, id);
    case Delay(target, deadline) => WaitingDelayed(p.timers, target, deadline, id);
    case Cancel(target) =>
      WaitingErased(p.timers, target, id);
      CountAppend(b.cancelled, target, id);
      hide Waiting;
      ErasedNothing(p.timers, target);
    case Pop(now) =>
      if p.timers != [] {
        CountAppend(b.timedRan, p.timers[|p.timers| - 1].id, id);
      }
  }

  lemma ErasedNothing(ts: seq<Timer>, id: TaskId)
    ensures FirstWith(ts, id) == |ts| ==> Erased(ts, id) == ts
  {
  }

  lemma StepBalances(p: Pool, b: Books, ev: Event)
    requires Balanced(p, b)
    ensures Balanced(Step(p, ev), Booked(b, p, ev))
  {
    hide Settled;
    forall id
      ensures Settled(Step(p, ev), Booked(b, p, ev), id)
    {
      StepSettles(p, b, ev, id);
    }
    hide Inserted, Delayed, Erased, FirstWith;
    match ev
    case Push(id) => assert b.ran + p.tasks + [id] == b.ran + (p.tasks + [id]);
    case Pop(now) =>
      if p.tasks != [] {
        HeadMoves(b.ran, p.tasks);
      }
    case _ =>
  }

  lemma HeadMoves(p: seq<TaskId>, q: seq<TaskId>)
    requires q != []
    ensures p + q == (p + [q[0]]) + q[1..]
  {
  }

  /** Nothing is lost or run twice in any run, whatever the deadlines. */
  lemma {:induction false} RunBalances(evs: seq<Event>)
    ensures Balanced(Run(evs).0, Run(evs).1)
  {
    hide Step, Booked, Balanced;
    if evs == [] {
      NothingBalances();
    } else {
      var n := |evs| - 1;
      RunBalances(evs[..n]);
      StepBalances(Run(evs[..n]).0, Run(evs[..n]).1, evs[n]);
    }
  }

  lemma NothingBalances()
    ensures Balanced(Pool([], []), NO_BOOKS)
  {
  }

  /** A timed task handed in once runs at most once, and not at all while it waits or once a cancel has found it. */
  lemma RunsAtMostOnce(evs: seq<Event>, id: TaskId)
    requires Count(Run(evs).1.timed, id) <= 1
    ensures var (p, b) := Run(evs);
            Count(b.timedRan, id) + Count(b.cancelled, id) + Waiting(p.timers, id) <= 1
  {
    RunBalances(evs);
    assert Settled(Run(evs).0, Run(evs).1, id);
  }

  /** What comes later in a run takes nothing back. */
  lemma {:induction false} BooksGrow(evs: seq<Event>, n: nat)
    requires n <= |evs|
    ensures var b, b' := Run(evs[..n]).1, Run(evs).1;
            b.timedRan <= b'.timedRan && b.cancelled <= b'.cancelled && b.timed <= b'.timed && b.ran <= b'.ran && b.pushed <= b'.pushed
  {
    hide Step, Booked;
    if n == |evs| {
      assert evs[..n] == evs;
    } else {
      var m := |evs| - 1;
      assert evs[..m][..n] == evs[..n];
      BooksGrow(evs[..m], n);
      BookedGrows(Run(evs[..m]).1, Run(evs[..m]).0, evs[m]);
    }
  }

  lemma BookedGrows(b: Books, p: Pool, ev: Event)
    ensures var b' := Booked(b, p, ev);
            b.timedRan <= b'.timedRan && b.cancelled <= b'.cancelled && b.timed <= b'.timed && b.ran <= b'.ran && b.pushed <= b'.pushed
  {
    hide FirstWith;
  }

  lemma {:induction false} CountOfPrefix(p: seq<TaskId>, q: seq<TaskId>, id: TaskId)
    requires p <= q
    ensures Count(p, id) <= Count(q, id)
  {
    if |p| == |q| {
      assert p == q;
    } else {
      CountOfPrefix(p, q[..|q| - 1], id);
    }
  }

  /** After a successful cancel the task never runs, however the run goes on. */
  lemma CancelledNeverRuns(evs: seq<Event>, n: nat, id: TaskId)
    requires n < |evs| && evs[n] == Cancel(id) && FirstWith(Run(evs[..n]).0.timers, id) < |Run(evs[..n]).0.timers|
    requires Count(Run(evs).1.timed, id) <= 1
    ensures Count(Run(evs).1.timedRan, id) == 0
  {
    hide FirstWith;
    var m := n + 1;
    assert evs[..m][..n] == evs[..n];
    CountAppend(Run(evs[..n]).1.cancelled, id, id);
    BooksGrow(evs, m);
    CountOfPrefix(Run(evs[..m]).1.cancelled, Run(evs).1.cancelled, id);
    RunsAtMostOnce(evs, id);
  }

  /** Every delay so far only postponed. */
  ghost predicate OnlyPostpones(evs: seq<Event>) {
    forall n :: 0 <= n < |evs| && evs[n].Delay? ==>
      var ts := Run(evs[..n]).0.timers;
      var k := FirstWith(ts, evs[n].target);
      k < |ts| ==> evs[n].deadline >= ts[k].deadline
  }

  /** Then the timers stay in order. */
  lemma {:induction false} StaysSorted(evs: seq<Event>)
    requires OnlyPostpones(evs)
    ensures Sorted(Run(evs).0.timers)
  {
    hide Inserted, Delayed, Erased, FirstWith, Booked;
    if evs != [] {
      var n := |evs| - 1;
      var before, ev := evs[..n], evs[n];
      assert forall m :: 0 <= m < n ==> before[..m] == evs[..m] && before[m] == evs[m];
      StaysSorted(before);
      var p := Run(before).0;
      hide Run;
      match ev
      case Push(_) =>
      case PushDelayed(t) => InsertedSorted(p.timers, t);
      case Delay(id, deadline) => DelayedSortedExactly(p.timers, id, deadline);
      case Cancel(id) => ErasedSorted(p.timers, id);
      case Pop(_) =>
    }
  }

  // ----- The pool itself -----

  class Tasks {
    var tasks: seq<TaskId>
    var timers: seq<Timer>

    function Value(): Pool
      reads this
    {
      Pool(tasks, timers)
    }

    constructor ()
      ensures Value() == Pool([], [])
    {
      tasks, timers := [], [];
    }

    method Push(id: TaskId)
      modifies this`tasks
      ensures Value() == Step(old(Value()), Event.Push(id))
    {
      tasks := tasks + [id];
    }

    method PushDelayed(t: Timer)
      modifies this`timers
      ensures Value() == Step(old(Value()), Event.PushDelayed(t))
      ensures old(Sorted(timers)) ==> Sorted(timers)
    {
      ghost var place := Place(timers, t.deadline);
      if Sorted(timers) {
        InsertedSorted(timers, t);
      }
      var it := 0;
      while it < |timers|
        invariant it <= place
      {
        if timers[it].deadline < t.deadline {
          break;
        }
        it := it + 1;
      }
      assert it == place;
      timers := timers[..it] + [t] + timers[it..];
    }

    method Delay(id: TaskId, deadline: int)
      modifies this`timers
      ensures Value() == Step(old(Value()), Event.Delay(id, deadline))
    {
      hide Bubbled;
      ghost var ts := timers;
      ghost var k := FirstWith(ts, id);
      var it := 0;
      while it < |timers|
        invariant it <= k && timers == ts
      {
        if timers[it].id == id {
          timers := timers[it := Timer(deadline, timers[it].id)];
          break;
        }
        it := it + 1;
      }
      if it == |timers| {
        return;
      }
      assert timers[..it] == ts[..it] && timers[it + 1..] == ts[it + 1..];
      BubbleForward(it);
    }

    /** The swapping loop of a delay. */
    method BubbleForward(k: nat)
      requires k < |timers|
      modifies this`timers
      ensures timers == Bubbled(old(timers[..k]), old(timers[k])) + old(timers[k + 1..])
    {
      hide Bubbled;
      ghost var want := Bubbled(timers[..k], timers[k]) + timers[k + 1..];
      var it := k;
      while it > 0
        invariant it <= k < |timers|
        invariant Bubbled(timers[..it], timers[it]) + timers[it + 1..] == want
      {
        var prev := it - 1;
        BubbledStep(timers, it);
        if timers[it].deadline > timers[prev].deadline {
          timers := timers[it := timers[prev]][prev := timers[it]];
        }
        it := it - 1;
      }
      BubbledEnd(timers);
    }

    method Cancel(id: TaskId) returns (found: bool)
      modifies this`timers
      ensures Value() == Step(old(Value()), Event.Cancel(id))
      ensures found <==> exists t :: t in old(timers) && t.id == id
    {
      ghost var k := FirstWith(timers, id);
      var it := 0;
      while it < |timers|
        invariant it <= k && timers == old(timers)
      {
        if timers[it].id == id {
          timers := timers[..it] + timers[it + 1..];
          return true;
        }
        it := it + 1;
      }
      found := false;
    }

    method Pop(now: int) returns (task: Option<TaskId>)
      modifies this
      ensures (Value(), task) == Popped(old(Value()), now)
    {
      if tasks != [] {
        task := Some(tasks[0]);
        tasks := tasks[1..];
        return;
      }
      if timers != [] && timers[|timers| - 1].deadline <= now {
        task := Some(timers[|timers| - 1].id);
        timers := timers[..|timers| - 1];
        return;
      }
      task := None;
    }

    /** Whether a pop would return a task. */
    method Ready(now: int) returns (r: bool)
      ensures r <==> Popped(Value(), now).1.Some?
    {
      r := tasks != [] || (timers != [] && timers[|timers| - 1].deadline <= now);
    }

    /** When the next timer is due. */
    method Next() returns (r: Option<int>)
      ensures r.None? <==> timers == []
      ensures r.Some? ==> exists t :: t in timers && t.deadline == r.value
      ensures r.Some? && Sorted(timers) ==> forall t :: t in timers ==> r.value <= t.deadline
    {
      if timers == [] {
        return None;
      }
      r := Some(timers[|timers| - 1].deadline);
    }
  }

  lemma BubbledStep(ts: seq<Timer>, it: nat)
    requires 0 < it < |ts|
    ensures var prev := it - 1;
            var s := if ts[it].deadline > ts[prev].deadline then ts[it := ts[prev]][prev := ts[it]] else ts;
            Bubbled(ts[..it], ts[it]) + ts[it + 1..] == Bubbled(s[..prev], s[prev]) + s[prev + 1..]
  {
    var prev := it - 1;
    var late := ts[it].deadline > ts[prev].deadline;
    var s := if late then ts[it := ts[prev]][prev := ts[it]] else ts;
    assert ts[..it][..prev] == ts[..prev] == s[..prev];
    assert s[it..] == [s[it]] + ts[it + 1..];
    assert Bubbled(ts[..it], ts[it]) == Bubbled(s[..prev], s[prev]) + [s[it]];
  }

  lemma BubbledEnd(ts: seq<Timer>)
    requires ts != []
    ensures Bubbled(ts[..0], ts[0]) + ts[1..] == ts
  {
  }
}
