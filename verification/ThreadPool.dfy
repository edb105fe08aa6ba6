/** Worker threads that take tasks from a pool and sleep when there are none, as interleaved steps. */
module ThreadPool {
  import opened Wrappers
  import opened TaskPool

  /** Where a worker is. The At… places are inside the locked section. */
  datatype Pc =
    | Top
    | TryPop
    | Running(id: TaskId)
    | WantLock
    | AtReady
    | AtContinue
    | AtNext
    | AtWait(until: Option<int>)
    | Sleeping(until: Option<int>)
    | Woken
    | Draining
    | RunningLast(id: TaskId)
    | Done

  datatype Lock = Free | ByWorker(i: nat) | ByClient

  /** The notification a client still owes before it lets go of the lock. */
  datatype Owed = Nothing | One | All

  datatype State = State(
    pool: Pool,
    books: Books,
    finished: seq<TaskId>,
    go: bool,           // _continue
    lock: Lock,
    owed: Owed,
    pcs: seq<Pc>,
    beforeStop: nat)    // immediate tasks pushed when stop was called

  datatype Action =
    | Work(i: nat, now: int)
    | Wake(i: nat) // a timeout, or for no reason
    | ClientPush(id: TaskId)
    | ClientPushDelayed(timer: Timer)
    | ClientStop
    | NotifyOne(i: nat)
    | NotifyNobody
    | NotifyAll
    | ClientDelay(id: TaskId, deadline: int)
    | ClientCancel(id: TaskId)

  // ----- Steps; None when the step cannot be taken -----

  function Did(s: State, ev: Event): State {
    s.(pool := Step(s.pool, ev), books := Booked(s.books, s.pool, ev))
  }

  function Goes(s: State, i: nat, pc: Pc): State
    requires i < |s.pcs|
  {
    s.(pcs := s.pcs[i := pc])
  }

  /** A worker's pop, and where it goes with a task or without. */
  function Pops(s: State, i: nat, now: int, last: bool): State
    requires i < |s.pcs|
  {
    match Popped(s.pool, now).1
    case Some(id) => Goes(Did(s, Event.Pop(now)), i, if last then RunningLast(id) else Running(id))
    case None => Goes(s, i, if last then Done else WantLock)
  }

  function WorkerStep(s: State, i: nat, now: int): Option<State>
    requires i < |s.pcs|
  {
    match s.pcs[i]
    case Top => Some(Goes(s, i, if s.go then TryPop else Draining))
    case TryPop => Some(Pops(s, i, now, false))
    case Running(id) => Some(Goes(s.(finished := s.finished + [id]), i, Top))
    case WantLock => if s.lock == Free then Some(Goes(s.(lock := ByWorker(i)), i, AtReady)) else None
    case AtReady => Some(if Popped(s.pool, now).1.Some? then Goes(s.(lock := Free), i, Top) else Goes(s, i, AtContinue))
    case AtContinue => Some(if !s.go then Goes(s.(lock := Free), i, Draining) else Goes(s, i, AtNext))
    case AtNext =>
      var ts := s.pool.timers;
      Some(Goes(s, i, AtWait(if ts == [] then None else Some(ts[|ts| - 1].deadline))))
    case AtWait(until) => Some(Goes(s.(lock := Free), i, Sleeping(until)))
    case Sleeping(_) => None
    case Woken => if s.lock == Free then Some(Goes(s, i, Top)) else None
    case Draining => Some(Pops(s, i, now, true))
    case RunningLast(id) => Some(Goes(s.(finished := s.finished + [id]), i, Draining))
    case Done => None
  }

  function WokenUp(pcs: seq<Pc>): (r: seq<Pc>)
    ensures |r| == |pcs|
    ensures forall i :: 0 <= i < |pcs| ==> r[i] == if pcs[i].Sleeping? then Woken else pcs[i]
  {
    seq(|pcs|, i requires 0 <= i < |pcs| => if pcs[i].Sleeping? then Woken else pcs[i])
  }

  ghost predicate SomeSleeps(s: State) {
    exists i :: 0 <= i < |s.pcs| && s.pcs[i].Sleeping?
  }

  /** A delay that does not bring the timer forward. */
  predicate Postpones(p: Pool, id: TaskId, deadline: int) {
    var k := FirstWith(p.timers, id);
    k < |p.timers| ==> deadline >= p.timers[k].deadline
  }

  ghost function Apply(s: State, a: Action): Option<State> {
    match a
    case Work(i, now) => if i < |s.pcs| then WorkerStep(s, i, now) else None
    case Wake(i) => if i < |s.pcs| && s.pcs[i].Sleeping? then Some(Goes(s, i, Woken)) else None
    case ClientPush(id) => if s.lock == Free then Some(Did(s, Event.Push(id)).(lock := ByClient, owed := One)) else None
    case ClientPushDelayed(t) => if s.lock == Free then Some(Did(s, Event.PushDelayed(t)).(lock := ByClient, owed := All)) else None
    case ClientStop =>
      if s.lock != Free then None
      else Some(s.(go := false, beforeStop := if s.go then |s.books.pushed| else s.beforeStop, lock := ByClient, owed := All))
    case NotifyOne(i) =>
      if s.owed == One && i < |s.pcs| && s.pcs[i].Sleeping? then Some(Goes(s, i, Woken).(lock := Free, owed := Nothing)) else None
    case NotifyNobody => if s.owed == One && !SomeSleeps(s) then Some(s.(lock := Free, owed := Nothing)) else None
    case NotifyAll => if s.owed == All then Some(s.(pcs := WokenUp(s.pcs), lock := Free, owed := Nothing)) else None
    case ClientDelay(id, deadline) => if Postpones(s.pool, id, deadline) then Some(Did(s, Event.Delay(id, deadline))) else None
    case ClientCancel(id) => Some(Did(s, Event.Cancel(id)))
  }

  ghost predicate Start(s: State) {
    && s.pool == Pool([], []) && s.books == NO_BOOKS && s.finished == [] && s.go && s.lock == Free && s.owed == Nothing
    && |s.pcs| > 0 && (forall i :: 0 <= i < |s.pcs| ==> s.pcs[i] == Top) && s.beforeStop == 0
  }

  ghost predicate IsRun(ss: seq<State>, acts: seq<Action>) {
    && |ss| == |acts| + 1 && Start(ss[0])
    && forall k {:trigger acts[k]} :: 0 <= k < |acts| ==> Apply(ss[k], acts[k]) == Some(ss[k + 1])
  }

  // ----- What every step keeps -----

  predicate Inside(pc: Pc) {
    pc.AtReady? || pc.AtContinue? || pc.AtNext? || pc.AtWait?
  }

  /** The lock is held by whoever is inside, and by nobody else. */
  ghost predicate Locked(s: State) {
    && (s.owed == Nothing <==> s.lock != ByClient)
    && (s.lock.ByWorker? ==> s.lock.i < |s.pcs|)
    && forall i :: 0 <= i < |s.pcs| ==> LockedAt(s, i)
  }

  predicate LockedAt(s: State, i: nat)
    requires i < |s.pcs|
  {
    Inside(s.pcs[i]) <==> s.lock == ByWorker(i)
  }

  ghost predicate NoneBefore(ts: seq<Timer>, until: Option<int>) {
    forall t :: t in ts ==> until.Some? && until.value <= t.deadline
  }

  /** A worker past its last look has seen what is still so: no immediate task, no stop, no earlier timer. */
  ghost predicate Looked(s: State) {
    forall i :: 0 <= i < |s.pcs| ==> LookedAt(s, s.pcs[i])
  }

  ghost predicate LookedAt(s: State, pc: Pc) {
    && (pc.AtContinue? || pc.AtNext? || pc.AtWait? ==> s.pool.tasks == [])
    && (pc.AtNext? || pc.AtWait? ==> s.go)
    && (pc.AtWait? ==> NoneBefore(s.pool.timers, pc.until))
  }

  ghost predicate Awake(s: State) {
    exists i :: 0 <= i < |s.pcs| && !s.pcs[i].Sleeping? && !s.pcs[i].Done?
  }

  /** While the pool runs, a queued immediate task finds a worker that is awake, or a notification on its way. */
  ghost predicate Attended(s: State) {
    s.go && s.pool.tasks != [] ==> Awake(s) || s.owed != Nothing
  }

  /** No worker sleeps past a timer. */
  ghost predicate OnTime(s: State) {
    s.owed == All || forall i :: 0 <= i < |s.pcs| && s.pcs[i].Sleeping? ==> NoneBefore(s.pool.timers, s.pcs[i].until)
  }

  /** Nobody sleeps through a stop, and nobody leaves before one. */
  ghost predicate Stopping(s: State) {
    && (!s.go && s.owed != All ==> !SomeSleeps(s))
    && (s.go ==> forall i :: 0 <= i < |s.pcs| ==> !s.pcs[i].Done? && !s.pcs[i].Draining? && !s.pcs[i].RunningLast?)
  }

  /** A worker that has left found nothing more to do. */
  ghost predicate LeftNothing(s: State) {
    && (!s.go ==> s.beforeStop <= |s.books.pushed|)
    && forall i :: 0 <= i < |s.pcs| && s.pcs[i].Done? ==> s.beforeStop <= |s.books.ran|
  }

  function Runs(pc: Pc, id: TaskId): nat {
    if (pc.Running? || pc.RunningLast?) && pc.id == id then 1 else 0
  }

  function Busy(pcs: seq<Pc>, id: TaskId): nat {
    if pcs == [] then 0 else Runs(pcs[0], id) + Busy(pcs[1..], id)
  }

  ghost predicate InHandOf(s: State, id: TaskId) {
    Count(s.books.ran, id) + Count(s.books.timedRan, id) == Count(s.finished, id) + Busy(s.pcs, id)
  }

  /** Every task taken has finished or is being run by exactly one worker. */
  ghost predicate InHand(s: State) {
    forall id :: InHandOf(s, id)
  }

  ghost predicate Inv(s: State) {
    && |s.pcs| > 0 && Locked(s) && Sorted(s.pool.timers) && Looked(s) && Attended(s) && OnTime(s) && Stopping(s) && LeftNothing(s)
    && InHand(s) && Balanced(s.pool, s.books)
  }

  /** What a worker's step changes. */
  lemma WorkChanges(s: State, i: nat, now: int, s': State)
    requires i < |s.pcs| && WorkerStep(s, i, now) == Some(s')
    ensures |s'.pcs| == |s.pcs| && s'.pcs == s.pcs[i := s'.pcs[i]]
    ensures s'.go == s.go && s'.owed == s.owed && s'.beforeStop == s.beforeStop && s'.books.pushed == s.books.pushed
    ensures (s'.pool, s'.books) == (s.pool, s.books)
      || (s.pcs[i] in {TryPop, Draining} && s'.pool == Step(s.pool, Event.Pop(now)) && s'.books == Booked(s.books, s.pool, Event.Pop(now)))
    ensures s'.pcs[i].Sleeping? ==> s.pcs[i] == AtWait(s'.pcs[i].until)
    ensures s'.pcs[i].AtContinue? ==> s.pcs[i].AtReady? && s.pool.tasks == []
    ensures s'.pcs[i].AtNext? ==> s.pcs[i].AtContinue? && s.go
    ensures s'.pcs[i].AtWait? ==>
      s.pcs[i].AtNext? && s'.pcs[i].until == var ts := s.pool.timers; if ts == [] then None else Some(ts[|ts| - 1].deadline)
    ensures s'.pcs[i].Draining? || s'.pcs[i].RunningLast? || s'.pcs[i].Done? ==> !s.go || s.pcs[i].Draining? || s.pcs[i].RunningLast?
    ensures s'.pcs[i].Done? ==> s.pcs[i].Draining? && s.pool.tasks == []
    ensures !s.pcs[i].Sleeping? && !s.pcs[i].Done?
    ensures Inside(s.pcs[i]) && !Inside(s'.pcs[i]) ==> s'.lock == Free
    ensures !Inside(s.pcs[i]) && Inside(s'.pcs[i]) ==> s.lock == Free && s'.lock == ByWorker(i)
    ensures Inside(s.pcs[i]) == Inside(s'.pcs[i]) ==> s'.lock == s.lock
  {
    hide Step, Booked, Popped;
    PopPushesNothing(s.books, s.pool, now);
    WorkMoves(s, i, now, s');
  }

  /** Where it takes the worker. */
  lemma WorkMoves(s: State, i: nat, now: int, s': State)
    requires i < |s.pcs| && WorkerStep(s, i, now) == Some(s')
    ensures |s'.pcs| == |s.pcs| && s'.pcs == s.pcs[i := s'.pcs[i]] && !s.pcs[i].Sleeping? && !s.pcs[i].Done?
    ensures s'.pcs[i].Sleeping? ==> s.pcs[i] == AtWait(s'.pcs[i].until)
    ensures s'.pcs[i].AtContinue? ==> s.pcs[i].AtReady? && s.pool.tasks == []
    ensures s'.pcs[i].AtNext? ==> s.pcs[i].AtContinue? && s.go
    ensures s'.pcs[i].AtWait? ==>
      s.pcs[i].AtNext? && s'.pcs[i].until == var ts := s.pool.timers; if ts == [] then None else Some(ts[|ts| - 1].deadline)
    ensures s'.pcs[i].Draining? || s'.pcs[i].RunningLast? || s'.pcs[i].Done? ==> !s.go || s.pcs[i].Draining? || s.pcs[i].RunningLast?
    ensures s'.pcs[i].Done? ==> s.pcs[i].Draining? && s.pool.tasks == []
  {
    hide Step, Booked, Popped;
    PopNone(s.pool, now);
  }

  lemma PopNone(p: Pool, now: int)
    ensures Popped(p, now).1.None? ==> p.tasks == []
  {
  }

  lemma PopPushesNothing(b: Books, p: Pool, now: int)
    ensures Booked(b, p, Event.Pop(now)).pushed == b.pushed
    ensures Step(p, Event.Pop(now)) == Popped(p, now).0
  {
    hide Popped;
  }

  lemma KeepsLocked(s: State, a: Action, s': State)
    requires Locked(s) && Apply(s, a) == Some(s')
    ensures Locked(s')
  {
    hide Step, Booked, SomeSleeps, Postpones;
    if a.Work? {
      WorkChanges(s, a.i, a.now, s');
      hide WorkerStep;
      assert LockedAt(s, a.i);
      forall i | 0 <= i < |s'.pcs|
        ensures LockedAt(s', i)
      {
        assert LockedAt(s, i);
      }
    } else {
      hide WorkerStep;
      forall i | 0 <= i < |s'.pcs|
        ensures LockedAt(s', i)
      {
        assert LockedAt(s, i);
      }
    }
  }

  lemma KeepsSorted(s: State, a: Action, s': State)
    requires Sorted(s.pool.timers) && Apply(s, a) == Some(s')
    ensures Sorted(s'.pool.timers)
  {
    hide Sorted, Booked, SomeSleeps, Inserted, Delayed, Erased, FirstWith;
    match a
    case Work(i, now) => PopKeepsSorted(s.pool, now);
    case ClientPushDelayed(t) => InsertedSorted(s.pool.timers, t);
    case ClientDelay(id, deadline) => PostponingKeepsSorted(s.pool, id, deadline);
    case ClientCancel(id) => ErasedSorted(s.pool.timers, id);
    case _ =>
  }

  lemma PopKeepsSorted(p: Pool, now: int)
    requires Sorted(p.timers)
    ensures Sorted(Popped(p, now).0.timers)
  {
  }

  lemma PostponingKeepsSorted(p: Pool, id: TaskId, deadline: int)
    requires Sorted(p.timers) && Postpones(p, id, deadline)
    ensures Sorted(Delayed(p.timers, id, deadline))
  {
    hide Delayed;
    DelayedSortedExactly(p.timers, id, deadline);
  }

  /** What a pool event that comes from elsewhere does to a time nothing is before. */
  lemma KeepsNoneBefore(p: Pool, ev: Event, until: Option<int>)
    requires NoneBefore(p.timers, until) && (ev.Pop? || ev.Cancel? || (ev.Delay? && Postpones(p, ev.target, ev.deadline)) || ev.Push?)
    requires Sorted(p.timers)
    ensures NoneBefore(Step(p, ev).timers, until)
  {
    if ev.Delay? {
      DelayedLater(p, ev.target, ev.deadline, until);
    }
  }

  lemma DelayedLater(p: Pool, id: TaskId, deadline: int, until: Option<int>)
    requires NoneBefore(p.timers, until) && Postpones(p, id, deadline) && Sorted(p.timers)
    ensures NoneBefore(Delayed(p.timers, id, deadline), until)
  {
    var k := FirstWith(p.timers, id);
    if k < |p.timers| {
      BubbledIsInserted(p.timers[..k], Timer(deadline, id));
      assert p.timers[k] in p.timers;
      InsertedAbove(p.timers[..k], Timer(deadline, id), until.value);
    }
  }

  lemma KeepsLooked(s: State, a: Action, s': State)
    requires Locked(s) && Sorted(s.pool.timers) && Looked(s) && Apply(s, a) == Some(s')
    ensures Looked(s')
  {
    hide Locked, Sorted, Apply, LookedAt;
    KeepsWorkers(s, a, s');
    forall j | 0 <= j < |s'.pcs|
      ensures LookedAt(s', s'.pcs[j])
    {
      KeepsLookedAt(s, a, s', j);
    }
  }

  lemma KeepsLookedAt(s: State, a: Action, s': State, j: nat)
    requires Locked(s) && Sorted(s.pool.timers) && Looked(s) && Apply(s, a) == Some(s') && j < |s.pcs| == |s'.pcs|
    ensures LookedAt(s', s'.pcs[j])
  {
    hide Booked, SomeSleeps, NoneBefore, Sorted, Step, WorkerStep;
    assert LookedAt(s, s.pcs[j]) && LockedAt(s, j);
    match a
    case Work(i, now) =>
      assert LookedAt(s, s.pcs[i]);
      WorkLooked(s, i, now, s', j);
    case Wake(i) =>
    case ClientPush(id) =>
    case ClientPushDelayed(t) =>
    case ClientStop =>
    case NotifyOne(i) =>
    case NotifyNobody =>
    case NotifyAll =>
    case ClientDelay(id, deadline) => EventLooked(s, Event.Delay(id, deadline), s.pcs[j]);
    case ClientCancel(id) => EventLooked(s, Event.Cancel(id), s.pcs[j]);
  }

  lemma WorkLooked(s: State, i: nat, now: int, s': State, j: nat)
    requires Sorted(s.pool.timers) && i < |s.pcs| && WorkerStep(s, i, now) == Some(s') && j < |s.pcs| == |s'.pcs|
    requires LookedAt(s, s.pcs[j]) && LookedAt(s, s.pcs[i])
    ensures LookedAt(s', s'.pcs[j])
  {
    hide Booked, NoneBefore, Sorted, Step, WorkerStep;
    WorkChanges(s, i, now, s');
    if i == j {
      LastIsEarliest(s.pool.timers);
    } else {
      PopLooked(s, now, s.pcs[j]);
    }
  }

  lemma LastIsEarliest(ts: seq<Timer>)
    requires Sorted(ts)
    ensures NoneBefore(ts, if ts == [] then None else Some(ts[|ts| - 1].deadline))
  {
  }

  lemma PopLooked(s: State, now: int, pc: Pc)
    requires Sorted(s.pool.timers) && LookedAt(s, pc)
    ensures var s' := Did(s, Event.Pop(now)); LookedAt(s', pc)
  {
    EventLooked(s, Event.Pop(now), pc);
  }

  lemma EventLooked(s: State, ev: Event, pc: Pc)
    requires Sorted(s.pool.timers) && LookedAt(s, pc)
    requires ev.Pop? || ev.Cancel? || (ev.Delay? && Postpones(s.pool, ev.target, ev.deadline))
    ensures LookedAt(Did(s, ev), pc)
  {
    hide NoneBefore, Booked, Delayed, Erased;
    if pc.AtWait? {
      KeepsNoneBefore(s.pool, ev, pc.until);
    }
  }

  lemma KeepsAttended(s: State, a: Action, s': State)
    requires |s.pcs| > 0 && Locked(s) && Looked(s) && Attended(s) && Stopping(s) && Apply(s, a) == Some(s')
    ensures Attended(s')
  {
    hide Booked, NoneBefore, Locked, Inserted, Erased, Delayed, FirstWith;
    match a
    case Work(i, now) =>
      WorkChanges(s, i, now, s');
      hide WorkerStep;
      assert LookedAt(s, s.pcs[i]);
      assert s'.pcs[i].Sleeping? ==> s'.pool.tasks == [];
      if s'.go && s'.pool.tasks != [] {
        assert s'.pcs[i].Done? ==> s.pool.tasks == [];
      }
    case Wake(i) => assert s'.pcs[i] == Woken;
    case ClientPush(id) =>
    case ClientPushDelayed(t) =>
    case ClientStop =>
    case NotifyOne(i) => assert s'.pcs[i] == Woken;
    case NotifyNobody => assert !s.pcs[0].Sleeping?;
    case NotifyAll => assert !s'.pcs[0].Sleeping?;
    case ClientDelay(id, deadline) =>
    case ClientCancel(id) =>
  }

  lemma KeepsOnTime(s: State, a: Action, s': State)
    requires Locked(s) && Sorted(s.pool.timers) && Looked(s) && OnTime(s) && Apply(s, a) == Some(s')
    ensures OnTime(s')
  {
    hide Booked, NoneBefore, Step, Sorted, SomeSleeps;
    if s'.owed != All {
      forall j | 0 <= j < |s'.pcs| && s'.pcs[j].Sleeping?
        ensures NoneBefore(s'.pool.timers, s'.pcs[j].until)
      {
        match a
        case Work(i, now) =>
          WorkChanges(s, i, now, s');
          hide WorkerStep;
          if i == j {
            assert LookedAt(s, s.pcs[i]);
          } else {
            KeepsNoneBefore(s.pool, Event.Pop(now), s.pcs[j].until);
          }
        case ClientPush(id) => KeepsNoneBefore(s.pool, Event.Push(id), s.pcs[j].until);
        case ClientDelay(id, deadline) => KeepsNoneBefore(s.pool, Event.Delay(id, deadline), s.pcs[j].until);
        case ClientCancel(id) => KeepsNoneBefore(s.pool, Event.Cancel(id), s.pcs[j].until);
        case _ =>
      }
    }
  }

  lemma KeepsStopping(s: State, a: Action, s': State)
    requires Locked(s) && Looked(s) && Stopping(s) && Apply(s, a) == Some(s')
    ensures Stopping(s')
  {
    hide Booked, NoneBefore, Step, Postpones;
    if a.Work? {
      WorkChanges(s, a.i, a.now, s');
      hide WorkerStep;
      assert LookedAt(s, s.pcs[a.i]);
    } else {
      hide WorkerStep, Looked;
    }
  }

  lemma KeepsLeftNothing(s: State, a: Action, s': State)
    requires Stopping(s) && LeftNothing(s) && Balanced(s.pool, s.books) && Apply(s, a) == Some(s')
    ensures LeftNothing(s')
  {
    hide Step, Postpones, SomeSleeps;
    BooksOnlyGrow(s, a, s');
    hide Booked;
    if a.Work? {
      WorkChanges(s, a.i, a.now, s');
      hide WorkerStep;
    } else {
      hide WorkerStep;
    }
  }

  lemma BooksOnlyGrow(s: State, a: Action, s': State)
    requires Apply(s, a) == Some(s')
    ensures s.books.ran <= s'.books.ran && s.books.pushed <= s'.books.pushed
  {
    hide Step, Postpones, SomeSleeps, Booked;
    match a
    case Work(i, now) => BookedGrows(s.books, s.pool, Event.Pop(now));
    case ClientPush(id) => BookedGrows(s.books, s.pool, Event.Push(id));
    case ClientPushDelayed(t) => BookedGrows(s.books, s.pool, Event.PushDelayed(t));
    case ClientDelay(id, deadline) => BookedGrows(s.books, s.pool, Event.Delay(id, deadline));
    case ClientCancel(id) => BookedGrows(s.books, s.pool, Event.Cancel(id));
    case _ =>
  }

  lemma KeepsBalanced(s: State, a: Action, s': State)
    requires Balanced(s.pool, s.books) && Apply(s, a) == Some(s')
    ensures Balanced(s'.pool, s'.books)
  {
    hide Step, Postpones, SomeSleeps, Booked, Balanced;
    match a
    case Work(i, now) => StepBalances(s.pool, s.books, Event.Pop(now));
    case ClientPush(id) => StepBalances(s.pool, s.books, Event.Push(id));
    case ClientPushDelayed(t) => StepBalances(s.pool, s.books, Event.PushDelayed(t));
    case ClientDelay(id, deadline) => StepBalances(s.pool, s.books, Event.Delay(id, deadline));
    case ClientCancel(id) => StepBalances(s.pool, s.books, Event.Cancel(id));
    case _ =>
  }

  lemma {:induction false} BusyUpdate(pcs: seq<Pc>, i: nat, pc: Pc, id: TaskId)
    requires i < |pcs|
    ensures Busy(pcs[i := pc], id) == Busy(pcs, id) - Runs(pcs[i], id) + Runs(pc, id)
  {
    hide Runs;
    if i == 0 {
      assert pcs[0 := pc][1..] == pcs[1..];
    } else {
      BusyUpdate(pcs[1..], i - 1, pc, id);
      assert pcs[i := pc][1..] == pcs[1..][i - 1 := pc];
    }
  }

  lemma {:induction false} BusyWokenUp(pcs: seq<Pc>, id: TaskId)
    ensures Busy(WokenUp(pcs), id) == Busy(pcs, id)
  {
    if pcs != [] {
      BusyWokenUp(pcs[1..], id);
      assert WokenUp(pcs)[1..] == WokenUp(pcs[1..]);
    }
  }

  lemma KeepsInHandOf(s: State, a: Action, s': State, id: TaskId)
    requires InHandOf(s, id) && Apply(s, a) == Some(s')
    ensures InHandOf(s', id)
  {
    hide Step, Postpones, SomeSleeps, Count, Busy, Popped, FirstWith;
    match a
    case Work(i, now) => WorkInHand(s, i, now, s', id);
    case Wake(i) => BusyUpdate(s.pcs, i, Woken, id);
    case NotifyOne(i) => BusyUpdate(s.pcs, i, Woken, id);
    case NotifyAll => BusyWokenUp(s.pcs, id);
    case _ => assert s'.pcs == s.pcs && s'.books.ran == s.books.ran && s'.books.timedRan == s.books.timedRan;
  }

  lemma WorkInHand(s: State, i: nat, now: int, s': State, id: TaskId)
    requires InHandOf(s, id) && i < |s.pcs| && WorkerStep(s, i, now) == Some(s')
    ensures InHandOf(s', id)
  {
    hide Step, Count, Busy, Popped;
    BusyUpdate(s.pcs, i, s'.pcs[i], id);
    match s.pcs[i]
    case Running(t) => CountAppend(s.finished, t, id);
    case RunningLast(t) => CountAppend(s.finished, t, id);
    case TryPop => PopInHand(s, now, id);
    case Draining => PopInHand(s, now, id);
    case _ =>
  }

  lemma PopInHand(s: State, now: int, id: TaskId)
    ensures var b, b' := s.books, Booked(s.books, s.pool, Event.Pop(now));
      Count(b'.ran, id) + Count(b'.timedRan, id)
        == Count(b.ran, id) + Count(b.timedRan, id)
           + match Popped(s.pool, now).1 case Some(t) => if t == id then 1 else 0 case None => 0
  {
    hide Count;
    match Popped(s.pool, now).1
    case Some(t) =>
      CountAppend(s.books.ran, t, id);
      CountAppend(s.books.timedRan, t, id);
    case None =>
  }

  lemma StepKeepsInv(s: State, a: Action, s': State)
    requires Inv(s) && Apply(s, a) == Some(s')
    ensures Inv(s')
  {
    KeepsLocked(s, a, s');
    KeepsSorted(s, a, s');
    KeepsLooked(s, a, s');
    KeepsAttended(s, a, s');
    KeepsOnTime(s, a, s');
    KeepsStopping(s, a, s');
    KeepsLeftNothing(s, a, s');
    KeepsBalanced(s, a, s');
    KeepsWorkers(s, a, s');
    hide Apply, InHandOf, Locked, Looked, Attended, OnTime, Stopping, LeftNothing, Balanced, Sorted;
    forall id
      ensures InHandOf(s', id)
    {
      KeepsInHandOf(s, a, s', id);
    }
  }

  lemma KeepsWorkers(s: State, a: Action, s': State)
    requires Apply(s, a) == Some(s')
    ensures |s'.pcs| == |s.pcs|
  {
    hide Step, Postpones, SomeSleeps, Booked, Popped;
  }

  lemma {:induction false} NoneBusy(pcs: seq<Pc>, id: TaskId)
    requires forall i :: 0 <= i < |pcs| ==> !pcs[i].Running? && !pcs[i].RunningLast?
    ensures Busy(pcs, id) == 0
  {
    if pcs != [] {
      NoneBusy(pcs[1..], id);
    }
  }

  lemma StartInv(s: State)
    requires Start(s)
    ensures Inv(s)
  {
    forall id
      ensures InHandOf(s, id)
    {
      NoneBusy(s.pcs, id);
    }
    NothingBalances();
  }

  /** The invariant holds in every state of every run. */
  lemma {:induction false} RunKeepsInv(ss: seq<State>, acts: seq<Action>, k: nat)
    requires IsRun(ss, acts) && k <= |acts|
    ensures Inv(ss[k])
  {
    hide Apply, Inv, Start;
    if k == 0 {
      StartInv(ss[0]);
    } else {
      RunKeepsInv(ss, acts, k - 1);
      StepKeepsInv(ss[k - 1], acts[k - 1], ss[k]);
    }
  }

  // ----- What follows in any interleaving -----

  /** While the pool runs: an immediate task in the queue has a worker awake, or one about to be told; nobody sleeps past a
      timer, once the client that set it has let go of the lock. */
  lemma NoTaskForgotten(ss: seq<State>, acts: seq<Action>, k: nat)
    requires IsRun(ss, acts) && k <= |acts|
    ensures var s := ss[k];
      && (s.go && s.pool.tasks != [] && s.owed == Nothing ==> Awake(s))
      && forall i, t :: s.owed != All && 0 <= i < |s.pcs| && s.pcs[i].Sleeping? && t in s.pool.timers ==>
           s.pcs[i].until.Some? && s.pcs[i].until.value <= t.deadline
  {
    RunKeepsInv(ss, acts, k);
    hide Locked, Looked, Stopping, LeftNothing, InHand, Balanced, Sorted, IsRun;
  }

  predicate AllDone(s: State) {
    forall i :: 0 <= i < |s.pcs| ==> s.pcs[i].Done?
  }

  /** Once all workers have left: the immediate tasks they ran are the oldest ones pushed, in that order, among them all those
      from before the stop; and every task taken, immediate or timed, has run to its end as often as it was taken. */
  lemma AllRanBeforeStop(ss: seq<State>, acts: seq<Action>, k: nat)
    requires IsRun(ss, acts) && k <= |acts| && AllDone(ss[k])
    ensures var s := ss[k];
      && !s.go && s.beforeStop <= |s.books.ran| && s.books.ran <= s.books.pushed
      && forall id :: Count(s.finished, id) == Count(s.books.ran, id) + Count(s.books.timedRan, id)
  {
    RunKeepsInv(ss, acts, k);
    hide Locked, Looked, Attended, OnTime, Sorted, IsRun, Count;
    var s := ss[k];
    assert s.pcs[0].Done?;
    forall id
      ensures Count(s.finished, id) == Count(s.books.ran, id) + Count(s.books.timedRan, id)
    {
      NoneBusy(s.pcs, id);
      assert InHandOf(s, id);
    }
  }

  // ----- Workers do leave after a stop -----

  /** After a stop, when no client is inside, there is a worker that can take a step until all have left. */
  lemma NoDeadlock(s: State) returns (i: nat)
    requires Inv(s) && !s.go && s.owed == Nothing && !AllDone(s)
    ensures i < |s.pcs| && forall now :: WorkerStep(s, i, now).Some?
  {
    hide Balanced, InHand, LeftNothing, Sorted, Attended, OnTime, Looked;
    i :| 0 <= i < |s.pcs| && !s.pcs[i].Done?;
    assert !s.pcs[i].Sleeping?;
    if s.lock.ByWorker? {
      i := s.lock.i;
      assert LockedAt(s, i);
    }
  }

  function Rank(pc: Pc): nat {
    match pc
    case AtNext => 11
    case AtWait(_) => 10
    case TryPop => 9
    case WantLock => 8
    case AtReady => 7
    case Sleeping(_) => 7
    case Woken => 6
    case AtContinue => 6
    case Running(_) => 6
    case Top => 5
    case RunningLast(_) => 5
    case Draining => 4
    case Done => 0
  }

  function Ranks(pcs: seq<Pc>): nat {
    if pcs == [] then 0 else Rank(pcs[0]) + Ranks(pcs[1..])
  }

  /** More than what the workers still have to do once stopped. */
  function Measure(s: State): nat {
    20 * (|s.pool.tasks| + |s.pool.timers|) + Ranks(s.pcs)
  }

  lemma {:induction false} RanksUpdate(pcs: seq<Pc>, i: nat, pc: Pc)
    requires i < |pcs|
    ensures Ranks(pcs[i := pc]) == Ranks(pcs) - Rank(pcs[i]) + Rank(pc)
  {
    hide Rank;
    if i == 0 {
      assert pcs[0 := pc][1..] == pcs[1..];
    } else {
      RanksUpdate(pcs[1..], i - 1, pc);
      assert pcs[i := pc][1..] == pcs[1..][i - 1 := pc];
    }
  }

  lemma {:induction false} RanksWokenUp(pcs: seq<Pc>)
    ensures Ranks(WokenUp(pcs)) <= Ranks(pcs)
  {
    if pcs != [] {
      RanksWokenUp(pcs[1..]);
      assert WokenUp(pcs)[1..] == WokenUp(pcs[1..]);
    }
  }

  lemma WorkGetsLess(s: State, i: nat, now: int, s': State)
    requires Inv(s) && !s.go && i < |s.pcs| && WorkerStep(s, i, now) == Some(s')
    ensures Measure(s') < Measure(s)
  {
    hide Balanced, InHand, LeftNothing, Sorted, Attended, OnTime, Locked, Stopping, Ranks, Booked;
    assert LookedAt(s, s.pcs[i]);
    RanksUpdate(s.pcs, i, s'.pcs[i]);
  }

  predicate IsPush(a: Action) {
    a.ClientPush? || a.ClientPushDelayed?
  }

  lemma OthersAddNothing(s: State, a: Action, s': State)
    requires Apply(s, a) == Some(s') && !IsPush(a) && !a.Work?
    ensures Measure(s') <= Measure(s) && (!s.go ==> !s'.go)
  {
    hide Ranks, Booked, Postpones, SomeSleeps;
    match a
    case Wake(i) => RanksUpdate(s.pcs, i, Woken);
    case NotifyOne(i) => RanksUpdate(s.pcs, i, Woken);
    case NotifyAll => RanksWokenUp(s.pcs);
    case ClientDelay(id, deadline) => DelayedSameLength(s.pool.timers, id, deadline);
    case _ =>
  }

  lemma DelayedSameLength(ts: seq<Timer>, id: TaskId, deadline: int)
    ensures |Delayed(ts, id, deadline)| == |ts|
  {
    var k := FirstWith(ts, id);
    if k < |ts| {
      BubbledStays(ts[..k], Timer(deadline, id));
    }
  }

  function Works(acts: seq<Action>): nat {
    if acts == [] then 0 else Works(acts[..|acts| - 1]) + if acts[|acts| - 1].Work? then 1 else 0
  }

  /** After a stop, with nothing pushed any more, the workers take no more steps than the measure says, however the run goes on. */
  lemma {:induction false} WorkersFinish(ss: seq<State>, acts: seq<Action>, j: nat, k: nat)
    requires IsRun(ss, acts) && j <= k <= |acts| && !ss[j].go
    requires forall i :: j <= i < k ==> !IsPush(acts[i])
    ensures !ss[k].go && Works(acts[j..k]) + Measure(ss[k]) <= Measure(ss[j])
  {
    hide Apply, Measure, Start, Inv;
    if j < k {
      WorkersFinish(ss, acts, j, k - 1);
      assert acts[j..k][..k - 1 - j] == acts[j..k - 1];
      var a := acts[k - 1];
      if a.Work? {
        RunKeepsInv(ss, acts, k - 1);
        WorkApplied(ss[k - 1], a, ss[k]);
        WorkGetsLess(ss[k - 1], a.i, a.now, ss[k]);
      } else {
        OthersAddNothing(ss[k - 1], a, ss[k]);
      }
    }
  }

  lemma WorkApplied(s: State, a: Action, s': State)
    requires a.Work? && Apply(s, a) == Some(s')
    ensures a.i < |s.pcs| && WorkerStep(s, a.i, a.now) == Some(s') && s'.go == s.go
  {
    hide Step, Booked, Popped;
  }

  // ----- Workers do go to sleep when there is nothing to do -----

  /** Steps to take before sleeping, at most. */
  function Restless(pc: Pc): nat {
    match pc
    case Running(_) => 9
    case Woken => 9
    case Top => 8
    case TryPop => 7
    case WantLock => 6
    case AtReady => 5
    case AtContinue => 4
    case AtNext => 3
    case AtWait(_) => 2
    case _ => 0
  }

  function RestlessAll(pcs: seq<Pc>): nat {
    if pcs == [] then 0 else Restless(pcs[0]) + RestlessAll(pcs[1..])
  }

  lemma {:induction false} RestlessUpdate(pcs: seq<Pc>, i: nat, pc: Pc)
    requires i < |pcs|
    ensures RestlessAll(pcs[i := pc]) == RestlessAll(pcs) - Restless(pcs[i]) + Restless(pc)
  {
    hide Restless;
    if i == 0 {
      assert pcs[0 := pc][1..] == pcs[1..];
    } else {
      RestlessUpdate(pcs[1..], i - 1, pc);
      assert pcs[i := pc][1..] == pcs[1..][i - 1 := pc];
    }
  }

  /** The workers are on their own, and at no time anything is due. */
  ghost predicate Idle(ss: seq<State>, acts: seq<Action>, j: nat, k: nat) {
    k <= |acts| < |ss| && forall i :: j <= i < k ==> acts[i].Work? && Popped(ss[i].pool, acts[i].now).1.None?
  }

  /** No busy waiting: while nothing is due and no client calls, the workers of a running pool take at most nine steps each before
      all of them sleep. */
  lemma {:induction false} WorkersRest(ss: seq<State>, acts: seq<Action>, j: nat, k: nat)
    requires IsRun(ss, acts) && j <= k <= |acts| && ss[j].go && Idle(ss, acts, j, k)
    ensures ss[k].go && k - j + RestlessAll(ss[k].pcs) <= RestlessAll(ss[j].pcs) <= 9 * |ss[j].pcs|
    ensures k - j == 9 * |ss[j].pcs| ==> forall i :: 0 <= i < |ss[k].pcs| ==> ss[k].pcs[i].Sleeping?
  {
    hide Apply, Start, Inv, WorkerStep, Restless, RestlessAll;
    if j < k {
      WorkersRest(ss, acts, j, k - 1);
      RunKeepsInv(ss, acts, k - 1);
      WorkApplied(ss[k - 1], acts[k - 1], ss[k]);
      RestsStep(ss[k - 1], acts[k - 1].i, acts[k - 1].now, ss[k]);
    } else {
      RestlessBound(ss[j].pcs);
    }
    RunKeepsInv(ss, acts, k);
    AllAsleep(ss[k]);
  }

  lemma RestsStep(s: State, i: nat, now: int, s': State)
    requires Inv(s) && s.go && i < |s.pcs| && WorkerStep(s, i, now) == Some(s') && Popped(s.pool, now).1.None?
    ensures RestlessAll(s'.pcs) < RestlessAll(s.pcs)
  {
    hide Balanced, InHand, LeftNothing, Sorted, Attended, OnTime, Locked, RestlessAll, Popped, Looked;
    RestlessUpdate(s.pcs, i, s'.pcs[i]);
  }

  lemma {:induction false} RestlessBound(pcs: seq<Pc>)
    ensures RestlessAll(pcs) <= 9 * |pcs|
  {
    if pcs != [] {
      RestlessBound(pcs[1..]);
    }
  }

  lemma {:induction false} RestlessNone(pcs: seq<Pc>, i: nat)
    requires RestlessAll(pcs) == 0 && i < |pcs|
    ensures Restless(pcs[i]) == 0
  {
    if i > 0 {
      RestlessNone(pcs[1..], i - 1);
    }
  }

  lemma AllAsleep(s: State)
    requires Inv(s) && s.go
    ensures RestlessAll(s.pcs) == 0 ==> forall i :: 0 <= i < |s.pcs| ==> s.pcs[i].Sleeping?
  {
    hide Balanced, InHand, LeftNothing, Sorted, Attended, OnTime, Locked, Looked, RestlessAll;
    if RestlessAll(s.pcs) == 0 {
      forall i | 0 <= i < |s.pcs|
        ensures s.pcs[i].Sleeping?
      {
        RestlessNone(s.pcs, i);
      }
    }
  }
}
