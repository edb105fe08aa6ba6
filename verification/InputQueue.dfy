/** The input queue: the control stream thread appends, pool tasks take a packet and merge what they can into it. */
module InputQueue {
  import Bytes
  import opened InputBatch
  import opened Lists

  // ----- Lists of positions in the list of accepted packets -----

  ghost predicate Within(l: seq<nat>, n: nat) {
    forall x :: 0 <= x < |l| ==> l[x] < n
  }

  function Pick(acc: seq<Packet>, l: seq<nat>): (r: seq<Packet>)
    requires Within(l, |acc|)
    ensures |r| == |l|
  {
    seq(|l|, x requires 0 <= x < |l| => acc[l[x]])
  }

  /** The members of l that are packets of device k, in the order of l. */
  function OfDevice(acc: seq<Packet>, l: seq<nat>, k: Key): seq<nat> {
    if l == [] then []
    else OfDevice(acc, l[..|l| - 1], k) + (if l[|l| - 1] < |acc| && KeyOf(acc[l[|l| - 1]]) == k then [l[|l| - 1]] else [])
  }

  function UpTo(n: nat): seq<nat> {
    if n == 0 then [] else UpTo(n - 1) + [n - 1]
  }

  function Flatten(ls: seq<seq<nat>>): seq<nat> {
    if ls == [] then [] else Flatten(ls[..|ls| - 1]) + ls[|ls| - 1]
  }

  lemma {:induction false} OfDeviceAppend(acc: seq<Packet>, p: seq<nat>, q: seq<nat>, k: Key)
    ensures OfDevice(acc, p + q, k) == OfDevice(acc, p, k) + OfDevice(acc, q, k)
  {
    if q == [] {
      assert p + q == p;
    } else {
      var init, last := q[..|q| - 1], q[|q| - 1];
      assert (p + q)[..|p + q| - 1] == p + init && (p + q)[|p + q| - 1] == last;
      OfDeviceAppend(acc, p, init, k);
    }
  }

  /** Positions recorded before a packet was accepted mean the same afterwards. */
  lemma {:induction false} OfDeviceGrow(acc: seq<Packet>, p: Packet, l: seq<nat>, k: Key)
    requires Within(l, |acc|)
    ensures OfDevice(acc + [p], l, k) == OfDevice(acc, l, k)
  {
    if l != [] {
      OfDeviceGrow(acc, p, l[..|l| - 1], k);
    }
  }

  lemma {:induction false} OfDeviceNone(acc: seq<Packet>, l: seq<nat>, k: Key)
    requires Within(l, |acc|)
    requires forall x :: 0 <= x < |l| ==> KeyOf(acc[l[x]]) != k
    ensures OfDevice(acc, l, k) == []
  {
    if l != [] {
      OfDeviceNone(acc, l[..|l| - 1], k);
    }
  }

  /** Taking a packet forward past packets of other devices changes no device's order. */
  lemma MoveForward(acc: seq<Packet>, front: seq<nat>, passed: seq<nat>, m: nat, back: seq<nat>, k: Key)
    requires Within(passed, |acc|) && m < |acc|
    requires forall x :: 0 <= x < |passed| ==> KeyOf(acc[passed[x]]) != KeyOf(acc[m])
    ensures OfDevice(acc, (front + [m]) + (passed + back), k) == OfDevice(acc, front + (passed + [m] + back), k)
  {
    hide OfDevice, KeyOf;
    OfDeviceAppend(acc, front + [m], passed + back, k);
    OfDeviceAppend(acc, front, [m], k);
    OfDeviceAppend(acc, passed, back, k);
    OfDeviceAppend(acc, front, passed + [m] + back, k);
    OfDeviceAppend(acc, passed + [m], back, k);
    OfDeviceAppend(acc, passed, [m], k);
    if k == KeyOf(acc[m]) {
      OfDeviceNone(acc, passed, k);
    } else {
      OfDeviceNone(acc, [m], k);
    }
    OneOfTwoEmpty(OfDevice(acc, front, k), OfDevice(acc, passed, k), OfDevice(acc, [m], k), OfDevice(acc, back, k));
  }

  lemma OneOfTwoEmpty<T>(f: seq<T>, p: seq<T>, m: seq<T>, b: seq<T>)
    requires p == [] || m == []
    ensures (f + m) + (p + b) == f + (p + m + b)
  {
  }

  // ----- The state and its invariant -----

  /** The packets accepted so far, those still queued, and for every delivered packet the run of accepted ones it stands for. */
  datatype History = History(acc: seq<Packet>, queue: seq<nat>, runs: seq<seq<nat>>) {

    ghost predicate InBounds() {
      Within(queue, |acc|) && forall i :: 0 <= i < |runs| ==> Within(runs[i], |acc|) && runs[i] != []
    }

    /** Every run is one packet, or packets of one device that merge, in the order they came. */
    ghost predicate RunsMerge(delivered: seq<Packet>)
      requires InBounds()
    {
      && |delivered| == |runs|
      && forall i :: 0 <= i < |runs| ==> Ascending(runs[i]) && Merged(Pick(acc, runs[i])) == Batched(delivered[i])
    }

    /** Device by device, the runs and then the queue are all accepted packets, each once, in the order they came. */
    ghost predicate EachOnceInOrder() {
      forall k :: OfDevice(acc, Flatten(runs) + queue, k) == OfDevice(acc, UpTo(|acc|), k)
    }

    /** Delivered packet i overtook only packets that may be overtaken. */
    ghost predicate NothingCrosses(i: nat)
      requires InBounds() && i < |runs|
    {
      forall u :: u in Flatten(runs[i + 1..]) + queue && u < |acc| && u < runs[i][|runs[i]| - 1] ==> Passable(acc[u], acc[runs[i][0]])
    }

    ghost predicate Valid(delivered: seq<Packet>) {
      && InBounds() && Ascending(queue) && RunsMerge(delivered) && EachOnceInOrder()
      && forall i :: 0 <= i < |runs| ==> NothingCrosses(i)
    }
  }

  /** The loop of passthrough_next_message: run `run` is merged into `payload`, the first i queued packets were passed over. */
  ghost predicate Scanning(h: History, payload: Packet, i: nat, run: seq<nat>, queue: seq<nat>) {
    && Within(run, |h.acc|) && Within(queue, |h.acc|) && i <= |queue|
    && run != [] && Ascending(run) && Ascending(queue) && Merged(Pick(h.acc, run)) == Batched(payload)
    && (forall j :: i <= j < |queue| ==> run[|run| - 1] < queue[j])
    && (forall j :: 0 <= j < i ==> Passable(h.acc[queue[j]], h.acc[run[0]]))
    && (forall u :: u in run + queue ==> u in h.queue)
    && (forall k :: OfDevice(h.acc, run + queue, k) == OfDevice(h.acc, h.queue, k))
  }

  lemma ScanStart(h: History)
    requires Within(h.queue, |h.acc|) && h.queue != [] && Ascending(h.queue)
    ensures Scanning(h, h.acc[h.queue[0]], 0, [h.queue[0]], h.queue[1..])
  {
    assert Pick(h.acc, [h.queue[0]]) == [h.acc[h.queue[0]]];
    assert [h.queue[0]] + h.queue[1..] == h.queue;
  }

  lemma ScanPassOver(h: History, payload: Packet, i: nat, run: seq<nat>, queue: seq<nat>)
    requires Scanning(h, payload, i, run, queue) && i < |queue|
    requires Batch(payload, h.acc[queue[i]]) == NotBatchable
    ensures Scanning(h, payload, i + 1, run, queue)
  {
    hide Batch, OfDevice, Passable;
    BatchExactly(payload, h.acc[queue[i]]);
    MergedPasses(Pick(h.acc, run), h.acc[queue[i]]);
    assert Pick(h.acc, run)[0] == h.acc[run[0]];
  }

  lemma ScanMerge(h: History, payload: Packet, i: nat, run: seq<nat>, queue: seq<nat>)
    requires Scanning(h, payload, i, run, queue) && i < |queue|
    requires Batch(payload, h.acc[queue[i]]).Batched?
    ensures Scanning(h, Batch(payload, h.acc[queue[i]]).merged, i, run + [queue[i]], queue[..i] + queue[i + 1..])
  {
    hide Batch, OfDevice, Passable;
    var m, passed, back := queue[i], queue[..i], queue[i + 1..];
    assert queue == passed + [m] + back;
    MergedKey(Pick(h.acc, run));
    assert KeyOf(Pick(h.acc, run)[0]) == KeyOf(payload);
    BatchKeepsDevice(payload, h.acc[m]);
    assert Pick(h.acc, run + [m]) == Pick(h.acc, run) + [h.acc[m]];
    assert (Pick(h.acc, run) + [h.acc[m]])[..|run|] == Pick(h.acc, run);
    forall x | 0 <= x < |passed|
      ensures KeyOf(h.acc[passed[x]]) != KeyOf(h.acc[m])
    {
      PassableIsOtherDevice(h.acc[passed[x]], h.acc[run[0]]);
      assert KeyOf(h.acc[run[0]]) == KeyOf(payload);
    }
    forall k
      ensures OfDevice(h.acc, (run + [m]) + (passed + back), k) == OfDevice(h.acc, h.queue, k)
    {
      MoveForward(h.acc, run, passed, m, back, k);
    }
  }

  lemma FlattenAppend(ls: seq<seq<nat>>, l: seq<nat>)
    ensures Flatten(ls + [l]) == Flatten(ls) + l
  {
    assert (ls + [l])[..|ls|] == ls;
  }

  /** Delivering the merged packet keeps the invariant. */
  lemma ScanDone(h: History, delivered: seq<Packet>, payload: Packet, i: nat, run: seq<nat>, queue: seq<nat>)
    requires h.Valid(delivered) && Scanning(h, payload, i, run, queue)
    ensures History(h.acc, queue, h.runs + [run]).Valid(delivered + [payload])
  {
    hide Batch, OfDevice, Passable, Flatten;
    var h' := History(h.acc, queue, h.runs + [run]);
    FlattenAppend(h.runs, run);
    forall k
      ensures OfDevice(h.acc, Flatten(h'.runs) + queue, k) == OfDevice(h.acc, UpTo(|h.acc|), k)
    {
      OfDeviceAppend(h.acc, Flatten(h.runs), run + queue, k);
      OfDeviceAppend(h.acc, Flatten(h.runs), h.queue, k);
      assert Flatten(h'.runs) + queue == Flatten(h.runs) + (run + queue);
    }
    forall j | 0 <= j < |h'.runs|
      ensures h'.NothingCrosses(j)
    {
      DeliverCrosses(h, delivered, payload, i, run, queue, j);
    }
  }

  lemma DeliverCrosses(h: History, delivered: seq<Packet>, payload: Packet, i: nat, run: seq<nat>, queue: seq<nat>, j: nat)
    requires h.Valid(delivered) && Scanning(h, payload, i, run, queue) && j <= |h.runs|
    ensures History(h.acc, queue, h.runs + [run]).InBounds() && History(h.acc, queue, h.runs + [run]).NothingCrosses(j)
  {
    hide Batch, OfDevice, Passable;
    var h' := History(h.acc, queue, h.runs + [run]);
    if j < |h.runs| {
      assert h'.runs[j + 1..] == h.runs[j + 1..] + [run];
      FlattenAppend(h.runs[j + 1..], run);
      assert h.NothingCrosses(j);
      assert forall u :: u in Flatten(h'.runs[j + 1..]) + queue ==> u in Flatten(h.runs[j + 1..]) || u in run + queue;
    } else {
      assert h'.runs[j + 1..] == [];
    }
  }

  /** Accepting a packet keeps the invariant. */
  lemma AcceptKeeps(h: History, delivered: seq<Packet>, p: Packet)
    requires h.Valid(delivered)
    ensures History(h.acc + [p], h.queue + [|h.acc|], h.runs).Valid(delivered)
  {
    hide Merged, Passable, OfDevice, Flatten, KeyOf;
    var h' := History(h.acc + [p], h.queue + [|h.acc|], h.runs);
    forall i | 0 <= i < |h.runs|
      ensures Pick(h'.acc, h.runs[i]) == Pick(h.acc, h.runs[i])
    {
    }
    forall k
      ensures OfDevice(h'.acc, Flatten(h.runs) + h'.queue, k) == OfDevice(h'.acc, UpTo(|h'.acc|), k)
    {
      AcceptedLast(h, p, k);
    }
    forall i | 0 <= i < |h.runs|
      ensures h'.NothingCrosses(i)
    {
      AcceptCrosses(h, p, i);
    }
  }

  lemma AcceptedLast(h: History, p: Packet, k: Key)
    requires h.InBounds() && h.EachOnceInOrder()
    ensures OfDevice(h.acc + [p], Flatten(h.runs) + (h.queue + [|h.acc|]), k) == OfDevice(h.acc + [p], UpTo(|h.acc| + 1), k)
  {
    hide OfDevice, Flatten, KeyOf;
    var acc, n := h.acc + [p], |h.acc|;
    var l := Flatten(h.runs) + h.queue;
    FlattenWithin(h.runs, n);
    UpToWithin(n);
    assert Flatten(h.runs) + (h.queue + [n]) == l + [n];
    OfDeviceAppend(acc, l, [n], k);
    OfDeviceAppend(acc, UpTo(n), [n], k);
    OfDeviceGrow(h.acc, p, l, k);
    OfDeviceGrow(h.acc, p, UpTo(n), k);
  }

  lemma AcceptCrosses(h: History, p: Packet, i: nat)
    requires h.InBounds() && i < |h.runs| && h.NothingCrosses(i)
    ensures History(h.acc + [p], h.queue + [|h.acc|], h.runs).InBounds()
    ensures History(h.acc + [p], h.queue + [|h.acc|], h.runs).NothingCrosses(i)
  {
    hide Passable, Flatten;
    var h' := History(h.acc + [p], h.queue + [|h.acc|], h.runs);
    FlattenWithin(h.runs[i + 1..], |h.acc|);
    forall u | u in Flatten(h.runs[i + 1..]) + h'.queue && u < |h'.acc| && u < h.runs[i][|h.runs[i]| - 1]
      ensures Passable(h'.acc[u], h'.acc[h.runs[i][0]])
    {
      assert u in Flatten(h.runs[i + 1..]) + h.queue;
    }
  }

  lemma {:induction false} FlattenWithin(ls: seq<seq<nat>>, n: nat)
    requires forall i :: 0 <= i < |ls| ==> Within(ls[i], n)
    ensures Within(Flatten(ls), n)
  {
    if ls != [] {
      FlattenWithin(ls[..|ls| - 1], n);
    }
  }

  lemma {:induction false} UpToWithin(n: nat)
    ensures Within(UpTo(n), n)
  {
    if n > 0 {
      UpToWithin(n - 1);
    }
  }

  /** Which inputs a client may send. */
  datatype Permission = InputController | InputTouch | InputPen | InputMouse | InputKeyboard

  const ALL_INPUTS: set<Permission> := {InputController, InputTouch, InputPen, InputMouse, InputKeyboard}

  function Needed(m: Magic): set<Permission> {
    match m
    case MController => {InputController}
    case MControllerTouch => {InputController}
    case MControllerMotion => {InputController}
    case MOther(ControllerArrival) => {InputController}
    case MOther(ControllerBattery) => {InputController}
    case MRel => {InputMouse}
    case MAbs => {InputMouse}
    case MScroll => {InputMouse}
    case MHScroll => {InputMouse}
    case MOther(MouseButton) => {InputMouse}
    case MOther(Keyboard) => {InputKeyboard}
    case MOther(Text) => {InputKeyboard}
    case MTouch => {InputTouch}
    case MPen => {InputPen}
    case MOther(Unknown) => ALL_INPUTS
  }

  lemma MergeKeepsPassed(payload: Packet, queue: seq<Packet>, i: nat)
    requires i < |queue| && PassesOver(payload, queue, i) && Batch(payload, queue[i]).Batched?
    ensures PassesOver(Batch(payload, queue[i]).merged, queue[..i] + queue[i + 1..], i)
  {
    hide Batch, Passable;
    StillPassable(payload, queue[i]);
  }

  lemma BehindNothing(p: Packet, queue: seq<Packet>)
    ensures Behind(queue[..0], Gathered(p, queue[0..])) == Gathered(p, queue)
  {
    assert queue[0..] == queue && [] + Gathered(p, queue).1 == Gathered(p, queue).1;
  }

  lemma PickAt(acc: seq<Packet>, l: seq<nat>, i: nat)
    requires Within(l, |acc|) && i < |l|
    ensures l[i] < |acc| && Pick(acc, l)[i] == acc[l[i]]
  {
  }

  lemma PickTail(acc: seq<Packet>, l: seq<nat>)
    requires Within(l, |acc|) && l != []
    ensures l[0] < |acc| && Pick(acc, l)[0] == acc[l[0]] && Within(l[1..], |acc|) && Pick(acc, l)[1..] == Pick(acc, l[1..])
  {
  }

  lemma PickWithout(acc: seq<Packet>, l: seq<nat>, i: nat)
    requires Within(l, |acc|) && i < |l|
    ensures l[i] < |acc| && Pick(acc, l)[i] == acc[l[i]]
    ensures Within(l[..i] + l[i + 1..], |acc|) && Pick(acc, l)[..i] + Pick(acc, l)[i + 1..] == Pick(acc, l[..i] + l[i + 1..])
  {
  }

  lemma NothingYet()
    ensures History([], [], []).Valid([]) && Pick([], []) == []
  {
    assert Flatten([]) + [] == UpTo(0);
  }

  class Input {
    var inputQueue: seq<Packet>
    /** passthrough_next_message tasks in the pool that have not run yet. */
    var tasks: nat
    var delivered: seq<Packet>
    ghost var history: History

    ghost predicate Valid()
      reads this
    {
      && history.Valid(delivered)
      && inputQueue == Pick(history.acc, history.queue)
      && |inputQueue| <= tasks
    }

    constructor ()
      ensures Valid() && delivered == [] && history.acc == []
    {
      inputQueue, tasks, delivered := [], 0, [];
      history := History([], [], []);
      new;
      NothingYet();
    }

    /** The queueing passthrough. */
    method Passthrough(p: Packet, permission: set<Permission>) returns (accepted: bool)
      requires Valid()
      modifies this
      ensures Valid() && delivered == old(delivered)
      ensures accepted <==>
        match p
        case Touch(_, _, _) => InputTouch in permission
        case Pen(_, _, _, _) => InputPen in permission
        case Controller(_, _, _, _, _) => InputController in permission
        case ControllerTouch(_, _, _, _) => InputController in permission
        case ControllerMotion(_, _, _) => InputController in permission
        case Other(kind, _) =>
          if kind == ControllerArrival || kind == ControllerBattery then InputController in permission
          else if kind == MouseButton then InputMouse in permission
          else if kind == Keyboard || kind == Text then InputKeyboard in permission
          else {InputController, InputTouch, InputPen, InputMouse, InputKeyboard} <= permission
        case _ => InputMouse in permission
      ensures history.acc == old(history.acc) + (if accepted then [p] else [])
      ensures tasks == old(tasks) + (if accepted then 1 else 0)
    {
      hide Merged, KeyOf;
      accepted := true;
      assert Needed(MagicOf(p)) <= ALL_INPUTS && Needed(MagicOf(p)) != {};
      if permission * ALL_INPUTS == {} {
        return false;
      }
      if permission * ALL_INPUTS != ALL_INPUTS {
        if !(Needed(MagicOf(p)) <= permission) {
          return false;
        }
      }
      AcceptKeeps(history, delivered, p);
      inputQueue := inputQueue + [p];
      tasks := tasks + 1;
      history := History(history.acc + [p], history.queue + [|history.acc|], history.runs);
      assert inputQueue == Pick(history.acc, history.queue);
    }

    /** passthrough_next_message, one task of the pool. */
    method PassthroughNextMessage()
      requires Valid() && tasks > 0
      modifies this
      ensures Valid() && tasks == old(tasks) - 1 && history.acc == old(history.acc)
      ensures if old(inputQueue) == [] then delivered == old(delivered) && inputQueue == []
              else
                var (out, rest) := Gathered(old(inputQueue)[0], old(inputQueue)[1..]);
                delivered == old(delivered) + [out] && inputQueue == rest && |rest| < |old(inputQueue)| && FullyMerged(out, rest)
    {
      hide Batch, Merged, KeyOf, OfDevice, Scanning, Gathered, Behind, Within, Pick, Ascending, Passable, TakesIn;
      tasks := tasks - 1;
      if inputQueue == [] {
        return;
      }
      var payload := inputQueue[0];
      inputQueue := inputQueue[1..];
      ghost var h := history;
      ghost var run, queue := [h.queue[0]], h.queue[1..];
      ScanStart(h);
      PickTail(h.acc, h.queue);
      var i: nat := 0;
      ghost var goal := Gathered(payload, inputQueue);
      BehindNothing(payload, inputQueue);
      while i < |inputQueue|
        invariant i <= |inputQueue| == |queue| < |old(inputQueue)| && Within(queue, |h.acc|) && inputQueue == Pick(h.acc, queue)
        invariant Scanning(h, payload, i, run, queue)
        invariant PassesOver(payload, inputQueue, i)
        invariant Behind(inputQueue[..i], Gathered(payload, inputQueue[i..])) == goal
        invariant history == h && delivered == old(delivered) && tasks == old(tasks) - 1
        decreases |inputQueue| - i
      {
        GatheredStep(payload, inputQueue, i);
        BatchExactly(payload, inputQueue[i]);
        match Batch(payload, inputQueue[i])
        case TerminateBatch =>
          break;
        case Batched(merged) =>
          MergeKeepsPassed(payload, inputQueue, i);
          PickWithout(h.acc, queue, i);
          ScanMerge(h, payload, i, run, queue);
          run, queue := run + [queue[i]], queue[..i] + queue[i + 1..];
          payload := merged;
          inputQueue := inputQueue[..i] + inputQueue[i + 1..];
        case NotBatchable =>
          PickAt(h.acc, queue, i);
          ScanPassOver(h, payload, i, run, queue);
          i := i + 1;
      }
      GatheredStep(payload, inputQueue, i);
      ScanDone(h, delivered, payload, i, run, queue);
      history := History(h.acc, queue, h.runs + [run]);
      delivered := delivered + [payload];
    }

    /** The pool runs all the tasks it was given: nothing stays queued. */
    method Drain()
      requires Valid()
      modifies this
      ensures Valid() && tasks == 0 && inputQueue == [] && history.acc == old(history.acc)
    {
      while tasks > 0
        invariant Valid() && history.acc == old(history.acc)
      {
        PassthroughNextMessage();
      }
    }
  }

  // ----- What this means for one device -----

  function PacketsOf(l: seq<Packet>, k: Key): seq<Packet> {
    if l == [] then [] else PacketsOf(l[..|l| - 1], k) + (if KeyOf(l[|l| - 1]) == k then [l[|l| - 1]] else [])
  }

  /** d is a with some packets left out, each of which the packet right after it in a makes obsolete. */
  ghost predicate Thinned(a: seq<Packet>, d: seq<Packet>) {
    if a == [] then d == []
    else || (d != [] && d[0] == a[0] && Thinned(a[1..], d[1..]))
         || (|a| > 1 && Supersedes(a[1], a[0]) && Thinned(a[1..], d))
  }

  lemma {:induction false} ThinnedAppend(a: seq<Packet>, d: seq<Packet>, b: seq<Packet>, e: seq<Packet>)
    requires Thinned(a, d) && Thinned(b, e)
    ensures Thinned(a + b, d + e)
  {
    hide Supersedes;
    if a == [] {
      assert a + b == b && d + e == e;
    } else {
      assert (a + b)[1..] == a[1..] + b && (a + b)[0] == a[0];
      if d != [] && d[0] == a[0] && Thinned(a[1..], d[1..]) {
        ThinnedAppend(a[1..], d[1..], b, e);
        assert (d + e)[1..] == d[1..] + e;
      } else {
        ThinnedAppend(a[1..], d, b, e);
        assert (a + b)[1] == a[1];
      }
    }
  }

  lemma {:induction false} RunThins(run: seq<Packet>)
    requires run != [] && forall j :: 0 <= j < |run| - 1 ==> Supersedes(run[j + 1], run[j])
    ensures Thinned(run, [run[|run| - 1]])
  {
    hide Supersedes;
    if |run| > 1 {
      var rest := run[1..];
      forall j | 0 <= j < |rest| - 1
        ensures Supersedes(rest[j + 1], rest[j])
      {
        assert Supersedes(run[(j + 1) + 1], run[j + 1]);
      }
      RunThins(rest);
      assert Supersedes(run[0 + 1], run[0]);
    } else {
      assert run[1..] == [] && [run[0]][1..] == [];
    }
  }

  /** Every device is left in the state its last packet asked for. */
  lemma {:induction false} ThinnedKeepsLast(a: seq<Packet>, d: seq<Packet>)
    requires Thinned(a, d) && a != []
    ensures d != [] && d[|d| - 1] == a[|a| - 1]
  {
    hide Supersedes;
    if |a| > 1 {
      if d != [] && d[0] == a[0] && Thinned(a[1..], d[1..]) {
        ThinnedKeepsLast(a[1..], d[1..]);
      } else {
        ThinnedKeepsLast(a[1..], d);
      }
    } else {
      assert Thinned(a[1..], d[1..]);
    }
  }

  lemma {:induction false} PacketsOfAppend(p: seq<Packet>, q: seq<Packet>, k: Key)
    ensures PacketsOf(p + q, k) == PacketsOf(p, k) + PacketsOf(q, k)
  {
    if q == [] {
      assert p + q == p;
    } else {
      assert (p + q)[..|p + q| - 1] == p + q[..|q| - 1];
      PacketsOfAppend(p, q[..|q| - 1], k);
    }
  }

  lemma {:induction false} PacketsOfRun(run: seq<Packet>, k: Key, of: Key)
    requires forall j :: 0 <= j < |run| ==> KeyOf(run[j]) == of
    ensures PacketsOf(run, k) == if k == of then run else []
  {
    if run != [] {
      PacketsOfRun(run[..|run| - 1], k, of);
    }
  }

  lemma {:induction false} PickOfDevice(acc: seq<Packet>, l: seq<nat>, k: Key)
    requires Within(l, |acc|)
    ensures Within(OfDevice(acc, l, k), |acc|) && Pick(acc, OfDevice(acc, l, k)) == PacketsOf(Pick(acc, l), k)
  {
    if l != [] {
      var init := l[..|l| - 1];
      PickOfDevice(acc, init, k);
      assert Pick(acc, l)[..|l| - 1] == Pick(acc, init);
    }
  }

  lemma {:induction false} PickUpTo(acc: seq<Packet>, n: nat)
    requires n <= |acc|
    ensures |UpTo(n)| == n && Within(UpTo(n), |acc|) && Pick(acc, UpTo(n)) == acc[..n]
  {
    if n > 0 {
      PickUpTo(acc, n - 1);
    }
  }

  function Concat(runs: seq<seq<Packet>>): seq<Packet> {
    if runs == [] then [] else Concat(runs[..|runs| - 1]) + runs[|runs| - 1]
  }

  /** Delivered packet i is what run i merges into. */
  ghost predicate StandFor(delivered: seq<Packet>, runs: seq<seq<Packet>>) {
    |delivered| == |runs| && forall i :: 0 <= i < |runs| ==> Merged(runs[i]) == Batched(delivered[i])
  }

  /** The packets of the last run all belong to the device of the packet that was delivered for them. */
  lemma LastRun(delivered: seq<Packet>, runs: seq<seq<Packet>>, k: Key)
    requires StandFor(delivered, runs) && runs != []
    ensures var n := |runs| - 1;
            && StandFor(delivered[..n], runs[..n]) && runs[n] != [] && KeyOf(runs[n][0]) == KeyOf(delivered[n])
            && PacketsOf(Concat(runs), k) == PacketsOf(Concat(runs[..n]), k) + (if KeyOf(delivered[n]) == k then runs[n] else [])
            && PacketsOf(delivered, k) == PacketsOf(delivered[..n], k) + (if KeyOf(delivered[n]) == k then [delivered[n]] else [])
  {
    hide KeyOf, PacketsOf;
    var n := |runs| - 1;
    PacketsOfAppend(Concat(runs[..n]), runs[n], k);
    MergedKey(runs[n]);
    PacketsOfRun(runs[n], k, KeyOf(delivered[n]));
    PacketsOfAppend(delivered[..n], [delivered[n]], k);
    PacketsOfRun([delivered[n]], k, KeyOf(delivered[n]));
    assert delivered[..n] + [delivered[n]] == delivered;
  }

  lemma KeyMagic(p: Packet)
    ensures KeyOf(p).magic == MagicOf(p)
  {
  }

  /** Stutter equivalence for devices that report states: whatever the interleaving, the packets delivered for a device are
      the packets consumed for it, less some that the next packet of the same device made obsolete. */
  lemma {:induction false} DeviceIsThinned(delivered: seq<Packet>, runs: seq<seq<Packet>>, k: Key)
    requires StandFor(delivered, runs) && !Summing(k.magic)
    ensures Thinned(PacketsOf(Concat(runs), k), PacketsOf(delivered, k))
  {
    hide Supersedes, Merged, KeyOf, PacketsOf, Concat, Summing, Thinned;
    if runs == [] {
      ThinnedEmpty(k);
    } else {
      var n := |runs| - 1;
      LastRun(delivered, runs, k);
      DeviceIsThinned(delivered[..n], runs[..n], k);
      if KeyOf(delivered[n]) == k {
        KeyMagic(runs[n][0]);
        MergedIsLast(runs[n]);
        RunThins(runs[n]);
        ThinnedAppend(PacketsOf(Concat(runs[..n]), k), PacketsOf(delivered[..n], k), runs[n], [delivered[n]]);
      } else {
        Bytes.Neutral(PacketsOf(Concat(runs[..n]), k));
        Bytes.Neutral(PacketsOf(delivered[..n], k));
      }
    }
  }

  lemma ThinnedEmpty(k: Key)
    ensures Thinned(PacketsOf(Concat([]), k), PacketsOf([], k))
  {
  }

  lemma {:induction false} TotalDeltaAppend(p: seq<Packet>, q: seq<Packet>)
    ensures TotalDelta(p + q) == (TotalDelta(p).0 + TotalDelta(q).0, TotalDelta(p).1 + TotalDelta(q).1)
  {
    hide Delta;
    if q == [] {
      assert p + q == p;
    } else {
      assert (p + q)[..|p + q| - 1] == p + q[..|q| - 1];
      TotalDeltaAppend(p, q[..|q| - 1]);
    }
  }

  lemma TotalDeltaOne(p: Packet)
    ensures TotalDelta([p]) == Delta(p)
  {
    assert [p][..0] == [];
  }

  /** For mouse moves and scrolling, the movement delivered is the movement consumed, modulo 65536. */
  lemma {:induction false} DeviceMovement(delivered: seq<Packet>, runs: seq<seq<Packet>>, k: Key)
    requires StandFor(delivered, runs) && Summing(k.magic)
    ensures CongruentDelta(TotalDelta(PacketsOf(delivered, k)), TotalDelta(PacketsOf(Concat(runs), k)))
  {
    hide Merged, KeyOf, Delta, Summing, CongruentDelta, PacketsOf, Concat, TotalDelta;
    if runs == [] {
      NoMovement(k);
    } else {
      var n := |runs| - 1;
      LastRun(delivered, runs, k);
      DeviceMovement(delivered[..n], runs[..n], k);
      var d, c := PacketsOf(delivered[..n], k), PacketsOf(Concat(runs[..n]), k);
      if KeyOf(delivered[n]) == k {
        KeyMagic(runs[n][0]);
        MergedConservesDelta(runs[n]);
        TotalDeltaAppend(d, [delivered[n]]);
        TotalDeltaAppend(c, runs[n]);
        TotalDeltaOne(delivered[n]);
        CongruentSum(TotalDelta(d), TotalDelta(c), Delta(delivered[n]), TotalDelta(runs[n]));
      } else {
        Bytes.Neutral(d);
        Bytes.Neutral(c);
      }
    }
  }

  lemma NoMovement(k: Key)
    ensures CongruentDelta(TotalDelta(PacketsOf([], k)), TotalDelta(PacketsOf(Concat([]), k)))
  {
  }

  lemma CongruentSum(a: (int, int), b: (int, int), c: (int, int), d: (int, int))
    requires CongruentDelta(a, b) && CongruentDelta(c, d)
    ensures CongruentDelta((a.0 + c.0, a.1 + c.1), (b.0 + d.0, b.1 + d.1))
  {
    assert (a.0 + c.0) - (b.0 + d.0) == (a.0 - b.0) + (c.0 - d.0);
    assert (a.1 + c.1) - (b.1 + d.1) == (a.1 - b.1) + (c.1 - d.1);
  }

  /** The runs of a history, as packets. */
  function RunsOf(h: History): (r: seq<seq<Packet>>)
    requires h.InBounds()
    ensures |r| == |h.runs|
  {
    seq(|h.runs|, i requires 0 <= i < |h.runs| => Pick(h.acc, h.runs[i]))
  }

  lemma {:induction false} ConcatIsFlatten(acc: seq<Packet>, ls: seq<seq<nat>>, runs: seq<seq<Packet>>)
    requires |runs| == |ls| && forall i :: 0 <= i < |ls| ==> Within(ls[i], |acc|) && runs[i] == Pick(acc, ls[i])
    ensures Within(Flatten(ls), |acc|) && Pick(acc, Flatten(ls)) == Concat(runs)
  {
    FlattenWithin(ls, |acc|);
    if ls != [] {
      ConcatIsFlatten(acc, ls[..|ls| - 1], runs[..|runs| - 1]);
    }
  }

  /** In every reachable state and for every device: what was accepted is what the delivered packets stand for, followed by
      what is queued; states delivered thin out the states consumed, and movements agree modulo 65536. */
  lemma DeviceStream(h: History, delivered: seq<Packet>, k: Key)
    requires h.Valid(delivered)
    ensures PacketsOf(Concat(RunsOf(h)), k) + PacketsOf(Pick(h.acc, h.queue), k) == PacketsOf(h.acc, k)
    ensures !Summing(k.magic) ==> Thinned(PacketsOf(Concat(RunsOf(h)), k), PacketsOf(delivered, k))
    ensures Summing(k.magic) ==> CongruentDelta(TotalDelta(PacketsOf(delivered, k)), TotalDelta(PacketsOf(Concat(RunsOf(h)), k)))
  {
    hide OfDevice, PacketsOf, Flatten, Concat, Thinned, TotalDelta, CongruentDelta, Merged, Summing, Passable;
    var all := Flatten(h.runs) + h.queue;
    ConcatIsFlatten(h.acc, h.runs, RunsOf(h));
    PickOfDevice(h.acc, all, k);
    PickUpTo(h.acc, |h.acc|);
    PickOfDevice(h.acc, UpTo(|h.acc|), k);
    assert h.acc[..|h.acc|] == h.acc;
    assert Pick(h.acc, all) == Pick(h.acc, Flatten(h.runs)) + Pick(h.acc, h.queue);
    PacketsOfAppend(Concat(RunsOf(h)), Pick(h.acc, h.queue), k);
    if Summing(k.magic) {
      DeviceMovement(delivered, RunsOf(h), k);
    } else {
      DeviceIsThinned(delivered, RunsOf(h), k);
    }
  }

  lemma NothingPicked(acc: seq<Packet>, k: Key)
    ensures PacketsOf(Pick(acc, []), k) == []
  {
  }

  /** Once the queue has drained, no device has lost anything but obsolete packets, and each is left in the state of its last packet. */
  lemma DrainedDevice(h: History, delivered: seq<Packet>, k: Key)
    requires h.Valid(delivered) && h.queue == []
    ensures !Summing(k.magic) ==> Thinned(PacketsOf(h.acc, k), PacketsOf(delivered, k))
    ensures Summing(k.magic) ==> CongruentDelta(TotalDelta(PacketsOf(delivered, k)), TotalDelta(PacketsOf(h.acc, k)))
    ensures !Summing(k.magic) && PacketsOf(h.acc, k) != [] ==>
      && PacketsOf(delivered, k) != []
      && PacketsOf(delivered, k)[|PacketsOf(delivered, k)| - 1] == PacketsOf(h.acc, k)[|PacketsOf(h.acc, k)| - 1]
  {
    hide Summing, CongruentDelta, Thinned, Concat, TotalDelta, Merged, RunsOf;
    DeviceStream(h, delivered, k);
    NothingPicked(h.acc, k);
    Bytes.Neutral(PacketsOf(Concat(RunsOf(h)), k));
    if !Summing(k.magic) && PacketsOf(h.acc, k) != [] {
      ThinnedKeepsLast(PacketsOf(h.acc, k), PacketsOf(delivered, k));
    }
  }

  // ----- What this means for packets that cannot be merged -----

  lemma {:induction false} InFlatten(ls: seq<seq<nat>>, u: nat)
    ensures u in Flatten(ls) <==> exists i :: 0 <= i < |ls| && u in ls[i]
  {
    if ls != [] {
      var n := |ls| - 1;
      InFlatten(ls[..n], u);
      if u in Flatten(ls[..n]) {
        var i :| 0 <= i < n && u in ls[..n][i];
        assert u in ls[i];
      }
      if i :| 0 <= i < n && u in ls[i] {
        assert u in ls[..n][i];
      }
    }
  }

  lemma {:induction false} InOfDevice(acc: seq<Packet>, l: seq<nat>, k: Key, u: nat)
    ensures u in OfDevice(acc, l, k) <==> u in l && u < |acc| && KeyOf(acc[u]) == k
  {
    if l != [] {
      InOfDevice(acc, l[..|l| - 1], k, u);
    }
  }

  lemma {:induction false} InUpTo(n: nat, u: nat)
    ensures u in UpTo(n) <==> u < n
  {
    if n > 0 {
      InUpTo(n - 1, u);
    }
  }

  /** Every accepted packet is queued or in a run. */
  lemma AcceptedIsSomewhere(h: History, delivered: seq<Packet>, u: nat)
    requires h.Valid(delivered) && u < |h.acc|
    ensures u in h.queue || exists i :: 0 <= i < |h.runs| && u in h.runs[i]
  {
    hide OfDevice, KeyOf, Flatten, Merged, Passable;
    var k := KeyOf(h.acc[u]);
    InUpTo(|h.acc|, u);
    InOfDevice(h.acc, UpTo(|h.acc|), k, u);
    InOfDevice(h.acc, Flatten(h.runs) + h.queue, k, u);
    InFlatten(h.runs, u);
  }

  lemma RunMember(h: History, delivered: seq<Packet>, i: nat, u: nat)
    requires h.Valid(delivered) && i < |h.runs| && u in h.runs[i]
    ensures u < |h.acc| && u <= h.runs[i][|h.runs[i]| - 1] && MagicOf(h.acc[u]) == MagicOf(h.acc[h.runs[i][0]])
    ensures h.acc[u].Other? ==> h.runs[i] == [u] && delivered[i] == h.acc[u]
  {
    hide KeyOf, OfDevice, Passable, Flatten;
    var run := Pick(h.acc, h.runs[i]);
    var x :| 0 <= x < |h.runs[i]| && h.runs[i][x] == u;
    MergedKey(run);
    assert run[x] == h.acc[u] && run[0] == h.acc[h.runs[i][0]];
    KeyHasMagic(run[x], run[0]);
    KeyHasMagic(run[x], delivered[i]);
    KeyHasMagic(run[x], run[|run| - 1]);
    OtherRunsAlone(run);
  }

  lemma OtherRunsAlone(run: seq<Packet>)
    requires Merged(run).Batched?
    ensures run[|run| - 1].Other? ==> |run| == 1 && Merged(run).merged == run[0]
  {
  }

  /** A packet still to come that is older than what was merged into delivered packet j was passed over. */
  lemma OvertakenIsPassable(h: History, delivered: seq<Packet>, j: nat, i: nat, u: nat)
    requires h.Valid(delivered) && j < i < |h.runs| && u in h.runs[i] && u < |h.acc| && u < h.runs[j][|h.runs[j]| - 1]
    ensures Passable(h.acc[u], h.acc[h.runs[j][0]])
  {
    hide KeyOf, OfDevice, Merged, Flatten, Passable;
    assert h.runs[j + 1..][i - (j + 1)] == h.runs[i];
    InFlatten(h.runs[j + 1..], u);
    assert h.NothingCrosses(j);
  }

  lemma RunMembers(h: History, delivered: seq<Packet>, i: nat, u: nat, v: nat)
    requires h.Valid(delivered) && i < |h.runs| && u in h.runs[i] && v in h.runs[i] && u < v
    ensures v < |h.acc| && KeyOf(h.acc[u]) == KeyOf(h.acc[v])
    ensures !Summing(MagicOf(h.acc[u])) ==> Supersedes(h.acc[v], h.acc[u])
  {
    hide KeyOf, OfDevice, Passable, Flatten, Supersedes, Summing;
    var run := Pick(h.acc, h.runs[i]);
    var x :| 0 <= x < |h.runs[i]| && h.runs[i][x] == u;
    var y :| 0 <= y < |h.runs[i]| && h.runs[i][y] == v;
    assert x < y;
    MergedKey(run);
    assert run[x] == h.acc[u] && run[y] == h.acc[v];
    KeyHasMagic(run[x], run[0]);
    if !Summing(MagicOf(h.acc[u])) {
      MergedIsLast(run);
    }
  }

  lemma RunPasses(h: History, delivered: seq<Packet>, i: nat, v: nat, q: Packet)
    requires h.Valid(delivered) && i < |h.runs| && v in h.runs[i]
    ensures v < |h.acc| && Passable(q, h.acc[v]) == Passable(q, h.acc[h.runs[i][0]])
  {
    hide KeyOf, OfDevice, Passable, Flatten;
    var run := Pick(h.acc, h.runs[i]);
    var x :| 0 <= x < |h.runs[i]| && h.runs[i][x] == v;
    MergedPasses(run, q);
    assert run[x] == h.acc[v] && run[0] == h.acc[h.runs[i][0]];
  }

  /** The later packet v goes out before the earlier packet u only if u may be passed over by v, and together with it only if
      both are movements of one device or v makes u obsolete. */
  lemma OrderKept(h: History, delivered: seq<Packet>, u: nat, v: nat, i: nat, j: nat)
    requires h.Valid(delivered) && u < v && i < |h.runs| && j < |h.runs| && u in h.runs[i] && v in h.runs[j]
    ensures v < |h.acc|
    ensures j < i ==> Passable(h.acc[u], h.acc[v])
    ensures i == j ==> KeyOf(h.acc[u]) == KeyOf(h.acc[v]) && (Summing(MagicOf(h.acc[u])) || Supersedes(h.acc[v], h.acc[u]))
  {
    hide KeyOf, OfDevice, Merged, Flatten, History.NothingCrosses, Passable, Supersedes, Summing;
    RunMember(h, delivered, j, v);
    if j < i {
      OvertakenIsPassable(h, delivered, j, i, u);
      RunPasses(h, delivered, j, v, h.acc[u]);
    } else if i == j {
      RunMembers(h, delivered, i, u, v);
    }
  }

  /** In every reachable state, packets u before v go out in that order unless both belong to kinds that may overtake: nothing
      crosses a packet that cannot be merged, kinds never overtake one another; a press, release or other event of a finger
      keeps its place among all touches, on a controller's touchpad among those of the controller; and a change of the
      connected controllers or of the buttons of one controller keeps its place. */
  lemma NothingOvertakes(h: History, delivered: seq<Packet>, u: nat, v: nat, i: nat, j: nat)
    requires h.Valid(delivered) && u < v && i < |h.runs| && j < |h.runs| && u in h.runs[i] && v in h.runs[j]
    ensures v < |h.acc|
    ensures h.acc[u].Other? || MagicOf(h.acc[u]) != MagicOf(h.acc[v]) ==> i < j
    ensures match (h.acc[u], h.acc[v])
            case (Touch(e, _, _), Touch(event, _, _)) => {e, event} <= {Move, Hover} || i < j
            case (ControllerTouch(n, e, _, _), ControllerTouch(number, event, _, _)) =>
              (event in {Move, Hover} && (n == number ==> e in {Move, Hover})) || i < j
            case (Controller(n, m, b, b2, _), Controller(number, mask, buttons, buttons2, _)) =>
              (m == mask && (n == number ==> b == buttons && b2 == buttons2)) || i < j
            case (Pen(e, b, t, _), Pen(event, buttons, tool, _)) =>
              (e == event && event in {Move, Hover} && b == buttons && t == tool && i == j) || i < j
            case (AbsMouse(w, h, _), AbsMouse(width, height, _)) => (w == width && h == height && i == j) || i < j
            case _ => KeyOf(h.acc[u]) == KeyOf(h.acc[v]) ==> i <= j
  {
    hide OfDevice, Merged, Flatten, History.Valid;
    OrderKept(h, delivered, u, v, i, j);
  }
}
