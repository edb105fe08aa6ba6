/** Merging queued input packets, kind by kind. */
module InputBatch {
  type Short = x: int | -0x8000 <= x < 0x8000

  datatype EventType = Move | Hover | Down | Up | OtherEvent(code: nat)

  datatype OtherKind = MouseButton | Keyboard | Text | ControllerArrival | ControllerBattery | Unknown

  /** An input packet; `rest` stands for the fields that batching copies without looking at them. */
  datatype Packet =
    | RelMouse(deltaX: Short, deltaY: Short)
    | AbsMouse(width: nat, height: nat, rest: nat)
    | Scroll(scrollAmt1: Short, scrollAmt2: Short)
    | HScroll(scrollAmount: Short)
    | Controller(controllerNumber: nat, activeGamepadMask: nat, buttonFlags: nat, buttonFlags2: nat, rest: nat)
    | Touch(eventType: EventType, pointerId: nat, rest: nat)
    | Pen(eventType: EventType, penButtons: nat, toolType: nat, rest: nat)
    | ControllerTouch(controllerNumber: nat, eventType: EventType, pointerId: nat, rest: nat)
    | ControllerMotion(controllerNumber: nat, motionType: nat, rest: nat)
    | Other(kind: OtherKind, rest: nat)

  datatype BatchResult = Batched(merged: Packet) | NotBatchable | TerminateBatch

  /** The magic number of the packet's header. */
  datatype Magic = MRel | MAbs | MScroll | MHScroll | MController | MTouch | MPen | MControllerTouch | MControllerMotion | MOther(kind: OtherKind)

  function MagicOf(p: Packet): Magic {
    match p
    case RelMouse(_, _) => MRel
    case AbsMouse(_, _, _) => MAbs
    case Scroll(_, _) => MScroll
    case HScroll(_) => MHScroll
    case Controller(_, _, _, _, _) => MController
    case Touch(_, _, _) => MTouch
    case Pen(_, _, _, _) => MPen
    case ControllerTouch(_, _, _, _) => MControllerTouch
    case ControllerMotion(_, _, _) => MControllerMotion
    case Other(kind, _) => MOther(kind)
  }

  /** A 16-bit sum as the machine keeps it. */
  function Wrap16(n: int): Short {
    (n + 0x8000) % 0x1_0000 - 0x8000
  }

  predicate Fits(n: int) {
    -0x8000 <= n < 0x8000
  }

  predicate Hovering(e: EventType) {
    e == Move || e == Hover
  }

  /** The nine `batch` overloads and their dispatch, test by test. A sum that does not overflow ends the batch. */
  function Batch(dest: Packet, src: Packet): BatchResult {
    if MagicOf(dest) != MagicOf(src) then TerminateBatch else
    match dest
    case RelMouse(x, y) =>
      if Fits(x + src.deltaX) then TerminateBatch
      else if Fits(y + src.deltaY) then TerminateBatch
      else Batched(RelMouse(Wrap16(x + src.deltaX), Wrap16(y + src.deltaY)))
    case AbsMouse(width, height, _) =>
      if width != src.width || height != src.height then TerminateBatch else Batched(src)
    case Scroll(amt, _) =>
      if Fits(amt + src.scrollAmt1) then TerminateBatch
      else Batched(Scroll(Wrap16(amt + src.scrollAmt1), Wrap16(amt + src.scrollAmt1)))
    case HScroll(amt) =>
      if Fits(amt + src.scrollAmount) then TerminateBatch else Batched(HScroll(Wrap16(amt + src.scrollAmount)))
    case Controller(number, mask, buttons, buttons2, _) =>
      if mask != src.activeGamepadMask then TerminateBatch
      else if number != src.controllerNumber then NotBatchable
      else if buttons != src.buttonFlags || buttons2 != src.buttonFlags2 then TerminateBatch
      else Batched(src)
    case Touch(event, pointer, _) =>
      if !Hovering(event) then TerminateBatch
      else if !Hovering(src.eventType) then TerminateBatch
      else if pointer != src.pointerId then NotBatchable
      else if event != src.eventType then TerminateBatch
      else Batched(src)
    case Pen(event, buttons, tool, _) =>
      if !Hovering(event) then TerminateBatch
      else if event != src.eventType then TerminateBatch
      else if buttons != src.penButtons then TerminateBatch
      else if tool != src.toolType then TerminateBatch
      else Batched(src)
    case ControllerTouch(number, event, pointer, _) =>
      if !Hovering(event) then TerminateBatch
      else if number != src.controllerNumber then NotBatchable
      else if !Hovering(src.eventType) then TerminateBatch
      else if pointer != src.pointerId then NotBatchable
      else if event != src.eventType then TerminateBatch
      else Batched(src)
    case ControllerMotion(number, motion, _) =>
      if number != src.controllerNumber then NotBatchable
      else if motion != src.motionType then NotBatchable
      else Batched(src)
    case Other(_, _) => TerminateBatch
  }

  /** The device a packet speaks for: its kind with the controller, pointer or sensor. */
  datatype Key = Device(magic: Magic, number: nat, id: nat)

  function KeyOf(p: Packet): Key {
    match p
    case Controller(number, _, _, _, _) => Device(MController, number, 0)
    case Touch(_, pointer, _) => Device(MTouch, 0, pointer)
    case ControllerTouch(number, _, pointer, _) => Device(MControllerTouch, number, pointer)
    case ControllerMotion(number, motion, _) => Device(MControllerMotion, number, motion)
    case _ => Device(MagicOf(p), 0, 0)
  }

  /** Kinds whose packets add up instead of replacing one another. */
  predicate Summing(m: Magic) {
    m == MRel || m == MScroll || m == MHScroll
  }

  /** s makes p obsolete: same device, same buttons, event type, tool, mask and dimensions. */
  predicate Supersedes(s: Packet, p: Packet) {
    && KeyOf(s) == KeyOf(p)
    && match p
       case AbsMouse(width, height, _) => width == s.width && height == s.height
       case Controller(_, mask, buttons, buttons2, _) =>
         mask == s.activeGamepadMask && buttons == s.buttonFlags && buttons2 == s.buttonFlags2
       case Touch(event, _, _) => event == s.eventType && Hovering(event)
       case Pen(event, buttons, tool, _) => event == s.eventType && Hovering(event) && buttons == s.penButtons && tool == s.toolType
       case ControllerTouch(_, event, _, _) => event == s.eventType && Hovering(event)
       case ControllerMotion(_, _, _) => true
       case _ => false
  }

  /** Packets that carry a state are merged exactly when the later one makes the earlier one obsolete, and it replaces it. */
  lemma BatchedExactlyWhenSuperseded(dest: Packet, src: Packet)
    requires !Summing(MagicOf(dest))
    ensures Batch(dest, src).Batched? <==> Supersedes(src, dest)
    ensures Batch(dest, src).Batched? ==> Batch(dest, src).merged == src
  {
  }

  /** q may be overtaken by p: two touches that are moves or hovers of two fingers, states of two controllers when the same
      controllers are connected, a controller's touch overtaken by a move or hover on another controller or with another finger,
      readings of two sensors. */
  predicate Passable(q: Packet, p: Packet) {
    match (q, p)
    case (Touch(e, id, _), Touch(event, pointer, _)) => e in {Move, Hover} && event in {Move, Hover} && id != pointer
    case (Controller(n, m, _, _, _), Controller(number, mask, _, _, _)) => m == mask && n != number
    case (ControllerTouch(n, e, id, _), ControllerTouch(number, event, pointer, _)) =>
      event in {Move, Hover} && (n != number || (e in {Move, Hover} && id != pointer))
    case (ControllerMotion(n, t, _), ControllerMotion(number, motion, _)) => n != number || t != motion
    case _ => false
  }

  /** p takes src in: both are states and src makes p obsolete, or both are movements and no sum fits 16 bits. */
  predicate TakesIn(p: Packet, src: Packet) {
    match (p, src)
    case (RelMouse(x, y), RelMouse(dx, dy)) => !Fits(x + dx) && !Fits(y + dy)
    case (Scroll(amt, _), Scroll(more, _)) => !Fits(amt + more)
    case (HScroll(amt), HScroll(more)) => !Fits(amt + more)
    case _ => !Summing(MagicOf(p)) && Supersedes(src, p)
  }

  /** A queued packet is passed over, taken in, or ends the batch exactly by these fields. */
  lemma BatchExactly(dest: Packet, src: Packet)
    ensures Batch(dest, src) == NotBatchable <==> Passable(src, dest)
    ensures Batch(dest, src).Batched? <==> TakesIn(dest, src)
    ensures Batch(dest, src) == TerminateBatch <==> !Passable(src, dest) && !TakesIn(dest, src)
  {
  }

  /** Only packets of the same device merge, and only packets of another device of the same kind are passed over. */
  lemma BatchKeepsDevice(dest: Packet, src: Packet)
    ensures Batch(dest, src).Batched? ==> KeyOf(src) == KeyOf(dest) == KeyOf(Batch(dest, src).merged)
    ensures Batch(dest, src).NotBatchable? ==> KeyOf(src) != KeyOf(dest) && MagicOf(src) == MagicOf(dest)
    ensures dest.Other? ==> Batch(dest, src) == TerminateBatch
  {
  }

  lemma PassableIsOtherDevice(q: Packet, p: Packet)
    requires Passable(q, p)
    ensures MagicOf(q) == MagicOf(p) && KeyOf(q) != KeyOf(p)
  {
  }

  /** Merging does not change which packets would be passed over, before or after. */
  lemma StillPassable(dest: Packet, src: Packet)
    requires Batch(dest, src).Batched?
    ensures forall q :: Passable(q, Batch(dest, src).merged) == Passable(q, dest) == Passable(q, src)
  {
  }

  /** What goes out for p, and what stays queued: later packets are merged into it or passed over, until one ends the batch. */
  function Gathered(p: Packet, queue: seq<Packet>): (Packet, seq<Packet>)
    decreases |queue|
  {
    if queue == [] then (p, [])
    else match Batch(p, queue[0])
         case Batched(m) => Gathered(m, queue[1..])
         case NotBatchable => var (out, rest) := Gathered(p, queue[1..]); (out, [queue[0]] + rest)
         case TerminateBatch => (p, queue)
  }

  function Behind(front: seq<Packet>, r: (Packet, seq<Packet>)): (Packet, seq<Packet>) {
    (r.0, front + r.1)
  }

  /** One turn of the scanning loop at position i. */
  lemma GatheredStep(p: Packet, queue: seq<Packet>, i: nat)
    requires i <= |queue|
    ensures i == |queue| ==> Behind(queue[..i], Gathered(p, queue[i..])) == (p, queue)
    ensures i < |queue| ==>
      Behind(queue[..i], Gathered(p, queue[i..]))
      == match Batch(p, queue[i])
         case Batched(m) =>
           var q := queue[..i] + queue[i + 1..];
           Behind(q[..i], Gathered(m, q[i..]))
         case NotBatchable => Behind(queue[..i + 1], Gathered(p, queue[i + 1..]))
         case TerminateBatch => (p, queue)
  {
    hide Batch;
    if i < |queue| {
      assert queue[i..][1..] == queue[i + 1..];
      var q := queue[..i] + queue[i + 1..];
      assert q[..i] == queue[..i] && q[i..] == queue[i + 1..];
      assert queue[..i] + queue[i..] == queue;
      var rest := Gathered(p, queue[i + 1..]).1;
      assert queue[..i] + ([queue[i]] + rest) == queue[..i + 1] + rest;
    } else {
      assert queue[..i] + [] == queue;
    }
  }

  /** p has taken in all it can from the queue: everything up to a packet that it must not pass and cannot take in was passed over. */
  ghost predicate FullyMerged(p: Packet, queue: seq<Packet>) {
    exists i :: PassesOver(p, queue, i) && (i == |queue| || (!Passable(queue[i], p) && !TakesIn(p, queue[i])))
  }

  ghost predicate PassesOver(p: Packet, queue: seq<Packet>, i: int) {
    0 <= i <= |queue| && forall j :: 0 <= j < i ==> Passable(queue[j], p)
  }

  /** What a summing packet adds, by axis. */
  function Delta(p: Packet): (int, int) {
    match p
    case RelMouse(x, y) => (x, y)
    case Scroll(amt, _) => (amt, 0)
    case HScroll(amt) => (0, amt)
    case _ => (0, 0)
  }

  function TotalDelta(run: seq<Packet>): (int, int) {
    if run == [] then (0, 0)
    else var (x, y) := TotalDelta(run[..|run| - 1]); (x + Delta(run[|run| - 1]).0, y + Delta(run[|run| - 1]).1)
  }

  predicate CongruentDelta(a: (int, int), b: (int, int)) {
    (a.0 - b.0) % 0x1_0000 == 0 && (a.1 - b.1) % 0x1_0000 == 0
  }

  /** Two summing packets are merged exactly when none of their sums fits, so a merge never conserves the sum itself,
      but always conserves it modulo 65536. */
  lemma SummedExactlyOnOverflow(dest: Packet, src: Packet)
    requires Summing(MagicOf(dest)) && MagicOf(src) == MagicOf(dest)
    ensures var sum := (Delta(dest).0 + Delta(src).0, Delta(dest).1 + Delta(src).1);
            && (Batch(dest, src).Batched? <==> (!dest.HScroll? ==> !Fits(sum.0)) && (!dest.Scroll? ==> !Fits(sum.1)))
            && (Batch(dest, src).Batched? ==>
                  Delta(Batch(dest, src).merged) != sum && CongruentDelta(Delta(Batch(dest, src).merged), sum))
            && (Batch(dest, src).Batched? && dest.Scroll? ==>
                  Batch(dest, src).merged.scrollAmt2 == Batch(dest, src).merged.scrollAmt1)
  {
  }

  /** Two moves of 30000 to the right come out as one move of 5536 to the left. */
  lemma MergedMoveTurnsRound()
    ensures Batch(RelMouse(30000, 30000), RelMouse(30000, 30000)) == Batched(RelMouse(-5536, -5536))
  {
  }

  // ----- Runs of merged packets -----

  /** What a run of packets merges into, from left to right, if it merges at all. */
  function Merged(run: seq<Packet>): BatchResult {
    if run == [] then TerminateBatch
    else if |run| == 1 then Batched(run[0])
    else match Merged(run[..|run| - 1])
         case Batched(m) => Batch(m, run[|run| - 1])
         case r => r
  }

  lemma {:induction false} MergedKey(run: seq<Packet>)
    requires Merged(run).Batched?
    ensures forall j :: 0 <= j < |run| ==> KeyOf(run[j]) == KeyOf(Merged(run).merged)
  {
    if |run| > 1 {
      var init := run[..|run| - 1];
      MergedKey(init);
      BatchKeepsDevice(Merged(init).merged, run[|run| - 1]);
      forall j | 0 <= j < |run|
        ensures KeyOf(run[j]) == KeyOf(Merged(run).merged)
      {
        if j < |init| {
          assert run[j] == init[j];
        }
      }
    }
  }

  /** All packets of a merged run would pass over the same packets. */
  lemma {:induction false} MergedPasses(run: seq<Packet>, q: Packet)
    requires Merged(run).Batched?
    ensures forall j :: 0 <= j < |run| ==> Passable(q, run[j]) == Passable(q, Merged(run).merged)
  {
    hide Batch, Passable;
    if |run| > 1 {
      var init := run[..|run| - 1];
      MergedPasses(init, q);
      StillPassable(Merged(init).merged, run[|run| - 1]);
      forall j | 0 <= j < |run|
        ensures Passable(q, run[j]) == Passable(q, Merged(run).merged)
      {
        if j < |init| {
          assert run[j] == init[j];
        }
      }
    }
  }

  lemma SupersedesTrans(a: Packet, b: Packet, c: Packet)
    requires Supersedes(b, a) && Supersedes(c, b)
    ensures Supersedes(c, a)
  {
  }

  /** A merged run of states is its last packet, and each packet of the run makes every earlier one obsolete. */
  lemma {:induction false} MergedIsLast(run: seq<Packet>)
    requires Merged(run).Batched? && !Summing(MagicOf(run[0]))
    ensures Merged(run).merged == run[|run| - 1]
    ensures forall i, j :: 0 <= i < j < |run| ==> Supersedes(run[j], run[i])
  {
    hide Supersedes;
    if |run| > 1 {
      var init := run[..|run| - 1];
      var n := |init|;
      MergedIsLast(init);
      MergedKey(init);
      assert init[0] == run[0];
      KeyHasMagic(run[0], init[n - 1]);
      BatchedExactlyWhenSuperseded(init[n - 1], run[n]);
      forall i, j | 0 <= i < j < |run|
        ensures Supersedes(run[j], run[i])
      {
        assert run[i] == init[i];
        if j < n {
          assert run[j] == init[j];
        } else if i < n - 1 {
          SupersedesTrans(init[i], init[n - 1], run[n]);
        }
      }
    }
  }

  lemma KeyHasMagic(p: Packet, q: Packet)
    ensures KeyOf(p) == KeyOf(q) ==> MagicOf(p) == MagicOf(q)
  {
  }

  /** A merged run of movements moves by the total of the run, modulo 65536. */
  lemma {:induction false} MergedConservesDelta(run: seq<Packet>)
    requires Merged(run).Batched? && Summing(MagicOf(run[0]))
    ensures CongruentDelta(Delta(Merged(run).merged), TotalDelta(run))
  {
    hide Batch, Delta, CongruentDelta, Summing, MagicOf;
    if |run| == 1 {
      assert run[..0] == [];
      SameDelta(Delta(run[0]));
    } else {
      var init, last := run[..|run| - 1], run[|run| - 1];
      MergedConservesDelta(init);
      MergedKey(init);
      KeyHasMagic(init[0], Merged(init).merged);
      BatchKeepsDevice(Merged(init).merged, last);
      KeyHasMagic(last, Merged(init).merged);
      SummedExactlyOnOverflow(Merged(init).merged, last);
      CongruentStep(Delta(Merged(run).merged), Delta(Merged(init).merged), TotalDelta(init), Delta(last));
    }
  }

  lemma SameDelta(d: (int, int))
    ensures CongruentDelta(d, (0 + d.0, 0 + d.1))
  {
  }

  lemma CongruentStep(m: (int, int), a: (int, int), t: (int, int), d: (int, int))
    requires CongruentDelta(m, (a.0 + d.0, a.1 + d.1)) && CongruentDelta(a, t)
    ensures CongruentDelta(m, (t.0 + d.0, t.1 + d.1))
  {
    assert m.0 - (t.0 + d.0) == (m.0 - (a.0 + d.0)) + (a.0 - t.0);
    assert m.1 - (t.1 + d.1) == (m.1 - (a.1 + d.1)) + (a.1 - t.1);
  }
}
